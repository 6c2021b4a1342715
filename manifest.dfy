/**
 * The list file handed to FFmpeg's concat demuxer: one `file '<path>'` line
 * per included part, with the part's absolute path and its backslashes turned
 * into forward slashes.
 *
 * To say what such a file means, this module also models how the demuxer
 * reads it back: lines end at a line feed or carriage return, a line that
 * starts with `file ` names one input, and the name is read like FFmpeg's
 * `av_get_token` reads a token: leading blanks are skipped, text between
 * single quotes is taken literally, a backslash outside quotes takes the next
 * character literally, and an unquoted blank ends the token.
 *
 * The reader covers the lines the script writes. The demuxer also skips
 * blanks before the keyword, knows other keywords and rejects unknown ones;
 * here any line that does not start with `file ` names nothing.
 */
module Manifest {
  import opened Wrappers

  predicate IsBlank(c: char)
  {
    c == ' ' || c == '\t' || c == '\n' || c == '\r'
  }

  predicate IsLineEnd(c: char)
  {
    c == '\n' || c == '\r'
  }

  /** `str(path).replace("\\", "/")`: no backslash is left, a path without
      one is unchanged, and neither line breaks nor single quotes are made or
      lost, so the read-back lemmas hold for the slashed path exactly when
      they hold for the resolved one. */
  function Slashed(s: string): (r: string)
    ensures |r| == |s|
    ensures forall i :: 0 <= i < |r| ==> r[i] != '\\'
    ensures (forall i :: 0 <= i < |s| ==> s[i] != '\\') ==> r == s
    ensures NoLineEnd(r) <==> NoLineEnd(s)
    ensures NoQuote(r) <==> NoQuote(s)
  {
    var r := seq(|s|, i requires 0 <= i < |s| => if s[i] == '\\' then '/' else s[i]);
    assert forall j :: 0 <= j < |s| ==> (IsLineEnd(r[j]) <==> IsLineEnd(s[j])) && (r[j] == '\'' <==> s[j] == '\'');
    r
  }

  /** Text between single quotes. */
  function InQuotes(s: string): string
  {
    "'" + s + "'"
  }

  /** The line the script writes for one part: the path between single quotes,
      with nothing escaped. */
  function LineAsWritten(path: string): string
  {
    "file " + InQuotes(path) + "\n"
  }

  /** The path with every single quote written as `'\''`: close the quotes,
      an escaped quote, open the quotes again. */
  function Escaped(s: string): string
  {
    if s == [] then [] else (if s[0] == '\'' then ['\'', '\\', '\'', '\''] else [s[0]]) + Escaped(s[1..])
  }

  /** The line for one part with the quote escaped, as the concat demuxer needs. */
  function Line(path: string): string
  {
    "file " + InQuotes(Escaped(path)) + "\n"
  }

  /** The whole list file for the given paths, one line each, in order. */
  function ManifestText(paths: seq<string>): string
  {
    if paths == [] then [] else Line(paths[0]) + ManifestText(paths[1..])
  }

  /** The list file as the script writes it, with nothing escaped. */
  function ManifestTextAsWritten(paths: seq<string>): string
  {
    if paths == [] then [] else LineAsWritten(paths[0]) + ManifestTextAsWritten(paths[1..])
  }

  /** The path written for each included part: resolved, then slashed. */
  function SafePaths(parts: seq<string>, resolve: string -> string): seq<string>
  {
    seq(|parts|, k requires 0 <= k < |parts| => Slashed(resolve(parts[k])))
  }

  lemma {:induction false} ManifestTextAppend(paths: seq<string>, p: string)
    ensures ManifestText(paths + [p]) == ManifestText(paths) + Line(p)
    decreases |paths|
  {
    if paths != [] {
      assert (paths + [p])[1..] == paths[1..] + [p];
      ManifestTextAppend(paths[1..], p);
    }
  }

  /** The loop that fills the list file: one line per included part, in order. */
  method BuildManifest(parts: seq<string>, resolve: string -> string) returns (text: string)
    ensures text == ManifestText(SafePaths(parts, resolve))
    // For resolved paths without a single quote, this is the script's own file.
    ensures (forall k :: 0 <= k < |parts| ==> NoQuote(resolve(parts[k]))) ==>
      text == ManifestTextAsWritten(SafePaths(parts, resolve))
  {
    ghost var paths := SafePaths(parts, resolve);
    text := [];
    var i := 0;
    while i < |parts|
      invariant 0 <= i <= |parts|
      invariant text == ManifestText(paths[..i])
    {
      var safePath := Slashed(resolve(parts[i]));
      assert paths[..i + 1] == paths[..i] + [safePath];
      ManifestTextAppend(paths[..i], safePath);
      text := text + Line(safePath);
      i := i + 1;
    }
    assert paths[..i] == paths;
    if forall k :: 0 <= k < |parts| ==> NoQuote(resolve(parts[k])) {
      AsWrittenManifestAgrees(paths);
    }
  }

  // ---- Reading the list file back, as the concat demuxer does ----

  function SkipBlanks(s: string): string
  {
    if s != [] && IsBlank(s[0]) then SkipBlanks(s[1..]) else s
  }

  /** The rest of a token, outside quotes. */
  function Unquoted(s: string): string
    decreases |s|
  {
    if s == [] || IsBlank(s[0]) then []
    else if s[0] == '\\' && |s| > 1 then [s[1]] + Unquoted(s[2..])
    else if s[0] == '\'' then Quoted(s[1..])
    else [s[0]] + Unquoted(s[1..])
  }

  /** The rest of a token, inside quotes. */
  function Quoted(s: string): string
    decreases |s|
  {
    if s == [] then []
    else if s[0] == '\'' then Unquoted(s[1..])
    else [s[0]] + Quoted(s[1..])
  }

  function Token(s: string): string
  {
    Unquoted(SkipBlanks(s))
  }

  /** The file named by one line, if the line is a `file` directive. */
  function Directive(line: string): Option<string>
  {
    if |line| >= 5 && line[..5] == "file " then Some(Token(line[5..])) else None
  }

  /** The length of the first line of s. */
  function LineEnd(s: string): (i: nat)
    ensures i <= |s|
    ensures forall j :: 0 <= j < i ==> !IsLineEnd(s[j])
    ensures i < |s| ==> IsLineEnd(s[i])
  {
    if s == [] || IsLineEnd(s[0]) then 0 else 1 + LineEnd(s[1..])
  }

  /** The file a line names: one if it is a `file` directive, none otherwise. */
  function Named(line: string): seq<string>
  {
    match Directive(line)
    case Some(f) => [f]
    case None => []
  }

  /** The files a list file names, in order. */
  function ReadManifest(text: string): seq<string>
    decreases |text|
  {
    if text == [] then []
    else
      var i := LineEnd(text);
      var rest := if i < |text| then text[i + 1..] else [];
      Named(text[..i]) + ReadManifest(rest)
  }

  predicate NoLineEnd(s: string)
  {
    forall j :: 0 <= j < |s| ==> !IsLineEnd(s[j])
  }

  predicate NoQuote(s: string)
  {
    forall j :: 0 <= j < |s| ==> s[j] != '\''
  }

  lemma NoLineEndConcat(a: string, b: string)
    ensures NoLineEnd(a + b) <==> NoLineEnd(a) && NoLineEnd(b)
  {
    if NoLineEnd(a) && NoLineEnd(b) {
      forall j | 0 <= j < |a + b| ensures !IsLineEnd((a + b)[j]) {
        if j >= |a| {
          assert (a + b)[j] == b[j - |a|];
        }
      }
    }
    if NoLineEnd(a + b) {
      forall j | 0 <= j < |a| ensures !IsLineEnd(a[j]) {
        assert (a + b)[j] == a[j];
      }
      forall j | 0 <= j < |b| ensures !IsLineEnd(b[j]) {
        assert (a + b)[|a| + j] == b[j];
      }
    }
  }

  lemma QuotedCons(c: char, r: string)
    ensures Quoted([c] + r) == if c == '\'' then Unquoted(r) else [c] + Quoted(r)
  {
    assert ([c] + r)[1..] == r;
  }

  lemma UnquotedCons(c: char, r: string)
    ensures Unquoted([c] + r) ==
      if IsBlank(c) then []
      else if c == '\\' && r != [] then [r[0]] + Unquoted(r[1..])
      else if c == '\'' then Quoted(r)
      else [c] + Unquoted(r)
  {
    assert ([c] + r)[1..] == r;
    if |r| > 0 {
      assert ([c] + r)[2..] == r[1..];
    }
  }

  /** A `file` line names the token after the keyword. */
  lemma DirectiveOfFileLine(arg: string)
    ensures Directive("file " + arg) == Some(Token(arg))
  {
    assert ("file " + arg)[..5] == "file ";
    assert ("file " + arg)[5..] == arg;
  }

  /** A token that opens with a quote is read as quoted text. */
  lemma TokenOfQuoted(r: string)
    ensures Token("'" + r) == Quoted(r)
  {
    assert "'" + r == ['\''] + r;
    UnquotedCons('\'', r);
  }

  /** Reading a list file takes its first line, then reads the rest. */
  lemma ReadFirstLine(line: string, rest: string)
    requires NoLineEnd(line)
    ensures ReadManifest(line + "\n" + rest) == Named(line) + ReadManifest(rest)
  {
    var s := line + "\n" + rest;
    assert s[|line|] == '\n';
    assert forall j :: 0 <= j < |line| ==> s[j] == line[j];
    assert LineEnd(s) == |line|;
    assert s[..|line|] == line;
    assert s[|line| + 1..] == rest;
  }

  /** Inside quotes, `'\''` reads as one single quote and stays inside quotes. */
  lemma QuotedEscapedQuote(r: string)
    ensures Quoted(['\'', '\\', '\'', '\''] + r) == "'" + Quoted(r)
  {
    var s3 := ['\''] + r;
    var s2 := ['\''] + s3;
    var s1 := ['\\'] + s2;
    assert ['\'', '\\', '\'', '\''] + r == ['\''] + s1;
    QuotedCons('\'', s1);
    UnquotedCons('\\', s2);
    UnquotedCons('\'', r);
  }

  /** Inside quotes, an escaped path followed by the closing quote reads as the
      path itself; reading then carries on outside the quotes. */
  lemma {:induction false} QuotedEscaped(p: string, t: string)
    ensures Quoted(Escaped(p) + "'" + t) == p + Unquoted(t)
    decreases |p|
  {
    if p == [] {
      assert Escaped(p) + "'" + t == ['\''] + t;
      QuotedCons('\'', t);
    } else {
      QuotedEscaped(p[1..], t);
      var r := Escaped(p[1..]) + "'" + t;
      var head := if p[0] == '\'' then ['\'', '\\', '\'', '\''] else [p[0]];
      assert Escaped(p) + "'" + t == head + r;
      assert Quoted(head + r) == [p[0]] + Quoted(r) by {
        if p[0] == '\'' {
          QuotedEscapedQuote(r);
        } else {
          QuotedCons(p[0], r);
        }
      }
      assert p == [p[0]] + p[1..];
    }
  }

  lemma {:induction false} EscapedKeepsLineEndsOut(p: string)
    requires NoLineEnd(p)
    ensures NoLineEnd(Escaped(p))
    decreases |p|
  {
    if p != [] {
      assert p == [p[0]] + p[1..];
      NoLineEndConcat([p[0]], p[1..]);
      EscapedKeepsLineEndsOut(p[1..]);
      NoLineEndConcat(if p[0] == '\'' then ['\'', '\\', '\'', '\''] else [p[0]], Escaped(p[1..]));
    }
  }

  /** One escaped line reads back as its path, whatever follows it. */
  lemma LineReadsBack(p: string, rest: string)
    requires NoLineEnd(p)
    ensures ReadManifest(Line(p) + rest) == [p] + ReadManifest(rest)
  {
    var e := Escaped(p);
    var line := "file " + InQuotes(e);
    assert NoLineEnd(line) by {
      EscapedKeepsLineEndsOut(p);
      NoLineEndConcat("'", e);
      NoLineEndConcat("'" + e, "'");
      NoLineEndConcat("file ", InQuotes(e));
    }
    assert ReadManifest(Line(p) + rest) == Named(line) + ReadManifest(rest) by {
      ReadFirstLine(line, rest);
    }
    assert Token(InQuotes(e)) == p by {
      assert InQuotes(e) == "'" + (e + "'" + []);
      TokenOfQuoted(e + "'" + []);
      QuotedEscaped(p, []);
      assert Unquoted([]) == [];
    }
    DirectiveOfFileLine(InQuotes(e));
  }

  /**
   * The corrected list file names exactly the paths it was written from, in order,
   * whenever no path holds a line break.
   */
  lemma {:induction false} ManifestReadsBack(paths: seq<string>)
    requires forall k :: 0 <= k < |paths| ==> NoLineEnd(paths[k])
    ensures ReadManifest(ManifestText(paths)) == paths
    decreases |paths|
  {
    if paths != [] {
      ManifestReadsBack(paths[1..]);
      LineReadsBack(paths[0], ManifestText(paths[1..]));
    }
  }

  /** Without a single quote in the path, the escaping changes nothing. */
  lemma {:induction false} EscapedWithoutQuote(p: string)
    requires NoQuote(p)
    ensures Escaped(p) == p
    decreases |p|
  {
    if p != [] {
      EscapedWithoutQuote(p[1..]);
    }
  }

  /** The line as the script writes it is the corrected line for every path
      without a single quote. */
  lemma AsWrittenAgreesWithoutQuote(p: string)
    requires NoQuote(p)
    ensures LineAsWritten(p) == Line(p)
  {
    EscapedWithoutQuote(p);
  }

  /** For paths without a single quote, the script's list file is the
      corrected one. */
  lemma {:induction false} AsWrittenManifestAgrees(paths: seq<string>)
    requires forall k :: 0 <= k < |paths| ==> NoQuote(paths[k])
    ensures ManifestTextAsWritten(paths) == ManifestText(paths)
    decreases |paths|
  {
    if paths != [] {
      AsWrittenAgreesWithoutQuote(paths[0]);
      AsWrittenManifestAgrees(paths[1..]);
    }
  }

  /** The script's own list file names exactly the paths it was written from, in order,
      when no path holds a single quote or a line break. */
  lemma AsWrittenReadsBack(paths: seq<string>)
    requires forall k :: 0 <= k < |paths| ==> NoQuote(paths[k]) && NoLineEnd(paths[k])
    ensures ReadManifest(ManifestTextAsWritten(paths)) == paths
  {
    AsWrittenManifestAgrees(paths);
    ManifestReadsBack(paths);
  }

  /** Quoted text without a quote in it is taken as it is. */
  lemma {:induction false} QuotedPlain(a: string, t: string)
    requires NoQuote(a)
    ensures Quoted(a + "'" + t) == a + Unquoted(t)
    decreases |a|
  {
    if a == [] {
      assert a + "'" + t == ['\''] + t;
      QuotedCons('\'', t);
    } else {
      var rest := a[1..] + "'" + t;
      QuotedPlain(a[1..], t);
      assert Quoted(a + "'" + t) == [a[0]] + Quoted(rest) by {
        assert a + "'" + t == [a[0]] + rest;
        QuotedCons(a[0], rest);
      }
      assert a == [a[0]] + a[1..];
    }
  }

  predicate Bare(c: char)
  {
    !IsBlank(c) && c != '\'' && c != '\\'
  }

  /** Unquoted text of plain characters is taken as it is, up to a quote. */
  lemma {:induction false} UnquotedPlain(b: string, t: string)
    requires forall j :: 0 <= j < |b| ==> Bare(b[j])
    ensures Unquoted(b + "'" + t) == b + Quoted(t)
    decreases |b|
  {
    if b == [] {
      assert b + "'" + t == ['\''] + t;
      UnquotedCons('\'', t);
    } else {
      var rest := b[1..] + "'" + t;
      UnquotedPlain(b[1..], t);
      assert Unquoted(b + "'" + t) == [b[0]] + Unquoted(rest) by {
        assert b + "'" + t == [b[0]] + rest;
        UnquotedCons(b[0], rest);
      }
      assert b == [b[0]] + b[1..];
    }
  }

  /**
   * With a single quote in the path, the line as the script writes it names
   * another file: the quote ends the quoted text, and the closing quote of
   * the line opens a quoted text that runs to the end of the line. So the
   * path `a'b` is read as `ab`.
   */
  lemma AsWrittenMisreadsQuote(a: string, b: string)
    requires NoQuote(a) && NoLineEnd(a)
    requires forall j :: 0 <= j < |b| ==> Bare(b[j]) && !IsLineEnd(b[j])
    ensures ReadManifest(LineAsWritten(a + "'" + b)) == [a + b]
    ensures ReadManifest(LineAsWritten(a + "'" + b)) != [a + "'" + b]
  {
    var path := a + "'" + b;
    var line := "file " + InQuotes(path);
    assert NoLineEnd(line) by {
      assert NoLineEnd(b);
      NoLineEndConcat("'", a);
      NoLineEndConcat("'" + a, "'");
      NoLineEndConcat("'" + a + "'", b);
      NoLineEndConcat("'" + a + "'" + b, "'");
      assert InQuotes(path) == "'" + a + "'" + b + "'";
      NoLineEndConcat("file ", InQuotes(path));
    }
    assert ReadManifest(LineAsWritten(path)) == Named(line) by {
      ReadFirstLine(line, []);
      assert LineAsWritten(path) == line + "\n" + [];
    }
    assert Token(InQuotes(path)) == a + b by {
      assert InQuotes(path) == "'" + (a + "'" + (b + "'" + []));
      TokenOfQuoted(a + "'" + (b + "'" + []));
      QuotedPlain(a, b + "'" + []);
      UnquotedPlain(b, []);
      assert Quoted([]) == [];
    }
    DirectiveOfFileLine(InQuotes(path));
    assert |a + b| != |path|;
  }
}
