/**
 * File-name rules used when the script scans folders: the hidden-name
 * prefix test, pathlib's `suffix`, Python's `str.lower()` as far as it can
 * matter here, and the recognised video extensions.
 */
module Names {

  /** The extensions (without their dot) that mark a file as a video part. */
  const VideoExtensions: seq<string> := ["mp4", "mkv"]

  /** `name.startswith(('_', '.'))`: folders named so are skipped. */
  predicate IsHidden(name: string)
  {
    |name| > 0 && (name[0] == '_' || name[0] == '.')
  }

  /** `str.rfind('.')`: the index of the last dot, or -1 when there is none. */
  function LastDot(s: string): (i: int)
    ensures -1 <= i < |s|
    ensures i >= 0 ==> s[i] == '.' && forall j :: i < j < |s| ==> s[j] != '.'
    ensures i == -1 ==> forall j :: 0 <= j < |s| ==> s[j] != '.'
  {
    if |s| == 0 then -1
    else if s[|s| - 1] == '.' then |s| - 1
    else LastDot(s[..|s| - 1])
  }

  /** `ext` is a pathlib suffix of `name`: a proper tail of at least two
      characters that starts with the only dot it contains. */
  predicate SuffixSplit(name: string, ext: string)
  {
    && 2 <= |ext| < |name|
    && ext[0] == '.'
    && (forall j :: 1 <= j < |ext| ==> ext[j] != '.')
    && name[|name| - |ext|..] == ext
  }

  /**
   * pathlib's `PurePath.suffix`: the text from the last dot on, but only
   * when that dot is neither the first nor the last character of the name
   * (so `.mp4` and `a.` have no suffix).
   */
  function Suffix(name: string): (r: string)
    ensures r == [] || SuffixSplit(name, r)
  {
    var i := LastDot(name);
    if 0 < i < |name| - 1 then name[i..] else []
  }

  /** The suffix is exactly the split described by SuffixSplit: both directions. */
  lemma SuffixCharacterised(name: string, ext: string)
    requires ext != []
    ensures Suffix(name) == ext <==> SuffixSplit(name, ext)
  {
    if SuffixSplit(name, ext) {
      var k := |name| - |ext|;
      assert name[k] == ext[0] == '.';
      forall j | k < j < |name| ensures name[j] != '.' {
        assert name[j] == ext[j - k];
      }
      assert LastDot(name) == k;
    }
  }

  /** `str.lower()` on one character, for the characters whose lower case is
      an ASCII letter: A-Z and the KELVIN SIGN, which lowers to 'k'. Every
      other character keeps its value here; its real lower case is not an
      ASCII letter or digit, so the extension test cannot tell the difference. */
  function LowerChar(c: char): char
  {
    if 'A' <= c <= 'Z' then (c as int + 32) as char
    else if c == '\U{212A}' then 'k'
    else c
  }

  function Lower(s: string): string
  {
    seq(|s|, i requires 0 <= i < |s| => LowerChar(s[i]))
  }

  /** `s[1:]`, which is empty for the empty string. */
  function DropFirst(s: string): string
  {
    if |s| == 0 then s else s[1..]
  }

  /** `file.suffix.lower()[1:] in VIDEO_EXTENSIONS` */
  predicate IsVideoName(name: string)
  {
    DropFirst(Lower(Suffix(name))) in VideoExtensions
  }

  /** The test that VideoNameCharacterised shows equivalent to IsVideoName. */
  predicate EndsWithVideoExtension(name: string)
  {
    |name| >= 5 && name[|name| - 4] == '.' && Lower(name[|name| - 3..]) in VideoExtensions
  }

  lemma VideoNameOnlyIf(name: string)
    requires IsVideoName(name)
    ensures EndsWithVideoExtension(name)
  {
    var sfx := Suffix(name);
    assert DropFirst(Lower([])) !in VideoExtensions;
    assert |sfx| == 4;
    assert Lower(sfx)[1..] == Lower(sfx[1..]);
    assert sfx[1..] == name[|name| - 3..];
  }

  lemma VideoExtensionHasNoDot(tail: string)
    requires |tail| == 3 && Lower(tail) in VideoExtensions
    ensures forall j :: 0 <= j < 3 ==> tail[j] != '.'
  {
    var low := Lower(tail);
    assert low == "mp4" || low == "mkv";
    forall j | 0 <= j < 3 ensures tail[j] != '.' {
      assert low[j] == LowerChar(tail[j]);
    }
  }

  lemma SuffixOfVideoExtension(name: string)
    requires EndsWithVideoExtension(name)
    ensures Suffix(name) == name[|name| - 4..]
  {
    var ext := name[|name| - 4..];
    var tail := name[|name| - 3..];
    VideoExtensionHasNoDot(tail);
    forall j | 1 <= j < 4 ensures ext[j] != '.' {
      assert ext[j] == tail[j - 1];
    }
    SuffixCharacterised(name, ext);
  }

  lemma VideoNameIf(name: string)
    requires EndsWithVideoExtension(name)
    ensures IsVideoName(name)
  {
    var ext := name[|name| - 4..];
    SuffixOfVideoExtension(name);
    assert ext[1..] == name[|name| - 3..];
    assert Lower(ext)[1..] == Lower(ext[1..]);
  }

  /**
   * A name is a video part exactly when it has at least one character
   * before a final four-character ".ext" whose lower-cased letters are a
   * recognised extension. So `_x.mp4` and `a.MKV` are parts, `.mp4` is not.
   */
  lemma VideoNameCharacterised(name: string)
    ensures IsVideoName(name) <==> EndsWithVideoExtension(name)
  {
    if IsVideoName(name) { VideoNameOnlyIf(name); }
    if EndsWithVideoExtension(name) { VideoNameIf(name); }
  }

  /** Parts are recognised whatever the case of their extension, and a
      leading underscore does not hide a file. */
  lemma AcceptedPartNames()
    ensures IsVideoName("a.mp4") && IsVideoName("_x.MKV")
  {
    assert Lower("mp4") == "mp4";
    assert Lower("MKV") == "mkv";
    VideoNameIf("a.mp4");
    VideoNameIf("_x.MKV");
  }

  /** A leading or trailing dot is not a suffix, and other extensions are ignored. */
  lemma RejectedPartNames()
    ensures !IsVideoName(".mp4") && !IsVideoName("a.") && !IsVideoName("a.avi")
  {
    VideoNameOnlyIfShort(".mp4");
    VideoNameOnlyIfShort("a.");
    assert Lower("avi") == "avi";
    if IsVideoName("a.avi") { VideoNameOnlyIf("a.avi"); }
  }

  lemma VideoNameOnlyIfShort(name: string)
    requires |name| < 5
    ensures !IsVideoName(name)
  {
    if IsVideoName(name) { VideoNameOnlyIf(name); }
  }

  /** The merged file `<folder><suffix of first part>` is itself a video
      name with that same suffix. */
  lemma OutputKeepsSuffix(folder: string, part: string)
    requires folder != [] && IsVideoName(part)
    ensures Suffix(folder + Suffix(part)) == Suffix(part)
    ensures IsVideoName(folder + Suffix(part))
  {
    var ext := Suffix(part);
    assert DropFirst(Lower([])) !in VideoExtensions;
    var out := folder + ext;
    assert out[|out| - |ext|..] == ext;
    SuffixCharacterised(out, ext);
  }
}
