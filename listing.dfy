/**
 * The folder scanner: `get_dirs` lists the folders to process under the
 * main directory and `get_videos` the parts inside one folder. Both filter
 * the directory's entries, then sort the names they kept.
 */
module Listing {
  import opened Wrappers
  import opened Names
  import opened Order

  /** One entry of a directory: its name and what `is_dir()` / `is_file()` say. */
  datatype Entry = Entry(name: string, isDir: bool, isFile: bool)

  /** What the filesystem shows of a path: whether `is_dir()` holds and the
      entries `iterdir()` yields, None when listing raised OSError. */
  datatype Dir = Dir(isDir: bool, entries: Option<seq<Entry>>)

  /** `p.is_dir() and not p.name.startswith(('_', '.'))` */
  predicate IsFolder(e: Entry)
  {
    e.isDir && !IsHidden(e.name)
  }

  /** `file.is_file() and file.suffix.lower()[1:] in VIDEO_EXTENSIONS` */
  predicate IsVideoFile(e: Entry)
  {
    e.isFile && IsVideoName(e.name)
  }

  /** The names of the entries that pass `keep`, in listing order. */
  function Kept(es: seq<Entry>, keep: Entry -> bool): seq<string>
  {
    if |es| == 0 then []
    else Kept(es[..|es| - 1], keep) + (if keep(es[|es| - 1]) then [es[|es| - 1].name] else [])
  }

  /** A name is kept exactly when some entry with that name passes the filter. */
  lemma {:induction false} KeptMembership(es: seq<Entry>, keep: Entry -> bool, n: string)
    ensures n in Kept(es, keep) <==> exists k :: 0 <= k < |es| && keep(es[k]) && es[k].name == n
    decreases |es|
  {
    if |es| > 0 {
      var init := es[..|es| - 1];
      KeptMembership(init, keep, n);
      if exists k :: 0 <= k < |es| && keep(es[k]) && es[k].name == n {
        var k :| 0 <= k < |es| && keep(es[k]) && es[k].name == n;
        if k < |es| - 1 { assert init[k] == es[k]; }
      }
      if n in Kept(init, keep) {
        var k :| 0 <= k < |init| && keep(init[k]) && init[k].name == n;
        assert es[k] == init[k];
      }
    }
  }

  /** The names `get_dirs` returns, before sorting. */
  function FolderNames(root: Dir): seq<string>
  {
    if !root.isDir || root.entries.None? then [] else Kept(root.entries.value, IsFolder)
  }

  /** The names `get_videos` returns, before sorting. */
  function VideoNames(dir: Dir): seq<string>
  {
    if !dir.isDir || dir.entries.None? then [] else Kept(dir.entries.value, IsVideoFile)
  }

  /** The filtering comprehension of both listing functions. */
  method FilterEntries(es: seq<Entry>, keep: Entry -> bool) returns (found: seq<string>)
    ensures found == Kept(es, keep)
  {
    found := [];
    var i := 0;
    while i < |es|
      invariant 0 <= i <= |es|
      invariant found == Kept(es[..i], keep)
    {
      assert es[..i + 1][..i] == es[..i];
      if keep(es[i]) {
        found := found + [es[i].name];
      }
      i := i + 1;
    }
    assert es[..i] == es;
  }

  /**
   * `get_dirs`: the sorted names of the sub-directories of the main path
   * that do not start with '_' or '.'; empty when the path is not a
   * directory or cannot be listed.
   */
  method GetDirs(root: Dir) returns (dirs: seq<string>)
    ensures Sorted(dirs)
    ensures multiset(dirs) == multiset(FolderNames(root))
    ensures forall n :: n in dirs <==>
      root.isDir && root.entries.Some? &&
      exists k :: 0 <= k < |root.entries.value| && IsFolder(root.entries.value[k]) && root.entries.value[k].name == n
    ensures forall n :: n in dirs ==> !IsHidden(n)
  {
    if !root.isDir || root.entries.None? {
      return [];
    }
    var found := FilterEntries(root.entries.value, IsFolder);
    dirs := SortNames(found);
    forall n ensures n in dirs <==> n in found {
      assert n in dirs <==> n in multiset(dirs);
    }
    forall n ensures n in found <==> exists k :: 0 <= k < |root.entries.value| && IsFolder(root.entries.value[k]) && root.entries.value[k].name == n {
      KeptMembership(root.entries.value, IsFolder, n);
    }
  }

  /**
   * `get_videos`: the sorted names of the files of a folder whose lower-cased
   * suffix without its dot is "mp4" or "mkv"; empty when the path is not a
   * directory or cannot be listed. This order is the concatenation order.
   */
  method GetVideos(dir: Dir) returns (videos: seq<string>)
    ensures Sorted(videos)
    ensures multiset(videos) == multiset(VideoNames(dir))
    ensures forall n :: n in videos <==>
      dir.isDir && dir.entries.Some? &&
      exists k :: 0 <= k < |dir.entries.value| && IsVideoFile(dir.entries.value[k]) && dir.entries.value[k].name == n
  {
    if !dir.isDir || dir.entries.None? {
      return [];
    }
    var found := FilterEntries(dir.entries.value, IsVideoFile);
    videos := SortNames(found);
    forall n ensures n in videos <==> n in found {
      assert n in videos <==> n in multiset(videos);
    }
    forall n ensures n in found <==> exists k :: 0 <= k < |dir.entries.value| && IsVideoFile(dir.entries.value[k]) && dir.entries.value[k].name == n {
      KeptMembership(dir.entries.value, IsVideoFile, n);
    }
  }
}
