/**
 * The folder loop of `main`, after its start-up checks: every visible sub-folder of the source
 * directory, in sorted order, is listed for video files and merged, and the
 * folders are counted as processed, merged or failed. A missing tool raised
 * out of a merge stops the loop.
 *
 * How a call of `merge_video` ends is given per folder, as its result or the
 * exception it raised.
 */
module Batch {
  import opened Names
  import opened Order
  import opened Listing

  /** How one call of `merge_video` ends, as the loop sees it. */
  datatype CallResult = Returned(success: bool) | RaisedToolMissing | RaisedOther

  /** What the loop meets in one folder: its listing and how merging it ends. */
  datatype FolderRun = FolderRun(listing: Dir, call: CallResult)

  /** What `main` finds before the loop: whether `shutil.which` finds FFmpeg
      and ffprobe, whether both paths resolve, and whether the output
      directory could be created. */
  datatype Setup = Setup(ffmpegFound: bool, ffprobeFound: bool, pathsResolved: bool, outputCreated: bool)

  /** `main` reaches the folder loop only when both tools are found, both
      paths resolve, the main path is a directory and the output directory
      exists; otherwise it returns early. */
  predicate Ready(setup: Setup, root: Dir)
  {
    setup.ffmpegFound && setup.ffprobeFound && setup.pathsResolved && root.isDir && setup.outputCreated
  }

  /** The loop's counters, and whether it was stopped. */
  datatype Counts = Counts(processed: nat, success: nat, fail: nat, halted: bool)

  /** The counters after one more folder. */
  function Step(c: Counts, name: string, run: FolderRun): Counts
  {
    if IsHidden(name) then c
    else if VideoNames(run.listing) == [] then c.(processed := c.processed + 1, fail := c.fail + 1)
    else match run.call
      case Returned(ok) =>
        if ok then c.(processed := c.processed + 1, success := c.success + 1)
        else c.(processed := c.processed + 1, fail := c.fail + 1)
      case RaisedToolMissing => c.(processed := c.processed + 1, fail := c.fail + 1, halted := true)
      case RaisedOther => c.(processed := c.processed + 1, fail := c.fail + 1)
  }

  /** The counters after the loop has gone through the given folders, or has
      been stopped among them. Every processed folder is either merged or
      failed. */
  function Tally(names: seq<string>, runs: string -> FolderRun): (c: Counts)
    ensures c.processed == c.success + c.fail
    ensures c.processed <= |names|
  {
    if names == [] then Counts(0, 0, 0, false)
    else
      var before := Tally(names[..|names| - 1], runs);
      if before.halted then before else Step(before, names[|names| - 1], runs(names[|names| - 1]))
  }

  /** Once stopped, the loop looks at no more folders. */
  lemma {:induction false} HaltIsFinal(names: seq<string>, runs: string -> FolderRun, k: nat)
    requires k <= |names|
    ensures Tally(names[..k], runs).halted ==> Tally(names, runs) == Tally(names[..k], runs)
    decreases |names| - k
  {
    if k < |names| {
      var next := names[..k + 1];
      assert next[..k] == names[..k];
      HaltIsFinal(names, runs, k + 1);
    } else {
      assert names[..k] == names;
    }
  }

  /** A folder the loop does not skip and that holds videos. */
  predicate Attempted(name: string, run: FolderRun)
  {
    !IsHidden(name) && VideoNames(run.listing) != []
  }

  /** A folder whose merge raised a missing tool. */
  predicate StopsLoop(name: string, run: FolderRun)
  {
    Attempted(name, run) && run.call.RaisedToolMissing?
  }

  /** The loop is stopped exactly by a folder whose merge raised a missing
      tool. */
  lemma {:induction false} HaltedByToolMissing(names: seq<string>, runs: string -> FolderRun)
    ensures Tally(names, runs).halted <==> exists k :: 0 <= k < |names| && StopsLoop(names[k], runs(names[k]))
    decreases |names|
  {
    if names != [] {
      var init := names[..|names| - 1];
      HaltedByToolMissing(init, runs);
      assert forall k :: 0 <= k < |init| ==> init[k] == names[k];
    }
  }

  /** How many of the names satisfy p. */
  function Count(names: seq<string>, p: string -> bool): nat
  {
    if names == [] then 0 else Count(names[..|names| - 1], p) + (if p(names[|names| - 1]) then 1 else 0)
  }

  /**
   * Unless a missing tool stopped it, the loop processes every visible folder,
   * counts as merged exactly those whose merge returned success, and counts
   * every other visible folder (among them those without videos) as failed.
   */
  lemma {:induction false} TallyWithoutHalt(names: seq<string>, runs: string -> FolderRun)
    ensures !Tally(names, runs).halted ==>
      && Tally(names, runs).processed == Count(names, n => !IsHidden(n))
      && Tally(names, runs).success == Count(names, n => Attempted(n, runs(n)) && runs(n).call == Returned(true))
    decreases |names|
  {
    if names != [] {
      TallyWithoutHalt(names[..|names| - 1], runs);
    }
  }

  /** Names without a hidden one are all visible. */
  lemma {:induction false} CountAllVisible(names: seq<string>)
    requires forall n :: n in names ==> !IsHidden(n)
    ensures Count(names, n => !IsHidden(n)) == |names|
    decreases |names|
  {
    if names != [] {
      assert forall n :: n in names[..|names| - 1] ==> n in names;
      CountAllVisible(names[..|names| - 1]);
      assert names[|names| - 1] in names;
    }
  }

  /**
   * `main` from its start-up checks on: an early return when a tool is
   * missing, a path does not resolve, the main path is not a directory or
   * the output directory cannot be made; otherwise the folder loop.
   */
  method RunBatch(setup: Setup, root: Dir, runs: string -> FolderRun) returns (started: bool, dirs: seq<string>, counts: Counts)
    ensures started <==> Ready(setup, root)
    ensures !started ==> dirs == [] && counts == Counts(0, 0, 0, false)
    ensures started ==> Sorted(dirs) && multiset(dirs) == multiset(FolderNames(root))
    ensures started ==> counts == Tally(dirs, runs)
    ensures counts.processed == counts.success + counts.fail
    ensures started && !counts.halted ==> counts.processed == |dirs|
  {
    if !setup.ffmpegFound || !setup.ffprobeFound || !setup.pathsResolved || !root.isDir || !setup.outputCreated {
      return false, [], Counts(0, 0, 0, false);
    }
    started := true;
    dirs, counts := RunFolders(root, runs);
  }

  /**
   * The loop of `main`: the folders are listed, then each visible one is
   * listed for videos and merged, until the folders run out or a missing
   * tool stops the loop.
   */
  method RunFolders(root: Dir, runs: string -> FolderRun) returns (dirs: seq<string>, counts: Counts)
    ensures Sorted(dirs) && multiset(dirs) == multiset(FolderNames(root))
    ensures counts == Tally(dirs, runs)
    ensures counts.processed == counts.success + counts.fail
    ensures !counts.halted ==> counts.processed == |dirs|
  {
    dirs := GetDirs(root);
    var processed, success, fail := 0, 0, 0;
    for i := 0 to |dirs|
      invariant Tally(dirs[..i], runs) == Counts(processed, success, fail, false)
    {
      var name := dirs[i];
      assert dirs[..i + 1][..i] == dirs[..i];
      if IsHidden(name) {
        continue;
      }
      processed := processed + 1;
      var videos := GetVideos(runs(name).listing);
      if videos == [] {
        fail := fail + 1;
        continue;
      }
      assert VideoNames(runs(name).listing) != [] by {
        assert videos[0] in multiset(VideoNames(runs(name).listing));
      }
      match runs(name).call
      case Returned(ok) =>
        if ok {
          success := success + 1;
        } else {
          fail := fail + 1;
        }
      case RaisedToolMissing =>
        fail := fail + 1;
        counts := Counts(processed, success, fail, true);
        HaltIsFinal(dirs, runs, i + 1);
        return;
      case RaisedOther =>
        fail := fail + 1;
    }
    assert dirs[..|dirs|] == dirs;
    counts := Counts(processed, success, fail, false);
    TallyWithoutHalt(dirs, runs);
    CountAllVisible(dirs);
  }
}
