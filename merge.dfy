/**
 * `merge_video`: one folder's parts are checked, listed for FFmpeg's concat
 * demuxer and joined into `<folder><suffix of the first part>` in the output
 * directory; the merged file's duration is then compared with the sum of the
 * parts'.
 *
 * The external tools are replies given as parameters: one probe reply per
 * part, the merger's reply, and the probe reply for the merged file. What
 * the function leaves behind is gathered in an `Outcome`.
 */
module Merge {
  import opened Wrappers
  import opened Names
  import opened Probe
  import opened Validation
  import opened Manifest

  /** What running FFmpeg on the list file gives. */
  datatype MergerReply =
    | Merged
      /** FFmpeg exited with an error; `partialOutput` says whether an output
          file was left behind. */
    | MergeFailed(stderr: string, partialOutput: bool)
      /** FFmpeg is not installed. */
    | MergerMissing
      /** Any other error while writing the list file or running FFmpeg. */
    | MergeCrashed(partialOutput: bool)

  /** A diagnostic file written to the log directory. */
  datatype ErrorLog =
    | MetadataLog(folder: string, partPath: string)
    | MismatchLog(folder: string, refName: string, refWidth: int, refHeight: int,
                  partName: string, width: int, height: int, partPath: string)
    | FfmpegLog(folder: string, text: string)
  {
    function FileName(): string
    {
      match this
      case MetadataLog(folder, _) => folder + "_metadata_error.log"
      case MismatchLog(folder, _, _, _, _, _, _, _) => folder + "_resolution_mismatch.log"
      case FfmpegLog(folder, _) => folder + "_ffmpeg_error.log"
    }
  }

  /** What one call leaves behind. */
  datatype Outcome = Outcome(
    merged: bool,               // the value returned
    output: string,             // the name of the merged file
    partsProbed: nat,           // parts probed by the consistency check
    errorLog: Option<ErrorLog>, // the diagnostic file written, if any
    skippedWarning: bool,       // some parts were left out of the merge
    manifest: Option<string>,   // the list file's text, once the check passed with parts kept;
                                // Some exactly on the path that goes on to run FFmpeg
    durationChecked: bool,      // the merged file's duration was compared
    durationWarning: bool,      // and it was off by more than the tolerance
    outputDeleted: bool)        // a partial output file was removed

  const NoStderr: string := "No stderr captured from FFmpeg."

  /** The text of the FFmpeg error log: its standard error, or a note when empty. */
  function FfmpegLogText(stderr: string): (text: string)
    ensures text != []
    ensures stderr != [] ==> text == stderr
  {
    if stderr == [] then NoStderr else stderr
  }

  function Abs(x: real): real
  {
    if x < 0.0 then -x else x
  }

  /** The allowed difference between the merged duration and the sum of the
      parts: five seconds, or two per cent of the sum when that is larger. */
  function Tolerance(total: real): (t: real)
    ensures t >= 5.0 && t >= total * 0.02
    ensures t == 5.0 || t == total * 0.02
  {
    if total * 0.02 > 5.0 then total * 0.02 else 5.0
  }

  /** The duration check fails. */
  predicate Drifted(total: real, merged: real)
  {
    Abs(total - merged) > Tolerance(total)
  }

  /** The check fails exactly when the merged duration leaves the band of the
      tolerance around the sum. */
  lemma DriftedOutsideBand(total: real, merged: real)
    ensures Drifted(total, merged) <==>
      merged < total - Tolerance(total) || merged > total + Tolerance(total)
  {
  }

  /** Below 250 seconds of parts the five seconds rule, above it the two per cent. */
  lemma ToleranceRegimes(total: real)
    ensures total <= 250.0 ==> Tolerance(total) == 5.0
    ensures total >= 250.0 ==> Tolerance(total) == total * 0.02
  {
  }

  const Quiet := Outcome(false, [], 0, None, false, None, false, false, false)

  /**
   * The whole of `merge_video` for one folder of parts (the sorted listing of
   * the folder's video files), given the replies of the tools it runs.
   */
  method MergeVideo(folder: string, parts: seq<string>, outputExists: bool,
                    probes: seq<ProbeReply>, merger: MergerReply, post: ProbeReply,
                    resolve: string -> string)
    returns (r: Outcome)
    requires |probes| == |parts|
    // Nothing to merge.
    ensures parts == [] ==> r == Quiet
    // The output is named after the folder with the first part's suffix.
    ensures parts != [] ==> r.output == folder + Suffix(parts[0])
    // An existing output counts as done, without probing or merging.
    ensures parts != [] && outputExists ==> r == Quiet.(merged := true, output := r.output)
    // Otherwise the parts are checked and, if they pass, merged.
    ensures parts != [] && !outputExists ==> CheckedAndMerged(r, folder, parts, probes, merger, post, resolve)
    // The value returned, in one statement.
    ensures r.merged <==>
      parts != [] &&
      (outputExists ||
       (Clean(probes, |parts|) && Included(parts, probes, |parts|) != [] && merger.Merged? && !post.ProberMissing?))
    ensures r.errorLog.Some? ==> !r.merged
    // The duration is only compared, and only found off, after a merge.
    ensures r.durationWarning ==> r.durationChecked
    ensures r.durationChecked ==> r.merged
  {
    if parts == [] {
      return Quiet;
    }
    var output := folder + Suffix(parts[0]);
    if outputExists {
      return Quiet.(merged := true, output := output);
    }
    r := CheckAndMerge(folder, parts, probes, merger, post, resolve);
    r := r.(output := output);
  }

  /** What checking and merging the parts leaves behind. */
  predicate CheckedAndMerged(r: Outcome, folder: string, parts: seq<string>, probes: seq<ProbeReply>,
                             merger: MergerReply, post: ProbeReply, resolve: string -> string)
    requires |probes| == |parts|
  {
    // The check stopped at a part: no merge, and the diagnostic that part calls for.
    && (!Clean(probes, |parts|) ==> Stopped(r, folder, parts, probes, resolve))
    // Every part passed, but none has a positive duration.
    && (Clean(probes, |parts|) && Included(parts, probes, |parts|) == [] ==>
          r == Quiet.(output := r.output, partsProbed := |parts|))
    // Every part passed and some go into the merge.
    && (Clean(probes, |parts|) && Included(parts, probes, |parts|) != [] ==>
          && r.partsProbed == |parts|
          && r.manifest == Some(ManifestText(SafePaths(Included(parts, probes, |parts|), resolve)))
          && r.skippedWarning == (|Included(parts, probes, |parts|)| < |parts|)
          && AfterMerger(r, folder, SumDurations(IncludedMetas(probes, |parts|)), merger, post))
  }

  /** The check stopped at part `r.partsProbed - 1`: nothing was merged, and
      the diagnostic for that part was written. */
  predicate Stopped(r: Outcome, folder: string, parts: seq<string>, probes: seq<ProbeReply>, resolve: string -> string)
    requires |probes| == |parts|
  {
    && 1 <= r.partsProbed && StopsAt(probes, r.partsProbed - 1)
    && !r.merged && r.manifest.None? && !r.skippedWarning && !r.durationChecked && !r.durationWarning && !r.outputDeleted
    && r.errorLog == StopLog(folder, parts, probes, r.partsProbed - 1, resolve)
  }

  /** The consistency check of `merge_video`, then the merge if it passes. */
  method CheckAndMerge(folder: string, parts: seq<string>, probes: seq<ProbeReply>,
                       merger: MergerReply, post: ProbeReply, resolve: string -> string)
    returns (r: Outcome)
    requires |probes| == |parts|
    ensures CheckedAndMerged(r, folder, parts, probes, merger, post, resolve)
    ensures r.merged <==>
      Clean(probes, |parts|) && Included(parts, probes, |parts|) != [] && merger.Merged? && !post.ProberMissing?
    ensures r.errorLog.Some? ==> !r.merged
    ensures r.durationWarning ==> r.durationChecked
    ensures r.durationChecked ==> r.merged
  {
    var v := ValidateParts(parts, probes);
    match v
    case ProberGone(at) =>
      r := Quiet.(partsProbed := at + 1);
      assert Stopped(r, folder, parts, probes, resolve);
    case MetadataFailed(at) =>
      r := Quiet.(partsProbed := at + 1, errorLog := Some(MetadataLog(folder, resolve(parts[at]))));
      assert Stopped(r, folder, parts, probes, resolve);
    case ResolutionMismatch(at, ref, refName) =>
      var m := probes[at].meta;
      var log := MismatchLog(folder, refName, ref.width, ref.height, parts[at], m.width, m.height, resolve(parts[at]));
      r := Quiet.(partsProbed := at + 1, errorLog := Some(log));
      assert Stopped(r, folder, parts, probes, resolve);
    case Passed(included, reference, total) =>
      if included == [] {
        return Quiet.(partsProbed := |parts|);
      }
      IncludedIffReference(parts, probes, |parts|);
      assert reference.Some?;
      r := RunMerger(folder, included, resolve, merger, post, total);
      r := r.(partsProbed := |parts|, skippedWarning := |included| < |parts|);
  }

  /**
   * The second half of `merge_video`: the list file is written and FFmpeg is
   * run on it; a successful merge is probed and its duration compared with
   * the sum of the parts'; a failed one leaves its standard error in the log
   * directory and its partial output removed.
   */
  method RunMerger(folder: string, included: seq<string>, resolve: string -> string,
                   merger: MergerReply, post: ProbeReply, total: real)
    returns (r: Outcome)
    ensures r.manifest == Some(ManifestText(SafePaths(included, resolve)))
    ensures AfterMerger(r, folder, total, merger, post)
    ensures r.merged <==> merger.Merged? && !post.ProberMissing?
    ensures r.partsProbed == 0 && r.output == [] && !r.skippedWarning
    ensures r.durationWarning ==> r.durationChecked
    ensures r.durationChecked ==> r.merged
  {
    var text := BuildManifest(included, resolve);
    r := Quiet.(manifest := Some(text));
    match merger
    case MergeFailed(stderr, partial) =>
      r := r.(errorLog := Some(FfmpegLog(folder, FfmpegLogText(stderr))), outputDeleted := partial);
    case MergerMissing =>
    case MergeCrashed(partial) =>
      r := r.(outputDeleted := partial);
    case Merged =>
      match post
      case ProberMissing =>
      case ProbeFailed =>
        r := r.(merged := true);
      case Probed(m) =>
        r := r.(merged := true, durationChecked := true, durationWarning := Drifted(total, m.duration));
  }

  /** The diagnostic written when the check stops at part k: none when the
      prober is missing, the part's path when its probe failed, and both
      resolutions when they differ. */
  function StopLog(folder: string, parts: seq<string>, probes: seq<ProbeReply>, k: nat,
                   resolve: string -> string): Option<ErrorLog>
    requires |probes| == |parts| && StopsAt(probes, k)
  {
    match probes[k]
    case ProberMissing => None
    case ProbeFailed => Some(MetadataLog(folder, resolve(parts[k])))
    case Probed(m) =>
      CleanStep(probes, k);
      IncludedIffReference(parts, probes, k);
      var ref := FirstPositive(probes, k).value;
      Some(MismatchLog(folder, Included(parts, probes, k)[0], ref.width, ref.height,
                       parts[k], m.width, m.height, resolve(parts[k])))
  }

  /** What happens once FFmpeg has been run. */
  predicate AfterMerger(r: Outcome, folder: string, total: real, merger: MergerReply, post: ProbeReply)
  {
    match merger
    case Merged =>
      && r.errorLog.None? && !r.outputDeleted
      && (post.ProberMissing? ==> !r.merged && !r.durationChecked && !r.durationWarning)
      && (post.ProbeFailed? ==> r.merged && !r.durationChecked && !r.durationWarning)
      && (post.Probed? ==> r.merged && r.durationChecked && r.durationWarning == Drifted(total, post.meta.duration))
    case MergeFailed(stderr, partial) =>
      && !r.merged && !r.durationChecked && !r.durationWarning
      && r.errorLog == Some(FfmpegLog(folder, FfmpegLogText(stderr)))
      && r.outputDeleted == partial
    case MergerMissing =>
      !r.merged && !r.durationChecked && !r.durationWarning && r.errorLog.None? && !r.outputDeleted
    case MergeCrashed(partial) =>
      !r.merged && !r.durationChecked && !r.durationWarning && r.errorLog.None? && r.outputDeleted == partial
  }
}
