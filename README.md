# VideoMerger, modelled in Dafny

VideoMerger is a Python script that walks a source directory and joins
each sub-folder's video parts into one file named after the folder. It
lists the visible sub-folders in sorted order. In each folder it lists the
`.mp4` and `.mkv` files in sorted order. It probes every part with
ffprobe and checks that they share one resolution. Parts of zero or
negative duration are skipped. The kept parts are written to a list file
for FFmpeg's concat demuxer and joined with `ffmpeg -c copy`. The merged
file's duration is compared with the sum of the parts'. Metadata failures,
resolution mismatches and FFmpeg errors leave a diagnostic file in the log
directory. The main loop counts folders as
processed, merged or failed.

This project models the core of `VideoMerger.py` and proves properties of
it. The modules follow the script's structure:

- `wrappers.dfy` (`Wrappers`): the `Option` type.
- `names.dfy` (`Names`): the hidden-name test, pathlib's `suffix`,
  `str.lower()` and the video-extension test.
- `order.dfy` (`Order`): Python's string order, the sort, and uniqueness of
  the sorted result.
- `listing.dfy` (`Listing`): `get_dirs` and `get_videos`.
- `probe.dfy` (`Probe`): what `_get_video_metadata_ffprobe` takes from
  ffprobe's parsed JSON.
- `validation.dfy` (`Validation`): the consistency loop at the start of
  `merge_video`.
- `manifest.dfy` (`Manifest`): the concat list file, and how FFmpeg's concat
  demuxer reads such a file back.
- `merge.dfy` (`Merge`): `merge_video` as a whole.
- `batch.dfy` (`Batch`): the folder loop of `main`.

External programs are replies passed in as parameters. That covers
ffprobe (one `ProbeReply` per part, and one for the merged file) and
FFmpeg (a `MergerReply`). It also covers `Path.resolve()` (a function
`resolve`), the existence of the output file (a boolean), and the
outcome of each `merge_video` call as seen by `main` (a `CallResult`), and
what `main`'s start-up checks find (a `Setup`).
Paths are modelled by their names inside their parent directory.

## Model

| member | source | states |
|---|---|---|
| Names.Suffix | VideoMerger.py:323 | the suffix is empty or a proper tail of at least two characters starting with the name's last dot |
| Names.SuffixCharacterised | VideoMerger.py:323 | a non-empty string is the suffix of a name exactly when it is such a tail |
| Names.VideoNameCharacterised | VideoMerger.py:323 | a name is a video part exactly when it has at least one character before a final `.xyz` whose lower-cased extension is `mp4` or `mkv` |
| Names.VideoNameOnlyIf | VideoMerger.py:323 | every accepted name ends in a dot and a three-letter video extension, with at least one character before the dot |
| Names.VideoNameIf | VideoMerger.py:323 | every such name is accepted |
| Names.AcceptedPartNames | VideoMerger.py:323 | `a.mp4` and `_x.MKV` are parts: the extension test ignores case, and a leading underscore does not hide a file |
| Names.RejectedPartNames | VideoMerger.py:323 | `.mp4` (no suffix), `a.` and `a.avi` are not parts |
| Names.OutputKeepsSuffix | VideoMerger.py:372-374 | the output name `<folder><suffix of the first part>` has that suffix and is itself a video name |
| Order.BelowReflexive | VideoMerger.py:290 | Python's string order puts every name at or below itself |
| Order.BelowTotal | VideoMerger.py:290 | any two names are comparable |
| Order.BelowAntisymmetric | VideoMerger.py:290 | two names each at or below the other are equal |
| Order.BelowTransitive | VideoMerger.py:290 | the order is transitive |
| Order.SortedSplice | VideoMerger.py:290 | a name placed after the names not above it and before the names not below it keeps the list sorted |
| Order.Insert | VideoMerger.py:290 | inserting into a sorted list gives a sorted permutation of the list plus the new name |
| Order.SortNames | VideoMerger.py:290 | `list.sort()` returns a sorted permutation of its input |
| Order.SortedUnique | VideoMerger.py:290 | two sorted permutations of the same names are equal, so the processing order depends only on the names |
| Listing.KeptMembership | VideoMerger.py:284-287 | a name survives the filter exactly when some entry with that name passes it |
| Listing.FilterEntries | VideoMerger.py:284-287 | the list comprehension keeps the passing entries' names in listing order |
| Listing.GetDirs | VideoMerger.py:277-295 | the result is sorted and is a permutation of the visible sub-folders; a name is in it exactly when a visible folder has that name; no name in it is hidden; empty for a non-directory or a listing error |
| Listing.GetVideos | VideoMerger.py:313-333 | the result is sorted and is a permutation of the video files; a name is in it exactly when a file with that name has a video extension; empty for a non-directory or a listing error |
| Probe.FindVideoStream | VideoMerger.py:213-223 | finds none exactly when no stream is a video stream, and otherwise the first video stream |
| Probe.ExtractMetadata | VideoMerger.py:213-243 | no video stream gives None; otherwise the result is built from the format's duration and the first video stream's width and height, and is None when any of them is missing or does not convert |
| Probe.FirstVideoStreamWins | VideoMerger.py:213-223 | a video stream after an audio stream is found, and a second video stream never replaces the first |
| Validation.ValidateParts | VideoMerger.py:383-449 | passes exactly when every part probes and all kept parts share the reference resolution; then gives the kept parts in order, the first kept part's metadata and the exact sum of kept durations; otherwise it stops at the first failing part and says why, with the reference and the first kept part's name for a mismatch |
| Validation.PositiveIndicesExact | VideoMerger.py:414-416 | the kept positions increase, and a position is kept exactly when its part has a positive duration |
| Validation.IncludedAtPositiveIndices | VideoMerger.py:414-448 | the kept parts are the parts at the kept positions, in order: an order-preserving subsequence |
| Validation.MetasAtPositiveIndices | VideoMerger.py:414-449 | the kept metadata runs alongside the kept parts, position by position |
| Validation.IncludedDurationsPositive | VideoMerger.py:414-448 | every kept part has a positive duration |
| Validation.FirstPositiveIsFirst | VideoMerger.py:419-422 | the reference is the metadata of the first part with a positive duration, and there is none exactly when no part has one |
| Validation.FirstPositiveStable | VideoMerger.py:419-423 | once set, the reference never changes |
| Validation.CleanStep | VideoMerger.py:398-444 | one more part keeps the check passing exactly when it probes and, if kept, matches an existing reference |
| Validation.CleanPrefix | VideoMerger.py:392-444 | a passing check also passes on every prefix of the parts |
| Validation.StopsAtUnique | VideoMerger.py:392-444 | the check can stop at one part only |
| Validation.IncludedIffReference | VideoMerger.py:469-481 | there are kept parts exactly when there is a reference, so the fallback re-probe and its error branch are never taken |
| Manifest.Slashed | VideoMerger.py:508 | no backslash is left in the path, a path without one is kept as it is, and the path has a line break or a single quote exactly when the resolved path has one |
| Manifest.BuildManifest | VideoMerger.py:507-509 | the list file holds one line per kept part, in order, naming its resolved, slashed path; when no resolved path holds a single quote it is exactly the file the script writes |
| Manifest.QuotedEscaped | VideoMerger.py:509 | inside quotes, an escaped path followed by the closing quote reads as the path itself |
| Manifest.LineReadsBack | VideoMerger.py:509 | an escaped line is read back by the demuxer as its path, whatever follows, for a path without a line break |
| Manifest.ManifestReadsBack | VideoMerger.py:507-509 | the escaped list file names exactly the slashed paths it was written from, in order, when no path holds a line break |
| Manifest.EscapedWithoutQuote | VideoMerger.py:509 | escaping changes no path without a single quote |
| Manifest.AsWrittenAgreesWithoutQuote | VideoMerger.py:509 | for such a path the script's line equals the escaped line |
| Manifest.AsWrittenManifestAgrees | VideoMerger.py:507-509 | for paths without a single quote, the script's whole list file equals the escaped one |
| Manifest.AsWrittenReadsBack | VideoMerger.py:507-509 | the script's own list file names exactly its paths, in order, when no path holds a single quote or a line break |
| Manifest.AsWrittenMisreadsQuote | VideoMerger.py:509 | the script's line for a path `a'b` is read as `ab`, another file |
| Merge.FfmpegLogText | VideoMerger.py:572-573 | the FFmpeg error log holds FFmpeg's standard error, or a fixed note when that is empty |
| Merge.Tolerance | VideoMerger.py:544-548 | the tolerance is the larger of 5 seconds and 2% of the sum of the parts |
| Merge.DriftedOutsideBand | VideoMerger.py:546-552 | the duration warning fires exactly when the merged duration leaves the tolerance band around the sum |
| Merge.ToleranceRegimes | VideoMerger.py:544-548 | up to 250 seconds of parts the 5-second rule applies, above it the 2% rule |
| Merge.MergeVideo | VideoMerger.py:365-616 | no parts: False, nothing else done; the output is named folder plus first part's suffix; an existing output: True without probing or merging; otherwise the check-and-merge outcome; True exactly when the output existed or the parts passed, some were kept, FFmpeg succeeded and ffprobe was still there; a diagnostic file only comes with False; the durations are compared, and the warning given, only after a merge |
| Merge.CheckAndMerge | VideoMerger.py:382-616 | a stop leaves no merge and the diagnostic for the failing part (none, metadata log, or mismatch log); all parts skipped: False with no diagnostic; otherwise the list file of the kept parts is written, the skipped-parts warning fires exactly when parts were dropped, and the merger's reply decides the rest; on a stop, or with all parts skipped, no duration is compared and no warning given |
| Merge.RunMerger | VideoMerger.py:496-616 | merged and probed: True, with the duration warning exactly when the durations drift; merged but unprobeable: True, no check; ffprobe gone: False; FFmpeg error: False, log of its stderr, partial output removed; FFmpeg missing: False, nothing removed; other error: False, partial output removed; on every path but merged-and-probed there is no duration warning |
| Batch.Tally | VideoMerger.py:703-749 | every processed folder is counted either merged or failed, and no more folders are processed than listed |
| Batch.HaltIsFinal | VideoMerger.py:736-742 | once a missing tool stops the loop, later folders change no counter |
| Batch.HaltedByToolMissing | VideoMerger.py:736-742 | the loop is stopped exactly when the merge of a visible folder with videos raised a missing tool |
| Batch.TallyWithoutHalt | VideoMerger.py:708-749 | unless stopped, every visible folder is processed, and exactly those whose merge returned True count as merged; all others, folders without videos among them, count as failed |
| Batch.CountAllVisible | VideoMerger.py:708-712 | listed folders are all visible, so the loop's second hidden-name test skips none |
| Batch.RunBatch | VideoMerger.py:655-701 | the loop starts exactly when FFmpeg and ffprobe are found, both paths resolve, the main path is a directory and the output directory exists; otherwise nothing is listed or counted; once started, the folders come sorted from `get_dirs` and the counters are those of `Tally` over them; processed is always merged plus failed |
| Batch.RunFolders | VideoMerger.py:701-749 | the folders come sorted from `get_dirs`; the counters are those of `Tally` over them; processed is merged plus failed; unless stopped, every listed folder is processed |

## Left out

- Logging, its set-up and the log messages: only the diagnostic files in the log directory and two warnings are modelled, the skipped-parts warning of lines 464-465 (`Outcome.skippedWarning`) and the duration warning of lines 552-557 (`Outcome.durationWarning`).
- Running ffprobe and FFmpeg and `_run_command`: their replies are parameters. `shutil.which`, `Path.resolve()` on the two paths and `mkdir` on the output directory (lines 655-687) are replaced by the outcome fields of `Batch.Setup`, which `Batch.RunBatch` takes as a parameter; the `is_dir()` test of line 676 is the root's own `isDir`.
- `json.loads`, and `float()` / `int()` on the extracted values: the parsed document is an input; the conversions are parameters that may fail.
- Probe.ExtractMetadata: a document, a `format` member or a stream entry that is not a JSON object is not modelled (the script's `.get` then raises an `AttributeError` that its `except` list at line 249 does not catch); `ProbeDoc` holds objects only.
- The temporary list file's creation, name and deletion in `finally`: the list file is modelled by its text only.
- IEEE floating point: durations are real numbers; NaN, infinities and rounding are not modelled.
- `Path.resolve()` is the parameter `resolve`; paths are names within their directory.
- Manifest.ManifestReadsBack: the demuxer reads back the slashed paths. On POSIX a backslash is a legal file-name character, so a resolved path holding one (`/v/a\b.mp4`) names another file once slashed (`/v/a/b.mp4`); the model states what line 508 writes and does not claim it is the part's own path.
- Order.SortNames: the Windows path order, which ignores case, is not modelled; the POSIX order is.
- Names.LowerChar: lower-cases ASCII letters and the Kelvin sign, the only characters whose lower case can turn a suffix into `mp4` or `mkv`; other characters are left alone.
- Merge.CheckAndMerge: the metadata and mismatch logs are given by their fields, not their formatted text; the folder's resolved path in the mismatch log is left out.
- Merge.CheckAndMerge: an `OSError` while writing the metadata or mismatch log is not modelled; writes always succeed.
- Merge.RunMerger: an `OSError` while writing the FFmpeg log (lines 569-576, caught at line 575) is not modelled; `errorLog` is set whenever FFmpeg fails.
- Merge.CheckAndMerge: an unexpected exception during the consistency check (lines 490-493) is not modelled.
- Manifest.BuildManifest: writes the corrected list file, with each single quote escaped, not the unescaped line of line 509 (see Findings); for resolved paths without a single quote its `ensures` states that the text is the script's own.
- Merge.RunMerger: the list file in `manifest` is the corrected one from `Manifest.BuildManifest`, which differs from the script's for a path with a single quote.
- Merge.RunMerger: an `OSError` while deleting a partial output (lines 579-585 and 601-603) is not modelled; `outputDeleted` says the file was removed whenever one was left behind, where the script would log or ignore the error and leave it.
- Merge.RunMerger: the merger's reply `MergeCrashed` stands for every other exception in the merge phase, including one from the list file's creation.
- Merge.MergeVideo: the output directory's creation in `main` is not modelled; the output is named, not placed.
- Batch.RunFolders: how each `merge_video` call ends is given per folder, not computed by `Merge.MergeVideo`. As written, `merge_video` catches `FileNotFoundError` itself (lines 484-487 and 588-595) and returns False, so the stop at lines 736-742 cannot be reached through it, although its docstring (lines 361-363) says the error propagates. The model keeps the loop's handler as written.
- The scan of the log directory after the loop (lines 764-791) and the interactive prompts (lines 798-819).

## Findings

| source | as written | input that shows it | evidently intended | confidence | as-written member | corrected member |
|---|---|---|---|---|---|---|
| VideoMerger.py:509 | each list-file line is `file '<path>'` with the path unescaped | a part whose resolved path holds a single quote, e.g. `/videos/it's/part1.mp4`: the quote closes the quoted text and the demuxer reads `/videos/its/part1.mp4` | write each `'` in the path as `'\''`, so the demuxer reads the path back unchanged | medium: follows from FFmpeg's token rules; not executed | Manifest.AsWrittenMisreadsQuote | Manifest.ManifestReadsBack |

`Merge.RunMerger` writes the corrected list file (`Manifest.Line`). By
`Manifest.AsWrittenManifestAgrees`, that file is identical to the
script's whenever no path holds a single quote. By
`Manifest.AsWrittenReadsBack`, the script's own file is read back correctly
when, in addition, no path holds a line break.
