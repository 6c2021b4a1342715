/**
 * The consistency check at the start of `merge_video`: every part is probed
 * in order; parts with a duration of zero or less are skipped; the first
 * part with a positive duration fixes the reference resolution; a failed
 * probe or a part of another resolution stops the check at that part.
 *
 * The specification functions look at the first k probe replies of a folder.
 */
module Validation {
  import opened Wrappers
  import opened Probe

  /** A part that goes into the merge: probed, with a positive duration. */
  predicate Positive(p: ProbeReply)
  {
    p.Probed? && p.meta.duration > 0.0
  }

  /** The parts that go into the merge, in their original order. */
  function Included(parts: seq<string>, ps: seq<ProbeReply>, k: nat): seq<string>
    requires k <= |ps| <= |parts|
  {
    if k == 0 then [] else Included(parts, ps, k - 1) + (if Positive(ps[k - 1]) then [parts[k - 1]] else [])
  }

  /** The metadata of the parts that go into the merge, in the same order. */
  function IncludedMetas(ps: seq<ProbeReply>, k: nat): seq<Meta>
    requires k <= |ps|
  {
    if k == 0 then [] else IncludedMetas(ps, k - 1) + (if Positive(ps[k - 1]) then [ps[k - 1].meta] else [])
  }

  function SumDurations(ms: seq<Meta>): real
  {
    if |ms| == 0 then 0.0 else SumDurations(ms[..|ms| - 1]) + ms[|ms| - 1].duration
  }

  lemma SumAppend(ms: seq<Meta>, m: Meta)
    ensures SumDurations(ms + [m]) == SumDurations(ms) + m.duration
  {
    assert (ms + [m])[..|ms|] == ms;
  }

  /** The metadata of the first part with a positive duration: the reference. */
  function FirstPositive(ps: seq<ProbeReply>, k: nat): Option<Meta>
    requires k <= |ps|
  {
    if k == 0 then None
    else if FirstPositive(ps, k - 1).Some? then FirstPositive(ps, k - 1)
    else if Positive(ps[k - 1]) then Some(ps[k - 1].meta)
    else None
  }

  /** The positions below k of the parts with a positive duration. */
  function PositiveIndices(ps: seq<ProbeReply>, k: nat): (r: seq<nat>)
    requires k <= |ps|
    ensures forall x :: 0 <= x < |r| ==> r[x] < k
  {
    if k == 0 then [] else PositiveIndices(ps, k - 1) + (if Positive(ps[k - 1]) then [k - 1] else [])
  }

  /** The elements of s at the given positions, in the order of the positions. */
  function Select<T>(s: seq<T>, idx: seq<nat>): seq<T>
    requires forall x :: 0 <= x < |idx| ==> idx[x] < |s|
  {
    seq(|idx|, x requires 0 <= x < |idx| => s[idx[x]])
  }

  lemma SelectAppend<T>(s: seq<T>, idx: seq<nat>, i: nat)
    requires i < |s| && forall x :: 0 <= x < |idx| ==> idx[x] < |s|
    ensures Select(s, idx + [i]) == Select(s, idx) + [s[i]]
  {
  }

  /** The positive positions are increasing and are exactly the positions below
      k whose part has a positive duration. */
  lemma {:induction false} PositiveIndicesExact(ps: seq<ProbeReply>, k: nat)
    requires k <= |ps|
    ensures forall x, y :: 0 <= x < y < |PositiveIndices(ps, k)| ==> PositiveIndices(ps, k)[x] < PositiveIndices(ps, k)[y]
    ensures forall x :: 0 <= x < |PositiveIndices(ps, k)| ==> Positive(ps[PositiveIndices(ps, k)[x]])
    ensures forall j :: 0 <= j < k ==> (Positive(ps[j]) <==> j in PositiveIndices(ps, k))
    decreases k
  {
    if k > 0 {
      PositiveIndicesExact(ps, k - 1);
    }
  }

  /** The included parts are the parts at the positive positions, in order: an
      order-preserving subsequence of the folder made of exactly the parts with
      a positive duration. */
  lemma {:induction false} IncludedAtPositiveIndices(parts: seq<string>, ps: seq<ProbeReply>, k: nat)
    requires k <= |ps| <= |parts|
    ensures Included(parts, ps, k) == Select(parts, PositiveIndices(ps, k))
    decreases k
  {
    if k > 0 {
      IncludedAtPositiveIndices(parts, ps, k - 1);
      if Positive(ps[k - 1]) {
        SelectAppend(parts, PositiveIndices(ps, k - 1), k - 1);
      } else {
        assert PositiveIndices(ps, k) == PositiveIndices(ps, k - 1);
      }
    }
  }

  /** The metadata list runs alongside: its x-th entry is the metadata of the
      part at the x-th positive position. */
  lemma {:induction false} MetasAtPositiveIndices(ps: seq<ProbeReply>, k: nat)
    requires k <= |ps|
    ensures |IncludedMetas(ps, k)| == |PositiveIndices(ps, k)|
    ensures forall x :: 0 <= x < |IncludedMetas(ps, k)| ==>
      ps[PositiveIndices(ps, k)[x]].Probed? && IncludedMetas(ps, k)[x] == ps[PositiveIndices(ps, k)[x]].meta
    decreases k
  {
    if k > 0 {
      MetasAtPositiveIndices(ps, k - 1);
      var ms, idx := IncludedMetas(ps, k - 1), PositiveIndices(ps, k - 1);
      if Positive(ps[k - 1]) {
        assert IncludedMetas(ps, k) == ms + [ps[k - 1].meta];
        assert PositiveIndices(ps, k) == idx + [k - 1];
      } else {
        assert IncludedMetas(ps, k) == ms;
        assert PositiveIndices(ps, k) == idx;
      }
    }
  }

  /** Every included part has a positive duration. */
  lemma {:induction false} IncludedDurationsPositive(ps: seq<ProbeReply>, k: nat)
    requires k <= |ps|
    ensures forall m :: m in IncludedMetas(ps, k) ==> m.duration > 0.0
    decreases k
  {
    if k > 0 {
      IncludedDurationsPositive(ps, k - 1);
    }
  }

  /** The reference is the metadata of the first part with a positive duration,
      and there is none exactly when no part below k has a positive duration. */
  lemma {:induction false} FirstPositiveIsFirst(ps: seq<ProbeReply>, k: nat)
    requires k <= |ps|
    ensures FirstPositive(ps, k).None? <==> forall j :: 0 <= j < k ==> !Positive(ps[j])
    ensures FirstPositive(ps, k).Some? ==>
      exists j :: 0 <= j < k && Positive(ps[j]) && FirstPositive(ps, k).value == ps[j].meta &&
        forall i :: 0 <= i < j ==> !Positive(ps[i])
    decreases k
  {
    if k > 0 {
      FirstPositiveIsFirst(ps, k - 1);
      if FirstPositive(ps, k - 1).None? && Positive(ps[k - 1]) {
        assert Positive(ps[k - 1]) && FirstPositive(ps, k).value == ps[k - 1].meta;
      }
    }
  }

  predicate SameResolution(a: Meta, b: Meta)
  {
    a.width == b.width && a.height == b.height
  }

  /** Every included part below k has the reference resolution. */
  predicate Uniform(ps: seq<ProbeReply>, k: nat)
    requires k <= |ps|
  {
    FirstPositive(ps, k).Some? ==>
      forall j :: 0 <= j < k && Positive(ps[j]) ==> SameResolution(ps[j].meta, FirstPositive(ps, k).value)
  }

  /** The first k probes all succeeded and agree on the resolution. */
  predicate Clean(ps: seq<ProbeReply>, k: nat)
  {
    k <= |ps| && (forall j :: 0 <= j < k ==> ps[j].Probed?) && Uniform(ps, k)
  }

  /** The check stops at part k: everything before it passed, part k does not. */
  predicate StopsAt(ps: seq<ProbeReply>, k: nat)
  {
    k < |ps| && Clean(ps, k) && !Clean(ps, k + 1)
  }

  /** Whether one more part keeps the prefix clean. */
  lemma CleanStep(ps: seq<ProbeReply>, k: nat)
    requires Clean(ps, k) && k < |ps|
    ensures Clean(ps, k + 1) <==>
      ps[k].Probed? &&
      (Positive(ps[k]) && FirstPositive(ps, k).Some? ==> SameResolution(ps[k].meta, FirstPositive(ps, k).value))
  {
    FirstPositiveIsFirst(ps, k);
  }

  /** Once found, the reference does not change as more parts are looked at. */
  lemma {:induction false} FirstPositiveStable(ps: seq<ProbeReply>, k: nat, n: nat)
    requires k <= n <= |ps| && FirstPositive(ps, k).Some?
    ensures FirstPositive(ps, n) == FirstPositive(ps, k)
    decreases n - k
  {
    if k < n {
      FirstPositiveStable(ps, k + 1, n);
    }
  }

  /** A clean folder is clean on every prefix. */
  lemma CleanPrefix(ps: seq<ProbeReply>, k: nat, n: nat)
    requires k <= n
    ensures Clean(ps, n) ==> Clean(ps, k)
  {
    if Clean(ps, n) && FirstPositive(ps, k).Some? {
      FirstPositiveStable(ps, k, n);
    }
  }

  /** There is an included part exactly when there is a reference: the
      script's fallback for a missing reference is never taken. */
  lemma {:induction false} IncludedIffReference(parts: seq<string>, ps: seq<ProbeReply>, k: nat)
    requires k <= |ps| <= |parts|
    ensures |Included(parts, ps, k)| == |IncludedMetas(ps, k)|
    ensures |Included(parts, ps, k)| == 0 <==> FirstPositive(ps, k).None?
    decreases k
  {
    if k > 0 {
      IncludedIffReference(parts, ps, k - 1);
    }
  }

  /** The check stops at one part at most: the first one that fails. */
  lemma StopsAtUnique(ps: seq<ProbeReply>, k: nat, j: nat)
    ensures StopsAt(ps, k) && StopsAt(ps, j) ==> k == j
  {
    if k < j {
      CleanPrefix(ps, k + 1, j);
    } else if j < k {
      CleanPrefix(ps, j + 1, k);
    }
  }

  /** The outcome of the check. */
  datatype Validation =
    | Passed(included: seq<string>, reference: Option<Meta>, total: real)
    | MetadataFailed(at: nat)
    | ResolutionMismatch(at: nat, refMeta: Meta, refName: string)
    | ProberGone(at: nat)

  /**
   * The validation loop of `merge_video`. It returns at the first part whose
   * probe fails or whose resolution differs from the reference; otherwise it
   * passes with the included parts (those of positive duration, in their
   * original order), the reference metadata (that of the first such part) and
   * the sum of their durations.
   */
  method ValidateParts(parts: seq<string>, probes: seq<ProbeReply>) returns (v: Validation)
    requires |probes| == |parts|
    ensures v.Passed? <==> Clean(probes, |parts|)
    ensures v.Passed? ==>
      && v.included == Included(parts, probes, |parts|)
      && v.reference == FirstPositive(probes, |parts|)
      && v.total == SumDurations(IncludedMetas(probes, |parts|))
    ensures v.MetadataFailed? ==> StopsAt(probes, v.at) && probes[v.at].ProbeFailed?
    ensures v.ProberGone? ==> StopsAt(probes, v.at) && probes[v.at].ProberMissing?
    ensures v.ResolutionMismatch? ==>
      && StopsAt(probes, v.at) && probes[v.at].Probed?
      && FirstPositive(probes, v.at) == Some(v.refMeta)
      && |Included(parts, probes, v.at)| > 0 && v.refName == Included(parts, probes, v.at)[0]
  {
    var total := 0.0;
    var reference: Option<Meta> := None;
    var included: seq<string> := [];
    var i := 0;
    while i < |parts|
      invariant 0 <= i <= |parts|
      invariant Clean(probes, i)
      invariant reference == FirstPositive(probes, i)
      invariant included == Included(parts, probes, i)
      invariant reference.None? <==> |included| == 0
      invariant total == SumDurations(IncludedMetas(probes, i))
    {
      CleanStep(probes, i);
      match probes[i]
      case ProberMissing =>
        CleanPrefix(probes, i + 1, |parts|);
        return ProberGone(i);
      case ProbeFailed =>
        CleanPrefix(probes, i + 1, |parts|);
        return MetadataFailed(i);
      case Probed(m) =>
        if m.duration > 0.0 {
          if reference.None? {
            reference := Some(m);
          } else if !SameResolution(m, reference.value) {
            CleanPrefix(probes, i + 1, |parts|);
            return ResolutionMismatch(i, reference.value, included[0]);
          }
          SumAppend(IncludedMetas(probes, i), m);
          included := included + [parts[i]];
          total := total + m.duration;
        } else {
          assert IncludedMetas(probes, i + 1) == IncludedMetas(probes, i);
          assert Included(parts, probes, i + 1) == Included(parts, probes, i);
        }
        i := i + 1;
    }
    v := Passed(included, reference, total);
  }
}
