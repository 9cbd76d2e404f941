/**
 * The in-memory parts of a coverage `LayerEntry`: the sum of the per-series
 * coverage counts, and the lazily computed union of the sample value ranges
 * declared by the formats of the layer's series.
 *
 * A `MeasurementRange` is an opaque type `R` whose `union` is a parameter.
 */
module LayerEntry {
  import opened JavaLang

  // ---------------------------------------------------------------------------
  // getCoverageCount
  // ---------------------------------------------------------------------------

  /** The exact sum of `counts`. */
  function Sum(counts: seq<int>): int {
    if |counts| == 0 then 0 else Sum(counts[..|counts| - 1]) + counts[|counts| - 1]
  }

  /** Adding up non-negative counts gives a non-negative total, at least each count. */
  lemma {:induction false} SumBounds(counts: seq<int>)
    requires forall i :: 0 <= i < |counts| ==> counts[i] >= 0
    ensures Sum(counts) >= 0
    ensures forall i :: 0 <= i < |counts| ==> counts[i] <= Sum(counts)
  {
    if |counts| > 0 {
      SumBounds(counts[..|counts| - 1]);
    }
  }

  /**
   * `getCoverageCount()` over the frequencies of the series: `n += count[i]` in
   * 32-bit arithmetic, so the result is the exact sum wrapped to an `int`.
   */
  method CoverageCount(count: seq<int>) returns (n: int)
    requires forall i :: 0 <= i < |count| ==> IsInt(count[i])
    ensures n == Wrap(Sum(count))
  {
    n := 0;
    var i := 0;
    while i < |count|
      invariant 0 <= i <= |count|
      invariant n == Wrap(Sum(count[..i]))
    {
      assert count[..i + 1][..i] == count[..i];
      WrapAdd(Sum(count[..i]), count[i]);
      n := Wrap(n + count[i]);
      i := i + 1;
    }
    assert count[..|count|] == count;
  }

  /** When the total fits in an `int`, the count is the exact sum of the frequencies. */
  lemma CoverageCountExact(count: seq<int>)
    requires IsInt(Sum(count))
    ensures Wrap(Sum(count)) == Sum(count)
  {
    WrapOfInt(Sum(count));
  }

  // ---------------------------------------------------------------------------
  // Merging sample value ranges
  // ---------------------------------------------------------------------------

  function Max(a: int, b: int): int { if a >= b then a else b }
  function Min(a: int, b: int): int { if a <= b then a else b }

  /**
   * One merge of `getSampleValueRanges`: an equal candidate array changes nothing;
   * otherwise the ranges of the indices both arrays have become their unions, and
   * the longer array provides the rest.
   */
  function MergeRanges<R(==)>(ranges: seq<R>, candidates: seq<R>, union: (R, R) -> R): seq<R> {
    if ranges == candidates then ranges
    else
      seq(Max(|ranges|, |candidates|), i requires 0 <= i < Max(|ranges|, |candidates|) =>
        if i < |ranges| && i < |candidates| then union(ranges[i], candidates[i])
        else if i < |ranges| then ranges[i] else candidates[i])
  }

  /**
   * A merge gives the longer length; below the shorter length each range is the
   * union of the two (or unchanged for equal arrays); beyond it, the longer
   * array's ranges are kept unchanged.
   */
  lemma MergeRangesShape<R>(ranges: seq<R>, candidates: seq<R>, union: (R, R) -> R)
    ensures var m := MergeRanges(ranges, candidates, union);
      |m| == Max(|ranges|, |candidates|) &&
      (ranges == candidates ==> m == ranges) &&
      (ranges != candidates ==> forall i :: 0 <= i < Min(|ranges|, |candidates|) ==> m[i] == union(ranges[i], candidates[i])) &&
      (forall i :: |candidates| <= i < |ranges| ==> m[i] == ranges[i]) &&
      (forall i :: |ranges| <= i < |candidates| ==> m[i] == candidates[i])
  {
  }

  /** With a commutative `union`, the order of two candidate arrays does not matter. */
  lemma MergeRangesCommutes<R>(a: seq<R>, b: seq<R>, union: (R, R) -> R)
    requires forall x, y :: union(x, y) == union(y, x)
    ensures MergeRanges(a, b, union) == MergeRanges(b, a, union)
  {
    if a != b {
      var m, m' := MergeRanges(a, b, union), MergeRanges(b, a, union);
      assert |m| == |m'|;
      forall i | 0 <= i < |m|
        ensures m[i] == m'[i]
      {
        if i < |a| && i < |b| {
          assert m[i] == union(a[i], b[i]) && m'[i] == union(b[i], a[i]);
        }
      }
    }
  }

  /** The candidate arrays met so far, folded left into the accumulated ranges (`None` while there were none). */
  function Accumulate<R(==)>(candidates: seq<Option<seq<R>>>, union: (R, R) -> R): Option<seq<R>> {
    if |candidates| == 0 then None
    else Absorbed(Accumulate(candidates[..|candidates| - 1], union), candidates[|candidates| - 1], union)
  }

  /** One series met by the loop: no candidate array changes nothing, the first is adopted, a later one merged. */
  function Absorbed<R(==)>(acc: Option<seq<R>>, c: Option<seq<R>>, union: (R, R) -> R): Option<seq<R>> {
    if c.None? then acc
    else if acc.None? then c
    else Some(MergeRanges(acc.value, c.value, union))
  }

  /** The length of the longest candidate array, or -1 when there is none. */
  function MaxLength<R>(candidates: seq<Option<seq<R>>>): int {
    if |candidates| == 0 then -1
    else
      var c := candidates[|candidates| - 1];
      Max(MaxLength(candidates[..|candidates| - 1]), if c.Some? then |c.value| else -1)
  }

  /**
   * There are accumulated ranges exactly when some candidate array was met, and
   * they have as many ranges as the longest candidate array.
   */
  lemma {:induction false} AccumulateLength<R>(candidates: seq<Option<seq<R>>>, union: (R, R) -> R)
    ensures Accumulate(candidates, union).None? <==> forall k :: 0 <= k < |candidates| ==> candidates[k].None?
    ensures Accumulate(candidates, union).Some? ==> |Accumulate(candidates, union).value| == MaxLength(candidates)
  {
    if |candidates| > 0 {
      var init := candidates[..|candidates| - 1];
      AccumulateLength(init, union);
      assert forall k :: 0 <= k < |init| ==> init[k] == candidates[k];
      var acc := Accumulate(init, union);
      var c := candidates[|candidates| - 1];
      if c.Some? && acc.Some? {
        MergeRangesShape(acc.value, c.value, union);
      }
      if acc.None? {
        assert MaxLength(init) == -1 by {
          AllMissingHasNoLength(init);
        }
      }
    }
  }

  lemma {:induction false} AllMissingHasNoLength<R>(candidates: seq<Option<seq<R>>>)
    requires forall k :: 0 <= k < |candidates| ==> candidates[k].None?
    ensures MaxLength(candidates) == -1
  {
    if |candidates| > 0 {
      AllMissingHasNoLength(candidates[..|candidates| - 1]);
    }
  }

  /** Accumulating one more candidate array: adopt it when none came before, merge it otherwise. */
  lemma AccumulateStep<R>(candidates: seq<Option<seq<R>>>, k: int, union: (R, R) -> R)
    requires 0 <= k < |candidates|
    ensures Accumulate(candidates[..k + 1], union) == Absorbed(Accumulate(candidates[..k], union), candidates[k], union)
  {
    assert candidates[..k + 1][..k] == candidates[..k];
  }

  /** The list `getSampleValueRanges` builds: the accumulated ranges, or the empty list when no series had any. */
  function SampleValueRanges<R(==)>(candidates: seq<Option<seq<R>>>, union: (R, R) -> R): (r: seq<R>)
    ensures (forall k :: 0 <= k < |candidates| ==> candidates[k].None?) ==> r == []
  {
    var acc := Accumulate(candidates, union);
    AccumulateLength(candidates, union);
    if acc.None? then [] else acc.value
  }

  /** Series that contribute nothing (no format, or no ranges) leave the result as if they were absent. */
  lemma {:induction false} MissingCandidatesIgnored<R>(a: seq<Option<seq<R>>>, b: seq<Option<seq<R>>>,
                                                        union: (R, R) -> R)
    requires forall k :: 0 <= k < |b| ==> b[k].None?
    ensures Accumulate(a + b, union) == Accumulate(a, union)
    decreases |b|
  {
    if |b| > 0 {
      var b' := b[..|b| - 1];
      assert (a + b)[..|a + b| - 1] == a + b';
      MissingCandidatesIgnored(a, b', union);
    } else {
      assert a + b == a;
    }
  }

  // ---------------------------------------------------------------------------
  // The series of a layer and their candidate arrays
  // ---------------------------------------------------------------------------

  /** A series' format: `null`, or a format whose `getSampleValueRanges()` gives an array or `null`. */
  datatype SeriesFormat<R> = NoFormat | Format(candidates: Option<array<R>>)

  /** The candidate array a series contributes, if any. */
  function CandidateOf<R>(s: SeriesFormat<R>): Option<array<R>> {
    if s.Format? then s.candidates else None
  }

  /** The candidate arrays of `series`. */
  function ArraysOf<R>(series: seq<SeriesFormat<R>>): set<array<R>> {
    if |series| == 0 then {}
    else
      var c := CandidateOf(series[|series| - 1]);
      ArraysOf(series[..|series| - 1]) + (if c.Some? then {c.value} else {})
  }

  /** The contents of the candidate arrays of `series`, in order. */
  ghost function CandidateValues<R>(series: seq<SeriesFormat<R>>): (r: seq<Option<seq<R>>>)
    reads ArraysOf(series)
    ensures |r| == |series|
  {
    if |series| == 0 then []
    else
      var c := CandidateOf(series[|series| - 1]);
      CandidateValues(series[..|series| - 1]) + [if c.Some? then Some(c.value[..]) else None]
  }

  /** The first candidate array of `series`, the one adopted by reference. */
  function FirstCandidate<R>(series: seq<SeriesFormat<R>>): Option<array<R>> {
    if |series| == 0 then None
    else
      var f := FirstCandidate(series[..|series| - 1]);
      if f.Some? then f else CandidateOf(series[|series| - 1])
  }

  /** The first candidate array is that of the first series having one. */
  lemma {:induction false} FirstCandidateAt<R>(series: seq<SeriesFormat<R>>, i: int)
    requires 0 <= i < |series| && CandidateOf(series[i]).Some?
    requires forall j :: 0 <= j < i ==> CandidateOf(series[j]).None?
    ensures FirstCandidate(series) == CandidateOf(series[i])
    decreases |series|
  {
    var init := series[..|series| - 1];
    if i < |series| - 1 {
      assert forall j :: 0 <= j <= i ==> init[j] == series[j];
      FirstCandidateAt(init, i);
    } else {
      assert forall j :: 0 <= j < |init| ==> init[j] == series[j];
      NoFirstCandidate(init);
    }
  }

  /** Series without any candidate array have no first candidate. */
  lemma {:induction false} NoFirstCandidate<R>(series: seq<SeriesFormat<R>>)
    requires forall j :: 0 <= j < |series| ==> CandidateOf(series[j]).None?
    ensures FirstCandidate(series).None?
    decreases |series|
  {
    if |series| > 0 {
      var init := series[..|series| - 1];
      assert forall j :: 0 <= j < |init| ==> init[j] == series[j];
      NoFirstCandidate(init);
    }
  }

  /** No two series share a candidate array object. */
  predicate DistinctCandidates<R>(series: seq<SeriesFormat<R>>) {
    forall i, j :: 0 <= i < j < |series| && CandidateOf(series[i]).Some? && CandidateOf(series[j]).Some? ==>
      CandidateOf(series[i]).value != CandidateOf(series[j]).value
  }

  /** Entry `k` of `CandidateValues` is the contents of series `k`'s candidate array. */
  lemma {:induction false} CandidateValuesAt<R>(series: seq<SeriesFormat<R>>)
    ensures forall k :: 0 <= k < |series| ==>
      CandidateValues(series)[k] == (if CandidateOf(series[k]).Some? then Some(CandidateOf(series[k]).value[..]) else None)
    ensures forall k :: 0 <= k < |series| && CandidateOf(series[k]).Some? ==> CandidateOf(series[k]).value in ArraysOf(series)
  {
    if |series| > 0 {
      var init := series[..|series| - 1];
      CandidateValuesAt(init);
      assert forall k :: 0 <= k < |init| ==> init[k] == series[k];
    }
  }

  /**
   * One merge of the loop, on arrays: an equal candidate array leaves `ranges`
   * as it is; a candidate no longer than `ranges` is merged into `ranges` in place;
   * a longer one makes a new array (`Arrays.copyOf` then `System.arraycopy` of the
   * candidate's tail) that receives the unions.
   */
  method MergeInto<R(==)>(ranges: array<R>, candidates: array<R>, union: (R, R) -> R) returns (merged: array<R>)
    requires ranges != candidates
    modifies ranges
    ensures merged[..] == MergeRanges(old(ranges[..]), candidates[..], union)
    ensures merged.Length == Max(ranges.Length, candidates.Length)
    ensures old(ranges[..]) == candidates[..] || candidates.Length <= ranges.Length ==> merged == ranges
    ensures old(ranges[..]) != candidates[..] && candidates.Length > ranges.Length ==>
              fresh(merged) && ranges[..] == old(ranges[..])
  {
    if ranges[..] == candidates[..] {
      return ranges;
    }
    ghost var before := ranges[..];
    var length: int;
    if candidates.Length <= ranges.Length {
      length := candidates.Length;
      merged := ranges;
    } else {
      length := ranges.Length;
      merged := new R[candidates.Length](i reads ranges, candidates requires 0 <= i < candidates.Length =>
                                          if i < ranges.Length then ranges[i] else candidates[i]);
    }
    ghost var start := merged[..];
    var i := 0;
    while i < length
      invariant 0 <= i <= length
      invariant forall j :: 0 <= j < i ==> merged[j] == union(before[j], candidates[j])
      invariant forall j :: i <= j < merged.Length ==> merged[j] == start[j]
      invariant merged == ranges || ranges[..] == before
    {
      merged[i] := union(merged[i], candidates[i]);
      i := i + 1;
    }
    assert merged[..] == MergeRanges(before, candidates[..], union);
  }

  /**
   * The body of the loop for one series: no candidate array changes nothing; the
   * first one is adopted by reference; a later one is merged into the accumulated array.
   */
  method Absorb<R(==)>(ranges: Option<array<R>>, candidates: Option<array<R>>, union: (R, R) -> R)
    returns (next: Option<array<R>>)
    requires ranges.Some? && candidates.Some? ==> ranges.value != candidates.value
    modifies if ranges.Some? then {ranges.value} else {}
    ensures next.None? <==> ranges.None? && candidates.None?
    ensures next.Some? ==>
      Some(next.value[..]) == Absorbed(if ranges.Some? then Some(old(ranges.value[..])) else None,
                                       if candidates.Some? then Some(candidates.value[..]) else None, union)
    ensures candidates.None? ==> next == ranges
    ensures candidates.Some? && ranges.None? ==> next == candidates
    ensures candidates.Some? && ranges.Some? ==> (next.Some? &&
      (next.value == ranges.value || fresh(next.value)) &&
      (next.value == ranges.value <==> next.value.Length == ranges.value.Length) &&
      next.value.Length >= ranges.value.Length)
    ensures ranges.Some? && next.Some? && next.value != ranges.value ==> ranges.value[..] == old(ranges.value[..])
  {
    if candidates.None? {
      return ranges;
    }
    if ranges.None? {
      return candidates;
    }
    var merged := MergeInto(ranges.value, candidates.value, union);
    return Some(merged);
  }

  /**
   * The loop of `getSampleValueRanges` over the series: series without a format or
   * without ranges are skipped, the first candidate array is adopted by reference,
   * and each later one is merged into the accumulated array.
   */
  method MergeSeries<R(==)>(series: seq<SeriesFormat<R>>, union: (R, R) -> R) returns (ranges: Option<array<R>>)
    requires DistinctCandidates(series)
    modifies ArraysOf(series)
    ensures ranges.None? <==> Accumulate(old(CandidateValues(series)), union).None?
    ensures ranges.Some? ==> Accumulate(old(CandidateValues(series)), union) == Some(ranges.value[..])
    ensures ranges.Some? ==> (FirstCandidate(series).Some? &&
      (ranges.value == FirstCandidate(series).value || fresh(ranges.value)) &&
      (ranges.value == FirstCandidate(series).value <==> ranges.value.Length == FirstCandidate(series).value.Length))
    ensures forall k :: 0 <= k < |series| && CandidateOf(series[k]).Some? && CandidateOf(series[k]) != FirstCandidate(series) ==>
      CandidateOf(series[k]).value[..] == old(CandidateOf(series[k]).value[..])
  {
    ghost var snapshot := CandidateValues(series);
    CandidateValuesAt(series);
    ghost var adopted: Option<array<R>> := None;
    ghost var adoptedIndex := -1;
    ghost var acc: Option<seq<R>> := None;
    ranges := None;
    var k := 0;
    while k < |series|
      invariant 0 <= k <= |series|
      invariant adopted.None? ==> forall j :: 0 <= j < k ==> CandidateOf(series[j]).None?
      invariant adopted.Some? ==> (0 <= adoptedIndex < k && CandidateOf(series[adoptedIndex]) == adopted &&
        forall j :: 0 <= j < adoptedIndex ==> CandidateOf(series[j]).None?)
      invariant acc == Accumulate(snapshot[..k], union)
      invariant ranges.None? <==> adopted.None?
      invariant ranges.None? <==> acc.None?
      invariant ranges.Some? ==> acc == Some(ranges.value[..])
      invariant ranges.Some? ==> ((ranges.value == adopted.value || fresh(ranges.value)) &&
        ranges.value.Length >= adopted.value.Length &&
        (ranges.value == adopted.value <==> ranges.value.Length == adopted.value.Length))
      invariant forall k' :: 0 <= k' < |series| && CandidateOf(series[k']).Some? && CandidateOf(series[k']) != adopted ==>
        Some(CandidateOf(series[k']).value[..]) == snapshot[k']
    {
      AccumulateStep(snapshot, k, union);
      var candidates := CandidateOf(series[k]);
      acc := Absorbed(acc, snapshot[k], union);
      if candidates.Some? && ranges.None? {
        adopted := candidates;
        adoptedIndex := k;
      }
      ranges := Absorb(ranges, candidates, union);
      k := k + 1;
    }
    assert snapshot[..|series|] == snapshot;
    if adopted.Some? {
      FirstCandidateAt(series, adoptedIndex);
    } else {
      NoFirstCandidate(series);
    }
  }

  /**
   * A layer: its series (read from the database, which this model takes as given)
   * and the cached list of sample value ranges, `None` until first computed.
   */
  class Layer<R(==)> {
    const series: seq<SeriesFormat<R>>
    var sampleValueRanges: Option<seq<R>>

    constructor(series: seq<SeriesFormat<R>>)
      ensures this.series == series && sampleValueRanges.None?
    {
      this.series := series;
      sampleValueRanges := None;
    }

    /**
     * `getSampleValueRanges()`: the cached list when there is one; otherwise the
     * union of the series' ranges, which is cached.
     */
    method GetSampleValueRanges(union: (R, R) -> R) returns (r: seq<R>)
      requires DistinctCandidates(series)
      modifies this, ArraysOf(series)
      ensures old(sampleValueRanges).Some? ==>
        r == old(sampleValueRanges).value && sampleValueRanges == old(sampleValueRanges) &&
        forall k :: 0 <= k < |series| && CandidateOf(series[k]).Some? ==>
          CandidateOf(series[k]).value[..] == old(CandidateOf(series[k]).value[..])
      ensures old(sampleValueRanges).None? ==>
        r == SampleValueRanges(old(CandidateValues(series)), union) && sampleValueRanges == Some(r)
      ensures old(sampleValueRanges).None? ==>
        forall k :: 0 <= k < |series| && CandidateOf(series[k]).Some? && CandidateOf(series[k]) != FirstCandidate(series) ==>
          CandidateOf(series[k]).value[..] == old(CandidateOf(series[k]).value[..])
      ensures old(sampleValueRanges).None? && FirstCandidate(series).Some? && FirstCandidate(series).value.Length == |r| ==>
        FirstCandidate(series).value[..] == r
    {
      var cached := this.sampleValueRanges;
      if cached.None? {
        var ranges := MergeSeries(series, union);
        if ranges.Some? {
          r := ranges.value[..];
        } else {
          r := [];
        }
        this.sampleValueRanges := Some(r);
      } else {
        r := cached.value;
      }
    }
  }
}
