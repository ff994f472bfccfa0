/** Worked inputs for `RobustStatistics::from_samples`, stated for a whole
    family of inputs and derived from the definitions of module Statistics. */
module StatisticsExamples {
  import opened RealMath
  import opened Statistics

  /** `n - 1` equal samples `v` followed by one larger sample `w`, with `n >= 3`,
      as in the input [1.0 x 9, 100.0]. */
  predicate IsSingleSpike(s: seq<real>, v: real, w: real)
  {
    && |s| >= 3 && v < w && s[|s| - 1] == w
    && forall i :: 0 <= i < |s| - 1 ==> s[i] == v
  }

  lemma {:induction false} SpikeIsSorted(s: seq<real>, v: real, w: real)
    requires IsSingleSpike(s, v, w)
    ensures IsSorted(s) && SortAscending(s) == s
  {
    SortSortedIsIdentity(s);
  }

  /** The median index round((n - 1) / 2) stays below the last position. */
  lemma {:induction false} MedianIndexBelowLast(n: nat)
    requires n >= 3
    ensures PercentileIndex(50, n) < n - 1
  {
    var q := PercentileIndex(50, n);
    assert 50 * (n - 1) + 50 == 50 * n;
    assert q * 100 <= 50 * n;
  }

  lemma {:induction false} SpikeMedian(s: seq<real>, v: real, w: real)
    requires IsSingleSpike(s, v, w)
    ensures Median(s) == v
  {
    SpikeIsSorted(s, v, w);
    MedianIndexBelowLast(|s|);
  }

  /** All deviations but the last are zero, so the MAD is zero. */
  lemma {:induction false} SpikeMad(s: seq<real>, v: real, w: real)
    requires IsSingleSpike(s, v, w)
    ensures Mad(s) == 0.0
  {
    SpikeMedian(s, v, w);
    SpikeIsSorted(s, v, w);
    var devs := AbsDeviations(s, v);
    SpikeDeviations(s, v, w);
    SortSortedIsIdentity(devs);
    LeadingZerosMedian(devs);
  }

  /** A sequence of at least three values that is zero until its last
      position has median zero. */
  lemma {:induction false} LeadingZerosMedian(devs: seq<real>)
    requires |devs| >= 3 && forall i :: 0 <= i < |devs| - 1 ==> devs[i] == 0.0
    ensures Percentile(devs, 50) == 0.0
  {
    MedianIndexBelowLast(|devs|);
  }

  /** The deviations from `v` are zeros followed by `w - v`, hence sorted. */
  lemma {:induction false} SpikeDeviations(s: seq<real>, v: real, w: real)
    requires IsSingleSpike(s, v, w)
    ensures var devs := AbsDeviations(s, v);
      IsSorted(devs) && forall i :: 0 <= i < |s| - 1 ==> devs[i] == 0.0
  {
    var devs := AbsDeviations(s, v);
    forall i, j | 0 <= i < j < |devs| ensures devs[i] <= devs[j] {
      assert devs[i] == 0.0;
    }
  }

  /** With a zero MAD only the samples equal to the median survive. */
  lemma {:induction false} SpikeCleaned(s: seq<real>, v: real, w: real)
    requires IsSingleSpike(s, v, w)
    ensures Cleaned(s) == s[..|s| - 1]
  {
    CleanedUnfold(s);
    SpikeIsSorted(s, v, w);
    SpikeMedian(s, v, w);
    SpikeMad(s, v, w);
    assert OutlierK * Mad(s) == 0.0;
    SpikeFilter(s, v, w, OutlierK * Mad(s));
  }

  /** A threshold below the spike's deviation drops exactly the spike. */
  lemma {:induction false} SpikeFilter(s: seq<real>, v: real, w: real, t: real)
    requires IsSingleSpike(s, v, w) && 0.0 <= t < w - v
    ensures KeepWithin(s, v, t) == s[..|s| - 1]
  {
    var front := s[..|s| - 1];
    assert s == front + [w];
    KeepWithinAppend(front, [w], v, t);
    KeepWithinAll(front, v, t);
    assert KeepWithin([w], v, t) == [] by {
      assert [w][1..] == [];
    }
  }

  /** The spike is the one outlier; every reported location statistic is `v`. */
  lemma {:induction false} SpikeIsRemoved(s: seq<real>, v: real, w: real)
    requires IsSingleSpike(s, v, w)
    ensures var st := FromSamples(s);
      && st.median == v && st.mad == 0.0
      && st.outliersRemoved == 1 && st.mean == v
      && st.p95 == v && st.p99 == v
  {
    SpikeMedian(s, v, w);
    SpikeMad(s, v, w);
    SpikeCleaned(s, v, w);
    var c := Cleaned(s);
    assert forall i :: 0 <= i < |c| ==> c[i] == v;
  }
}
