/** Robust statistics over a vector of sleep deltas (src/stats/robust_statistics.rs):
    nearest-rank median and percentiles, MAD-based outlier removal, and mean,
    deviation, p95, p99 and a 95% confidence interval on the cleaned samples. */
module Statistics {
  import opened RealMath

  datatype RobustStatistics = RobustStatistics(
    mean: real,
    median: real,
    stdev: real,
    mad: real,
    p95: real,
    p99: real,
    outliersRemoved: nat,
    confidenceInterval95: (real, real))

  datatype PerformanceWeights = PerformanceWeights(accuracy: real, consistency: real, worstCase: real)

  /** The outlier rule keeps samples within `OutlierK` MADs of the median. */
  const OutlierK: real := 3.5

  /** z-score of the two-sided 95% confidence interval. */
  const Z95: real := 1.96

  // ---------------------------------------------------------------------------
  // Sorting: `sort_by(partial_cmp)` on a local clone, as a sorted permutation.
  // ---------------------------------------------------------------------------

  predicate IsSorted(s: seq<real>)
  {
    forall i, j :: 0 <= i < j < |s| ==> s[i] <= s[j]
  }

  /** `x` placed before the first element of `s` it does not exceed. */
  function Insert(x: real, s: seq<real>): (r: seq<real>)
    ensures multiset(r) == multiset(s) + multiset{x} && |r| == |s| + 1
  {
    if s == [] then [x]
    else if x <= s[0] then [x] + s
    else
      assert s == [s[0]] + s[1..];
      [s[0]] + Insert(x, s[1..])
  }

  /** Inserting into a sorted sequence keeps it sorted; the new head is `x`
      or the old head. */
  lemma {:induction false} InsertSorted(x: real, s: seq<real>)
    requires IsSorted(s)
    ensures IsSorted(Insert(x, s))
    ensures Insert(x, s)[0] == x || (s != [] && Insert(x, s)[0] == s[0])
    decreases |s|
  {
    if s != [] && x > s[0] {
      SortedTail(s);
      InsertSorted(x, s[1..]);
      var rest := Insert(x, s[1..]);
      assert s[0] <= rest[0] by {
        if s[1..] != [] { assert s[1..][0] == s[1]; }
      }
      SortedCons(s[0], rest);
    } else if s != [] {
      SortedCons(x, s);
    }
  }

  /** A sorted sequence stays sorted under a head no larger than its first element. */
  lemma {:induction false} SortedCons(h: real, t: seq<real>)
    requires IsSorted(t) && (t != [] ==> h <= t[0])
    ensures IsSorted([h] + t)
  {
    var s := [h] + t;
    forall i, j | 0 <= i < j < |s| ensures s[i] <= s[j] {
      if i > 0 {
        assert s[i] == t[i - 1] && s[j] == t[j - 1];
      } else {
        assert s[j] == t[j - 1] && t[0] <= t[j - 1];
      }
    }
  }

  /** Insertion sort; any sorting algorithm yields the same sequence (`SortedUnique`). */
  function SortAscending(s: seq<real>): (r: seq<real>)
    ensures IsSorted(r) && multiset(r) == multiset(s) && |r| == |s|
  {
    if s == [] then []
    else
      assert s == [s[0]] + s[1..];
      InsertSorted(s[0], SortAscending(s[1..]));
      Insert(s[0], SortAscending(s[1..]))
  }

  /** A sorted sequence is determined by its multiset of elements. */
  lemma {:induction false} SortedUnique(a: seq<real>, b: seq<real>)
    requires IsSorted(a) && IsSorted(b) && multiset(a) == multiset(b)
    ensures a == b
    decreases |a|
  {
    assert |a| == |b| by {
      assert |multiset(a)| == |a| && |multiset(b)| == |b|;
    }
    if a != [] {
      assert a[0] in multiset(b) && b[0] in multiset(a);
      SortedHeadIsLeast(a, b[0]);
      SortedHeadIsLeast(b, a[0]);
      assert a[0] == b[0];
      MultisetOfTail(a);
      MultisetOfTail(b);
      assert multiset(a[1..]) == multiset(b[1..]);
      SortedTail(a);
      SortedTail(b);
      SortedUnique(a[1..], b[1..]);
      assert a == [a[0]] + a[1..];
      assert b == [b[0]] + b[1..];
    }
  }

  lemma {:induction false} MultisetOfTail(a: seq<real>)
    requires a != []
    ensures multiset(a[1..]) == multiset(a) - multiset{a[0]}
  {
    assert a == [a[0]] + a[1..];
  }

  lemma {:induction false} SortedTail(a: seq<real>)
    requires IsSorted(a) && a != []
    ensures IsSorted(a[1..])
  {
  }

  lemma {:induction false} SortedHeadIsLeast(a: seq<real>, x: real)
    requires IsSorted(a) && x in multiset(a)
    ensures a[0] <= x
  {
    var i :| 0 <= i < |a| && a[i] == x;
  }

  /** Sorting an input that is already sorted leaves it as it is. */
  lemma {:induction false} SortSortedIsIdentity(s: seq<real>)
    requires IsSorted(s)
    ensures SortAscending(s) == s
  {
    SortedUnique(SortAscending(s), s);
  }

  // ---------------------------------------------------------------------------
  // Nearest-rank percentile
  // ---------------------------------------------------------------------------

  /** `round(p / 100 * (n - 1))` computed in integers; `p` is an integer literal
      at every call site (50, 95, 99). */
  function PercentileIndex(p: nat, n: nat): (idx: nat)
    requires n > 0
  {
    (p * (n - 1) + 50) / 100
  }

  /** The integer form equals Rust's `round` of the real-valued index. */
  lemma {:induction false} PercentileIndexIsRounded(p: nat, n: nat)
    requires n > 0
    ensures PercentileIndex(p, n) == RoundHalfAway(p as real / 100.0 * (n - 1) as real)
  {
    var m := p * (n - 1) + 50;
    var k := m / 100;
    var x := p as real / 100.0 * (n - 1) as real;
    assert x + 0.5 == m as real / 100.0;
    assert k * 100 <= m < k * 100 + 100;
    assert k as real <= x + 0.5 < k as real + 1.0;
  }

  /** The index grows with `p`. */
  lemma {:induction false} PercentileIndexMonotone(p: nat, q: nat, n: nat)
    requires n > 0 && p <= q
    ensures PercentileIndex(p, n) <= PercentileIndex(q, n)
  {
    NatMulMonotone(p, q, n - 1);
  }

  lemma {:induction false} NatMulMonotone(p: nat, q: nat, k: nat)
    requires p <= q
    ensures p * k <= q * k
  {
    if k > 0 {
      NatMulMonotone(p, q, k - 1);
      assert p * k == p * (k - 1) + p && q * k == q * (k - 1) + q;
    }
  }

  /** `RobustStatistics::percentile`: 0 on an empty slice, otherwise the element
      at the rounded, clamped index. */
  function Percentile(sorted: seq<real>, p: nat): (r: real)
    ensures sorted == [] ==> r == 0.0
    ensures sorted != [] ==> r in sorted
    ensures sorted != [] ==> r == sorted[if PercentileIndex(p, |sorted|) < |sorted| - 1
                                         then PercentileIndex(p, |sorted|) else |sorted| - 1]
  {
    if sorted == [] then 0.0
    else
      var idx := PercentileIndex(p, |sorted|);
      sorted[if idx < |sorted| - 1 then idx else |sorted| - 1]
  }

  /** On sorted data the percentile is monotone in `p`. */
  lemma {:induction false} PercentileMonotone(sorted: seq<real>, p: nat, q: nat)
    requires IsSorted(sorted) && p <= q
    ensures Percentile(sorted, p) <= Percentile(sorted, q)
  {
    if sorted != [] {
      PercentileIndexMonotone(p, q, |sorted|);
    }
  }

  // ---------------------------------------------------------------------------
  // The pieces of `from_samples`
  // ---------------------------------------------------------------------------

  function AbsDeviations(s: seq<real>, center: real): (r: seq<real>)
    ensures |r| == |s| && forall i :: 0 <= i < |r| ==> r[i] == Abs(s[i] - center)
  {
    if s == [] then [] else [Abs(s[0] - center)] + AbsDeviations(s[1..], center)
  }

  /** `sorted.iter().filter(|x| |x - median| <= threshold)` */
  function KeepWithin(s: seq<real>, center: real, threshold: real): (r: seq<real>)
  {
    if s == [] then []
    else if Abs(s[0] - center) <= threshold then [s[0]] + KeepWithin(s[1..], center, threshold)
    else KeepWithin(s[1..], center, threshold)
  }

  /** The filter keeps exactly the elements within the threshold, with their
      multiplicities. */
  lemma {:induction false} KeepWithinCount(s: seq<real>, center: real, threshold: real, x: real)
    ensures multiset(KeepWithin(s, center, threshold))[x] ==
            if Abs(x - center) <= threshold then multiset(s)[x] else 0
  {
    if s != [] {
      KeepWithinCount(s[1..], center, threshold, x);
      assert s == [s[0]] + s[1..];
      assert multiset(s) == multiset{s[0]} + multiset(s[1..]);
    }
  }

  /** The filter keeps only elements of its input. */
  lemma {:induction false} KeepWithinSubset(s: seq<real>, center: real, threshold: real)
    ensures var r := KeepWithin(s, center, threshold);
      |r| <= |s| && forall i :: 0 <= i < |r| ==> r[i] in s && Abs(r[i] - center) <= threshold
  {
    if s != [] {
      KeepWithinSubset(s[1..], center, threshold);
    }
  }

  /** The filter keeps order. */
  lemma {:induction false} KeepWithinSorted(s: seq<real>, center: real, threshold: real)
    requires IsSorted(s)
    ensures IsSorted(KeepWithin(s, center, threshold))
  {
    if s != [] {
      KeepWithinSorted(s[1..], center, threshold);
      KeepWithinSubset(s[1..], center, threshold);
    }
  }

  function SquaredDeviations(s: seq<real>, center: real): (r: seq<real>)
    ensures |r| == |s|
  {
    if s == [] then [] else [(s[0] - center) * (s[0] - center)] + SquaredDeviations(s[1..], center)
  }

  /** The median of the samples: the 50th percentile of their sorted copy. */
  function Median(samples: seq<real>): (m: real)
    requires |samples| > 0
    ensures m in samples
  {
    var sorted := SortAscending(samples);
    assert Percentile(sorted, 50) in multiset(sorted);
    Percentile(sorted, 50)
  }

  /** The median absolute deviation. */
  function Mad(samples: seq<real>): (d: real)
    requires |samples| > 0
    ensures d >= 0.0
  {
    var devs := SortAscending(AbsDeviations(SortAscending(samples), Median(samples)));
    assert forall y :: y in devs ==> y >= 0.0 by {
      forall y | y in devs ensures y >= 0.0 {
        assert y in multiset(devs);
      }
    }
    Percentile(devs, 50)
  }

  /** The MAD is the absolute deviation of one of the samples from the median. */
  lemma {:induction false} MadIsDeviation(samples: seq<real>)
    requires |samples| > 0
    ensures exists i :: 0 <= i < |samples| && Mad(samples) == Abs(samples[i] - Median(samples))
  {
    var sorted := SortAscending(samples);
    var median := Median(samples);
    var deviations := AbsDeviations(sorted, median);
    var devs := SortAscending(deviations);
    var d := Mad(samples);
    assert d == Percentile(devs, 50);
    assert d in devs;
    assert d in multiset(devs);
    PickedDeviation(samples, sorted, deviations, median, d);
  }

  /** A value among the deviations of a rearrangement of the samples is the
      deviation of one of the samples. */
  lemma {:induction false} PickedDeviation(samples: seq<real>, sorted: seq<real>, deviations: seq<real>,
                                           median: real, d: real)
    requires multiset(sorted) == multiset(samples)
    requires |deviations| == |sorted| && forall k :: 0 <= k < |deviations| ==> deviations[k] == Abs(sorted[k] - median)
    requires d in multiset(deviations)
    ensures exists i :: 0 <= i < |samples| && d == Abs(samples[i] - median)
  {
    var j :| 0 <= j < |deviations| && deviations[j] == d;
    assert sorted[j] in multiset(samples);
    var i :| 0 <= i < |samples| && samples[i] == sorted[j];
    assert d == Abs(samples[i] - median);
  }

  /** The cleaned samples: the sorted samples within 3.5 MADs of the median.
      `CleanedIsSortedSubset` and `CleanedCount` state what it holds. */
  function Cleaned(samples: seq<real>): (c: seq<real>)
    requires |samples| > 0
    ensures 0 < |c| <= |samples|
  {
    var sorted := SortAscending(samples);
    var median := Median(samples);
    var threshold := OutlierK * Mad(samples);
    KeepWithinSubset(sorted, median, threshold);
    KeepWithinCount(sorted, median, threshold, median);
    assert median in multiset(sorted);
    KeepWithin(sorted, median, threshold)
  }

  /** `Cleaned` spelled out, for proofs that substitute known parts. */
  lemma {:induction false} CleanedUnfold(samples: seq<real>)
    requires |samples| > 0
    ensures Cleaned(samples) ==
            KeepWithin(SortAscending(samples), Median(samples), OutlierK * Mad(samples))
  {
  }

  /** The cleaned samples are sorted, contain the median, and hold only samples. */
  lemma {:induction false} CleanedIsSortedSubset(samples: seq<real>)
    requires |samples| > 0
    ensures var c := Cleaned(samples);
      IsSorted(c) && Median(samples) in c && forall i :: 0 <= i < |c| ==> c[i] in samples
  {
    var sorted := SortAscending(samples);
    var median := Median(samples);
    var threshold := OutlierK * Mad(samples);
    var c := KeepWithin(sorted, median, threshold);
    assert c == Cleaned(samples);
    KeepWithinSorted(sorted, median, threshold);
    KeepWithinSubset(sorted, median, threshold);
    KeepWithinCount(sorted, median, threshold, median);
    assert median in multiset(sorted);
    assert median in multiset(c);
    forall i | 0 <= i < |c| ensures c[i] in samples {
      assert c[i] in multiset(sorted);
    }
  }

  /** The cleaned set holds every sample within the threshold, with its
      multiplicity, and no other value. */
  lemma {:induction false} CleanedCount(samples: seq<real>, x: real)
    requires |samples| > 0
    ensures multiset(Cleaned(samples))[x] ==
      if Abs(x - Median(samples)) <= OutlierK * Mad(samples) then multiset(samples)[x] else 0
  {
    KeepWithinCount(SortAscending(samples), Median(samples), OutlierK * Mad(samples), x);
  }

  /** The filter keeps a whole sequence when every element is within the threshold. */
  lemma {:induction false} KeepWithinAll(s: seq<real>, center: real, threshold: real)
    requires forall i :: 0 <= i < |s| ==> Abs(s[i] - center) <= threshold
    ensures KeepWithin(s, center, threshold) == s
  {
    if s != [] {
      KeepWithinAll(s[1..], center, threshold);
      assert s == [s[0]] + s[1..];
    }
  }

  /** The filter distributes over concatenation. */
  lemma {:induction false} KeepWithinAppend(a: seq<real>, b: seq<real>, center: real, threshold: real)
    ensures KeepWithin(a + b, center, threshold) ==
            KeepWithin(a, center, threshold) + KeepWithin(b, center, threshold)
    decreases |a|
  {
    if a != [] {
      KeepWithinAppend(a[1..], b, center, threshold);
      KeepWithinConsAppend(a, b, center, threshold);
    } else {
      assert a + b == b && KeepWithin(a, center, threshold) == [];
    }
  }

  /** The step of `KeepWithinAppend`: the first element of `a` is kept or
      dropped alike on both sides. */
  lemma {:induction false} KeepWithinConsAppend(a: seq<real>, b: seq<real>, center: real, threshold: real)
    requires a != []
    requires KeepWithin(a[1..] + b, center, threshold) ==
             KeepWithin(a[1..], center, threshold) + KeepWithin(b, center, threshold)
    ensures KeepWithin(a + b, center, threshold) ==
            KeepWithin(a, center, threshold) + KeepWithin(b, center, threshold)
  {
    var ab := a + b;
    ConcatTail(a, b);
    var front, back := KeepWithin(a[1..], center, threshold), KeepWithin(b, center, threshold);
    if Abs(a[0] - center) <= threshold {
      assert KeepWithin(a, center, threshold) == [a[0]] + front;
      assert KeepWithin(ab, center, threshold) == [a[0]] + (front + back);
      ConcatAssociative([a[0]], front, back);
    } else {
      assert KeepWithin(a, center, threshold) == front;
      assert KeepWithin(ab, center, threshold) == front + back;
    }
  }

  lemma {:induction false} ConcatTail(a: seq<real>, b: seq<real>)
    requires a != []
    ensures a + b != [] && (a + b)[0] == a[0] && (a + b)[1..] == a[1..] + b
  {
  }

  lemma {:induction false} ConcatAssociative(x: seq<real>, y: seq<real>, z: seq<real>)
    ensures x + (y + z) == (x + y) + z
  {
  }

  /** When every sample lies within 3.5 MADs of the median nothing is removed,
      and the cleaned samples are the sorted samples. */
  lemma {:induction false} NoOutliersKeepsAll(samples: seq<real>)
    requires |samples| > 0
    requires forall i :: 0 <= i < |samples| ==>
      Abs(samples[i] - Median(samples)) <= OutlierK * Mad(samples)
    ensures Cleaned(samples) == SortAscending(samples)
    ensures FromSamples(samples).outliersRemoved == 0
  {
    var sorted := SortAscending(samples);
    var median := Median(samples);
    var threshold := OutlierK * Mad(samples);
    forall i | 0 <= i < |sorted| ensures Abs(sorted[i] - median) <= threshold {
      assert sorted[i] in multiset(samples);
    }
    KeepWithinAll(sorted, median, threshold);
  }

  /** Of ten samples the median is the sixth smallest: index round(0.5 * 9) = 5. */
  lemma {:induction false} MedianOfTen(samples: seq<real>)
    requires |samples| == 10
    ensures Median(samples) == SortAscending(samples)[5]
  {
    assert PercentileIndex(50, 10) == 5;
  }

  // ---------------------------------------------------------------------------
  // `from_samples` and `performance_score`
  // ---------------------------------------------------------------------------

  /** `RobustStatistics::from_samples`; an empty input is the source's panic. */
  function FromSamples(samples: seq<real>): (st: RobustStatistics)
    requires |samples| > 0
    ensures st.median in samples
    ensures st.mad >= 0.0
    ensures st.outliersRemoved == |samples| - |Cleaned(samples)|
    ensures st.p95 in Cleaned(samples) && st.p99 in Cleaned(samples) && st.p95 <= st.p99
    ensures Cleaned(samples)[0] <= st.mean <= Cleaned(samples)[|Cleaned(samples)| - 1]
    ensures st.stdev >= 0.0
    ensures st.confidenceInterval95.0 <= st.mean <= st.confidenceInterval95.1
    ensures st.mean - st.confidenceInterval95.0 == st.confidenceInterval95.1 - st.mean
  {
    var clean := Cleaned(samples);
    var n := |clean| as real;
    var mean := Sum(clean) / n;
    var variance := Sum(SquaredDeviations(clean, mean)) / n;
    var stdev := Sqrt(variance);
    var p95 := Percentile(clean, 95);
    var p99 := Percentile(clean, 99);
    var se := stdev / Sqrt(n);
    var margin := Z95 * se;
    CleanedIsSortedSubset(samples);
    MeanWithinRange(clean);
    PercentileMonotone(clean, 95, 99);
    assert se >= 0.0 by { DivNonNegative(stdev, Sqrt(n)); }
    RobustStatistics(mean, Median(samples), stdev, Mad(samples), p95, p99,
                     |samples| - |clean|, (mean - margin, mean + margin))
  }

  /** The mean of a non-empty sorted sequence lies between its first and last elements. */
  lemma {:induction false} MeanWithinRange(c: seq<real>)
    requires IsSorted(c) && |c| > 0
    ensures c[0] <= Sum(c) / |c| as real <= c[|c| - 1]
  {
    var lo, hi := c[0], c[|c| - 1];
    assert forall i :: 0 <= i < |c| ==> lo <= c[i] <= hi;
    SumBounds(c, lo, hi);
    var n := |c| as real;
    var total := Sum(c);
    assert n * lo <= total <= n * hi;
    DivBounds(total, n, lo, hi);
  }

  /** `performance_score`: a weighted cost; smaller is better. With
      non-negative weights summing to one it is a convex combination of p95,
      MAD and p99, so it lies between the smallest and the largest of them. */
  function PerformanceScore(st: RobustStatistics, w: PerformanceWeights): (score: real)
    ensures NonNegativeWeights(w) && w.accuracy + w.consistency + w.worstCase == 1.0 ==>
              Min(Min(st.p95, st.mad), st.p99) <= score <= Max(Max(st.p95, st.mad), st.p99)
  {
    var score := w.accuracy * st.p95 + w.consistency * st.mad + w.worstCase * st.p99;
    assert NonNegativeWeights(w) && w.accuracy + w.consistency + w.worstCase == 1.0 ==>
             Min(Min(st.p95, st.mad), st.p99) <= score <= Max(Max(st.p95, st.mad), st.p99) by {
      if NonNegativeWeights(w) && w.accuracy + w.consistency + w.worstCase == 1.0 {
        ConvexCombinationBounds(w.accuracy, w.consistency, w.worstCase, st.p95, st.mad, st.p99,
                                Min(Min(st.p95, st.mad), st.p99), Max(Max(st.p95, st.mad), st.p99));
      }
    }
    score
  }

  /** `PerformanceWeights::default`. */
  function DefaultWeights(): (w: PerformanceWeights)
    ensures w.accuracy >= 0.0 && w.consistency >= 0.0 && w.worstCase >= 0.0
    ensures w.accuracy + w.consistency + w.worstCase == 1.0
    ensures w.accuracy > w.consistency > w.worstCase
  {
    PerformanceWeights(0.60, 0.30, 0.10)
  }

  predicate NonNegativeWeights(w: PerformanceWeights)
  {
    w.accuracy >= 0.0 && w.consistency >= 0.0 && w.worstCase >= 0.0
  }

  /** A convex combination of three values in `[lo, hi]` stays in `[lo, hi]`. */
  lemma {:induction false} ConvexCombinationBounds(a: real, b: real, c: real, x: real, y: real, z: real,
                                                   lo: real, hi: real)
    requires a >= 0.0 && b >= 0.0 && c >= 0.0 && a + b + c == 1.0
    requires lo <= x <= hi && lo <= y <= hi && lo <= z <= hi
    ensures lo <= a * x + b * y + c * z <= hi
  {
    WeightedMonotone(a, b, c, lo, lo, lo, x, y, z);
    WeightedMonotone(a, b, c, x, y, z, hi, hi, hi);
    assert a * lo + b * lo + c * lo == (a + b + c) * lo;
    assert a * hi + b * hi + c * hi == (a + b + c) * hi;
  }

  /** Non-negative samples and non-negative weights give a non-negative score. */
  lemma {:induction false} ScoreNonNegative(samples: seq<real>, w: PerformanceWeights)
    requires |samples| > 0 && forall i :: 0 <= i < |samples| ==> samples[i] >= 0.0
    requires NonNegativeWeights(w)
    ensures PerformanceScore(FromSamples(samples), w) >= 0.0
  {
    var st := FromSamples(samples);
    CleanedNonNegative(samples, st.p95);
    CleanedNonNegative(samples, st.p99);
    ScoreOfNonNegativeStatistics(st, w);
  }

  /** The score is non-negative when the statistics it weighs and the weights are. */
  lemma {:induction false} ScoreOfNonNegativeStatistics(st: RobustStatistics, w: PerformanceWeights)
    requires st.p95 >= 0.0 && st.mad >= 0.0 && st.p99 >= 0.0 && NonNegativeWeights(w)
    ensures PerformanceScore(st, w) >= 0.0
  {
    WeightedMonotone(w.accuracy, w.consistency, w.worstCase, 0.0, 0.0, 0.0, st.p95, st.mad, st.p99);
    assert w.accuracy * 0.0 + w.consistency * 0.0 + w.worstCase * 0.0 == 0.0;
    assert PerformanceScore(st, w) == w.accuracy * st.p95 + w.consistency * st.mad + w.worstCase * st.p99;
  }

  lemma {:induction false} CleanedNonNegative(samples: seq<real>, x: real)
    requires |samples| > 0 && forall i :: 0 <= i < |samples| ==> samples[i] >= 0.0
    requires x in Cleaned(samples)
    ensures x >= 0.0
  {
    var c := Cleaned(samples);
    CleanedIsSortedSubset(samples);
    var i :| 0 <= i < |c| && c[i] == x;
    assert c[i] in samples;
  }
}
