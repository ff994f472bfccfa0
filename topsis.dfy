/** TOPSIS ranking of timer measurements (src/optimization/topsis.rs): four
    cost criteria per measurement, vector normalisation, fixed weights,
    distances to the ideal and anti-ideal points, the closeness coefficient,
    and a stable descending sort followed by rank numbering. */
module Topsis {
  import opened RealMath
  import opened Measurement

  datatype CriteriaScores = CriteriaScores(
    p95Delta: real,
    mad: real,
    p99Delta: real,
    confidenceWidth: real)

  datatype TopsisScore = TopsisScore(
    resolutionMs: real,
    closenessCoefficient: real,
    rank: nat,
    criteriaScores: CriteriaScores)

  const NumCriteria: nat := 4

  /** Below this a column norm or a distance sum counts as zero. */
  const Epsilon: real := 0.0000000001

  // ---------------------------------------------------------------------------
  // The ranking as functions of the input
  // ---------------------------------------------------------------------------

  /** The criteria row of one measurement; all four are "lower is better". */
  function CriteriaOf(m: TimerMeasurement): (c: CriteriaScores)
    ensures c.p95Delta == m.statistics.p95 && c.mad == m.statistics.mad
    ensures c.p99Delta == m.statistics.p99
    ensures c.confidenceWidth == m.statistics.confidenceInterval95.1 - m.statistics.confidenceInterval95.0
  {
    var st := m.statistics;
    CriteriaScores(st.p95, st.mad, st.p99, st.confidenceInterval95.1 - st.confidenceInterval95.0)
  }

  /** Column `j` of the decision matrix. */
  function Criterion(c: CriteriaScores, j: nat): real
    requires j < NumCriteria
  {
    if j == 0 then c.p95Delta
    else if j == 1 then c.mad
    else if j == 2 then c.p99Delta
    else c.confidenceWidth
  }

  /** The criteria weights 0.40, 0.30, 0.20, 0.10. */
  function Weight(j: nat): (w: real)
    requires j < NumCriteria
    ensures 0.0 < w <= 0.40
  {
    if j == 0 then 0.40 else if j == 1 then 0.30 else if j == 2 then 0.20 else 0.10
  }

  /** Decision-matrix entry: row `i`, column `j`. */
  function Entry(ms: seq<TimerMeasurement>, i: nat, j: nat): real
    requires i < |ms| && j < NumCriteria
  {
    Criterion(CriteriaOf(ms[i]), j)
  }

  /** Sum of the squares of column `j` over the first `k` rows. */
  function ColumnSumSq(ms: seq<TimerMeasurement>, j: nat, k: nat): (r: real)
    requires j < NumCriteria && k <= |ms|
    ensures r >= 0.0
  {
    if k == 0 then 0.0
    else
      var x := Entry(ms, k - 1, j);
      ColumnSumSq(ms, j, k - 1) + x * x
  }

  /** The Euclidean norm of column `j`. */
  function ColumnNorm(ms: seq<TimerMeasurement>, j: nat): (r: real)
    requires j < NumCriteria
    ensures r >= 0.0
  {
    Sqrt(ColumnSumSq(ms, j, |ms|))
  }

  /** Vector normalisation; a column whose norm is below `Epsilon` becomes the
      uniform column 1/sqrt(n). */
  function Normalized(ms: seq<TimerMeasurement>, i: nat, j: nat): real
    requires i < |ms| && j < NumCriteria
  {
    var norm := ColumnNorm(ms, j);
    if norm < Epsilon then 1.0 / Sqrt(|ms| as real) else Entry(ms, i, j) / norm
  }

  function Weighted(ms: seq<TimerMeasurement>, i: nat, j: nat): real
    requires i < |ms| && j < NumCriteria
  {
    Normalized(ms, i, j) * Weight(j)
  }

  /** Column `j` of the weighted matrix. */
  function WeightedColumn(ms: seq<TimerMeasurement>, j: nat): (c: seq<real>)
    requires j < NumCriteria
    ensures |c| == |ms| && forall i :: 0 <= i < |ms| ==> c[i] == Weighted(ms, i, j)
  {
    seq(|ms|, i requires 0 <= i < |ms| => Weighted(ms, i, j))
  }

  /** Left-to-right running minimum, seeded with the first element. */
  function SeqMin(s: seq<real>): real
    requires |s| > 0
  {
    if |s| == 1 then s[0] else Min(SeqMin(s[..|s| - 1]), s[|s| - 1])
  }

  /** Left-to-right running maximum, seeded with the first element. */
  function SeqMax(s: seq<real>): real
    requires |s| > 0
  {
    if |s| == 1 then s[0] else Max(SeqMax(s[..|s| - 1]), s[|s| - 1])
  }

  /** The ideal point: the smallest weighted value of every cost criterion. */
  function Ideal(ms: seq<TimerMeasurement>, j: nat): real
    requires j < NumCriteria && |ms| > 0
  {
    SeqMin(WeightedColumn(ms, j))
  }

  /** The anti-ideal point: the largest weighted value of every criterion. */
  function AntiIdeal(ms: seq<TimerMeasurement>, j: nat): real
    requires j < NumCriteria && |ms| > 0
  {
    SeqMax(WeightedColumn(ms, j))
  }

  /** Row `i` of the weighted matrix. */
  function WeightedRow(ms: seq<TimerMeasurement>, i: nat): (r: seq<real>)
    requires i < |ms|
    ensures |r| == NumCriteria && forall j :: 0 <= j < NumCriteria ==> r[j] == Weighted(ms, i, j)
  {
    [Weighted(ms, i, 0), Weighted(ms, i, 1), Weighted(ms, i, 2), Weighted(ms, i, 3)]
  }

  function IdealPoint(ms: seq<TimerMeasurement>): (r: seq<real>)
    requires |ms| > 0
    ensures |r| == NumCriteria && forall j :: 0 <= j < NumCriteria ==> r[j] == Ideal(ms, j)
  {
    [Ideal(ms, 0), Ideal(ms, 1), Ideal(ms, 2), Ideal(ms, 3)]
  }

  function AntiIdealPoint(ms: seq<TimerMeasurement>): (r: seq<real>)
    requires |ms| > 0
    ensures |r| == NumCriteria && forall j :: 0 <= j < NumCriteria ==> r[j] == AntiIdeal(ms, j)
  {
    [AntiIdeal(ms, 0), AntiIdeal(ms, 1), AntiIdeal(ms, 2), AntiIdeal(ms, 3)]
  }

  /** Squared Euclidean distance between `a` and `b` over the first `k` coordinates. */
  function SquaredDistance(a: seq<real>, b: seq<real>, k: nat): (r: real)
    requires k <= |a| && k <= |b|
    ensures r >= 0.0
  {
    if k == 0 then 0.0
    else
      var d := a[k - 1] - b[k - 1];
      SquaredDistance(a, b, k - 1) + d * d
  }

  function EuclideanDistance(a: seq<real>, b: seq<real>): (r: real)
    requires |a| == |b|
    ensures r >= 0.0
  {
    Sqrt(SquaredDistance(a, b, |a|))
  }

  /** Distance of row `i` to the ideal point, or to the anti-ideal point when
      `toAnti` holds. */
  function Distance(ms: seq<TimerMeasurement>, i: nat, toAnti: bool): (r: real)
    requires i < |ms|
    ensures r >= 0.0
  {
    EuclideanDistance(WeightedRow(ms, i), if toAnti then AntiIdealPoint(ms) else IdealPoint(ms))
  }

  /** d⁻ / (d⁺ + d⁻), or the neutral 0.5 when the sum is below `Epsilon`. */
  function CloseFrom(dIdeal: real, dAnti: real): real
  {
    var denominator := dIdeal + dAnti;
    if Abs(denominator) < Epsilon then 0.5 else dAnti / denominator
  }

  /** The closeness coefficient of row `i`. */
  function Closeness(ms: seq<TimerMeasurement>, i: nat): real
    requires i < |ms|
  {
    CloseFrom(Distance(ms, i, false), Distance(ms, i, true))
  }

  /** The unranked score of a measurement at the given distances. */
  function ScoreFrom(m: TimerMeasurement, dIdeal: real, dAnti: real): TopsisScore
  {
    TopsisScore(m.resolutionMs, CloseFrom(dIdeal, dAnti), 0, CriteriaOf(m))
  }

  /** The score of input `i` before ranking. */
  function ScoreOf(ms: seq<TimerMeasurement>, i: nat): TopsisScore
    requires i < |ms|
  {
    ScoreFrom(ms[i], Distance(ms, i, false), Distance(ms, i, true))
  }

  // ---------------------------------------------------------------------------
  // Properties of the ranking functions
  // ---------------------------------------------------------------------------

  /** With non-negative distances the coefficient lies in [0, 1]. */
  lemma {:induction false} CloseFromInUnitInterval(dIdeal: real, dAnti: real)
    requires dIdeal >= 0.0 && dAnti >= 0.0
    ensures 0.0 <= CloseFrom(dIdeal, dAnti) <= 1.0
  {
    var denominator := dIdeal + dAnti;
    if Abs(denominator) >= Epsilon {
      DivBounds(dAnti, denominator, 0.0, 1.0);
    }
  }

  /** Every closeness coefficient lies in [0, 1]. */
  lemma {:induction false} ClosenessInUnitInterval(ms: seq<TimerMeasurement>, i: nat)
    requires i < |ms|
    ensures 0.0 <= Closeness(ms, i) <= 1.0
  {
    CloseFromInUnitInterval(Distance(ms, i, false), Distance(ms, i, true));
  }

  /** The running minimum is below, and the running maximum above, every element. */
  lemma {:induction false} SeqMinMaxBound(s: seq<real>, i: nat)
    requires i < |s|
    ensures SeqMin(s) <= s[i] <= SeqMax(s)
  {
    if |s| > 1 && i < |s| - 1 {
      SeqMinMaxBound(s[..|s| - 1], i);
    }
  }

  /** The running minimum and maximum are elements. */
  lemma {:induction false} SeqMinMaxAttained(s: seq<real>)
    requires |s| > 0
    ensures SeqMin(s) in s && SeqMax(s) in s
  {
    if |s| > 1 {
      SeqMinMaxAttained(s[..|s| - 1]);
    }
  }

  /** For every row `i` and criterion `j`, ideal[j] <= weighted[i][j] <= anti_ideal[j]. */
  lemma {:induction false} IdealBounds(ms: seq<TimerMeasurement>, i: nat, j: nat)
    requires i < |ms| && j < NumCriteria
    ensures Ideal(ms, j) <= Weighted(ms, i, j) <= AntiIdeal(ms, j)
  {
    SeqMinMaxBound(WeightedColumn(ms, j), i);
  }

  /** The ideal and anti-ideal values are values of the column. */
  lemma {:induction false} IdealAttained(ms: seq<TimerMeasurement>, j: nat)
    requires |ms| > 0 && j < NumCriteria
    ensures exists i :: 0 <= i < |ms| && Ideal(ms, j) == Weighted(ms, i, j)
    ensures exists i :: 0 <= i < |ms| && AntiIdeal(ms, j) == Weighted(ms, i, j)
  {
    var c := WeightedColumn(ms, j);
    SeqMinMaxAttained(c);
    var lo :| 0 <= lo < |c| && c[lo] == SeqMin(c);
    var hi :| 0 <= hi < |c| && c[hi] == SeqMax(c);
  }

  /** A column of zeros is degenerate and is replaced by the uniform column. */
  lemma {:induction false} ZeroColumnIsUniform(ms: seq<TimerMeasurement>, j: nat, k: nat)
    requires j < NumCriteria && k <= |ms|
    requires forall i :: 0 <= i < |ms| ==> Entry(ms, i, j) == 0.0
    ensures ColumnSumSq(ms, j, k) == 0.0
    ensures k == |ms| > 0 ==> forall i :: 0 <= i < |ms| ==> Normalized(ms, i, j) == 1.0 / Sqrt(|ms| as real)
  {
    if k > 0 {
      ZeroColumnIsUniform(ms, j, k - 1);
    }
  }

  /** Rows with equal criteria have equal weighted entries. */
  lemma {:induction false} SameCriteriaSameWeighted(ms: seq<TimerMeasurement>, i: nat, i': nat, j: nat)
    requires i < |ms| && i' < |ms| && j < NumCriteria
    requires CriteriaOf(ms[i]) == CriteriaOf(ms[i'])
    ensures Weighted(ms, i, j) == Weighted(ms, i', j)
  {
  }

  predicate AllRowsIdentical(ms: seq<TimerMeasurement>)
  {
    forall i :: 0 <= i < |ms| ==> CriteriaOf(ms[i]) == CriteriaOf(ms[0])
  }

  /** A constant sequence is its own minimum and maximum. */
  lemma {:induction false} SeqMinMaxOfConstant(s: seq<real>)
    requires |s| > 0 && forall i :: 0 <= i < |s| ==> s[i] == s[0]
    ensures SeqMin(s) == s[0] == SeqMax(s)
  {
    if |s| > 1 {
      SeqMinMaxOfConstant(s[..|s| - 1]);
    }
  }

  lemma {:induction false} IdenticalRowsCollapseIdeal(ms: seq<TimerMeasurement>, j: nat)
    requires AllRowsIdentical(ms) && |ms| > 0 && j < NumCriteria
    ensures Ideal(ms, j) == Weighted(ms, 0, j) == AntiIdeal(ms, j)
  {
    var c := WeightedColumn(ms, j);
    forall i | 0 <= i < |c| ensures c[i] == c[0] {
      SameCriteriaSameWeighted(ms, i, 0, j);
    }
    SeqMinMaxOfConstant(c);
  }

  /** Equal points are at distance zero. */
  lemma {:induction false} SquaredDistanceToSelf(a: seq<real>, b: seq<real>, k: nat)
    requires k <= |a| && k <= |b| && forall j :: 0 <= j < k ==> a[j] == b[j]
    ensures SquaredDistance(a, b, k) == 0.0
  {
    if k > 0 {
      SquaredDistanceToSelf(a, b, k - 1);
    }
  }

  lemma {:induction false} IdenticalRowsOnTarget(ms: seq<TimerMeasurement>, i: nat)
    requires AllRowsIdentical(ms) && i < |ms|
    ensures forall j :: 0 <= j < NumCriteria ==> Weighted(ms, i, j) == Ideal(ms, j) == AntiIdeal(ms, j)
  {
    forall j | 0 <= j < NumCriteria
      ensures Weighted(ms, i, j) == Ideal(ms, j) == AntiIdeal(ms, j)
    {
      IdenticalRowsCollapseIdeal(ms, j);
      SameCriteriaSameWeighted(ms, i, 0, j);
    }
  }

  /** When all rows are identical every distance is zero and every closeness
      coefficient is the neutral 0.5. */
  lemma {:induction false} IdenticalRowsAreNeutral(ms: seq<TimerMeasurement>, i: nat)
    requires AllRowsIdentical(ms) && i < |ms|
    ensures Distance(ms, i, false) == 0.0 && Distance(ms, i, true) == 0.0
    ensures Closeness(ms, i) == 0.5
  {
    IdenticalRowsOnTarget(ms, i);
    var row := WeightedRow(ms, i);
    SquaredDistanceToSelf(row, IdealPoint(ms), |row|);
    SquaredDistanceToSelf(row, AntiIdealPoint(ms), |row|);
  }

  // ---------------------------------------------------------------------------
  // Permutations and the order of the result
  // ---------------------------------------------------------------------------

  /** `p` lists each of 0..n-1 exactly once. */
  predicate IsPermutation(p: seq<nat>, n: nat)
  {
    && |p| == n
    && (forall k :: 0 <= k < n ==> p[k] < n)
    && (forall k, l :: 0 <= k < l < n ==> p[k] != p[l])
  }

  /** Non-increasing by closeness coefficient. */
  predicate SortedByCloseness(s: seq<TopsisScore>)
  {
    forall k, l :: 0 <= k < l < |s| ==> s[k].closenessCoefficient >= s[l].closenessCoefficient
  }

  /** Entries with equal coefficients keep the order of their inputs. */
  predicate StableFor(s: seq<TopsisScore>, p: seq<nat>)
    requires |p| == |s|
  {
    forall k, l :: 0 <= k < l < |s| && s[k].closenessCoefficient == s[l].closenessCoefficient ==> p[k] < p[l]
  }

  /** A permutation that lists ties in increasing order is the identity when
      every entry ties. */
  lemma {:induction false} IncreasingPermutationIsIdentity(p: seq<nat>, n: nat)
    requires IsPermutation(p, n)
    requires forall k, l :: 0 <= k < l < n ==> p[k] < p[l]
    ensures forall k :: 0 <= k < n ==> p[k] == k
  {
    forall k | 0 <= k < n ensures p[k] == k {
      IncreasingLowerBound(p, n, k);
      IncreasingUpperBound(p, n, k);
    }
  }

  lemma {:induction false} IncreasingLowerBound(p: seq<nat>, n: nat, k: nat)
    requires |p| == n && k < n
    requires forall a, b :: 0 <= a < b < n ==> p[a] < p[b]
    ensures p[k] >= k
  {
    if k > 0 {
      IncreasingLowerBound(p, n, k - 1);
    }
  }

  lemma {:induction false} IncreasingUpperBound(p: seq<nat>, n: nat, k: nat)
    requires IsPermutation(p, n) && k < n
    requires forall a, b :: 0 <= a < b < n ==> p[a] < p[b]
    ensures p[k] <= k
    decreases n - k
  {
    if k < n - 1 {
      IncreasingUpperBound(p, n, k + 1);
    } else {
      IncreasingLowerBound(p, n, k);
      assert p[k] < n;
    }
  }

  /** The identity permutation 0, 1, ..., n-1. */
  function Identity(n: nat): (r: seq<nat>)
    ensures IsPermutation(r, n) && forall k :: 0 <= k < n ==> r[k] == k
  {
    if n == 0 then [] else Identity(n - 1) + [n - 1]
  }

  /** A permutation of 0..n-1 takes every value: each input lands somewhere. */
  lemma {:induction false} PermutationIsOnto(p: seq<nat>, n: nat, v: nat)
    requires IsPermutation(p, n) && v < n
    ensures exists k :: 0 <= k < n && p[k] == v
  {
    var id := Identity(n);
    var image := set k | 0 <= k < n :: p[k];
    var range := set k | 0 <= k < n :: id[k];
    ImageSize(p, n);
    ImageSize(id, n);
    forall x | x in image ensures x in range {
      var k :| 0 <= k < n && p[k] == x;
      assert id[x] == x;
    }
    assert |range - image| == 0;
    assert id[v] == v && v in range;
    assert v in image;
  }

  lemma {:induction false} ImageSize(p: seq<nat>, m: nat)
    requires m <= |p| && forall k, l :: 0 <= k < l < m ==> p[k] != p[l]
    ensures |set k | 0 <= k < m :: p[k]| == m
  {
    if m > 0 {
      ImageSize(p, m - 1);
      var before := set k | 0 <= k < m - 1 :: p[k];
      assert (set k | 0 <= k < m :: p[k]) == before + {p[m - 1]};
      assert p[m - 1] !in before;
    }
  }

  // ---------------------------------------------------------------------------
  // `topsis_ranking`, step by step
  // ---------------------------------------------------------------------------

  /** Step 1: the n-by-4 decision matrix. */
  method BuildMatrix(ms: seq<TimerMeasurement>) returns (matrix: array2<real>)
    ensures fresh(matrix) && matrix.Length0 == |ms| && matrix.Length1 == NumCriteria
    ensures forall i, j {:trigger Entry(ms, i, j)} :: 0 <= i < |ms| && 0 <= j < NumCriteria ==> matrix[i, j] == Entry(ms, i, j)
  {
    matrix := new real[|ms|, NumCriteria];
    for i := 0 to |ms|
      invariant forall i', j :: 0 <= i' < i && 0 <= j < NumCriteria ==> matrix[i', j] == Entry(ms, i', j)
    {
      var c := CriteriaOf(ms[i]);
      matrix[i, 0] := c.p95Delta;
      matrix[i, 1] := c.mad;
      matrix[i, 2] := c.p99Delta;
      matrix[i, 3] := c.confidenceWidth;
    }
  }

  /** Step 2: vector normalisation by column, with the uniform fallback. */
  method Normalize(ms: seq<TimerMeasurement>, matrix: array2<real>) returns (normalized: array2<real>)
    requires |ms| > 0 && matrix.Length0 == |ms| && matrix.Length1 == NumCriteria
    requires forall i, j {:trigger Entry(ms, i, j)} :: 0 <= i < |ms| && 0 <= j < NumCriteria ==> matrix[i, j] == Entry(ms, i, j)
    ensures fresh(normalized) && normalized.Length0 == |ms| && normalized.Length1 == NumCriteria
    ensures forall i, j {:trigger Normalized(ms, i, j)} :: 0 <= i < |ms| && 0 <= j < NumCriteria ==> normalized[i, j] == Normalized(ms, i, j)
  {
    normalized := new real[|ms|, NumCriteria];
    for j := 0 to NumCriteria
      invariant forall i, j' :: 0 <= i < |ms| && 0 <= j' < j ==> normalized[i, j'] == Normalized(ms, i, j')
    {
      var sumSq := ColumnSumOfSquares(ms, matrix, j);
      NormalizeColumn(ms, matrix, normalized, j, Sqrt(sumSq));
    }
  }

  /** `matrix.iter().map(|row| row[j].powi(2)).sum()` */
  method ColumnSumOfSquares(ms: seq<TimerMeasurement>, matrix: array2<real>, j: nat) returns (sumSq: real)
    requires matrix.Length0 == |ms| && matrix.Length1 == NumCriteria && j < NumCriteria
    requires forall i {:trigger Entry(ms, i, j)} :: 0 <= i < |ms| ==> matrix[i, j] == Entry(ms, i, j)
    ensures sumSq == ColumnSumSq(ms, j, |ms|)
  {
    sumSq := 0.0;
    for i := 0 to |ms|
      invariant sumSq == ColumnSumSq(ms, j, i)
    {
      var x := matrix[i, j];
      sumSq := sumSq + x * x;
    }
  }

  /** Fills column `j` of `normalized` given the column's norm. */
  method NormalizeColumn(ms: seq<TimerMeasurement>, matrix: array2<real>, normalized: array2<real>, j: nat, norm: real)
    requires |ms| > 0 && matrix.Length0 == |ms| && matrix.Length1 == NumCriteria && j < NumCriteria
    requires normalized.Length0 == |ms| && normalized.Length1 == NumCriteria && normalized != matrix
    requires forall i {:trigger Entry(ms, i, j)} :: 0 <= i < |ms| ==> matrix[i, j] == Entry(ms, i, j)
    requires norm == ColumnNorm(ms, j)
    modifies normalized
    ensures forall i :: 0 <= i < |ms| ==> normalized[i, j] == Normalized(ms, i, j)
    ensures forall i, j' :: 0 <= i < |ms| && 0 <= j' < NumCriteria && j' != j ==>
      normalized[i, j'] == old(normalized[i, j'])
  {
    for i := 0 to |ms|
      invariant forall i' :: 0 <= i' < i ==> normalized[i', j] == Normalized(ms, i', j)
      invariant forall i', j' :: 0 <= i' < |ms| && 0 <= j' < NumCriteria && j' != j ==>
        normalized[i', j'] == old(normalized[i', j'])
    {
      if norm < Epsilon {
        normalized[i, j] := 1.0 / Sqrt(|ms| as real);
      } else {
        normalized[i, j] := matrix[i, j] / norm;
      }
    }
  }

  /** Step 3: the weighted normalised matrix. */
  method ApplyWeights(ms: seq<TimerMeasurement>, normalized: array2<real>) returns (weighted: array2<real>)
    requires |ms| > 0 && normalized.Length0 == |ms| && normalized.Length1 == NumCriteria
    requires forall i, j {:trigger Normalized(ms, i, j)} :: 0 <= i < |ms| && 0 <= j < NumCriteria ==> normalized[i, j] == Normalized(ms, i, j)
    ensures fresh(weighted) && weighted.Length0 == |ms| && weighted.Length1 == NumCriteria
    ensures forall i, j {:trigger Weighted(ms, i, j)} :: 0 <= i < |ms| && 0 <= j < NumCriteria ==> weighted[i, j] == Weighted(ms, i, j)
  {
    weighted := WeighColumns(normalized);
    forall i, j | 0 <= i < |ms| && 0 <= j < NumCriteria
      ensures weighted[i, j] == Weighted(ms, i, j)
    {
    }
  }

  /** `weighted[i][j] = normalized[i][j] * weights[j]` for every entry. */
  method WeighColumns(normalized: array2<real>) returns (weighted: array2<real>)
    requires normalized.Length1 == NumCriteria
    ensures fresh(weighted) && weighted.Length0 == normalized.Length0 && weighted.Length1 == NumCriteria
    ensures forall i, j :: 0 <= i < normalized.Length0 && 0 <= j < NumCriteria ==>
      weighted[i, j] == normalized[i, j] * Weight(j)
  {
    weighted := new real[normalized.Length0, NumCriteria];
    for i := 0 to normalized.Length0
      invariant forall i', j :: 0 <= i' < i && 0 <= j < NumCriteria ==>
        weighted[i', j] == normalized[i', j] * Weight(j)
    {
      for j := 0 to NumCriteria
        invariant forall i', j' :: 0 <= i' < i && 0 <= j' < NumCriteria ==>
          weighted[i', j'] == normalized[i', j'] * Weight(j')
        invariant forall j' :: 0 <= j' < j ==> weighted[i, j'] == normalized[i, j'] * Weight(j')
      {
        weighted[i, j] := normalized[i, j] * Weight(j);
      }
    }
  }

  /** Step 4: column minima and maxima of the weighted matrix. */
  method IdealPoints(ms: seq<TimerMeasurement>, weighted: array2<real>) returns (ideal: array<real>, antiIdeal: array<real>)
    requires |ms| > 0 && weighted.Length0 == |ms| && weighted.Length1 == NumCriteria
    requires forall i, j {:trigger Weighted(ms, i, j)} :: 0 <= i < |ms| && 0 <= j < NumCriteria ==> weighted[i, j] == Weighted(ms, i, j)
    ensures fresh(ideal) && fresh(antiIdeal)
    ensures ideal[..] == IdealPoint(ms) && antiIdeal[..] == AntiIdealPoint(ms)
  {
    ideal := new real[NumCriteria];
    antiIdeal := new real[NumCriteria];
    for j := 0 to NumCriteria
      invariant forall j' :: 0 <= j' < j ==> ideal[j'] == Ideal(ms, j') && antiIdeal[j'] == AntiIdeal(ms, j')
    {
      ideal[j], antiIdeal[j] := ColumnRange(ms, weighted, j);
    }
  }

  /** Running minimum and maximum down column `j`; the source seeds them with
      the largest and smallest float, here the first row stands for both. */
  method ColumnRange(ms: seq<TimerMeasurement>, weighted: array2<real>, j: nat) returns (lo: real, hi: real)
    requires |ms| > 0 && weighted.Length0 == |ms| && weighted.Length1 == NumCriteria && j < NumCriteria
    requires forall i {:trigger Weighted(ms, i, j)} :: 0 <= i < |ms| ==> weighted[i, j] == Weighted(ms, i, j)
    ensures lo == Ideal(ms, j) && hi == AntiIdeal(ms, j)
  {
    ghost var column := WeightedColumn(ms, j);
    lo, hi := weighted[0, j], weighted[0, j];
    for i := 1 to |ms|
      invariant lo == SeqMin(column[..i]) && hi == SeqMax(column[..i])
    {
      assert column[..i + 1][..i] == column[..i];
      lo := Min(lo, weighted[i, j]);
      hi := Max(hi, weighted[i, j]);
    }
    assert column[..|ms|] == column;
  }

  /** Row `i` of a matrix with `NumCriteria` columns. */
  function RowOf(a: array2<real>, i: nat): (r: seq<real>)
    requires i < a.Length0 && a.Length1 == NumCriteria
    reads a
    ensures |r| == NumCriteria && forall j :: 0 <= j < NumCriteria ==> r[j] == a[i, j]
  {
    [a[i, 0], a[i, 1], a[i, 2], a[i, 3]]
  }

  /** Step 5: Euclidean distances of every row to both points. */
  method Distances(ms: seq<TimerMeasurement>, weighted: array2<real>, ideal: array<real>, antiIdeal: array<real>)
    returns (dIdeal: array<real>, dAnti: array<real>)
    requires |ms| > 0 && weighted.Length0 == |ms| && weighted.Length1 == NumCriteria
    requires forall i, j {:trigger Weighted(ms, i, j)} :: 0 <= i < |ms| && 0 <= j < NumCriteria ==> weighted[i, j] == Weighted(ms, i, j)
    requires ideal[..] == IdealPoint(ms) && antiIdeal[..] == AntiIdealPoint(ms)
    ensures fresh(dIdeal) && fresh(dAnti) && dIdeal.Length == |ms| && dAnti.Length == |ms|
    ensures forall i {:trigger Distance(ms, i, false)} :: 0 <= i < |ms| ==> dIdeal[i] == Distance(ms, i, false) && dAnti[i] == Distance(ms, i, true)
  {
    dIdeal, dAnti := AllRowDistances(weighted, ideal, antiIdeal);
    forall i | 0 <= i < |ms|
      ensures dIdeal[i] == Distance(ms, i, false) && dAnti[i] == Distance(ms, i, true)
    {
      assert RowOf(weighted, i) == WeightedRow(ms, i);
    }
  }

  /** Both distances for every row. */
  method AllRowDistances(weighted: array2<real>, ideal: array<real>, antiIdeal: array<real>)
    returns (dIdeal: array<real>, dAnti: array<real>)
    requires weighted.Length1 == NumCriteria && ideal.Length == NumCriteria && antiIdeal.Length == NumCriteria
    ensures fresh(dIdeal) && fresh(dAnti) && dIdeal.Length == weighted.Length0 && dAnti.Length == weighted.Length0
    ensures forall i :: 0 <= i < weighted.Length0 ==>
      dIdeal[i] == EuclideanDistance(RowOf(weighted, i), ideal[..]) &&
      dAnti[i] == EuclideanDistance(RowOf(weighted, i), antiIdeal[..])
  {
    ghost var ip, ap := ideal[..], antiIdeal[..];
    ghost var rows := seq(weighted.Length0, i requires 0 <= i < weighted.Length0 reads weighted => RowOf(weighted, i));
    dIdeal := new real[weighted.Length0];
    dAnti := new real[weighted.Length0];
    for i := 0 to weighted.Length0
      invariant forall i' :: 0 <= i' < i ==>
        dIdeal[i'] == EuclideanDistance(rows[i'], ip) &&
        dAnti[i'] == EuclideanDistance(rows[i'], ap)
    {
      dIdeal[i], dAnti[i] := RowDistances(weighted, i, ideal, antiIdeal);
    }
  }

  /** The two distances of row `i`, accumulated over the criteria. */
  method RowDistances(weighted: array2<real>, i: nat, ideal: array<real>, antiIdeal: array<real>)
    returns (dIdeal: real, dAnti: real)
    requires i < weighted.Length0 && weighted.Length1 == NumCriteria
    requires ideal.Length == NumCriteria && antiIdeal.Length == NumCriteria
    ensures dIdeal == EuclideanDistance(RowOf(weighted, i), ideal[..])
    ensures dAnti == EuclideanDistance(RowOf(weighted, i), antiIdeal[..])
  {
    ghost var row := RowOf(weighted, i);
    var sumIdeal := 0.0;
    var sumAnti := 0.0;
    for j := 0 to NumCriteria
      invariant sumIdeal == SquaredDistance(row, ideal[..], j)
      invariant sumAnti == SquaredDistance(row, antiIdeal[..], j)
    {
      var x := weighted[i, j];
      sumIdeal := sumIdeal + (x - ideal[j]) * (x - ideal[j]);
      sumAnti := sumAnti + (x - antiIdeal[j]) * (x - antiIdeal[j]);
    }
    dIdeal := Sqrt(sumIdeal);
    dAnti := Sqrt(sumAnti);
  }

  /** Step 6: one unranked score per input, in input order. */
  method BuildScores(ms: seq<TimerMeasurement>, dIdeal: array<real>, dAnti: array<real>) returns (scores: array<TopsisScore>)
    requires dIdeal.Length == |ms| && dAnti.Length == |ms|
    requires forall i {:trigger Distance(ms, i, false)} :: 0 <= i < |ms| ==> dIdeal[i] == Distance(ms, i, false) && dAnti[i] == Distance(ms, i, true)
    ensures fresh(scores) && scores.Length == |ms|
    ensures forall i :: 0 <= i < |ms| ==> scores[i] == ScoreOf(ms, i)
  {
    scores := new TopsisScore[|ms|];
    for i := 0 to |ms|
      invariant forall i' :: 0 <= i' < i ==> scores[i'] == ScoreFrom(ms[i'], dIdeal[i'], dAnti[i'])
    {
      var denominator := dIdeal[i] + dAnti[i];
      var cc := if Abs(denominator) < Epsilon then 0.5 else dAnti[i] / denominator;
      scores[i] := TopsisScore(ms[i].resolutionMs, cc, 0, CriteriaOf(ms[i]));
    }
  }

  /** Step 7a: a stable in-place sort by descending closeness coefficient: an
      insertion sort by adjacent swaps, where only a strictly greater
      coefficient moves an entry past its neighbour. `perm[k]` is the position
      before sorting of the entry now at `k`. */
  method SortByCloseness(a: array<TopsisScore>) returns (ghost perm: seq<nat>)
    modifies a
    ensures IsPermutation(perm, a.Length)
    ensures forall k :: 0 <= k < a.Length ==> a[k] == old(a[..])[perm[k]]
    ensures SortedByCloseness(a[..]) && StableFor(a[..], perm)
  {
    ghost var orig := a[..];
    perm := Identity(a.Length);
    for i := 0 to a.Length
      invariant SortInv(a[..], perm, orig, i)
    {
      perm := SiftIntoPlace(a, i, perm, orig);
    }
  }

  /** Swaps the entries at `j - 1` and `j`. */
  function SwapAt<T>(s: seq<T>, j: nat): (r: seq<T>)
    requires 0 < j < |s|
    ensures |r| == |s| && r[j - 1] == s[j] && r[j] == s[j - 1]
    ensures forall k :: 0 <= k < |s| && k != j - 1 && k != j ==> r[k] == s[k]
  {
    s[j - 1 := s[j]][j := s[j - 1]]
  }

  /** `s` holds the entries of `orig` in the order `p`. */
  predicate Tracks(s: seq<TopsisScore>, p: seq<nat>, orig: seq<TopsisScore>)
  {
    && |p| == |s| && |orig| == |s| && IsPermutation(p, |s|)
    && forall k :: 0 <= k < |s| ==> s[k] == orig[p[k]]
  }

  /** Before position `i` of the outer loop: the first `i` entries are the
      first `i` inputs, sorted and stable; the rest are untouched. */
  predicate SortInv(s: seq<TopsisScore>, p: seq<nat>, orig: seq<TopsisScore>, i: nat)
  {
    && i <= |s| && Tracks(s, p, orig)
    && (forall k :: i <= k < |s| ==> p[k] == k)
    && (forall k :: 0 <= k < i ==> p[k] < i)
    && (forall k, l :: 0 <= k < l < i ==> s[k].closenessCoefficient >= s[l].closenessCoefficient)
    && (forall k, l :: 0 <= k < l < i && s[k].closenessCoefficient == s[l].closenessCoefficient ==> p[k] < p[l])
  }

  /** While input `i` sits at `j`: the entries up to `i` other than `j` are in
      order, input `i` is strictly above everything after it, and ties up to
      `i` are in input order. */
  predicate SiftInv(s: seq<TopsisScore>, p: seq<nat>, orig: seq<TopsisScore>, i: nat, j: nat)
  {
    && j <= i < |s| && Tracks(s, p, orig)
    && (forall k :: i < k < |s| ==> p[k] == k)
    && (forall k :: 0 <= k <= i ==> p[k] <= i)
    && p[j] == i
    && (forall k, l :: 0 <= k < l <= i && l != j ==> s[k].closenessCoefficient >= s[l].closenessCoefficient)
    && (forall l :: j < l <= i ==> s[j].closenessCoefficient > s[l].closenessCoefficient)
    && (forall k, l :: 0 <= k < l <= i && s[k].closenessCoefficient == s[l].closenessCoefficient ==> p[k] < p[l])
  }

  lemma {:induction false} SiftStart(s: seq<TopsisScore>, p: seq<nat>, orig: seq<TopsisScore>, i: nat)
    requires SortInv(s, p, orig, i) && i < |s|
    ensures SiftInv(s, p, orig, i, i)
  {
  }

  lemma {:induction false} SiftEnd(s: seq<TopsisScore>, p: seq<nat>, orig: seq<TopsisScore>, i: nat, j: nat)
    requires SiftInv(s, p, orig, i, j)
    requires j == 0 || s[j - 1].closenessCoefficient >= s[j].closenessCoefficient
    ensures SortInv(s, p, orig, i + 1)
  {
    forall k, l | 0 <= k < l <= i
      ensures s[k].closenessCoefficient >= s[l].closenessCoefficient
    {
      if l == j && k < j - 1 {
        assert s[k].closenessCoefficient >= s[j - 1].closenessCoefficient;
      }
    }
  }

  lemma {:induction false} SwapKeepsTracks(s: seq<TopsisScore>, p: seq<nat>, orig: seq<TopsisScore>, j: nat)
    requires Tracks(s, p, orig) && 0 < j < |s|
    ensures Tracks(SwapAt(s, j), SwapAt(p, j), orig)
  {
    var p' := SwapAt(p, j);
    forall k, l | 0 <= k < l < |s| ensures p'[k] != p'[l] {
      var k0 := if k == j - 1 then j else if k == j then j - 1 else k;
      var l0 := if l == j - 1 then j else if l == j then j - 1 else l;
      assert p'[k] == p[k0] && p'[l] == p[l0] && k0 != l0;
      if k0 > l0 {
        assert p[l0] != p[k0];
      }
    }
  }

  lemma {:induction false} SiftStep(s: seq<TopsisScore>, p: seq<nat>, orig: seq<TopsisScore>, i: nat, j: nat)
    requires SiftInv(s, p, orig, i, j)
    requires j > 0 && s[j - 1].closenessCoefficient < s[j].closenessCoefficient
    ensures SiftInv(SwapAt(s, j), SwapAt(p, j), orig, i, j - 1)
  {
    var s', p' := SwapAt(s, j), SwapAt(p, j);
    SwapKeepsTracks(s, p, orig, j);
    forall k, l | 0 <= k < l <= i && l != j - 1
      ensures s'[k].closenessCoefficient >= s'[l].closenessCoefficient
    {
      if k == j - 1 {
        assert s'[k] == s[j];
      } else if l == j {
        assert s'[k] == s[k];
      }
    }
    forall k, l | 0 <= k < l <= i && s'[k].closenessCoefficient == s'[l].closenessCoefficient
      ensures p'[k] < p'[l]
    {
      if l == j - 1 {
        assert p'[l] == i && p'[k] == p[k] && p[k] <= i;
        assert p[k] != p[j];
      } else if k == j - 1 {
        assert false;
      }
    }
  }

  /** Moves the entry at `i` left past every strictly smaller coefficient. */
  method SiftIntoPlace(a: array<TopsisScore>, i: nat, ghost perm: seq<nat>, ghost orig: seq<TopsisScore>)
    returns (ghost perm': seq<nat>)
    requires i < a.Length && SortInv(a[..], perm, orig, i)
    modifies a
    ensures SortInv(a[..], perm', orig, i + 1)
  {
    SiftStart(a[..], perm, orig, i);
    perm' := perm;
    var j: nat := i;
    while j > 0 && a[j - 1].closenessCoefficient < a[j].closenessCoefficient
      invariant SiftInv(a[..], perm', orig, i, j)
      decreases j
    {
      ghost var s := a[..];
      SiftStep(s, perm', orig, i, j);
      a[j - 1], a[j] := a[j], a[j - 1];
      assert a[..] == SwapAt(s, j);
      perm' := SwapAt(perm', j);
      j := j - 1;
    }
    SiftEnd(a[..], perm', orig, i, j);
  }

  /** Step 7b: rank k + 1 for the entry at position k. */
  method AssignRanks(a: array<TopsisScore>)
    modifies a
    ensures forall k :: 0 <= k < a.Length ==> a[k] == old(a[k]).(rank := k + 1)
  {
    for k := 0 to a.Length
      invariant forall k' :: 0 <= k' < k ==> a[k'] == old(a[k']).(rank := k' + 1)
      invariant forall k' :: k <= k' < a.Length ==> a[k'] == old(a[k'])
    {
      a[k] := a[k].(rank := k + 1);
    }
  }

  /** `topsis_ranking`: every input scored once, sorted by descending
      coefficient with ties in input order, and ranked 1..n. `perm[k]` is the
      input that ends up at position `k`. */
  method TopsisRanking(ms: seq<TimerMeasurement>) returns (scores: seq<TopsisScore>, ghost perm: seq<nat>)
    ensures |scores| == |ms| && IsPermutation(perm, |ms|)
    ensures forall k :: 0 <= k < |ms| ==> scores[k] == ScoreOf(ms, perm[k]).(rank := k + 1)
    ensures SortedByCloseness(scores) && StableFor(scores, perm)
  {
    if |ms| == 0 {
      return [], [];
    }
    var a := UnrankedScores(ms);
    ghost var unranked := a[..];
    perm := SortByCloseness(a);
    ghost var sorted := a[..];
    AssignRanks(a);
    scores := a[..];
    RanksKeepOrder(sorted, scores, perm);
    SortedScoresOf(ms, unranked, sorted, scores, perm);
  }

  /** Setting the ranks leaves the order by coefficient, and its ties, as they were. */
  lemma {:induction false} RanksKeepOrder(sorted: seq<TopsisScore>, scores: seq<TopsisScore>, perm: seq<nat>)
    requires |scores| == |sorted| == |perm|
    requires forall k :: 0 <= k < |scores| ==> scores[k] == sorted[k].(rank := k + 1)
    requires SortedByCloseness(sorted) && StableFor(sorted, perm)
    ensures SortedByCloseness(scores) && StableFor(scores, perm)
  {
    assert forall k :: 0 <= k < |scores| ==> scores[k].closenessCoefficient == sorted[k].closenessCoefficient;
  }

  /** Entry `k` of the ranking is the score of input `perm[k]` with rank `k + 1`. */
  lemma {:induction false} SortedScoresOf(ms: seq<TimerMeasurement>, unranked: seq<TopsisScore>, sorted: seq<TopsisScore>,
                                          scores: seq<TopsisScore>, perm: seq<nat>)
    requires |unranked| == |sorted| == |scores| == |ms| && IsPermutation(perm, |ms|)
    requires forall i :: 0 <= i < |ms| ==> unranked[i] == ScoreOf(ms, i)
    requires forall k :: 0 <= k < |ms| ==> sorted[k] == unranked[perm[k]]
    requires forall k :: 0 <= k < |ms| ==> scores[k] == sorted[k].(rank := k + 1)
    ensures forall k :: 0 <= k < |ms| ==> scores[k] == ScoreOf(ms, perm[k]).(rank := k + 1)
  {
  }

  /** Steps 1 to 6: the unranked score of every input, in input order. */
  method UnrankedScores(ms: seq<TimerMeasurement>) returns (a: array<TopsisScore>)
    requires |ms| > 0
    ensures fresh(a) && a.Length == |ms|
    ensures forall i :: 0 <= i < |ms| ==> a[i] == ScoreOf(ms, i)
  {
    var matrix := BuildMatrix(ms);
    var normalized := Normalize(ms, matrix);
    var weighted := ApplyWeights(ms, normalized);
    var ideal, antiIdeal := IdealPoints(ms, weighted);
    var dIdeal, dAnti := Distances(ms, weighted, ideal, antiIdeal);
    a := BuildScores(ms, dIdeal, dAnti);
  }

  /** The ranking holds each input exactly once: every input appears at some
      position, with its resolution and criteria. */
  lemma {:induction false} RankingCoversInputs(ms: seq<TimerMeasurement>, scores: seq<TopsisScore>, perm: seq<nat>, i: nat)
    requires |scores| == |ms| && IsPermutation(perm, |ms|)
    requires forall k :: 0 <= k < |ms| ==> scores[k] == ScoreOf(ms, perm[k]).(rank := k + 1)
    requires i < |ms|
    ensures exists k :: (0 <= k < |ms| && scores[k].resolutionMs == ms[i].resolutionMs &&
      scores[k].criteriaScores == CriteriaOf(ms[i]) && scores[k].closenessCoefficient == Closeness(ms, i))
  {
    PermutationIsOnto(perm, |ms|, i);
    var k :| 0 <= k < |ms| && perm[k] == i;
    assert scores[k] == ScoreOf(ms, i).(rank := k + 1);
  }

  /** Every coefficient in the ranking lies in [0, 1], and the first entry's
      coefficient is the largest of all inputs. */
  lemma {:induction false} RankingBounds(ms: seq<TimerMeasurement>, scores: seq<TopsisScore>, perm: seq<nat>)
    requires |scores| == |ms| && IsPermutation(perm, |ms|) && SortedByCloseness(scores)
    requires forall k :: 0 <= k < |ms| ==> scores[k] == ScoreOf(ms, perm[k]).(rank := k + 1)
    ensures forall k :: 0 <= k < |scores| ==> 0.0 <= scores[k].closenessCoefficient <= 1.0
    ensures forall i :: 0 <= i < |ms| ==> scores[0].closenessCoefficient >= Closeness(ms, i)
  {
    forall k | 0 <= k < |scores| ensures 0.0 <= scores[k].closenessCoefficient <= 1.0 {
      ClosenessInUnitInterval(ms, perm[k]);
    }
    forall i | 0 <= i < |ms| ensures scores[0].closenessCoefficient >= Closeness(ms, i) {
      RankingCoversInputs(ms, scores, perm, i);
    }
  }

  /** With identical rows the ranking is the input order, every coefficient
      0.5. */
  lemma {:induction false} IdenticalRowsKeepInputOrder(ms: seq<TimerMeasurement>, scores: seq<TopsisScore>, perm: seq<nat>)
    requires AllRowsIdentical(ms)
    requires |scores| == |ms| && IsPermutation(perm, |ms|) && StableFor(scores, perm)
    requires forall k :: 0 <= k < |ms| ==> scores[k] == ScoreOf(ms, perm[k]).(rank := k + 1)
    ensures forall k :: 0 <= k < |ms| ==> scores[k] == ScoreOf(ms, k).(rank := k + 1)
    ensures forall k :: 0 <= k < |ms| ==> scores[k].closenessCoefficient == 0.5
  {
    forall k | 0 <= k < |ms| ensures scores[k].closenessCoefficient == 0.5 {
      IdenticalRowsAreNeutral(ms, perm[k]);
    }
    IncreasingPermutationIsIdentity(perm, |ms|);
  }
}
