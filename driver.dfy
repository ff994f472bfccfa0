/** The pure decisions of the benchmark driver in src/core/mod.rs: the
    initial design and exploration schedule of `optimize_timer_resolution`,
    the conversion of a period to the setter's argument, the acceptance rule
    for one run of `measure_resolution_robust`, and the lookup that
    `save_detailed_results` performs for every ranking entry. */
module Driver {
  import opened Wrappers
  import opened RealMath
  import opened FloatText
  import opened Measurement
  import Topsis
  import Aggregation
  import Statistics

  // ---------------------------------------------------------------------------
  // The initial design and the exploration schedule

  /** `latin_hypercube_sampling((low, high), n)`: the midpoint of each of `n`
      equal segments of the range. */
  function LatinHypercube(low: real, high: real, n: nat): (pts: seq<real>)
    ensures |pts| == n
  {
    if n == 0 then []
    else
      var segment := (high - low) / n as real;
      seq(n, i requires 0 <= i < n => low + (i as real + 0.5) * segment)
  }

  /** The bounds of segment `i` of `n` over the range. */
  function SegmentStart(low: real, high: real, n: nat, i: nat): real
    requires n > 0
  {
    low + i as real * ((high - low) / n as real)
  }

  /** Point `i` is the midpoint of segment `i`, strictly inside it. */
  lemma {:induction false} LatinHypercubeSegments(low: real, high: real, n: nat, i: nat)
    requires low < high && i < n
    ensures var pts := LatinHypercube(low, high, n);
      SegmentStart(low, high, n, i) < pts[i] < SegmentStart(low, high, n, i + 1)
      && pts[i] == (SegmentStart(low, high, n, i) + SegmentStart(low, high, n, i + 1)) / 2.0
  {
    var segment := (high - low) / n as real;
    assert segment > 0.0;
    var pts := LatinHypercube(low, high, n);
    assert pts[i] == low + (i as real + 0.5) * segment;
    assert SegmentStart(low, high, n, i + 1) == SegmentStart(low, high, n, i) + segment;
  }

  /** The last segment ends at `high`. */
  lemma {:induction false} SegmentsCoverRange(low: real, high: real, n: nat)
    requires n > 0
    ensures SegmentStart(low, high, n, 0) == low && SegmentStart(low, high, n, n) == high
  {
    var segment := (high - low) / n as real;
    assert n as real * segment == high - low;
  }

  /** Segment starts grow with the index. */
  lemma {:induction false} SegmentStartMonotone(low: real, high: real, n: nat, i: nat, j: nat)
    requires low < high && n > 0 && i <= j
    ensures SegmentStart(low, high, n, i) <= SegmentStart(low, high, n, j)
  {
    var segment := (high - low) / n as real;
    assert segment > 0.0;
    assert SegmentStart(low, high, n, j) - SegmentStart(low, high, n, i) == (j - i) as real * segment;
  }

  /** For a non-empty range the points are strictly increasing and strictly
      inside `(low, high)`. */
  lemma {:induction false} LatinHypercubeInside(low: real, high: real, n: nat)
    requires low < high
    ensures var pts := LatinHypercube(low, high, n);
      (forall i :: 0 <= i < n ==> low < pts[i] < high)
      && (forall i, j :: 0 <= i < j < n ==> pts[i] < pts[j])
  {
    var pts := LatinHypercube(low, high, n);
    if n > 0 {
      SegmentsCoverRange(low, high, n);
      forall i | 0 <= i < n ensures low < pts[i] < high {
        LatinHypercubeSegments(low, high, n, i);
        SegmentStartMonotone(low, high, n, 0, i);
        SegmentStartMonotone(low, high, n, i + 1, n);
      }
      forall i, j | 0 <= i < j < n ensures pts[i] < pts[j] {
        LatinHypercubeSegments(low, high, n, i);
        LatinHypercubeSegments(low, high, n, j);
        SegmentStartMonotone(low, high, n, i + 1, j);
      }
    }
  }

  /** The driver's constants: five initial points, fifteen measurements. */
  const InitialPoints: nat := 5
  const MaxIterations: nat := 15

  /** The exploration weight of iteration `iter` (counted from 0 over all
      measurements): 2.5 at the first iteration after the initial points,
      falling linearly with slope `2 / (max - initial)` and staying above 0.5,
      which it would reach only at `iter == maxIterations`. */
  function Kappa(iter: nat, initial: nat, maxIterations: nat): (kappa: real)
    requires initial <= iter < maxIterations
    ensures 0.5 < kappa <= 2.5
    ensures iter == initial ==> kappa == 2.5
  {
    var d, span := (iter - initial) as real, (maxIterations - initial) as real;
    assert 0.0 <= d < span;
    assert 2.0 * d / span < 2.0 by {
      assert 2.0 * d < 2.0 * span;
    }
    assert 2.0 * d / span >= 0.0;
    2.5 - 2.0 * (iter - initial) as real / (maxIterations - initial) as real
  }

  /** Each iteration lowers the weight by the same step. */
  lemma {:induction false} KappaStep(iter: nat, initial: nat, maxIterations: nat)
    requires initial <= iter && iter + 1 < maxIterations
    ensures Kappa(iter + 1, initial, maxIterations)
              == Kappa(iter, initial, maxIterations) - 2.0 / (maxIterations - initial) as real
  {
    var d, span := (iter - initial) as real, (maxIterations - initial) as real;
    assert (iter + 1 - initial) as real == d + 1.0;
    assert 2.0 * (d + 1.0) / span == 2.0 * d / span + 2.0 / span;
  }

  /** The weights strictly decrease over the iterations. */
  lemma {:induction false} KappaDecreasing(i: nat, j: nat, initial: nat, maxIterations: nat)
    requires initial <= i < j < maxIterations
    ensures Kappa(j, initial, maxIterations) < Kappa(i, initial, maxIterations)
  {
    var span := (maxIterations - initial) as real;
    var di, dj := (i - initial) as real, (j - initial) as real;
    assert 2.0 * dj / span - 2.0 * di / span == 2.0 * (dj - di) / span;
    assert 2.0 * (dj - di) / span > 0.0;
  }

  /** The exploration weights of the optimisation phase, one per iteration
      after the initial points. */
  function KappaSchedule(initial: nat, maxIterations: nat): (ks: seq<real>)
    requires initial <= maxIterations
    ensures |ks| == maxIterations - initial
  {
    seq(maxIterations - initial, k requires 0 <= k < maxIterations - initial =>
      Kappa(initial + k, initial, maxIterations))
  }

  /** With the driver's constants: 5 initial points and 10 optimisation
      iterations make 15 measurements, and the weights run 2.5, 2.3, …, 0.7
      in steps of 0.2. */
  lemma {:induction false} DefaultSchedule(low: real, high: real)
    ensures |LatinHypercube(low, high, InitialPoints)| + |KappaSchedule(InitialPoints, MaxIterations)| == 15
    ensures forall k :: 0 <= k < |KappaSchedule(InitialPoints, MaxIterations)| ==>
              KappaSchedule(InitialPoints, MaxIterations)[k] == 2.5 - 0.2 * k as real
    ensures KappaSchedule(InitialPoints, MaxIterations)[9] == 0.7
  {
    var ks := KappaSchedule(InitialPoints, MaxIterations);
    forall k | 0 <= k < |ks| ensures ks[k] == 2.5 - 0.2 * k as real {
      assert ks[k] == Kappa(5 + k, 5, 15);
      assert (5 + k - 5) as real == k as real;
    }
  }

  // ---------------------------------------------------------------------------
  // The setter's argument

  /** `(resolution_ms * 10_000.0) as i32`: truncated toward zero and clamped
      to the `i32` range, unlike the aggregation key, which is rounded. */
  function SetterUnits(ms: real): (units: int)
    ensures I32Min <= units <= I32Max
    ensures 0.0 <= ms * 10000.0 < I32Max as real ==>
              units as real <= ms * 10000.0 < units as real + 1.0
  {
    Saturate(TruncateTowardZero(ms * 10000.0), I32Min, I32Max)
  }

  /** For a period in range the setter's argument is the aggregation key or
      one less: it is one less exactly when the fractional part of the period
      in 100 ns units is at least one half. */
  lemma {:induction false} SetterUnitsVersusKey(ms: real)
    requires 0.0 <= ms * 10000.0 < I32Max as real
    ensures Aggregation.Key(ms) - 1 <= SetterUnits(ms) <= Aggregation.Key(ms)
    ensures (SetterUnits(ms) == Aggregation.Key(ms))
              <==> (ms * 10000.0 - (ms * 10000.0).Floor as real < 0.5)
  {
    var x := ms * 10000.0;
    assert TruncateTowardZero(x) == x.Floor;
    assert RoundHalfAway(x) == (x + 0.5).Floor;
    assert (x + 0.5).Floor == x.Floor || (x + 0.5).Floor == x.Floor + 1;
  }

  // ---------------------------------------------------------------------------
  // The resolution check of one run

  /** What the check of one run concludes. */
  datatype Verdict =
    | Verified     // within tolerance: the delta is kept
    | Mismatch     // off by more than the tolerance but not critically: kept, with a warning
    | Unreadable   // no resolution could be read: kept, with a warning
    | Critical     // off by more than 0.1 ms: the measurement is abandoned

  const Tolerance: real := 0.05
  const CriticalMismatch: real := 0.1

  /** The conditionals after the report is parsed. A NaN reading compares
      false with both thresholds and so falls into the verified branch; an
      infinite one exceeds both. */
  function Classify(requested: real, reported: Option<Float>): (v: Verdict)
    ensures v == Unreadable <==> reported.None?
    ensures reported == Some(NotANumber) ==> v == Verified
    ensures v == Critical <==>
              reported.Some? && (reported.value.Infinity?
                                 || (reported.value.Finite? && Abs(reported.value.value - requested) > 0.1))
  {
    match reported
    case None => Unreadable
    case Some(NotANumber) => Verified
    case Some(Infinity(_)) => Critical
    case Some(Finite(r)) =>
      var diff := Abs(r - requested);
      if diff > Tolerance then (if diff > CriticalMismatch then Critical else Mismatch)
      else Verified
  }

  /** For a finite reading the verdict is fixed by the distance: within 0.05
      verified, up to 0.1 a mismatch, beyond that critical. */
  lemma {:induction false} ClassifyFinite(requested: real, r: real)
    ensures var d := Abs(r - requested);
      (Classify(requested, Some(Finite(r))) == Verified <==> d <= 0.05)
      && (Classify(requested, Some(Finite(r))) == Mismatch <==> 0.05 < d <= 0.1)
      && (Classify(requested, Some(Finite(r))) == Critical <==> d > 0.1)
  {
  }

  /** One run after its report was parsed: the delta is appended unless the
      check is critical, which ends the measurement with an error. */
  function RecordRun(deltas: seq<Float>, delta: Float, requested: real, reported: Option<Float>): Result<seq<Float>> {
    if Classify(requested, reported) == Critical then Err(ResolutionMismatch)
    else Ok(deltas + [delta])
  }

  /** The deltas of the runs in order, or the mismatch error of the first
      critical run. */
  function RunDeltas(requested: real, runs: seq<(Float, Option<Float>)>): (r: Result<seq<Float>>)
    ensures r.Ok? ==> |r.value| == |runs|
    ensures r.Err? ==> r.kind == ResolutionMismatch
    decreases |runs|
  {
    if |runs| == 0 then Ok([])
    else
      match RunDeltas(requested, runs[..|runs| - 1])
      case Err(e) => Err(e)
      case Ok(deltas) => RecordRun(deltas, runs[|runs| - 1].0, requested, runs[|runs| - 1].1)
  }

  lemma {:induction false} RunDeltasStep(requested: real, runs: seq<(Float, Option<Float>)>, i: nat)
    requires i < |runs|
    ensures RunDeltas(requested, runs[..i + 1]) ==
              match RunDeltas(requested, runs[..i])
              case Err(e) => Err(e)
              case Ok(deltas) => RecordRun(deltas, runs[i].0, requested, runs[i].1)
  {
    assert runs[..i + 1][..i] == runs[..i];
  }

  /** The runs are accepted exactly when none is critical, and then every
      run's delta is kept, in order, including those with a warning. */
  lemma {:induction false} RunDeltasAccepted(requested: real, runs: seq<(Float, Option<Float>)>)
    ensures RunDeltas(requested, runs).Ok? <==>
              forall i :: 0 <= i < |runs| ==> Classify(requested, runs[i].1) != Critical
    ensures RunDeltas(requested, runs).Ok? ==>
              |RunDeltas(requested, runs).value| == |runs|
              && forall i :: 0 <= i < |runs| ==> RunDeltas(requested, runs).value[i] == runs[i].0
    ensures RunDeltas(requested, runs).Err? ==> RunDeltas(requested, runs).kind == ResolutionMismatch
    decreases |runs|
  {
    if |runs| > 0 {
      var n := |runs| - 1;
      var front := runs[..n];
      RunDeltasAccepted(requested, front);
      forall i | 0 <= i < n ensures front[i] == runs[i] {
      }
    }
  }

  /** The run loop of `measure_resolution_robust` with the processes and the
      parsing abstracted into the list of (delta, reported resolution) pairs:
      leave with the mismatch error at the first critical run. */
  method CollectDeltas(requested: real, runs: seq<(Float, Option<Float>)>) returns (r: Result<seq<Float>>)
    ensures r == RunDeltas(requested, runs)
  {
    var deltas: seq<Float> := [];
    var i := 0;
    while i < |runs|
      invariant 0 <= i <= |runs|
      invariant RunDeltas(requested, runs[..i]) == Ok(deltas)
    {
      RunDeltasStep(requested, runs, i);
      var (delta, reported) := runs[i];
      if reported.Some? {
        match reported.value
        case NotANumber =>
        case Infinity(_) =>
          RunDeltasAccepted(requested, runs);
          return Err(ResolutionMismatch);
        case Finite(x) =>
          var diff := Abs(x - requested);
          if diff > Tolerance && diff > CriticalMismatch {
            RunDeltasAccepted(requested, runs);
            return Err(ResolutionMismatch);
          }
      }
      deltas := deltas + [delta];
      i := i + 1;
    }
    assert runs[..i] == runs;
    r := Ok(deltas);
  }

  // ---------------------------------------------------------------------------
  // The lookup of save_detailed_results

  /** The tolerance `save_detailed_results` compares with: 0.0001 ms, the
      width of one aggregation bucket. */
  const SourceTolerance: real := 0.0001

  /** Half a bucket width: the tolerance that keeps adjacent buckets apart
      once their periods carry `f64` rounding (see `AdjacentBucketsCollide`). */
  const BucketTolerance: real := 0.00005

  /** How far a stored period may lie from its grid point `key / 10000` for
      the half-bucket lookup to stay exact. The `f64` quotient
      `key as f64 / 10000.0` is off by at most 2^-53 of its magnitude, far less
      than this for any timer period. */
  const GridError: real := 0.00001

  /** `find(|m| (m.resolution_ms - r).abs() < tol)`: the first measurement
      within `tol` of `r`; the source uses `SourceTolerance`. */
  function FindMeasurement(ms: seq<TimerMeasurement>, r: real, tol: real): (found: Option<nat>)
    ensures found.Some? ==> found.value < |ms|
    decreases |ms|
  {
    if |ms| == 0 then None
    else if Abs(ms[0].resolutionMs - r) < tol then Some(0)
    else
      match FindMeasurement(ms[1..], r, tol)
      case None => None
      case Some(i) => Some(i + 1)
  }

  predicate Near(m: TimerMeasurement, r: real, tol: real) {
    Abs(m.resolutionMs - r) < tol
  }

  /** `find` returns the first match, and nothing exactly when no
      measurement matches. */
  lemma {:induction false} FindIsFirst(ms: seq<TimerMeasurement>, r: real, tol: real)
    ensures FindMeasurement(ms, r, tol).None? <==> forall i :: 0 <= i < |ms| ==> !Near(ms[i], r, tol)
    ensures FindMeasurement(ms, r, tol).Some? ==>
              Near(ms[FindMeasurement(ms, r, tol).value], r, tol)
              && forall j :: 0 <= j < FindMeasurement(ms, r, tol).value ==> !Near(ms[j], r, tol)
    decreases |ms|
  {
    if |ms| > 0 {
      FindIsFirst(ms[1..], r, tol);
      forall i | 1 <= i < |ms| ensures ms[i] == ms[1..][i - 1] {
      }
    }
  }

  /** A row of the detailed results: the aggregated measurement found for a
      ranking entry, and the entry. */
  datatype DetailRow = DetailRow(measurement: TimerMeasurement, score: Topsis.TopsisScore)

  /** The rows of the detailed results, in ranking order, or `NotFound` for
      the first entry without a measurement within `tol`. */
  function DetailRows(rankings: seq<Topsis.TopsisScore>, ms: seq<TimerMeasurement>, tol: real): (r: Result<seq<DetailRow>>)
    ensures r.Ok? ==> |r.value| == |rankings|
    ensures r.Err? ==> r.kind == NotFound
    decreases |rankings|
  {
    if |rankings| == 0 then Ok([])
    else
      match DetailRows(rankings[..|rankings| - 1], ms, tol)
      case Err(e) => Err(e)
      case Ok(rows) =>
        var t := rankings[|rankings| - 1];
        match FindMeasurement(ms, t.resolutionMs, tol)
        case None => Err(NotFound)
        case Some(i) => Ok(rows + [DetailRow(ms[i], t)])
  }

  lemma {:induction false} DetailRowsStep(rankings: seq<Topsis.TopsisScore>, ms: seq<TimerMeasurement>, tol: real, k: nat)
    requires k < |rankings|
    ensures DetailRows(rankings[..k + 1], ms, tol) ==
              match DetailRows(rankings[..k], ms, tol)
              case Err(e) => Err(e)
              case Ok(rows) =>
                match FindMeasurement(ms, rankings[k].resolutionMs, tol)
                case None => Err(NotFound)
                case Some(i) => Ok(rows + [DetailRow(ms[i], rankings[k])])
  {
    assert rankings[..k + 1][..k] == rankings[..k];
  }

  /** The rows exist exactly when every ranking entry finds a measurement;
      then there is one row per entry, in ranking order, each holding the
      entry and the first measurement found for it. */
  lemma {:induction false} DetailRowsFound(rankings: seq<Topsis.TopsisScore>, ms: seq<TimerMeasurement>, tol: real)
    ensures DetailRows(rankings, ms, tol).Ok? <==>
              forall k :: 0 <= k < |rankings| ==> FindMeasurement(ms, rankings[k].resolutionMs, tol).Some?
    ensures DetailRows(rankings, ms, tol).Ok? ==>
              forall k :: 0 <= k < |rankings| ==>
                DetailRows(rankings, ms, tol).value[k]
                  == DetailRow(ms[FindMeasurement(ms, rankings[k].resolutionMs, tol).value], rankings[k])
    decreases |rankings|
  {
    if |rankings| > 0 {
      var n := |rankings| - 1;
      var front := rankings[..n];
      DetailRowsFound(front, ms, tol);
      forall k | 0 <= k < n ensures front[k] == rankings[k] {
      }
    }
  }

  /** The loop of `save_detailed_results` without the file writing: one
      lookup per ranking entry, leaving with `NotFound` at the first miss. */
  method SaveDetailedRows(rankings: seq<Topsis.TopsisScore>, ms: seq<TimerMeasurement>, tol: real)
    returns (r: Result<seq<DetailRow>>)
    ensures r == DetailRows(rankings, ms, tol)
  {
    var rows: seq<DetailRow> := [];
    var k := 0;
    while k < |rankings|
      invariant 0 <= k <= |rankings|
      invariant DetailRows(rankings[..k], ms, tol) == Ok(rows)
    {
      DetailRowsStep(rankings, ms, tol, k);
      var found := FindMeasurement(ms, rankings[k].resolutionMs, tol);
      if found.None? {
        DetailRowsFound(rankings, ms, tol);
        return Err(NotFound);
      }
      rows := rows + [DetailRow(ms[found.value], rankings[k])];
      k := k + 1;
    }
    assert rankings[..k] == rankings;
    r := Ok(rows);
  }

  /** The period of bucket 5001 as the source computes it,
      `5001 as f64 / 10000.0`: the double nearest to 0.5001. */
  const F64Period5001: real := 2252250173647985.0 / 4503599627370496.0

  /** The lookup as written can return the neighbouring bucket. Doubles in
      [0.5, 1) are the multiples of 2^-53, and `F64Period5001` is the one
      within half a step of 0.5001, so it is the `f64` period of bucket 5001;
      bucket 5000 has the exact period 0.5. Their difference is computed
      exactly in `f64` (the operands are within a factor of two) and falls
      short of 0.0001, so with the 0.5 ms bucket first, the ranking entry of
      0.5001 ms gets the 0.5 ms row under `SourceTolerance`. (The `f64`
      literal `0.0001` lies slightly above 0.0001, which only widens the
      match.) Under `BucketTolerance` it gets its own row. */
  lemma {:induction false} AdjacentBucketsCollide(s0: Statistics.RobustStatistics, s1: Statistics.RobustStatistics,
                                                  raw0: seq<real>, raw1: seq<real>, t: Topsis.TopsisScore)
    requires t.resolutionMs == F64Period5001
    ensures F64Period5001 == 4504500347295970.0 / 9007199254740992.0
    ensures Abs(F64Period5001 - 0.5001) <= 1.0 / 18014398509481984.0
    ensures F64Period5001 - 0.5 == 450359962737.0 / 4503599627370496.0
    ensures 0.0 < F64Period5001 - 0.5 < SourceTolerance
    ensures var ms := [TimerMeasurement(0.5, s0, raw0), TimerMeasurement(F64Period5001, s1, raw1)];
      DetailRows([t], ms, SourceTolerance) == Ok([DetailRow(ms[0], t)])
      && DetailRows([t], ms, BucketTolerance) == Ok([DetailRow(ms[1], t)])
  {
    var ms := [TimerMeasurement(0.5, s0, raw0), TimerMeasurement(F64Period5001, s1, raw1)];
    assert [t][..0] == [];
    assert ms[1..] == [ms[1]];
    assert FindMeasurement(ms, t.resolutionMs, SourceTolerance) == Some(0);
    assert FindMeasurement([ms[1]], t.resolutionMs, BucketTolerance) == Some(0);
    assert FindMeasurement(ms, t.resolutionMs, BucketTolerance) == Some(1);
    DetailRowsFound([t], ms, SourceTolerance);
    DetailRowsFound([t], ms, BucketTolerance);
    var asWritten, corrected := DetailRows([t], ms, SourceTolerance), DetailRows([t], ms, BucketTolerance);
    assert asWritten.value[0] == DetailRow(ms[0], t) && corrected.value[0] == DetailRow(ms[1], t);
    assert asWritten.value == [DetailRow(ms[0], t)] && corrected.value == [DetailRow(ms[1], t)];
  }

  /** Periods within `GridError` of distinct grid points `key / 10000`, as the
      aggregation produces them in exact arithmetic and, up to rounding, in
      `f64`. */
  predicate NearGrid(ms: seq<TimerMeasurement>, keys: seq<int>) {
    && |keys| == |ms| && Aggregation.Distinct(keys)
    && forall j :: 0 <= j < |ms| ==> Abs(ms[j].resolutionMs - keys[j] as real / 10000.0) <= GridError
  }

  /** With half a bucket as the tolerance, looking up a measurement's own
      period finds that measurement: every other one is at least 0.00008 ms
      away, so the comparison is decided with a margin of 0.00003 ms that no
      rounding of the subtraction can cross. */
  lemma {:induction false} NearGridPeriodFound(ms: seq<TimerMeasurement>, keys: seq<int>, i: nat)
    requires NearGrid(ms, keys) && i < |ms|
    ensures forall j :: 0 <= j < |ms| && j != i ==> Abs(ms[j].resolutionMs - ms[i].resolutionMs) >= 0.00008
    ensures FindMeasurement(ms, ms[i].resolutionMs, BucketTolerance) == Some(i)
  {
    var r := ms[i].resolutionMs;
    FindIsFirst(ms, r, BucketTolerance);
    forall j | 0 <= j < |ms| && j != i ensures Abs(ms[j].resolutionMs - r) >= 0.00008 {
      Aggregation.DistinctKeysApart(keys[j], keys[i]);
    }
    assert Near(ms[i], r, BucketTolerance);
  }

  /** For a ranking of measurements with near-grid periods (entry `k`
      carrying the period of measurement `perm[k]`, as `topsis_ranking`
      guarantees), every ranking entry finds its own measurement, so the
      detailed results never fail with `NotFound`. */
  lemma {:induction false} RankedRowsFound(ms: seq<TimerMeasurement>, keys: seq<int>,
                                           rankings: seq<Topsis.TopsisScore>, perm: seq<nat>)
    requires NearGrid(ms, keys)
    requires |perm| == |rankings| && forall k :: 0 <= k < |perm| ==> perm[k] < |ms|
    requires forall k :: 0 <= k < |rankings| ==> rankings[k].resolutionMs == ms[perm[k]].resolutionMs
    ensures DetailRows(rankings, ms, BucketTolerance).Ok?
    ensures forall k :: 0 <= k < |rankings| ==>
              DetailRows(rankings, ms, BucketTolerance).value[k] == DetailRow(ms[perm[k]], rankings[k])
  {
    forall k | 0 <= k < |rankings| ensures FindMeasurement(ms, rankings[k].resolutionMs, BucketTolerance) == Some(perm[k]) {
      NearGridPeriodFound(ms, keys, perm[k]);
    }
    DetailRowsFound(rankings, ms, BucketTolerance);
  }

  /** The aggregated measurements lie exactly on distinct grid points, so a
      ranking of them finds every row, each its own measurement. */
  lemma {:induction false} AggregatedRowsFound(input: seq<TimerMeasurement>,
                                               rankings: seq<Topsis.TopsisScore>, perm: seq<nat>)
    requires Aggregation.PoolsNonEmpty(input)
    requires |perm| == |rankings| && forall k :: 0 <= k < |perm| ==> perm[k] < |Aggregation.Aggregated(input)|
    requires forall k :: 0 <= k < |rankings| ==>
               rankings[k].resolutionMs == Aggregation.Aggregated(input)[perm[k]].resolutionMs
    ensures DetailRows(rankings, Aggregation.Aggregated(input), BucketTolerance).Ok?
    ensures forall k :: 0 <= k < |rankings| ==>
              DetailRows(rankings, Aggregation.Aggregated(input), BucketTolerance).value[k]
                == DetailRow(Aggregation.Aggregated(input)[perm[k]], rankings[k])
  {
    var ms := Aggregation.Aggregated(input);
    var keys := Aggregation.Keys(input);
    forall j | 0 <= j < |ms| ensures ms[j].resolutionMs == keys[j] as real / 10000.0 {
      Aggregation.MeasuredAt(Aggregation.Groups(input, keys), Statistics.FromSamples, j);
    }
    RankedRowsFound(ms, keys, rankings, perm);
  }
}
