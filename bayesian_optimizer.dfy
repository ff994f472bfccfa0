/** The kernel-weighted surrogate and UCB grid search of
    src/optimization/bayesian_optimizer.rs. The specification functions come
    first; the class `BayesianOptimizer` computes them with the source's loops. */
module BayesianOptimizer {
  import opened RealMath
  import opened Statistics
  import opened Measurement

  /** Below this total kernel weight the surrogate falls back to a mean of 1.0. */
  const MinWeightTotal: real := 0.0000000001

  // ---------------------------------------------------------------------------
  // The surrogate as functions of the observations
  // ---------------------------------------------------------------------------

  /** The Gaussian kernel weight exp(-(x - c)^2 / (2 h^2)) of an observation at `c`. */
  function KernelWeight(x: real, c: real, h: real): (k: real)
    requires h != 0.0
    ensures k > 0.0
  {
    Exp(-((x - c) * (x - c)) / (2.0 * (h * h)))
  }

  /** The performance score of one observation. */
  function ObservedScore(m: TimerMeasurement, w: PerformanceWeights): real
  {
    PerformanceScore(m.statistics, w)
  }

  /** The kernel weight of every observation at `x`. */
  function KernelWeights(obs: seq<TimerMeasurement>, x: real, h: real): (ws: seq<real>)
    requires h != 0.0
    ensures |ws| == |obs|
    ensures forall i :: 0 <= i < |obs| ==> ws[i] == KernelWeight(x, obs[i].resolutionMs, h)
  {
    seq(|obs|, i requires 0 <= i < |obs| => KernelWeight(x, obs[i].resolutionMs, h))
  }

  /** The performance score of every observation. */
  function Scores(obs: seq<TimerMeasurement>, w: PerformanceWeights): (ss: seq<real>)
    ensures |ss| == |obs|
    ensures forall i :: 0 <= i < |obs| ==> ss[i] == ObservedScore(obs[i], w)
  {
    seq(|obs|, i requires 0 <= i < |obs| => ObservedScore(obs[i], w))
  }

  /** The sum of the first `k` weights. */
  function WeightTotal(ws: seq<real>, k: nat): real
    requires k <= |ws|
  {
    if k == 0 then 0.0 else WeightTotal(ws, k - 1) + ws[k - 1]
  }

  /** The sum of the first `k` weight-times-score products. */
  function WeightedSum(ws: seq<real>, ss: seq<real>, k: nat): real
    requires k <= |ws| && k <= |ss|
  {
    if k == 0 then 0.0 else WeightedSum(ws, ss, k - 1) + ws[k - 1] * ss[k - 1]
  }

  /** One more term of the weighted sum. */
  lemma {:induction false} WeightedSumStep(ws: seq<real>, ss: seq<real>, i: nat, weight: real, score: real)
    requires i < |ws| && i < |ss| && weight == ws[i] && score == ss[i]
    ensures WeightedSum(ws, ss, i + 1) == WeightedSum(ws, ss, i) + weight * score
  {
  }

  /** Positive weights have a positive total. */
  lemma {:induction false} WeightTotalPositive(ws: seq<real>, k: nat)
    requires k <= |ws| && forall i :: 0 <= i < |ws| ==> ws[i] > 0.0
    ensures WeightTotal(ws, k) >= 0.0 && (k > 0 ==> WeightTotal(ws, k) > 0.0)
  {
    if k > 0 {
      WeightTotalPositive(ws, k - 1);
    }
  }

  /** Entry `i` of the weight and score sequences. */
  lemma {:induction false} TermsAt(obs: seq<TimerMeasurement>, x: real, h: real, w: PerformanceWeights, i: nat)
    requires h != 0.0 && i < |obs|
    ensures KernelWeights(obs, x, h)[i] == KernelWeight(x, obs[i].resolutionMs, h)
    ensures Scores(obs, w)[i] == PerformanceScore(obs[i].statistics, w)
  {
  }

  /** The uncertainty 0.3 / (1 + 0.1 W) at total weight `W`. */
  function Sigma(weightTotal: real): real
    requires weightTotal >= 0.0
  {
    0.3 / (1.0 + weightTotal * 0.1)
  }

  /** `predict`: (mean, uncertainty) at `x`. */
  function Surrogate(obs: seq<TimerMeasurement>, x: real, h: real, w: PerformanceWeights): (real, real)
    requires h != 0.0
  {
    if |obs| == 0 then (1.0, 1.0)
    else
      var ws := KernelWeights(obs, x, h);
      var total := WeightTotal(ws, |obs|);
      WeightTotalPositive(ws, |obs|);
      var mu := if total > MinWeightTotal then WeightedSum(ws, Scores(obs, w), |obs|) / total else 1.0;
      (mu, Sigma(total))
  }

  /** `acquisition_ucb`: the optimistic cost mu - kappa sigma (lower is better). */
  function Ucb(obs: seq<TimerMeasurement>, x: real, kappa: real, h: real, w: PerformanceWeights): real
    requires h != 0.0
  {
    var (mu, sigma) := Surrogate(obs, x, h, w);
    mu - kappa * sigma
  }

  /** Grid point `i` of `n` between `low` and `high`. */
  function GridPoint(low: real, high: real, n: nat, i: nat): real
    requires n > 0
  {
    low + (i as real) * ((high - low) / (n as real))
  }

  /** The grid index `suggest_next` settles on after scanning the first `k`
      of `n` points: the earlier index wins unless a later one is strictly lower. */
  function BestIndex(obs: seq<TimerMeasurement>, low: real, high: real, n: nat, kappa: real,
                     h: real, w: PerformanceWeights, k: nat): (b: nat)
    requires h != 0.0 && 0 < k <= n
    ensures b < k
  {
    if k == 1 then 0
    else
      var b := BestIndex(obs, low, high, n, kappa, h, w, k - 1);
      if Ucb(obs, GridPoint(low, high, n, k - 1), kappa, h, w) < Ucb(obs, GridPoint(low, high, n, b), kappa, h, w)
      then k - 1 else b
  }

  /** `suggest_next`: `low` for an empty grid, else the first-index grid argmin. */
  function Suggestion(obs: seq<TimerMeasurement>, low: real, high: real, n: nat, kappa: real,
                      h: real, w: PerformanceWeights): real
    requires h != 0.0
  {
    if n == 0 then low else GridPoint(low, high, n, BestIndex(obs, low, high, n, kappa, h, w, n))
  }

  // ---------------------------------------------------------------------------
  // Properties of the surrogate and the search
  // ---------------------------------------------------------------------------

  /** The uncertainty is positive, at most 0.3, and shrinks as weight accrues. */
  lemma {:induction false} SigmaBounds(w1: real, w2: real)
    requires 0.0 <= w1 <= w2
    ensures 0.0 < Sigma(w2) <= Sigma(w1) <= 0.3
  {
    var d1, d2 := 1.0 + w1 * 0.1, 1.0 + w2 * 0.1;
    var s1 := Sigma(w1);
    assert 1.0 <= d1 <= d2 && s1 == 0.3 / d1;
    MulMonotone(0.3, 1.0, d1);
    DivBounds(0.3, d1, 0.0, 0.3);
    assert d1 * s1 == 0.3;
    MulMonotone(s1, d1, d2);
    DivBounds(0.3, d2, 0.0, s1);
    assert Sigma(w2) * d2 == 0.3;
  }

  /** With no observations the surrogate is (1.0, 1.0); otherwise its
      uncertainty lies in (0, 0.3]. */
  lemma {:induction false} SurrogateUncertainty(obs: seq<TimerMeasurement>, x: real, h: real, w: PerformanceWeights)
    requires h != 0.0
    ensures |obs| == 0 ==> Surrogate(obs, x, h, w) == (1.0, 1.0)
    ensures |obs| > 0 ==> 0.0 < Surrogate(obs, x, h, w).1 <= 0.3
  {
    if |obs| > 0 {
      var ws := KernelWeights(obs, x, h);
      WeightTotalPositive(ws, |obs|);
      SigmaBounds(0.0, WeightTotal(ws, |obs|));
    }
  }

  /** A weighted sum of scores between `lo` and `hi` lies between `lo` and
      `hi` times the total of the non-negative weights. */
  lemma {:induction false} WeightedSumBounds(ws: seq<real>, ss: seq<real>, k: nat, lo: real, hi: real)
    requires k <= |ws| && k <= |ss|
    requires forall i :: 0 <= i < k ==> ws[i] >= 0.0 && lo <= ss[i] <= hi
    ensures WeightTotal(ws, k) * lo <= WeightedSum(ws, ss, k) <= WeightTotal(ws, k) * hi
  {
    if k > 0 {
      WeightedSumBounds(ws, ss, k - 1, lo, hi);
      AccumulateBounds(WeightTotal(ws, k - 1), WeightedSum(ws, ss, k - 1), ws[k - 1], ss[k - 1], lo, hi);
    }
  }

  /** One accumulation step keeps the weighted sum between the bounds. */
  lemma {:induction false} AccumulateBounds(total: real, sum: real, weight: real, score: real, lo: real, hi: real)
    requires total * lo <= sum <= total * hi
    requires weight >= 0.0 && lo <= score <= hi
    ensures (total + weight) * lo <= sum + weight * score <= (total + weight) * hi
  {
    MulMonotone(weight, lo, score);
    MulMonotone(weight, score, hi);
    assert (total + weight) * lo == total * lo + weight * lo;
    assert (total + weight) * hi == total * hi + weight * hi;
  }

  /** Where the total weight exceeds the threshold, the mean is a weighted
      average of the scores, so it lies within any bounds of the scores;
      elsewhere it is the fallback 1.0. */
  lemma {:induction false} MeanWithinScores(obs: seq<TimerMeasurement>, x: real, h: real, w: PerformanceWeights,
                                           lo: real, hi: real)
    requires h != 0.0 && |obs| > 0
    requires forall i :: 0 <= i < |obs| ==> lo <= ObservedScore(obs[i], w) <= hi
    ensures var total := WeightTotal(KernelWeights(obs, x, h), |obs|);
      && (total > MinWeightTotal ==> lo <= Surrogate(obs, x, h, w).0 <= hi)
      && (total <= MinWeightTotal ==> Surrogate(obs, x, h, w).0 == 1.0)
  {
    var ws, ss := KernelWeights(obs, x, h), Scores(obs, w);
    var total := WeightTotal(ws, |obs|);
    forall i | 0 <= i < |obs| ensures ws[i] >= 0.0 && lo <= ss[i] <= hi {
      assert ss[i] == ObservedScore(obs[i], w);
    }
    WeightedMeanBounds(ws, ss, lo, hi);
  }

  /** A weighted mean with non-negative weights and a positive total lies
      within any bounds of the values. */
  lemma {:induction false} WeightedMeanBounds(ws: seq<real>, ss: seq<real>, lo: real, hi: real)
    requires |ws| == |ss|
    requires forall i :: 0 <= i < |ws| ==> ws[i] >= 0.0 && lo <= ss[i] <= hi
    ensures WeightTotal(ws, |ws|) > 0.0 ==> lo <= WeightedSum(ws, ss, |ws|) / WeightTotal(ws, |ws|) <= hi
  {
    WeightedSumBounds(ws, ss, |ws|, lo, hi);
    if WeightTotal(ws, |ws|) > 0.0 {
      DivBounds(WeightedSum(ws, ss, |ws|), WeightTotal(ws, |ws|), lo, hi);
    }
  }

  /** For a non-negative `kappa` the acquisition value never exceeds the mean. */
  lemma {:induction false} UcbIsOptimistic(obs: seq<TimerMeasurement>, x: real, kappa: real, h: real, w: PerformanceWeights)
    requires h != 0.0 && kappa >= 0.0
    ensures Ucb(obs, x, kappa, h, w) <= Surrogate(obs, x, h, w).0
  {
    SurrogateUncertainty(obs, x, h, w);
    MulMonotone(kappa, 0.0, Surrogate(obs, x, h, w).1);
  }

  /** The chosen index has the least acquisition value among the scanned points. */
  lemma {:induction false} BestIndexIsMinimal(obs: seq<TimerMeasurement>, low: real, high: real, n: nat, kappa: real,
                                             h: real, w: PerformanceWeights, k: nat, j: nat)
    requires h != 0.0 && 0 < k <= n && j < k
    ensures var b := BestIndex(obs, low, high, n, kappa, h, w, k);
      Ucb(obs, GridPoint(low, high, n, b), kappa, h, w) <= Ucb(obs, GridPoint(low, high, n, j), kappa, h, w)
  {
    if k > 1 && j < k - 1 {
      BestIndexIsMinimal(obs, low, high, n, kappa, h, w, k - 1, j);
    }
  }

  /** Every earlier index is strictly worse: among ties the first index wins. */
  lemma {:induction false} BestIndexIsFirst(obs: seq<TimerMeasurement>, low: real, high: real, n: nat, kappa: real,
                                           h: real, w: PerformanceWeights, k: nat, j: nat)
    requires h != 0.0 && 0 < k <= n && j < BestIndex(obs, low, high, n, kappa, h, w, k)
    ensures var b := BestIndex(obs, low, high, n, kappa, h, w, k);
      Ucb(obs, GridPoint(low, high, n, j), kappa, h, w) > Ucb(obs, GridPoint(low, high, n, b), kappa, h, w)
  {
    var b := BestIndex(obs, low, high, n, kappa, h, w, k);
    if k > 1 {
      var prev := BestIndex(obs, low, high, n, kappa, h, w, k - 1);
      var ub, uj := Ucb(obs, GridPoint(low, high, n, b), kappa, h, w), Ucb(obs, GridPoint(low, high, n, j), kappa, h, w);
      var up := Ucb(obs, GridPoint(low, high, n, prev), kappa, h, w);
      if b == prev {
        BestIndexIsFirst(obs, low, high, n, kappa, h, w, k - 1, j);
        assert uj > up == ub;
      } else {
        assert b == k - 1 && ub < up;
        BestIndexIsMinimal(obs, low, high, n, kappa, h, w, k - 1, j);
        assert up <= uj;
      }
    }
  }

  /** Grid points start at `low` and stay strictly below `high` when low < high. */
  lemma {:induction false} GridPointInRange(low: real, high: real, n: nat, i: nat)
    requires n > 0 && i < n && low < high
    ensures GridPoint(low, high, n, 0) == low
    ensures low <= GridPoint(low, high, n, i) < high
  {
    var step := (high - low) / (n as real);
    assert step * (n as real) == high - low;
    assert step > 0.0;
    MulMonotone(step, i as real, (n - 1) as real);
    assert (i as real) * step <= ((n - 1) as real) * step;
    assert ((n - 1) as real) * step == high - low - step;
  }

  // ---------------------------------------------------------------------------
  // The optimiser object
  // ---------------------------------------------------------------------------

  class BayesianOptimizer {
    var observations: seq<TimerMeasurement>
    const kernelWidth: real
    const weights: PerformanceWeights

    /** The kernel divides by 2 h^2, so the width is non-zero. */
    predicate Valid()
    {
      kernelWidth != 0.0
    }

    /** `new`: no observations yet. */
    constructor(kernelWidth: real, weights: PerformanceWeights)
      requires kernelWidth != 0.0
      ensures Valid() && observations == []
      ensures this.kernelWidth == kernelWidth && this.weights == weights
    {
      this.kernelWidth := kernelWidth;
      this.weights := weights;
      observations := [];
    }

    /** `add_observation`: append at the end. */
    method AddObservation(m: TimerMeasurement)
      modifies this
      ensures observations == old(observations) + [m]
    {
      observations := observations + [m];
    }

    /** `predict`: one pass accumulating the weighted score sum and the total weight. */
    method Predict(x: real) returns (mu: real, sigma: real)
      requires Valid()
      ensures (mu, sigma) == Surrogate(observations, x, kernelWidth, weights)
    {
      if |observations| == 0 {
        return 1.0, 1.0;
      }
      var weightedSum, weightTotal := Accumulate(x);
      WeightTotalPositive(KernelWeights(observations, x, kernelWidth), |observations|);
      mu := if weightTotal > MinWeightTotal then weightedSum / weightTotal else 1.0;
      sigma := 0.3 / (1.0 + weightTotal * 0.1);
    }

    /** The loop of `predict`: the kernel-weighted score sum and the total weight. */
    method Accumulate(x: real) returns (weightedSum: real, weightTotal: real)
      requires Valid()
      ensures weightedSum == WeightedSum(KernelWeights(observations, x, kernelWidth), Scores(observations, weights), |observations|)
      ensures weightTotal == WeightTotal(KernelWeights(observations, x, kernelWidth), |observations|)
    {
      var all := observations;
      ghost var ws, ss := KernelWeights(all, x, kernelWidth), Scores(all, weights);
      weightedSum, weightTotal := 0.0, 0.0;
      for i := 0 to |all|
        invariant weightedSum == WeightedSum(ws, ss, i)
        invariant weightTotal == WeightTotal(ws, i)
      {
        var obs := all[i];
        var weight := KernelWeight(x, obs.resolutionMs, kernelWidth);
        var score := PerformanceScore(obs.statistics, weights);
        TermsAt(all, x, kernelWidth, weights, i);
        WeightedSumStep(ws, ss, i, weight, score);
        weightedSum := weightedSum + weight * score;
        weightTotal := weightTotal + weight;
      }
    }

    /** `acquisition_ucb`. */
    method AcquisitionUcb(x: real, kappa: real) returns (u: real)
      requires Valid()
      ensures u == Ucb(observations, x, kappa, kernelWidth, weights)
    {
      var mu, sigma := Predict(x);
      u := mu - kappa * sigma;
    }

    /** `suggest_next`: scan the grid, keeping the first strictly lowest point.
        The source seeds the running best with the largest float; here the
        first grid point is taken unconditionally. */
    method SuggestNext(low: real, high: real, n: nat, kappa: real) returns (best: real)
      requires Valid()
      ensures best == Suggestion(observations, low, high, n, kappa, kernelWidth, weights)
    {
      best := low;
      if n == 0 {
        return;
      }
      ghost var bestIndex := 0;
      var bestUcb := 0.0;
      for i := 0 to n
        invariant i > 0 ==> bestIndex == BestIndex(observations, low, high, n, kappa, kernelWidth, weights, i)
        invariant i > 0 ==> best == GridPoint(low, high, n, bestIndex)
        invariant i > 0 ==> bestUcb == Ucb(observations, best, kappa, kernelWidth, weights)
      {
        var x := low + (i as real) * ((high - low) / (n as real));
        var ucb := AcquisitionUcb(x, kappa);
        if i == 0 || ucb < bestUcb {
          bestUcb := ucb;
          best := x;
          bestIndex := i;
        }
      }
    }
  }

  /** What `suggest_next` returns on a non-empty grid: a grid point whose
      acquisition value is no greater than any other grid point's and
      strictly below every earlier one's. */
  lemma {:induction false} SuggestionIsFirstArgmin(obs: seq<TimerMeasurement>, low: real, high: real, n: nat,
                                                  kappa: real, h: real, w: PerformanceWeights)
    requires h != 0.0 && n > 0
    ensures var b := BestIndex(obs, low, high, n, kappa, h, w, n);
      && b < n
      && Suggestion(obs, low, high, n, kappa, h, w) == GridPoint(low, high, n, b)
      && (forall j :: 0 <= j < n ==>
            Ucb(obs, GridPoint(low, high, n, b), kappa, h, w) <= Ucb(obs, GridPoint(low, high, n, j), kappa, h, w))
      && (forall j :: 0 <= j < b ==>
            Ucb(obs, GridPoint(low, high, n, j), kappa, h, w) > Ucb(obs, GridPoint(low, high, n, b), kappa, h, w))
  {
    forall j | 0 <= j < n
      ensures Ucb(obs, GridPoint(low, high, n, BestIndex(obs, low, high, n, kappa, h, w, n)), kappa, h, w)
        <= Ucb(obs, GridPoint(low, high, n, j), kappa, h, w)
    {
      BestIndexIsMinimal(obs, low, high, n, kappa, h, w, n, j);
    }
    forall j | 0 <= j < BestIndex(obs, low, high, n, kappa, h, w, n)
      ensures Ucb(obs, GridPoint(low, high, n, j), kappa, h, w)
        > Ucb(obs, GridPoint(low, high, n, BestIndex(obs, low, high, n, kappa, h, w, n)), kappa, h, w)
    {
      BestIndexIsFirst(obs, low, high, n, kappa, h, w, n, j);
    }
  }
}
