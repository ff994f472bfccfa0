/** `aggregate_measurements` (src/core/mod.rs): the measurements are bucketed
    by their period in units of 100 ns, each bucket's raw samples are pooled
    in input order, and the statistics are recomputed from the pool. */
module Aggregation {
  import opened RealMath
  import Statistics
  import opened Measurement

  /** `(resolution_ms * 10000.0).round() as i64`: rounded half away from zero,
      then clamped to the `i64` range as the cast does. */
  function Key(ms: real): (k: int)
    ensures I64Min <= k <= I64Max
    ensures I64Min <= RoundHalfAway(ms * 10000.0) <= I64Max ==> Abs(k as real - ms * 10000.0) <= 0.5
  {
    Saturate(RoundHalfAway(ms * 10000.0), I64Min, I64Max)
  }

  predicate Distinct(ks: seq<int>) {
    forall i, j :: 0 <= i < j < |ks| ==> ks[i] != ks[j]
  }

  // ---------------------------------------------------------------------------
  // The buckets, defined one measurement at a time

  /** The keys in order of first appearance, each once. */
  function Keys(ms: seq<TimerMeasurement>): (ks: seq<int>)
    ensures Distinct(ks)
    ensures |ks| <= |ms| && (|ks| == 0 <==> |ms| == 0)
    decreases |ms|
  {
    if |ms| == 0 then []
    else
      var front := Keys(ms[..|ms| - 1]);
      var k := Key(ms[|ms| - 1].resolutionMs);
      if k in front then front
      else
        assert forall i :: 0 <= i < |front| ==> front[i] != k;
        front + [k]
  }

  /** The members of the bucket `k`, in input order (`entry(key).push(m)`). */
  function Members(ms: seq<TimerMeasurement>, k: int): seq<TimerMeasurement>
    decreases |ms|
  {
    if |ms| == 0 then []
    else
      var m := ms[|ms| - 1];
      Members(ms[..|ms| - 1], k) + if Key(m.resolutionMs) == k then [m] else []
  }

  /** The raw samples of `group`, one measurement after another (`extend`). */
  function Samples(group: seq<TimerMeasurement>): seq<real>
    decreases |group|
  {
    if |group| == 0 then [] else Samples(group[..|group| - 1]) + group[|group| - 1].rawSamples
  }

  /** The pool of bucket `k`. */
  function Pool(ms: seq<TimerMeasurement>, k: int): seq<real> {
    Samples(Members(ms, k))
  }

  /** A bucket before its statistics are computed: its key and its pool. */
  datatype Group = Group(key: int, pool: seq<real>)

  /** The groups of the keys `ks`, in that order. */
  function Groups(ms: seq<TimerMeasurement>, ks: seq<int>): seq<Group> {
    seq(|ks|, i requires 0 <= i < |ks| => Group(ks[i], Pool(ms, ks[i])))
  }

  predicate Pooled(gs: seq<Group>) {
    forall i :: 0 <= i < |gs| ==> |gs[i].pool| > 0
  }

  /** `from_samples` panics on an empty pool, so every bucket must pool at
      least one sample. */
  predicate PoolsNonEmpty(ms: seq<TimerMeasurement>) {
    Pooled(Groups(ms, Keys(ms)))
  }

  /** The measurement built for a group: the period `key / 10000`, the
      statistics `stats` computes from the pool, and the pool. */
  function Measure(g: Group, stats: seq<real> --> Statistics.RobustStatistics): TimerMeasurement
    requires stats.requires(g.pool)
  {
    TimerMeasurement(g.key as real / 10000.0, stats(g.pool), g.pool)
  }

  ghost predicate Buildable(gs: seq<Group>, stats: seq<real> --> Statistics.RobustStatistics) {
    forall i :: 0 <= i < |gs| ==> stats.requires(gs[i].pool)
  }

  /** The measurements built for `gs`, in that order. */
  function Measured(gs: seq<Group>, stats: seq<real> --> Statistics.RobustStatistics): (out: seq<TimerMeasurement>)
    requires Buildable(gs, stats)
    ensures |out| == |gs|
    decreases |gs|
  {
    if |gs| == 0 then [] else Measured(gs[..|gs| - 1], stats) + [Measure(gs[|gs| - 1], stats)]
  }

  /** Entry `i` of the measurements is built from group `i`. */
  lemma {:induction false} MeasuredAt(gs: seq<Group>, stats: seq<real> --> Statistics.RobustStatistics, i: nat)
    requires Buildable(gs, stats) && i < |gs|
    ensures Measured(gs, stats)[i] == Measure(gs[i], stats)
    ensures Measured(gs, stats)[i].resolutionMs == gs[i].key as real / 10000.0
    ensures Measured(gs, stats)[i].rawSamples == gs[i].pool
    decreases |gs|
  {
    var n := |gs| - 1;
    if i < n {
      MeasuredAt(gs[..n], stats, i);
    }
  }

  /** The reference result: one bucket per key, in order of first appearance,
      with its statistics recomputed by `from_samples`. */
  function Aggregated(ms: seq<TimerMeasurement>): (out: seq<TimerMeasurement>)
    requires PoolsNonEmpty(ms)
    ensures |out| == |Keys(ms)|
  {
    Measured(Groups(ms, Keys(ms)), Statistics.FromSamples)
  }

  // ---------------------------------------------------------------------------
  // One step of each definition

  lemma {:induction false} PrefixStep(ms: seq<TimerMeasurement>, i: nat)
    requires i < |ms|
    ensures ms[..i + 1][..i] == ms[..i] && ms[..i + 1][i] == ms[i]
  {
  }

  lemma {:induction false} MembersSnoc(ms: seq<TimerMeasurement>, m: TimerMeasurement, k: int)
    ensures Members(ms + [m], k) == Members(ms, k) + if Key(m.resolutionMs) == k then [m] else []
    ensures Keys(ms + [m]) == if Key(m.resolutionMs) in Keys(ms) then Keys(ms) else Keys(ms) + [Key(m.resolutionMs)]
  {
    assert (ms + [m])[..|ms|] == ms;
  }

  lemma {:induction false} PoolSnoc(ms: seq<TimerMeasurement>, m: TimerMeasurement, k: int)
    ensures Pool(ms + [m], k) == Pool(ms, k) + if Key(m.resolutionMs) == k then m.rawSamples else []
  {
    MembersSnoc(ms, m, k);
    var g := Members(ms, k);
    if Key(m.resolutionMs) == k {
      assert (g + [m])[..|g|] == g;
    } else {
      assert Members(ms + [m], k) == g;
    }
  }

  lemma {:induction false} SamplesSnoc(group: seq<TimerMeasurement>, t: nat)
    requires t < |group|
    ensures Samples(group[..t + 1]) == Samples(group[..t]) + group[t].rawSamples
  {
    assert group[..t + 1][..t] == group[..t];
  }

  // ---------------------------------------------------------------------------
  // The buckets partition the measurements

  /** Every measurement's key is an output key. */
  lemma {:induction false} KeysCover(ms: seq<TimerMeasurement>, i: nat)
    requires i < |ms|
    ensures Key(ms[i].resolutionMs) in Keys(ms)
    decreases |ms|
  {
    var n := |ms| - 1;
    var front := ms[..n];
    assert front + [ms[n]] == ms;
    MembersSnoc(front, ms[n], Key(ms[i].resolutionMs));
    if i < n {
      KeysCover(front, i);
      assert front[i] == ms[i];
    }
  }

  /** Every output key is the key of some measurement. */
  lemma {:induction false} KeysOccur(ms: seq<TimerMeasurement>, k: int)
    requires k in Keys(ms)
    ensures exists i :: 0 <= i < |ms| && Key(ms[i].resolutionMs) == k
    decreases |ms|
  {
    var n := |ms| - 1;
    var front := ms[..n];
    assert front + [ms[n]] == ms;
    MembersSnoc(front, ms[n], k);
    if k in Keys(front) {
      KeysOccur(front, k);
      var i :| 0 <= i < |front| && Key(front[i].resolutionMs) == k;
      assert ms[i] == front[i];
    } else {
      assert Key(ms[n].resolutionMs) == k;
    }
  }

  /** A key is an output key exactly when some measurement has it. */
  lemma {:induction false} KeysComplete(ms: seq<TimerMeasurement>, k: int)
    ensures k in Keys(ms) <==> exists i :: 0 <= i < |ms| && Key(ms[i].resolutionMs) == k
  {
    if k in Keys(ms) {
      KeysOccur(ms, k);
    }
    if exists i :: 0 <= i < |ms| && Key(ms[i].resolutionMs) == k {
      var i :| 0 <= i < |ms| && Key(ms[i].resolutionMs) == k;
      KeysCover(ms, i);
    }
  }

  /** A key no measurement has collects nothing. */
  lemma {:induction false} AbsentKeyEmpty(ms: seq<TimerMeasurement>, k: int)
    requires k !in Keys(ms)
    ensures Members(ms, k) == [] && Pool(ms, k) == []
    decreases |ms|
  {
    if |ms| > 0 {
      var n := |ms| - 1;
      MembersSnoc(ms[..n], ms[n], k);
      assert ms[..n] + [ms[n]] == ms;
      AbsentKeyEmpty(ms[..n], k);
    }
  }

  /** Every member of bucket `k` has key `k`, and every measurement with key
      `k` is a member. */
  lemma {:induction false} MembersHaveKey(ms: seq<TimerMeasurement>, k: int)
    ensures forall m :: m in Members(ms, k) ==> Key(m.resolutionMs) == k && m in ms
    ensures forall i :: 0 <= i < |ms| && Key(ms[i].resolutionMs) == k ==> ms[i] in Members(ms, k)
    decreases |ms|
  {
    if |ms| > 0 {
      var n := |ms| - 1;
      var front := ms[..n];
      MembersHaveKey(front, k);
      MembersSnoc(front, ms[n], k);
      assert front + [ms[n]] == ms;
      forall i | 0 <= i < n && Key(ms[i].resolutionMs) == k ensures ms[i] in Members(ms, k) {
        assert front[i] == ms[i];
      }
      forall m | m in front ensures m in ms {
      }
    }
  }

  /** The total size of the pools of `ks`. */
  function PoolsSize(ms: seq<TimerMeasurement>, ks: seq<int>): nat
    decreases |ks|
  {
    if |ks| == 0 then 0 else PoolsSize(ms, ks[..|ks| - 1]) + |Pool(ms, ks[|ks| - 1])|
  }

  lemma {:induction false} PoolsSizeSnoc(ms: seq<TimerMeasurement>, m: TimerMeasurement, ks: seq<int>)
    requires Distinct(ks)
    ensures PoolsSize(ms + [m], ks)
              == PoolsSize(ms, ks) + if Key(m.resolutionMs) in ks then |m.rawSamples| else 0
    decreases |ks|
  {
    if |ks| > 0 {
      var n := |ks| - 1;
      var front := ks[..n];
      assert Distinct(front);
      PoolsSizeSnoc(ms, m, front);
      PoolSnoc(ms, m, ks[n]);
      assert ks == front + [ks[n]];
      assert Key(m.resolutionMs) in ks <==> Key(m.resolutionMs) in front || Key(m.resolutionMs) == ks[n];
      assert ks[n] !in front;
    }
  }

  /** The pools of all keys hold as many samples as the measurements. */
  lemma {:induction false} PoolsSizeOfKeys(ms: seq<TimerMeasurement>)
    ensures PoolsSize(ms, Keys(ms)) == |Samples(ms)|
    decreases |ms|
  {
    if |ms| > 0 {
      var n := |ms| - 1;
      var front, m := ms[..n], ms[n];
      var k := Key(m.resolutionMs);
      assert front + [m] == ms;
      PoolsSizeOfKeys(front);
      MembersSnoc(front, m, k);
      PoolsSizeSnoc(front, m, Keys(front));
      if k !in Keys(front) {
        var ks := Keys(front) + [k];
        assert ks[..|ks| - 1] == Keys(front);
        AbsentKeyEmpty(front, k);
        PoolSnoc(front, m, k);
      }
    }
  }

  /** The total size of the pools of `gs`. */
  function Total(gs: seq<Group>): nat
    decreases |gs|
  {
    if |gs| == 0 then 0 else Total(gs[..|gs| - 1]) + |gs[|gs| - 1].pool|
  }

  lemma {:induction false} GroupsTotal(ms: seq<TimerMeasurement>, ks: seq<int>)
    ensures Total(Groups(ms, ks)) == PoolsSize(ms, ks)
    decreases |ks|
  {
    if |ks| > 0 {
      var n := |ks| - 1;
      GroupsTotal(ms, ks[..n]);
      assert Groups(ms, ks)[..n] == Groups(ms, ks[..n]);
    }
  }

  /** Recomputing the statistics keeps every pool: the measurements built
      from `gs` hold `Total(gs)` samples. */
  lemma {:induction false} SamplesOfMeasured(gs: seq<Group>, stats: seq<real> --> Statistics.RobustStatistics)
    requires Buildable(gs, stats)
    ensures |Samples(Measured(gs, stats))| == Total(gs)
    decreases |gs|
  {
    if |gs| > 0 {
      var n := |gs| - 1;
      SamplesOfMeasured(gs[..n], stats);
      var out := Measured(gs, stats);
      assert out[..n] == Measured(gs[..n], stats);
    }
  }

  /** Output keys are pairwise distinct, and so are the output periods; the
      output is empty exactly when the input is, so `topsis_results[0]` exists
      for every non-empty benchmark. */
  lemma {:induction false} AggregatedKeys(ms: seq<TimerMeasurement>)
    requires PoolsNonEmpty(ms)
    ensures |Aggregated(ms)| == 0 <==> |ms| == 0
    ensures forall i, j :: 0 <= i < j < |Aggregated(ms)| ==> Aggregated(ms)[i].resolutionMs != Aggregated(ms)[j].resolutionMs
  {
    var gs := Groups(ms, Keys(ms));
    assert forall i, j :: 0 <= i < j < |gs| ==> gs[i].key != gs[j].key;
    DistinctPeriods(gs, Statistics.FromSamples);
  }

  /** Groups with distinct keys are measured at distinct periods. */
  lemma {:induction false} DistinctPeriods(gs: seq<Group>, stats: seq<real> --> Statistics.RobustStatistics)
    requires Buildable(gs, stats)
    requires forall i, j :: 0 <= i < j < |gs| ==> gs[i].key != gs[j].key
    ensures forall i, j :: 0 <= i < j < |gs| ==> Measured(gs, stats)[i].resolutionMs != Measured(gs, stats)[j].resolutionMs
  {
    forall i, j | 0 <= i < j < |gs| ensures Measured(gs, stats)[i].resolutionMs != Measured(gs, stats)[j].resolutionMs {
      MeasuredAt(gs, stats, i);
      MeasuredAt(gs, stats, j);
    }
  }

  /** No sample is lost or duplicated in number: the buckets together hold as
      many samples as the input. */
  lemma {:induction false} SamplesPreserved(ms: seq<TimerMeasurement>)
    requires PoolsNonEmpty(ms)
    ensures |Samples(Aggregated(ms))| == |Samples(ms)|
  {
    SamplesOfMeasured(Groups(ms, Keys(ms)), Statistics.FromSamples);
    GroupsTotal(ms, Keys(ms));
    PoolsSizeOfKeys(ms);
  }

  /** Bucket `i` of the result belongs to the `i`-th key: its period is the
      key over 10000, its raw samples are its members' samples in input order,
      and its statistics are recomputed from that pool. */
  lemma {:induction false} AggregatedAt(ms: seq<TimerMeasurement>, i: nat)
    requires PoolsNonEmpty(ms) && i < |Keys(ms)|
    ensures |Pool(ms, Keys(ms)[i])| > 0
    ensures Aggregated(ms)[i] == TimerMeasurement(Keys(ms)[i] as real / 10000.0,
              Statistics.FromSamples(Pool(ms, Keys(ms)[i])), Pool(ms, Keys(ms)[i]))
  {
    var gs := Groups(ms, Keys(ms));
    assert gs[i] == Group(Keys(ms)[i], Pool(ms, Keys(ms)[i]));
    MeasuredAt(gs, Statistics.FromSamples, i);
  }

  // ---------------------------------------------------------------------------
  // Aggregating twice

  /** The key of each measurement of `xs`, in order. */
  function KeysOf(xs: seq<TimerMeasurement>): (ks: seq<int>)
    ensures |ks| == |xs|
  {
    seq(|xs|, i requires 0 <= i < |xs| => Key(xs[i].resolutionMs))
  }

  /** A grid period `k / 10000` has the key `k`. */
  lemma {:induction false} KeyOfGridPeriod(k: int)
    requires I64Min <= k <= I64Max
    ensures Key(k as real / 10000.0) == k
  {
    assert (k as real / 10000.0) * 10000.0 == k as real;
  }

  /** When no two measurements share a key, the buckets are the measurements
      themselves, in input order. */
  lemma {:induction false} DistinctKeysSingletons(xs: seq<TimerMeasurement>)
    requires Distinct(KeysOf(xs))
    ensures Keys(xs) == KeysOf(xs)
    ensures forall i :: 0 <= i < |xs| ==> Members(xs, KeysOf(xs)[i]) == [xs[i]]
    decreases |xs|
  {
    if |xs| > 0 {
      var n := |xs| - 1;
      var front := xs[..n];
      assert KeysOf(front) == KeysOf(xs)[..n];
      DistinctKeysSingletons(front);
      var k := Key(xs[n].resolutionMs);
      assert k !in KeysOf(front) by {
        assert forall j :: 0 <= j < n ==> KeysOf(xs)[j] != KeysOf(xs)[n];
      }
      AbsentKeyEmpty(front, k);
      assert KeysOf(xs) == KeysOf(front) + [k];
      forall i | 0 <= i < |xs| ensures Members(xs, KeysOf(xs)[i]) == [xs[i]] {
        if i < n {
          assert KeysOf(xs)[i] != k;
          assert front[i] == xs[i];
        }
      }
    }
  }

  /** A single measurement pools its own samples. */
  lemma {:induction false} SamplesOfOne(m: TimerMeasurement)
    ensures Samples([m]) == m.rawSamples
  {
    assert [m][..0] == [];
  }

  /** The aggregated measurements carry the input's keys, in order, and each
      holds the non-empty pool of its key. */
  lemma {:induction false} AggregatedOnGrid(ms: seq<TimerMeasurement>)
    requires PoolsNonEmpty(ms)
    ensures KeysOf(Aggregated(ms)) == Keys(ms)
    ensures forall i :: 0 <= i < |Keys(ms)| ==>
              Aggregated(ms)[i].rawSamples == Pool(ms, Keys(ms)[i]) && |Pool(ms, Keys(ms)[i])| > 0
  {
    var out, ks := Aggregated(ms), Keys(ms);
    forall i | 0 <= i < |out|
      ensures KeysOf(out)[i] == ks[i]
      ensures out[i].rawSamples == Pool(ms, ks[i]) && |Pool(ms, ks[i])| > 0
    {
      AggregatedAt(ms, i);
      KeysOccur(ms, ks[i]);
      KeyOfGridPeriod(ks[i]);
    }
  }

  /** Re-bucketing the aggregated measurements gives each its own bucket. */
  lemma {:induction false} AggregatedBuckets(ms: seq<TimerMeasurement>)
    requires PoolsNonEmpty(ms)
    ensures Keys(Aggregated(ms)) == Keys(ms)
    ensures forall i :: 0 <= i < |Keys(ms)| ==> Pool(Aggregated(ms), Keys(ms)[i]) == Aggregated(ms)[i].rawSamples
    ensures PoolsNonEmpty(Aggregated(ms))
  {
    var out, ks := Aggregated(ms), Keys(ms);
    AggregatedOnGrid(ms);
    DistinctKeysSingletons(out);
    forall i | 0 <= i < |ks| ensures Pool(out, ks[i]) == out[i].rawSamples {
      SamplesOfOne(out[i]);
    }
    forall i | 0 <= i < |ks| ensures |Groups(out, Keys(out))[i].pool| > 0 {
      assert Groups(out, Keys(out))[i].pool == Pool(out, ks[i]);
    }
  }

  /** Bucket `i` of the second aggregation is bucket `i` of the first. */
  lemma {:induction false} ReaggregatedAt(ms: seq<TimerMeasurement>, out: seq<TimerMeasurement>, i: nat)
    requires PoolsNonEmpty(ms) && out == Aggregated(ms) && PoolsNonEmpty(out)
    requires Keys(out) == Keys(ms) && i < |Keys(ms)|
    requires Pool(out, Keys(ms)[i]) == out[i].rawSamples
    ensures Aggregated(out)[i] == out[i]
  {
    AggregatedAt(ms, i);
    AggregatedAt(out, i);
  }

  /** Aggregating is idempotent: the aggregated measurements have one per
      key, each on its grid period with its pool as its samples, so a second
      aggregation rebuilds every one of them unchanged. */
  lemma {:induction false} AggregatedIdempotent(ms: seq<TimerMeasurement>)
    requires PoolsNonEmpty(ms)
    ensures PoolsNonEmpty(Aggregated(ms))
    ensures Aggregated(Aggregated(ms)) == Aggregated(ms)
  {
    var out := Aggregated(ms);
    AggregatedBuckets(ms);
    forall i | 0 <= i < |out| ensures Aggregated(out)[i] == out[i] {
      ReaggregatedAt(ms, out, i);
    }
  }

  /** Each bucket pools exactly the measurements with its key, and its
      period `k / 10000` is within half a unit (0.00005 ms) of each member's
      period when the key did not saturate. */
  lemma {:induction false} BucketNearMembers(ms: seq<TimerMeasurement>, k: int)
    ensures forall m :: m in Members(ms, k) ==>
              m in ms && Key(m.resolutionMs) == k
              && (I64Min <= RoundHalfAway(m.resolutionMs * 10000.0) <= I64Max ==>
                    Abs(k as real / 10000.0 - m.resolutionMs) <= 0.00005)
  {
    MembersHaveKey(ms, k);
    forall m | m in Members(ms, k) && I64Min <= RoundHalfAway(m.resolutionMs * 10000.0) <= I64Max
      ensures Abs(k as real / 10000.0 - m.resolutionMs) <= 0.00005
    {
      var x := m.resolutionMs * 10000.0;
      assert RoundHalfAway(x) == k;
      assert k as real - 0.5 <= x <= k as real + 0.5;
    }
  }

  /** Two distinct keys give periods at least 0.0001 ms apart. */
  lemma {:induction false} DistinctKeysApart(a: int, b: int)
    requires a != b
    ensures Abs(a as real / 10000.0 - b as real / 10000.0) >= 0.0001
  {
    assert a as real / 10000.0 - b as real / 10000.0 == (a - b) as real / 10000.0;
  }

  // ---------------------------------------------------------------------------
  // The imperative aggregation

  /** One more group, one more measurement. */
  lemma {:induction false} MeasuredStep(gs: seq<Group>, stats: seq<real> --> Statistics.RobustStatistics, j: nat)
    requires Buildable(gs, stats) && j < |gs|
    ensures Buildable(gs[..j], stats) && Buildable(gs[..j + 1], stats)
    ensures Measured(gs[..j + 1], stats) == Measured(gs[..j], stats) + [Measure(gs[j], stats)]
  {
    assert gs[..j + 1][..j] == gs[..j];
  }

  /** The state of the first pass after `prefix`: the keys in order of first
      appearance, each mapped to its members. */
  ghost predicate Collected(prefix: seq<TimerMeasurement>, groups: map<int, seq<TimerMeasurement>>, order: seq<int>) {
    && order == Keys(prefix)
    && (forall k :: k in groups <==> k in order)
    && (forall k | k in groups :: groups[k] == Members(prefix, k))
  }

  /** The first pass of `aggregate_measurements`: a map from key to its
      members, filled in input order, and the keys in order of first
      appearance. */
  method CollectGroups(ms: seq<TimerMeasurement>) returns (groups: map<int, seq<TimerMeasurement>>, order: seq<int>)
    ensures order == Keys(ms)
    ensures forall k :: k in groups <==> k in order
    ensures forall k | k in groups :: groups[k] == Members(ms, k)
  {
    groups, order := map[], [];
    var i := 0;
    while i < |ms|
      invariant 0 <= i <= |ms|
      invariant Collected(ms[..i], groups, order)
    {
      var m := ms[i];
      var key := Key(m.resolutionMs);
      if key in groups {
        CollectKnownKey(ms, i, groups, order);
        groups := groups[key := groups[key] + [m]];
      } else {
        CollectNewKey(ms, i, groups, order);
        groups := groups[key := [m]];
        order := order + [key];
      }
      i := i + 1;
    }
    assert ms[..i] == ms;
  }

  /** Measurement `i` adds itself to the members of its own key and to no
      other. */
  lemma {:induction false} PrefixMembers(ms: seq<TimerMeasurement>, i: nat, k: int)
    requires i < |ms|
    ensures Members(ms[..i + 1], k) == Members(ms[..i], k) + if Key(ms[i].resolutionMs) == k then [ms[i]] else []
    ensures Keys(ms[..i + 1]) == if Key(ms[i].resolutionMs) in Keys(ms[..i]) then Keys(ms[..i])
                                 else Keys(ms[..i]) + [Key(ms[i].resolutionMs)]
  {
    PrefixStep(ms, i);
    assert ms[..i + 1] == ms[..i] + [ms[i]];
    MembersSnoc(ms[..i], ms[i], k);
  }

  /** One step of the first pass for a key already seen: the measurement
      joins its members. */
  lemma {:induction false} CollectKnownKey(ms: seq<TimerMeasurement>, i: nat,
                                           groups: map<int, seq<TimerMeasurement>>, order: seq<int>)
    requires i < |ms| && Collected(ms[..i], groups, order) && Key(ms[i].resolutionMs) in groups
    ensures var key := Key(ms[i].resolutionMs);
      Collected(ms[..i + 1], groups[key := groups[key] + [ms[i]]], order)
  {
    var key := Key(ms[i].resolutionMs);
    var groups' := groups[key := groups[key] + [ms[i]]];
    PrefixMembers(ms, i, key);
    forall k | k in groups' ensures groups'[k] == Members(ms[..i + 1], k) {
      PrefixMembers(ms, i, k);
    }
  }

  /** One step of the first pass for a new key: it starts a group and is
      remembered after the others. */
  lemma {:induction false} CollectNewKey(ms: seq<TimerMeasurement>, i: nat,
                                         groups: map<int, seq<TimerMeasurement>>, order: seq<int>)
    requires i < |ms| && Collected(ms[..i], groups, order) && Key(ms[i].resolutionMs) !in groups
    ensures var key := Key(ms[i].resolutionMs);
      Collected(ms[..i + 1], groups[key := [ms[i]]], order + [key])
  {
    var key := Key(ms[i].resolutionMs);
    var groups' := groups[key := [ms[i]]];
    PrefixMembers(ms, i, key);
    assert key !in Keys(ms[..i]);
    assert Keys(ms[..i + 1]) == order + [key];
    AbsentKeyEmpty(ms[..i], key);
    assert groups'[key] == Members(ms[..i + 1], key);
    forall k | k in groups' && k != key ensures groups'[k] == Members(ms[..i + 1], k) {
      PrefixMembers(ms, i, k);
    }
    assert forall k :: k in groups' <==> k in order + [key];
  }

  /** The inner loop of the second pass: the members' raw samples, one
      measurement after another. */
  method PoolMembers(group: seq<TimerMeasurement>) returns (all: seq<real>)
    ensures all == Samples(group)
  {
    all := [];
    var t := 0;
    while t < |group|
      invariant 0 <= t <= |group|
      invariant all == Samples(group[..t])
    {
      SamplesSnoc(group, t);
      all := all + group[t].rawSamples;
      t := t + 1;
    }
    assert group[..t] == group;
  }

  /** One step of the second pass: the pool of key `j` extends the
      measurements of the keys before it. */
  lemma {:induction false} GroupStep(ms: seq<TimerMeasurement>, order: seq<int>, j: nat, all: seq<real>,
                                     stats: seq<real> --> Statistics.RobustStatistics, out: seq<TimerMeasurement>)
    requires j < |order| && all == Pool(ms, order[j])
    requires Buildable(Groups(ms, order), stats)
    requires out == Measured(Groups(ms, order)[..j], stats)
    ensures Buildable(Groups(ms, order)[..j], stats) && stats.requires(all)
    ensures out + [Measure(Group(order[j], all), stats)] == Measured(Groups(ms, order)[..j + 1], stats)
  {
    var gs := Groups(ms, order);
    assert gs[j] == Group(order[j], all);
    MeasuredStep(gs, stats, j);
  }

  /** The second pass of `aggregate_measurements`: for each key in order, its
      members' samples pooled and the statistics computed from the pool by
      `stats` (`from_samples` in the source). */
  method MeasureGroups(ghost ms: seq<TimerMeasurement>, groups: map<int, seq<TimerMeasurement>>, order: seq<int>,
                       stats: seq<real> --> Statistics.RobustStatistics)
    returns (out: seq<TimerMeasurement>)
    requires forall k :: k in groups <==> k in order
    requires forall k | k in groups :: groups[k] == Members(ms, k)
    requires Buildable(Groups(ms, order), stats)
    ensures out == Measured(Groups(ms, order), stats)
  {
    ghost var gs := Groups(ms, order);
    out := [];
    var j := 0;
    while j < |order|
      invariant 0 <= j <= |order|
      invariant out == Measured(gs[..j], stats)
    {
      var key := order[j];
      var all := PoolMembers(groups[key]);
      GroupStep(ms, order, j, all, stats, out);
      out := out + [Measure(Group(key, all), stats)];
      j := j + 1;
    }
    assert gs[..j] == gs;
  }

  /** `aggregate_measurements`: the groups collected, then measured. */
  method Aggregate(ms: seq<TimerMeasurement>) returns (out: seq<TimerMeasurement>)
    requires PoolsNonEmpty(ms)
    ensures out == Aggregated(ms)
  {
    var groups, order := CollectGroups(ms);
    out := MeasureGroups(ms, groups, order, Statistics.FromSamples);
  }
}
