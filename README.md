# EnhancedTimerResBenchmark — a verified model of its decision and statistics core

EnhancedTimerResBenchmark looks for the Windows timer period that makes
`Sleep(1)` most accurate. It sets a candidate period with a helper
(SetTimerResolution), runs a second helper (MeasureSleep) that prints the
average sleep delta, and repeats this several times per candidate. It then:

- condenses the deltas into robust statistics: median, MAD, outlier
  filtering, mean, deviation, p95, p99 and a 95 % interval;
- lets a kernel-weighted Bayesian optimiser choose the next candidate;
- merges repeated candidates into one measurement;
- ranks the candidates with TOPSIS.

This project models that core in Dafny and proves what each piece promises.
It covers:

- the statistics (`Statistics`, with worked inputs in `StatisticsExamples`);
- the TOPSIS ranking, written imperatively over arrays (`Topsis`);
- the optimiser as a class with an append-only observation list
  (`BayesianOptimizer`);
- the pure decisions embedded in the driver, `src/core/mod.rs`:
  - the report parser (`MeasureOutput`);
  - the bucket-and-pool aggregation (`Aggregation`);
  - the boot-configuration scan and HPET decision (`BootConfig`);
  - Latin-hypercube seeding, the exploration schedule, the setter's argument,
    the per-run verification rule and the lookup done when saving results
    (`Driver`);
- the alternate report reader and the `prompt` decision of
  `src/utils/helpers.rs` (`Helpers`).

The supporting modules model the Rust standard-library behaviour these
rely on:

- `Text`: `str::trim`, `str::lines`, `split_whitespace`, `to_lowercase`
  (for ASCII letters and KELVIN SIGN), `contains`, `split(..).nth(1)` and
  `split(..).next()`;
- `Utf8`: `std::str::from_utf8`;
- `FloatText`: `str::parse::<f64>`, as exact values;
- `RealMath`: `f64` arithmetic as `real`, with `sqrt`, `exp`, `round` and
  the saturating `as` casts written out.

The shared record `TimerMeasurement` (src/stats/timer_measurement.rs:9-13)
is the datatype `Measurement.TimerMeasurement`.

Where the code and its comments disagree, the model follows the code: the
exploration weight κ ends at 0.7, not at the 0.5 the comment at
src/core/mod.rs:699 announces.

The resolution in a report line is the text between the first
`"Resolution: "` and any second one, cut before the first `"ms"` and trimmed
(src/core/mod.rs:264-271).

## Model

| member | source | states |
|---|---|---|
| Statistics.SortAscending | src/stats/robust_statistics.rs:24-25 | the sorted clone of the samples is sorted, has the same length and is a permutation (same multiset) of the input |
| Statistics.SortedUnique | src/stats/robust_statistics.rs:24-25 | two sorted sequences with the same multiset are equal, so the sort's result is determined by the input alone |
| Statistics.SortSortedIsIdentity | src/stats/robust_statistics.rs:24-25 | sorting an already sorted sequence leaves it unchanged |
| Statistics.PercentileIndexIsRounded | src/stats/robust_statistics.rs:81 | the integer index (p·(n−1)+50) div 100 equals `(p/100·(n−1)).round()`, rounded half away from zero |
| Statistics.PercentileIndexMonotone | src/stats/robust_statistics.rs:81 | a larger p never gives a smaller index |
| Statistics.Percentile | src/stats/robust_statistics.rs:77-83 | 0 for empty data; otherwise the element at the index clamped to n−1, hence always an element of the data |
| Statistics.PercentileMonotone | src/stats/robust_statistics.rs:77-83 | on sorted data the p-th percentile is at most the q-th for p ≤ q |
| Statistics.AbsDeviations | src/stats/robust_statistics.rs:31-33 | one deviation per sample, each the absolute distance to the centre |
| Statistics.Median | src/stats/robust_statistics.rs:24-28 | the median of non-empty samples is one of the samples |
| Statistics.MedianOfTen | src/stats/robust_statistics.rs:28 | for ten samples the nearest-rank median is the sixth smallest (index 5 after the round-half-away of 4.5) |
| Statistics.Mad | src/stats/robust_statistics.rs:31-36 | the MAD is non-negative |
| Statistics.MadIsDeviation | src/stats/robust_statistics.rs:31-36 | the MAD is the absolute deviation of some sample from the median |
| Statistics.KeepWithinCount | src/stats/robust_statistics.rs:42-45 | the filter keeps every copy of a value within the threshold and drops every copy of one outside it |
| Statistics.KeepWithinSubset | src/stats/robust_statistics.rs:42-45 | what the filter keeps is no longer than its input, and each kept value comes from the input and lies within the threshold |
| Statistics.KeepWithinSorted | src/stats/robust_statistics.rs:42-45 | filtering a sorted sequence leaves it sorted |
| Statistics.KeepWithinAppend | src/stats/robust_statistics.rs:42-45 | the filter distributes over concatenation |
| Statistics.KeepWithinAll | src/stats/robust_statistics.rs:42-45 | when every element is within the threshold the filter returns its input |
| Statistics.Cleaned | src/stats/robust_statistics.rs:38-46 | the cleaned set is non-empty and no larger than the samples |
| Statistics.CleanedUnfold | src/stats/robust_statistics.rs:38-45 | the cleaned set is the sorted samples filtered by abs(x − median) ≤ 3.5·mad |
| Statistics.CleanedIsSortedSubset | src/stats/robust_statistics.rs:42-49 | the cleaned set is sorted, contains the median (so the mean's division is defined) and holds only samples |
| Statistics.CleanedCount | src/stats/robust_statistics.rs:42-46 | each value occurs in the cleaned set as often as in the samples when within 3.5·mad of the median, and not at all otherwise |
| Statistics.NoOutliersKeepsAll | src/stats/robust_statistics.rs:42-46 | when no sample is further than 3.5·mad from the median, the cleaned set is the sorted samples and no outlier is counted |
| Statistics.MeanWithinRange | src/stats/robust_statistics.rs:49 | the mean of a sorted non-empty sequence lies between its first and last element |
| Statistics.FromSamples | src/stats/robust_statistics.rs:20-74 | median in the samples; mad ≥ 0; outliers_removed is the number of samples minus the size of the cleaned set; p95 and p99 in the cleaned set with p95 ≤ p99; the cleaned set's min ≤ mean ≤ max; stdev ≥ 0; the interval contains the mean and is symmetric about it |
| Statistics.CleanedNonNegative | src/stats/robust_statistics.rs:42-46 | non-negative samples give a non-negative cleaned set |
| Statistics.DefaultWeights | src/stats/robust_statistics.rs:104-111 | the default weights are non-negative, sum to 1 and rank accuracy over consistency over worst case |
| Statistics.PerformanceScore | src/stats/robust_statistics.rs:86-93 | with non-negative weights summing to 1, the score lies between the smallest and the largest of p95, mad and p99 |
| Statistics.ScoreOfNonNegativeStatistics | src/stats/robust_statistics.rs:86-93 | non-negative weights and non-negative p95, mad and p99 give a non-negative score |
| Statistics.ScoreNonNegative | src/stats/robust_statistics.rs:20-93 | the score of the statistics of non-negative samples is non-negative under any non-negative weights |
| StatisticsExamples.SpikeMedian | src/stats/robust_statistics.rs:24-28 | n−1 equal values v followed by one larger w (as in [1×9, 100]) have median v |
| StatisticsExamples.SpikeMad | src/stats/robust_statistics.rs:31-36 | that input has MAD 0 |
| StatisticsExamples.SpikeCleaned | src/stats/robust_statistics.rs:38-45 | the cleaned set of that input drops exactly the spike |
| StatisticsExamples.SpikeIsRemoved | src/stats/robust_statistics.rs:20-74 | for that input: median v, mad 0, one outlier removed, and mean, p95 and p99 all equal to v |
| Topsis.Weight | src/optimization/topsis.rs:67 | each criterion weight is positive and at most 0.40 |
| Topsis.ColumnNorm | src/optimization/topsis.rs:50-51 | the column norm (square root of the sum of squares) is non-negative |
| Topsis.ZeroColumnIsUniform | src/optimization/topsis.rs:50-58 | an all-zero column has sum of squares 0 and is normalised to 1/√n in every row |
| Topsis.SameCriteriaSameWeighted | src/optimization/topsis.rs:47-73 | rows with equal criteria get equal weighted entries |
| Topsis.IdealBounds | src/optimization/topsis.rs:77-84 | for every row i and column j, ideal[j] ≤ weighted[i][j] ≤ anti_ideal[j] |
| Topsis.IdealAttained | src/optimization/topsis.rs:77-84 | ideal[j] and anti_ideal[j] are each the weighted entry of some row |
| Topsis.Distance | src/optimization/topsis.rs:87-98 | the distances to the ideal and anti-ideal points are non-negative |
| Topsis.CloseFromInUnitInterval | src/optimization/topsis.rs:101-117 | with non-negative distances the coefficient (d⁻/(d⁺+d⁻), or 0.5 when the sum is below 1e-10) lies in [0, 1] |
| Topsis.ClosenessInUnitInterval | src/optimization/topsis.rs:87-117 | every row's closeness coefficient lies in [0, 1] |
| Topsis.IdenticalRowsAreNeutral | src/optimization/topsis.rs:77-111 | when all rows have the same criteria both distances are 0 and the coefficient is 0.5 |
| Topsis.BuildMatrix | src/optimization/topsis.rs:34-44 | the fresh n×4 matrix holds each measurement's criteria row |
| Topsis.Normalize | src/optimization/topsis.rs:46-64 | the fresh matrix holds the vector-normalised entries, with the 1/√n fallback for a column whose norm is below 1e-10 |
| Topsis.ColumnSumOfSquares | src/optimization/topsis.rs:50 | the loop computes the column's sum of squares |
| Topsis.NormalizeColumn | src/optimization/topsis.rs:52-63 | column j is overwritten with its normalised entries and every other column is left unchanged |
| Topsis.ApplyWeights | src/optimization/topsis.rs:66-73 | the fresh matrix holds the weighted normalised entries |
| Topsis.WeighColumns | src/optimization/topsis.rs:68-73 | each entry is the normalised entry times its column's weight |
| Topsis.IdealPoints | src/optimization/topsis.rs:77-84 | the two fresh arrays hold each column's minimum (ideal) and maximum (anti-ideal) |
| Topsis.ColumnRange | src/optimization/topsis.rs:79-84 | the running min/max over one column ends at the column's minimum and maximum |
| Topsis.Distances | src/optimization/topsis.rs:86-98 | each row's Euclidean distances to the ideal and anti-ideal points |
| Topsis.RowDistances | src/optimization/topsis.rs:90-97 | the inner loop accumulates the squared differences and takes their root |
| Topsis.BuildScores | src/optimization/topsis.rs:100-130 | one score per input, carrying that input's period, criteria and closeness coefficient, with rank 0 |
| Topsis.SortByCloseness | src/optimization/topsis.rs:134-136 | the array becomes a permutation of its old contents, ordered by non-increasing coefficient, and entries with equal coefficients keep their input order (stable) |
| Topsis.AssignRanks | src/optimization/topsis.rs:137-139 | each entry's rank becomes its position plus one and nothing else changes |
| Topsis.TopsisRanking | src/optimization/topsis.rs:28-141 | empty input gives empty output; otherwise one entry per input: entry k is input perm[k]'s score with rank k+1, perm is a permutation, and the order is non-increasing in the coefficient and stable |
| Topsis.RankingCoversInputs | src/optimization/topsis.rs:101-139 | every input appears in the ranking with its own period, its coefficient and its criteria p95, mad, p99 and confidence-interval width, the same row the decision matrix is built from at lines 37-43 |
| Topsis.RankingBounds | src/optimization/topsis.rs:101-139 | every coefficient in the ranking is in [0, 1] and the first entry's is the largest of all inputs |
| Topsis.IdenticalRowsKeepInputOrder | src/optimization/topsis.rs:106-139 | when all rows have the same criteria, the ranking is the inputs in their own order, each with coefficient 0.5 |
| Topsis.IncreasingPermutationIsIdentity | src/optimization/topsis.rs:134-136 | a strictly increasing permutation is the identity, which is what makes stability on equal keys fix the order |
| BayesianOptimizer.KernelWeight | src/optimization/bayesian_optimizer.rs:40-41 | the Gaussian kernel weight is positive |
| BayesianOptimizer.SigmaBounds | src/optimization/bayesian_optimizer.rs:48 | σ = 0.3/(1+0.1·W) is in (0, 0.3] and does not increase as W grows |
| BayesianOptimizer.SurrogateUncertainty | src/optimization/bayesian_optimizer.rs:33-50 | without observations predict gives (1.0, 1.0); with observations σ is in (0, 0.3] |
| BayesianOptimizer.WeightedSumBounds | src/optimization/bayesian_optimizer.rs:37-45 | with non-negative weights and scores in [lo, hi], the weighted sum lies between W·lo and W·hi |
| BayesianOptimizer.MeanWithinScores | src/optimization/bayesian_optimizer.rs:37-46 | μ lies between the smallest and largest observed score when W > 1e-10, and is 1.0 otherwise |
| BayesianOptimizer.UcbIsOptimistic | src/optimization/bayesian_optimizer.rs:53-56 | for κ ≥ 0 the acquisition value μ − κσ never exceeds μ |
| BayesianOptimizer.BestIndex | src/optimization/bayesian_optimizer.rs:64-71 | the index the scan settles on is among those scanned |
| BayesianOptimizer.BestIndexIsMinimal | src/optimization/bayesian_optimizer.rs:64-71 | the chosen grid point's acquisition value is no greater than that of any scanned point |
| BayesianOptimizer.BestIndexIsFirst | src/optimization/bayesian_optimizer.rs:67 | every earlier grid point has a strictly larger acquisition value, so the first minimum wins ties |
| BayesianOptimizer.GridPointInRange | src/optimization/bayesian_optimizer.rs:61-65 | grid point 0 is `low` and every grid point lies in [low, high) |
| BayesianOptimizer.SuggestionIsFirstArgmin | src/optimization/bayesian_optimizer.rs:59-73 | on a non-empty grid the suggestion is grid point b with b < n, minimal over the grid and strictly better than every earlier point |
| BayesianOptimizer.BayesianOptimizer.constructor | src/optimization/bayesian_optimizer.rs:19-25 | a new optimiser has no observations and keeps its kernel width and weights |
| BayesianOptimizer.BayesianOptimizer.AddObservation | src/optimization/bayesian_optimizer.rs:28-30 | the observation is appended at the end and the earlier ones are unchanged |
| BayesianOptimizer.BayesianOptimizer.Accumulate | src/optimization/bayesian_optimizer.rs:37-45 | the loop ends with the kernel-weighted score sum and the total weight over all observations |
| BayesianOptimizer.BayesianOptimizer.Predict | src/optimization/bayesian_optimizer.rs:33-50 | returns the surrogate (μ, σ) at x |
| BayesianOptimizer.BayesianOptimizer.AcquisitionUcb | src/optimization/bayesian_optimizer.rs:53-56 | returns μ − κσ at x |
| BayesianOptimizer.BayesianOptimizer.SuggestNext | src/optimization/bayesian_optimizer.rs:59-73 | returns `low` for an empty grid and otherwise the first grid argmin of the acquisition value |
| MeasureOutput.ScanLines | src/core/mod.rs:256-289 | the loop with its early exit yields, for each reading, the value of the first line that gives one, as if every line were examined |
| MeasureOutput.ReadLine | src/core/mod.rs:262-283 | a reading already set is kept; an unset one takes what the trimmed line yields |
| MeasureOutput.ParseReport | src/core/mod.rs:253-298 | the parser's result is the reference reading of the bytes |
| MeasureOutput.NotUtf8IsInvalidData | src/core/mod.rs:254 | bytes that are not UTF-8 give the InvalidData error |
| MeasureOutput.ReportAcceptedIff | src/core/mod.rs:276-292 | the report is accepted exactly when some trimmed line starts with "Avg: " and some with "STDEV: ", each with a parseable remainder |
| MeasureOutput.ReportValuesAreFirst | src/core/mod.rs:265-292 | each value comes from the first line yielding one (earlier unparseable lines do not block it), and the resolution is absent exactly when no line yields one |
| MeasureOutput.PrintedResolutionIsRead | src/core/mod.rs:264-271 | a line "Resolution: <number>ms…" yields that number as the resolution |
| FirstValues.FirstValueIsFirst | src/core/mod.rs:276-283 | a first-value reading is present exactly when some line yields a value, and it is the value of the earliest such line |
| FirstValues.FirstValueDone | src/core/mod.rs:285-288 | stopping once a reading is set does not change it |
| Aggregation.Key | src/core/mod.rs:1001 | the key lies in the i64 range and, when the rounded value did not saturate, within one half of the period in 100 ns units |
| Aggregation.Keys | src/core/mod.rs:999-1003 | the bucket keys are pairwise distinct, no more than the measurements, and empty exactly when the input is |
| Aggregation.KeysComplete | src/core/mod.rs:1000-1003 | a key has a bucket exactly when some measurement rounds to it |
| Aggregation.MembersHaveKey | src/core/mod.rs:1000-1003 | a bucket holds exactly the measurements with its key |
| Aggregation.AggregatedKeys | src/core/mod.rs:997-1017 | the output is empty exactly when the input is, and its periods are pairwise distinct |
| Aggregation.Aggregated | src/core/mod.rs:997-1017 | one measurement per bucket key |
| Aggregation.AggregatedAt | src/core/mod.rs:1004-1016 | bucket i has period key/10000, its members' raw samples concatenated in input order, and statistics recomputed from that pool |
| Aggregation.SamplesPreserved | src/core/mod.rs:1004-1016 | the buckets hold as many samples in total as the input |
| Aggregation.KeyOfGridPeriod | src/core/mod.rs:1001-1005 | a bucket's period key/10000 rounds back to the key |
| Aggregation.DistinctKeysSingletons | src/core/mod.rs:999-1003 | when no two measurements share a key, the buckets are the measurements themselves, one each, in input order |
| Aggregation.AggregatedBuckets | src/core/mod.rs:997-1017 | re-bucketing the aggregated measurements gives the same keys, each bucket pooling exactly its own measurement's samples |
| Aggregation.AggregatedIdempotent | src/core/mod.rs:997-1017 | aggregating the aggregated measurements again returns them unchanged |
| Aggregation.BucketNearMembers | src/core/mod.rs:1001-1005 | each bucket's period is within 0.00005 ms of each member's period when the key did not saturate |
| Aggregation.DistinctKeysApart | src/core/mod.rs:1005 | periods of distinct buckets are at least 0.0001 ms apart |
| Aggregation.CollectGroups | src/core/mod.rs:999-1003 | the map holds, for every key in order of first appearance, the bucket's members in input order |
| Aggregation.PoolMembers | src/core/mod.rs:1006-1009 | the pool is the members' raw samples concatenated |
| Aggregation.MeasureGroups | src/core/mod.rs:1004-1016 | each bucket, in key order, becomes the measurement built from its pool by the given statistics function |
| Aggregation.Aggregate | src/core/mod.rs:997-1017 | aggregate_measurements returns the reference aggregation, with statistics from from_samples |
| BootConfig.EntryOfSpaced | src/core/mod.rs:136-140 | a line of key, value and more tokens is read as (lowercased key, lowercased value) |
| BootConfig.ShortLineIgnored | src/core/mod.rs:137 | a line with fewer than two tokens sets nothing |
| BootConfig.KeyMatchIgnoresCase | src/core/mod.rs:138-143 | a key token matches when it spells the key in any mix of cases, and only then |
| BootConfig.LastValueIsLast | src/core/mod.rs:135-148 | a key's value is absent exactly when no line sets it, and otherwise it comes from a line that no later line overrides |
| BootConfig.ScanBootConfig | src/core/mod.rs:131-148 | the loop ends with the last value each key is given |
| BootConfig.Decide | src/core/mod.rs:153-165 | a disabled verdict needs useplatformclock absent or "no" and disabledynamictick absent or "yes" |
| BootConfig.DecideDisabledIff | src/core/mod.rs:153-165 | disabled exactly for (no, yes), (absent, yes) and (absent, absent); any other explicit value leaves it enabled |
| BootConfig.CheckHpetStatus | src/core/mod.rs:129-165 | the status is the decision on the scan of the command's output lines |
| BootConfig.NoEntriesIsDisabled | src/core/mod.rs:153-165 | a configuration with neither entry counts as disabled |
| BootConfig.LaterEntryWins | src/core/mod.rs:135-165 | a final line setting useplatformclock to "yes" makes the status enabled, whatever came before |
| Driver.LatinHypercube | src/core/mod.rs:646-652 | n points are produced |
| Driver.LatinHypercubeSegments | src/core/mod.rs:646-652 | point i is the midpoint of segment i of n equal segments |
| Driver.LatinHypercubeInside | src/core/mod.rs:646-652 | for low < high the points are strictly increasing and strictly inside (low, high) |
| Driver.Kappa | src/core/mod.rs:698-700 | κ is 2.5 at the first iteration after the initial points and stays in (0.5, 2.5] |
| Driver.KappaDecreasing | src/core/mod.rs:698-700 | κ strictly decreases over the iterations |
| Driver.DefaultSchedule | src/core/mod.rs:621-700 | 5 initial points and 10 iterations make 15 measurements, κ runs 2.5 − 0.2·k and ends at 0.7 |
| Driver.SetterUnits | src/core/mod.rs:830 | the setter argument lies in the i32 range and, for a period in range, is the period in 100 ns units truncated toward zero |
| Driver.SetterUnitsVersusKey | src/core/mod.rs:830 | the truncated setter argument equals the rounded aggregation key, or is one less exactly when the fractional part is at least one half |
| Driver.Classify | src/core/mod.rs:932-951 | no reading is Unreadable and only that; a NaN reading is Verified (it compares false with both thresholds); the verdict is Critical exactly for an infinite reading or a finite one more than 0.1 from the request |
| Driver.ClassifyFinite | src/core/mod.rs:932-951 | within 0.05 verified, in (0.05, 0.1] a mismatch warning, beyond 0.1 critical |
| Driver.RunDeltas | src/core/mod.rs:929-959 | a success keeps one delta per run; a failure is the resolution-mismatch error |
| Driver.RunDeltasAccepted | src/core/mod.rs:932-959 | the runs succeed exactly when none is critical, keeping every run's delta in order; otherwise the error is the (Other-kind) resolution mismatch |
| Driver.CollectDeltas | src/core/mod.rs:929-975 | the run loop returns the reference result of the runs |
| Driver.FindMeasurement | src/core/mod.rs:779-780 | the index found, if any, is that of one of the measurements |
| Driver.FindIsFirst | src/core/mod.rs:779-780 | the lookup finds nothing exactly when no measurement is strictly within the tolerance (0.0001 in the code), and otherwise the first one that is |
| Driver.DetailRows | src/core/mod.rs:777-786 | a success has one row per ranking entry; a failure is NotFound |
| Driver.DetailRowsFound | src/core/mod.rs:777-786 | the rows succeed exactly when every ranking entry has a match, and then hold one row per entry in ranking order, each with its first match |
| Driver.SaveDetailedRows | src/core/mod.rs:777-786 | the loop, for a given tolerance, returns the reference rows |
| Driver.AdjacentBucketsCollide | src/core/mod.rs:779-780 | the f64 period of bucket 5001 is the double nearest 0.5001 and lies less than 0.0001 above bucket 5000's 0.5, so at the code's tolerance its ranking entry gets the 0.5 ms row, and at half a bucket its own |
| Driver.NearGridPeriodFound | src/core/mod.rs:779-780 | with half a bucket as the tolerance and periods within 0.00001 of distinct grid points, a measurement's own period finds that measurement, every other one being at least 0.00008 away |
| Driver.RankedRowsFound | src/core/mod.rs:777-786 | for such periods and a ranking whose entry k carries the period of measurement perm[k], every entry gets the row of its own measurement |
| Driver.AggregatedRowsFound | src/core/mod.rs:737-786 | a ranking of the aggregated measurements never fails the half-bucket lookup, and each entry gets its own bucket |
| Helpers.ReadPlainLine | src/utils/helpers.rs:16-20 | an unset reading takes what the line yields; the `else if` loses nothing because the two prefixes are disjoint |
| Helpers.ScanPlainLines | src/utils/helpers.rs:12-25 | the loop with its early exit yields each reading from the first line that gives one |
| Helpers.ParseMeasurementOutput | src/utils/helpers.rs:8-28 | the parser's result is the reference reading, with InvalidData for non-UTF-8 input |
| Helpers.PlainAcceptedIff | src/utils/helpers.rs:15-27 | accepted exactly when some line starts with "Avg: " and some with "STDEV: ", each with a parseable remainder; otherwise InvalidData |
| Helpers.PlainValuesAreFirst | src/utils/helpers.rs:16-20 | each value comes from the first line whose remainder parses |
| Helpers.IndentedLineIgnored | src/utils/helpers.rs:16-19 | a line starting with whitespace is never read |
| Helpers.TrimmedReaderAcceptsIndent | src/core/mod.rs:262-277 | the trimming reader does accept the indented "Avg: " line |
| Helpers.SpacedValueRejected | src/utils/helpers.rs:17-19 | a second space after the colon makes the value unparseable |
| Helpers.PromptAnswer | src/utils/helpers.rs:40-45 | None exactly when the input is all whitespace; otherwise the input without its surrounding whitespace, a slice starting and ending with non-whitespace |
| Text.Trim | src/core/mod.rs:262 | the trimmed text is no longer than the input and neither starts nor ends with whitespace |
| Text.TrimIsSlice | src/core/mod.rs:262 | the trimmed line is a slice of the line with only whitespace cut from both ends |
| Text.TrimIdempotent | src/core/mod.rs:262 | trimming twice is trimming once |
| Text.Lines | src/core/mod.rs:261 | no line contains a line break |
| Text.LinesOfTerminated | src/core/mod.rs:261 | splitting lines joined by line breaks gives back those lines |
| Text.Tokens | src/core/mod.rs:136 | every token is a non-empty run of non-whitespace characters |
| Text.TokensOfSpaced | src/core/mod.rs:136 | splitting space-joined words gives back the words |
| Text.LowerChar | src/core/mod.rs:138-140 | a lowercased character is never an ASCII capital or KELVIN SIGN, it differs from the original exactly when the original is one of those, and it is a lowercase letter only if the original was a letter or KELVIN SIGN |
| Text.Lower | src/core/mod.rs:138-140 | lowercasing keeps the length, lowercases each character on its own, and leaves no ASCII capital and no KELVIN SIGN anywhere in the string |
| Text.LowerIdempotent | src/core/mod.rs:138-140 | lowercasing twice is lowercasing once |
| Text.LowerMatches | src/core/mod.rs:138 | lowercasing yields a lowercase ASCII word exactly when each character is that letter, its capital, or KELVIN SIGN for k |
| Text.ContainsIsFound | src/core/mod.rs:265 | `contains` holds exactly when a first occurrence exists |
| Text.SecondPieceFollowsFirst | src/core/mod.rs:267 | the second piece of a split starts after the first occurrence and reaches the next occurrence or the end |
| Utf8.Decode | src/core/mod.rs:254 | decoded text has no more characters than the input has bytes |
| Utf8.DecodeEncode | src/core/mod.rs:254 | decoding the UTF-8 encoding of any text gives back the text |
| Utf8.InvalidLeadRejected | src/utils/helpers.rs:9-10 | bytes starting with a continuation byte, 0xC0, 0xC1 or 0xF5 and above are not UTF-8 |
| Utf8.DecodeAscii | src/utils/helpers.rs:9 | ASCII bytes decode to the same characters |
| FloatText.Parse | src/core/mod.rs:270-282 | neither the empty text nor any text containing whitespace parses, so callers must trim first |
| FloatText.LiteralHasNoWhitespace | src/utils/helpers.rs:17-19 | a sign followed by a special word or a decimal literal contains no whitespace, so an untrimmed remainder such as " 1.5" is rejected |
| FloatText.ParseNatText | src/core/mod.rs:277 | a natural number's decimal text parses to that number |
| FloatText.ParseFixedPoint | src/core/mod.rs:270-282 | "a.b" with k fraction digits parses to a + b/10^k |
| RealMath.RoundHalfAway | src/core/mod.rs:1001 | the rounded value is within one half, ties going away from zero |
| RealMath.TruncateTowardZero | src/core/mod.rs:830 | the truncated value has the sign of x and is within one unit of x, toward zero |
| RealMath.Saturate | src/core/mod.rs:830 | the cast's clamp: the result is the point of the target range nearest to the value, so a value that fits is kept |

## Left out

- Process control, the measurement loop's helper processes, tokio timeouts, sleeps,
  progress bars, console output and the localization catalog are I/O;
  `measure_resolution_robust` is reduced to its verification rule over
  (delta, reported resolution) pairs (`Driver.RunDeltas`).
- `linear_exhaustive_search`: I/O-driven, and its point sequence depends on
  IEEE accumulation (`current += increment`), which an exact-real model
  would get wrong at the endpoint.
- `is_admin`, `disable_hpet`, `apply_registry_tweak`, the cache, prompt and
  printing of `check_hpet_status`, the placeholders `prompt_user`,
  `prompt_exit`, `cleanup_processes` and `is_admin` of src/utils/helpers.rs,
  src/main.rs and src/lib.rs: Win32, registry, stdin and wiring only.
- The serde validators `validate_positive_f64` and `validate_positive_i32`:
  thin wrappers around serde.
- File creation, `SystemTime` and `{:.4}` formatting in
  `save_detailed_results`; only the lookup and the row order are modelled.
- IEEE arithmetic: `f64` is `real`, so rounding, NaN and infinities inside
  the computations, the `partial_cmp(..).unwrap()` panic, the `unwrap_or(Equal)`
  and `is_nan`/`is_infinite` fallbacks in TOPSIS cannot arise.
  Parsed values do keep `inf` and `NaN` (`FloatText.Float`) so that the
  verification rule treats them as the code does.
- `RealMath.Sqrt` and `RealMath.Exp` are arbitrary functions with only their sign
  facts (√x ≥ 0, √0 = 0, √x > 0 for x > 0, eˣ > 0); no property here depends on more.
- Topsis.ColumnRange: the `f64::MAX` / `f64::MIN` seeds of the running
  min/max are replaced by the first row's entry, which gives the same result
  over reals.
- BayesianOptimizer.BayesianOptimizer.SuggestNext: the `f64::MAX` seed of the running best is
  replaced by taking the first grid point, which differs from the code only
  if every acquisition value were at least `f64::MAX`.
- BayesianOptimizer.BayesianOptimizer.constructor: requires a non-zero kernel width; the code
  accepts zero (the driver passes 15 % of the range), which only yields IEEE
  NaN or 0 weights.
- Statistics.FromSamples: the panic on empty samples is modelled as a
  precondition, and `Aggregation.Aggregate` and
  `Aggregation.Aggregated` in turn require every bucket's pool to be
  non-empty.
- Aggregation.Aggregate: the `HashMap`'s iteration order is unspecified; the
  model emits buckets in order of first appearance, one of the orders the
  code may produce. The counts, key distinctness and per-bucket contents
  proved do not depend on that choice. `Aggregation.AggregatedIdempotent`
  states equality in that order; the code's second aggregation returns the
  same buckets, possibly in another order.
- Aggregation.MeasureGroups is generic in the statistics function;
  `Aggregation.Aggregate` passes `Statistics.FromSamples`.
- BootConfig.CheckHpetStatus takes the already decoded output text; the lossy
  UTF-8 decoding that replaces invalid bytes is not modelled.
- Text.Lower: `to_lowercase` is modelled for ASCII letters and KELVIN SIGN
  (the only non-ASCII character whose lowercase is ASCII), others are left as they are;
  this decides every comparison against the ASCII keys.
- FloatText.Parse: decimal literals are parsed to their exact value with no
  rounding to `f64`; `inf`, `infinity` and `nan` in any case give the
  special values.
- Driver.SaveDetailedRows takes the lookup tolerance as a parameter. The
  code's 0.0001 is `Driver.SourceTolerance`. The lemmas that every ranking
  entry finds its own bucket (`Driver.NearGridPeriodFound`,
  `Driver.RankedRowsFound`, `Driver.AggregatedRowsFound`) are proved for half a
  bucket, `Driver.BucketTolerance`. At the code's tolerance they hold over
  exact reals only; with `f64` periods they fail for adjacent buckets.
  See "## Findings".
- Driver.RunDeltasAccepted: the critical mismatch is an `ErrorKind::Other`
  error in the code; the model names it `ResolutionMismatch`.

## Findings

| source | as written | input that shows it | evidently intended | confidence | as-written member | corrected member |
|---|---|---|---|---|---|---|
| src/core/mod.rs:779-780 | a ranking entry is matched to the first aggregated measurement strictly closer than 0.0001 ms, exactly one bucket width | buckets 5000 and 5001, in that order, with the `f64` periods 0.5 and 5001/10000 rounded to a double, which lie 9.999999999998899e-05 apart; the entry of 0.5001 ms gets the row of 0.5 ms | each entry gets its own bucket's row, which a tolerance of half a bucket (0.00005 ms) guarantees | medium: not executed; the `f64` values are derived exactly in the lemma | Driver.AdjacentBucketsCollide | Driver.NearGridPeriodFound |
