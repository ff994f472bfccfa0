/** The record shared by the ranking, the optimiser and the aggregation
    (src/stats/timer_measurement.rs). */
module Measurement {
  import Statistics

  /** One benchmarked timer period: the period in milliseconds, the robust
      statistics of its sleep deltas and the deltas themselves. */
  datatype TimerMeasurement = TimerMeasurement(
    resolutionMs: real,
    statistics: Statistics.RobustStatistics,
    rawSamples: seq<real>)
}
