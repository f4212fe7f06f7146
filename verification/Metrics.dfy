/** The process-wide counters (src/core/metrics/mod.rs) that the modelled operations bump. */
module MetricsRegistry {

  class Metrics {
    var cacheHitsTotal: nat
    var cacheMissesTotal: nat
    var blockedTotal: nat

    constructor ()
      ensures cacheHitsTotal == cacheMissesTotal == blockedTotal == 0
    {
      cacheHitsTotal, cacheMissesTotal, blockedTotal := 0, 0, 0;
    }
  }
}
