/** The engine's typed configuration. */
module CoachConfig {

  datatype Config = Config(
    // sanity bounds on one telemetry sample
    speedMinKmh: real, speedMaxKmh: real,
    voltageMinV: real, voltageMaxV: real,
    currentMinA: real, currentMaxA: real,
    powerMinW: real, powerMaxW: real,
    // buffering and smoothing
    bufferSeconds: real, smoothWin: int, minSamplesForCue: int,
    // zones and references
    stopApproachM: real, zoneHysteresisM: real, confidenceMin: real,
    // cue thresholds
    speedMarginPct: real, powerMarginW: real,
    // rate limiting, in wall-clock seconds
    minSecondsBetweenSameCue: real, cueCooldownByZone: real, cueCooldownByType: real)
  {
    /** The documented ranges: a non-negative horizon and a smoothing window
        of at least one sample. Any cold-start count is allowed; one of at
        most 1 acts as 1, since the newest sample always survives pruning. */
    predicate Valid() {
      bufferSeconds >= 0.0 && smoothWin >= 1
    }
  }

  /** The values the deployed engine runs with. */
  const Defaults: Config := Config(
    0.0, 200.0,
    0.0, 500.0,
    -100.0, 200.0,
    -1000.0, 5000.0,
    20.0, 7, 10,
    80.0, 5.0, 0.4,
    0.05, 30.0,
    2.0, 3.0, 2.0)
}
