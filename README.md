# Real-time driving coach, modelled in Dafny

The coaching engine turns a stream of vehicle telemetry into coaching cues.
Each sample carries a GPS fix, speed, power, voltage and current. The engine
does the following, in order:

1. It filters the sample and resolves power through a fallback chain.
2. It fixes a GPS origin once.
3. It projects the position onto the track polyline and keeps a time-pruned buffer.
4. It smooths speed and power with a rolling median.
5. It classifies the position into a turn, a stop-line approach or a
   straight, with distance hysteresis.
6. It compares the smoothed values with the zone's learned optimum.
7. It derives a green/red driving state and whether the driver is responding.
8. It emits at most one cue, behind three cooldowns: per cue key, per zone
   and per cue type.

The project models that engine:

- `Coaching.Coach` is a class with the session's own fields.
  - `Ingest` is proved equal to a pure step function, `IngestStep`.
  - The engine's behaviour is stated as lemmas about that step function.
- `Zones.AssignZoneId` is the loop-based zone classifier. It is proved equal
  to a recursive reference classifier, `Zones.Classify`.
- `TrackMap.ProjectToPolyline` is the arg-min scan over track segments. It is
  proved equal to `TrackMap.ProjectionOf`, which is defined by the earliest
  least-cost segment.
- `TrackMap.ForwardDist` is the forward distance on the closed loop.

What each module covers:

| module | file | contents |
|---|---|---|
| `Wrappers` | wrappers.dfy | `Option` |
| `Texts` | texts.dfy | the printed form of numbers, the cue-type prefix (text before the first `_`), substring search |
| `ArgMin` | argmin.dfy | earliest strict minimum over optional costs, shared by the segment scan and the stop-line scan |
| `TrackMap` | track_map.dfy | local frame, polyline projection, forward distance |
| `Zones` | zones.dfy | turn and stop-line tables, zone ids, classification |
| `CoachConfig` | config.dfy | the configuration record and its deployed values |
| `Telemetry` | telemetry.dfy | sample, sanity filters, power chain |
| `SampleBuffer` | sample_buffer.dfy | buffered sample, pruning, smoothing window |
| `Smoothing` | smoothing.dfy | sort and median |
| `CueEngine` | cue_engine.dfy | evaluation, responding, cue keys, cue record, cooldown gates |
| `Coaching` | coach.dfy | zone memory, hysteresis, the session step functions, class `Coach` |

## Model

| member | source | states |
|---|---|---|
| Coaching.Coach.constructor | src/coach.py:13-32 | A new coach holds its configuration, track, stop lines, turns and zone memory. It has no origin, an empty buffer, no remembered zone and empty cue maps. The session invariant holds. |
| Coaching.Coach.Ingest | src/coach.py:34-304 | The cue returned and the new session state are exactly those of `IngestStep` on the old state. The session invariant is preserved. |
| Coaching.Coach.Accept | src/coach.py:104-304 | For a validated reading, the cue and the new state are exactly those of `AcceptStep`. |
| Coaching.AdmitStep | src/coach.py:104-128 | After admission the origin is set and the buffer is never empty: the newest sample always survives pruning and is last. So the cold-start check sees at least one sample whatever the configured count. |
| Coaching.Coach.Admit | src/coach.py:104-126 | Sets the origin if it is unset, appends the projected sample, then runs the prune loop. The new state equals `AdmitStep`, and the invariant is kept. |
| Coaching.Coach.Locate | src/coach.py:108-120 | The buffered sample is the reading taken into the local frame around the origin and projected onto the track. |
| Coaching.Coach.Advise | src/coach.py:132-304 | On a warm buffer, the cue and state equal `AdviseStep`: median smoothing, zone tracking, then the zone lookup. |
| Coaching.Coach.TrackZone | src/coach.py:138-161 | The remembered zone becomes the hysteresis step of the raw classification. The returned zone is the one now remembered. |
| Coaching.Coach.Consult | src/coach.py:163-176 | An unknown zone, or one below the confidence floor, returns no cue and changes nothing. Otherwise the result is `EmitStep`. |
| Coaching.Coach.RecordEvaluation | src/coach.py:173-226 | The evaluation uses the zone's optimum and its previous record. The zone's state and value records are overwritten with the new driving state and smoothed values. |
| Coaching.Coach.RateLimit | src/coach.py:240-262 | Passes exactly when all three cooldown gates pass. On a pass, all three clocks are stamped with `now`. On a drop, no clock changes. |
| Coaching.Coach.Emit | src/coach.py:178-304 | In an accepted zone, the cue and the new state equal `EmitStep`. |
| Coaching.ZoneEntry.OptPowerW | src/coach.py:174-175 | The optimum power in watts is the stored micro-watt value divided by 10^6. |
| Coaching.ConfirmZone | src/coach.py:147-155 | The previous zone is kept exactly when it differs from the raw zone id and the car is closer than the hysteresis distance to the last change. Otherwise the raw zone stands. |
| Coaching.UpdateZoneTrack | src/coach.py:157-161 | The hysteresis memory changes only when the confirmed id differs from the remembered one. It then records the current arc-length. |
| Coaching.HysteresisHolds | src/coach.py:147-161 | Observations that all stay within the hysteresis distance of the last change cause no zone change, whatever their raw zones. |
| Coaching.NoFlicker | src/coach.py:147-161 | Positions oscillating in a band narrower than the hysteresis distance cause at most one confirmed zone change. |
| Coaching.SmoothedWithinWindow | src/coach.py:132-136 | Each smoothed median lies within any bounds that hold the speeds or the powers of the last `min(SMOOTH_WIN, len)` samples. |
| Coaching.AdmitKeepsInvariant | src/coach.py:104-126 | Admitting a reading keeps the session invariant. The buffer is non-empty only behind an origin and spans at most the horizon. |
| Coaching.EmitRecords | src/coach.py:224-262 | Emission overwrites only the zone's records and the cooldown clocks. The origin, buffer and remembered zone are untouched. |
| Coaching.EmitKeepsInvariant | src/coach.py:178-304 | Emission (evaluation, rate limiting, cue building) keeps the session invariant. |
| Coaching.AdviseKeepsInvariant | src/coach.py:132-304 | Advice (smoothing, zone tracking, lookup, emission) keeps the session invariant. |
| Coaching.AdviseKeepsBuffer | src/coach.py:132-304 | Advice never changes the origin or the buffer. |
| Coaching.AdviseCue | src/coach.py:163-262 | Advice emits exactly when the confirmed zone is trusted, a threshold is breached and all three gates pass. |
| Coaching.AcceptKeepsAdmitted | src/coach.py:104-130 | After a validated reading, the origin and buffer are those of the append-and-prune step. |
| Coaching.IngestKeepsInvariant | src/coach.py:34-304 | Every sample, accepted or dropped, keeps the session invariant. |
| Coaching.DroppedSampleChangesNothing | src/coach.py:50-102 | A sample is dropped with no cue and an unchanged session when latitude, longitude or speed is missing, when speed is out of range, or when power does not resolve. |
| Coaching.OriginFixedOnce | src/coach.py:104-106 | The first validated sample fixes the GPS origin to its own fix. A set origin never changes. |
| Coaching.BufferAfterSample | src/coach.py:121-126 | The new buffer is a suffix of the old buffer plus the new sample, and the new sample is last. Every dropped sample was more than the horizon older. The oldest remaining sample is within the horizon. |
| Coaching.ColdStartOnlyBuffers | src/coach.py:128-130 | Below the minimum sample count there is no cue, and the remembered zone, per-zone records and clocks are unchanged. |
| Coaching.ZoneFollowsHysteresis | src/coach.py:138-161 | On a warm step, the remembered zone is the hysteresis step of the raw classification of the newest sample's arc-length. |
| Coaching.UntrustedZoneSilent | src/coach.py:163-171 | An unknown or low-confidence zone yields no cue. The per-zone records and all three clocks are unchanged. |
| Coaching.EvaluationRecorded | src/coach.py:224-226 | In a trusted zone, every evaluation overwrites the zone's state and value records, whether or not a cue follows. |
| Coaching.CueExactlyWhenBreachedAndCooled | src/coach.py:228-262 | A cue is emitted if and only if the sample is warm, the zone is trusted, a threshold is breached and all three gates pass. Without a cue the clocks do not move. |
| Coaching.EmittedCueStampsClocks | src/coach.py:237-304 | An emitted cue is the record built from the evaluation's key and the zone's reference. All three clocks are stamped with `now`. |
| Coaching.Run | src/coach.py:34-304 | The fold of `IngestStep` over successive samples. Its own contract states only that there are no more cues than samples. What the run promises is stated by `RunSpaced` and `NoCueRepeatWithinCooldown`. |
| Coaching.StampKeepsKeySpaced | src/coach.py:240-262 | A cue that passed the gates, followed by the stamp, keeps every earlier cue covered by its key clock, and keeps same-key cues spaced by the same-cue cooldown. |
| Coaching.StampKeepsZoneSpaced | src/coach.py:246-262 | The same for the zone clocks and the zone cooldown. |
| Coaching.IngestKeepsSpaced | src/coach.py:228-262 | One sample keeps the spacing facts of all cues emitted so far. |
| Coaching.RunSpaced | src/coach.py:240-262 | Over any run of samples, the final clocks cover every emitted cue, and same-key or same-zone cues are spaced by their cooldowns. |
| Coaching.NoCueRepeatWithinCooldown | src/coach.py:240-262 | Across any run of `Ingest` calls, no cue key is emitted twice within MIN_SECONDS_BETWEEN_SAME_CUE and no zone gets two cues within CUE_COOLDOWN_BY_ZONE. |
| Telemetry.Abs | src/coach.py:93 | The absolute value: non-negative and equal to x or -x. |
| Telemetry.Filter | src/coach.py:65-89 | A present value outside its bounds becomes absent. Anything else passes unchanged. |
| Telemetry.ResolvePower | src/coach.py:82-102 | Provided in-range power is used as is. Otherwise power is voltage times the magnitude of current, if both passed their own filters and the product is in range. Any resolved power lies within the power bounds. |
| Telemetry.Validate | src/coach.py:40-102 | Rejects exactly the samples with a missing fix or speed, an out-of-range speed, or unresolved power. An accepted reading carries the timestamp, the fix, the speed in m/s (km/h / 3.6), the resolved power and the filtered current. |
| SampleBuffer.PrunedFacts | src/coach.py:123-126 | Pruning keeps a suffix and drops only samples older than the horizon. It stops at the first fresh sample. With a non-negative horizon, a newest sample stamped with the prune time survives. |
| SampleBuffer.Prune | src/coach.py:123-126 | The while/pop-left loop yields the `Pruned` buffer. |
| SampleBuffer.Window | src/coach.py:133-134 | `list(buf)[-win:]` is the last `min(win, len)` samples. |
| SampleBuffer.Speeds | src/coach.py:135 | The speeds of the window, in order. |
| SampleBuffer.Powers | src/coach.py:136 | The powers of the window, in order. |
| Smoothing.Insert | src/coach.py:135-136 | Inserting into a sorted sequence keeps it sorted and adds exactly one element. |
| Smoothing.Sort | src/coach.py:135-136 | The result is sorted and is a permutation of the input. |
| Smoothing.MedianWithinBounds | src/coach.py:135-136 | The median of a non-empty sequence lies within any bounds that hold all of its values. |
| Smoothing.MedianOfConstant | src/coach.py:135-136 | The median of equal values is that value. |
| CueEngine.ImprovedIff | src/coach.py:216-218 | A value improved exactly when it fell and had been above the optimum. Falling past the optimum still counts. |
| CueEngine.Responding | src/coach.py:204-219 | The driver is responding exactly when the zone's previous state was red and either the state is now base-green or speed or power improved. |
| CueEngine.Evaluate | src/coach.py:185-222 | Gives the speed and power checks with their margins. No candidate means both are fine. SPEED_HIGH wins a speed breach. Otherwise a power breach gives the zone type's power key. The base state is green iff both checks pass. The driving state is green iff the base state is green or the driver is responding. |
| CueEngine.SpeedHighExample | src/coach.py:185-188 | 27 m/s against a 25 m/s optimum with a 5% margin is too fast. |
| CueEngine.TurnPowerSpikeExample | src/coach.py:190-194 | A power breach at acceptable speed in a turn gives TURN_POWER_SPIKE. |
| CueEngine.RespondingExample | src/coach.py:213-222 | Going from red at 30 m/s to 28 m/s against a 25 m/s optimum is responding, so the state is green. |
| CueEngine.ReasonOfEveryKey | src/coach.py:270-277 | Every emitted key explains itself by a speed or a power difference. The "within optimal" and "threshold exceeded" reasons never occur. |
| CueEngine.TypePrefixOfKey | src/coach.py:253 | The type prefixes of the four keys are SPEED, TURN, STOP and POWER. |
| CueEngine.TypePrefixesDistinct | src/coach.py:252-257 | Two keys share a type cooldown exactly when they are the same key. |
| CueEngine.PercentAbove | src/coach.py:267 | For a positive reference, the percentage times the reference is the excess times 100. Otherwise it is 0. |
| CueEngine.MakeCue | src/coach.py:264-304 | The cue record carries the time, the zone, its confidence and optimum state label, the driving state, speeds in km/h, powers, both differences, key, text and reason. The legacy fields equal the canonical ones. |
| CueEngine.Stamp | src/coach.py:259-262 | After a pass, the key, zone and type clocks read `now`, and each map gains exactly that key. Every other key's, zone's and type's clock is unchanged. |
| Texts.TypePrefix | src/coach.py:253 | The text before the first `_`, or the whole key when it has none. |
| Texts.TypePrefixBeforeUnderscore | src/coach.py:253 | A key made of an underscore-free head and a rest starting with `_` has that head as its prefix. |
| Texts.NatText | src/zones.py:27 | The decimal text of a natural number is a non-empty string of digits. |
| Texts.IntText | src/zones.py:42 | The decimal text of an integer is non-empty and starts with `-` exactly for negatives. |
| Texts.NatTextRoundTrip | src/zones.py:27 | Reading back the decimal text of n gives n. |
| Texts.NatTextInjective | src/zones.py:27 | Two naturals print the same exactly when they are equal. |
| Texts.IntTextInjective | src/zones.py:42 | Two integers print the same exactly when they are equal. |
| Zones.ZoneId.Text | src/zones.py:27-44 | Turn ids print as `TURN_…`. Stop ids print as `STOP_…_APPROACH`. The straight prints as `STRAIGHT`. |
| Zones.ZoneTextInjective | src/zones.py:27-44 | Two zone ids print the same exactly when they are equal, so maps keyed by zone id agree with the source's dictionaries keyed by the printed id. |
| Zones.FirstTurn | src/zones.py:19-27 | The lowest-indexed turn from `i` on that contains the position, if any. No earlier one contains it. |
| Zones.StopCosts | src/zones.py:32-37 | A stop line is a candidate exactly when its forward distance d satisfies 0 < d ≤ the approach window. Its cost is that d. |
| Zones.Classify | src/zones.py:6-44 | Turn first, then the nearest stop line ahead, then straight. The zone type always matches the id's kind. |
| Zones.AssignZoneId | src/zones.py:6-44 | The turn loop with early return and the best-stop loop compute exactly `Classify`. |
| Zones.TurnWins | src/zones.py:19-27 | When turn i is the first turn containing s, the zone is TURN with number i+1, and no stop line is considered. |
| Zones.TurnZoneMeansInTurn | src/zones.py:19-27 | A TURN zone names a turn that contains s, and no earlier turn contains it. |
| Zones.StopApproachWins | src/zones.py:29-42 | With no turn containing s, the nearest candidate stop line ahead (earliest row on ties) names the zone. |
| Zones.StopZoneMeansNearestAhead | src/zones.py:29-42 | A STOP_APPROACH zone means no turn matched. It names a candidate line at least as near as every other candidate. |
| Zones.StraightIffNothingMatches | src/zones.py:41-44 | STRAIGHT if and only if no turn contains s and no stop line is a candidate. |
| Zones.OnStopLineNotApproaching | src/zones.py:37 | A car standing exactly on a stop line is not approaching it. |
| ArgMin.EarliestMin | src/track_map.py:43 | The chosen index is in range and has a cost. |
| ArgMin.EarliestMinCorrect | src/track_map.py:26-49 | There is no result exactly when no index has a cost. Otherwise the result is the earliest index of least cost. |
| ArgMin.EarliestMinUnique | src/zones.py:38-39 | The earliest least-cost index is the result of the scan. |
| TrackMap.GpsToLocalXY | src/track_map.py:7-15 | The origin maps to (0, 0). |
| TrackMap.Clamp01 | src/track_map.py:37 | The result lies in [0, 1], and is the identity inside that range. |
| TrackMap.SegmentParam | src/track_map.py:36-37 | The segment parameter lies in [0, 1]. |
| TrackMap.Distance2At | src/track_map.py:39-41 | The squared distance is non-negative. |
| TrackMap.ArcAt | src/track_map.py:45-46 | The interpolated arc-length lies between the segment's two vertex arc-lengths. |
| TrackMap.FitSegment | src/track_map.py:31-49 | A segment is skipped exactly when its squared length is below 1e-9. Otherwise its fit has a non-negative distance and an arc-length between its vertices. Its side is +1 iff the cross product is ≥ 0, else −1. |
| TrackMap.SegmentCosts | src/track_map.py:26-43 | One cost per segment: absent for skipped segments, else the segment's squared distance. |
| TrackMap.WinningSegment | src/track_map.py:43-49 | The winner is a non-degenerate segment of the track. |
| TrackMap.ProjectToPolyline | src/track_map.py:17-52 | The scan loop's result equals `ProjectionOf`: the fit of the earliest least-distance segment, or (0, +1, ∞) when none qualifies. |
| TrackMap.ProjectionFromEarliestNearest | src/track_map.py:31-49 | A non-degenerate segment that is nearest, and strictly nearer than every earlier one, is the winner and supplies the projection. |
| TrackMap.ProjectionIsNearest | src/track_map.py:43 | The winner's squared distance is no larger than any other's, and strictly smaller than every earlier non-degenerate one's. |
| TrackMap.FitIsClosest | src/track_map.py:35-41 | A non-degenerate segment's fit, at the clamped parameter, is its closest point: no parameter in [0, 1] gives a smaller squared distance. |
| TrackMap.ProjectionIsClosestPoint | src/track_map.py:31-49 | The projection is the nearest point of the polyline. When some segment is non-degenerate, the distance is finite and no point of any non-degenerate segment is nearer. |
| TrackMap.ProjectionWhenNoSegment | src/track_map.py:22-24 | The distance stays infinite exactly when every segment is degenerate, and then the projection is s = 0 with sign +1. |
| TrackMap.ProjectionOnWinningSegment | src/track_map.py:45-49 | s and the side come from the winning segment: s lies between its vertices, and the side follows its cross product. |
| TrackMap.ProjectionWithinTrack | src/track_map.py:45-46 | On a track whose arc-lengths start at 0 and never decrease, every projection lies between 0 and the last vertex's arc-length, and so within the loop length L when the last vertex's arc-length does not exceed L. |
| TrackMap.FitAtSegmentStart | src/track_map.py:35-49 | A segment's own start vertex fits it at distance 0, that vertex's arc-length, side +1. |
| TrackMap.FitAtSegmentEnd | src/track_map.py:35-49 | A segment's own end vertex fits it with t = 1, at distance 0, at that vertex's arc-length, on the + side. |
| TrackMap.ProjectFirstVertex | src/track_map.py:17-52 | With a non-degenerate first segment, the first vertex projects to (ss[0], +1, 0). |
| TrackMap.ProjectVertex | src/track_map.py:17-52 | Projecting vertex i ≥ 1, the end of a non-degenerate segment i−1, finds distance 0. When no segment before i−1 passes through that vertex, the projection is exactly (ss[i], +1, 0). |
| TrackMap.ForwardDist | src/track_map.py:54-58 | The result is target − now, or that plus L. For both positions in [0, L), it lies in [0, L). |
| TrackMap.ForwardDistReachesTarget | src/track_map.py:54-58 | Going the forward distance from the current position reaches the target, unwrapped by one lap when needed. The distance is 0 exactly at the target. |

## Left out

- MQTT, the broker connection and the heartbeat loop are I/O and concurrency.
- Loading artifacts (JSON and parquet files), the zone-memory generator and the offline replay are not modelled. The track, stop lines, turns and zone memory are constructor inputs.
- `time.time()` (src/coach.py:238) is the `now` parameter of `Ingest`.
- The `timestamp or ts` default at src/coach.py:42 is not modelled: the timestamp is a required field of the sample.
- `np.cos` is a function value passed to the constructor, and `np.deg2rad` uses a fixed π.
- Coaching.NoCueRepeatWithinCooldown: proved for non-negative same-cue and zone cooldowns (the deployed values are 2 s and 3 s). With a negative cooldown the spacing bound is not promised.
- TrackMap.GpsToLocalXY: its contract states only that the origin maps to (0, 0), because the cosine is an opaque function value.
- `np.sqrt` (src/track_map.py:51) is not taken. The signed lateral offset `d_m` is kept as its side sign and squared distance, and `+inf` is `None`.
- Numbers are exact reals, not IEEE doubles, and there are no NaNs.
- Debug `print` calls are left out.
- The `:.1f` formatting of the reason text is left out. The reason is a datatype that records which branch was taken, with its number.
- Zone ids are a datatype (`TurnId`, `StopApproachId`, `StraightId`). `ZoneId.Text` gives the printed form.
- The pandas tables are sequences, and the `iterrows` index is the sequence position.
- The configuration is a typed record. `CoachConfig.Config.Valid` requires a non-negative buffer horizon and a smoothing window of at least 1. With a window of 0 the source's `[-0:]` would smooth over the whole buffer. Any cold-start count is allowed: the newest sample always survives pruning, so a count of at most 1 acts as 1.
- Power from voltage and current is V·|I|, exactly as src/coach.py:93 computes it, with no unit scaling.
- Behaviour kept as the source has it:
  - The hysteresis distance is a plain difference of arc-lengths, with no wrap at 0/L.
  - The remembered zone and the buffer are updated even when the zone is then rejected.
  - The check at src/coach.py:230 is subsumed by the one at src/coach.py:234; `Coaching.Coach.Emit` keeps both.
  - The `DRIVING_OPTIMAL` and "threshold exceeded" reason branches are unreachable (`CueEngine.ReasonOfEveryKey`).
  - "Improved" also counts falling past the optimum (`CueEngine.ImprovedIff`).
