/** The coaching session: one object owning all per-session state, and its
    `Ingest` step that turns one telemetry sample into a cue or nothing. */
module Coaching {
  import opened Wrappers
  import opened CoachConfig
  import opened Telemetry
  import opened TrackMap
  import opened Zones
  import opened SampleBuffer
  import Smoothing
  import opened CueEngine

  /** A zone's optimum as the zone-memory table stores it: speed in m/s,
      power in micro-watts, and the optional state label and confidence. */
  datatype ZoneEntry = ZoneEntry(optSpeedMps: real, optPowerMicroW: real,
                                 optState: Option<string>, confidence: Option<real>) {

    /** A missing confidence counts as full confidence. */
    function Confidence(): real { confidence.GetOr(1.0) }

    /** The optimum power in watts. */
    function OptPowerW(): (w: real)
      ensures w * 1000000.0 == optPowerMicroW
    {
      optPowerMicroW / 1000000.0
    }

    function OptStateLabel(): string { optState.GetOr("UNKNOWN") }
  }

  // ---------------- zone hysteresis ----------------

  /** The confirmed zone and the arc-length where it was entered. */
  datatype ZoneTrack = ZoneTrack(id: ZoneId, zoneType: ZoneType, s: real)

  /** Keeps the previous zone when the raw classification changed but the car
      has moved less than `hysteresis` metres since the last confirmed change
      (a plain difference of arc-lengths, with no wrap at 0/L). */
  function ConfirmZone(last: Option<ZoneTrack>, raw: (ZoneType, ZoneId), s: real, hysteresis: real)
    : (r: (ZoneType, ZoneId))
    ensures r == raw || (last.Some? && r == (last.value.zoneType, last.value.id))
    ensures r != raw <==> last.Some? && last.value.id != raw.1 && Abs(s - last.value.s) < hysteresis
  {
    if last.Some? && last.value.id != raw.1 && Abs(s - last.value.s) < hysteresis
    then (last.value.zoneType, last.value.id)
    else raw
  }

  /** The hysteresis memory changes only when the confirmed zone differs from
      the remembered one, and then records the current position. */
  function UpdateZoneTrack(last: Option<ZoneTrack>, zone: (ZoneType, ZoneId), s: real)
    : (r: Option<ZoneTrack>)
    ensures r.Some? && r.value.id == zone.1
    ensures last.None? || last.value.id != zone.1 ==> r == Some(ZoneTrack(zone.1, zone.0, s))
    ensures last.Some? && last.value.id == zone.1 ==> r == last
  {
    if last.None? || last.value.id != zone.1 then Some(ZoneTrack(zone.1, zone.0, s)) else last
  }

  /** One position with its raw classification. */
  datatype Observation = Observation(s: real, raw: (ZoneType, ZoneId))

  /** The hysteresis memory after one observation. */
  function ZoneStep(last: Option<ZoneTrack>, o: Observation, hysteresis: real): Option<ZoneTrack> {
    UpdateZoneTrack(last, ConfirmZone(last, o.raw, o.s, hysteresis), o.s)
  }

  /** The number of confirmed zone changes over a run of observations. */
  function Transitions(last: Option<ZoneTrack>, obs: seq<Observation>, hysteresis: real): nat
    decreases |obs|
  {
    if |obs| == 0 then 0
    else
      var next := ZoneStep(last, obs[0], hysteresis);
      (if next != last then 1 else 0) + Transitions(next, obs[1..], hysteresis)
  }

  /** Every observation within the hysteresis distance of the remembered
      position leaves the memory as it is. */
  lemma {:induction false} HysteresisHolds(t: ZoneTrack, obs: seq<Observation>, hysteresis: real)
    requires forall i :: 0 <= i < |obs| ==> Abs(obs[i].s - t.s) < hysteresis
    ensures Transitions(Some(t), obs, hysteresis) == 0
  {
    if |obs| > 0 {
      assert ZoneStep(Some(t), obs[0], hysteresis) == Some(t);
      HysteresisHolds(t, obs[1..], hysteresis);
    }
  }

  /** Positions oscillating inside a band narrower than the hysteresis
      distance produce at most one confirmed zone change, whatever their raw
      classifications. */
  lemma {:induction false} NoFlicker(last: Option<ZoneTrack>, obs: seq<Observation>, hysteresis: real)
    requires forall i, j :: 0 <= i < |obs| && 0 <= j < |obs| ==> Abs(obs[i].s - obs[j].s) < hysteresis
    ensures Transitions(last, obs, hysteresis) <= 1
  {
    if |obs| > 0 {
      var next := ZoneStep(last, obs[0], hysteresis);
      if next == last {
        NoFlicker(last, obs[1..], hysteresis);
      } else {
        assert next.value.s == obs[0].s;
        forall i | 0 <= i < |obs[1..]| ensures Abs(obs[1..][i].s - next.value.s) < hysteresis {
          assert obs[1..][i] == obs[i + 1];
        }
        HysteresisHolds(next.value, obs[1..], hysteresis);
      }
    }
  }

  // ---------------- the session ----------------

  /** What a session is built with and never changes: the configuration,
      the track, the stop lines, the turn segments, the zone-memory table
      and the platform cosine used by the local projection. */
  datatype Environment = Environment(
    cfg: Config, track: Track, stopLines: seq<StopLine>, turns: seq<TurnSegment>,
    zoneMemory: map<ZoneId, ZoneEntry>, cos: real -> real)
  {
    predicate Valid() { cfg.Valid() && track.Valid() }
  }

  /** Everything a session remembers between samples: the GPS origin, the
      sample buffer, the hysteresis memory, the per-zone driving states and
      smoothed values of the last evaluation, and the cooldown clocks. */
  datatype Session = Session(
    origin: Option<(real, real)>,
    buf: seq<BufferedSample>,
    lastZone: Option<ZoneTrack>,
    states: map<ZoneId, DrivingState>,
    values: map<ZoneId, (real, real)>,
    clocks: Cooldowns)

  /** A buffer is only ever non-empty behind an origin and spans at most the
      time horizon; the remembered zone's type matches its id; the per-zone
      records are written in pairs. */
  predicate SessionInvariant(cfg: Config, st: Session) {
    && (|st.buf| > 0 ==> st.origin.Some?)
    && (|st.buf| > 0 ==> st.buf[|st.buf| - 1].ts - st.buf[0].ts <= cfg.bufferSeconds)
    && (st.lastZone.Some? ==> st.lastZone.value.zoneType == st.lastZone.value.id.Kind())
    && st.states.Keys == st.values.Keys
  }

  /** The invariant says nothing about the cooldown clocks. */
  lemma InvariantIgnoresClocks(cfg: Config, st: Session, c: Cooldowns)
    requires SessionInvariant(cfg, st)
    ensures SessionInvariant(cfg, st.(clocks := c))
  {
  }

  /** The per-zone record that the responding check compares against, when
      both halves of it are present. */
  function PrevFor(states: map<ZoneId, DrivingState>, values: map<ZoneId, (real, real)>, zone: ZoneId)
    : (p: Option<PrevCue>)
    ensures p.Some? <==> zone in states && zone in values
    ensures p.Some? ==> p.value == PrevCue(states[zone], values[zone].0, values[zone].1)
  {
    if zone in values && zone in states then Some(PrevCue(states[zone], values[zone].0, values[zone].1))
    else None
  }

  /** The buffered form of a reading, projected around origin `o`. */
  function SampleFor(env: Environment, r: Reading, o: (real, real)): BufferedSample
    requires env.track.Valid()
  {
    var xy := GpsToLocalXY(r.lat, r.lon, o.0, o.1, env.cos);
    var p := ProjectionOf(env.track, xy.0, xy.1);
    BufferedSample(r.ts, r.lat, r.lon, xy.0, xy.1, p.s, p.side, p.dist2, r.speedMps, r.powerW, r.currentA)
  }

  /** Median speed and power over the smoothing window at the buffer's end. */
  function Smoothed(cfg: Config, b: seq<BufferedSample>): (real, real)
    requires cfg.Valid() && |b| > 0
  {
    var w := Window(b, cfg.smoothWin);
    (Smoothing.Median(Speeds(w)), Smoothing.Median(Powers(w)))
  }

  /** Each smoothed value lies within any bounds that hold the corresponding
      readings of the last `min(smoothWin, |b|)` samples. */
  lemma SmoothedWithinWindow(cfg: Config, b: seq<BufferedSample>, lo: (real, real), hi: (real, real))
    requires cfg.Valid() && |b| > 0
    requires forall j :: 0 <= j < |Window(b, cfg.smoothWin)| ==>
               lo.0 <= Window(b, cfg.smoothWin)[j].speedMps <= hi.0
    requires forall j :: 0 <= j < |Window(b, cfg.smoothWin)| ==>
               lo.1 <= Window(b, cfg.smoothWin)[j].powerW <= hi.1
    ensures lo.0 <= Smoothed(cfg, b).0 <= hi.0
    ensures lo.1 <= Smoothed(cfg, b).1 <= hi.1
  {
    var w := Window(b, cfg.smoothWin);
    Smoothing.MedianWithinBounds(Speeds(w), lo.0, hi.0);
    Smoothing.MedianWithinBounds(Powers(w), lo.1, hi.1);
  }

  /** A zone has a reference the engine trusts. */
  predicate Accepted(env: Environment, zone: ZoneId) {
    zone in env.zoneMemory && env.zoneMemory[zone].Confidence() >= env.cfg.confidenceMin
  }

  /** The evaluation of the smoothed readings in an accepted zone, against
      the zone's previous record. */
  function EvaluationFor(env: Environment, zone: ZoneTrack, sm: (real, real), st: Session): Evaluation
    requires Accepted(env, zone.id)
  {
    var ref := env.zoneMemory[zone.id];
    CueEngine.Evaluate(env.cfg, zone.zoneType, sm.0, sm.1, ref.optSpeedMps, ref.OptPowerW(),
                       PrevFor(st.states, st.values, zone.id))
  }

  /** Admission: fix the GPS origin if unset, project the reading, append it
      and prune the buffer against its timestamp. */
  function AdmitStep(env: Environment, st: Session, r: Reading): (st': Session)
    requires env.Valid()
    ensures st'.origin.Some? && |st'.buf| > 0
    ensures st'.buf[|st'.buf| - 1] == SampleFor(env, r, st'.origin.value)
  {
    var o := if st.origin.Some? then st.origin.value else (r.lat, r.lon);
    PrunedFacts(st.buf + [SampleFor(env, r, o)], r.ts, env.cfg.bufferSeconds);
    st.(origin := Some(o),
        buf := Pruned(st.buf + [SampleFor(env, r, o)], r.ts, env.cfg.bufferSeconds))
  }

  /** Emission, in an accepted zone: evaluate and overwrite the zone's record, suppress
      when nothing is breached, apply the three cooldown gates, stamp the
      clocks and build the cue. */
  function EmitStep(env: Environment, zone: ZoneTrack, sm: (real, real), st: Session, now: real)
    : (Option<Cue>, Session)
    requires Accepted(env, zone.id)
  {
    var e := EvaluationFor(env, zone, sm, st);
    var recorded := st.(states := st.states[zone.id := e.drivingState],
                        values := st.values[zone.id := sm]);
    if e.candidate.None? && e.drivingState == Green && e.baseState == Green && !e.responding then
      (None, recorded)
    else if e.candidate.None? then
      (None, recorded)
    else if !Passes(env.cfg, st.clocks, e.candidate.value, zone.id, now) then
      (None, recorded)
    else
      var ref := env.zoneMemory[zone.id];
      (Some(MakeCue(now, zone.id, zone.zoneType, ref.Confidence(), ref.OptStateLabel(), e,
                    e.candidate.value, sm.0, sm.1, ref.optSpeedMps, ref.OptPowerW())),
       recorded.(clocks := Stamp(st.clocks, e.candidate.value, zone.id, now)))
  }

  /** Advice, on a warm buffer: smooth, classify the newest position with
      hysteresis, and go on only in a zone with a trusted reference. */
  function AdviseStep(env: Environment, st: Session, now: real): (Option<Cue>, Session)
    requires env.Valid() && |st.buf| > 0
  {
    var s := st.buf[|st.buf| - 1].s;
    var raw := Classify(s, env.stopLines, env.turns, env.track.length, env.cfg.stopApproachM);
    var zone := ZoneStep(st.lastZone, Observation(s, raw), env.cfg.zoneHysteresisM);
    var tracked := st.(lastZone := zone);
    if !Accepted(env, zone.value.id) then (None, tracked)
    else EmitStep(env, zone.value, Smoothed(env.cfg, st.buf), tracked, now)
  }

  /** Admission and advice for a reading that passed validation; a buffer shorter than
      the minimum sample count stops after buffering. */
  function AcceptStep(env: Environment, st: Session, r: Reading, now: real): (Option<Cue>, Session)
    requires env.Valid()
  {
    var admitted := AdmitStep(env, st, r);
    if |admitted.buf| < env.cfg.minSamplesForCue then (None, admitted)
    else AdviseStep(env, admitted, now)
  }

  /** One telemetry sample, end to end: a sample that fails validation is
      dropped without touching the session. */
  function IngestStep(env: Environment, st: Session, msg: Sample, now: real): (Option<Cue>, Session)
    requires env.Valid()
  {
    var reading := Validate(env.cfg, msg);
    if reading.None? then (None, st) else AcceptStep(env, st, reading.value, now)
  }

  // ---------------- what one ingest step promises ----------------

  lemma AdmitKeepsInvariant(env: Environment, st: Session, r: Reading)
    requires env.Valid() && SessionInvariant(env.cfg, st)
    ensures SessionInvariant(env.cfg, AdmitStep(env, st, r))
  {
    var o := if st.origin.Some? then st.origin.value else (r.lat, r.lon);
    var appended := st.buf + [SampleFor(env, r, o)];
    assert appended[|appended| - 1].ts == r.ts;
    PrunedFacts(appended, r.ts, env.cfg.bufferSeconds);
  }

  /** Emission overwrites the zone's record and touch nothing but the
      records and the clocks. */
  lemma EmitRecords(env: Environment, zone: ZoneTrack, sm: (real, real), st: Session, now: real)
    requires Accepted(env, zone.id)
    ensures var st' := EmitStep(env, zone, sm, st, now).1;
      var e := EvaluationFor(env, zone, sm, st);
      && st'.states == st.states[zone.id := e.drivingState]
      && st'.values == st.values[zone.id := sm]
      && st'.origin == st.origin && st'.buf == st.buf && st'.lastZone == st.lastZone
  {
  }

  lemma EmitKeepsInvariant(env: Environment, zone: ZoneTrack, sm: (real, real), st: Session, now: real)
    requires Accepted(env, zone.id) && SessionInvariant(env.cfg, st)
    ensures SessionInvariant(env.cfg, EmitStep(env, zone, sm, st, now).1)
  {
    EmitRecords(env, zone, sm, st, now);
    var st' := EmitStep(env, zone, sm, st, now).1;
    assert st'.states.Keys == st.states.Keys + {zone.id};
    assert st'.values.Keys == st.values.Keys + {zone.id};
  }

  lemma AdviseKeepsInvariant(env: Environment, st: Session, now: real)
    requires env.Valid() && |st.buf| > 0 && SessionInvariant(env.cfg, st)
    ensures SessionInvariant(env.cfg, AdviseStep(env, st, now).1)
  {
    var s := st.buf[|st.buf| - 1].s;
    var raw := Classify(s, env.stopLines, env.turns, env.track.length, env.cfg.stopApproachM);
    var confirmed := ConfirmZone(st.lastZone, raw, s, env.cfg.zoneHysteresisM);
    assert confirmed.0 == confirmed.1.Kind();
    var zone := ZoneStep(st.lastZone, Observation(s, raw), env.cfg.zoneHysteresisM);
    assert zone == UpdateZoneTrack(st.lastZone, confirmed, s);
    var tracked := st.(lastZone := zone);
    assert SessionInvariant(env.cfg, tracked);
    if Accepted(env, zone.value.id) {
      EmitKeepsInvariant(env, zone.value, Smoothed(env.cfg, st.buf), tracked, now);
    }
  }

  /** Advice is zone tracking followed by the zone lookup on the tracked session. */
  lemma AdviseStepParts(env: Environment, st: Session, now: real, tracked: Session)
    requires env.Valid() && |st.buf| > 0
    requires var s := st.buf[|st.buf| - 1].s;
      tracked == st.(lastZone := ZoneStep(st.lastZone,
                                          Observation(s, Classify(s, env.stopLines, env.turns, env.track.length,
                                                                  env.cfg.stopApproachM)),
                                          env.cfg.zoneHysteresisM))
    ensures tracked.lastZone.Some?
    ensures AdviseStep(env, st, now) ==
      if Accepted(env, tracked.lastZone.value.id)
      then EmitStep(env, tracked.lastZone.value, Smoothed(env.cfg, st.buf), tracked, now)
      else (None, tracked)
  {
  }

  /** Advice leaves the origin and the buffer alone. */
  lemma AdviseKeepsBuffer(env: Environment, st: Session, now: real)
    requires env.Valid() && |st.buf| > 0
    ensures var st' := AdviseStep(env, st, now).1;
      st'.origin == st.origin && st'.buf == st.buf
  {
    var s := st.buf[|st.buf| - 1].s;
    var raw := Classify(s, env.stopLines, env.turns, env.track.length, env.cfg.stopApproachM);
    var zone := ZoneStep(st.lastZone, Observation(s, raw), env.cfg.zoneHysteresisM);
    if Accepted(env, zone.value.id) {
      EmitRecords(env, zone.value, Smoothed(env.cfg, st.buf), st.(lastZone := zone), now);
    }
  }

  /** Advice emits exactly when the confirmed zone is trusted, its
      evaluation picked a cue and that cue passes the gates; without a cue
      the clocks stay as they were. */
  lemma AdviseCue(env: Environment, st: Session, now: real)
    requires env.Valid() && |st.buf| > 0
    ensures var (cue, st') := AdviseStep(env, st, now);
      && st'.lastZone.Some?
      && (cue.Some? <==>
            && Accepted(env, st'.lastZone.value.id)
            && var e := EvaluationFor(env, st'.lastZone.value, Smoothed(env.cfg, st.buf), st);
            && e.candidate.Some?
            && Passes(env.cfg, st.clocks, e.candidate.value, st'.lastZone.value.id, now))
      && (cue.None? ==> st'.clocks == st.clocks)
  {
    var s := st.buf[|st.buf| - 1].s;
    var raw := Classify(s, env.stopLines, env.turns, env.track.length, env.cfg.stopApproachM);
    var zone := ZoneStep(st.lastZone, Observation(s, raw), env.cfg.zoneHysteresisM);
    var tracked := st.(lastZone := zone);
    if Accepted(env, zone.value.id) {
      var sm := Smoothed(env.cfg, st.buf);
      EmitRecords(env, zone.value, sm, tracked, now);
      assert EvaluationFor(env, zone.value, sm, tracked) == EvaluationFor(env, zone.value, sm, st);
    }
  }

  /** The origin and the buffer after a validated sample are those of
      admission (append and prune). */
  lemma AcceptKeepsAdmitted(env: Environment, st: Session, r: Reading, now: real)
    requires env.Valid()
    ensures var st' := AcceptStep(env, st, r, now).1;
      st'.origin == AdmitStep(env, st, r).origin && st'.buf == AdmitStep(env, st, r).buf
  {
    var admitted := AdmitStep(env, st, r);
    if |admitted.buf| >= env.cfg.minSamplesForCue {
      AdviseKeepsBuffer(env, admitted, now);
    }
  }

  lemma IngestKeepsInvariant(env: Environment, st: Session, msg: Sample, now: real)
    requires env.Valid() && SessionInvariant(env.cfg, st)
    ensures SessionInvariant(env.cfg, IngestStep(env, st, msg, now).1)
  {
    var reading := Validate(env.cfg, msg);
    if reading.Some? {
      var admitted := AdmitStep(env, st, reading.value);
      AdmitKeepsInvariant(env, st, reading.value);
      if |admitted.buf| >= env.cfg.minSamplesForCue {
        AdviseKeepsInvariant(env, admitted, now);
      }
    }
  }

  /** A sample without position or speed, with speed out of range, or whose
      power cannot be resolved, yields no cue and leaves the session as it
      was. */
  lemma DroppedSampleChangesNothing(env: Environment, st: Session, msg: Sample, now: real)
    requires env.Valid()
    requires || msg.latitude.None? || msg.longitude.None? || msg.speedKmh.None?
             || msg.speedKmh.value < env.cfg.speedMinKmh || msg.speedKmh.value > env.cfg.speedMaxKmh
             || ResolvePower(env.cfg, msg.power, msg.voltage, msg.current).None?
    ensures IngestStep(env, st, msg, now) == (None, st)
  {
  }

  /** The GPS origin is fixed by the first accepted sample and never moves. */
  lemma OriginFixedOnce(env: Environment, st: Session, msg: Sample, now: real)
    requires env.Valid()
    ensures var st' := IngestStep(env, st, msg, now).1;
      && (st.origin.Some? ==> st'.origin == st.origin)
      && (st.origin.None? && Validate(env.cfg, msg).Some? ==>
            st'.origin == Some((msg.latitude.value, msg.longitude.value)))
      && (Validate(env.cfg, msg).Some? ==> st'.origin.Some?)
  {
    var reading := Validate(env.cfg, msg);
    if reading.Some? {
      AcceptKeepsAdmitted(env, st, reading.value, now);
    }
  }

  /** An accepted sample closes the buffer: the buffer is a suffix of the old
      buffer followed by the new sample, every sample dropped was more than
      the horizon older than the new one, and what remains spans at most the
      horizon. */
  lemma BufferAfterSample(env: Environment, st: Session, msg: Sample, now: real)
    requires env.Valid() && Validate(env.cfg, msg).Some?
    ensures var st' := IngestStep(env, st, msg, now).1;
      var r := Validate(env.cfg, msg).value;
      var sample := SampleFor(env, r, st'.origin.value);
      && st'.origin.Some? && 0 < |st'.buf| <= |st.buf| + 1
      && st'.buf == (st.buf + [sample])[|st.buf| + 1 - |st'.buf|..]
      && st'.buf[|st'.buf| - 1] == sample
      && (forall j :: 0 <= j < |st.buf| + 1 - |st'.buf| ==>
            msg.timestamp - st.buf[j].ts > env.cfg.bufferSeconds)
      && msg.timestamp - st'.buf[0].ts <= env.cfg.bufferSeconds
  {
    var r := Validate(env.cfg, msg).value;
    var admitted := AdmitStep(env, st, r);
    AcceptKeepsAdmitted(env, st, r, now);
    var sample := SampleFor(env, r, admitted.origin.value);
    var appended := st.buf + [sample];
    assert appended[|appended| - 1] == sample;
    PrunedFacts(appended, r.ts, env.cfg.bufferSeconds);
    forall j | 0 <= j < |st.buf| + 1 - |admitted.buf|
      ensures msg.timestamp - st.buf[j].ts > env.cfg.bufferSeconds
    {
      assert appended[j] == st.buf[j];
    }
  }

  /** Cold start: while the buffer holds fewer than the minimum number of
      samples nothing is emitted and nothing past the buffer changes. */
  lemma ColdStartOnlyBuffers(env: Environment, st: Session, msg: Sample, now: real)
    requires env.Valid() && Validate(env.cfg, msg).Some?
    requires |AdmitStep(env, st, Validate(env.cfg, msg).value).buf| < env.cfg.minSamplesForCue
    ensures var (cue, st') := IngestStep(env, st, msg, now);
      && cue.None? && st'.lastZone == st.lastZone
      && st'.states == st.states && st'.values == st.values && st'.clocks == st.clocks
  {
  }

  /** The reading a warm step works on: validated, and buffered behind at
      least the minimum number of samples. */
  predicate Warm(env: Environment, st: Session, msg: Sample)
    requires env.Valid()
  {
    Validate(env.cfg, msg).Some? &&
    |AdmitStep(env, st, Validate(env.cfg, msg).value).buf| >= env.cfg.minSamplesForCue
  }

  /** On a warm step the remembered zone is the hysteresis step of the raw
      classification of the newest sample's arc-length. */
  lemma ZoneFollowsHysteresis(env: Environment, st: Session, msg: Sample, now: real)
    requires env.Valid() && Warm(env, st, msg)
    ensures var st' := IngestStep(env, st, msg, now).1;
      var s := st'.buf[|st'.buf| - 1].s;
      && |st'.buf| > 0
      && st'.lastZone == ZoneStep(st.lastZone,
                                  Observation(s, Classify(s, env.stopLines, env.turns, env.track.length,
                                                          env.cfg.stopApproachM)),
                                  env.cfg.zoneHysteresisM)
      && st'.lastZone.Some?
  {
    var admitted := AdmitStep(env, st, Validate(env.cfg, msg).value);
    var r := AdviseStep(env, admitted, now);
    assert IngestStep(env, st, msg, now) == r;
    assert r.1.buf == admitted.buf;
  }

  /** A zone without a reference, or with one below the confidence floor,
      yields no cue and leaves the per-zone records and the clocks alone. */
  lemma UntrustedZoneSilent(env: Environment, st: Session, msg: Sample, now: real)
    requires env.Valid() && Warm(env, st, msg)
    requires var st' := IngestStep(env, st, msg, now).1;
      st'.lastZone.Some? && !Accepted(env, st'.lastZone.value.id)
    ensures var (cue, st') := IngestStep(env, st, msg, now);
      && cue.None? && st'.states == st.states && st'.values == st.values && st'.clocks == st.clocks
  {
  }

  /** In a trusted zone every evaluation overwrites the zone's record with
      the new driving state and smoothed values, whether or not a cue is
      emitted. */
  lemma EvaluationRecorded(env: Environment, st: Session, msg: Sample, now: real)
    requires env.Valid() && Warm(env, st, msg)
    requires var st' := IngestStep(env, st, msg, now).1;
      st'.lastZone.Some? && Accepted(env, st'.lastZone.value.id)
    ensures var st' := IngestStep(env, st, msg, now).1;
      var zone := st'.lastZone.value;
      var sm := Smoothed(env.cfg, st'.buf);
      var e := EvaluationFor(env, zone, sm, st);
      && |st'.buf| > 0
      && st'.states == st.states[zone.id := e.drivingState]
      && st'.values == st.values[zone.id := sm]
  {
    var admitted := AdmitStep(env, st, Validate(env.cfg, msg).value);
    assert IngestStep(env, st, msg, now) == AdviseStep(env, admitted, now);
    var s := admitted.buf[|admitted.buf| - 1].s;
    var raw := Classify(s, env.stopLines, env.turns, env.track.length, env.cfg.stopApproachM);
    var zone := ZoneStep(admitted.lastZone, Observation(s, raw), env.cfg.zoneHysteresisM);
    var tracked := admitted.(lastZone := zone);
    EmitRecords(env, zone.value, Smoothed(env.cfg, admitted.buf), tracked, now);
  }

  /** A cue is emitted exactly when the sample is warm, the zone is trusted,
      a threshold is breached and all three cooldown gates pass; the cue is
      the record built from that evaluation and the clocks are stamped with
      `now`. Without a cue the clocks do not move. */
  lemma CueExactlyWhenBreachedAndCooled(env: Environment, st: Session, msg: Sample, now: real)
    requires env.Valid()
    ensures var (cue, st') := IngestStep(env, st, msg, now);
      && (cue.Some? <==>
            && Warm(env, st, msg)
            && st'.lastZone.Some? && Accepted(env, st'.lastZone.value.id) && |st'.buf| > 0
            && var e := EvaluationFor(env, st'.lastZone.value, Smoothed(env.cfg, st'.buf), st);
            && e.candidate.Some?
            && Passes(env.cfg, st.clocks, e.candidate.value, st'.lastZone.value.id, now))
      && (cue.None? ==> st'.clocks == st.clocks)
  {
    if Warm(env, st, msg) {
      var admitted := AdmitStep(env, st, Validate(env.cfg, msg).value);
      assert IngestStep(env, st, msg, now) == AdviseStep(env, admitted, now);
      AdviseKeepsBuffer(env, admitted, now);
      AdviseCue(env, admitted, now);
    }
  }

  /** An emitted cue carries the evaluation's cue key and the zone's
      reference, and stamps all three clocks with `now`. */
  lemma EmittedCueStampsClocks(env: Environment, st: Session, msg: Sample, now: real)
    requires env.Valid()
    requires IngestStep(env, st, msg, now).0.Some?
    ensures var (cue, st') := IngestStep(env, st, msg, now);
      && Warm(env, st, msg) && st'.lastZone.Some? && Accepted(env, st'.lastZone.value.id)
      && |st'.buf| > 0
      && var zone := st'.lastZone.value;
      && var sm := Smoothed(env.cfg, st'.buf);
      && var ref := env.zoneMemory[zone.id];
      && var e := EvaluationFor(env, zone, sm, st);
      && e.candidate.Some?
      && st'.clocks == Stamp(st.clocks, e.candidate.value, zone.id, now)
      && cue.value == MakeCue(now, zone.id, zone.zoneType, ref.Confidence(), ref.OptStateLabel(), e,
                              e.candidate.value, sm.0, sm.1, ref.optSpeedMps, ref.OptPowerW())
  {
    var admitted := AdmitStep(env, st, Validate(env.cfg, msg).value);
    assert IngestStep(env, st, msg, now) == AdviseStep(env, admitted, now);
  }

  // ---------------- a run of samples ----------------

  /** Feeds `inputs` (each a sample with its wall-clock time) to the engine
      in order: the final session and the cues emitted, oldest first. */
  function Run(env: Environment, st: Session, inputs: seq<(Sample, real)>): (r: (Session, seq<Cue>))
    requires env.Valid()
    ensures |r.1| <= |inputs|
    decreases |inputs|
  {
    if |inputs| == 0 then (st, [])
    else
      var prior := Run(env, st, inputs[..|inputs| - 1]);
      var step := IngestStep(env, prior.0, inputs[|inputs| - 1].0, inputs[|inputs| - 1].1);
      (step.1, if step.0.Some? then prior.1 + [step.0.value] else prior.1)
  }

  /** What the per-key clock remembers of the emitted cues: each cue's key
      carries a stamp no earlier than the cue, and cues with one key are
      spaced by the same-cue cooldown. */
  ghost predicate KeySpaced(cfg: Config, c: Cooldowns, cues: seq<Cue>) {
    && (forall i :: 0 <= i < |cues| ==> cues[i].cueKey in c.byKey && cues[i].ts <= c.byKey[cues[i].cueKey])
    && (forall i, j :: 0 <= i < j < |cues| && cues[i].cueKey == cues[j].cueKey ==>
          cues[j].ts - cues[i].ts >= cfg.minSecondsBetweenSameCue)
  }

  /** The same for the per-zone clock and the zone cooldown. */
  ghost predicate ZoneSpaced(cfg: Config, c: Cooldowns, cues: seq<Cue>) {
    && (forall i :: 0 <= i < |cues| ==> cues[i].zoneId in c.byZone && cues[i].ts <= c.byZone[cues[i].zoneId])
    && (forall i, j :: 0 <= i < j < |cues| && cues[i].zoneId == cues[j].zoneId ==>
          cues[j].ts - cues[i].ts >= cfg.cueCooldownByZone)
  }

  ghost predicate Spaced(cfg: Config, c: Cooldowns, cues: seq<Cue>) {
    KeySpaced(cfg, c, cues) && ZoneSpaced(cfg, c, cues)
  }

  /** Appending a cue that passed the gates of clocks `c`, and stamping
      them, keeps the per-key facts. */
  lemma StampKeepsKeySpaced(cfg: Config, c: Cooldowns, cues: seq<Cue>, key: CueKey, zone: ZoneId, cue: Cue)
    requires cfg.minSecondsBetweenSameCue >= 0.0
    requires KeySpaced(cfg, c, cues) && Passes(cfg, c, key, zone, cue.ts)
    requires cue.cueKey == key.Name()
    ensures KeySpaced(cfg, Stamp(c, key, zone, cue.ts), cues + [cue])
  {
    var c' := Stamp(c, key, zone, cue.ts);
    var e := cues + [cue];
    forall i | 0 <= i < |e|
      ensures e[i].cueKey in c'.byKey && e[i].ts <= c'.byKey[e[i].cueKey]
    {
      if i < |cues| {
        assert e[i] == cues[i];
        if cues[i].cueKey == key.Name() {
          assert cues[i].ts <= LastOr0(c.byKey, key.Name());
        }
      }
    }
    forall i, j | 0 <= i < j < |e| && e[i].cueKey == e[j].cueKey
      ensures e[j].ts - e[i].ts >= cfg.minSecondsBetweenSameCue
    {
      assert e[i] == cues[i];
      if j < |cues| {
        assert e[j] == cues[j];
      } else {
        assert cues[i].ts <= LastOr0(c.byKey, key.Name());
      }
    }
  }

  /** The same for the per-zone facts. */
  lemma StampKeepsZoneSpaced(cfg: Config, c: Cooldowns, cues: seq<Cue>, key: CueKey, zone: ZoneId, cue: Cue)
    requires cfg.cueCooldownByZone >= 0.0
    requires ZoneSpaced(cfg, c, cues) && Passes(cfg, c, key, zone, cue.ts)
    requires cue.zoneId == zone
    ensures ZoneSpaced(cfg, Stamp(c, key, zone, cue.ts), cues + [cue])
  {
    var c' := Stamp(c, key, zone, cue.ts);
    var e := cues + [cue];
    forall i | 0 <= i < |e|
      ensures e[i].zoneId in c'.byZone && e[i].ts <= c'.byZone[e[i].zoneId]
    {
      if i < |cues| {
        assert e[i] == cues[i];
        if cues[i].zoneId == zone {
          assert cues[i].ts <= LastOr0(c.byZone, zone);
        }
      }
    }
    forall i, j | 0 <= i < j < |e| && e[i].zoneId == e[j].zoneId
      ensures e[j].ts - e[i].ts >= cfg.cueCooldownByZone
    {
      assert e[i] == cues[i];
      if j < |cues| {
        assert e[j] == cues[j];
      } else {
        assert cues[i].ts <= LastOr0(c.byZone, zone);
      }
    }
  }

  /** One sample keeps the spacing facts of the cues emitted so far. */
  lemma IngestKeepsSpaced(env: Environment, st: Session, cues: seq<Cue>, msg: Sample, now: real)
    requires env.Valid()
    requires env.cfg.minSecondsBetweenSameCue >= 0.0 && env.cfg.cueCooldownByZone >= 0.0
    requires Spaced(env.cfg, st.clocks, cues)
    ensures var step := IngestStep(env, st, msg, now);
      Spaced(env.cfg, step.1.clocks, if step.0.Some? then cues + [step.0.value] else cues)
  {
    var step := IngestStep(env, st, msg, now);
    CueExactlyWhenBreachedAndCooled(env, st, msg, now);
    if step.0.Some? {
      EmittedCueStampsClocks(env, st, msg, now);
      var st' := step.1;
      var zone := st'.lastZone.value;
      var e := EvaluationFor(env, zone, Smoothed(env.cfg, st'.buf), st);
      var key := e.candidate.value;
      assert step.0.value.ts == now && step.0.value.cueKey == key.Name() && step.0.value.zoneId == zone.id;
      StampKeepsKeySpaced(env.cfg, st.clocks, cues, key, zone.id, step.0.value);
      StampKeepsZoneSpaced(env.cfg, st.clocks, cues, key, zone.id, step.0.value);
    }
  }

  /** Over any run of samples, starting from clocks that cover no cue, the
      spacing facts hold of every cue emitted. */
  lemma {:induction false} RunSpaced(env: Environment, st: Session, inputs: seq<(Sample, real)>)
    requires env.Valid()
    requires env.cfg.minSecondsBetweenSameCue >= 0.0 && env.cfg.cueCooldownByZone >= 0.0
    ensures Spaced(env.cfg, Run(env, st, inputs).0.clocks, Run(env, st, inputs).1)
    decreases |inputs|
  {
    if |inputs| > 0 {
      var front := inputs[..|inputs| - 1];
      RunSpaced(env, st, front);
      var prior := Run(env, st, front);
      IngestKeepsSpaced(env, prior.0, prior.1, inputs[|inputs| - 1].0, inputs[|inputs| - 1].1);
    }
  }

  /** Across any run of samples, no cue key is emitted twice within the
      same-cue cooldown and no zone gets two cues within the zone cooldown. */
  lemma NoCueRepeatWithinCooldown(env: Environment, st: Session, inputs: seq<(Sample, real)>, i: nat, j: nat)
    requires env.Valid()
    requires env.cfg.minSecondsBetweenSameCue >= 0.0 && env.cfg.cueCooldownByZone >= 0.0
    requires i < j < |Run(env, st, inputs).1|
    ensures var e := Run(env, st, inputs).1;
      && (e[i].cueKey == e[j].cueKey ==> e[j].ts - e[i].ts >= env.cfg.minSecondsBetweenSameCue)
      && (e[i].zoneId == e[j].zoneId ==> e[j].ts - e[i].ts >= env.cfg.cueCooldownByZone)
  {
    RunSpaced(env, st, inputs);
  }

  // ---------------- the session object ----------------

  class Coach {
    const cfg: Config
    const track: Track
    const stopLines: seq<StopLine>
    const turns: seq<TurnSegment>
    const zoneMemory: map<ZoneId, ZoneEntry>
    /** Cosine, supplied by the platform; used only by the local projection. */
    const cos: real -> real

    /** GPS origin (lat0, lon0), fixed by the first accepted sample. */
    var origin: Option<(real, real)>
    var buf: seq<BufferedSample>
    var lastCueTime: map<string, real>
    var lastCueByZone: map<ZoneId, real>
    var lastCueByType: map<string, real>
    /** Hysteresis memory: last confirmed zone id, type and arc-length. */
    var lastZone: Option<ZoneTrack>
    var lastCueState: map<ZoneId, DrivingState>
    var lastCueValues: map<ZoneId, (real, real)>

    function Env(): Environment {
      Environment(cfg, track, stopLines, turns, zoneMemory, cos)
    }

    function Clocks(): Cooldowns
      reads this`lastCueTime, this`lastCueByZone, this`lastCueByType
    {
      Cooldowns(lastCueTime, lastCueByZone, lastCueByType)
    }

    function State(): Session
      reads this
    {
      Session(origin, buf, lastZone, lastCueState, lastCueValues, Clocks())
    }

    ghost predicate Valid()
      reads this
    {
      Env().Valid() && SessionInvariant(cfg, State())
    }

    constructor (cfg: Config, track: Track, stopLines: seq<StopLine>, turns: seq<TurnSegment>,
                 zoneMemory: map<ZoneId, ZoneEntry>, cos: real -> real)
      requires cfg.Valid() && track.Valid()
      ensures Valid()
      ensures Env() == Environment(cfg, track, stopLines, turns, zoneMemory, cos)
      ensures State() == Session(None, [], None, map[], map[], Cooldowns(map[], map[], map[]))
    {
      this.cfg, this.track, this.stopLines, this.turns := cfg, track, stopLines, turns;
      this.zoneMemory, this.cos := zoneMemory, cos;
      origin, buf, lastZone := None, [], None;
      lastCueTime, lastCueByZone, lastCueByType := map[], map[], map[];
      lastCueState, lastCueValues := map[], map[];
    }

    /** The reading in the local frame around `o`, projected onto the track. */
    method Locate(r: Reading, o: (real, real)) returns (sample: BufferedSample)
      requires track.Valid()
      ensures sample == SampleFor(Env(), r, o)
    {
      var xy := GpsToLocalXY(r.lat, r.lon, o.0, o.1, cos);
      var p := ProjectToPolyline(track, xy.0, xy.1);
      sample := BufferedSample(r.ts, r.lat, r.lon, xy.0, xy.1, p.s, p.side, p.dist2,
                               r.speedMps, r.powerW, r.currentA);
    }

    /** Admission: origin, projection, append and prune. */
    method Admit(r: Reading)
      requires Valid()
      modifies this`origin, this`buf
      ensures Valid()
      ensures State() == AdmitStep(Env(), old(State()), r)
    {
      if origin.None? {
        origin := Some((r.lat, r.lon));
      }
      var sample := Locate(r, origin.value);
      buf := Prune(buf + [sample], r.ts, cfg.bufferSeconds);
      AdmitKeepsInvariant(Env(), old(State()), r);
    }

    /** Zone tracking: classify position `s`, apply hysteresis and update the
        memory; the confirmed zone is the one the memory now holds. */
    method TrackZone(s: real) returns (zoneType: ZoneType, zoneId: ZoneId)
      requires Valid()
      modifies this`lastZone
      ensures Valid()
      ensures lastZone == ZoneStep(old(lastZone),
                                   Observation(s, Classify(s, stopLines, turns, track.length, cfg.stopApproachM)),
                                   cfg.zoneHysteresisM)
      ensures lastZone.Some? && zoneId == lastZone.value.id && zoneType == lastZone.value.zoneType
    {
      zoneType, zoneId := AssignZoneId(s, stopLines, turns, track.length, cfg.stopApproachM);
      ghost var raw := (zoneType, zoneId);
      if lastZone.Some? && lastZone.value.id != zoneId {
        var dist := Abs(s - lastZone.value.s);
        if dist < cfg.zoneHysteresisM {
          zoneType, zoneId := lastZone.value.zoneType, lastZone.value.id;
        }
      }
      assert (zoneType, zoneId) == ConfirmZone(lastZone, raw, s, cfg.zoneHysteresisM);
      if lastZone.None? || lastZone.value.id != zoneId {
        lastZone := Some(ZoneTrack(zoneId, zoneType, s));
      }
    }

    /** Evaluation: evaluate in an accepted zone and overwrite the zone's
        record with the driving state and the smoothed values. */
    method RecordEvaluation(zone: ZoneTrack, sm: (real, real)) returns (e: Evaluation)
      requires Valid() && Accepted(Env(), zone.id)
      modifies this`lastCueState, this`lastCueValues
      ensures Valid()
      ensures e == EvaluationFor(Env(), zone, sm, old(State()))
      ensures lastCueState == old(lastCueState)[zone.id := e.drivingState]
      ensures lastCueValues == old(lastCueValues)[zone.id := sm]
    {
      var ref := zoneMemory[zone.id];
      var optSpeed := ref.optSpeedMps;
      var optPower := ref.optPowerMicroW / 1000000.0;
      var prev := PrevFor(lastCueState, lastCueValues, zone.id);
      e := CueEngine.Evaluate(cfg, zone.zoneType, sm.0, sm.1, optSpeed, optPower, prev);
      lastCueState := lastCueState[zone.id := e.drivingState];
      lastCueValues := lastCueValues[zone.id := sm];
    }

    /** Rate limiting: the three cooldown gates, in order; on a pass all three
        clocks are stamped with `now`, on a drop none changes. */
    method RateLimit(key: CueKey, zone: ZoneId, now: real) returns (ok: bool)
      requires Valid()
      modifies this`lastCueTime, this`lastCueByZone, this`lastCueByType
      ensures Valid()
      ensures ok == Passes(cfg, old(Clocks()), key, zone, now)
      ensures Clocks() == if ok then Stamp(old(Clocks()), key, zone, now) else old(Clocks())
    {
      var last := LastOr0(lastCueTime, key.Name());
      if now - last < cfg.minSecondsBetweenSameCue {
        return false;
      }
      var lastZoneCue := LastOr0(lastCueByZone, zone);
      if now - lastZoneCue < cfg.cueCooldownByZone {
        return false;
      }
      var cueType := Texts.TypePrefix(key.Name());
      var lastTypeCue := LastOr0(lastCueByType, cueType);
      if now - lastTypeCue < cfg.cueCooldownByType {
        return false;
      }
      ghost var st := State();
      lastCueTime := lastCueTime[key.Name() := now];
      lastCueByZone := lastCueByZone[zone := now];
      lastCueByType := lastCueByType[cueType := now];
      assert State() == st.(clocks := Clocks());
      InvariantIgnoresClocks(cfg, st, Clocks());
      return true;
    }

    /** Emission in an accepted zone: evaluation, rate limiting, cue building. */
    method Emit(zone: ZoneTrack, sm: (real, real), now: real) returns (cue: Option<Cue>)
      requires Valid() && Accepted(Env(), zone.id)
      modifies this`lastCueState, this`lastCueValues
      modifies this`lastCueTime, this`lastCueByZone, this`lastCueByType
      ensures Valid()
      ensures (cue, State()) == EmitStep(Env(), zone, sm, old(State()), now)
    {
      // evaluation: cue candidate, base state, responding, driving state
      var e := RecordEvaluation(zone, sm);

      // suppress when nothing is breached, then rate-limit
      if e.candidate.None? && e.drivingState == Green && e.baseState == Green && !e.responding {
        return None;
      }
      if e.candidate.None? {
        return None;
      }
      var key := e.candidate.value;
      var ok := RateLimit(key, zone.id, now);
      if !ok {
        return None;
      }

      // the cue record
      var ref := zoneMemory[zone.id];
      cue := Some(MakeCue(now, zone.id, zone.zoneType, ref.Confidence(), ref.OptStateLabel(), e, key,
                          sm.0, sm.1, ref.optSpeedMps, ref.OptPowerW()));
    }

    /** Advice on a warm buffer: smoothing, zone tracking, lookup. */
    method Advise(now: real) returns (cue: Option<Cue>)
      requires Valid() && |buf| > 0
      modifies this`lastZone, this`lastCueState, this`lastCueValues
      modifies this`lastCueTime, this`lastCueByZone, this`lastCueByType
      ensures Valid()
      ensures (cue, State()) == AdviseStep(Env(), old(State()), now)
    {
      // smoothing
      var recent := Window(buf, cfg.smoothWin);
      var smSpeed := Smoothing.Median(Speeds(recent));
      var smPower := Smoothing.Median(Powers(recent));

      assert (smSpeed, smPower) == Smoothed(cfg, buf);

      // zone tracking with hysteresis
      var zoneType, zoneId := TrackZone(buf[|buf| - 1].s);
      ghost var tracked := State();
      assert tracked == old(State()).(lastZone := lastZone);
      cue := Consult(lastZone.value, (smSpeed, smPower), now);
      AdviseStepParts(Env(), old(State()), now, tracked);
    }

    /** Lookup: find the confirmed zone in the zone memory and go on to
        emission only when its reference is trusted. */
    method Consult(zone: ZoneTrack, sm: (real, real), now: real) returns (cue: Option<Cue>)
      requires Valid()
      modifies this`lastCueState, this`lastCueValues
      modifies this`lastCueTime, this`lastCueByZone, this`lastCueByType
      ensures Valid()
      ensures (cue, State()) == if Accepted(Env(), zone.id) then EmitStep(Env(), zone, sm, old(State()), now)
                               else (None, old(State()))
    {
      if zone.id !in zoneMemory {
        return None;
      }
      var ref := zoneMemory[zone.id];
      var conf := ref.Confidence();
      if conf < cfg.confidenceMin {
        return None;
      }
      cue := Emit(zone, sm, now);
    }

    /** Admission and advice for a reading that passed validation. */
    method Accept(r: Reading, now: real) returns (cue: Option<Cue>)
      requires Valid()
      modifies this`origin, this`buf, this`lastZone, this`lastCueState, this`lastCueValues
      modifies this`lastCueTime, this`lastCueByZone, this`lastCueByType
      ensures Valid()
      ensures (cue, State()) == AcceptStep(Env(), old(State()), r, now)
    {
      // admission: GPS reference, projection, buffer
      Admit(r);
      if |buf| < cfg.minSamplesForCue {
        return None;
      }
      cue := Advise(now);
    }

    /** Processes one telemetry sample at wall-clock time `now` and returns
        the cue it triggers, if any. */
    method Ingest(msg: Sample, now: real) returns (cue: Option<Cue>)
      requires Valid()
      modifies this
      ensures Valid()
      ensures (cue, State()) == IngestStep(Env(), old(State()), msg, now)
    {
      // filter the fields
      var reading := Validate(cfg, msg);
      if reading.None? {
        return None;
      }
      cue := Accept(reading.value, now);
    }
  }
}
