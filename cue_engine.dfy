/** The decision half of the engine: compare the smoothed readings with the
    zone's optimum, pick at most one cue, derive the green/red driving state
    with the "responding" adjustment, and gate emissions by three
    independent cooldowns. */
module CueEngine {
  import opened Wrappers
  import opened CoachConfig
  import opened Zones
  import Texts

  datatype DrivingState = Green | Red {
    function Label(): string {
      if Green? then "green" else "red"
    }
  }

  datatype CueKey = SpeedHigh | TurnPowerSpike | StopApproachPower | PowerHigh {

    /** The cue key as published. */
    function Name(): string {
      match this
      case SpeedHigh => "SPEED_HIGH"
      case TurnPowerSpike => "TURN_POWER_SPIKE"
      case StopApproachPower => "STOP_APPROACH_POWER"
      case PowerHigh => "POWER_HIGH"
    }

    /** The advice after the zone id in the cue text. */
    function Advice(): string {
      match this
      case SpeedHigh => "Too fast → Coast / reduce throttle"
      case TurnPowerSpike => "Power spike in turn → Smooth throttle"
      case StopApproachPower => "Stop ahead → Coast earlier, keep power low"
      case PowerHigh => "Power too high → Reduce throttle"
    }
  }

  /** The power cue for a zone type. */
  function PowerCueFor(zoneType: ZoneType): CueKey {
    match zoneType
    case Turn => TurnPowerSpike
    case StopApproach => StopApproachPower
    case Straight => PowerHigh
  }

  /** What was recorded for a zone at its previous evaluation. */
  datatype PrevCue = PrevCue(state: DrivingState, speed: real, power: real)

  /** A value counts as improved when it fell while still above the optimum,
      or when it came down to the optimum or below from above it. */
  predicate Improved(now: real, last: real, opt: real) {
    (now < last && now > opt) || (now <= opt && last > opt)
  }

  /** Improvement is exactly "it fell, and it had been above the optimum";
      falling past the optimum (overshoot) still counts. */
  lemma ImprovedIff(now: real, last: real, opt: real)
    ensures Improved(now, last, opt) <==> (opt < last && now < last)
  {
  }

  /** Whether the driver is responding, judged against the zone's previous
      record: red then green, or red twice with speed or power improved. */
  function Responding(prev: Option<PrevCue>, baseState: DrivingState,
                      smSpeed: real, smPower: real, optSpeed: real, optPower: real): (r: bool)
    ensures r <==>
      && prev.Some? && prev.value.state == Red
      && (|| baseState == Green
          || (optSpeed < prev.value.speed && smSpeed < prev.value.speed)
          || (optPower < prev.value.power && smPower < prev.value.power))
  {
    if prev.None? then false
    else
      var last := prev.value;
      ImprovedIff(smSpeed, last.speed, optSpeed);
      ImprovedIff(smPower, last.power, optPower);
      if last.state.Green? then false
      else if baseState.Green? then true
      else Improved(smSpeed, last.speed, optSpeed) || Improved(smPower, last.power, optPower)
  }

  datatype Evaluation = Evaluation(
    speedOk: bool, powerOk: bool,
    candidate: Option<CueKey>,
    baseState: DrivingState, responding: bool, drivingState: DrivingState)

  /** One evaluation of the smoothed readings against a zone's optimum. */
  function Evaluate(cfg: Config, zoneType: ZoneType, smSpeed: real, smPower: real,
                    optSpeed: real, optPower: real, prev: Option<PrevCue>): (e: Evaluation)
    ensures e.speedOk <==> smSpeed <= optSpeed * (1.0 + cfg.speedMarginPct)
    ensures e.powerOk <==> smPower <= optPower + cfg.powerMarginW
    ensures e.candidate.None? <==> e.speedOk && e.powerOk
    ensures !e.speedOk ==> e.candidate == Some(SpeedHigh)
    ensures e.speedOk && !e.powerOk ==> e.candidate == Some(PowerCueFor(zoneType))
    ensures e.baseState == Green <==> e.speedOk && e.powerOk
    ensures e.responding == Responding(prev, e.baseState, smSpeed, smPower, optSpeed, optPower)
    ensures e.drivingState == Green <==> e.baseState == Green || e.responding
  {
    var speedOk := smSpeed <= optSpeed * (1.0 + cfg.speedMarginPct);
    var powerOk := smPower <= optPower + cfg.powerMarginW;
    var candidate :=
      if !speedOk then Some(SpeedHigh)
      else if !powerOk then Some(PowerCueFor(zoneType))
      else None;
    var baseState := if speedOk && powerOk then Green else Red;
    var responding := Responding(prev, baseState, smSpeed, smPower, optSpeed, optPower);
    var drivingState := if baseState == Green || responding then Green else Red;
    Evaluation(speedOk, powerOk, candidate, baseState, responding, drivingState)
  }

  /** Driving 27 m/s where the optimum is 25 m/s with a 5% margin is too fast. */
  lemma SpeedHighExample(cfg: Config, zoneType: ZoneType, smPower: real, optPower: real, prev: Option<PrevCue>)
    requires cfg.speedMarginPct == 0.05
    ensures Evaluate(cfg, zoneType, 27.0, smPower, 25.0, optPower, prev).candidate == Some(SpeedHigh)
  {
  }

  /** A power breach at acceptable speed in a turn is a turn power spike. */
  lemma TurnPowerSpikeExample(cfg: Config, smSpeed: real, smPower: real, optSpeed: real, optPower: real,
                              prev: Option<PrevCue>)
    requires smSpeed <= optSpeed * (1.0 + cfg.speedMarginPct)
    requires smPower > optPower + cfg.powerMarginW
    ensures Evaluate(cfg, Turn, smSpeed, smPower, optSpeed, optPower, prev).candidate == Some(TurnPowerSpike)
  {
  }

  /** Previously red at 30 m/s, optimum 25 m/s, now 28 m/s: responding, and
      so the driving state is green. */
  lemma RespondingExample(cfg: Config, zoneType: ZoneType, smPower: real, optPower: real, lastPower: real)
    ensures Evaluate(cfg, zoneType, 28.0, smPower, 25.0, optPower, Some(PrevCue(Red, 30.0, lastPower))).responding
    ensures Evaluate(cfg, zoneType, 28.0, smPower, 25.0, optPower, Some(PrevCue(Red, 30.0, lastPower))).drivingState == Green
  {
  }

  /** The short explanation carried by a cue. */
  datatype Reason = SpeedAbove(pct: real) | PowerAbove(watts: real) | WithinOptimal | ThresholdExceeded(zone: ZoneId)

  /** The reason chosen from the cue key's text. */
  function ReasonFor(keyName: string, speedDiffPct: real, powerDiffW: real, zone: ZoneId): Reason {
    if keyName == "SPEED_HIGH" then SpeedAbove(speedDiffPct)
    else if Texts.Contains(keyName, "POWER") then PowerAbove(powerDiffW)
    else if keyName == "DRIVING_OPTIMAL" then WithinOptimal
    else ThresholdExceeded(zone)
  }

  /** Every cue the engine can pick explains itself by speed or by power:
      the "within optimal" and "threshold exceeded" reasons never occur. */
  lemma ReasonOfEveryKey(key: CueKey, speedDiffPct: real, powerDiffW: real, zone: ZoneId)
    ensures ReasonFor(key.Name(), speedDiffPct, powerDiffW, zone) ==
      if key == SpeedHigh then SpeedAbove(speedDiffPct) else PowerAbove(powerDiffW)
  {
    match key
    case SpeedHigh =>
    case TurnPowerSpike =>
      assert key.Name() == "TURN_" + "POWER" + "_SPIKE";
      Texts.ContainsBetween("TURN_", "POWER", "_SPIKE");
    case StopApproachPower =>
      assert key.Name() == "STOP_APPROACH_" + "POWER" + "";
      Texts.ContainsBetween("STOP_APPROACH_", "POWER", "");
    case PowerHigh =>
      assert key.Name() == "" + "POWER" + "_HIGH";
      Texts.ContainsBetween("", "POWER", "_HIGH");
  }

  /** The type prefix of every cue key: the text before its first "_". */
  lemma TypePrefixOfKey(key: CueKey)
    ensures Texts.TypePrefix(key.Name()) ==
      match key
      case SpeedHigh => "SPEED"
      case TurnPowerSpike => "TURN"
      case StopApproachPower => "STOP"
      case PowerHigh => "POWER"
  {
    match key
    case SpeedHigh =>
      assert key.Name() == "SPEED" + "_HIGH";
      Texts.TypePrefixBeforeUnderscore("SPEED", "_HIGH");
    case TurnPowerSpike =>
      assert key.Name() == "TURN" + "_POWER_SPIKE";
      Texts.TypePrefixBeforeUnderscore("TURN", "_POWER_SPIKE");
    case StopApproachPower =>
      assert key.Name() == "STOP" + "_APPROACH_POWER";
      Texts.TypePrefixBeforeUnderscore("STOP", "_APPROACH_POWER");
    case PowerHigh =>
      assert key.Name() == "POWER" + "_HIGH";
      Texts.TypePrefixBeforeUnderscore("POWER", "_HIGH");
  }

  /** The four cue keys have four different type prefixes, so the type
      cooldown never couples two different keys. */
  lemma TypePrefixesDistinct(k1: CueKey, k2: CueKey)
    ensures Texts.TypePrefix(k1.Name()) == Texts.TypePrefix(k2.Name()) <==> k1 == k2
  {
    TypePrefixOfKey(k1);
    TypePrefixOfKey(k2);
  }

  /** The published cue record, with the legacy duplicates of four fields. */
  datatype Cue = Cue(
    ts: real, zoneId: ZoneId, zoneType: ZoneType, confidence: real, optState: string,
    state: DrivingState, isResponding: bool,
    currentSpeedKmh: real, optimalSpeedKmh: real, speedDiffPct: real,
    currentPowerW: real, optimalPowerW: real, powerDiffW: real,
    cueKey: string, cueText: string, reason: Reason,
    optSpeedKmh: real, optPowerW: real, speedKmh: real, powerW: real)

  /** How far `value` lies above `reference`, in percent of the reference;
      0 for a reference that is not positive. */
  function PercentAbove(value: real, reference: real): (p: real)
    ensures reference > 0.0 ==> p * reference == (value - reference) * 100.0
    ensures reference <= 0.0 ==> p == 0.0
  {
    if reference > 0.0 then
      var q := (value - reference) / reference;
      assert q * reference == value - reference;
      q * 100.0
    else 0.0
  }

  /** Builds the record for an emitted cue. */
  function MakeCue(now: real, zoneId: ZoneId, zoneType: ZoneType, confidence: real, optState: string,
                   e: Evaluation, key: CueKey, smSpeed: real, smPower: real, optSpeed: real, optPower: real)
    : (c: Cue)
    ensures c.ts == now && c.zoneId == zoneId && c.zoneType == zoneType
    ensures c.confidence == confidence && c.optState == optState
    ensures c.state == e.drivingState && c.isResponding == e.responding
    ensures c.cueKey == key.Name() && c.cueText == zoneId.Text() + ": " + key.Advice()
    ensures c.currentSpeedKmh == smSpeed * 3.6 && c.optimalSpeedKmh == optSpeed * 3.6
    ensures c.currentPowerW == smPower && c.optimalPowerW == optPower
    ensures c.speedDiffPct == PercentAbove(smSpeed, optSpeed)
    ensures c.powerDiffW + optPower == smPower
    ensures c.reason == if key == SpeedHigh then SpeedAbove(c.speedDiffPct) else PowerAbove(c.powerDiffW)
    ensures c.optSpeedKmh == c.optimalSpeedKmh && c.optPowerW == c.optimalPowerW
    ensures c.speedKmh == c.currentSpeedKmh && c.powerW == c.currentPowerW
  {
    var speedDiffPct := PercentAbove(smSpeed, optSpeed);
    var powerDiffW := smPower - optPower;
    ReasonOfEveryKey(key, speedDiffPct, powerDiffW, zoneId);
    Cue(now, zoneId, zoneType, confidence, optState,
        e.drivingState, e.responding,
        smSpeed * 3.6, optSpeed * 3.6, speedDiffPct,
        smPower, optPower, powerDiffW,
        key.Name(), zoneId.Text() + ": " + key.Advice(),
        ReasonFor(key.Name(), speedDiffPct, powerDiffW, zoneId),
        optSpeed * 3.6, optPower, smSpeed * 3.6, smPower)
  }

  // ---------------- rate limiting ----------------

  /** The last emission time under a key, 0.0 when there was none. */
  function LastOr0<K>(m: map<K, real>, k: K): real {
    if k in m then m[k] else 0.0
  }

  /** A gate passes unless less than `gap` seconds have gone by. */
  predicate Cooled<K>(m: map<K, real>, k: K, now: real, gap: real) {
    !(now - LastOr0(m, k) < gap)
  }

  /** The three cooldown clocks: per cue key, per zone id, per cue type. */
  datatype Cooldowns = Cooldowns(byKey: map<string, real>, byZone: map<ZoneId, real>, byType: map<string, real>)

  /** All three gates pass for cue `key` in `zone` at wall-clock time `now`. */
  predicate Passes(cfg: Config, c: Cooldowns, key: CueKey, zone: ZoneId, now: real) {
    && Cooled(c.byKey, key.Name(), now, cfg.minSecondsBetweenSameCue)
    && Cooled(c.byZone, zone, now, cfg.cueCooldownByZone)
    && Cooled(c.byType, Texts.TypePrefix(key.Name()), now, cfg.cueCooldownByType)
  }

  /** After a pass, every clock of the cue is stamped with the same time. */
  function Stamp(c: Cooldowns, key: CueKey, zone: ZoneId, now: real): (c': Cooldowns)
    ensures c'.byKey.Keys == c.byKey.Keys + {key.Name()} && c'.byKey[key.Name()] == now
    ensures c'.byZone.Keys == c.byZone.Keys + {zone} && c'.byZone[zone] == now
    ensures Texts.TypePrefix(key.Name()) in c'.byType && c'.byType[Texts.TypePrefix(key.Name())] == now
    ensures forall k :: k in c.byKey && k != key.Name() ==> c'.byKey[k] == c.byKey[k]
    ensures forall z :: z in c.byZone && z != zone ==> c'.byZone[z] == c.byZone[z]
    ensures c'.byType.Keys == c.byType.Keys + {Texts.TypePrefix(key.Name())}
    ensures forall t :: t in c.byType && t != Texts.TypePrefix(key.Name()) ==> c'.byType[t] == c.byType[t]
  {
    Cooldowns(c.byKey[key.Name() := now], c.byZone[zone := now],
              c.byType[Texts.TypePrefix(key.Name()) := now])
  }
}
