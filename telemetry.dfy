/** One telemetry sample and the sanity filters that turn it into a reading
    the engine can use: required fields, the speed bounds, and the power
    fallback chain. */
module Telemetry {
  import opened Wrappers
  import opened CoachConfig

  /** A sample as it arrives; every field but the timestamp may be missing.
      Speed is in km/h, power in W, current in A, voltage in V. */
  datatype Sample = Sample(
    timestamp: real,
    latitude: Option<real>, longitude: Option<real>,
    speedKmh: Option<real>,
    power: Option<real>, current: Option<real>, voltage: Option<real>)

  /** A sample that passed the filters, speed converted to m/s. */
  datatype Reading = Reading(
    ts: real, lat: real, lon: real,
    speedMps: real, powerW: real, currentA: Option<real>)

  function Abs(x: real): (r: real)
    ensures r >= 0.0 && (r == x || r == -x)
  {
    if x < 0.0 then -x else x
  }

  /** A present value outside `[lo, hi]` is treated as absent. */
  function Filter(v: Option<real>, lo: real, hi: real): (r: Option<real>)
    ensures r.Some? <==> v.Some? && lo <= v.value <= hi
    ensures r.Some? ==> r == v
  {
    if v.Some? && (v.value < lo || v.value > hi) then None else v
  }

  /** Power: the provided value when it is within bounds; otherwise voltage
      times the magnitude of current, when both passed their own bounds;
      the result is dropped if it is still out of bounds. */
  function ResolvePower(cfg: Config, power: Option<real>, voltage: Option<real>, current: Option<real>)
    : (r: Option<real>)
    ensures r.Some? ==> cfg.powerMinW <= r.value <= cfg.powerMaxW
    ensures Filter(power, cfg.powerMinW, cfg.powerMaxW).Some? ==> r == power
    ensures Filter(power, cfg.powerMinW, cfg.powerMaxW).None? ==>
      (r.Some? <==>
        && Filter(voltage, cfg.voltageMinV, cfg.voltageMaxV).Some?
        && Filter(current, cfg.currentMinA, cfg.currentMaxA).Some?
        && cfg.powerMinW <= voltage.value * Abs(current.value) <= cfg.powerMaxW)
    ensures Filter(power, cfg.powerMinW, cfg.powerMaxW).None? && r.Some? ==>
      r.value == voltage.value * Abs(current.value)
  {
    var v := Filter(voltage, cfg.voltageMinV, cfg.voltageMaxV);
    var i := Filter(current, cfg.currentMinA, cfg.currentMaxA);
    var p := Filter(power, cfg.powerMinW, cfg.powerMaxW);
    var p' := if p.None? && v.Some? && i.Some? then Some(v.value * Abs(i.value)) else p;
    if p'.None? then None
    else if p'.value < cfg.powerMinW || p'.value > cfg.powerMaxW then None
    else p'
  }

  /** The whole input filter: the sample is dropped when latitude, longitude
      or speed is missing, when speed is outside its bounds, or when power
      cannot be resolved. */
  function Validate(cfg: Config, msg: Sample): (r: Option<Reading>)
    ensures r.None? <==>
      || msg.latitude.None? || msg.longitude.None? || msg.speedKmh.None?
      || msg.speedKmh.value < cfg.speedMinKmh || msg.speedKmh.value > cfg.speedMaxKmh
      || ResolvePower(cfg, msg.power, msg.voltage, msg.current).None?
    ensures r.Some? ==>
      && r.value.ts == msg.timestamp
      && r.value.lat == msg.latitude.value && r.value.lon == msg.longitude.value
      && cfg.speedMinKmh <= r.value.speedMps * 3.6 <= cfg.speedMaxKmh
      && r.value.speedMps * 3.6 == msg.speedKmh.value
      && Some(r.value.powerW) == ResolvePower(cfg, msg.power, msg.voltage, msg.current)
      && r.value.currentA == Filter(msg.current, cfg.currentMinA, cfg.currentMaxA)
  {
    if msg.latitude.None? || msg.longitude.None? || msg.speedKmh.None? then None
    else
      var speedKmh := msg.speedKmh.value;
      if speedKmh < cfg.speedMinKmh || speedKmh > cfg.speedMaxKmh then None
      else
        var power := ResolvePower(cfg, msg.power, msg.voltage, msg.current);
        if power.None? then None
        else
          Some(Reading(msg.timestamp, msg.latitude.value, msg.longitude.value,
                       speedKmh / 3.6, power.value,
                       Filter(msg.current, cfg.currentMinA, cfg.currentMaxA)))
  }
}
