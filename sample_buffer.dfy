/** The time-pruned queue of accepted samples and the window the smoother
    reads from its end. */
module SampleBuffer {
  import opened Wrappers

  /** One accepted sample as the engine keeps it: timestamp, GPS fix, local
      coordinates, arc-length, side and squared distance to the track,
      speed in m/s, power in W and the filtered current. */
  datatype BufferedSample = BufferedSample(
    ts: real, lat: real, lon: real,
    x: real, y: real,
    s: real, side: real, dist2: Option<real>,
    speedMps: real, powerW: real, currentA: Option<real>)

  /** The buffer after dropping samples from the front while the newest
      time `now` is more than `horizon` seconds past the oldest remaining one. */
  function Pruned(buf: seq<BufferedSample>, now: real, horizon: real): seq<BufferedSample>
    decreases |buf|
  {
    if |buf| > 0 && now - buf[0].ts > horizon then Pruned(buf[1..], now, horizon) else buf
  }

  /** Pruning keeps a suffix, drops only stale samples and stops at the first
      fresh one; a newest sample stamped `now` always survives. */
  lemma {:induction false} PrunedFacts(buf: seq<BufferedSample>, now: real, horizon: real)
    ensures var r := Pruned(buf, now, horizon);
      && |r| <= |buf| && r == buf[|buf| - |r|..]
      && (forall j :: 0 <= j < |buf| - |r| ==> now - buf[j].ts > horizon)
      && (|r| > 0 ==> now - r[0].ts <= horizon)
      && (horizon >= 0.0 && |buf| > 0 && buf[|buf| - 1].ts == now ==>
            |r| > 0 && r[|r| - 1] == buf[|buf| - 1])
    decreases |buf|
  {
    if |buf| > 0 && now - buf[0].ts > horizon {
      PrunedFacts(buf[1..], now, horizon);
      var r := Pruned(buf, now, horizon);
      assert r == Pruned(buf[1..], now, horizon);
      forall j | 0 <= j < |buf| - |r| ensures now - buf[j].ts > horizon {
        if j > 0 {
          assert buf[j] == buf[1..][j - 1];
        }
      }
    }
  }

  /** The pruning loop of the buffer. */
  method Prune(buf: seq<BufferedSample>, now: real, horizon: real) returns (r: seq<BufferedSample>)
    ensures r == Pruned(buf, now, horizon)
  {
    r := buf;
    while |r| > 0 && now - r[0].ts > horizon
      invariant Pruned(r, now, horizon) == Pruned(buf, now, horizon)
      decreases |r|
    {
      r := r[1..];
    }
  }

  /** Python's `list(buf)[-win:]` for a window of at least one sample: the
      last `min(win, |buf|)` samples. */
  function Window(buf: seq<BufferedSample>, win: int): (r: seq<BufferedSample>)
    requires win >= 1
    ensures |r| == if win < |buf| then win else |buf|
    ensures r == buf[|buf| - |r|..]
  {
    if win < |buf| then buf[|buf| - win..] else buf
  }

  function Speeds(w: seq<BufferedSample>): (r: seq<real>)
    ensures |r| == |w| && forall i :: 0 <= i < |w| ==> r[i] == w[i].speedMps
  {
    seq(|w|, i requires 0 <= i < |w| => w[i].speedMps)
  }

  function Powers(w: seq<BufferedSample>): (r: seq<real>)
    ensures |r| == |w| && forall i :: 0 <= i < |w| ==> r[i] == w[i].powerW
  {
    seq(|w|, i requires 0 <= i < |w| => w[i].powerW)
  }
}
