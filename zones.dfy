/** Classification of an arc-length position into a driving zone. Priority
    is turn, then stop approach, then straight. */
module Zones {
  import opened Wrappers
  import Texts
  import ArgMin
  import TrackMap

  datatype ZoneType = Turn | StopApproach | Straight {
    /** The type label the engine reports. */
    function Label(): string {
      match this
      case Turn => "TURN"
      case StopApproach => "STOP_APPROACH"
      case Straight => "STRAIGHT"
    }
  }

  /** A zone id: `TURN_<n>` for the n-th turn segment (counting from 1),
      `STOP_<line>_APPROACH` for the approach to a stop line, `STRAIGHT`. */
  datatype ZoneId = TurnId(number: nat) | StopApproachId(stopLine: int) | StraightId {

    /** The zone type an id belongs to. */
    function Kind(): ZoneType {
      match this
      case TurnId(_) => Turn
      case StopApproachId(_) => StopApproach
      case StraightId => Straight
    }

    /** The printed id; its shape identifies the zone type. */
    function Text(): (t: string)
      ensures Kind() == Turn ==> "TURN_" <= t
      ensures Kind() == StopApproach ==> "STOP_" <= t && |t| >= 14 && t[|t| - 9..] == "_APPROACH"
      ensures Kind() == Straight ==> t == "STRAIGHT"
    {
      match this
      case TurnId(n) => "TURN_" + Texts.NatText(n)
      case StopApproachId(line) => "STOP_" + Texts.IntText(line) + "_APPROACH"
      case StraightId => "STRAIGHT"
    }
  }

  /** The printed id determines the zone id, so tables keyed by the printed
      id and maps keyed by `ZoneId` agree. */
  lemma ZoneTextInjective(a: ZoneId, b: ZoneId)
    ensures a.Text() == b.Text() <==> a == b
  {
    if a.Text() == b.Text() {
      var t := a.Text();
      match a
      case TurnId(n) =>
        assert t[0] == 'T';
        if b.TurnId? {
          assert Texts.NatText(n) == t[5..] == Texts.NatText(b.number);
          Texts.NatTextInjective(n, b.number);
        }
      case StopApproachId(k) =>
        assert t[0] == 'S' && t[2] == 'O';
        if b.StopApproachId? {
          var m := b.stopLine;
          assert |Texts.IntText(k)| == |t| - 14 == |Texts.IntText(m)|;
          assert Texts.IntText(k) == t[5..|t| - 9] == Texts.IntText(m);
          Texts.IntTextInjective(k, m);
        }
      case StraightId =>
        assert t[0] == 'S' && t[2] == 'R';
    }
  }

  /** A turn's arc-length interval; `start > end` means it wraps through 0. */
  datatype TurnSegment = TurnSegment(start: real, end: real)

  /** A stop line: its number and its arc-length position. */
  datatype StopLine = StopLine(id: int, s: real)

  /** Wrap-aware membership of `s` in a turn interval. */
  predicate InTurn(seg: TurnSegment, s: real) {
    if seg.start <= seg.end then seg.start <= s <= seg.end
    else s >= seg.start || s <= seg.end
  }

  /** The first turn, at index `i` or later, that contains `s`. */
  function FirstTurn(turns: seq<TurnSegment>, s: real, i: nat): (r: Option<nat>)
    requires i <= |turns|
    ensures r.Some? ==> i <= r.value < |turns| && InTurn(turns[r.value], s)
    ensures r.Some? ==> forall j :: i <= j < r.value ==> !InTurn(turns[j], s)
    ensures r.None? ==> forall j :: i <= j < |turns| ==> !InTurn(turns[j], s)
    decreases |turns| - i
  {
    if i == |turns| then None
    else if InTurn(turns[i], s) then Some(i)
    else FirstTurn(turns, s, i + 1)
  }

  /** Forward distance to each stop line when it is within the approach
      window `(0, approach]`, otherwise `None`. */
  function StopCosts(stops: seq<StopLine>, s: real, L: real, approach: real): (c: seq<Option<real>>)
    ensures |c| == |stops|
    ensures forall k :: 0 <= k < |c| ==>
      (c[k].Some? <==> 0.0 < TrackMap.ForwardDist(s, stops[k].s, L) <= approach)
    ensures forall k :: 0 <= k < |c| && c[k].Some? ==> c[k].value == TrackMap.ForwardDist(s, stops[k].s, L)
  {
    seq(|stops|, k requires 0 <= k < |stops| =>
      var d := TrackMap.ForwardDist(s, stops[k].s, L);
      if 0.0 < d <= approach then Some(d) else None)
  }

  /** The stop line whose approach window holds `s` at the least forward
      distance, the earliest row on ties. */
  function NearestStop(stops: seq<StopLine>, s: real, L: real, approach: real): Option<nat> {
    ArgMin.EarliestMin(StopCosts(stops, s, L, approach), |stops|)
  }

  /** The zone classification of position `s`. */
  function Classify(s: real, stops: seq<StopLine>, turns: seq<TurnSegment>, L: real, approach: real)
    : (r: (ZoneType, ZoneId))
    ensures r.0 == r.1.Kind()
  {
    match FirstTurn(turns, s, 0)
    case Some(i) => (Turn, TurnId(i + 1))
    case None =>
      match NearestStop(stops, s, L, approach)
      case Some(k) => (StopApproach, StopApproachId(stops[k].id))
      case None => (Straight, StraightId)
  }

  /** The classifier as the source runs it: a turn scan with early return,
      then a scan for the nearest stop line ahead. */
  method AssignZoneId(s: real, stops: seq<StopLine>, turns: seq<TurnSegment>, L: real, approach: real)
    returns (zoneType: ZoneType, zoneId: ZoneId)
    ensures (zoneType, zoneId) == Classify(s, stops, turns, L, approach)
  {
    for i := 0 to |turns|
      invariant forall j :: 0 <= j < i ==> !InTurn(turns[j], s)
    {
      var a, b := turns[i].start, turns[i].end;
      var inTurn := if a <= b then a <= s <= b else s >= a || s <= b;
      if inTurn {
        assert FirstTurn(turns, s, 0) == Some(i);
        return Turn, TurnId(i + 1);
      }
    }
    assert FirstTurn(turns, s, 0).None?;
    ghost var costs := StopCosts(stops, s, L, approach);
    var best: Option<(real, int)> := None;
    for k := 0 to |stops|
      invariant best.None? <==> ArgMin.EarliestMin(costs, k).None?
      invariant best.Some? ==>
        var w := ArgMin.EarliestMin(costs, k).value;
        best.value == (costs[w].value, stops[w].id)
    {
      var sStop := stops[k].s;
      var d := sStop - s;
      if d < 0.0 {
        d := d + L;
      }
      assert d == TrackMap.ForwardDist(s, sStop, L);
      if 0.0 < d <= approach {
        if best.None? || d < best.value.0 {
          best := Some((d, stops[k].id));
        }
      }
    }
    if best.Some? {
      return StopApproach, StopApproachId(best.value.1);
    }
    return Straight, StraightId;
  }

  /** A turn containing `s` always wins: the first one by index gives the id,
      and stop lines are not considered. */
  lemma TurnWins(s: real, stops: seq<StopLine>, turns: seq<TurnSegment>, L: real, approach: real, i: nat)
    requires i < |turns| && InTurn(turns[i], s)
    requires forall j :: 0 <= j < i ==> !InTurn(turns[j], s)
    ensures Classify(s, stops, turns, L, approach) == (Turn, TurnId(i + 1))
  {
  }

  /** Conversely, a turn zone names a turn that contains `s`, with no earlier
      turn containing it. */
  lemma TurnZoneMeansInTurn(s: real, stops: seq<StopLine>, turns: seq<TurnSegment>, L: real, approach: real)
    ensures Classify(s, stops, turns, L, approach).0 == Turn ==>
      var n := Classify(s, stops, turns, L, approach).1.number;
      && 1 <= n <= |turns| && InTurn(turns[n - 1], s)
      && forall j :: 0 <= j < n - 1 ==> !InTurn(turns[j], s)
  {
  }

  /** With no turn containing `s`, the zone is the approach of the stop line
      nearest ahead within the window (earliest row on ties), if any. */
  lemma StopApproachWins(s: real, stops: seq<StopLine>, turns: seq<TurnSegment>, L: real, approach: real, k: nat)
    requires forall j :: 0 <= j < |turns| ==> !InTurn(turns[j], s)
    requires k < |stops|
    requires 0.0 < TrackMap.ForwardDist(s, stops[k].s, L) <= approach
    requires forall j :: 0 <= j < |stops| && 0.0 < TrackMap.ForwardDist(s, stops[j].s, L) <= approach ==>
               TrackMap.ForwardDist(s, stops[k].s, L) <= TrackMap.ForwardDist(s, stops[j].s, L)
    requires forall j :: 0 <= j < k && 0.0 < TrackMap.ForwardDist(s, stops[j].s, L) <= approach ==>
               TrackMap.ForwardDist(s, stops[k].s, L) < TrackMap.ForwardDist(s, stops[j].s, L)
    ensures Classify(s, stops, turns, L, approach) == (StopApproach, StopApproachId(stops[k].id))
  {
    var costs := StopCosts(stops, s, L, approach);
    ArgMin.EarliestMinUnique(costs, |stops|, k);
  }

  /** Conversely, a stop-approach zone means no turn contains `s` and the
      named line is the nearest candidate ahead. */
  lemma StopZoneMeansNearestAhead(s: real, stops: seq<StopLine>, turns: seq<TurnSegment>, L: real, approach: real)
    ensures Classify(s, stops, turns, L, approach).0 == StopApproach ==>
      && (forall j :: 0 <= j < |turns| ==> !InTurn(turns[j], s))
      && NearestStop(stops, s, L, approach).Some?
      && var k := NearestStop(stops, s, L, approach).value;
      && Classify(s, stops, turns, L, approach).1 == StopApproachId(stops[k].id)
      && 0.0 < TrackMap.ForwardDist(s, stops[k].s, L) <= approach
      && (forall j :: 0 <= j < |stops| && 0.0 < TrackMap.ForwardDist(s, stops[j].s, L) <= approach ==>
            TrackMap.ForwardDist(s, stops[k].s, L) <= TrackMap.ForwardDist(s, stops[j].s, L))
  {
    ArgMin.EarliestMinCorrect(StopCosts(stops, s, L, approach), |stops|);
  }

  /** The zone is STRAIGHT exactly when no turn contains `s` and no stop line
      lies ahead within the window. */
  lemma StraightIffNothingMatches(s: real, stops: seq<StopLine>, turns: seq<TurnSegment>, L: real, approach: real)
    ensures Classify(s, stops, turns, L, approach).0 == Straight <==>
      && (forall j :: 0 <= j < |turns| ==> !InTurn(turns[j], s))
      && (forall k :: 0 <= k < |stops| ==> !(0.0 < TrackMap.ForwardDist(s, stops[k].s, L) <= approach))
  {
    var costs := StopCosts(stops, s, L, approach);
    ArgMin.EarliestMinCorrect(costs, |stops|);
    if forall k :: 0 <= k < |stops| ==> !(0.0 < TrackMap.ForwardDist(s, stops[k].s, L) <= approach) {
      assert forall k :: 0 <= k < |stops| ==> costs[k].None?;
    }
  }

  /** A car standing exactly on a stop line is not approaching it. */
  lemma OnStopLineNotApproaching(stops: seq<StopLine>, L: real, approach: real, k: nat)
    requires k < |stops|
    ensures StopCosts(stops, stops[k].s, L, approach)[k].None?
  {
  }
}
