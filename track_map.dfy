/** Geometry of the track: the local planar frame around the GPS origin,
    the projection of a point onto the track polyline, and forward distance
    along the closed loop. Numbers are exact reals; cosine is supplied by
    the caller and square roots are never taken (the projection keeps the
    squared distance). */
module TrackMap {
  import opened Wrappers
  import ArgMin

  const EARTH_RADIUS_M: real := 6371000.0
  const PI: real := 3.141592653589793
  /** Segments whose squared length is below this are skipped. */
  const MIN_SEGMENT_LENGTH2: real := 0.000000001

  /** The track polyline: vertex coordinates `xs`, `ys`, the arc-length `ss`
      of each vertex, and the loop length. */
  datatype Track = Track(xs: seq<real>, ys: seq<real>, ss: seq<real>, length: real) {

    predicate Valid() {
      |xs| == |ys| == |ss|
    }

    /** Python's `range(len(px) - 1)` is empty for zero or one vertex. */
    function SegmentCount(): nat {
      if |xs| == 0 then 0 else |xs| - 1
    }
  }

  function DegToRad(deg: real): real {
    deg * PI / 180.0
  }

  /** Equirectangular projection of (lat, lon) around (lat0, lon0), with the
      cosine function taken as a parameter. */
  function GpsToLocalXY(lat: real, lon: real, lat0: real, lon0: real, cos: real -> real): (xy: (real, real))
    ensures lat == lat0 && lon == lon0 ==> xy == (0.0, 0.0)
  {
    var dLon, dLat := DegToRad(lon) - DegToRad(lon0), DegToRad(lat) - DegToRad(lat0);
    assert lon == lon0 ==> dLon * cos(DegToRad(lat0)) == 0.0;
    (dLon * cos(DegToRad(lat0)) * EARTH_RADIUS_M, dLat * EARTH_RADIUS_M)
  }

  /** Python's `max(0.0, min(1.0, t))`. */
  function Clamp01(t: real): (r: real)
    ensures 0.0 <= r <= 1.0
    ensures 0.0 <= t <= 1.0 ==> r == t
    ensures t < 0.0 ==> r == 0.0
    ensures t > 1.0 ==> r == 1.0
  {
    if t < 0.0 then 0.0 else if t > 1.0 then 1.0 else t
  }

  function Min(a: real, b: real): real { if a <= b then a else b }
  function Max(a: real, b: real): real { if a <= b then b else a }

  lemma MulNonNegative(a: real, b: real)
    requires 0.0 <= a && 0.0 <= b
    ensures 0.0 <= a * b
  {
  }

  /** Linear interpolation with a parameter in [0, 1] stays between its ends. */
  lemma InterpolationBetween(a: real, b: real, t: real)
    requires 0.0 <= t <= 1.0
    ensures Min(a, b) <= a + t * (b - a) <= Max(a, b)
  {
    if a <= b {
      MulNonNegative(t, b - a);
      MulNonNegative(1.0 - t, b - a);
    } else {
      MulNonNegative(t, a - b);
      MulNonNegative(1.0 - t, a - b);
    }
  }

  /** Squared length of segment `i`. */
  function SegmentLength2(track: Track, i: nat): real
    requires track.Valid() && i < track.SegmentCount()
  {
    var vx, vy := track.xs[i + 1] - track.xs[i], track.ys[i + 1] - track.ys[i];
    vx * vx + vy * vy
  }

  /** The 2-D cross product of segment `i`'s direction with the vector from
      its start to (x, y). */
  function Cross(track: Track, x: real, y: real, i: nat): real
    requires track.Valid() && i < track.SegmentCount()
  {
    var vx, vy := track.xs[i + 1] - track.xs[i], track.ys[i + 1] - track.ys[i];
    vx * (y - track.ys[i]) - vy * (x - track.xs[i])
  }

  /** The parameter in [0, 1] of the foot of the perpendicular from w to
      the line through v, where vv = |v|² > 0. */
  function ClampedFoot(wx: real, wy: real, vx: real, vy: real, vv: real): real
    requires vv > 0.0
  {
    Clamp01((wx * vx + wy * vy) / vv)
  }

  /** The clamped parameter of the point of segment `i` closest to (x, y). */
  function SegmentParam(track: Track, x: real, y: real, i: nat): (t: real)
    requires track.Valid() && i < track.SegmentCount()
    requires SegmentLength2(track, i) >= MIN_SEGMENT_LENGTH2
    ensures 0.0 <= t <= 1.0
  {
    ClampedFoot(x - track.xs[i], y - track.ys[i], track.xs[i + 1] - track.xs[i], track.ys[i + 1] - track.ys[i],
                SegmentLength2(track, i))
  }

  /** Squared distance from (x, y) to the point at parameter `t` of segment `i`. */
  function Distance2At(track: Track, x: real, y: real, i: nat, t: real): (d2: real)
    requires track.Valid() && i < track.SegmentCount()
    ensures d2 >= 0.0
  {
    var vx, vy := track.xs[i + 1] - track.xs[i], track.ys[i + 1] - track.ys[i];
    var dx, dy := x - (track.xs[i] + t * vx), y - (track.ys[i] + t * vy);
    assert dx * dx >= 0.0 && dy * dy >= 0.0;
    dx * dx + dy * dy
  }

  /** Arc-length at parameter `t` of segment `i`, interpolated between the
      arc-lengths of its vertices. */
  function ArcAt(track: Track, i: nat, t: real): (s: real)
    requires track.Valid() && i < track.SegmentCount()
    requires 0.0 <= t <= 1.0
    ensures Min(track.ss[i], track.ss[i + 1]) <= s <= Max(track.ss[i], track.ss[i + 1])
  {
    InterpolationBetween(track.ss[i], track.ss[i + 1], t);
    track.ss[i] + t * (track.ss[i + 1] - track.ss[i])
  }

  /** What one segment contributes to the scan: the squared distance from the
      point to its closest point, the arc-length there, and the side. */
  datatype SegmentFit = SegmentFit(dist2: real, s: real, side: real)

  /** The closest point of segment `i` (vertices `i`, `i + 1`) to (x, y), or
      `None` when the segment is degenerate. */
  function FitSegment(track: Track, x: real, y: real, i: nat): (f: Option<SegmentFit>)
    requires track.Valid() && i < track.SegmentCount()
    ensures f.None? <==> SegmentLength2(track, i) < MIN_SEGMENT_LENGTH2
    ensures f.Some? ==> f.value.dist2 >= 0.0
    ensures f.Some? ==> Min(track.ss[i], track.ss[i + 1]) <= f.value.s <= Max(track.ss[i], track.ss[i + 1])
    ensures f.Some? ==> (f.value.side == 1.0 <==> Cross(track, x, y, i) >= 0.0)
    ensures f.Some? ==> (f.value.side == -1.0 <==> Cross(track, x, y, i) < 0.0)
  {
    if SegmentLength2(track, i) < MIN_SEGMENT_LENGTH2 then None
    else
      var t := SegmentParam(track, x, y, i);
      Some(SegmentFit(Distance2At(track, x, y, i, t), ArcAt(track, i, t),
                      if Cross(track, x, y, i) >= 0.0 then 1.0 else -1.0))
  }

  /** The squared distance of each segment, `None` for degenerate ones. */
  function SegmentCosts(track: Track, x: real, y: real): (c: seq<Option<real>>)
    requires track.Valid()
    ensures |c| == track.SegmentCount()
    ensures forall i :: 0 <= i < |c| ==> (c[i].Some? <==> FitSegment(track, x, y, i).Some?)
    ensures forall i :: 0 <= i < |c| && c[i].Some? ==> c[i].value == FitSegment(track, x, y, i).value.dist2
  {
    seq(track.SegmentCount(), i requires 0 <= i < track.SegmentCount() =>
      match FitSegment(track, x, y, i)
      case None => None
      case Some(f) => Some(f.dist2))
  }

  /** The segment the scan settles on: the earliest non-degenerate segment of
      least squared distance. */
  function WinningSegment(track: Track, x: real, y: real): (w: Option<nat>)
    requires track.Valid()
    ensures w.Some? ==> w.value < track.SegmentCount() && FitSegment(track, x, y, w.value).Some?
  {
    ArgMin.EarliestMin(SegmentCosts(track, x, y), track.SegmentCount())
  }

  /** Result of the projection: arc-length `s`, side sign, and the squared
      distance, `None` standing for the +infinity left when no segment
      qualified. The signed offset of the source is side * sqrt(dist2). */
  datatype Projection = Projection(s: real, side: real, dist2: Option<real>)

  /** The projection of (x, y) onto the track, as a function of its winner. */
  function ProjectionOf(track: Track, x: real, y: real): Projection
    requires track.Valid()
  {
    match WinningSegment(track, x, y)
    case None => Projection(0.0, 1.0, None)
    case Some(k) =>
      var f := FitSegment(track, x, y, k).value;
      Projection(f.s, f.side, Some(f.dist2))
  }

  /** The arg-min scan over the polyline's segments. */
  method ProjectToPolyline(track: Track, x: real, y: real) returns (p: Projection)
    requires track.Valid()
    ensures p == ProjectionOf(track, x, y)
  {
    ghost var costs := SegmentCosts(track, x, y);
    var bestDist2: Option<real> := None;
    var bestS := 0.0;
    var bestSign := 1.0;
    var n := if |track.xs| == 0 then 0 else |track.xs| - 1;
    for i := 0 to n
      invariant bestDist2.None? ==> ArgMin.EarliestMin(costs, i).None? && bestS == 0.0 && bestSign == 1.0
      invariant bestDist2.Some? ==> ArgMin.EarliestMin(costs, i).Some?
      invariant bestDist2.Some? ==>
        var f := FitSegment(track, x, y, ArgMin.EarliestMin(costs, i).value).value;
        bestDist2 == Some(f.dist2) && bestS == f.s && bestSign == f.side
    {
      var vv := SegmentLength2(track, i);
      if vv < MIN_SEGMENT_LENGTH2 {
        continue;
      }
      var t := SegmentParam(track, x, y, i);
      var dist2 := Distance2At(track, x, y, i, t);
      if bestDist2.None? || dist2 < bestDist2.value {
        bestDist2 := Some(dist2);
        bestS := ArcAt(track, i, t);
        var cross := Cross(track, x, y, i);
        bestSign := if cross >= 0.0 then 1.0 else -1.0;
      }
    }
    p := Projection(bestS, bestSign, bestDist2);
  }

  /** The projection comes from the earliest non-degenerate segment of least
      squared distance, and from no other segment. */
  lemma ProjectionFromEarliestNearest(track: Track, x: real, y: real, k: nat)
    requires track.Valid() && k < track.SegmentCount()
    requires FitSegment(track, x, y, k).Some?
    requires forall j :: 0 <= j < track.SegmentCount() && FitSegment(track, x, y, j).Some? ==>
               FitSegment(track, x, y, k).value.dist2 <= FitSegment(track, x, y, j).value.dist2
    requires forall j :: 0 <= j < k && FitSegment(track, x, y, j).Some? ==>
               FitSegment(track, x, y, k).value.dist2 < FitSegment(track, x, y, j).value.dist2
    ensures WinningSegment(track, x, y) == Some(k)
    ensures ProjectionOf(track, x, y) ==
      Projection(FitSegment(track, x, y, k).value.s, FitSegment(track, x, y, k).value.side,
                 Some(FitSegment(track, x, y, k).value.dist2))
  {
    ArgMin.EarliestMinUnique(SegmentCosts(track, x, y), track.SegmentCount(), k);
  }

  /** The winner's squared distance is no larger than any non-degenerate
      segment's, and every earlier non-degenerate segment is strictly farther. */
  lemma ProjectionIsNearest(track: Track, x: real, y: real)
    requires track.Valid()
    ensures WinningSegment(track, x, y).Some? ==>
      var k := WinningSegment(track, x, y).value;
      && ProjectionOf(track, x, y).dist2 == Some(FitSegment(track, x, y, k).value.dist2)
      && (forall j :: 0 <= j < track.SegmentCount() && FitSegment(track, x, y, j).Some? ==>
            FitSegment(track, x, y, k).value.dist2 <= FitSegment(track, x, y, j).value.dist2)
      && (forall j :: 0 <= j < k && FitSegment(track, x, y, j).Some? ==>
            FitSegment(track, x, y, k).value.dist2 < FitSegment(track, x, y, j).value.dist2)
  {
    var costs := SegmentCosts(track, x, y);
    ArgMin.EarliestMinCorrect(costs, track.SegmentCount());
  }

  /** The difference of two squares along one axis, factored. */
  lemma SquareDifference(a: real, b: real, t: real, t': real)
    ensures (a - t' * b) * (a - t' * b) - (a - t * b) * (a - t * b) == (t - t') * b * (2.0 * a - (t + t') * b)
  {
  }

  /** Squared length of w - t * v. */
  function OffsetLength2(wx: real, wy: real, vx: real, vy: real, t: real): real {
    (wx - t * vx) * (wx - t * vx) + (wy - t * vy) * (wy - t * vy)
  }

  /** Along the line w - t * v, with |v|² = vv > 0, the clamped foot of the
      perpendicular is no farther than any other parameter in [0, 1]. */
  lemma ClampedFootIsClosest(wx: real, wy: real, vx: real, vy: real, vv: real, t': real)
    requires vv == vx * vx + vy * vy && vv > 0.0
    requires 0.0 <= t' <= 1.0
    ensures OffsetLength2(wx, wy, vx, vy, ClampedFoot(wx, wy, vx, vy, vv)) <= OffsetLength2(wx, wy, vx, vy, t')
  {
    var wv := wx * vx + wy * vy;
    var foot := wv / vv;
    var t := Clamp01(foot);
    SquareDifference(wx, vx, t, t');
    SquareDifference(wy, vy, t, t');
    var gap := (t - t') * vx * (2.0 * wx - (t + t') * vx) + (t - t') * vy * (2.0 * wy - (t + t') * vy);
    assert gap == (t - t') * (2.0 * wv - (t + t') * vv);
    assert 2.0 * wv == 2.0 * foot * vv;
    var p := (t' - t) * (t + t' - 2.0 * foot);
    assert gap == p * vv;
    if foot < 0.0 {
      MulNonNegative(t' - t, t + t' - 2.0 * foot);
    } else if foot > 1.0 {
      MulNonNegative(t - t', 2.0 * foot - t' - t);
      assert p == (t - t') * (2.0 * foot - t' - t);
    } else {
      assert p == (t' - t) * (t' - t);
    }
    MulNonNegative(p, vv);
  }

  /** The squared distance to a point of segment `i`, measured from its start vertex. */
  lemma Distance2AtFromStart(track: Track, x: real, y: real, i: nat, t: real)
    requires track.Valid() && i < track.SegmentCount()
    ensures Distance2At(track, x, y, i, t) ==
      OffsetLength2(x - track.xs[i], y - track.ys[i], track.xs[i + 1] - track.xs[i], track.ys[i + 1] - track.ys[i], t)
  {
  }

  /** The parameter of a non-degenerate segment's fit, measured from its start vertex. */
  lemma SegmentParamFromStart(track: Track, x: real, y: real, i: nat)
    requires track.Valid() && i < track.SegmentCount()
    requires SegmentLength2(track, i) >= MIN_SEGMENT_LENGTH2
    ensures SegmentLength2(track, i) ==
      (track.xs[i + 1] - track.xs[i]) * (track.xs[i + 1] - track.xs[i]) +
      (track.ys[i + 1] - track.ys[i]) * (track.ys[i + 1] - track.ys[i])
    ensures SegmentParam(track, x, y, i) ==
      ClampedFoot(x - track.xs[i], y - track.ys[i], track.xs[i + 1] - track.xs[i], track.ys[i + 1] - track.ys[i],
                  SegmentLength2(track, i))
  {
  }

  /** The fit of a non-degenerate segment is its closest point: no point of
      the segment is nearer to (x, y). */
  lemma FitIsClosest(track: Track, x: real, y: real, i: nat, t': real)
    requires track.Valid() && i < track.SegmentCount()
    requires SegmentLength2(track, i) >= MIN_SEGMENT_LENGTH2
    requires 0.0 <= t' <= 1.0
    ensures Distance2At(track, x, y, i, SegmentParam(track, x, y, i)) <= Distance2At(track, x, y, i, t')
  {
    var vx, vy := track.xs[i + 1] - track.xs[i], track.ys[i + 1] - track.ys[i];
    var wx, wy := x - track.xs[i], y - track.ys[i];
    SegmentParamFromStart(track, x, y, i);
    ClampedFootIsClosest(wx, wy, vx, vy, SegmentLength2(track, i), t');
    Distance2AtFromStart(track, x, y, i, SegmentParam(track, x, y, i));
    Distance2AtFromStart(track, x, y, i, t');
  }

  /** The projection is the nearest point of the polyline: whenever some
      segment is non-degenerate, its squared distance is no larger than that
      of any point of any non-degenerate segment. */
  lemma ProjectionIsClosestPoint(track: Track, x: real, y: real, j: nat, t': real)
    requires track.Valid() && j < track.SegmentCount()
    requires SegmentLength2(track, j) >= MIN_SEGMENT_LENGTH2
    requires 0.0 <= t' <= 1.0
    ensures ProjectionOf(track, x, y).dist2.Some?
    ensures ProjectionOf(track, x, y).dist2.value <= Distance2At(track, x, y, j, t')
  {
    ProjectionWhenNoSegment(track, x, y);
    ProjectionIsNearest(track, x, y);
    FitIsClosest(track, x, y, j, t');
    assert FitSegment(track, x, y, j).value.dist2 == Distance2At(track, x, y, j, SegmentParam(track, x, y, j));
  }

  /** With no non-degenerate segment (fewer than two vertices, or all of them
      degenerate) the projection is arc-length 0 on the + side, and only then
      is the distance left at infinity. */
  lemma ProjectionWhenNoSegment(track: Track, x: real, y: real)
    requires track.Valid()
    ensures ProjectionOf(track, x, y).dist2.None? <==>
      forall j :: 0 <= j < track.SegmentCount() ==> SegmentLength2(track, j) < MIN_SEGMENT_LENGTH2
    ensures ProjectionOf(track, x, y).dist2.None? ==> ProjectionOf(track, x, y) == Projection(0.0, 1.0, None)
  {
    var costs := SegmentCosts(track, x, y);
    ArgMin.EarliestMinCorrect(costs, track.SegmentCount());
    if ProjectionOf(track, x, y).dist2.None? {
      forall j | 0 <= j < track.SegmentCount()
        ensures SegmentLength2(track, j) < MIN_SEGMENT_LENGTH2
      {
        assert costs[j].None?;
      }
    } else {
      var k := WinningSegment(track, x, y).value;
      assert SegmentLength2(track, k) >= MIN_SEGMENT_LENGTH2;
    }
  }

  /** The projected arc-length lies on the winning segment, between its two
      vertices' arc-lengths, and the side is +1 exactly when that segment's
      cross product is non-negative. */
  lemma ProjectionOnWinningSegment(track: Track, x: real, y: real)
    requires track.Valid()
    ensures WinningSegment(track, x, y).Some? ==>
      var k := WinningSegment(track, x, y).value;
      var p := ProjectionOf(track, x, y);
      && Min(track.ss[k], track.ss[k + 1]) <= p.s <= Max(track.ss[k], track.ss[k + 1])
      && (p.side == 1.0 <==> Cross(track, x, y, k) >= 0.0)
      && (p.side == -1.0 <==> Cross(track, x, y, k) < 0.0)
  {
  }

  /** On a track whose arc-lengths start at 0 and never decrease, every
      projection lies between 0 and the last vertex's arc-length, and so
      within the loop length when the last vertex does not pass it. */
  lemma ProjectionWithinTrack(track: Track, x: real, y: real)
    requires track.Valid() && |track.ss| > 0
    requires track.ss[0] == 0.0
    requires forall i, j :: 0 <= i <= j < |track.ss| ==> track.ss[i] <= track.ss[j]
    ensures 0.0 <= ProjectionOf(track, x, y).s <= track.ss[|track.ss| - 1]
    ensures track.ss[|track.ss| - 1] <= track.length ==> ProjectionOf(track, x, y).s <= track.length
  {
    if WinningSegment(track, x, y).Some? {
      var k := WinningSegment(track, x, y).value;
      assert track.ss[0] <= track.ss[k] <= track.ss[k + 1] <= track.ss[|track.ss| - 1];
    }
  }

  /** A segment's own start vertex is at distance zero from it, at the
      vertex's arc-length, on the + side. */
  lemma FitAtSegmentStart(track: Track, i: nat)
    requires track.Valid() && i < track.SegmentCount()
    requires SegmentLength2(track, i) >= MIN_SEGMENT_LENGTH2
    ensures FitSegment(track, track.xs[i], track.ys[i], i) == Some(SegmentFit(0.0, track.ss[i], 1.0))
  {
    var x, y := track.xs[i], track.ys[i];
    var vx, vy := track.xs[i + 1] - x, track.ys[i + 1] - y;
    assert (x - x) * vx + (y - y) * vy == 0.0;
    assert SegmentParam(track, x, y, i) == 0.0;
    assert Distance2At(track, x, y, i, 0.0) == 0.0 by {
      assert 0.0 * vx == 0.0 && 0.0 * vy == 0.0;
    }
    assert ArcAt(track, i, 0.0) == track.ss[i] by {
      assert 0.0 * (track.ss[i + 1] - track.ss[i]) == 0.0;
    }
    assert Cross(track, x, y, i) == 0.0 by {
      assert vx * (y - y) == 0.0 && vy * (x - x) == 0.0;
    }
  }

  /** A segment's own end vertex fits it at distance zero, at the end
      vertex's arc-length, on the + side. */
  lemma FitAtSegmentEnd(track: Track, i: nat)
    requires track.Valid() && i < track.SegmentCount()
    requires SegmentLength2(track, i) >= MIN_SEGMENT_LENGTH2
    ensures FitSegment(track, track.xs[i + 1], track.ys[i + 1], i) == Some(SegmentFit(0.0, track.ss[i + 1], 1.0))
  {
    var x, y := track.xs[i + 1], track.ys[i + 1];
    var vx, vy := x - track.xs[i], y - track.ys[i];
    assert (x - track.xs[i]) * vx + (y - track.ys[i]) * vy == SegmentLength2(track, i);
    assert SegmentParam(track, x, y, i) == 1.0;
    assert Distance2At(track, x, y, i, 1.0) == 0.0 by {
      assert 1.0 * vx == vx && 1.0 * vy == vy;
    }
    assert ArcAt(track, i, 1.0) == track.ss[i + 1] by {
      assert 1.0 * (track.ss[i + 1] - track.ss[i]) == track.ss[i + 1] - track.ss[i];
    }
    assert Cross(track, x, y, i) == 0.0 by {
      assert vx * vy - vy * vx == 0.0;
    }
  }

  /** Projecting the first vertex of a track whose first segment is not
      degenerate yields that vertex's arc-length at distance zero. */
  lemma ProjectFirstVertex(track: Track)
    requires track.Valid() && 0 < track.SegmentCount()
    requires SegmentLength2(track, 0) >= MIN_SEGMENT_LENGTH2
    ensures ProjectionOf(track, track.xs[0], track.ys[0]) == Projection(track.ss[0], 1.0, Some(0.0))
  {
    var x, y := track.xs[0], track.ys[0];
    FitAtSegmentStart(track, 0);
    ProjectionFromEarliestNearest(track, x, y, 0);
  }

  /** Projecting vertex `i` (the end of a non-degenerate segment `i - 1`)
      finds distance zero; when no segment before `i - 1` passes through
      that vertex, the projection is exactly the vertex's arc-length on the
      + side. */
  lemma ProjectVertex(track: Track, i: nat)
    requires track.Valid() && 1 <= i <= track.SegmentCount()
    requires SegmentLength2(track, i - 1) >= MIN_SEGMENT_LENGTH2
    ensures ProjectionOf(track, track.xs[i], track.ys[i]).dist2 == Some(0.0)
    ensures (forall j :: 0 <= j < i - 1 && FitSegment(track, track.xs[i], track.ys[i], j).Some? ==>
               FitSegment(track, track.xs[i], track.ys[i], j).value.dist2 > 0.0) ==>
            ProjectionOf(track, track.xs[i], track.ys[i]) == Projection(track.ss[i], 1.0, Some(0.0))
  {
    var x, y := track.xs[i], track.ys[i];
    FitAtSegmentEnd(track, i - 1);
    ProjectionIsNearest(track, x, y);
    ProjectionWhenNoSegment(track, x, y);
    var k := WinningSegment(track, x, y).value;
    assert FitSegment(track, x, y, k).value.dist2 <= 0.0;
    if forall j :: 0 <= j < i - 1 && FitSegment(track, x, y, j).Some? ==> FitSegment(track, x, y, j).value.dist2 > 0.0 {
      ProjectionFromEarliestNearest(track, x, y, i - 1);
    }
  }

  /** Forward distance from `sNow` to `sTarget` on the closed loop of length `L`. */
  function ForwardDist(sNow: real, sTarget: real, L: real): (d: real)
    ensures d == sTarget - sNow || d == sTarget - sNow + L
    ensures 0.0 <= sNow < L && 0.0 <= sTarget < L ==> 0.0 <= d < L
  {
    var d := sTarget - sNow;
    if d < 0.0 then d + L else d
  }

  /** Walking the forward distance from `sNow` reaches `sTarget`, wrapping
      once through 0 when needed; the distance is zero exactly at the target. */
  lemma ForwardDistReachesTarget(sNow: real, sTarget: real, L: real)
    requires 0.0 <= sNow < L && 0.0 <= sTarget < L
    ensures sNow + ForwardDist(sNow, sTarget, L) == (if sTarget >= sNow then sTarget else sTarget + L)
    ensures ForwardDist(sNow, sTarget, L) == 0.0 <==> sNow == sTarget
  {
  }
}
