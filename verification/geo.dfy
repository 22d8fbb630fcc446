/**
 * The geometry codec of src/services/geo.ts: conversion between the
 * workspace's [lat, lng] coordinates and GeoJSON (RFC 7946), Douglas-Peucker
 * simplification, the ring-area accumulation and the feature-count warning.
 */
module Geo {
  import opened Types
  import opened Subsequence

  // ---------------------------------------------------------------------------
  // Position order
  // ---------------------------------------------------------------------------

  /** [a, b] becomes [b, a]: [lat, lng] to GeoJSON's [lng, lat] and back. */
  function Swap(p: Pair): Pair {
    Pair(p.second, p.first)
  }

  /** `map(([a, b]) => [b, a])` over a list of positions. */
  function SwapAll(ps: seq<Pair>): (qs: seq<Pair>)
    ensures |qs| == |ps|
    ensures forall i :: 0 <= i < |ps| ==> qs[i] == Swap(ps[i])
  {
    seq(|ps|, i requires 0 <= i < |ps| => Swap(ps[i]))
  }

  /** Reordering twice gives back the original list. */
  lemma SwapAllTwice(ps: seq<Pair>)
    ensures SwapAll(SwapAll(ps)) == ps
  {
    assert forall i :: 0 <= i < |ps| ==> SwapAll(SwapAll(ps))[i] == ps[i];
  }

  // ---------------------------------------------------------------------------
  // toGeoJSON / fromGeoJSON
  // ---------------------------------------------------------------------------

  /** The `(kind, coords, radiusMeters)` triple the codec takes and gives back. */
  datatype Shape = Shape(kind: Kind, coords: Coords, radius: Option<real>)

  /**
   * The inputs on which toGeoJSON builds a GeoJSON geometry: a non-empty
   * flat list for a point or a circle with a radius, a flat list for a line,
   * and at least one ring for everything else (a circle without a truthy
   * radius takes the polygon branch).
   */
  predicate Encodable(kind: Kind, coords: Coords, radius: Option<real>) {
    if kind == Point || (kind == Circle && Truthy(radius)) then coords.Flat? && |coords.points| > 0
    else if kind == Line then coords.Flat?
    else coords.Rings? && |coords.rings| > 0
  }

  /**
   * toGeoJSON. None stands for the inputs on which the source throws
   * (`coords[0]` missing, or `.map` applied to a pair of numbers) or would
   * nest a ring where GeoJSON expects a position.
   */
  function ToGeoJSON(kind: Kind, coords: Coords, radius: Option<real>): (r: Option<GeoFeature>)
    ensures r.Some? <==> Encodable(kind, coords, radius)
    ensures r.Some? && kind == Point ==>
      r.value.radius == None && r.value.geometry.PointGeometry?
      && r.value.geometry.position.first == coords.points[0].second
      && r.value.geometry.position.second == coords.points[0].first
    ensures r.Some? && kind == Line ==>
      r.value.radius == None && r.value.geometry.LineStringGeometry?
      && |r.value.geometry.positions| == |coords.points|
      && forall i :: 0 <= i < |coords.points| ==>
           r.value.geometry.positions[i].first == coords.points[i].second
           && r.value.geometry.positions[i].second == coords.points[i].first
    ensures r.Some? && kind == Circle && Truthy(radius) ==>
      r.value.radius == radius && r.value.geometry.PointGeometry?
      && r.value.geometry.position == Swap(coords.points[0])
    ensures r.Some? && kind != Point && kind != Line && !(kind == Circle && Truthy(radius)) ==>
      r.value.radius == None && r.value.geometry.PolygonGeometry?
      && r.value.geometry.rings == [SwapAll(coords.rings[0])]
  {
    if kind == Point then
      if coords.Flat? && |coords.points| > 0
      then Some(GeoFeature(PointGeometry(Swap(coords.points[0])), None))
      else None
    else if kind == Line then
      if coords.Flat?
      then Some(GeoFeature(LineStringGeometry(SwapAll(coords.points)), None))
      else None
    else if kind == Circle && Truthy(radius) then
      if coords.Flat? && |coords.points| > 0
      then Some(GeoFeature(PointGeometry(Swap(coords.points[0])), radius))
      else None
    else
      // polygon, rectangle, and a circle without a truthy radius
      if coords.Rings? && |coords.rings| > 0
      then Some(GeoFeature(PolygonGeometry([SwapAll(coords.rings[0])]), None))
      else None
  }

  /** What fromGeoJSON gives: a shape, `null` for other geometry types, or a throw. */
  datatype Decoded = Decoded(shape: Shape) | Unsupported | Malformed

  /** fromGeoJSON. A Polygon without rings throws on `coordinates[0].map`. */
  function FromGeoJSON(f: GeoFeature): (r: Decoded)
    ensures r.Unsupported? <==> f.geometry.OtherGeometry?
    ensures r.Malformed? <==> f.geometry.PolygonGeometry? && f.geometry.rings == []
    ensures r.Decoded? ==> r.shape.kind != Rectangle
    ensures r.Decoded? ==> (r.shape.kind == Circle <==> f.geometry.PointGeometry? && Truthy(f.radius))
    ensures f.geometry.PointGeometry? ==>
      r.Decoded? && r.shape.kind == (if Truthy(f.radius) then Circle else Point)
    ensures r.Decoded? && f.geometry.PointGeometry? ==>
      r.shape.coords == Flat([Pair(f.geometry.position.second, f.geometry.position.first)])
      && r.shape.radius == f.radius
    ensures f.geometry.LineStringGeometry? ==>
      r == Decoded(Shape(Line, Flat(SwapAll(f.geometry.positions)), None))
    ensures f.geometry.PolygonGeometry? && f.geometry.rings != [] ==>
      r == Decoded(Shape(Polygon, Rings([SwapAll(f.geometry.rings[0])]), None))
  {
    match f.geometry
    case PointGeometry(p) =>
      Decoded(Shape(if Truthy(f.radius) then Circle else Point, Flat([Swap(p)]), f.radius))
    case LineStringGeometry(ps) =>
      Decoded(Shape(Line, Flat(SwapAll(ps)), None))
    case PolygonGeometry(rs) =>
      if rs == [] then Malformed else Decoded(Shape(Polygon, Rings([SwapAll(rs[0])]), None))
    case OtherGeometry =>
      Unsupported
  }

  /**
   * What survives encoding: only the first position of a point or circle,
   * only the outer ring of a polygon or rectangle, no radius except on a
   * circle, and a rectangle becomes a polygon.
   */
  function Surviving(kind: Kind, coords: Coords, radius: Option<real>): Shape
    requires Encodable(kind, coords, radius)
  {
    if kind == Point then Shape(Point, Flat([coords.points[0]]), None)
    else if kind == Line then Shape(Line, coords, None)
    else if kind == Circle && Truthy(radius) then Shape(Circle, Flat([coords.points[0]]), radius)
    else Shape(Polygon, Rings([coords.rings[0]]), None)
  }

  /** Decoding an encoded shape gives back exactly what survives encoding. */
  lemma DecodeOfEncode(kind: Kind, coords: Coords, radius: Option<real>)
    requires Encodable(kind, coords, radius)
    ensures FromGeoJSON(ToGeoJSON(kind, coords, radius).value) == Decoded(Surviving(kind, coords, radius))
  {
    if kind == Line {
      SwapAllTwice(coords.points);
    } else if !(kind == Point || (kind == Circle && Truthy(radius))) {
      SwapAllTwice(coords.rings[0]);
    }
  }

  /**
   * The shapes the workspace stores: one position for a point or a circle
   * (the circle with a non-zero radius), one ring for a polygon or a
   * rectangle, and no radius on anything but a circle.
   */
  predicate Canonical(s: Shape) {
    match s.kind
    case Point => s.coords.Flat? && |s.coords.points| == 1 && s.radius.None?
    case Line => s.coords.Flat? && s.radius.None?
    case Circle => s.coords.Flat? && |s.coords.points| == 1 && Truthy(s.radius)
    case _ => s.coords.Rings? && |s.coords.rings| == 1 && s.radius.None?
  }

  /** A canonical shape round-trips exactly, except that a rectangle comes back as a polygon. */
  lemma RoundTrip(s: Shape)
    requires Canonical(s)
    ensures ToGeoJSON(s.kind, s.coords, s.radius).Some?
    ensures FromGeoJSON(ToGeoJSON(s.kind, s.coords, s.radius).value)
         == Decoded(if s.kind == Rectangle then s.(kind := Polygon) else s)
  {
    DecodeOfEncode(s.kind, s.coords, s.radius);
    if s.kind == Point || s.kind == Circle {
      assert s.coords.points == [s.coords.points[0]];
    } else if s.kind != Line {
      assert s.coords.rings == [s.coords.rings[0]];
    }
  }

  /**
   * The GeoJSON features toGeoJSON can produce: a Point with no radius or a
   * non-zero one, a LineString, a Polygon with exactly one ring.
   */
  predicate CanonicalGeoFeature(f: GeoFeature) {
    match f.geometry
    case PointGeometry(_) => f.radius.None? || Truthy(f.radius)
    case LineStringGeometry(_) => f.radius.None?
    case PolygonGeometry(rs) => |rs| == 1 && f.radius.None?
    case OtherGeometry => false
  }

  /** The other direction: such a feature decodes and re-encodes to itself. */
  lemma EncodeOfDecode(f: GeoFeature)
    requires CanonicalGeoFeature(f)
    ensures FromGeoJSON(f).Decoded?
    ensures var s := FromGeoJSON(f).shape; ToGeoJSON(s.kind, s.coords, s.radius) == Some(f)
  {
    match f.geometry
    case PointGeometry(p) =>
    case LineStringGeometry(ps) =>
      SwapAllTwice(ps);
    case PolygonGeometry(rs) =>
      SwapAllTwice(rs[0]);
      assert rs == [rs[0]];
  }

  // ---------------------------------------------------------------------------
  // simplifyCoords (Douglas-Peucker)
  // ---------------------------------------------------------------------------

  /** perpendicularDistance(point, lineStart, lineEnd); its numeric definition is not modelled. */
  type Distance = (Pair, Pair, Pair) -> real

  /** Distance of vertex j from the chord between the first and the last vertex. */
  function Offset(coords: seq<Pair>, dist: Distance, j: nat): real
    requires j < |coords|
  {
    dist(coords[j], coords[0], coords[|coords| - 1])
  }

  /**
   * `(maxDist, maxIndex)` after the scan has looked at the interior
   * vertices 1 .. k-1: the first vertex strictly farther than every vertex
   * before it and than 0, or index 0 with distance 0 when there is none.
   */
  function Farthest(coords: seq<Pair>, dist: Distance, k: nat): (m: (real, nat))
    requires k < |coords|
    ensures m.0 >= 0.0
    ensures m.1 == 0 ==> m.0 == 0.0
    ensures m.1 != 0 ==> 1 <= m.1 < k && m.0 > 0.0 && m.0 == Offset(coords, dist, m.1)
  {
    if k <= 1 then (0.0, 0)
    else
      var m := Farthest(coords, dist, k - 1);
      var d := Offset(coords, dist, k - 1);
      if d > m.0 then (d, k - 1) else m
  }

  /**
   * The vertex Farthest picks is a maximum of the distances scanned, and
   * every vertex scanned before it is strictly closer.
   */
  lemma {:induction false} FarthestIsMaximal(coords: seq<Pair>, dist: Distance, k: nat)
    requires k < |coords|
    ensures var m := Farthest(coords, dist, k);
      && (forall j :: 1 <= j < k ==> Offset(coords, dist, j) <= m.0)
      && (forall j :: 1 <= j < m.1 ==> Offset(coords, dist, j) < m.0)
  {
    if k > 1 {
      FarthestIsMaximal(coords, dist, k - 1);
    }
  }

  /**
   * The scan over the interior vertices inside `simplify`: the largest
   * distance from the chord and the first index where it occurs.
   */
  method FarthestVertex(coords: seq<Pair>, dist: Distance) returns (maxDist: real, maxIndex: nat)
    requires |coords| > 2
    ensures (maxDist, maxIndex) == Farthest(coords, dist, |coords| - 1)
    ensures maxIndex < |coords| - 1
    ensures forall j :: 1 <= j < |coords| - 1 ==> dist(coords[j], coords[0], coords[|coords| - 1]) <= maxDist
    ensures maxIndex == 0 <==> maxDist == 0.0
  {
    maxDist, maxIndex := 0.0, 0;
    var start, end := coords[0], coords[|coords| - 1];
    var i := 1;
    while i < |coords| - 1
      invariant 1 <= i <= |coords| - 1
      invariant (maxDist, maxIndex) == Farthest(coords, dist, i)
    {
      var d := dist(coords[i], start, end);
      if d > maxDist {
        maxDist, maxIndex := d, i;
      }
      i := i + 1;
    }
    FarthestIsMaximal(coords, dist, |coords| - 1);
    forall j | 1 <= j < |coords| - 1
      ensures dist(coords[j], coords[0], coords[|coords| - 1]) <= maxDist
    {
      assert Offset(coords, dist, j) <= maxDist;
    }
  }

  /** One call of `simplify` on more than two vertices: collapse to the chord or split. */
  datatype Split = Collapse | Divide(at: nat)

  /** Every interior vertex lies closer to the chord than the tolerance. */
  predicate AllWithin(coords: seq<Pair>, dist: Distance, tolerance: real) {
    forall j :: 1 <= j < |coords| - 1 ==> Offset(coords, dist, j) < tolerance
  }

  /** The decision of lines 142-147 as written: collapse when `maxDist < tolerance`. */
  function Decide(coords: seq<Pair>, tolerance: real, dist: Distance): (s: Split)
    requires |coords| > 2
    ensures s.Divide? ==> s.at < |coords| - 1
    ensures s.Divide? && s.at != 0 ==> Offset(coords, dist, s.at) >= tolerance
    ensures tolerance > 0.0 ==>
      (s.Collapse? <==> AllWithin(coords, dist, tolerance))
    ensures tolerance > 0.0 && s.Divide? ==> 1 <= s.at
    ensures tolerance <= 0.0 ==> s.Divide?
  {
    FarthestIsMaximal(coords, dist, |coords| - 1);
    var m := Farthest(coords, dist, |coords| - 1);
    if m.0 < tolerance then Collapse else Divide(m.1)
  }

  /**
   * A split happens at the farthest interior vertex, the first one if
   * several are equally far; index 0 only when no vertex lies off the chord.
   */
  lemma DecideSplitsAtFarthest(coords: seq<Pair>, tolerance: real, dist: Distance)
    requires |coords| > 2 && Decide(coords, tolerance, dist).Divide?
    ensures var at := Decide(coords, tolerance, dist).at;
      && at == Farthest(coords, dist, |coords| - 1).1
      && (at != 0 ==> forall j :: 1 <= j < |coords| - 1 ==> Offset(coords, dist, j) <= Offset(coords, dist, at))
      && (at != 0 ==> forall j :: 1 <= j < at ==> Offset(coords, dist, j) < Offset(coords, dist, at))
      && (at == 0 ==> forall j :: 1 <= j < |coords| - 1 ==> Offset(coords, dist, j) <= 0.0)
  {
    FarthestIsMaximal(coords, dist, |coords| - 1);
  }

  /** `left.slice(0, -1).concat(right)`: the split vertex is kept once. */
  function Join(left: seq<Pair>, right: seq<Pair>): seq<Pair>
    requires left != []
  {
    left[..|left| - 1] + right
  }

  /** Joining the simplified halves at the split vertex keeps the result a subsequence. */
  lemma JoinHalves(coords: seq<Pair>, m: nat, left: seq<Pair>, right: seq<Pair>)
    requires m < |coords|
    requires left != [] && IsSubsequence(left, coords[..m + 1]) && IsSubsequence(right, coords[m..])
    ensures IsSubsequence(left[..|left| - 1] + right, coords)
  {
    SubsequenceDropLast(left, coords[..m + 1]);
    assert coords[..m + 1][..m] == coords[..m];
    SubsequenceConcat(left[..|left| - 1], coords[..m], right, coords[m..]);
    assert coords[..m] + coords[m..] == coords;
  }

  /**
   * simplifyCoords / simplify, for a positive tolerance (the case in which
   * the source terminates on every input). The result keeps both endpoints,
   * is a subsequence of the input and is never longer.
   */
  function Simplify(coords: seq<Pair>, tolerance: real, dist: Distance): (r: seq<Pair>)
    requires tolerance > 0.0
    ensures |coords| <= 2 ==> r == coords
    ensures |coords| >= 2 ==> |r| >= 2 && r[0] == coords[0] && r[|r| - 1] == coords[|coords| - 1]
    ensures |r| <= |coords|
    ensures IsSubsequence(r, coords)
    decreases |coords|, 1
  {
    if |coords| <= 2 then
      SubsequenceReflexive(coords);
      coords
    else
      SimplifyAt(coords, tolerance, dist, Decide(coords, tolerance, dist))
  }

  /** The rest of simplify once the scan has decided: keep the endpoints, or recurse on both halves. */
  function SimplifyAt(coords: seq<Pair>, tolerance: real, dist: Distance, s: Split): (r: seq<Pair>)
    requires tolerance > 0.0 && |coords| > 2
    requires s.Divide? ==> 1 <= s.at < |coords| - 1
    ensures |r| >= 2 && r[0] == coords[0] && r[|r| - 1] == coords[|coords| - 1]
    ensures |r| <= |coords|
    ensures IsSubsequence(r, coords)
    decreases |coords|, 0
  {
    match s
    case Collapse =>
      EndpointsSubsequence(coords);
      [coords[0], coords[|coords| - 1]]
    case Divide(m) =>
      var left := Simplify(coords[..m + 1], tolerance, dist);
      var right := Simplify(coords[m..], tolerance, dist);
      JoinHalves(coords, m, left, right);
      Join(left, right)
  }

  /** When every interior vertex is closer to the chord than the tolerance, only the endpoints remain. */
  lemma SimplifyCollapses(coords: seq<Pair>, tolerance: real, dist: Distance)
    requires tolerance > 0.0 && |coords| > 2
    requires forall j :: 1 <= j < |coords| - 1 ==> dist(coords[j], coords[0], coords[|coords| - 1]) < tolerance
    ensures Simplify(coords, tolerance, dist) == [coords[0], coords[|coords| - 1]]
  {
    assert AllWithin(coords, dist, tolerance);
  }

  /**
   * As written, a tolerance of 0 or less never collapses: when no interior
   * vertex is farther than 0 from the chord, `maxIndex` stays 0 and the
   * right-hand recursive call receives `coords.slice(0)`, the whole input
   * again, so the recursion does not end.
   */
  lemma NonPositiveToleranceRecursesOnInput(coords: seq<Pair>, tolerance: real, dist: Distance)
    requires |coords| > 2 && tolerance <= 0.0
    requires forall j :: 1 <= j < |coords| - 1 ==> dist(coords[j], coords[0], coords[|coords| - 1]) <= 0.0
    ensures Decide(coords, tolerance, dist) == Divide(0)
    ensures coords[Decide(coords, tolerance, dist).at..] == coords
  {
    assert forall j :: 1 <= j < |coords| - 1 ==> Offset(coords, dist, j) <= 0.0;
  }

  /**
   * Simplification that also collapses when no interior vertex lies off the
   * chord (`maxIndex == 0`), so that it terminates for every tolerance.
   */
  function SimplifyGuarded(coords: seq<Pair>, tolerance: real, dist: Distance): (r: seq<Pair>)
    ensures |coords| <= 2 ==> r == coords
    ensures |coords| >= 2 ==> |r| >= 2 && r[0] == coords[0] && r[|r| - 1] == coords[|coords| - 1]
    ensures |r| <= |coords|
    ensures IsSubsequence(r, coords)
    decreases |coords|, 1
  {
    if |coords| <= 2 then
      SubsequenceReflexive(coords);
      coords
    else
      SimplifyGuardedAt(coords, tolerance, dist, Decide(coords, tolerance, dist))
  }

  /** The rest of the guarded simplification once the scan has decided. */
  function SimplifyGuardedAt(coords: seq<Pair>, tolerance: real, dist: Distance, s: Split): (r: seq<Pair>)
    requires |coords| > 2
    requires s.Divide? ==> s.at < |coords| - 1
    ensures |r| >= 2 && r[0] == coords[0] && r[|r| - 1] == coords[|coords| - 1]
    ensures |r| <= |coords|
    ensures IsSubsequence(r, coords)
    decreases |coords|, 0
  {
    if s.Collapse? || s.at == 0 then
      EndpointsSubsequence(coords);
      [coords[0], coords[|coords| - 1]]
    else
      var m := s.at;
      var left := SimplifyGuarded(coords[..m + 1], tolerance, dist);
      var right := SimplifyGuarded(coords[m..], tolerance, dist);
      JoinHalves(coords, m, left, right);
      Join(left, right)
  }

  /** For a positive tolerance the guard never fires: both versions agree. */
  lemma {:induction false} SimplifyGuardedAgrees(coords: seq<Pair>, tolerance: real, dist: Distance)
    requires tolerance > 0.0
    ensures SimplifyGuarded(coords, tolerance, dist) == Simplify(coords, tolerance, dist)
    decreases |coords|
  {
    if |coords| > 2 {
      var s := Decide(coords, tolerance, dist);
      if s.Divide? {
        var at := PositiveSplitInside(coords, tolerance, dist);
        SimplifyGuardedAgrees(coords[..at + 1], tolerance, dist);
        SimplifyGuardedAgrees(coords[at..], tolerance, dist);
        GuardedJoin(coords, tolerance, dist, at);
        SimplifyJoin(coords, tolerance, dist, at);
      }
    }
  }

  /** No vertex lies on the chord between any earlier and any later vertex. */
  predicate Spread(coords: seq<Pair>, dist: Distance) {
    forall i, j, k :: 0 <= i < j < k < |coords| ==> dist(coords[j], coords[i], coords[k]) > 0.0
  }

  /** Every contiguous piece of a spread line is spread. */
  lemma SpreadSlice(coords: seq<Pair>, dist: Distance, a: nat, b: nat)
    requires Spread(coords, dist) && a <= b <= |coords|
    ensures Spread(coords[a..b], dist)
  {
    var piece := coords[a..b];
    forall i, j, k | 0 <= i < j < k < |piece| ensures dist(piece[j], piece[i], piece[k]) > 0.0 {
      assert piece[i] == coords[a + i] && piece[j] == coords[a + j] && piece[k] == coords[a + k];
    }
  }

  /**
   * With tolerance 0, a line on which no vertex lies on the chord between
   * two others keeps every vertex: each split happens at an interior
   * vertex and both halves are kept whole.
   */
  lemma {:induction false} ZeroToleranceKeepsSpreadLine(coords: seq<Pair>, dist: Distance)
    requires Spread(coords, dist)
    ensures SimplifyGuarded(coords, 0.0, dist) == coords
    decreases |coords|
  {
    if |coords| > 2 {
      var at := SpreadSplitsInside(coords, dist);
      SpreadSlice(coords, dist, 0, at + 1);
      SpreadSlice(coords, dist, at, |coords|);
      assert coords[at..|coords|] == coords[at..];
      ZeroToleranceKeepsSpreadLine(coords[..at + 1], dist);
      ZeroToleranceKeepsSpreadLine(coords[at..], dist);
      KeptHalvesKeepAll(coords, 0.0, dist, at);
    }
  }

  /** When both halves of a split come back whole, so does the line. */
  lemma {:induction false} KeptHalvesKeepAll(coords: seq<Pair>, tolerance: real, dist: Distance, at: nat)
    requires |coords| > 2 && Decide(coords, tolerance, dist) == Divide(at) && at != 0
    requires SimplifyGuarded(coords[..at + 1], tolerance, dist) == coords[..at + 1]
    requires SimplifyGuarded(coords[at..], tolerance, dist) == coords[at..]
    ensures SimplifyGuarded(coords, tolerance, dist) == coords
  {
    GuardedJoin(coords, tolerance, dist, at);
    WholeHalvesJoin(coords, at, SimplifyGuarded(coords[..at + 1], tolerance, dist), SimplifyGuarded(coords[at..], tolerance, dist));
  }

  /** The two halves of a split, overlapping at the split vertex, join back to the whole. */
  lemma {:induction false} WholeHalvesJoin<T>(s: seq<T>, at: nat, left: seq<T>, right: seq<T>)
    requires at < |s| && left == s[..at + 1] && right == s[at..]
    ensures left[..|left| - 1] + right == s
  {
    assert left[..|left| - 1] == s[..at];
  }

  /** For a positive tolerance a split is always at an interior vertex. */
  lemma PositiveSplitInside(coords: seq<Pair>, tolerance: real, dist: Distance) returns (at: nat)
    requires tolerance > 0.0 && |coords| > 2 && Decide(coords, tolerance, dist).Divide?
    ensures Decide(coords, tolerance, dist) == Divide(at) && 1 <= at < |coords| - 1
  {
    at := Decide(coords, tolerance, dist).at;
  }

  /** One unfolding of Simplify at a split. */
  lemma {:induction false} SimplifyJoin(coords: seq<Pair>, tolerance: real, dist: Distance, at: nat)
    requires tolerance > 0.0 && |coords| > 2 && Decide(coords, tolerance, dist) == Divide(at) && 1 <= at < |coords| - 1
    ensures var left := Simplify(coords[..at + 1], tolerance, dist);
      Simplify(coords, tolerance, dist) == Join(left, Simplify(coords[at..], tolerance, dist))
  {
    var left := Simplify(coords[..at + 1], tolerance, dist);
    assert SimplifyAt(coords, tolerance, dist, Divide(at)) == Join(left, Simplify(coords[at..], tolerance, dist));
  }

  /** One unfolding of SimplifyGuarded at a split inside the line. */
  lemma {:induction false} GuardedJoin(coords: seq<Pair>, tolerance: real, dist: Distance, at: nat)
    requires |coords| > 2 && Decide(coords, tolerance, dist) == Divide(at) && at != 0
    ensures at < |coords|
    ensures var left := SimplifyGuarded(coords[..at + 1], tolerance, dist);
      SimplifyGuarded(coords, tolerance, dist) == Join(left, SimplifyGuarded(coords[at..], tolerance, dist))
  {
  }

  /** On a spread line, tolerance 0 splits at an interior vertex. */
  lemma SpreadSplitsInside(coords: seq<Pair>, dist: Distance) returns (at: nat)
    requires Spread(coords, dist) && |coords| > 2
    ensures Decide(coords, 0.0, dist) == Divide(at) && 1 <= at < |coords| - 1
  {
    assert Offset(coords, dist, 1) > 0.0;
    DecideSplitsAtFarthest(coords, 0.0, dist);
    at := Decide(coords, 0.0, dist).at;
  }

  // ---------------------------------------------------------------------------
  // calcArea and tooManyPoints
  // ---------------------------------------------------------------------------

  const EarthRadius: real := 6371000.0

  function Abs(x: real): real {
    if x < 0.0 then -x else x
  }

  /**
   * The summand for vertex i and its successor `(i + 1) % n`; `toRad` is the
   * degree-to-radian conversion and `sin` the sine, neither modelled numerically.
   */
  function AreaTerm(coords: seq<Pair>, toRad: real -> real, sin: real -> real, i: nat): real
    requires i < |coords|
  {
    var p, q := coords[i], coords[(i + 1) % |coords|];
    (toRad(q.second) - toRad(p.second)) * (2.0 + sin(toRad(p.first)) + sin(toRad(q.first)))
  }

  /** The accumulated `area` after vertices 0 .. k-1. */
  function AreaSum(coords: seq<Pair>, toRad: real -> real, sin: real -> real, k: nat): real
    requires k <= |coords|
  {
    if k == 0 then 0.0 else AreaSum(coords, toRad, sin, k - 1) + AreaTerm(coords, toRad, sin, k - 1)
  }

  /** calcArea: 0 for fewer than three vertices, otherwise |sum * R^2 / 2|. */
  method CalcArea(coords: seq<Pair>, toRad: real -> real, sin: real -> real) returns (area: real)
    ensures area >= 0.0
    ensures |coords| < 3 ==> area == 0.0
    ensures |coords| >= 3 ==> area == Abs(AreaSum(coords, toRad, sin, |coords|) * EarthRadius * EarthRadius / 2.0)
  {
    if |coords| < 3 {
      return 0.0;
    }
    area := 0.0;
    var i := 0;
    while i < |coords|
      invariant 0 <= i <= |coords|
      invariant area == AreaSum(coords, toRad, sin, i)
    {
      var lat1, lng1 := coords[i].first, coords[i].second;
      var lat2, lng2 := coords[(i + 1) % |coords|].first, coords[(i + 1) % |coords|].second;
      var term := (toRad(lng2) - toRad(lng1)) * (2.0 + sin(toRad(lat1)) + sin(toRad(lat2)));
      assert term == AreaTerm(coords, toRad, sin, i);
      area := area + term;
      i := i + 1;
    }
    area := area * EarthRadius * EarthRadius / 2.0;
    area := Abs(area);
  }

  /** A ring whose vertices all lie on one meridian accumulates nothing. */
  lemma {:induction false} OneMeridianHasNoArea(coords: seq<Pair>, toRad: real -> real, sin: real -> real, k: nat)
    requires k <= |coords|
    requires forall i :: 0 <= i < |coords| ==> coords[i].second == coords[0].second
    ensures AreaSum(coords, toRad, sin, k) == 0.0
  {
    if k > 0 {
      OneMeridianHasNoArea(coords, toRad, sin, k - 1);
      var q := coords[(k - 1 + 1) % |coords|];
      assert q.second == coords[k - 1].second;
    }
  }

  /** tooManyPoints: the performance warning for more than 100 features. */
  function TooManyPoints(count: int): bool {
    count > 100
  }

  /** The warning is off up to 100 and stays on from 101 upward. */
  lemma TooManyPointsThreshold(n: int, m: int)
    ensures !TooManyPoints(100) && TooManyPoints(101)
    ensures n <= m && TooManyPoints(n) ==> TooManyPoints(m)
  {
  }
}
