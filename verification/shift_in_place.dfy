/**
 * `shift_geom` as the loaders run it: in place. OGR keeps the vertices of each
 * leaf geometry (a point, or a ring of a polygon) in a buffer of its own, and
 * the function overwrites each vertex with `SetPoint` inside an index loop,
 * recursing through the sub-geometries. Here a leaf is an `array<Point>` and
 * the tree above it is fixed; each method is proved to leave its buffers
 * holding the value-level shift of what they held before.
 */
module ShiftInPlace {
  import opened Common
  import opened Geometry

  /** A geometry whose vertices live in mutable buffers; a point is a one-slot buffer. */
  datatype GeomBuffers =
    | PointBuffer(cell: array<Point>)
    | RingBuffer(points: array<Point>)
    | PolygonBuffers(rings: seq<array<Point>>)
    | MultiPolygonBuffers(parts: seq<seq<array<Point>>>)

  function RingSet(rings: seq<array<Point>>): set<array<Point>> {
    set r | r in rings
  }

  function PartsSet(parts: seq<seq<array<Point>>>): set<array<Point>> {
    set i, r | 0 <= i < |parts| && r in parts[i] :: r
  }

  /** The buffers a geometry's vertices live in. */
  function Footprint(g: GeomBuffers): set<array<Point>> {
    match g
    case PointBuffer(c) => {c}
    case RingBuffer(a) => {a}
    case PolygonBuffers(rs) => RingSet(rs)
    case MultiPolygonBuffers(ps) => PartsSet(ps)
  }

  /** No two rings share a buffer: each sub-geometry owns its vertices. */
  predicate Distinct(rings: seq<array<Point>>) {
    forall j, k :: 0 <= j < k < |rings| ==> rings[j] != rings[k]
  }

  predicate PartsDistinct(parts: seq<seq<array<Point>>>) {
    && (forall i :: 0 <= i < |parts| ==> Distinct(parts[i]))
    && (forall i1, i2 :: 0 <= i1 < i2 < |parts| ==> RingSet(parts[i1]) !! RingSet(parts[i2]))
  }

  predicate WellFormed(g: GeomBuffers) {
    match g
    case PointBuffer(c) => c.Length == 1
    case RingBuffer(_) => true
    case PolygonBuffers(rs) => Distinct(rs)
    case MultiPolygonBuffers(ps) => PartsDistinct(ps)
  }

  function RingsValue(rings: seq<array<Point>>): Polygon
    reads RingSet(rings)
  {
    seq(|rings|, j requires 0 <= j < |rings| reads RingSet(rings) => rings[j][..])
  }

  function PartsValue(parts: seq<seq<array<Point>>>): MultiPolygon
    reads PartsSet(parts)
  {
    seq(|parts|, i requires 0 <= i < |parts| reads PartsSet(parts) =>
      assert RingSet(parts[i]) <= PartsSet(parts);
      RingsValue(parts[i]))
  }

  /** The geometry value the buffers currently hold. */
  function Value(g: GeomBuffers): Geom
    requires WellFormed(g)
    reads Footprint(g)
  {
    match g
    case PointBuffer(c) => PointGeom(c[0])
    case RingBuffer(a) => RingGeom(a[..])
    case PolygonBuffers(rs) => PolygonGeom(RingsValue(rs))
    case MultiPolygonBuffers(ps) => MultiPolygonGeom(PartsValue(ps))
  }

  /** The leaf loop: read each vertex, apply the longitude rule to X, write it back. */
  method ShiftPoints(a: array<Point>)
    modifies a
    ensures a[..] == ShiftRing(old(a[..]))
  {
    for i := 0 to a.Length
      invariant forall k :: 0 <= k < i ==> a[k] == ShiftPoint(old(a[k]))
      invariant forall k :: i <= k < a.Length ==> a[k] == old(a[k])
    {
      var p := a[i];
      var x := p.x;
      if x < 0.0 {
        x := x + 360.0;
      } else if x > 360.0 {
        x := x - 360.0;
      }
      a[i] := Point(x, p.y, p.z);
    }
  }

  /** The recursion over the rings of a polygon. */
  method ShiftRings(rings: seq<array<Point>>)
    requires Distinct(rings)
    modifies RingSet(rings)
    ensures RingsValue(rings) == ShiftPolygon(old(RingsValue(rings)))
  {
    for i := 0 to |rings|
      invariant forall k :: 0 <= k < i ==> rings[k][..] == ShiftRing(old(rings[k][..]))
      invariant forall k :: i <= k < |rings| ==> rings[k][..] == old(rings[k][..])
    {
      ShiftPoints(rings[i]);
    }
  }

  /** The recursion over the polygons of a multi-polygon. */
  method ShiftParts(parts: seq<seq<array<Point>>>)
    requires PartsDistinct(parts)
    modifies PartsSet(parts)
    ensures PartsValue(parts) == ShiftMultiPolygon(old(PartsValue(parts)))
  {
    for i := 0 to |parts|
      invariant forall k :: 0 <= k < i ==> RingsValue(parts[k]) == ShiftPolygon(old(RingsValue(parts[k])))
      invariant forall k :: i <= k < |parts| ==> RingsValue(parts[k]) == old(RingsValue(parts[k]))
    {
      assert RingSet(parts[i]) <= PartsSet(parts);
      ShiftRings(parts[i]);
    }
  }

  /**
   * `shift_geom(geom)`: `None` is left alone; otherwise every buffer ends up
   * holding the shift of what it held, so the geometry's value is the
   * value-level shift of its old value.
   */
  method ShiftGeometry(g: Option<GeomBuffers>)
    requires g.Some? ==> WellFormed(g.value)
    modifies if g.Some? then Footprint(g.value) else {}
    ensures g.Some? ==> Value(g.value) == ShiftGeom(old(Value(g.value)))
  {
    if g.None? {
      return;
    }
    match g.value
    case PointBuffer(c) => ShiftPoints(c);
    case RingBuffer(a) => ShiftPoints(a);
    case PolygonBuffers(rs) => ShiftRings(rs);
    case MultiPolygonBuffers(ps) => ShiftParts(ps);
  }
}
