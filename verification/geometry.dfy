/**
 * Geometries as values, and the two normalisations both loaders apply to them:
 * moving every vertex into 0..360 longitude space (`shift_geom`) and coercing
 * a single polygon to a multi-polygon (`ogr.ForceToMultiPolygon` as the loaders
 * call it). Coordinates are exact reals.
 */
module Geometry {

  datatype Point = Point(x: real, y: real, z: real)

  type Ring = seq<Point>
  type Polygon = seq<Ring>
  type MultiPolygon = seq<Polygon>

  /** The geometry tree the loaders handle: a point, a ring (line string), a polygon or a multi-polygon. */
  datatype Geom =
    | PointGeom(point: Point)
    | RingGeom(ring: Ring)
    | PolygonGeom(polygon: Polygon)
    | MultiPolygonGeom(polygons: MultiPolygon)

  // ---------------------------------------------------------------------------
  // Longitude shift

  /** The longitude rule of `shift_geom`: below 0 add 360, above 360 subtract 360. */
  function ShiftX(x: real): (r: real)
    ensures -360.0 <= x <= 720.0 ==> 0.0 <= r <= 360.0
    ensures 0.0 <= x <= 360.0 ==> r == x
    ensures r - x == 0.0 || r - x == 360.0 || r - x == -360.0
  {
    if x < 0.0 then x + 360.0
    else if x > 360.0 then x - 360.0
    else x
  }

  function ShiftPoint(p: Point): (q: Point)
    ensures q.y == p.y && q.z == p.z
  {
    p.(x := ShiftX(p.x))
  }

  function ShiftRing(r: Ring): Ring {
    seq(|r|, k requires 0 <= k < |r| => ShiftPoint(r[k]))
  }

  function ShiftPolygon(p: Polygon): Polygon {
    seq(|p|, j requires 0 <= j < |p| => ShiftRing(p[j]))
  }

  function ShiftMultiPolygon(m: MultiPolygon): MultiPolygon {
    seq(|m|, i requires 0 <= i < |m| => ShiftPolygon(m[i]))
  }

  /** `shift_geom` on a geometry value: the tree walk down to every vertex. */
  function ShiftGeom(g: Geom): Geom {
    match g
    case PointGeom(p) => PointGeom(ShiftPoint(p))
    case RingGeom(r) => RingGeom(ShiftRing(r))
    case PolygonGeom(p) => PolygonGeom(ShiftPolygon(p))
    case MultiPolygonGeom(m) => MultiPolygonGeom(ShiftMultiPolygon(m))
  }

  // ---------------------------------------------------------------------------
  // Shape and vertices of a geometry

  /** Same kind, same number of sub-geometries at every level, same number of points in every ring. */
  predicate SameShape(g: Geom, h: Geom) {
    match (g, h)
    case (PointGeom(_), PointGeom(_)) => true
    case (RingGeom(r), RingGeom(s)) => |r| == |s|
    case (PolygonGeom(p), PolygonGeom(q)) =>
      |p| == |q| && forall j :: 0 <= j < |p| ==> |p[j]| == |q[j]|
    case (MultiPolygonGeom(m), MultiPolygonGeom(n)) =>
      |m| == |n| && forall i :: 0 <= i < |m| ==>
        |m[i]| == |n[i]| && forall j :: 0 <= j < |m[i]| ==> |m[i][j]| == |n[i][j]|
    case _ => false
  }

  function RingsVertices(rs: seq<Ring>): Ring {
    if |rs| == 0 then [] else rs[0] + RingsVertices(rs[1..])
  }

  function PolygonsVertices(ps: seq<Polygon>): Ring {
    if |ps| == 0 then [] else RingsVertices(ps[0]) + PolygonsVertices(ps[1..])
  }

  /** Every vertex of a geometry, in tree order. */
  function Vertices(g: Geom): seq<Point> {
    match g
    case PointGeom(p) => [p]
    case RingGeom(r) => r
    case PolygonGeom(p) => RingsVertices(p)
    case MultiPolygonGeom(m) => PolygonsVertices(m)
  }

  /** Every vertex's longitude lies in [lo, hi]. */
  predicate XWithin(g: Geom, lo: real, hi: real) {
    forall v :: v in Vertices(g) ==> lo <= v.x <= hi
  }

  // ---------------------------------------------------------------------------
  // What the shift promises

  lemma ShiftRingAppend(a: Ring, b: Ring)
    ensures ShiftRing(a + b) == ShiftRing(a) + ShiftRing(b)
  {
  }

  lemma {:induction false} RingsVerticesShift(rs: seq<Ring>)
    ensures RingsVertices(ShiftPolygon(rs)) == ShiftRing(RingsVertices(rs))
  {
    if |rs| > 0 {
      assert ShiftPolygon(rs)[1..] == ShiftPolygon(rs[1..]);
      RingsVerticesShift(rs[1..]);
      ShiftRingAppend(rs[0], RingsVertices(rs[1..]));
    }
  }

  lemma {:induction false} PolygonsVerticesShift(ps: seq<Polygon>)
    ensures PolygonsVertices(ShiftMultiPolygon(ps)) == ShiftRing(PolygonsVertices(ps))
  {
    if |ps| > 0 {
      assert ShiftMultiPolygon(ps)[1..] == ShiftMultiPolygon(ps[1..]);
      PolygonsVerticesShift(ps[1..]);
      RingsVerticesShift(ps[0]);
      ShiftRingAppend(RingsVertices(ps[0]), PolygonsVertices(ps[1..]));
    }
  }

  /**
   * The shift moves the X of each vertex by the longitude rule and touches
   * nothing else: vertex order, Y, Z and every count stay as they were.
   */
  lemma ShiftOnlyMovesX(g: Geom)
    ensures SameShape(g, ShiftGeom(g))
    ensures Vertices(ShiftGeom(g)) == ShiftRing(Vertices(g))
    ensures |Vertices(ShiftGeom(g))| == |Vertices(g)|
    ensures forall k :: 0 <= k < |Vertices(g)| ==>
      var v, w := Vertices(g)[k], Vertices(ShiftGeom(g))[k];
      w.x == ShiftX(v.x) && w.y == v.y && w.z == v.z
  {
    match g
    case PointGeom(p) =>
    case RingGeom(r) =>
    case PolygonGeom(p) => RingsVerticesShift(p);
    case MultiPolygonGeom(m) => PolygonsVerticesShift(m);
  }

  /** From anywhere in [-360, 720] the shift lands in [0, 360]. */
  lemma ShiftLandsInRange(g: Geom)
    requires XWithin(g, -360.0, 720.0)
    ensures XWithin(ShiftGeom(g), 0.0, 360.0)
  {
    ShiftOnlyMovesX(g);
    forall v | v in Vertices(ShiftGeom(g)) ensures 0.0 <= v.x <= 360.0 {
      var k :| 0 <= k < |Vertices(ShiftGeom(g))| && Vertices(ShiftGeom(g))[k] == v;
      assert Vertices(g)[k] in Vertices(g);
    }
  }

  lemma RingFixed(r: Ring)
    requires forall v :: v in r ==> 0.0 <= v.x <= 360.0
    ensures ShiftRing(r) == r
  {
    forall k | 0 <= k < |r| ensures ShiftRing(r)[k] == r[k] {
      assert r[k] in r;
    }
  }

  lemma {:induction false} RingsFixed(rs: seq<Ring>)
    requires XWithin(PolygonGeom(rs), 0.0, 360.0)
    ensures ShiftPolygon(rs) == rs
  {
    if |rs| > 0 {
      assert forall v :: v in rs[0] ==> v in RingsVertices(rs);
      assert forall v :: v in RingsVertices(rs[1..]) ==> v in RingsVertices(rs);
      RingFixed(rs[0]);
      RingsFixed(rs[1..]);
      assert ShiftPolygon(rs) == [ShiftRing(rs[0])] + ShiftPolygon(rs[1..]);
      assert rs == [rs[0]] + rs[1..];
    }
  }

  lemma {:induction false} PolygonsFixed(ps: seq<Polygon>)
    requires XWithin(MultiPolygonGeom(ps), 0.0, 360.0)
    ensures ShiftMultiPolygon(ps) == ps
  {
    if |ps| > 0 {
      assert forall v :: v in RingsVertices(ps[0]) ==> v in PolygonsVertices(ps);
      assert forall v :: v in PolygonsVertices(ps[1..]) ==> v in PolygonsVertices(ps);
      RingsFixed(ps[0]);
      PolygonsFixed(ps[1..]);
      assert ShiftMultiPolygon(ps) == [ShiftPolygon(ps[0])] + ShiftMultiPolygon(ps[1..]);
      assert ps == [ps[0]] + ps[1..];
    }
  }

  /** A geometry already in [0, 360] is left exactly as it is. */
  lemma ShiftFixesNormalised(g: Geom)
    requires XWithin(g, 0.0, 360.0)
    ensures ShiftGeom(g) == g
  {
    match g
    case PointGeom(p) => assert p in Vertices(g);
    case RingGeom(r) => RingFixed(r);
    case PolygonGeom(p) => RingsFixed(p);
    case MultiPolygonGeom(m) => PolygonsFixed(m);
  }

  /** On [-360, 720] shifting twice is shifting once. */
  lemma ShiftIdempotent(g: Geom)
    requires XWithin(g, -360.0, 720.0)
    ensures ShiftGeom(ShiftGeom(g)) == ShiftGeom(g)
  {
    ShiftLandsInRange(g);
    ShiftFixesNormalised(ShiftGeom(g));
  }

  // ---------------------------------------------------------------------------
  // Polygon to multi-polygon

  /** `ForceToMultiPolygon`, applied by the loaders only to a polygon: it becomes a one-element multi-polygon. */
  function ForceToMultiPolygon(g: Geom): (r: Geom)
    ensures !r.PolygonGeom?
  {
    if g.PolygonGeom? then MultiPolygonGeom([g.polygon]) else g
  }

  /** Coercion keeps every vertex in place and makes no polygon left single. */
  lemma ForceKeepsVertices(g: Geom)
    ensures Vertices(ForceToMultiPolygon(g)) == Vertices(g)
    ensures !ForceToMultiPolygon(g).PolygonGeom?
    ensures g.PolygonGeom? ==> ForceToMultiPolygon(g) == MultiPolygonGeom([g.polygon])
    ensures !g.PolygonGeom? ==> ForceToMultiPolygon(g) == g
  {
    if g.PolygonGeom? {
      assert PolygonsVertices([g.polygon]) == RingsVertices(g.polygon) + PolygonsVertices([]);
    }
  }

  /** Shifting before or after the coercion gives the same geometry. */
  lemma ShiftCommutesWithForce(g: Geom)
    ensures ShiftGeom(ForceToMultiPolygon(g)) == ForceToMultiPolygon(ShiftGeom(g))
  {
  }
}
