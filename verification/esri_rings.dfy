/**
 * The repair that `download_admin_bdys.py` applies to shapefile polygons
 * (the workaround for GDAL ticket 5538): a polygon arrives as one flat list
 * of rings; every clockwise ring starts a new polygon and every other ring
 * is a hole of the polygon started last.
 */
module EsriRings {
  import opened Common
  import opened Geometry

  /** The term one edge p -> q contributes to the orientation sum. */
  function Edge(p: Point, q: Point): real {
    (q.x - p.x) * (q.y + p.y)
  }

  /** Sum over consecutive vertex pairs of (x[i+1] - x[i]) * (y[i+1] + y[i]). */
  function OrientationSum(r: Ring): real {
    if |r| < 2 then 0.0 else OrientationSum(r[..|r| - 1]) + Edge(r[|r| - 2], r[|r| - 1])
  }

  predicate IsClockwise(r: Ring)
  {
    OrientationSum(r) >= 0.0
  }

  /**
   * `ring_is_clockwise`: accumulate the orientation sum while walking the
   * ring with a trailing point. Reading point 0 of an empty ring raises,
   * which is `None` here.
   */
  method RingIsClockwise(ring: Ring) returns (r: Option<bool>)
    ensures |ring| == 0 <==> r.None?
    ensures r.Some? ==> (r.value <==> OrientationSum(ring) >= 0.0)
  {
    if |ring| == 0 {
      return None;
    }
    var total := 0.0;
    var pt1 := ring[0];
    for i := 0 to |ring| - 1
      invariant pt1 == ring[i]
      invariant total == OrientationSum(ring[..i + 1])
    {
      var pt2 := ring[i + 1];
      total := total + (pt2.x - pt1.x) * (pt2.y + pt1.y);
      pt1 := pt2;
      assert ring[..i + 2][..i + 1] == ring[..i + 1];
    }
    assert ring[..|ring|] == ring;
    return Some(total >= 0.0);
  }

  // ---------------------------------------------------------------------------
  // Reversal flips the orientation

  function Reverse(r: Ring): (s: Ring)
    ensures |s| == |r|
    ensures forall k :: 0 <= k < |r| ==> s[k] == r[|r| - 1 - k]
  {
    if |r| == 0 then [] else [r[|r| - 1]] + Reverse(r[..|r| - 1])
  }

  /** The sum can also be taken from the front. */
  lemma {:induction false} OrientationSumFront(p: Point, r: Ring)
    requires |r| >= 1
    ensures OrientationSum([p] + r) == Edge(p, r[0]) + OrientationSum(r)
    decreases |r|
  {
    var s := [p] + r;
    if |r| == 1 {
      assert s[..|s| - 1] == [p];
    } else {
      assert s[..|s| - 1] == [p] + r[..|r| - 1];
      OrientationSumFront(p, r[..|r| - 1]);
    }
  }

  /** Walking a ring backwards negates its orientation sum. */
  lemma {:induction false} OrientationSumReverse(r: Ring)
    ensures OrientationSum(Reverse(r)) == -OrientationSum(r)
    decreases |r|
  {
    if |r| >= 2 {
      var n := |r|;
      var front := r[..n - 1];
      OrientationSumReverse(front);
      assert Reverse(r) == [r[n - 1]] + Reverse(front);
      OrientationSumFront(r[n - 1], Reverse(front));
      assert Reverse(front)[0] == r[n - 2];
    }
  }

  /** A ring with a non-zero sum changes orientation when reversed. */
  lemma ReverseFlipsOrientation(r: Ring)
    requires OrientationSum(r) != 0.0
    ensures IsClockwise(Reverse(r)) <==> !IsClockwise(r)
  {
    OrientationSumReverse(r);
  }

  // ---------------------------------------------------------------------------
  // Regrouping the rings

  /**
   * What the regrouping loop builds from the rings seen so far: `None` once a
   * ring cannot be read or a hole arrives before any clockwise ring.
   */
  function GroupRings(rings: seq<Ring>): Option<seq<Polygon>> {
    if |rings| == 0 then Some([])
    else
      var last := rings[|rings| - 1];
      match GroupRings(rings[..|rings| - 1])
      case None => None
      case Some(ps) =>
        if |last| == 0 then None
        else if IsClockwise(last) then Some(ps + [[last]])
        else if |ps| == 0 then None
        else Some(ps[..|ps| - 1] + [ps[|ps| - 1] + [last]])
  }

  function Flatten(ps: seq<Polygon>): seq<Ring> {
    if |ps| == 0 then [] else Flatten(ps[..|ps| - 1]) + ps[|ps| - 1]
  }

  predicate Readable(rings: seq<Ring>) {
    forall k :: 0 <= k < |rings| ==> |rings[k]| >= 1
  }

  /** A clockwise exterior ring followed only by non-clockwise holes. */
  predicate ShellWithHoles(p: Polygon) {
    && |p| >= 1
    && Readable(p)
    && IsClockwise(p[0])
    && (forall k :: 1 <= k < |p| ==> !IsClockwise(p[k]))
  }

  predicate ShellsThenHoles(ps: seq<Polygon>) {
    forall i :: 0 <= i < |ps| ==> ShellWithHoles(ps[i])
  }

  function CountClockwise(rings: seq<Ring>): nat
    requires Readable(rings)
  {
    if |rings| == 0 then 0
    else CountClockwise(rings[..|rings| - 1]) + (if IsClockwise(rings[|rings| - 1]) then 1 else 0)
  }

  lemma ReadableSnoc(init: seq<Ring>, last: Ring)
    ensures Readable(init + [last]) <==> Readable(init) && |last| >= 1
  {
    var rings := init + [last];
    if Readable(rings) {
      forall k | 0 <= k < |init| ensures |init[k]| >= 1 { assert init[k] == rings[k]; }
      assert rings[|init|] == last;
    }
  }

  /** Adding a clockwise ring starts a new polygon. */
  lemma GroupStepShell(ps: seq<Polygon>, last: Ring)
    requires ShellsThenHoles(ps) && |last| >= 1 && IsClockwise(last)
    ensures Flatten(ps + [[last]]) == Flatten(ps) + [last]
    ensures ShellsThenHoles(ps + [[last]])
  {
    var qs := ps + [[last]];
    assert qs[..|qs| - 1] == ps;
  }

  lemma ShellWithHolesSnoc(p: Polygon, hole: Ring)
    requires |p| >= 1
    ensures ShellWithHoles(p + [hole]) <==> ShellWithHoles(p) && |hole| >= 1 && !IsClockwise(hole)
  {
    var q := p + [hole];
    ReadableSnoc(p, hole);
    assert q[0] == p[0];
    assert q[|p|] == hole;
    assert forall k :: 1 <= k < |p| ==> q[k] == p[k];
  }

  /** Adding any other ring extends the polygon started last. */
  lemma GroupStepHole(ps: seq<Polygon>, last: Ring)
    requires ShellsThenHoles(ps) && |ps| > 0 && |last| >= 1 && !IsClockwise(last)
    ensures Flatten(ps[..|ps| - 1] + [ps[|ps| - 1] + [last]]) == Flatten(ps) + [last]
    ensures ShellsThenHoles(ps[..|ps| - 1] + [ps[|ps| - 1] + [last]])
  {
    FlattenExtendLast(ps, last);
    ShellsExtendLast(ps, last);
  }

  lemma FlattenSnoc(init: seq<Polygon>, p: Polygon)
    ensures Flatten(init + [p]) == Flatten(init) + p
  {
    assert (init + [p])[..|init|] == init;
  }

  lemma FlattenExtendLast(ps: seq<Polygon>, last: Ring)
    requires |ps| > 0
    ensures Flatten(ps[..|ps| - 1] + [ps[|ps| - 1] + [last]]) == Flatten(ps) + [last]
  {
    var init, p := ps[..|ps| - 1], ps[|ps| - 1];
    assert ps == init + [p];
    FlattenSnoc(init, p);
    FlattenSnoc(init, p + [last]);
    AppendLast(Flatten(init), p, last);
  }

  lemma AppendLast(f: seq<Ring>, p: seq<Ring>, last: Ring)
    ensures f + (p + [last]) == (f + p) + [last]
  {
  }

  lemma ShellsExtendLast(ps: seq<Polygon>, last: Ring)
    requires ShellsThenHoles(ps) && |ps| > 0 && |last| >= 1 && !IsClockwise(last)
    ensures ShellsThenHoles(ps[..|ps| - 1] + [ps[|ps| - 1] + [last]])
  {
    var m := |ps|;
    var p := ps[m - 1];
    var q := p + [last];
    assert ShellWithHoles(p);
    ShellWithHolesSnoc(p, last);
    var qs := ps[..m - 1] + [q];
    forall i | 0 <= i < |qs| ensures ShellWithHoles(qs[i]) {
      if i < m - 1 { assert qs[i] == ps[i]; } else { assert qs[i] == q; }
    }
  }

  /**
   * The grouping succeeds exactly when every ring can be read and the first
   * is clockwise (or there are none); it builds at least one polygon exactly
   * when there is at least one ring.
   */
  lemma {:induction false} GroupRingsDefined(rings: seq<Ring>)
    ensures GroupRings(rings).Some? <==> Readable(rings) && (|rings| > 0 ==> IsClockwise(rings[0]))
    ensures GroupRings(rings).Some? ==> (|GroupRings(rings).value| > 0 <==> |rings| > 0)
  {
    if |rings| > 0 {
      var n := |rings|;
      var init := rings[..n - 1];
      GroupRingsDefined(init);
      assert rings == init + [rings[n - 1]];
      ReadableSnoc(init, rings[n - 1]);
      if n > 1 {
        assert init[0] == rings[0];
      }
    }
  }

  /**
   * When the grouping succeeds, the polygons hold every ring once, in the
   * original order, one polygon per clockwise ring, each led by that ring and
   * followed only by non-clockwise ones.
   */
  lemma {:induction false} GroupRingsStructure(rings: seq<Ring>)
    requires GroupRings(rings).Some?
    ensures Readable(rings)
    ensures Flatten(GroupRings(rings).value) == rings
    ensures ShellsThenHoles(GroupRings(rings).value)
    ensures |GroupRings(rings).value| == CountClockwise(rings)
  {
    GroupRingsDefined(rings);
    if |rings| > 0 {
      var n := |rings|;
      var init := rings[..n - 1];
      var last := rings[n - 1];
      assert rings == init + [last];
      ReadableSnoc(init, last);
      GroupRingsStructure(init);
      var ps := GroupRings(init).value;
      if IsClockwise(last) {
        GroupStepShell(ps, last);
      } else {
        GroupStepHole(ps, last);
      }
    }
  }

  /** Once the grouping of a prefix has failed, the grouping of the whole fails. */
  lemma {:induction false} GroupRingsFailurePersists(rings: seq<Ring>, i: nat)
    requires i <= |rings| && GroupRings(rings[..i]).None?
    ensures GroupRings(rings).None?
    decreases |rings| - i
  {
    if i < |rings| {
      assert rings[..i + 1][..i] == rings[..i];
      GroupRingsFailurePersists(rings, i + 1);
    } else {
      assert rings[..i] == rings;
    }
  }

  lemma GroupRingsShellStep(rings: seq<Ring>, ps: seq<Polygon>)
    requires |rings| > 0 && GroupRings(rings[..|rings| - 1]) == Some(ps)
    requires |rings[|rings| - 1]| >= 1 && IsClockwise(rings[|rings| - 1])
    ensures GroupRings(rings) == Some(ps + [[rings[|rings| - 1]]])
  {
  }

  lemma GroupRingsHoleStep(rings: seq<Ring>, ps: seq<Polygon>)
    requires |rings| > 0 && GroupRings(rings[..|rings| - 1]) == Some(ps) && |ps| > 0
    requires |rings[|rings| - 1]| >= 1 && !IsClockwise(rings[|rings| - 1])
    ensures GroupRings(rings) == Some(ps[..|ps| - 1] + [ps[|ps| - 1] + [rings[|rings| - 1]]])
  {
  }

  /** Dropping a last polygon that is a lone shell leaves a decomposition of the rings before it. */
  lemma PeelShell(qs: seq<Polygon>)
    requires ShellsThenHoles(qs) && |qs| > 0 && |qs[|qs| - 1]| == 1
    ensures var init := qs[..|qs| - 1];
      && ShellsThenHoles(init)
      && |Flatten(qs)| > 0
      && Flatten(qs)[..|Flatten(qs)| - 1] == Flatten(init)
      && Flatten(qs)[|Flatten(qs)| - 1] == qs[|qs| - 1][0]
      && IsClockwise(qs[|qs| - 1][0]) && |qs[|qs| - 1][0]| >= 1
      && qs == init + [[qs[|qs| - 1][0]]]
  {
    var m := |qs|;
    var init, lastPoly := qs[..m - 1], qs[m - 1];
    assert ShellWithHoles(lastPoly);
    forall i | 0 <= i < |init| ensures ShellWithHoles(init[i]) { assert init[i] == qs[i]; }
    assert lastPoly == [lastPoly[0]];
    assert Flatten(qs) == Flatten(init) + [lastPoly[0]];
  }

  /** Dropping the last hole of the last polygon leaves a decomposition of the rings before it. */
  lemma PeelHole(qs: seq<Polygon>)
    requires ShellsThenHoles(qs) && |qs| > 0 && |qs[|qs| - 1]| > 1
    ensures var m, lastPoly := |qs|, qs[|qs| - 1];
      var hole := lastPoly[|lastPoly| - 1];
      var ps := qs[..m - 1] + [lastPoly[..|lastPoly| - 1]];
      && ShellsThenHoles(ps)
      && |ps| == m
      && |Flatten(qs)| > 0
      && Flatten(qs)[..|Flatten(qs)| - 1] == Flatten(ps)
      && Flatten(qs)[|Flatten(qs)| - 1] == hole
      && |hole| >= 1 && !IsClockwise(hole)
      && qs == ps[..m - 1] + [ps[m - 1] + [hole]]
  {
    var m := |qs|;
    var init, lastPoly := qs[..m - 1], qs[m - 1];
    var shorter := lastPoly[..|lastPoly| - 1];
    var hole := lastPoly[|lastPoly| - 1];
    var ps := init + [shorter];
    assert ShellWithHoles(lastPoly);
    assert ps[..m - 1] == init;
    assert lastPoly == shorter + [hole];
    ShellWithHolesSnoc(shorter, hole);
    forall i | 0 <= i < |ps| ensures ShellWithHoles(ps[i]) {
      if i < m - 1 { assert ps[i] == qs[i]; }
    }
    assert Flatten(ps) == Flatten(init) + shorter;
    assert Flatten(qs) == Flatten(init) + lastPoly;
  }

  /**
   * The decomposition is the only one: any list of polygons, each a clockwise
   * ring followed by non-clockwise ones, that flattens to the rings is the
   * one the regrouping builds.
   */
  lemma {:induction false} GroupRingsUnique(rings: seq<Ring>, qs: seq<Polygon>)
    requires Flatten(qs) == rings
    requires ShellsThenHoles(qs)
    ensures GroupRings(rings) == Some(qs)
    decreases |rings|
  {
    if |qs| == 0 {
      return;
    }
    var m := |qs|;
    var n := |rings|;
    if |qs[m - 1]| == 1 {
      PeelShell(qs);
      GroupRingsUnique(rings[..n - 1], qs[..m - 1]);
      GroupRingsShellStep(rings, qs[..m - 1]);
    } else {
      assert ShellWithHoles(qs[m - 1]);
      PeelHole(qs);
      var ps := qs[..m - 1] + [qs[m - 1][..|qs[m - 1]| - 1]];
      GroupRingsUnique(rings[..n - 1], ps);
      GroupRingsHoleStep(rings, ps);
    }
  }

  /** The geometry `fix_esri_polyon` returns for a list of rings, `None` where it raises. */
  function FixedGeometry(rings: seq<Ring>): Option<Geom> {
    match GroupRings(rings)
    case None => None
    case Some(ps) =>
      if |ps| > 1 then Some(MultiPolygonGeom(ps))
      else if |ps| == 1 then Some(PolygonGeom(ps[0]))
      else None
  }

  /**
   * The repair yields a multi-polygon exactly when more than one ring is
   * clockwise, the single polygon when exactly one is, and fails when there
   * are no rings, the first ring is a hole, or a ring cannot be read.
   */
  lemma FixedGeometryOutcome(rings: seq<Ring>)
    ensures FixedGeometry(rings).None? <==>
      |rings| == 0 || !Readable(rings) || !IsClockwise(rings[0])
    ensures FixedGeometry(rings).Some? ==>
      && Readable(rings)
      && (FixedGeometry(rings).value.MultiPolygonGeom? <==> CountClockwise(rings) > 1)
      && (FixedGeometry(rings).value.PolygonGeom? <==> CountClockwise(rings) == 1)
      && Vertices(FixedGeometry(rings).value) == RingsVertices(rings)
  {
    GroupRingsDefined(rings);
    if GroupRings(rings).Some? {
      GroupRingsStructure(rings);
      var ps := GroupRings(rings).value;
      FlattenVertices(ps);
      if |ps| == 1 {
        assert Flatten(ps) == ps[0] by { assert ps[..0] == []; }
      }
    }
  }

  /** Regrouping keeps the vertex sequence: the multi-polygon's vertices are the rings' vertices. */
  lemma {:induction false} FlattenVertices(ps: seq<Polygon>)
    ensures PolygonsVertices(ps) == RingsVertices(Flatten(ps))
    decreases |ps|
  {
    if |ps| > 0 {
      var m := |ps|;
      FlattenVertices(ps[..m - 1]);
      PolygonsVerticesSnoc(ps[..m - 1], ps[m - 1]);
      assert ps == ps[..m - 1] + [ps[m - 1]];
      RingsVerticesAppend(Flatten(ps[..m - 1]), ps[m - 1]);
    }
  }

  lemma {:induction false} RingsVerticesAppend(a: seq<Ring>, b: seq<Ring>)
    ensures RingsVertices(a + b) == RingsVertices(a) + RingsVertices(b)
    decreases |a|
  {
    if |a| == 0 {
      assert a + b == b;
    } else {
      assert (a + b)[1..] == a[1..] + b;
      RingsVerticesAppend(a[1..], b);
    }
  }

  lemma {:induction false} PolygonsVerticesSnoc(ps: seq<Polygon>, p: Polygon)
    ensures PolygonsVertices(ps + [p]) == PolygonsVertices(ps) + RingsVertices(p)
    decreases |ps|
  {
    if |ps| == 0 {
      assert ps + [p] == [p];
      assert PolygonsVertices([p]) == RingsVertices(p) + PolygonsVertices([]);
    } else {
      assert (ps + [p])[1..] == ps[1..] + [p];
      PolygonsVerticesSnoc(ps[1..], p);
    }
  }

  /**
   * `fix_esri_polyon`: regroup the rings, then return a multi-polygon when
   * more than one polygon was built and the polygon itself when exactly one
   * was. No rings (the final `pop` on an empty list), a leading hole (adding
   * to `poly` while it is still `None`) or an unreadable ring fail: `None`.
   */
  method FixEsriPolygon(rings: seq<Ring>) returns (r: Option<Geom>)
    ensures r == FixedGeometry(rings)
  {
    var polygons: seq<Polygon> := [];
    for i := 0 to |rings|
      invariant GroupRings(rings[..i]) == Some(polygons)
    {
      assert rings[..i + 1][..i] == rings[..i];
      var clockwise := RingIsClockwise(rings[i]);
      if clockwise.None? {
        GroupRingsFailurePersists(rings, i + 1);
        return None;
      }
      if clockwise.value {
        polygons := polygons + [[rings[i]]];
      } else if |polygons| == 0 {
        GroupRingsFailurePersists(rings, i + 1);
        return None;
      } else {
        // the ring goes into the polygon started last, which `poly` still refers to
        polygons := polygons[..|polygons| - 1] + [polygons[|polygons| - 1] + [rings[i]]];
      }
    }
    assert rings[..|rings|] == rings;
    if |polygons| > 1 {
      r := Some(MultiPolygonGeom(polygons));
    } else if |polygons| == 1 {
      r := Some(PolygonGeom(polygons[0]));
    } else {
      r := None;
    }
  }
}
