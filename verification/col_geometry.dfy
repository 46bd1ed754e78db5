/**
 The geometric tests of the collision-mesh tools: cutting a segment with a
 plane, rejecting segments that miss an axis-aligned box, the collinearity
 test behind edge merging, and how a cut face orients the edge it yields.
 */
module ColGeometry {
  import opened Wrappers
  import opened Geometry

  // ---------------------------------------------------------------------
  // Segment against plane
  // ---------------------------------------------------------------------

  /** The tolerance under which a product of signed distances counts as "same side". */
  const SideTolerance: real := 0.000001

  /** Signed distance of p from the plane n·x = d, scaled by |n|. */
  function PlaneDist(n: Vec3, d: real, p: Vec3): real {
    Dot3(n, p) - d
  }

  /** Whether the endpoints are strictly on opposite sides of the plane, by the tolerance. */
  predicate Straddles(s0: Vec3, s1: Vec3, n: Vec3, d: real) {
    PlaneDist(n, d, s0) * PlaneDist(n, d, s1) <= -SideTolerance
  }

  /** The point of the segment at parameter t. */
  function Lerp3(s0: Vec3, s1: Vec3, t: real): Vec3 {
    Add3(s0, Scale3(t, Sub3(s1, s0)))
  }

  /** `d0/(d0-d1)` for distances of opposite sign: strictly between 0 and 1. */
  function CutParameter(d0: real, d1: real): (t: real)
    requires d0 * d1 < 0.0
    ensures 0.0 < t < 1.0
    ensures d0 + t * (d1 - d0) == 0.0
  {
    CutParameterBounds(d0, d1);
    d0 / (d0 - d1)
  }

  lemma CutParameterBounds(d0: real, d1: real)
    requires d0 * d1 < 0.0
    ensures d0 - d1 != 0.0
    ensures 0.0 < d0 / (d0 - d1) < 1.0
    ensures d0 + d0 / (d0 - d1) * (d1 - d0) == 0.0
  {
    var t := d0 / (d0 - d1);
    assert t * (d0 - d1) == d0;
    if d0 > 0.0 {
      assert d1 < 0.0;
    } else {
      assert d0 < 0.0 && d1 > 0.0;
    }
  }

  /**
   `intersect_segment_plane`: None unless the endpoints straddle the plane;
   otherwise the point at parameter d0/(d0-d1), which lies strictly
   between the endpoints.
   */
  function SegmentPlane(s0: Vec3, s1: Vec3, n: Vec3, d: real): (r: Option<Vec3>)
    ensures r.Some? <==> Straddles(s0, s1, n, d)
    ensures r.Some? ==> exists t :: 0.0 < t < 1.0 && r.value == Lerp3(s0, s1, t)
  {
    var d0 := PlaneDist(n, d, s0);
    var d1 := PlaneDist(n, d, s1);
    if d0 * d1 > -SideTolerance then None
    else
      var t := CutParameter(d0, d1);
      Some(Lerp3(s0, s1, t))
  }

  lemma LerpDist(s0: Vec3, s1: Vec3, n: Vec3, d: real, t: real)
    ensures PlaneDist(n, d, Lerp3(s0, s1, t)) == PlaneDist(n, d, s0) + t * (PlaneDist(n, d, s1) - PlaneDist(n, d, s0))
  {
  }

  /** The cut point lies on the plane. */
  lemma SegmentPlaneOnPlane(s0: Vec3, s1: Vec3, n: Vec3, d: real)
    requires SegmentPlane(s0, s1, n, d).Some?
    ensures Dot3(n, SegmentPlane(s0, s1, n, d).value) == d
  {
    var d0 := PlaneDist(n, d, s0);
    var d1 := PlaneDist(n, d, s1);
    var t := CutParameter(d0, d1);
    LerpDist(s0, s1, n, d, t);
  }

  // ---------------------------------------------------------------------
  // Box against segment
  // ---------------------------------------------------------------------

  /** `abs(x) < 1e-6` */
  predicate NearZero(x: real) {
    -0.000001 < x < 0.000001
  }

  /** Both endpoints beyond the same face of the box. */
  predicate BeyondSameFace(bmin: Vec2, bmax: Vec2, v0: Vec2, v1: Vec2) {
    || (v0.x < bmin.x && v1.x < bmin.x)
    || (v0.x > bmax.x && v1.x > bmax.x)
    || (v0.y < bmin.y && v1.y < bmin.y)
    || (v0.y > bmax.y && v1.y > bmax.y)
  }

  /** The parameter interval over which the line is between lo and hi on one axis, when it is not parallel. */
  function Slab(lo: real, hi: real, p: real, dp: real): (r: (real, real))
    requires dp != 0.0
    ensures r.0 <= r.1
  {
    var ta := (lo - p) / dp;
    var tb := (hi - p) / dp;
    (Min(ta, tb), Max(ta, tb))
  }

  /**
   `intersectAABBVsLine`: after the same-face rejections, a nearly axis
   parallel segment counts as hitting; otherwise the line's x and y slab
   intervals must overlap.
   */
  function AabbVsLine(bmin: Vec2, bmax: Vec2, v0: Vec2, v1: Vec2): (r: bool)
    ensures BeyondSameFace(bmin, bmax, v0, v1) ==> !r
    ensures !BeyondSameFace(bmin, bmax, v0, v1) && (NearZero(v1.x - v0.x) || NearZero(v1.y - v0.y)) ==> r
  {
    if BeyondSameFace(bmin, bmax, v0, v1) then false
    else
      var dx := v1.x - v0.x;
      var dy := v1.y - v0.y;
      if NearZero(dx) || NearZero(dy) then true
      else
        var sx := Slab(bmin.x, bmax.x, v0.x, dx);
        var sy := Slab(bmin.y, bmax.y, v0.y, dy);
        sx.0 < sy.1 && sy.0 < sx.1
  }

  /** Strictly inside the box. */
  predicate InOpenBox(bmin: Vec2, bmax: Vec2, p: Vec2) {
    bmin.x < p.x < bmax.x && bmin.y < p.y < bmax.y
  }

  function Lerp2(v0: Vec2, v1: Vec2, t: real): Vec2 {
    Vec2(v0.x + t * (v1.x - v0.x), v0.y + t * (v1.y - v0.y))
  }

  /** Inside the slab at parameter t means t lies in the slab's interval. */
  lemma SlabContains(lo: real, hi: real, p: real, dp: real, t: real)
    requires dp != 0.0
    requires lo < p + t * dp < hi
    ensures Slab(lo, hi, p, dp).0 < t < Slab(lo, hi, p, dp).1
  {
    var ta := (lo - p) / dp;
    var tb := (hi - p) / dp;
    assert ta * dp == lo - p;
    assert tb * dp == hi - p;
    if dp > 0.0 {
      assert ta * dp < t * dp;
      assert tb * dp > t * dp;
    } else {
      assert ta * dp < t * dp;
      assert tb * dp > t * dp;
    }
  }

  lemma MulNonneg(p: real, q: real)
    requires p >= 0.0 && q >= 0.0
    ensures p * q >= 0.0
  {
  }

  lemma MulPos(p: real, q: real)
    requires p > 0.0 && q > 0.0
    ensures p * q > 0.0
  {
  }

  /** Convexity on one axis: a point between two points below a bound is below it too. */
  lemma BetweenBelow(a: real, b: real, bound: real, t: real)
    requires 0.0 <= t <= 1.0 && a < bound && b < bound
    ensures a + t * (b - a) < bound
  {
    var x := (1.0 - t) * (bound - a);
    var y := t * (bound - b);
    MulNonneg(1.0 - t, bound - a);
    MulNonneg(t, bound - b);
    assert x + y > 0.0 by {
      if t > 0.0 {
        MulPos(t, bound - b);
      } else {
        MulPos(1.0 - t, bound - a);
      }
    }
    assert t * (b - a) == t * b - t * a;
    assert x == bound - a - t * bound + t * a;
    assert y == t * bound - t * b;
  }

  lemma BetweenAbove(a: real, b: real, bound: real, t: real)
    requires 0.0 <= t <= 1.0 && a > bound && b > bound
    ensures a + t * (b - a) > bound
  {
    BetweenBelow(-a, -b, -bound, t);
  }

  /**
   The test is conservative: when it says "no hit", no point of the segment
   lies strictly inside the box.
   */
  lemma AabbVsLineMissSound(bmin: Vec2, bmax: Vec2, v0: Vec2, v1: Vec2, t: real)
    requires !AabbVsLine(bmin, bmax, v0, v1)
    requires 0.0 <= t <= 1.0
    ensures !InOpenBox(bmin, bmax, Lerp2(v0, v1, t))
  {
    var p := Lerp2(v0, v1, t);
    if BeyondSameFace(bmin, bmax, v0, v1) {
      if v0.x < bmin.x && v1.x < bmin.x {
        BetweenBelow(v0.x, v1.x, bmin.x, t);
      } else if v0.x > bmax.x && v1.x > bmax.x {
        BetweenAbove(v0.x, v1.x, bmax.x, t);
      } else if v0.y < bmin.y && v1.y < bmin.y {
        BetweenBelow(v0.y, v1.y, bmin.y, t);
      } else {
        BetweenAbove(v0.y, v1.y, bmax.y, t);
      }
    } else if InOpenBox(bmin, bmax, p) {
      SlabsOverlap(bmin, bmax, v0, v1, t);
    }
  }

  /** A point strictly inside the box, on a segment that is not axis parallel, makes the slab intervals overlap. */
  lemma SlabsOverlap(bmin: Vec2, bmax: Vec2, v0: Vec2, v1: Vec2, t: real)
    requires !BeyondSameFace(bmin, bmax, v0, v1)
    requires InOpenBox(bmin, bmax, Lerp2(v0, v1, t))
    ensures AabbVsLine(bmin, bmax, v0, v1)
  {
    var dx := v1.x - v0.x;
    var dy := v1.y - v0.y;
    if !NearZero(dx) && !NearZero(dy) {
      var p := Lerp2(v0, v1, t);
      assert bmin.x < v0.x + t * dx < bmax.x && bmin.y < v0.y + t * dy < bmax.y;
      SteepOverlap(bmin, bmax, v0, dx, dy, t);
      SteepTest(bmin, bmax, v0, v1);
    }
  }

  /** A point of the open box on a line that is steep on both axes lies in both slabs, so the slabs overlap. */
  lemma SteepOverlap(bmin: Vec2, bmax: Vec2, v0: Vec2, dx: real, dy: real, t: real)
    requires dx != 0.0 && dy != 0.0
    requires bmin.x < v0.x + t * dx < bmax.x && bmin.y < v0.y + t * dy < bmax.y
    ensures Slab(bmin.x, bmax.x, v0.x, dx).0 < Slab(bmin.y, bmax.y, v0.y, dy).1
    ensures Slab(bmin.y, bmax.y, v0.y, dy).0 < Slab(bmin.x, bmax.x, v0.x, dx).1
  {
    SlabContains(bmin.x, bmax.x, v0.x, dx, t);
    SlabContains(bmin.y, bmax.y, v0.y, dy, t);
    SlabsMeet(Slab(bmin.x, bmax.x, v0.x, dx), Slab(bmin.y, bmax.y, v0.y, dy), t);
  }

  /** On a line steep on both axes, the test is the overlap of the slabs. */
  lemma SteepTest(bmin: Vec2, bmax: Vec2, v0: Vec2, v1: Vec2)
    requires !BeyondSameFace(bmin, bmax, v0, v1)
    requires !NearZero(v1.x - v0.x) && !NearZero(v1.y - v0.y)
    ensures var sx := Slab(bmin.x, bmax.x, v0.x, v1.x - v0.x);
            var sy := Slab(bmin.y, bmax.y, v0.y, v1.y - v0.y);
            AabbVsLine(bmin, bmax, v0, v1) <==> sx.0 < sy.1 && sy.0 < sx.1
  {
  }

  /** Two intervals that both contain t strictly overlap. */
  lemma SlabsMeet(sx: (real, real), sy: (real, real), t: real)
    requires sx.0 < t < sx.1 && sy.0 < t < sy.1
    ensures sx.0 < sy.1 && sy.0 < sx.1
  {
  }

  // ---------------------------------------------------------------------
  // Collinearity and edge orientation
  // ---------------------------------------------------------------------

  /**
   `area_tri(a, b, c) < 1e-4`: half the cross product's length is below
   1e-4, stated on the squared length so no square root is needed.
   */
  predicate Collinear(a: Vec3, b: Vec3, c: Vec3) {
    Len3Sq(Cross(Sub3(b, a), Sub3(c, a))) < 0.00000004
  }

  /** A point on the line through a and b, repeated corners included (t = 0 or 1), makes a collinear triple. */
  lemma CollinearOnLine(a: Vec3, b: Vec3, t: real)
    ensures Collinear(a, b, Add3(a, Scale3(t, Sub3(b, a))))
  {
    var u := Sub3(b, a);
    var w := Sub3(Add3(a, Scale3(t, u)), a);
    assert w == Scale3(t, u);
    assert Cross(u, w) == Vec3(0.0, 0.0, 0.0) by {
      assert u.y * (t * u.z) == u.z * (t * u.y);
      assert u.z * (t * u.x) == u.x * (t * u.z);
      assert u.x * (t * u.y) == u.y * (t * u.x);
    }
  }

  /** The right-hand normal of an edge in the plane, (e1.y-e0.y, e0.x-e1.x). */
  function EdgeNormal(e0: Vec3, e1: Vec3): Vec2 {
    Vec2(e1.y - e0.y, e0.x - e1.x)
  }

  /** The points where the cut plane crosses the polygon's edges (corner i to corner i+1, wrapping), in order. */
  function FaceCuts(corners: seq<Vec3>, n: Vec3, d: real): (cuts: seq<Vec3>)
    ensures |cuts| <= |corners|
    ensures forall j :: 0 <= j < |cuts| ==> Dot3(n, cuts[j]) == d
  {
    CutsFrom(corners, 0, n, d)
  }

  function CutsFrom(corners: seq<Vec3>, i: nat, n: Vec3, d: real): (cuts: seq<Vec3>)
    requires i <= |corners|
    ensures |cuts| <= |corners| - i
    ensures forall j :: 0 <= j < |cuts| ==> Dot3(n, cuts[j]) == d
    decreases |corners| - i
  {
    if i == |corners| then []
    else
      var next := corners[(i + 1) % |corners|];
      match SegmentPlane(corners[i], next, n, d)
      case None => CutsFrom(corners, i + 1, n, d)
      case Some(p) =>
        SegmentPlaneOnPlane(corners[i], next, n, d);
        [p] + CutsFrom(corners, i + 1, n, d)
  }

  /**
   The edge a face contributes: only when the plane cuts it at exactly two
   points, ordered so that the edge's right-hand normal agrees with the
   face normal's xy (the pair is swapped when their dot product is not
   positive).
   */
  function OrientedCut(corners: seq<Vec3>, faceNormal: Vec3, n: Vec3, d: real): (r: Option<(Vec3, Vec3)>)
    ensures r.Some? <==> |FaceCuts(corners, n, d)| == 2
    ensures r.Some? ==> Dot2(EdgeNormal(r.value.0, r.value.1), Drop(faceNormal)) >= 0.0
    ensures r.Some? ==> var cuts := FaceCuts(corners, n, d);
                        (r.value == (cuts[0], cuts[1]) || r.value == (cuts[1], cuts[0]))
  {
    var cuts := FaceCuts(corners, n, d);
    if |cuts| != 2 then None
    else
      var e0 := cuts[0];
      var e1 := cuts[1];
      if Dot2(EdgeNormal(e0, e1), Drop(faceNormal)) > 0.0 then Some((e0, e1))
      else
        assert Dot2(EdgeNormal(e1, e0), Drop(faceNormal)) == -Dot2(EdgeNormal(e0, e1), Drop(faceNormal));
        Some((e1, e0))
  }
}
