/**
 Height tracing against the track: the point-in-triangle test, the plane
 height of a triangle and of a quad, and the binary search over the
 segment chain shared by `Track::traceZ` and `Track::findNearestSegment`.
 */
module TrackQuery {
  import opened Wrappers
  import opened Geometry
  import opened TrackGen
  import opened TrackMesh

  /**
   The reference condition for a point inside a triangle, with the vertices
   already translated so that the point is the origin: the three edge cross
   products u = b×c, v = c×a, w = a×b pairwise have non-negative dot
   products. Points on an edge or a vertex count as inside.
   */
  predicate WindsAround(a: Vec3, b: Vec3, c: Vec3)
  {
    var u := Cross(b, c);
    var v := Cross(c, a);
    var w := Cross(a, b);
    Dot3(u, v) >= 0.0 && Dot3(u, w) >= 0.0 && Dot3(v, w) >= 0.0
  }

  /** `isPointInTriangle`, with its two early rejections. */
  function InTriangle(p: Vec3, a: Vec3, b: Vec3, c: Vec3): (inside: bool)
    ensures inside <==> WindsAround(Sub3(a, p), Sub3(b, p), Sub3(c, p))
  {
    var a' := Sub3(a, p);
    var b' := Sub3(b, p);
    var c' := Sub3(c, p);
    var u := Cross(b', c');
    var v := Cross(c', a');
    if Dot3(u, v) < 0.0 then false
    else
      var w := Cross(a', b');
      if Dot3(u, w) < 0.0 then false
      else Dot3(v, w) >= 0.0
  }

  /** The test does not depend on which vertex comes first. */
  lemma InTriangleRotate(p: Vec3, a: Vec3, b: Vec3, c: Vec3)
    ensures InTriangle(p, a, b, c) == InTriangle(p, b, c, a)
  {
  }

  /** Nor on the winding: swapping two vertices gives the same answer. */
  lemma InTriangleMirror(p: Vec3, a: Vec3, b: Vec3, c: Vec3)
    ensures InTriangle(p, a, b, c) == InTriangle(p, a, c, b)
  {
    var a', b', c' := Sub3(a, p), Sub3(b, p), Sub3(c, p);
    assert Cross(c', b') == Scale3(-1.0, Cross(b', c'));
    assert Cross(b', a') == Scale3(-1.0, Cross(a', b'));
    assert Cross(a', c') == Scale3(-1.0, Cross(c', a'));
  }

  /** Every vertex of a triangle is inside it. */
  lemma VerticesInside(a: Vec3, b: Vec3, c: Vec3)
    ensures InTriangle(a, a, b, c) && InTriangle(b, a, b, c) && InTriangle(c, a, b, c)
  {
    assert Sub3(a, a) == Zero3 && Sub3(b, b) == Zero3 && Sub3(c, c) == Zero3;
  }

  /** The centroid of any triangle, degenerate or not, is inside it. */
  lemma {:induction false} CentroidInside(a: Vec3, b: Vec3, c: Vec3)
    ensures InTriangle(Scale3(1.0 / 3.0, Add3(Add3(a, b), c)), a, b, c)
  {
    var g := Scale3(1.0 / 3.0, Add3(Add3(a, b), c));
    var a', b', c' := Sub3(a, g), Sub3(b, g), Sub3(c, g);
    assert c' == Vec3(-a'.x - b'.x, -a'.y - b'.y, -a'.z - b'.z);
    var w := Cross(a', b');
    CrossOfNegatedSum(a', b', c');
    assert Cross(b', c') == w && Cross(c', a') == w;
    SquareNonNegative(w);
  }

  lemma CrossOfNegatedSum(a: Vec3, b: Vec3, c: Vec3)
    requires c == Vec3(-a.x - b.x, -a.y - b.y, -a.z - b.z)
    ensures Cross(b, c) == Cross(a, b) && Cross(c, a) == Cross(a, b)
  {
  }

  lemma SquareNonNegative(w: Vec3)
    ensures Dot3(w, w) >= 0.0
  {
  }

  /**
   What `traceTriangleZ` produces: whether the point was found inside, and
   the height it wrote (`None` when the plane is vertical, where the source
   divides by a zero normal z and writes a non-finite value).
   */
  datatype Trace = Trace(hit: bool, z: Option<real>)

  /** `normalize(cross(t1 - t0, t2 - t0))` */
  function PlaneNormal(m: Maths, t0: Vec3, t1: Vec3, t2: Vec3): Vec3
  {
    FaceNormal(m, t0, t1, t2)
  }

  /**
   `traceTriangleZ`: project `p` vertically onto the triangle's plane and
   test the projected point against the triangle. The height lies on the
   plane, and a hit means the projected point is inside.
   */
  function TraceTriangleZ(m: Maths, p: Vec2, t0: Vec3, t1: Vec3, t2: Vec3): (r: Trace)
    ensures r.z.None? <==> PlaneNormal(m, t0, t1, t2).z == 0.0
    ensures r.z.None? ==> !r.hit
    ensures r.z.Some? ==> Dot3(PlaneNormal(m, t0, t1, t2), Lift(p, r.z.value)) == Dot3(PlaneNormal(m, t0, t1, t2), t0)
    ensures r.z.Some? ==> (r.hit <==> InTriangle(Lift(p, r.z.value), t0, t1, t2))
  {
    var n := PlaneNormal(m, t0, t1, t2);
    var d := Dot3(n, t0);
    if n.z == 0.0 then Trace(false, None)
    else
      var z := (d - (n.x * p.x + n.y * p.y)) / n.z;
      PlaneHeight(n, p, d, z);
      Trace(InTriangle(Lift(p, z), t0, t1, t2), Some(z))
  }

  lemma PlaneHeight(n: Vec3, p: Vec2, d: real, z: real)
    requires n.z != 0.0 && z == (d - (n.x * p.x + n.y * p.y)) / n.z
    ensures Dot3(n, Lift(p, z)) == d
  {
    assert n.z * z == d - (n.x * p.x + n.y * p.y);
  }

  /** A triangle whose three vertices are at height `h`. */
  predicate Flat(h: real, t0: Vec3, t1: Vec3, t2: Vec3)
  {
    t0.z == h && t1.z == h && t2.z == h
  }

  /**
   On a horizontal, non-degenerate triangle the traced height is the
   triangle's height, and the trace hits exactly when the point, lifted to
   that height, is inside.
   */
  lemma FlatTriangleHeight(m: Maths, p: Vec2, t0: Vec3, t1: Vec3, t2: Vec3, h: real)
    requires Lawful(m) && Flat(h, t0, t1, t2)
    requires Cross(Sub3(t1, t0), Sub3(t2, t0)) != Zero3
    ensures TraceTriangleZ(m, p, t0, t1, t2).z == Some(h)
    ensures TraceTriangleZ(m, p, t0, t1, t2).hit <==> InTriangle(Lift(p, h), t0, t1, t2)
  {
    var c := Cross(Sub3(t1, t0), Sub3(t2, t0));
    var n := PlaneNormal(m, t0, t1, t2);
    assert c.x == 0.0 && c.y == 0.0 && c.z != 0.0;
    assert Cross(n, c) == Zero3 && Dot3(n, c) > 0.0;
    ParallelToZ(n, c);
    var z := TraceTriangleZ(m, p, t0, t1, t2).z.value;
    assert Dot3(n, Lift(p, z)) == Dot3(n, t0);
    CancelLevel(n, p, z, t0);
  }

  /** A vector parallel to, and on the same side as, a vertical vector is vertical. */
  lemma ParallelToZ(n: Vec3, c: Vec3)
    requires c.x == 0.0 && c.y == 0.0 && c.z != 0.0
    requires Cross(n, c) == Zero3 && Dot3(n, c) > 0.0
    ensures n.x == 0.0 && n.y == 0.0 && n.z != 0.0
  {
    assert n.y * c.z == 0.0 && n.x * c.z == 0.0;
  }

  /** On a level plane with vertical normal, every point of the plane has the height of `t0`. */
  lemma CancelLevel(n: Vec3, p: Vec2, z: real, t0: Vec3)
    requires n.x == 0.0 && n.y == 0.0 && n.z != 0.0
    requires Dot3(n, Lift(p, z)) == Dot3(n, t0)
    ensures z == t0.z
  {
    assert n.z * z == n.z * t0.z;
  }

  /**
   `traceQuadZ`: the quad (q0, q1, q2, q3) is tried as triangle (q0, q1, q2)
   and then as (q3, q2, q1); the height written is that of the last
   triangle tried.
   */
  function TraceQuadZ(m: Maths, p: Vec2, q0: Vec3, q1: Vec3, q2: Vec3, q3: Vec3): (r: Trace)
    ensures r.hit <==> TraceTriangleZ(m, p, q0, q1, q2).hit || TraceTriangleZ(m, p, q3, q2, q1).hit
    ensures r.z.None? ==> !r.hit
  {
    var first := TraceTriangleZ(m, p, q0, q1, q2);
    if first.hit then first else TraceTriangleZ(m, p, q3, q2, q1)
  }

  /**
   On a horizontal quad whose two triangles are non-degenerate, a hit
   reports the quad's height.
   */
  lemma FlatQuadHeight(m: Maths, p: Vec2, q0: Vec3, q1: Vec3, q2: Vec3, q3: Vec3, h: real)
    requires Lawful(m) && Flat(h, q0, q1, q2) && q3.z == h
    requires Cross(Sub3(q1, q0), Sub3(q2, q0)) != Zero3
    requires Cross(Sub3(q2, q3), Sub3(q1, q3)) != Zero3
    ensures TraceQuadZ(m, p, q0, q1, q2, q3).hit ==> TraceQuadZ(m, p, q0, q1, q2, q3).z == Some(h)
  {
    FlatTriangleHeight(m, p, q0, q1, q2, h);
    FlatTriangleHeight(m, p, q3, q2, q1, h);
  }

  /** What probing one segment tells the search: go lower, go higher, or this one. */
  datatype Probe = Below | Above | Hit(dp: real)

  /**
   The far edge segment `i` is checked against: the next segment's start
   rails and direction, or, for the last segment, its own end rails and
   direction.
   */
  datatype FarEdge = FarEdge(left: Vec3, right: Vec3, dir: Vec2)

  function FarEdgeOf(segs: seq<Segment>, i: nat): FarEdge
    requires i < |segs|
  {
    var s := segs[i];
    if i + 1 < |segs| then
      var ns := segs[i + 1];
      FarEdge(LeftRail(ns.p, ns), RightRail(ns.p, ns), ns.dir)
    else
      FarEdge(LeftRail(s.End(), s), RightRail(s.End(), s), s.dir)
  }

  /**
   One pivot step of the search: coarse y tests against the near rails and
   the far rails, then the precise tests against the start line of the
   segment and the start line of what follows it. A hit reports how far
   along the segment's direction the point lies.
   */
  function ProbeAt(segs: seq<Segment>, i: nat, p: Vec2): (r: Probe)
    requires i < |segs|
    ensures r.Hit? ==> r.dp == Dot2(segs[i].dir, Sub2(p, segs[i].p)) && r.dp >= 0.0
    ensures r.Hit? ==> Dot2(FarEdgeOf(segs, i).dir, Sub2(p, segs[i].End())) <= 0.0
    ensures r.Hit? ==> FMin(LeftRail(segs[i].p, segs[i]).y, RightRail(segs[i].p, segs[i]).y) <= p.y
                       <= FMax(FarEdgeOf(segs, i).left.y, FarEdgeOf(segs, i).right.y)
  {
    var s := segs[i];
    if p.y < FMin(LeftRail(s.p, s).y, RightRail(s.p, s).y) then Below
    else
      var far := FarEdgeOf(segs, i);
      if p.y > FMax(far.left.y, far.right.y) then Above
      else
        var dp := Dot2(s.dir, Sub2(p, s.p));
        if dp < 0.0 then Below
        else if Dot2(far.dir, Sub2(p, s.End())) > 0.0 then Above
        else Hit(dp)
  }

  /**
   On the last segment, or on one the next segment continues straight, a
   hit lies between the segment's start and end: 0 <= dp <= length.
   */
  lemma HitWithinLength(segs: seq<Segment>, i: nat, p: Vec2)
    requires i < |segs|
    requires Len2Sq(segs[i].dir) == 1.0
    requires FarEdgeOf(segs, i).dir == segs[i].dir
    requires ProbeAt(segs, i, p).Hit?
    ensures 0.0 <= ProbeAt(segs, i, p).dp <= segs[i].Length()
  {
    var s := segs[i];
    DotPastEnd(s.dir, p, s.p, s.Length());
  }

  /** Measured along a unit direction, the end of a segment lies `length` past its start. */
  lemma DotPastEnd(d: Vec2, p: Vec2, q: Vec2, len: real)
    requires Len2Sq(d) == 1.0
    ensures Dot2(d, Sub2(p, Add2(q, Scale2(len, d)))) == Dot2(d, Sub2(p, q)) - len
  {
    assert Dot2(d, Sub2(p, Add2(q, Scale2(len, d)))) == Dot2(d, Sub2(p, q)) - len * Len2Sq(d);
  }

  /** The probe of every segment, in segment order. */
  function Probes(segs: seq<Segment>, p: Vec2): (ps: seq<Probe>)
    ensures |ps| == |segs|
    ensures forall i :: 0 <= i < |segs| ==> ps[i] == ProbeAt(segs, i, p)
  {
    seq(|segs|, i requires 0 <= i < |segs| => ProbeAt(segs, i, p))
  }

  /**
   How the search loop ends: a hit at some pivot, or the bounds crossed
   (`broke` when it left through the `pi == 0` underflow guard).
   */
  datatype SearchEnd = Found(index: nat, dp: real) | Exhausted(lower: nat, upper: nat, broke: bool)

  /**
   The search loop of `traceZ` / `findNearestSegment` from bounds (li, ui),
   over the probes of the segments, with `size_t` bounds as naturals: a
   Below at pivot 0 leaves the loop instead of decrementing past zero.
   */
  function Search(probes: seq<Probe>, li: nat, ui: nat): (e: SearchEnd)
    requires ui < |probes| && li <= ui + 1
    ensures e.Found? ==> li <= e.index <= ui && probes[e.index] == Hit(e.dp)
    ensures e.Exhausted? && e.broke ==> e.lower == 0 && e.upper <= 1 && e.upper <= ui && probes[0] == Below
    ensures e.Exhausted? && !e.broke ==> e.lower == e.upper + 1 && li <= e.lower && e.upper <= ui
    decreases ui + 1 - li
  {
    if li > ui then Exhausted(li, ui, false)
    else
      var pi := (li + ui) / 2;
      match probes[pi]
      case Hit(dp) => Found(pi, dp)
      case Below => if pi == 0 then Exhausted(li, ui, true) else Search(probes, li, pi - 1)
      case Above => Search(probes, pi + 1, ui)
  }

  /** The search of the whole chain for point `p`. */
  function SearchChain(segs: seq<Segment>, p: Vec2): SearchEnd
    requires |segs| >= 1
  {
    Search(Probes(segs, p), 0, |segs| - 1)
  }

  /**
   The search loop as the source writes it, reading the probe of one pivot
   segment per iteration; it ends as `Search` from the full range.
   */
  method SearchLoop(probes: seq<Probe>) returns (e: SearchEnd)
    requires |probes| >= 1
    ensures e == Search(probes, 0, |probes| - 1)
    ensures e.Found? ==> e.index < |probes| && probes[e.index] == Hit(e.dp)
  {
    var li: nat := 0;
    var ui: nat := |probes| - 1;
    while li <= ui
      invariant ui < |probes| && li <= ui + 1
      invariant Search(probes, li, ui) == Search(probes, 0, |probes| - 1)
      decreases ui + 1 - li
    {
      var next := SearchIteration(probes, li, ui);
      if next.Stop? {
        return next.result;
      }
      li, ui := next.li, next.ui;
    }
    SearchCrossed(probes, li, ui);
    return Exhausted(li, ui, false);
  }

  /** Where one iteration of the search loop leaves it: new bounds, or a result. */
  datatype SearchState = Go(li: nat, ui: nat) | Stop(result: SearchEnd)

  /** The body of the search loop: probe the pivot, then narrow the bounds or stop. */
  method SearchIteration(probes: seq<Probe>, li: nat, ui: nat) returns (next: SearchState)
    requires ui < |probes| && li <= ui
    ensures next.Stop? ==> next.result == Search(probes, li, ui)
    ensures next.Go? ==> && next.ui < |probes| && next.li <= next.ui + 1
                         && next.ui + 1 - next.li < ui + 1 - li
                         && Search(probes, next.li, next.ui) == Search(probes, li, ui)
  {
    var pi := (li + ui) / 2;
    assert li <= pi <= ui;
    var probe := probes[pi];
    SearchStep(probes, li, ui, probe);
    if probe.Hit? {
      return Stop(Found(pi, probe.dp));
    }
    if probe.Below? {
      if pi == 0 {
        return Stop(Exhausted(li, ui, true));
      }
      return Go(li, pi - 1);
    }
    return Go(pi + 1, ui);
  }

  /** Once the bounds have crossed, the search ends where it starts. */
  lemma SearchCrossed(probes: seq<Probe>, li: nat, ui: nat)
    requires ui < |probes| && li == ui + 1
    ensures Search(probes, li, ui) == Exhausted(li, ui, false)
  {
  }

  /** One iteration of the search loop, as an equation between the bounds before and after. */
  lemma SearchStep(probes: seq<Probe>, li: nat, ui: nat, probe: Probe)
    requires ui < |probes| && li <= ui && probe == probes[(li + ui) / 2]
    ensures probe.Hit? ==> Search(probes, li, ui) == Found((li + ui) / 2, probe.dp)
    ensures probe.Below? && (li + ui) / 2 == 0 ==> Search(probes, li, ui) == Exhausted(li, ui, true)
    ensures probe.Below? && (li + ui) / 2 > 0 ==> Search(probes, li, ui) == Search(probes, li, (li + ui) / 2 - 1)
    ensures probe.Above? ==> Search(probes, li, ui) == Search(probes, (li + ui) / 2 + 1, ui)
  {
  }

  /**
   The y-ordering the search relies on, for one point: the probes of all
   segments before `k` say Above, the probe of `k` hits, and all after say
   Below.
   */
  ghost predicate OrderedAround(probes: seq<Probe>, k: nat)
  {
    && k < |probes| && probes[k].Hit?
    && (forall i :: 0 <= i < k ==> probes[i] == Above)
    && (forall i :: k < i < |probes| ==> probes[i] == Below)
  }

  /** Under that ordering the binary search finds `k`. */
  lemma {:induction false} SearchFinds(probes: seq<Probe>, k: nat, li: nat, ui: nat)
    requires ui < |probes| && li <= k <= ui
    requires OrderedAround(probes, k)
    ensures Search(probes, li, ui) == Found(k, probes[k].dp)
    decreases ui + 1 - li
  {
    var pi := (li + ui) / 2;
    assert li <= pi <= ui;
    if pi < k {
      assert probes[pi] == Above;
      SearchFinds(probes, k, pi + 1, ui);
    } else if pi > k {
      assert probes[pi] == Below;
      SearchFinds(probes, k, li, pi - 1);
    }
  }

  /** If every probe says Above, the search leaves past the last segment. */
  lemma {:induction false} SearchAllAbove(probes: seq<Probe>, li: nat)
    requires |probes| >= 1 && li <= |probes|
    requires forall i :: 0 <= i < |probes| ==> probes[i] == Above
    ensures Search(probes, li, |probes| - 1) == Exhausted(|probes|, |probes| - 1, false)
    decreases |probes| - li
  {
    if li < |probes| {
      SearchAllAbove(probes, (li + |probes| - 1) / 2 + 1);
    }
  }

  /**
   The upper bound left behind when every probe says Below: the search
   lowers `ui` to `ui/2 - 1` until the pivot reaches 0.
   */
  function BelowChain(ui: nat): nat
    decreases ui
  {
    if ui / 2 == 0 then ui else BelowChain(ui / 2 - 1)
  }

  /** If every probe says Below, the search breaks at pivot 0 with upper bound `BelowChain(ui)`. */
  lemma {:induction false} SearchAllBelow(probes: seq<Probe>, ui: nat)
    requires ui < |probes|
    requires forall i :: 0 <= i < |probes| ==> probes[i] == Below
    ensures Search(probes, 0, ui) == Exhausted(0, BelowChain(ui), true)
    decreases ui
  {
    if ui / 2 != 0 {
      SearchAllBelow(probes, ui / 2 - 1);
    }
  }

  /** What `traceZ` reports: on track or not, and the height and distance it wrote, if any. */
  datatype TraceOut = TraceOut(onTrack: bool, z: Option<real>, distance: Option<real>)

  /** The road quad `traceZ` tests for segment `i`: its start rails, then the far rails. */
  function RoadQuadTrace(m: Maths, segs: seq<Segment>, i: nat, p: Vec2): Trace
    requires i < |segs|
  {
    var s := segs[i];
    var far := FarEdgeOf(segs, i);
    TraceQuadZ(m, p, LeftRail(s.p, s), RightRail(s.p, s), far.left, far.right)
  }

  /**
   `Track::traceZ` on a non-empty chain (on an empty one the source's
   `size() - 1` wraps around and the first probe reads out of bounds). When
   the search finds segment i, the distance along the track is written as
   the segment's distance plus the point's offset along it, and the answer
   is the road quad's trace; otherwise nothing is written and the point is
   off the track.
   */
  function TraceZ(m: Maths, segs: seq<Segment>, p: Vec2): (r: TraceOut)
    requires |segs| >= 1
    ensures SearchChain(segs, p).Exhausted? ==> r == TraceOut(false, None, None)
    ensures SearchChain(segs, p).Found? ==>
              var i := SearchChain(segs, p).index;
              && r.distance == Some(segs[i].distance + Dot2(segs[i].dir, Sub2(p, segs[i].p)))
              && r.onTrack == RoadQuadTrace(m, segs, i, p).hit
              && r.z == RoadQuadTrace(m, segs, i, p).z
    ensures r.onTrack ==> r.z.Some? && r.distance.Some?
  {
    match SearchChain(segs, p)
    case Exhausted(_, _, _) => TraceOut(false, None, None)
    case Found(i, dp) =>
      var quad := RoadQuadTrace(m, segs, i, p);
      TraceOut(quad.hit, quad.z, Some(segs[i].distance + dp))
  }

  /** Under the y-ordering around segment k, `traceZ` answers with segment k's road quad. */
  lemma TraceZOrdered(m: Maths, segs: seq<Segment>, p: Vec2, k: nat)
    requires OrderedAround(Probes(segs, p), k)
    ensures TraceZ(m, segs, p).onTrack == RoadQuadTrace(m, segs, k, p).hit
    ensures TraceZ(m, segs, p).distance == Some(segs[k].distance + ProbeAt(segs, k, p).dp)
  {
    var dp := ProbeAt(segs, k, p).dp;
    assert SearchChain(segs, p) == Found(k, dp) by {
      var probes := Probes(segs, p);
      SearchFinds(probes, k, 0, |segs| - 1);
      assert probes[k] == ProbeAt(segs, k, p);
    }
    TraceZFound(m, segs, p, k, dp);
  }

  /** `traceZ` once the search has found segment k at offset dp. */
  lemma TraceZFound(m: Maths, segs: seq<Segment>, p: Vec2, k: nat, dp: real)
    requires |segs| >= 1 && SearchChain(segs, p) == Found(k, dp)
    ensures k < |segs|
    ensures TraceZ(m, segs, p) == TraceOut(RoadQuadTrace(m, segs, k, p).hit, RoadQuadTrace(m, segs, k, p).z, Some(segs[k].distance + dp))
  {
  }

  /**
   For every segment but the last, the quad `traceZ` tests is the road quad
   of the mesh: its corners are points 4i+1, 4i+2, 4(i+1)+1 and 4(i+1)+2, and
   its two triangles are the mesh's road triangles in the same order.
   */
  lemma TraceUsesMeshRoad(segs: seq<Segment>, points: seq<Vec3>, i: nat)
    requires i + 1 < |segs|
    requires |points| == PointsPerSegment * |segs|
    requires forall i', j :: 0 <= i' < |segs| && 0 <= j < PointsPerSegment ==>
               points[PointsPerSegment * i' + j] == Corner(segs[i'], j)
    ensures var s := segs[i];
            var far := FarEdgeOf(segs, i);
            && points[QuadIndex(i, 1, 0)] == LeftRail(s.p, s)
            && points[QuadIndex(i, 1, 1)] == RightRail(s.p, s)
            && points[QuadIndex(i, 1, 2)] == far.left
            && points[QuadIndex(i, 1, 3)] == far.right
            && points[QuadIndex(i, 1, 4)] == far.left
            && points[QuadIndex(i, 1, 5)] == RightRail(s.p, s)
  {
    RoadQuad(i);
    assert points[PointsPerSegment * i + 1] == Corner(segs[i], 1);
    assert points[PointsPerSegment * i + 2] == Corner(segs[i], 2);
    assert points[PointsPerSegment * (i + 1) + 1] == Corner(segs[i + 1], 1);
    assert points[PointsPerSegment * (i + 1) + 2] == Corner(segs[i + 1], 2);
  }

  /** The road of segment i is a non-degenerate horizontal quad at height h. */
  ghost predicate FlatRoad(segs: seq<Segment>, i: nat, h: real)
    requires i < |segs|
  {
    var s := segs[i];
    var far := FarEdgeOf(segs, i);
    && Flat(h, LeftRail(s.p, s), RightRail(s.p, s), far.left) && far.right.z == h
    && Cross(Sub3(RightRail(s.p, s), LeftRail(s.p, s)), Sub3(far.left, LeftRail(s.p, s))) != Zero3
    && Cross(Sub3(far.left, far.right), Sub3(RightRail(s.p, s), far.right)) != Zero3
  }

  /** Both triangles of every road quad span a plane. */
  ghost predicate RoadsNondegenerate(segs: seq<Segment>) {
    && (forall i :: 0 <= i < |segs| ==>
          Cross(Sub3(RightRail(segs[i].p, segs[i]), LeftRail(segs[i].p, segs[i])),
                Sub3(FarEdgeOf(segs, i).left, LeftRail(segs[i].p, segs[i]))) != Zero3)
    && (forall i :: 0 <= i < |segs| ==>
          Cross(Sub3(FarEdgeOf(segs, i).left, FarEdgeOf(segs, i).right),
                Sub3(RightRail(segs[i].p, segs[i]), FarEdgeOf(segs, i).right)) != Zero3)
  }

  /**
   On a generated track every rail is at height 50, so wherever the road
   quad is non-degenerate a point `traceZ` finds on the track is at height 50.
   */
  lemma TraceZHeight(m: Maths, segs: seq<Segment>, p: Vec2)
    requires Lawful(m) && |segs| >= 1 && ChainInvariant(segs) && RoadsNondegenerate(segs)
    ensures TraceZ(m, segs, p).onTrack ==> TraceZ(m, segs, p).z == Some(InitialHeight)
  {
    var e := SearchChain(segs, p);
    if e.Found? {
      var i := e.index;
      var s := segs[i];
      var far := FarEdgeOf(segs, i);
      assert SegmentInRange(segs[i]);
      if i + 1 < |segs| {
        assert SegmentInRange(segs[i + 1]);
      }
      FlatQuadHeight(m, p, LeftRail(s.p, s), RightRail(s.p, s), far.left, far.right, InitialHeight);
    }
  }

  /**
   `Track::findNearestSegment` as written: the segment the search finds;
   failing that the first segment if `ui == 0`, the last if
   `li >= size - 1`, and otherwise `assert(false)`.
   */
  function FindNearestSegment(segs: seq<Segment>, p: Vec2): (r: Result<nat>)
    requires |segs| >= 1
    ensures r.Ok? ==> r.value < |segs|
    ensures SearchChain(segs, p).Found? ==> r == Ok(SearchChain(segs, p).index)
  {
    match SearchChain(segs, p)
    case Found(i, _) => Ok(i)
    case Exhausted(li, ui, _) =>
      if ui == 0 then Ok(0)
      else if li >= |segs| - 1 then Ok(|segs| - 1)
      else AssertionFailed
  }

  /**
   Conditions under which the assertion is unreachable: the y-ordering
   around some segment (found), every probe Above (last segment), or every
   probe Below with the search ending on upper bound 0 (first segment).
   */
  lemma FindNearestSucceeds(segs: seq<Segment>, p: Vec2)
    requires |segs| >= 1
    ensures forall k: nat :: OrderedAround(Probes(segs, p), k) ==> FindNearestSegment(segs, p) == Ok(k)
    ensures (forall i :: 0 <= i < |segs| ==> ProbeAt(segs, i, p) == Above) ==>
              FindNearestSegment(segs, p) == Ok(|segs| - 1)
    ensures (forall i :: 0 <= i < |segs| ==> ProbeAt(segs, i, p) == Below) ==>
              (FindNearestSegment(segs, p).Ok? <==> BelowChain(|segs| - 1) == 0)
  {
    forall k: nat | OrderedAround(Probes(segs, p), k)
      ensures FindNearestSegment(segs, p) == Ok(k)
    {
      FindNearestOrdered(segs, p, k);
    }
    if forall i :: 0 <= i < |segs| ==> ProbeAt(segs, i, p) == Above {
      FindNearestAllAbove(segs, p);
    }
    if forall i :: 0 <= i < |segs| ==> ProbeAt(segs, i, p) == Below {
      FindNearestAllBelow(segs, p);
    }
  }

  lemma FindNearestOrdered(segs: seq<Segment>, p: Vec2, k: nat)
    requires |segs| >= 1 && OrderedAround(Probes(segs, p), k)
    ensures FindNearestSegment(segs, p) == Ok(k)
  {
    var probes := Probes(segs, p);
    SearchFinds(probes, k, 0, |segs| - 1);
    assert SearchChain(segs, p) == Found(k, probes[k].dp);
  }

  lemma FindNearestAllAbove(segs: seq<Segment>, p: Vec2)
    requires |segs| >= 1
    requires forall i :: 0 <= i < |segs| ==> ProbeAt(segs, i, p) == Above
    ensures FindNearestSegment(segs, p) == Ok(|segs| - 1)
  {
    var probes := Probes(segs, p);
    SearchAllAbove(probes, 0);
    assert SearchChain(segs, p) == Exhausted(|segs|, |segs| - 1, false);
  }

  lemma FindNearestAllBelow(segs: seq<Segment>, p: Vec2)
    requires |segs| >= 1
    requires forall i :: 0 <= i < |segs| ==> ProbeAt(segs, i, p) == Below
    ensures FindNearestSegment(segs, p).Ok? <==> BelowChain(|segs| - 1) == 0
  {
    var probes := Probes(segs, p);
    SearchAllBelow(probes, |segs| - 1);
    assert SearchChain(segs, p) == Exhausted(0, BelowChain(|segs| - 1), true);
  }

  /** A point behind the first segment's rails probes Below there. */
  lemma BehindFirstSegment(segs: seq<Segment>, p: Vec2)
    requires |segs| >= 1
    requires p.y < LeftRail(segs[0].p, segs[0]).y && p.y < RightRail(segs[0].p, segs[0]).y
    ensures ProbeAt(segs, 0, p) == Below
  {
  }

  /**
   The assertion is reachable: on any chain of two segments, a point behind
   the first segment's start rails is Below at pivot 0, the loop breaks with
   li = 0 and ui = 1, and neither fallback applies.
   */
  lemma FindNearestAssertReachable(segs: seq<Segment>, p: Vec2)
    requires |segs| == 2
    requires p.y < LeftRail(segs[0].p, segs[0]).y && p.y < RightRail(segs[0].p, segs[0]).y
    ensures FindNearestSegment(segs, p) == AssertionFailed
  {
    BehindFirstSegment(segs, p);
    assert Probes(segs, p)[0] == Below;
    assert Search(Probes(segs, p), 0, 1) == Exhausted(0, 1, true);
  }

  /**
   Among the segment counts the generator can produce (34 to 50), a point
   behind every segment also reaches the assertion on chains of 47 to 50
   segments, and only on those.
   */
  lemma BelowChainGeneratedCounts()
    ensures forall ui :: 33 <= ui <= 45 ==> BelowChain(ui) == 0
    ensures forall ui :: 46 <= ui <= 49 ==> BelowChain(ui) == 1
  {
    forall ui | 33 <= ui <= 49
      ensures BelowChain(ui) == if ui <= 45 then 0 else 1
    {
      BelowChainRanges(ui);
    }
  }

  /** The intervals of upper bounds that halve down to 0 and to 1. */
  lemma {:induction false} BelowChainRanges(ui: nat)
    ensures 2 <= ui <= 3 || 6 <= ui <= 9 || 14 <= ui <= 21 || 30 <= ui <= 45 ==> BelowChain(ui) == 0
    ensures ui == 1 || 4 <= ui <= 5 || 10 <= ui <= 13 || 22 <= ui <= 29 || 46 <= ui <= 61 ==> BelowChain(ui) == 1
    decreases ui
  {
    if ui / 2 != 0 {
      BelowChainRanges(ui / 2 - 1);
    }
  }

  /**
   The evidently intended behaviour: leaving through the `pi == 0` guard
   means the point is behind the first segment, so answer the first segment.
   */
  function FindNearestSegmentFixed(segs: seq<Segment>, p: Vec2): (r: Result<nat>)
    requires |segs| >= 1
    ensures r.Ok? ==> r.value < |segs|
    ensures FindNearestSegment(segs, p).Ok? ==> r == FindNearestSegment(segs, p)
    ensures SearchChain(segs, p).Exhausted? && SearchChain(segs, p).broke ==> r == Ok(0)
  {
    match SearchChain(segs, p)
    case Found(i, _) => Ok(i)
    case Exhausted(li, ui, broke) =>
      if broke || ui == 0 then Ok(0)
      else if li >= |segs| - 1 then Ok(|segs| - 1)
      else AssertionFailed
  }

  /** With the fix, a point behind every segment gets the first segment, whatever the chain length. */
  lemma FixedFindsFirstWhenBehind(segs: seq<Segment>, p: Vec2)
    requires |segs| >= 1
    requires forall i :: 0 <= i < |segs| ==> ProbeAt(segs, i, p) == Below
    ensures FindNearestSegmentFixed(segs, p) == Ok(0)
  {
    SearchAllBelow(Probes(segs, p), |segs| - 1);
  }
}
