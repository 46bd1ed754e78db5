/**
 The 2D collision mesh of the level exporter: deduplicated vertices, the
 running bounds, the edge list and, per vertex, the list of incident edges.
 Adding an edge merges it with a collinear neighbour at either end; the
 vertex list can be rebuilt from the edges alone.
 */
module ColMeshes {
  import opened Geometry
  import opened VertexTables
  import opened ColGeometry

  datatype Edge = Edge(a: nat, b: nat)

  /** `bounds_min`/`bounds_max`; `NoBounds` is the initial (+inf, -inf) pair. */
  datatype Bounds = NoBounds | Box(lo: Vec2, hi: Vec2)

  datatype Mesh2D = Mesh2D(bounds: Bounds, table: VertexTable, edges: seq<Edge>, vertEdges: seq<seq<Edge>>)

  const EmptyMesh: Mesh2D := Mesh2D(NoBounds, EmptyTable, [], [])

  // ---------------------------------------------------------------------
  // Bounds
  // ---------------------------------------------------------------------

  predicate Contains(b: Bounds, v: Vec3) {
    b.Box? && b.lo.x <= v.x <= b.hi.x && b.lo.y <= v.y <= b.hi.y
  }

  /** `updateBounds`: widen the xy box to take in v. */
  function UpdateBounds(b: Bounds, v: Vec3): (r: Bounds)
    ensures Contains(r, v)
    ensures forall p :: Contains(b, p) ==> Contains(r, p)
    ensures Contains(b, v) ==> r == b
  {
    match b
    case NoBounds => Box(Drop(v), Drop(v))
    case Box(lo, hi) => Box(Vec2(Min(v.x, lo.x), Min(v.y, lo.y)), Vec2(Max(v.x, hi.x), Max(v.y, hi.y)))
  }

  /** Over an empty mesh the box is exactly the first vertex; afterwards every bound is a coordinate seen. */
  lemma UpdateBoundsTight(b: Bounds, v: Vec3)
    ensures b.NoBounds? ==> UpdateBounds(b, v) == Box(Drop(v), Drop(v))
    ensures b.Box? ==> var r := UpdateBounds(b, v);
              (r.lo.x == v.x || r.lo.x == b.lo.x) && (r.hi.x == v.x || r.hi.x == b.hi.x)
              && (r.lo.y == v.y || r.lo.y == b.lo.y) && (r.hi.y == v.y || r.hi.y == b.hi.y)
  {
  }

  // ---------------------------------------------------------------------
  // Incidence
  // ---------------------------------------------------------------------

  /** The edge once for each of its ends at vertex i: a loop at i counts twice. */
  function Ends(e: Edge, i: nat): multiset<Edge> {
    (if e.a == i then multiset{e} else multiset{}) + (if e.b == i then multiset{e} else multiset{})
  }

  /** The edges of `es` at vertex i, with that multiplicity. */
  function Incident(es: seq<Edge>, i: nat): multiset<Edge> {
    if |es| == 0 then multiset{} else Ends(es[0], i) + Incident(es[1..], i)
  }

  lemma {:induction false} IncidentAppend(es: seq<Edge>, e: Edge, i: nat)
    ensures Incident(es + [e], i) == Incident(es, i) + Ends(e, i)
    decreases |es|
  {
    if |es| == 0 {
      assert es + [e] == [e];
      assert [e][1..] == [];
    } else {
      assert (es + [e])[1..] == es[1..] + [e];
      IncidentAppend(es[1..], e, i);
    }
  }

  lemma {:induction false} IncidentMember(es: seq<Edge>, x: Edge, i: nat)
    requires x in Incident(es, i)
    ensures x in es && (x.a == i || x.b == i)
    decreases |es|
  {
    if x !in Ends(es[0], i) {
      IncidentMember(es[1..], x, i);
    }
  }

  lemma {:induction false} IncidentBeyond(es: seq<Edge>, n: nat)
    requires forall j :: 0 <= j < |es| ==> es[j].a < n && es[j].b < n
    ensures Incident(es, n) == multiset{}
    decreases |es|
  {
    if |es| > 0 {
      IncidentBeyond(es[1..], n);
    }
  }

  lemma Cancel<T>(a: multiset<T>, b: multiset<T>, c: multiset<T>)
    requires a + c == b + c
    ensures a == b
  {
    assert forall z :: a[z] == (a + c)[z] - c[z];
    assert forall z :: b[z] == (b + c)[z] - c[z];
  }

  /** The index of the first element equal to x. */
  function FirstIndex<T(==)>(s: seq<T>, x: T): (k: nat)
    requires x in s
    ensures k < |s| && s[k] == x
    ensures forall j :: 0 <= j < k ==> s[j] != x
  {
    if s[0] == x then 0
    else
      assert s == [s[0]] + s[1..];
      1 + FirstIndex(s[1..], x)
  }

  /** Python's `list.remove`: drop the first element equal to x. */
  function RemoveFirst<T(==)>(s: seq<T>, x: T): (r: seq<T>)
    requires x in s
    ensures |r| == |s| - 1
    ensures multiset(r) + multiset{x} == multiset(s)
    ensures r == s[..FirstIndex(s, x)] + s[FirstIndex(s, x) + 1..]
  {
    if s[0] == x then
      assert s == [s[0]] + s[1..];
      s[1..]
    else
      assert s == [s[0]] + s[1..];
      var r := RemoveFirst(s[1..], x);
      RemoveLater(s, x, r);
      [s[0]] + r
  }

  /** Dropping the first x from the tail, behind a head that is not x, drops the first x of the whole list. */
  lemma RemoveLater<T>(s: seq<T>, x: T, r: seq<T>)
    requires x in s && s[0] != x
    requires x in s[1..] && r == s[1..][..FirstIndex(s[1..], x)] + s[1..][FirstIndex(s[1..], x) + 1..]
    ensures [s[0]] + r == s[..FirstIndex(s, x)] + s[FirstIndex(s, x) + 1..]
  {
    var k := FirstIndex(s[1..], x);
    assert FirstIndex(s, x) == k + 1;
    assert s[..k + 1] == [s[0]] + s[1..][..k];
    assert s[k + 2..] == s[1..][k + 1..];
  }

  lemma {:induction false} IncidentRemove(es: seq<Edge>, x: Edge, i: nat)
    requires x in es
    ensures Incident(RemoveFirst(es, x), i) + Ends(x, i) == Incident(es, i)
    decreases |es|
  {
    if es[0] != x {
      IncidentRemove(es[1..], x, i);
      assert ([es[0]] + RemoveFirst(es[1..], x))[1..] == RemoveFirst(es[1..], x);
    }
  }

  // ---------------------------------------------------------------------
  // The mesh invariant
  // ---------------------------------------------------------------------

  predicate EdgesInRange(es: seq<Edge>, n: nat) {
    forall j :: 0 <= j < |es| ==> es[j].a < n && es[j].b < n
  }

  /** Every vertex's incidence list holds exactly the edges at it, a loop twice. */
  predicate IncidenceOk(m: Mesh2D) {
    forall i :: 0 <= i < |m.vertEdges| ==> multiset(m.vertEdges[i]) == Incident(m.edges, i)
  }

  predicate BoundsCover(m: Mesh2D) {
    forall i :: 0 <= i < |m.table.verts| ==> Contains(m.bounds, m.table.verts[i])
  }

  /** What `ColMesh2D` keeps true between calls. */
  predicate Wf(round3: real -> int, m: Mesh2D) {
    && Valid(round3, m.table)
    && |m.vertEdges| == |m.table.verts|
    && EdgesInRange(m.edges, |m.table.verts|)
    && IncidenceOk(m)
    && BoundsCover(m)
  }

  lemma EmptyMeshWf(round3: real -> int)
    ensures Wf(round3, EmptyMesh)
  {
  }

  datatype Registered = Registered(mesh: Mesh2D, index: nat)

  /**
   `getIndex`: widen the bounds, then find or append the vertex; a new
   vertex gets an empty incidence list. The edges are not touched.
   */
  function GetIndex(round3: real -> int, m: Mesh2D, v: Vec3): (r: Registered)
    requires Wf(round3, m)
    ensures Wf(round3, r.mesh)
    ensures r.index < |r.mesh.table.verts| && VecKey(round3, r.mesh.table.verts[r.index]) == VecKey(round3, v)
    ensures VecKey(round3, v) in m.table.indices ==> r.index == m.table.indices[VecKey(round3, v)]
                                                      && r.mesh.table == m.table && r.mesh.vertEdges == m.vertEdges
    ensures VecKey(round3, v) !in m.table.indices ==> r.index == |m.table.verts|
                                                       && r.mesh.table.verts == m.table.verts + [v]
                                                       && r.mesh.vertEdges == m.vertEdges + [[]]
    ensures r.mesh.edges == m.edges
    ensures Contains(r.mesh.bounds, v) && forall p :: Contains(m.bounds, p) ==> Contains(r.mesh.bounds, p)
    ensures VecKey(round3, v) in r.mesh.table.indices
    ensures m.table.indices.Keys <= r.mesh.table.indices.Keys
  {
    var bounds := UpdateBounds(m.bounds, v);
    var ins := Insert(round3, m.table, v);
    var known := VecKey(round3, v) in m.table.indices;
    var vertEdges := if known then m.vertEdges else m.vertEdges + [[]];
    var r := Registered(Mesh2D(bounds, ins.table, m.edges, vertEdges), ins.index);
    assert IncidenceOk(r.mesh) by {
      if !known {
        IncidentBeyond(m.edges, |m.table.verts|);
        assert multiset(vertEdges[|m.table.verts|]) == Incident(m.edges, |m.table.verts|);
      }
    }
    r
  }

  /** The end of an incident edge that is not vertex i (i itself for a loop). */
  function OtherEnd(e: Edge, i: nat): nat {
    if i != e.a then e.a else e.b
  }

  /** The edges listed at vertex i all have i as an end, and their other ends are vertices. */
  lemma ListedAt(round3: real -> int, m: Mesh2D, i: nat, x: Edge)
    requires Wf(round3, m) && i < |m.vertEdges|
    requires x in m.vertEdges[i]
    ensures x in m.edges && (x.a == i || x.b == i)
    ensures OtherEnd(x, i) < |m.table.verts|
  {
    assert x in multiset(m.vertEdges[i]);
    IncidentMember(m.edges, x, i);
  }

  /**
   The collinearity scan: the position in `list` of the first incident
   edge whose other end is collinear with p and q, or |list| if none.
   */
  function FirstCollinear(list: seq<Edge>, i: nat, p: Vec3, q: Vec3, verts: seq<Vec3>, from: nat): (k: nat)
    requires from <= |list|
    requires forall j :: 0 <= j < |list| ==> OtherEnd(list[j], i) < |verts|
    ensures from <= k <= |list|
    ensures k < |list| ==> Collinear(p, q, verts[OtherEnd(list[k], i)])
    ensures forall j :: from <= j < k ==> !Collinear(p, q, verts[OtherEnd(list[j], i)])
    decreases |list| - from
  {
    if from == |list| then from
    else if Collinear(p, q, verts[OtherEnd(list[from], i)]) then from
    else FirstCollinear(list, i, p, q, verts, from + 1)
  }

  /** The incidence lists after appending e to the lists of both its ends (a loop's list gets it twice). */
  function ListsAppend(ves: seq<seq<Edge>>, e: Edge): (r: seq<seq<Edge>>)
    requires e.a < |ves| && e.b < |ves|
    ensures |r| == |ves|
    ensures forall v :: 0 <= v < |ves| ==> multiset(r[v]) == multiset(ves[v]) + Ends(e, v)
  {
    var ve1 := ves[e.a := ves[e.a] + [e]];
    ve1[e.b := ve1[e.b] + [e]]
  }

  /**
   The incidence lists after removing x from the list of end i and then
   from the list of its other end (for a loop, twice from the same list).
   Both removals find x when each list holds x once per end at it.
   */
  function ListsRemove(ves: seq<seq<Edge>>, x: Edge, i: nat): (r: seq<seq<Edge>>)
    requires x.a < |ves| && x.b < |ves| && (x.a == i || x.b == i)
    requires forall v :: 0 <= v < |ves| ==> Ends(x, v) <= multiset(ves[v])
    ensures |r| == |ves|
    ensures forall v :: 0 <= v < |ves| ==> multiset(r[v]) + Ends(x, v) == multiset(ves[v])
  {
    var i2 := OtherEnd(x, i);
    FirstRemovalFinds(ves, x, i);
    var ve1 := ves[i := RemoveFirst(ves[i], x)];
    SecondRemovalFinds(ves, x, i, ve1);
    var r := ve1[i2 := RemoveFirst(ve1[i2], x)];
    RemovalCounts(ves, x, i, ve1, r);
    r
  }

  lemma FirstRemovalFinds(ves: seq<seq<Edge>>, x: Edge, i: nat)
    requires i < |ves| && (x.a == i || x.b == i) && Ends(x, i) <= multiset(ves[i])
    ensures x in ves[i]
  {
    assert x in Ends(x, i);
    assert x in multiset(ves[i]);
  }

  lemma SecondRemovalFinds(ves: seq<seq<Edge>>, x: Edge, i: nat, ve1: seq<seq<Edge>>)
    requires x.a < |ves| && x.b < |ves| && (x.a == i || x.b == i)
    requires Ends(x, i) <= multiset(ves[i]) && Ends(x, OtherEnd(x, i)) <= multiset(ves[OtherEnd(x, i)])
    requires x in ves[i] && ve1 == ves[i := RemoveFirst(ves[i], x)]
    ensures x in ve1[OtherEnd(x, i)]
  {
    var i2 := OtherEnd(x, i);
    assert x in Ends(x, i2);
    if i2 == i {
      assert Ends(x, i)[x] == 2;
      assert multiset(ve1[i]) + multiset{x} == multiset(ves[i]);
      assert multiset(ve1[i])[x] >= 1;
    } else {
      assert ve1[i2] == ves[i2];
      assert x in multiset(ves[i2]);
    }
  }

  lemma RemovalCounts(ves: seq<seq<Edge>>, x: Edge, i: nat, ve1: seq<seq<Edge>>, r: seq<seq<Edge>>)
    requires x.a < |ves| && x.b < |ves| && (x.a == i || x.b == i)
    requires x in ves[i] && ve1 == ves[i := RemoveFirst(ves[i], x)]
    requires x in ve1[OtherEnd(x, i)] && r == ve1[OtherEnd(x, i) := RemoveFirst(ve1[OtherEnd(x, i)], x)]
    ensures |r| == |ves|
    ensures forall v :: 0 <= v < |ves| ==> multiset(r[v]) + Ends(x, v) == multiset(ves[v])
  {
    var i2 := OtherEnd(x, i);
    forall v | 0 <= v < |ves|
      ensures multiset(r[v]) + Ends(x, v) == multiset(ves[v])
    {
      if v != i && v != i2 {
        assert r[v] == ves[v];
      } else if v == i && v != i2 {
        assert r[v] == ve1[i];
        assert Ends(x, v) == multiset{x};
      } else if v == i2 && v != i {
        assert ve1[i2] == ves[i2];
        assert Ends(x, v) == multiset{x};
      } else {
        assert Ends(x, v) == multiset{x} + multiset{x};
      }
    }
  }

  /**
   Removing an edge listed at vertex i: from the edge list, from i's list
   and from its other end's list. Every removal finds its element, so none
   of the `list.remove` calls raises.
   */
  function Unlink(round3: real -> int, m: Mesh2D, i: nat, x: Edge): (r: Mesh2D)
    requires Wf(round3, m) && i < |m.vertEdges|
    requires x in m.vertEdges[i]
    ensures Wf(round3, r)
    ensures r.table == m.table && r.bounds == m.bounds
    ensures multiset(r.edges) + multiset{x} == multiset(m.edges)
  {
    ListedAt(round3, m, i, x);
    var es := RemoveFirst(m.edges, x);
    assert forall v :: 0 <= v < |m.vertEdges| ==> Ends(x, v) <= multiset(m.vertEdges[v]) by {
      forall v | 0 <= v < |m.vertEdges|
        ensures Ends(x, v) <= multiset(m.vertEdges[v])
      {
        IncidentRemove(m.edges, x, v);
      }
    }
    var ves := ListsRemove(m.vertEdges, x, i);
    var r := m.(edges := es, vertEdges := ves);
    assert EdgesInRange(es, |m.table.verts|) by {
      forall j | 0 <= j < |es|
        ensures es[j].a < |m.table.verts| && es[j].b < |m.table.verts|
      {
        assert es[j] in multiset(es);
        assert es[j] in multiset(m.edges);
      }
    }
    assert IncidenceOk(r) by {
      forall v | 0 <= v < |ves|
        ensures multiset(ves[v]) == Incident(es, v)
      {
        IncidentRemove(m.edges, x, v);
        Cancel(multiset(ves[v]), Incident(es, v), Ends(x, v));
      }
    }
    r
  }

  /** Appending an edge to the edge list and to the lists of both its ends. */
  function Link(round3: real -> int, m: Mesh2D, e: Edge): (r: Mesh2D)
    requires Wf(round3, m)
    requires e.a < |m.table.verts| && e.b < |m.table.verts|
    ensures Wf(round3, r)
    ensures r.table == m.table && r.bounds == m.bounds
    ensures r.edges == m.edges + [e]
    ensures |r.vertEdges| == |m.vertEdges|
    ensures forall v :: 0 <= v < |m.vertEdges| ==> multiset(r.vertEdges[v]) == multiset(m.vertEdges[v]) + Ends(e, v)
  {
    var ves := ListsAppend(m.vertEdges, e);
    var r := m.(edges := m.edges + [e], vertEdges := ves);
    assert IncidenceOk(r) by {
      forall v | 0 <= v < |ves|
        ensures multiset(ves[v]) == Incident(r.edges, v)
      {
        IncidentAppend(m.edges, e, v);
      }
    }
    r
  }

  /** No edge listed at i has its other end collinear with p and q. */
  predicate NoCollinearAt(m: Mesh2D, i: nat, p: Vec3, q: Vec3)
    requires i < |m.vertEdges|
  {
    forall j :: 0 <= j < |m.vertEdges[i]| ==>
      var o := OtherEnd(m.vertEdges[i][j], i);
      o < |m.table.verts| && !Collinear(p, q, m.table.verts[o])
  }

  datatype Merged = Merged(mesh: Mesh2D, index: nat, pos: Vec3)

  /**
   One collinearity check of `addEdge` at end i: the first listed edge
   whose other end is collinear with (p, q) is removed, and that other end
   and its position replace i and the end's position.
   */
  function MergeAt(round3: real -> int, m: Mesh2D, i: nat, p: Vec3, q: Vec3): (r: Merged)
    requires Wf(round3, m) && i < |m.vertEdges|
    ensures Wf(round3, r.mesh)
    ensures r.mesh.table == m.table && r.mesh.bounds == m.bounds
    ensures r.index < |m.table.verts|
    ensures r.mesh == m ==> r.index == i && r.pos == p
    ensures r.mesh != m ==> r.pos == m.table.verts[r.index] && |r.mesh.edges| + 1 == |m.edges|
    ensures multiset(r.mesh.edges) <= multiset(m.edges)
    ensures NoCollinearAt(m, i, p, q) <==> r == Merged(m, i, p)
    ensures r.mesh != m ==> exists j :: 0 <= j < |m.vertEdges[i]| && r.index == OtherEnd(m.vertEdges[i][j], i)
  {
    var list := m.vertEdges[i];
    assert forall j :: 0 <= j < |list| ==> OtherEnd(list[j], i) < |m.table.verts| by {
      forall j | 0 <= j < |list|
        ensures OtherEnd(list[j], i) < |m.table.verts|
      {
        ListedAt(round3, m, i, list[j]);
      }
    }
    var k := FirstCollinear(list, i, p, q, m.table.verts, 0);
    if k == |list| then Merged(m, i, p)
    else
      var x := list[k];
      var i2 := OtherEnd(x, i);
      var m' := Unlink(round3, m, i, x);
      assert |multiset(m'.edges)| + 1 == |multiset(m.edges)|;
      assert m' != m;
      Merged(m', i2, m.table.verts[i2])
  }

  /**
   `addEdge` as written: register both ends; drop the edge if they are one
   vertex; otherwise merge at the first end, then at the second (with the
   first end's possibly moved position), and append the resulting pair.
   */
  function AddEdge(round3: real -> int, m: Mesh2D, e0: Vec3, e1: Vec3): (r: Mesh2D)
    requires Wf(round3, m)
    ensures Wf(round3, r)
    ensures VecKey(round3, e0) in r.table.indices && VecKey(round3, e1) in r.table.indices
    ensures Contains(r.bounds, e0) && Contains(r.bounds, e1)
    ensures VecKey(round3, e0) == VecKey(round3, e1) ==> r.edges == m.edges
    ensures VecKey(round3, e0) != VecKey(round3, e1) ==> |r.edges| >= 1 && |m.edges| - 1 <= |r.edges| <= |m.edges| + 1
  {
    var g0 := GetIndex(round3, m, e0);
    var g1 := GetIndex(round3, g0.mesh, e1);
    var m1 := g1.mesh;
    if g0.index == g1.index then m1
    else
      var s0 := MergeAt(round3, m1, g0.index, e0, e1);
      var s1 := MergeAt(round3, s0.mesh, g1.index, s0.pos, e1);
      Link(round3, s1.mesh, Edge(s0.index, s1.index))
  }

  /** With no collinear neighbour at either end the new edge is appended between the two registered vertices. */
  lemma AddEdgeNoMerge(round3: real -> int, m: Mesh2D, e0: Vec3, e1: Vec3)
    requires Wf(round3, m)
    requires VecKey(round3, e0) != VecKey(round3, e1)
    requires var m1 := GetIndex(round3, GetIndex(round3, m, e0).mesh, e1).mesh;
             forall i :: 0 <= i < |m1.vertEdges| ==> NoCollinearAt(m1, i, e0, e1)
    ensures var r := AddEdge(round3, m, e0, e1);
            r.edges == m.edges + [Edge(r.table.indices[VecKey(round3, e0)], r.table.indices[VecKey(round3, e1)])]
  {
    var g0 := GetIndex(round3, m, e0);
    var g1 := GetIndex(round3, g0.mesh, e1);
    assert g1.mesh.table.verts[g0.index] == g0.mesh.table.verts[g0.index];
    assert g0.index != g1.index;
  }

  /** No edge of the list is a loop. */
  predicate NoLoops(es: seq<Edge>) {
    forall j :: 0 <= j < |es| ==> es[j].a != es[j].b
  }

  /**
   Adding the reverse of an edge already present removes that edge through
   the collinear merge and appends a loop at a single vertex, although the
   `i0 == i1` check is there to keep such edges out.
   */
  lemma AddEdgeReverseMakesLoop(round3: real -> int, p: Vec3, q: Vec3)
    requires VecKey(round3, p) != VecKey(round3, q)
    ensures AddEdge(round3, AddEdge(round3, EmptyMesh, p, q), q, p).edges == [Edge(0, 0)]
    ensures !NoLoops(AddEdge(round3, AddEdge(round3, EmptyMesh, p, q), q, p).edges)
  {
    var m1 := AddEdge(round3, EmptyMesh, p, q);
    ReverseMerge(round3, p, q);
    var g0 := GetIndex(round3, m1, q);
    var g1 := GetIndex(round3, g0.mesh, p);
    var s0 := MergeAt(round3, g1.mesh, 1, q, p);
    var s1 := MergeAt(round3, s0.mesh, 0, p, p);
    assert s1 == Merged(s0.mesh, 0, p);
  }

  /** The first merge of adding (q, p) after (p, q): the edge (0, 1) is removed and the end moves to vertex 0. */
  lemma ReverseMerge(round3: real -> int, p: Vec3, q: Vec3)
    requires VecKey(round3, p) != VecKey(round3, q)
    ensures var m1 := AddEdge(round3, EmptyMesh, p, q);
            var g0 := GetIndex(round3, m1, q);
            var g1 := GetIndex(round3, g0.mesh, p);
            var s0 := MergeAt(round3, g1.mesh, 1, q, p);
            && g0.index == 1 && g1.index == 0
            && s0.index == 0 && s0.pos == p && s0.mesh.edges == [] && s0.mesh.vertEdges[0] == []
  {
    var m1 := AddEdge(round3, EmptyMesh, p, q);
    FirstEdge(round3, p, q);
    var g0 := GetIndex(round3, m1, q);
    var g1 := GetIndex(round3, g0.mesh, p);
    MergeBackEdge(round3, g1.mesh, p, q);
  }

  lemma MergeBackEdge(round3: real -> int, n: Mesh2D, p: Vec3, q: Vec3)
    requires Wf(round3, n)
    requires n.edges == [Edge(0, 1)] && n.vertEdges == [[Edge(0, 1)], [Edge(0, 1)]] && n.table.verts == [p, q]
    ensures var s0 := MergeAt(round3, n, 1, q, p);
            s0.index == 0 && s0.pos == p && s0.mesh.edges == [] && s0.mesh.vertEdges[0] == []
  {
    assert Cross(Sub3(p, q), Sub3(p, q)) == Zero3;
    assert !NoCollinearAt(n, 1, q, p) by {
      assert OtherEnd(n.vertEdges[1][0], 1) == 0;
    }
    var s0 := MergeAt(round3, n, 1, q, p);
    assert |s0.mesh.edges| == 0;
    assert s0.mesh.vertEdges[0] == [] by {
      assert |multiset(s0.mesh.vertEdges[0])| == 0;
    }
  }

  /** Adding one edge between two distinct keys to the empty mesh gives vertices 0 and 1 and the edge between them. */
  lemma FirstEdge(round3: real -> int, p: Vec3, q: Vec3)
    requires VecKey(round3, p) != VecKey(round3, q)
    ensures var m1 := AddEdge(round3, EmptyMesh, p, q);
            && m1.edges == [Edge(0, 1)]
            && m1.vertEdges == [[Edge(0, 1)], [Edge(0, 1)]]
            && m1.table.verts == [p, q]
            && m1.table.indices[VecKey(round3, p)] == 0 && m1.table.indices[VecKey(round3, q)] == 1
  {
    EmptyMeshWf(round3);
    var g0 := GetIndex(round3, EmptyMesh, p);
    var g1 := GetIndex(round3, g0.mesh, q);
    assert g0.index == 0 && g0.mesh.table.verts == [p];
    assert VecKey(round3, q) !in g0.mesh.table.indices;
    assert g1.index == 1 && g1.mesh.table.verts == [p, q];
    assert g1.mesh.vertEdges == [[], []];
    var s0 := MergeAt(round3, g1.mesh, 0, p, q);
    assert s0 == Merged(g1.mesh, 0, p);
    var s1 := MergeAt(round3, g1.mesh, 1, p, q);
    assert s1 == Merged(g1.mesh, 1, p);
    var r := Link(round3, g1.mesh, Edge(0, 1));
    assert r.edges == [Edge(0, 1)];
    assert r.vertEdges == [[Edge(0, 1)], [Edge(0, 1)]] by {
      assert |r.vertEdges| == 2;
      assert multiset(r.vertEdges[0]) == multiset{Edge(0, 1)};
      assert multiset(r.vertEdges[1]) == multiset{Edge(0, 1)};
      SingletonList(r.vertEdges[0], Edge(0, 1));
      SingletonList(r.vertEdges[1], Edge(0, 1));
    }
  }

  lemma SingletonList<T>(s: seq<T>, x: T)
    requires multiset(s) == multiset{x}
    ensures s == [x]
  {
    assert |s| == 1;
    assert s[0] in multiset(s);
  }

  /** `addEdge` with the `i0 == i1` test repeated after merging: a pair that merged into one vertex is dropped. */
  function AddEdgeFixed(round3: real -> int, m: Mesh2D, e0: Vec3, e1: Vec3): (r: Mesh2D)
    requires Wf(round3, m)
    ensures Wf(round3, r)
    ensures VecKey(round3, e0) in r.table.indices && VecKey(round3, e1) in r.table.indices
    ensures VecKey(round3, e0) == VecKey(round3, e1) ==> r.edges == m.edges
    ensures NoLoops(m.edges) ==> NoLoops(r.edges)
  {
    var g0 := GetIndex(round3, m, e0);
    var g1 := GetIndex(round3, g0.mesh, e1);
    var m1 := g1.mesh;
    if g0.index == g1.index then m1
    else
      var s0 := MergeAt(round3, m1, g0.index, e0, e1);
      var s1 := MergeAt(round3, s0.mesh, g1.index, s0.pos, e1);
      assert NoLoops(m.edges) ==> NoLoops(s1.mesh.edges) by {
        if NoLoops(m.edges) {
          NoLoopsSub(m.edges, s1.mesh.edges);
        }
      }
      if s0.index == s1.index then s1.mesh
      else
        var e := Edge(s0.index, s1.index);
        assert NoLoops(m.edges) ==> NoLoops(s1.mesh.edges + [e]);
        Link(round3, s1.mesh, e)
  }

  /** Removing edges keeps a loop-free list loop-free. */
  lemma NoLoopsSub(es: seq<Edge>, sub: seq<Edge>)
    requires NoLoops(es) && multiset(sub) <= multiset(es)
    ensures NoLoops(sub)
  {
    forall j | 0 <= j < |sub|
      ensures sub[j].a != sub[j].b
    {
      assert sub[j] in multiset(sub);
      assert sub[j] in es;
    }
  }

  /**
   `rebuildVertexList`: start from empty vertex, edge and incidence lists
   (the bounds are kept) and re-add every edge's two end positions in order.
   The edges keep their number and their end positions, every vertex left
   is an end of some edge, and the bounds are unchanged.
   */
  method RebuildVertexList(round3: real -> int, m: Mesh2D) returns (r: Mesh2D)
    requires Wf(round3, m)
    ensures Wf(round3, r)
    ensures |r.edges| == |m.edges|
    ensures forall j :: 0 <= j < |r.edges| ==>
              r.table.verts[r.edges[j].a] == m.table.verts[m.edges[j].a]
              && r.table.verts[r.edges[j].b] == m.table.verts[m.edges[j].b]
    ensures forall i :: 0 <= i < |r.vertEdges| ==> |r.vertEdges[i]| > 0
    ensures r.bounds == m.bounds
  {
    r := Mesh2D(m.bounds, EmptyTable, [], []);
    var k := 0;
    while k < |m.edges|
      invariant 0 <= k <= |m.edges|
      invariant RebuildInv(round3, m, r, k)
    {
      r := RebuildStep(round3, m, r, k);
      k := k + 1;
    }
  }

  /** Every vertex of r is one of m's vertices. */
  predicate VertsFrom(r: Mesh2D, m: Mesh2D) {
    forall i :: 0 <= i < |r.table.verts| ==> r.table.verts[i] in m.table.verts
  }

  /** The first k edges of r join the same positions as the first k edges of m. */
  predicate EdgesMatch(m: Mesh2D, r: Mesh2D, k: nat) {
    forall j :: 0 <= j < k ==>
      && j < |r.edges| && j < |m.edges|
      && r.edges[j].a < |r.table.verts| && r.edges[j].b < |r.table.verts|
      && m.edges[j].a < |m.table.verts| && m.edges[j].b < |m.table.verts|
      && r.table.verts[r.edges[j].a] == m.table.verts[m.edges[j].a]
      && r.table.verts[r.edges[j].b] == m.table.verts[m.edges[j].b]
  }

  /** Every vertex of r has an incident edge. */
  predicate AllUsed(r: Mesh2D) {
    forall i :: 0 <= i < |r.vertEdges| ==> |r.vertEdges[i]| > 0
  }

  /** The state of the rebuild after its first k edges. */
  predicate RebuildInv(round3: real -> int, m: Mesh2D, r: Mesh2D, k: nat) {
    && Wf(round3, m) && Wf(round3, r)
    && r.bounds == m.bounds && |r.edges| == k
    && VertsFrom(r, m) && EdgesMatch(m, r, k) && AllUsed(r)
  }

  /** One iteration of the rebuild: re-add edge k's two end positions and link the edge between them. */
  function RebuildStep(round3: real -> int, m: Mesh2D, r: Mesh2D, k: nat): (r': Mesh2D)
    requires k < |m.edges| && RebuildInv(round3, m, r, k)
    ensures RebuildInv(round3, m, r', k + 1)
  {
    var e := m.edges[k];
    var g0 := ReAdd(round3, m, r, e.a);
    var g1 := ReAdd(round3, m, g0.mesh, e.b);
    var r' := Link(round3, g1.mesh, Edge(g0.index, g1.index));
    StepMatch(round3, m, r, k, g0, g1, r');
    StepUsed(round3, r, g0, g1, r');
    r'
  }

  lemma StepMatch(round3: real -> int, m: Mesh2D, r: Mesh2D, k: nat, g0: Registered, g1: Registered, r': Mesh2D)
    requires k < |m.edges| && EdgesMatch(m, r, k) && |r.edges| == k
    requires m.edges[k].a < |m.table.verts| && m.edges[k].b < |m.table.verts|
    requires g0.index < |g0.mesh.table.verts| && g0.mesh.table.verts[g0.index] == m.table.verts[m.edges[k].a]
    requires g1.index < |g1.mesh.table.verts| && g1.mesh.table.verts[g1.index] == m.table.verts[m.edges[k].b]
    requires |r.table.verts| <= |g0.mesh.table.verts| && forall j :: 0 <= j < |r.table.verts| ==> g0.mesh.table.verts[j] == r.table.verts[j]
    requires |g0.mesh.table.verts| <= |g1.mesh.table.verts| && forall j :: 0 <= j < |g0.mesh.table.verts| ==> g1.mesh.table.verts[j] == g0.mesh.table.verts[j]
    requires r'.table == g1.mesh.table && r'.edges == r.edges + [Edge(g0.index, g1.index)]
    ensures EdgesMatch(m, r', k + 1)
  {
  }

  lemma StepUsed(round3: real -> int, r: Mesh2D, g0: Registered, g1: Registered, r': Mesh2D)
    requires AllUsed(r)
    requires |r.vertEdges| <= |g0.mesh.vertEdges| && forall j :: 0 <= j < |r.vertEdges| ==> g0.mesh.vertEdges[j] == r.vertEdges[j]
    requires |g0.mesh.vertEdges| <= |r.vertEdges| + 1 && (|g0.mesh.vertEdges| > |r.vertEdges| ==> g0.index == |r.vertEdges|)
    requires |g0.mesh.vertEdges| <= |g1.mesh.vertEdges| && forall j :: 0 <= j < |g0.mesh.vertEdges| ==> g1.mesh.vertEdges[j] == g0.mesh.vertEdges[j]
    requires |g1.mesh.vertEdges| <= |g0.mesh.vertEdges| + 1 && (|g1.mesh.vertEdges| > |g0.mesh.vertEdges| ==> g1.index == |g0.mesh.vertEdges|)
    requires |r'.vertEdges| == |g1.mesh.vertEdges|
    requires forall v :: 0 <= v < |g1.mesh.vertEdges| ==>
               multiset(r'.vertEdges[v]) == multiset(g1.mesh.vertEdges[v]) + Ends(Edge(g0.index, g1.index), v)
    ensures AllUsed(r')
  {
    var ne := Edge(g0.index, g1.index);
    forall i | 0 <= i < |r'.vertEdges|
      ensures |r'.vertEdges[i]| > 0
    {
      if i < |r.vertEdges| {
        assert r.vertEdges[i][0] in multiset(g1.mesh.vertEdges[i]);
      } else {
        assert i == g0.index || i == g1.index;
        assert ne in Ends(ne, i);
      }
      assert multiset(r'.vertEdges[i]) != multiset{};
    }
  }

  /**
   Re-registering one of the old mesh's vertices during the rebuild: the
   vertex found or added is that very position, the bounds do not move,
   and the vertices already present keep their positions and incidence
   lists.
   */
  function ReAdd(round3: real -> int, m: Mesh2D, r: Mesh2D, i: nat): (g: Registered)
    requires Wf(round3, m) && i < |m.table.verts|
    requires Wf(round3, r) && r.bounds == m.bounds
    requires VertsFrom(r, m)
    ensures Wf(round3, g.mesh) && g.mesh.bounds == m.bounds && g.mesh.edges == r.edges
    ensures g.index < |g.mesh.table.verts| && g.mesh.table.verts[g.index] == m.table.verts[i]
    ensures VertsFrom(g.mesh, m)
    ensures |r.table.verts| <= |g.mesh.table.verts| && forall j :: 0 <= j < |r.table.verts| ==> g.mesh.table.verts[j] == r.table.verts[j]
    ensures |r.vertEdges| <= |g.mesh.vertEdges| && forall j :: 0 <= j < |r.vertEdges| ==> g.mesh.vertEdges[j] == r.vertEdges[j]
    ensures |g.mesh.vertEdges| <= |r.vertEdges| + 1 && (|g.mesh.vertEdges| > |r.vertEdges| ==> g.index == |r.vertEdges|)
  {
    var v := m.table.verts[i];
    var g := GetIndex(round3, r, v);
    SameKeySameVertex(round3, m.table, g.mesh.table.verts[g.index], i);
    g
  }

  lemma SameKeySameVertex(round3: real -> int, t: VertexTable, w: Vec3, i: nat)
    requires Valid(round3, t) && i < |t.verts|
    requires w in t.verts && VecKey(round3, w) == VecKey(round3, t.verts[i])
    ensures w == t.verts[i]
  {
    var iw :| 0 <= iw < |t.verts| && t.verts[iw] == w;
    KeyDeterminesVertex(round3, t, iw, i);
  }
}
