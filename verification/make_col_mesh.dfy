/**
 The stand-alone collision-line tool: the meshes of a scene are cut with a
 plane, and every face the plane crosses at exactly two points yields one
 edge between the deduplicated cut points, oriented by the face normal.
 Unlike the level exporter's builder it keeps no incidence lists, no
 bounds, and never merges collinear edges.
 */
module SimpleColMeshes {
  import opened Wrappers
  import opened Geometry
  import opened VertexTables
  import opened ColGeometry
  import ColMeshes

  /** `ColMesh2D` of the tool: the vertex table and the edge list. */
  datatype SimpleMesh = SimpleMesh(table: VertexTable, edges: seq<ColMeshes.Edge>)

  const EmptySimpleMesh: SimpleMesh := SimpleMesh(EmptyTable, [])

  /** What the tool keeps true: a consistent table, and edges between two distinct stored vertices. */
  predicate Wf(round3: real -> int, m: SimpleMesh) {
    && Valid(round3, m.table)
    && ColMeshes.EdgesInRange(m.edges, |m.table.verts|)
    && ColMeshes.NoLoops(m.edges)
  }

  datatype Placed = Placed(mesh: SimpleMesh, index: nat)

  /**
   `getIndex`: the index of the vertex stored under v's key, else the old
   vertex count after appending v. No earlier vertex carries the key, so
   the index is that of the first vertex with it.
   */
  function GetIndex(round3: real -> int, m: SimpleMesh, v: Vec3): (r: Placed)
    requires Wf(round3, m)
    ensures Wf(round3, r.mesh) && r.mesh.edges == m.edges
    ensures r.index < |r.mesh.table.verts| && VecKey(round3, r.mesh.table.verts[r.index]) == VecKey(round3, v)
    ensures forall j :: 0 <= j < r.index ==> VecKey(round3, r.mesh.table.verts[j]) != VecKey(round3, v)
    ensures VecKey(round3, v) in m.table.indices ==> r.mesh == m
    ensures VecKey(round3, v) !in m.table.indices ==>
              r.index == |m.table.verts| && r.mesh.table.verts == m.table.verts + [v]
  {
    var ins := Insert(round3, m.table, v);
    InsertUnique(round3, m.table, v);
    Placed(SimpleMesh(ins.table, m.edges), ins.index)
  }

  /**
   `addEdge`: both end points are registered; the edge (i0, i1) is appended
   in the given direction unless both ends share a key, in which case the
   edge list stays as it was.
   */
  function AddEdge(round3: real -> int, m: SimpleMesh, e0: Vec3, e1: Vec3): (r: SimpleMesh)
    requires Wf(round3, m)
    ensures Wf(round3, r)
    ensures |r.table.verts| >= |m.table.verts| && r.table.verts[..|m.table.verts|] == m.table.verts
    ensures VecKey(round3, e0) == VecKey(round3, e1) ==> r.edges == m.edges
    ensures VecKey(round3, e0) != VecKey(round3, e1) ==>
              && |r.edges| == |m.edges| + 1 && r.edges[..|m.edges|] == m.edges
              && VecKey(round3, r.table.verts[r.edges[|m.edges|].a]) == VecKey(round3, e0)
              && VecKey(round3, r.table.verts[r.edges[|m.edges|].b]) == VecKey(round3, e1)
  {
    var g0 := GetIndex(round3, m, e0);
    var g1 := GetIndex(round3, g0.mesh, e1);
    BothPlaced(round3, m, e0, e1);
    if g0.index == g1.index then g1.mesh
    else
      var e := ColMeshes.Edge(g0.index, g1.index);
      Appended(m.edges, e, |g1.mesh.table.verts|);
      SimpleMesh(g1.mesh.table, m.edges + [e])
  }

  /** Registering both end points: the old vertices stay in place, and the two indices agree exactly when the keys do. */
  lemma BothPlaced(round3: real -> int, m: SimpleMesh, e0: Vec3, e1: Vec3)
    requires Wf(round3, m)
    ensures var g0 := GetIndex(round3, m, e0);
            var g1 := GetIndex(round3, g0.mesh, e1);
            && Wf(round3, g1.mesh) && g1.mesh.edges == m.edges
            && |g1.mesh.table.verts| >= |m.table.verts| && g1.mesh.table.verts[..|m.table.verts|] == m.table.verts
            && g0.index < |g1.mesh.table.verts|
            && VecKey(round3, g1.mesh.table.verts[g0.index]) == VecKey(round3, e0)
            && VecKey(round3, g1.mesh.table.verts[g1.index]) == VecKey(round3, e1)
            && (g0.index == g1.index <==> VecKey(round3, e0) == VecKey(round3, e1))
  {
    var g0 := GetIndex(round3, m, e0);
    var g1 := GetIndex(round3, g0.mesh, e1);
    assert g1.mesh.table.verts[g0.index] == g0.mesh.table.verts[g0.index];
    if VecKey(round3, e0) == VecKey(round3, e1) {
      KeyDeterminesVertex(round3, g1.mesh.table, g0.index, g1.index);
    }
  }

  /** Appending an edge between two distinct vertices keeps the edges in range and loop-free. */
  lemma Appended(es: seq<ColMeshes.Edge>, e: ColMeshes.Edge, n: nat)
    requires ColMeshes.EdgesInRange(es, n) && ColMeshes.NoLoops(es)
    requires e.a < n && e.b < n && e.a != e.b
    ensures ColMeshes.EdgesInRange(es + [e], n) && ColMeshes.NoLoops(es + [e])
    ensures (es + [e])[..|es|] == es && (es + [e])[|es|] == e
  {
  }

  /** A second `addEdge` of the same points appends the same edge again: nothing is merged. */
  lemma AddEdgeTwice(round3: real -> int, m: SimpleMesh, e0: Vec3, e1: Vec3)
    requires Wf(round3, m) && VecKey(round3, e0) != VecKey(round3, e1)
    ensures var once := AddEdge(round3, m, e0, e1);
            var twice := AddEdge(round3, once, e0, e1);
            && once.table == twice.table
            && twice.edges == once.edges + [once.edges[|m.edges|]]
  {
    var once := AddEdge(round3, m, e0, e1);
    var g0 := GetIndex(round3, m, e0);
    var g1 := GetIndex(round3, g0.mesh, e1);
    assert VecKey(round3, e0) in once.table.indices && VecKey(round3, e1) in once.table.indices;
    var h0 := GetIndex(round3, once, e0);
    var h1 := GetIndex(round3, h0.mesh, e1);
    assert h0.index == g0.index by {
      KeyDeterminesVertex(round3, once.table, h0.index, g0.index);
    }
    assert h1.index == g1.index by {
      KeyDeterminesVertex(round3, once.table, h1.index, g1.index);
    }
  }

  /** A face of a scene mesh: its corners in winding order and its normal. */
  datatype Face = Face(corners: seq<Vec3>, normal: Vec3)

  /** The edge a face yields, with the plane n·x = d. */
  function FaceEdge(f: Face, n: Vec3, d: real): Option<(Vec3, Vec3)> {
    OrientedCut(f.corners, f.normal, n, d)
  }

  /** Whether a face adds an edge: it is cut at two points whose keys differ. */
  predicate Contributes(round3: real -> int, f: Face, n: Vec3, d: real) {
    var c := FaceEdge(f, n, d);
    c.Some? && VecKey(round3, c.value.0) != VecKey(round3, c.value.1)
  }

  datatype Created = Created(mesh: SimpleMesh, from: seq<nat>)

  /**
   Edge k was added for face `from[k]`: its ends carry the keys of that
   face's cut, in the cut's orientation.
   */
  predicate EdgeFrom(round3: real -> int, faces: seq<Face>, n: Vec3, d: real, m: SimpleMesh, from: seq<nat>, k: nat)
    requires k < |m.edges| && k < |from| && ColMeshes.EdgesInRange(m.edges, |m.table.verts|)
  {
    && from[k] < |faces|
    && var c := FaceEdge(faces[from[k]], n, d);
       && c.Some?
       && VecKey(round3, m.table.verts[m.edges[k].a]) == VecKey(round3, c.value.0)
       && VecKey(round3, m.table.verts[m.edges[k].b]) == VecKey(round3, c.value.1)
  }

  /** What the face loop keeps after the first `i` faces. */
  predicate CreateInv(round3: real -> int, faces: seq<Face>, n: Vec3, d: real, m: SimpleMesh, from: seq<nat>, i: nat) {
    && i <= |faces|
    && Wf(round3, m)
    && |from| == |m.edges|
    && (forall k :: 0 <= k < |from| ==> from[k] < i && EdgeFrom(round3, faces, n, d, m, from, k))
    && (forall k, l :: 0 <= k < l < |from| ==> from[k] < from[l])
    && (forall f :: 0 <= f < i ==> (Contributes(round3, faces[f], n, d) <==> f in from))
  }

  /**
   The face loop of `createFrom` for one cut plane: every face cut at
   exactly two points hands its oriented cut to `addEdge`. The result
   records for each edge the face it came from; the faces that add an
   edge are exactly those whose cut has two distinct keys, each adds one,
   in face order.
   */
  method CreateFrom(round3: real -> int, faces: seq<Face>, n: Vec3, d: real) returns (r: Created)
    ensures Wf(round3, r.mesh)
    ensures |r.from| == |r.mesh.edges| <= |faces|
    ensures forall k :: 0 <= k < |r.from| ==> EdgeFrom(round3, faces, n, d, r.mesh, r.from, k)
    ensures forall k, l :: 0 <= k < l < |r.from| ==> r.from[k] < r.from[l]
    ensures forall f :: 0 <= f < |faces| ==> (Contributes(round3, faces[f], n, d) <==> f in r.from)
  {
    var m := EmptySimpleMesh;
    var from: seq<nat> := [];
    var i := 0;
    while i < |faces|
      invariant CreateInv(round3, faces, n, d, m, from, i)
    {
      m, from := CreateStep(round3, faces, n, d, m, from, i);
      i := i + 1;
    }
    StrictlyIncreasingBound(from, |faces|);
    r := Created(m, from);
  }

  /** One face of the loop. */
  method CreateStep(round3: real -> int, faces: seq<Face>, n: Vec3, d: real, m: SimpleMesh, from: seq<nat>, i: nat)
    returns (m': SimpleMesh, from': seq<nat>)
    requires i < |faces| && CreateInv(round3, faces, n, d, m, from, i)
    ensures CreateInv(round3, faces, n, d, m', from', i + 1)
  {
    match FaceEdge(faces[i], n, d)
    case None =>
      m', from' := m, from;
      KeepEdgeFrom(round3, faces, n, d, m, from, m, from, i);
      NotAdded(round3, faces, n, d, m, from, m, i);
    case Some(c) =>
      m' := AddEdge(round3, m, c.0, c.1);
      if VecKey(round3, c.0) == VecKey(round3, c.1) {
        from' := from;
        KeepEdgeFrom(round3, faces, n, d, m, from, m', from, i);
        NotAdded(round3, faces, n, d, m, from, m', i);
      } else {
        from' := from + [i];
        KeepEdgeFrom(round3, faces, n, d, m, from, m', from', i);
        Added(round3, faces, n, d, m, from, m', i);
      }
  }

  /**
   A step that leaves the edge list as it was, possibly with new vertices,
   keeps each recorded edge's face.
   */
  lemma KeepEdgeFrom(round3: real -> int, faces: seq<Face>, n: Vec3, d: real, m: SimpleMesh, from: seq<nat>,
                     m': SimpleMesh, from': seq<nat>, i: nat)
    requires CreateInv(round3, faces, n, d, m, from, i) && Wf(round3, m')
    requires |from| <= |from'| <= |m'.edges| && from'[..|from|] == from
    requires |m.edges| <= |m'.edges| && m'.edges[..|m.edges|] == m.edges
    requires |m.table.verts| <= |m'.table.verts| && m'.table.verts[..|m.table.verts|] == m.table.verts
    ensures forall k :: 0 <= k < |from| ==> from'[k] < i && EdgeFrom(round3, faces, n, d, m', from', k)
  {
    forall k | 0 <= k < |from|
      ensures from'[k] < i && EdgeFrom(round3, faces, n, d, m', from', k)
    {
      assert from'[k] == from[k];
      assert m'.edges[k] == m.edges[k];
      assert m'.table.verts[m.edges[k].a] == m.table.verts[m.edges[k].a];
      assert m'.table.verts[m.edges[k].b] == m.table.verts[m.edges[k].b];
    }
  }

  /** Face i adds no edge: the invariant moves past it. */
  lemma NotAdded(round3: real -> int, faces: seq<Face>, n: Vec3, d: real, m: SimpleMesh, from: seq<nat>, m': SimpleMesh, i: nat)
    requires i < |faces| && CreateInv(round3, faces, n, d, m, from, i) && Wf(round3, m')
    requires !Contributes(round3, faces[i], n, d)
    requires m'.edges == m.edges
    requires forall k :: 0 <= k < |from| ==> from[k] < i && EdgeFrom(round3, faces, n, d, m', from, k)
    ensures CreateInv(round3, faces, n, d, m', from, i + 1)
  {
    assert i !in from;
  }

  /** Face i adds one edge, recorded as coming from face i. */
  lemma Added(round3: real -> int, faces: seq<Face>, n: Vec3, d: real, m: SimpleMesh, from: seq<nat>, m': SimpleMesh, i: nat)
    requires i < |faces| && CreateInv(round3, faces, n, d, m, from, i)
    requires FaceEdge(faces[i], n, d).Some?
    requires var c := FaceEdge(faces[i], n, d).value;
             VecKey(round3, c.0) != VecKey(round3, c.1) && m' == AddEdge(round3, m, c.0, c.1)
    requires forall k :: 0 <= k < |from| ==> from[k] < i && EdgeFrom(round3, faces, n, d, m', from + [i], k)
    ensures CreateInv(round3, faces, n, d, m', from + [i], i + 1)
  {
    AddedLast(round3, faces, n, d, m, from, m', i);
    AddedOrder(round3, faces, n, d, from, i);
    AddedEdges(round3, faces, n, d, m', from, i);
  }

  lemma AddedEdges(round3: real -> int, faces: seq<Face>, n: Vec3, d: real, m': SimpleMesh, from: seq<nat>, i: nat)
    requires |from + [i]| == |m'.edges| && ColMeshes.EdgesInRange(m'.edges, |m'.table.verts|)
    requires forall k :: 0 <= k < |from| ==> from[k] < i && EdgeFrom(round3, faces, n, d, m', from + [i], k)
    requires EdgeFrom(round3, faces, n, d, m', from + [i], |from|)
    ensures forall k :: 0 <= k < |from + [i]| ==> (from + [i])[k] < i + 1 && EdgeFrom(round3, faces, n, d, m', from + [i], k)
  {
    var from' := from + [i];
    forall k | 0 <= k < |from'|
      ensures from'[k] < i + 1 && EdgeFrom(round3, faces, n, d, m', from', k)
    {
      if k < |from| {
        assert from'[k] == from[k];
      }
    }
  }

  /** The new edge carries the keys of face i's cut. */
  lemma AddedLast(round3: real -> int, faces: seq<Face>, n: Vec3, d: real, m: SimpleMesh, from: seq<nat>, m': SimpleMesh, i: nat)
    requires i < |faces| && Wf(round3, m) && |from| == |m.edges|
    requires FaceEdge(faces[i], n, d).Some?
    requires var c := FaceEdge(faces[i], n, d).value;
             VecKey(round3, c.0) != VecKey(round3, c.1) && m' == AddEdge(round3, m, c.0, c.1)
    ensures |from + [i]| == |m'.edges| && EdgeFrom(round3, faces, n, d, m', from + [i], |from|)
  {
  }

  /** Recording face i after faces below i keeps the list increasing and matches the contributing faces up to i. */
  lemma AddedOrder(round3: real -> int, faces: seq<Face>, n: Vec3, d: real, from: seq<nat>, i: nat)
    requires i < |faces| && Contributes(round3, faces[i], n, d)
    requires forall k :: 0 <= k < |from| ==> from[k] < i
    requires forall k, l :: 0 <= k < l < |from| ==> from[k] < from[l]
    requires forall f :: 0 <= f < i ==> (Contributes(round3, faces[f], n, d) <==> f in from)
    ensures forall k, l :: 0 <= k < l < |from + [i]| ==> (from + [i])[k] < (from + [i])[l]
    ensures forall f :: 0 <= f < i + 1 ==> (Contributes(round3, faces[f], n, d) <==> f in from + [i])
  {
    assert forall f :: 0 <= f < i ==> (f in from <==> f in from + [i]);
  }

  /** A strictly increasing list of indices below `n` has at most `n` entries. */
  lemma {:induction false} StrictlyIncreasingBound(s: seq<nat>, n: nat)
    requires forall k :: 0 <= k < |s| ==> s[k] < n
    requires forall k, l :: 0 <= k < l < |s| ==> s[k] < s[l]
    ensures |s| <= n
    decreases n
  {
    if |s| > 0 {
      var init := s[..|s| - 1];
      assert forall k :: 0 <= k < |init| ==> init[k] < s[|s| - 1] <= n - 1;
      StrictlyIncreasingBound(init, n - 1);
    }
  }
}
