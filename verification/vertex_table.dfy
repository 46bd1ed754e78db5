/**
 Vertex deduplication shared by both collision-mesh builders: a dictionary
 from a vertex's rounded key to its index, and the list of vertices in
 insertion order.
 */
module VertexTables {
  import opened Geometry

  /** A vertex's key: each coordinate rounded to three decimals, as a count of thousandths. */
  type Key = (int, int, int)

  /**
   `veckey3d`. The rounding itself (`round(x, 3)`) is a parameter: the
   model only relies on it being a function of the coordinate.
   */
  function VecKey(round3: real -> int, v: Vec3): Key {
    (round3(v.x), round3(v.y), round3(v.z))
  }

  /** Two vectors share a key exactly when each coordinate rounds alike. */
  lemma VecKeyMatch(round3: real -> int, v: Vec3, w: Vec3)
    ensures VecKey(round3, v) == VecKey(round3, w)
            <==> round3(v.x) == round3(w.x) && round3(v.y) == round3(w.y) && round3(v.z) == round3(w.z)
  {
  }

  datatype VertexTable = VertexTable(indices: map<Key, nat>, verts: seq<Vec3>)

  const EmptyTable: VertexTable := VertexTable(map[], [])

  /** The dictionary and the list agree: every key names the one vertex with that key, and every vertex is registered. */
  predicate Valid(round3: real -> int, t: VertexTable) {
    && (forall k :: k in t.indices ==> t.indices[k] < |t.verts| && VecKey(round3, t.verts[t.indices[k]]) == k)
    && (forall i :: 0 <= i < |t.verts| ==> VecKey(round3, t.verts[i]) in t.indices && t.indices[VecKey(round3, t.verts[i])] == i)
  }

  lemma EmptyTableValid(round3: real -> int)
    ensures Valid(round3, EmptyTable)
  {
  }

  datatype Indexed = Indexed(table: VertexTable, index: nat)

  /**
   The dictionary half of `getIndex`: the index already stored for the
   key, or else the old length, after appending the vertex and registering
   its key.
   */
  function Insert(round3: real -> int, t: VertexTable, v: Vec3): (r: Indexed)
    requires Valid(round3, t)
    ensures Valid(round3, r.table)
    ensures r.index < |r.table.verts| && VecKey(round3, r.table.verts[r.index]) == VecKey(round3, v)
    ensures VecKey(round3, v) in t.indices ==> r.table == t && r.index == t.indices[VecKey(round3, v)]
    ensures VecKey(round3, v) !in t.indices ==> r.index == |t.verts| && r.table.verts == t.verts + [v]
    ensures VecKey(round3, v) in r.table.indices
    ensures t.indices.Keys <= r.table.indices.Keys
  {
    var k := VecKey(round3, v);
    if k in t.indices then Indexed(t, t.indices[k])
    else
      var t' := VertexTable(t.indices[k := |t.verts|], t.verts + [v]);
      assert forall i :: 0 <= i < |t.verts| ==> VecKey(round3, t'.verts[i]) != k;
      Indexed(t', |t.verts|)
  }

  /** The returned index is the only vertex with the key, so in particular the first. */
  lemma InsertUnique(round3: real -> int, t: VertexTable, v: Vec3)
    requires Valid(round3, t)
    ensures var r := Insert(round3, t, v);
            forall j :: 0 <= j < |r.table.verts| ==> (VecKey(round3, r.table.verts[j]) == VecKey(round3, v) <==> j == r.index)
  {
  }

  /** Inserting a vertex again finds it and changes nothing. */
  lemma InsertIdempotent(round3: real -> int, t: VertexTable, v: Vec3)
    requires Valid(round3, t)
    ensures Insert(round3, Insert(round3, t, v).table, v) == Insert(round3, t, v)
  {
  }

  /** In a valid table two stored vertices with the same key are the same vertex. */
  lemma KeyDeterminesVertex(round3: real -> int, t: VertexTable, i: nat, j: nat)
    requires Valid(round3, t)
    requires i < |t.verts| && j < |t.verts|
    requires VecKey(round3, t.verts[i]) == VecKey(round3, t.verts[j])
    ensures i == j
  {
  }
}
