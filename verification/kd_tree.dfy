/**
 The 3D collision mesh of the level exporter: triangles with their plane
 and bounding box, and an axis-aligned kd-tree over them, stored as a
 list of nodes in pre-order. A leaf's offset is the index of its first
 triangle in the concatenation of all leaves; an inner node's offset is
 minus the number of nodes below it.
 */
module KdTrees {
  import opened Wrappers
  import opened Geometry

  // ---------------------------------------------------------------------
  // Boxes
  // ---------------------------------------------------------------------

  /** Component `axis` of a vector (0 = x, 1 = y, 2 = z). */
  function Comp(v: Vec3, axis: nat): real
    requires axis < 3
  {
    if axis == 0 then v.x else if axis == 1 then v.y else v.z
  }

  predicate Le3(a: Vec3, b: Vec3) {
    a.x <= b.x && a.y <= b.y && a.z <= b.z
  }

  /** A box as a pair of corners. */
  type Box = (Vec3, Vec3)

  /** One step of the box loops: lower a component on `<`, raise it on `>`. */
  function Widen(b: Box, c: Box): Box {
    (Vec3(FMin(b.0.x, c.0.x), FMin(b.0.y, c.0.y), FMin(b.0.z, c.0.z)),
     Vec3(FMax(b.1.x, c.1.x), FMax(b.1.y, c.1.y), FMax(b.1.z, c.1.z)))
  }

  /**
   The box loop shared by `COLTriangle` and `COLNode`: start from the first
   box and widen by each later one. The result holds every box, and each of
   its six faces is a face of one of them.
   */
  function MergeBoxes(bs: seq<Box>): (r: Box)
    requires |bs| > 0
    ensures forall i :: 0 <= i < |bs| ==> Le3(r.0, bs[i].0) && Le3(bs[i].1, r.1)
    ensures forall k :: 0 <= k < 3 ==> exists i :: 0 <= i < |bs| && Comp(bs[i].0, k) == Comp(r.0, k)
    ensures forall k :: 0 <= k < 3 ==> exists i :: 0 <= i < |bs| && Comp(bs[i].1, k) == Comp(r.1, k)
  {
    if |bs| == 1 then bs[0]
    else
      var init := bs[..|bs| - 1];
      var b := MergeBoxes(init);
      var c := bs[|bs| - 1];
      var r := Widen(b, c);
      assert forall i :: 0 <= i < |init| ==> init[i] == bs[i];
      assert forall k :: 0 <= k < 3 ==> exists i :: 0 <= i < |bs| && Comp(bs[i].0, k) == Comp(r.0, k) by {
        forall k | 0 <= k < 3 ensures exists i :: 0 <= i < |bs| && Comp(bs[i].0, k) == Comp(r.0, k) {
          if Comp(r.0, k) == Comp(c.0, k) {
            assert Comp(bs[|bs| - 1].0, k) == Comp(r.0, k);
          } else {
            assert Comp(r.0, k) == Comp(b.0, k);
            var i :| 0 <= i < |init| && Comp(init[i].0, k) == Comp(b.0, k);
            assert Comp(bs[i].0, k) == Comp(r.0, k);
          }
        }
      }
      assert forall k :: 0 <= k < 3 ==> exists i :: 0 <= i < |bs| && Comp(bs[i].1, k) == Comp(r.1, k) by {
        forall k | 0 <= k < 3 ensures exists i :: 0 <= i < |bs| && Comp(bs[i].1, k) == Comp(r.1, k) {
          if Comp(r.1, k) == Comp(c.1, k) {
            assert Comp(bs[|bs| - 1].1, k) == Comp(r.1, k);
          } else {
            assert Comp(r.1, k) == Comp(b.1, k);
            var i :| 0 <= i < |init| && Comp(init[i].1, k) == Comp(b.1, k);
            assert Comp(bs[i].1, k) == Comp(r.1, k);
          }
        }
      }
      r
  }

  // ---------------------------------------------------------------------
  // Triangles and nodes
  // ---------------------------------------------------------------------

  datatype ColTriangle = ColTriangle(positions: seq<Vec3>, normal: Vec3, normalD: real, bmin: Vec3, bmax: Vec3)

  datatype ColNode = ColNode(triangles: seq<ColTriangle>, offset: int, bmin: Vec3, bmax: Vec3)

  /** `struct.calcsize("9f3f1f")`: three corners, the normal and the plane distance. */
  const TriangleRecordSize: nat := 52

  /** `struct.calcsize("3f3fiI")`: the box, the offset and the triangle count. */
  const NodeRecordSize: nat := 32

  /** `struct.calcsize("4s4I")`: magic, version, file size, node count, triangle count. */
  const ColHeaderSize: nat := 20

  /**
   `COLTriangle.__init__`: the unit normal of the first two sides, the
   plane distance along it, and the box of all positions.
   */
  function MakeTriangle(maths: Maths, positions: seq<Vec3>): (t: ColTriangle)
    requires |positions| >= 3
    ensures t.positions == positions
    ensures Le3(t.bmin, t.bmax)
    ensures forall i :: 0 <= i < |positions| ==> Le3(t.bmin, positions[i]) && Le3(positions[i], t.bmax)
  {
    var n := maths.normalize3(Cross(Sub3(positions[1], positions[0]), Sub3(positions[2], positions[0])));
    var bs := seq(|positions|, i requires 0 <= i < |positions| => (positions[i], positions[i]));
    assert forall i :: 0 <= i < |positions| ==> bs[i] == (positions[i], positions[i]);
    var box := MergeBoxes(bs);
    ColTriangle(positions, n, Dot3(n, positions[0]), box.0, box.1)
  }

  /** A triangle's box is ordered. */
  predicate BoxOk(t: ColTriangle) {
    Le3(t.bmin, t.bmax)
  }

  /** `COLNode.__init__`: the box of the triangles' boxes. */
  function MakeNode(ts: seq<ColTriangle>, offset: int): (n: ColNode)
    requires |ts| > 0
    ensures n.triangles == ts && n.offset == offset
    ensures forall i :: 0 <= i < |ts| ==> Le3(n.bmin, ts[i].bmin) && Le3(ts[i].bmax, n.bmax)
    ensures BoxOk(ts[0]) ==> Le3(n.bmin, n.bmax)
  {
    var bs := seq(|ts|, i requires 0 <= i < |ts| => (ts[i].bmin, ts[i].bmax));
    assert forall i :: 0 <= i < |ts| ==> bs[i] == (ts[i].bmin, ts[i].bmax);
    var box := MergeBoxes(bs);
    ColNode(ts, offset, box.0, box.1)
  }

  /** `isLeaf`. */
  predicate IsLeaf(n: ColNode) {
    n.offset >= 0
  }

  // ---------------------------------------------------------------------
  // Split axis
  // ---------------------------------------------------------------------

  function Extent(lo: Vec3, hi: Vec3, axis: nat): real
    requires axis < 3
  {
    Comp(hi, axis) - Comp(lo, axis)
  }

  /**
   The split axis as `subdivide` writes it: y when it is longer than x,
   then z when `bmax[2] - bmax[2]` (always 0) exceeds that axis' extent.
   */
  function ChooseAxis(lo: Vec3, hi: Vec3): (axis: nat)
    ensures axis < 3
  {
    var a: nat := if hi.y - lo.y > hi.x - lo.x then 1 else 0;
    if hi.z - hi.z > Extent(lo, hi, a) then 2 else a
  }

  /** For an ordered box the as-written choice never picks z. */
  lemma ChooseAxisNeverZ(lo: Vec3, hi: Vec3)
    requires Le3(lo, hi)
    ensures ChooseAxis(lo, hi) != 2
  {
  }

  /** A box that is long only in z is still split along x. */
  lemma ChooseAxisMissesZ()
    ensures var lo := Vec3(0.0, 0.0, 0.0);
            var hi := Vec3(1.0, 1.0, 10.0);
            ChooseAxis(lo, hi) == 0 && Extent(lo, hi, 2) > Extent(lo, hi, 0)
  {
  }

  /**
   The split axis with the z test comparing the z extent: the longest
   axis, the lowest-numbered one on a tie.
   */
  function ChooseAxisFixed(lo: Vec3, hi: Vec3): (axis: nat)
    ensures axis < 3
    ensures forall k :: 0 <= k < 3 ==> Extent(lo, hi, k) <= Extent(lo, hi, axis)
    ensures forall k :: 0 <= k < axis ==> Extent(lo, hi, k) < Extent(lo, hi, axis)
  {
    var a: nat := if hi.y - lo.y > hi.x - lo.x then 1 else 0;
    if hi.z - lo.z > Extent(lo, hi, a) then 2 else a
  }

  // ---------------------------------------------------------------------
  // Sorting along the axis
  // ---------------------------------------------------------------------

  /** `getBoundsAxisCenter`. */
  function Center(t: ColTriangle, axis: nat): real
    requires axis < 3
  {
    0.5 * (Comp(t.bmin, axis) + Comp(t.bmax, axis))
  }

  predicate SortedBy(s: seq<ColTriangle>, axis: nat)
    requires axis < 3
  {
    forall i, j :: 0 <= i < j < |s| ==> Center(s[i], axis) <= Center(s[j], axis)
  }

  /** The first index from `k` on whose centre exceeds c, or the length. */
  function FirstAbove(s: seq<ColTriangle>, c: real, axis: nat, k: nat): (r: nat)
    requires axis < 3 && k <= |s|
    ensures k <= r <= |s|
    ensures forall i :: k <= i < r ==> Center(s[i], axis) <= c
    ensures r < |s| ==> Center(s[r], axis) > c
    decreases |s| - k
  {
    if k == |s| || Center(s[k], axis) > c then k else FirstAbove(s, c, axis, k + 1)
  }

  /** Insert t after every element whose centre is not greater than t's, so equal centres keep their order. */
  function InsertByCenter(t: ColTriangle, s: seq<ColTriangle>, axis: nat): (r: seq<ColTriangle>)
    requires axis < 3 && SortedBy(s, axis)
    ensures |r| == |s| + 1 && multiset(r) == multiset(s) + multiset{t}
    ensures SortedBy(r, axis)
  {
    var k := FirstAbove(s, Center(t, axis), axis, 0);
    InsertKeepsSorted(t, s, axis, k);
    InsertCounts(t, s, k);
    s[..k] + [t] + s[k..]
  }

  /** Putting t anywhere into s adds exactly t. */
  lemma InsertCounts(t: ColTriangle, s: seq<ColTriangle>, k: nat)
    requires k <= |s|
    ensures |s[..k] + [t] + s[k..]| == |s| + 1
    ensures multiset(s[..k] + [t] + s[k..]) == multiset(s) + multiset{t}
  {
    assert s == s[..k] + s[k..];
  }

  /** Putting t between the centres not above its own and those above it keeps the order. */
  lemma InsertKeepsSorted(t: ColTriangle, s: seq<ColTriangle>, axis: nat, k: nat)
    requires axis < 3 && SortedBy(s, axis) && k <= |s|
    requires forall i :: 0 <= i < k ==> Center(s[i], axis) <= Center(t, axis)
    requires k < |s| ==> Center(s[k], axis) > Center(t, axis)
    ensures SortedBy(s[..k] + [t] + s[k..], axis)
  {
    var r := s[..k] + [t] + s[k..];
    forall i, j | 0 <= i < j < |r| ensures Center(r[i], axis) <= Center(r[j], axis) {
      if j < k {
        assert r[i] == s[i] && r[j] == s[j];
      } else if j == k {
        assert r[i] == s[i] && r[j] == t;
      } else if i < k {
        assert r[i] == s[i] && r[j] == s[j - 1];
      } else if i == k {
        assert r[i] == t && r[j] == s[j - 1];
        assert Center(s[k], axis) <= Center(s[j - 1], axis);
      } else {
        assert r[i] == s[i - 1] && r[j] == s[j - 1];
      }
    }
  }

  /** The list sorted by centre along the axis (Python's `list.sort` with a key). */
  function SortByCenter(ts: seq<ColTriangle>, axis: nat): (r: seq<ColTriangle>)
    requires axis < 3
    ensures |r| == |ts| && multiset(r) == multiset(ts)
    ensures SortedBy(r, axis)
  {
    if |ts| == 0 then []
    else
      var init := ts[..|ts| - 1];
      assert ts == init + [ts[|ts| - 1]];
      InsertByCenter(ts[|ts| - 1], SortByCenter(init, axis), axis)
  }

  // ---------------------------------------------------------------------
  // The tree
  // ---------------------------------------------------------------------

  /** The recursion of `subdivide`: a node with, for an inner node, the subtrees built for its two halves. */
  datatype KdTree = Leaf(node: ColNode) | Split(node: ColNode, left: KdTree, right: KdTree)

  /** The nodes of a tree in the order `subdivide` appends them: a node, then its left and right subtrees. */
  function Nodes(t: KdTree): (ns: seq<ColNode>)
    ensures |ns| >= 1 && ns[0] == t.node
  {
    match t
    case Leaf(n) => [n]
    case Split(n, l, r) => [n] + Nodes(l) + Nodes(r)
  }

  /**
   `subdivide`: a node for the triangles; when there are more than `tpl`
   of them, sort them along the longest axis of their box, split them in
   half (`int(len/2)` in front) and subdivide both halves, the second with
   its offset moved by the size of the first; the node's offset then
   becomes minus the number of nodes added below it.
   */
  function Build(ts: seq<ColTriangle>, tpl: nat, offset: nat, order: seq<ColTriangle> -> seq<ColTriangle>): (t: KdTree)
    requires Permutes(order)
    requires |ts| > 0 && tpl >= 1
    decreases |ts|
  {
    var node := MakeNode(ts, offset);
    if |ts| <= tpl then Leaf(node)
    else
      var sorted := order(ts);
      var isplit := Half(|ts|);
      var left := Build(sorted[..isplit], tpl, offset, order);
      var right := Build(sorted[isplit..], tpl, offset + isplit, order);
      Split(node.(triangles := sorted, offset := -(|Nodes(left)| + |Nodes(right)|)), left, right)
  }

  /** The node list `subdivide` appends. */
  function SubdivideWith(ts: seq<ColTriangle>, tpl: nat, offset: nat, order: seq<ColTriangle> -> seq<ColTriangle>): (r: seq<ColNode>)
    requires Permutes(order)
    requires |ts| > 0 && tpl >= 1
    ensures |r| >= 1
  {
    Nodes(Build(ts, tpl, offset, order))
  }

  /** `int(len(triangles)/2)`: the size of the front half. */
  function Half(n: nat): (h: nat)
    ensures h + h <= n < h + h + 2
    ensures n >= 2 ==> 0 < h < n
  {
    n / 2
  }

  /** An ordering of the triangles that keeps every list's contents. */
  ghost predicate Permutes(order: seq<ColTriangle> -> seq<ColTriangle>) {
    forall s :: |order(s)| == |s| && multiset(order(s)) == multiset(s)
  }

  /**
   The order `subdivide` as written gives an inner node's triangles: sorted
   by centre along the axis `ChooseAxis` picks for their box (the empty
   list, which never reaches it, stays empty).
   */
  function SortForSplitAsWritten(ts: seq<ColTriangle>): (r: seq<ColTriangle>)
    ensures |r| == |ts| && multiset(r) == multiset(ts)
  {
    if |ts| == 0 then []
    else
      var node := MakeNode(ts, 0);
      SortByCenter(ts, ChooseAxis(node.bmin, node.bmax))
  }

  lemma SortForSplitAsWrittenPermutes()
    ensures Permutes(SortForSplitAsWritten)
  {
    forall s ensures |SortForSplitAsWritten(s)| == |s| && multiset(SortForSplitAsWritten(s)) == multiset(s) {
      var r := SortForSplitAsWritten(s);
    }
  }

  /** A non-empty list comes out ordered by centre along the axis `ChooseAxis` picks for its box. */
  lemma SortForSplitAsWrittenSorts(ts: seq<ColTriangle>)
    requires |ts| > 0
    ensures SortedBy(SortForSplitAsWritten(ts), ChooseAxis(MakeNode(ts, 0).bmin, MakeNode(ts, 0).bmax))
  {
  }

  /**
   The corrected order: sorted by centre along the longest axis of the box,
   as `ChooseAxisFixed` picks it.
   */
  function SortForSplitFixed(ts: seq<ColTriangle>): (r: seq<ColTriangle>)
    ensures |r| == |ts| && multiset(r) == multiset(ts)
  {
    if |ts| == 0 then []
    else
      var node := MakeNode(ts, 0);
      SortByCenter(ts, ChooseAxisFixed(node.bmin, node.bmax))
  }

  lemma SortForSplitFixedPermutes()
    ensures Permutes(SortForSplitFixed)
  {
    forall s ensures |SortForSplitFixed(s)| == |s| && multiset(SortForSplitFixed(s)) == multiset(s) {
      var r := SortForSplitFixed(s);
    }
  }

  /** A non-empty list comes out ordered by centre along the axis `ChooseAxisFixed` picks for its box. */
  lemma SortForSplitFixedSorts(ts: seq<ColTriangle>)
    requires |ts| > 0
    ensures SortedBy(SortForSplitFixed(ts), ChooseAxisFixed(MakeNode(ts, 0).bmin, MakeNode(ts, 0).bmax))
  {
  }

  /**
   `subdivide` as written: the node list built with the `ChooseAxis` order.
   Leaves are exactly the nodes of at most `tpl` triangles, the leaves hold
   the input, each leaf offset indexes the leaf concatenation and every inner
   offset skips exactly the node's descendants.
   */
  function Subdivide(ts: seq<ColTriangle>, tpl: nat, offset: nat): (r: seq<ColNode>)
    requires |ts| > 0 && tpl >= 1
    ensures |r| >= 1
    ensures forall i :: 0 <= i < |r| ==> NodeOk(r[i], tpl)
    ensures multiset(Leaves(r)) == multiset(ts)
    ensures OffsetsOk(r, offset)
    ensures forall i :: 0 <= i < |r| ==> SubtreeOk(r, i)
  {
    SubdivideAsWrittenLayout(ts, tpl, offset);
    SubdivideWith(ts, tpl, offset, SortForSplitAsWritten)
  }

  /** The triangles of the leaves, in node order. */
  function Leaves(ns: seq<ColNode>): seq<ColTriangle> {
    if |ns| == 0 then []
    else Leaves(ns[..|ns| - 1]) + (if IsLeaf(ns[|ns| - 1]) then ns[|ns| - 1].triangles else [])
  }

  lemma {:induction false} LeavesAppend(a: seq<ColNode>, b: seq<ColNode>)
    ensures Leaves(a + b) == Leaves(a) + Leaves(b)
    decreases |b|
  {
    if |b| > 0 {
      LeavesAppend(a, b[..|b| - 1]);
      assert (a + b)[..|a + b| - 1] == a + b[..|b| - 1];
    } else {
      assert a + b == a;
    }
  }

  /** An inner node contributes no triangles. */
  lemma LeavesInner(n: ColNode, rest: seq<ColNode>)
    requires !IsLeaf(n)
    ensures Leaves([n] + rest) == Leaves(rest)
  {
    LeavesAppend([n], rest);
    assert [n][..0] == [];
  }

  /** A tree of at most `tpl` triangles is one leaf. */
  lemma BuildLeaf(ts: seq<ColTriangle>, tpl: nat, offset: nat, order: seq<ColTriangle> -> seq<ColTriangle>)
    requires Permutes(order)
    requires 0 < |ts| <= tpl
    ensures Build(ts, tpl, offset, order) == Leaf(MakeNode(ts, offset))
    ensures SubdivideWith(ts, tpl, offset, order) == [MakeNode(ts, offset)]
  {
  }

  /** An inner tree: its subtrees are built for the two halves of the sorted triangles. */
  lemma BuildSplit(ts: seq<ColTriangle>, tpl: nat, offset: nat, order: seq<ColTriangle> -> seq<ColTriangle>)
    requires Permutes(order)
    requires |ts| > tpl >= 1
    ensures var t := Build(ts, tpl, offset, order);
            && t.Split?
            && t.left == Build(order(ts)[..Half(|ts|)], tpl, offset, order)
            && t.right == Build(order(ts)[Half(|ts|)..], tpl, offset + Half(|ts|), order)
            && t.node.triangles == order(ts)
            && t.node.offset == -(|Nodes(t.left)| + |Nodes(t.right)|)
  {
  }

  /**
   The pieces of an inner result: the node, then the subtrees of the front
   half `lo` and the back half `hi` of the sorted triangles, the back one
   starting at offset `off2`.
   */
  lemma SubdivideSplit(ts: seq<ColTriangle>, tpl: nat, offset: nat, order: seq<ColTriangle> -> seq<ColTriangle>)
    returns (lo: seq<ColTriangle>, hi: seq<ColTriangle>, off2: nat)
    requires Permutes(order)
    requires |ts| > tpl >= 1
    ensures 0 < |lo| < |ts| && 0 < |hi| < |ts| && order(ts) == lo + hi
    ensures lo == order(ts)[..Half(|ts|)] && off2 == offset + |lo|
    ensures var left := SubdivideWith(lo, tpl, offset, order);
            var right := SubdivideWith(hi, tpl, off2, order);
            var r := SubdivideWith(ts, tpl, offset, order);
            && r == [r[0]] + left + right
            && r[0].triangles == lo + hi && r[0].offset == -(|left| + |right|)
  {
    lo, hi, off2 := order(ts)[..Half(|ts|)], order(ts)[Half(|ts|)..], offset + Half(|ts|);
    assert order(ts) == lo + hi;
    SplitNodes(ts, tpl, offset, order);
  }

  /** The result of an inner split, stated on the halves of the sorted triangles. */
  lemma SplitNodes(ts: seq<ColTriangle>, tpl: nat, offset: nat, order: seq<ColTriangle> -> seq<ColTriangle>)
    requires Permutes(order)
    requires |ts| > tpl >= 1
    ensures |order(ts)| == |ts| && 0 < Half(|ts|) < |ts|
    ensures var left := SubdivideWith(order(ts)[..Half(|ts|)], tpl, offset, order);
            var right := SubdivideWith(order(ts)[Half(|ts|)..], tpl, offset + Half(|ts|), order);
            var r := SubdivideWith(ts, tpl, offset, order);
            && r == [r[0]] + left + right
            && r[0].triangles == order(ts) && r[0].offset == -(|left| + |right|)
  {
    BuildSplit(ts, tpl, offset, order);
    NodesOfSplit(Build(ts, tpl, offset, order));
  }

  lemma NodesOfSplit(t: KdTree)
    requires t.Split?
    ensures Nodes(t) == [t.node] + Nodes(t.left) + Nodes(t.right)
  {
  }

  /** A node holds triangles, and is a leaf exactly when it holds at most `tpl` of them. */
  predicate NodeOk(n: ColNode, tpl: nat) {
    |n.triangles| > 0 && (IsLeaf(n) <==> |n.triangles| <= tpl)
  }

  lemma JoinNodeOk(n: ColNode, a: seq<ColNode>, b: seq<ColNode>, tpl: nat)
    requires NodeOk(n, tpl)
    requires forall i :: 0 <= i < |a| ==> NodeOk(a[i], tpl)
    requires forall i :: 0 <= i < |b| ==> NodeOk(b[i], tpl)
    ensures var r := [n] + a + b; forall i :: 0 <= i < |r| ==> NodeOk(r[i], tpl)
  {
    var r := [n] + a + b;
    forall i | 0 <= i < |r| ensures NodeOk(r[i], tpl) {
      if i == 0 {
      } else if i <= |a| {
        assert r[i] == a[i - 1];
      } else {
        assert r[i] == b[i - 1 - |a|];
      }
    }
  }

  /** Every node holds triangles, and a node is a leaf exactly when it holds at most `tpl` of them. */
  lemma {:induction false} SubdivideLeafIff(ts: seq<ColTriangle>, tpl: nat, offset: nat, order: seq<ColTriangle> -> seq<ColTriangle>)
    requires Permutes(order)
    requires |ts| > 0 && tpl >= 1
    ensures var r := SubdivideWith(ts, tpl, offset, order); forall i :: 0 <= i < |r| ==> NodeOk(r[i], tpl)
    decreases |ts|
  {
    if |ts| <= tpl {
      BuildLeaf(ts, tpl, offset, order);
    } else {
      var lo, hi, off2 := SubdivideSplit(ts, tpl, offset, order);
      SubdivideLeafIff(lo, tpl, offset, order);
      SubdivideLeafIff(hi, tpl, off2, order);
      var r := SubdivideWith(ts, tpl, offset, order);
      JoinNodeOk(r[0], SubdivideWith(lo, tpl, offset, order), SubdivideWith(hi, tpl, off2, order), tpl);
    }
  }

  /** The leaves of an inner node followed by two subtrees are the leaves of the subtrees. */
  lemma JoinLeaves(n: ColNode, a: seq<ColNode>, b: seq<ColNode>)
    requires !IsLeaf(n)
    ensures Leaves([n] + a + b) == Leaves(a) + Leaves(b)
  {
    assert [n] + a + b == [n] + (a + b);
    LeavesInner(n, a + b);
    LeavesAppend(a, b);
  }

  /** The leaves together hold exactly the input triangles. */
  lemma {:induction false} SubdivideLeaves(ts: seq<ColTriangle>, tpl: nat, offset: nat, order: seq<ColTriangle> -> seq<ColTriangle>)
    requires Permutes(order)
    requires |ts| > 0 && tpl >= 1
    ensures multiset(Leaves(SubdivideWith(ts, tpl, offset, order))) == multiset(ts)
    decreases |ts|
  {
    var r := SubdivideWith(ts, tpl, offset, order);
    if |ts| <= tpl {
      BuildLeaf(ts, tpl, offset, order);
      assert r[..0] == [];
    } else {
      var lo, hi, off2 := SubdivideSplit(ts, tpl, offset, order);
      var left := SubdivideWith(lo, tpl, offset, order);
      var right := SubdivideWith(hi, tpl, off2, order);
      SubdivideLeaves(lo, tpl, offset, order);
      SubdivideLeaves(hi, tpl, off2, order);
      assert multiset(lo + hi) == multiset(ts);
      SplitLeaves(r, left, right, lo, hi);
    }
  }

  /** The step of `SubdivideLeaves` for an inner node. */
  lemma SplitLeaves(r: seq<ColNode>, left: seq<ColNode>, right: seq<ColNode>, lo: seq<ColTriangle>, hi: seq<ColTriangle>)
    requires |r| > 0 && !IsLeaf(r[0]) && r == [r[0]] + left + right
    requires multiset(Leaves(left)) == multiset(lo)
    requires multiset(Leaves(right)) == multiset(hi)
    ensures multiset(Leaves(r)) == multiset(lo + hi)
  {
    JoinLeaves(r[0], left, right);
  }

  /** Every leaf's offset is `base` plus the number of triangles in the leaves before it. */
  predicate OffsetsOk(ns: seq<ColNode>, base: int) {
    forall i :: 0 <= i < |ns| && IsLeaf(ns[i]) ==> ns[i].offset == base + |Leaves(ns[..i])|
  }

  lemma JoinOffsets(n: ColNode, a: seq<ColNode>, b: seq<ColNode>, base: int)
    requires !IsLeaf(n) && OffsetsOk(a, base) && OffsetsOk(b, base + |Leaves(a)|)
    ensures OffsetsOk([n] + a + b, base)
  {
    var r := [n] + a + b;
    forall i | 0 <= i < |r| && IsLeaf(r[i])
      ensures r[i].offset == base + |Leaves(r[..i])|
    {
      if i <= |a| {
        assert r[..i] == [n] + a[..i - 1];
        LeavesInner(n, a[..i - 1]);
        assert r[i] == a[i - 1];
      } else {
        var j := i - 1 - |a|;
        assert r[..i] == [n] + a + b[..j];
        JoinLeaves(n, a, b[..j]);
        assert r[i] == b[j];
      }
    }
  }

  /** Each leaf's offset is where its triangles start in the concatenation of the leaves. */
  lemma {:induction false} SubdivideOffsets(ts: seq<ColTriangle>, tpl: nat, offset: nat, order: seq<ColTriangle> -> seq<ColTriangle>)
    requires Permutes(order)
    requires |ts| > 0 && tpl >= 1
    ensures OffsetsOk(SubdivideWith(ts, tpl, offset, order), offset)
    decreases |ts|
  {
    var r := SubdivideWith(ts, tpl, offset, order);
    if |ts| <= tpl {
      BuildLeaf(ts, tpl, offset, order);
      assert r[..0] == [];
    } else {
      var lo, hi, off2 := SubdivideSplit(ts, tpl, offset, order);
      var left := SubdivideWith(lo, tpl, offset, order);
      SubdivideOffsets(lo, tpl, offset, order);
      SubdivideOffsets(hi, tpl, off2, order);
      SubdivideLeaves(lo, tpl, offset, order);
      assert |Leaves(left)| == |lo| by {
        assert |multiset(Leaves(left))| == |multiset(lo)|;
      }
      JoinOffsets(r[0], left, SubdivideWith(hi, tpl, off2, order), offset);
    }
  }

  /**
   Below every inner node lie exactly its `-offset` descendants, right
   after it, and their leaves hold exactly the node's triangles.
   */
  predicate SubtreeOk(r: seq<ColNode>, i: nat)
    requires i < |r|
  {
    !IsLeaf(r[i]) ==>
      && i + 1 - r[i].offset <= |r|
      && multiset(Leaves(r[i + 1..i + 1 - r[i].offset])) == multiset(r[i].triangles)
  }

  /** A subtree's skip range stays inside a list it is embedded in. */
  lemma SubtreeShift(pre: seq<ColNode>, s: seq<ColNode>, post: seq<ColNode>, j: nat)
    requires j < |s| && SubtreeOk(s, j)
    ensures |pre| + j < |pre + s + post| && SubtreeOk(pre + s + post, |pre| + j)
  {
    var r := pre + s + post;
    var i := |pre| + j;
    assert r[i] == s[j];
    if !IsLeaf(s[j]) {
      assert r[i + 1..i + 1 - r[i].offset] == s[j + 1..j + 1 - s[j].offset];
    }
  }

  /** The inner node in front skips both subtrees, whose leaves hold its triangles. */
  lemma JoinSkipsHead(n: ColNode, a: seq<ColNode>, b: seq<ColNode>)
    requires !IsLeaf(n) && n.offset == -(|a| + |b|)
    requires multiset(Leaves(a)) + multiset(Leaves(b)) == multiset(n.triangles)
    ensures SubtreeOk([n] + a + b, 0)
  {
    var ab := a + b;
    var r := [n] + ab;
    assert [n] + a + b == r;
    assert r[1..1 - n.offset] == ab;
    LeavesAppend(a, b);
    assert r[0] == n;
  }

  lemma JoinSkips(n: ColNode, a: seq<ColNode>, b: seq<ColNode>)
    requires !IsLeaf(n) && n.offset == -(|a| + |b|)
    requires multiset(Leaves(a)) + multiset(Leaves(b)) == multiset(n.triangles)
    requires forall i :: 0 <= i < |a| ==> SubtreeOk(a, i)
    requires forall i :: 0 <= i < |b| ==> SubtreeOk(b, i)
    ensures var r := [n] + a + b; forall i :: 0 <= i < |r| ==> SubtreeOk(r, i)
  {
    JoinSkipsHead(n, a, b);
    JoinSkipsFront(n, a, b);
    JoinSkipsBack(n, a, b);
  }

  /** The nodes of the first subtree keep their skips behind the new node. */
  lemma JoinSkipsFront(n: ColNode, a: seq<ColNode>, b: seq<ColNode>)
    requires forall i :: 0 <= i < |a| ==> SubtreeOk(a, i)
    ensures var r := [n] + a + b; forall i :: 1 <= i <= |a| ==> SubtreeOk(r, i)
  {
    forall i | 1 <= i <= |a| ensures SubtreeOk([n] + a + b, i) {
      SubtreeShift([n], a, b, i - 1);
    }
  }

  /** The nodes of the second subtree keep their skips behind the node and the first subtree. */
  lemma JoinSkipsBack(n: ColNode, a: seq<ColNode>, b: seq<ColNode>)
    requires forall i :: 0 <= i < |b| ==> SubtreeOk(b, i)
    ensures var r := [n] + a + b; forall i :: |a| < i < |r| ==> SubtreeOk(r, i)
  {
    var r := [n] + a + b;
    assert r + [] == r;
    forall i | |a| < i < |r| ensures SubtreeOk(r, i) {
      SubtreeShift([n] + a, b, [], i - 1 - |a|);
    }
  }

  /** Every inner node's offset skips exactly its own subtree. */
  lemma {:induction false} SubdivideSkips(ts: seq<ColTriangle>, tpl: nat, offset: nat, order: seq<ColTriangle> -> seq<ColTriangle>)
    requires Permutes(order)
    requires |ts| > 0 && tpl >= 1
    ensures var r := SubdivideWith(ts, tpl, offset, order); forall i :: 0 <= i < |r| ==> SubtreeOk(r, i)
    decreases |ts|
  {
    var r := SubdivideWith(ts, tpl, offset, order);
    if |ts| <= tpl {
      BuildLeaf(ts, tpl, offset, order);
      LeafSkips(r);
    } else {
      var lo, hi, off2 := SubdivideSplit(ts, tpl, offset, order);
      var left := SubdivideWith(lo, tpl, offset, order);
      var right := SubdivideWith(hi, tpl, off2, order);
      SubdivideSkips(lo, tpl, offset, order);
      SubdivideSkips(hi, tpl, off2, order);
      SubdivideLeaves(lo, tpl, offset, order);
      SubdivideLeaves(hi, tpl, off2, order);
      SplitSkips(r[0], left, right, lo, hi);
    }
  }

  /** A single leaf has no inner node to check. */
  lemma LeafSkips(r: seq<ColNode>)
    requires |r| == 1 && IsLeaf(r[0])
    ensures forall i :: 0 <= i < |r| ==> SubtreeOk(r, i)
  {
  }

  /** The step of `SubdivideSkips` for an inner node. */
  lemma SplitSkips(n: ColNode, left: seq<ColNode>, right: seq<ColNode>, lo: seq<ColTriangle>, hi: seq<ColTriangle>)
    requires !IsLeaf(n) && n.offset == -(|left| + |right|) && n.triangles == lo + hi
    requires multiset(Leaves(left)) == multiset(lo) && multiset(Leaves(right)) == multiset(hi)
    requires forall i :: 0 <= i < |left| ==> SubtreeOk(left, i)
    requires forall i :: 0 <= i < |right| ==> SubtreeOk(right, i)
    ensures var r := [n] + left + right; forall i :: 0 <= i < |r| ==> SubtreeOk(r, i)
  {
    JoinSkips(n, left, right);
  }

  /** With one triangle per leaf, n triangles give 2n - 1 nodes. */
  lemma {:induction false} SubdivideNodeCount(ts: seq<ColTriangle>, offset: nat, order: seq<ColTriangle> -> seq<ColTriangle>)
    requires Permutes(order)
    requires |ts| > 0
    ensures |SubdivideWith(ts, 1, offset, order)| == 2 * |ts| - 1
    decreases |ts|
  {
    if |ts| > 1 {
      var lo, hi, off2 := SubdivideSplit(ts, 1, offset, order);
      SubdivideNodeCount(lo, offset, order);
      SubdivideNodeCount(hi, off2, order);
    } else {
      BuildLeaf(ts, 1, offset, order);
    }
  }

  /** `buildTree`: subdivide from offset 0; no tree for an empty list (the source indexes its first triangle). */
  function BuildTree(ts: seq<ColTriangle>, tpl: nat): (r: Option<seq<ColNode>>)
    requires tpl >= 1
    ensures r.Some? <==> |ts| > 0
    ensures r.Some? ==> |r.value| >= 1
  {
    if |ts| == 0 then None else Some(Subdivide(ts, tpl, 0))
  }

  datatype ColMesh = ColMesh(nodes: seq<ColNode>, triangles: seq<ColTriangle>)

  /** `COLMesh.__init__`: one triangle per leaf, triangles gathered from the leaves in node order. */
  function MakeColMesh(ts: seq<ColTriangle>): (r: Option<ColMesh>)
    ensures r.Some? <==> |ts| > 0
    ensures r.Some? ==> multiset(r.value.triangles) == multiset(ts)
    ensures r.Some? ==> |r.value.nodes| == 2 * |ts| - 1
    ensures r.Some? ==> forall i :: 0 <= i < |r.value.nodes| && IsLeaf(r.value.nodes[i]) ==>
                          r.value.nodes[i].offset == |Leaves(r.value.nodes[..i])|
  {
    match BuildTree(ts, 1)
    case None => None
    case Some(nodes) =>
      SortForSplitAsWrittenPermutes();
      SubdivideLeaves(ts, 1, 0, SortForSplitAsWritten);
      SubdivideNodeCount(ts, 0, SortForSplitAsWritten);
      SubdivideOffsets(ts, 1, 0, SortForSplitAsWritten);
      Some(ColMesh(nodes, Leaves(nodes)))
  }

  /** The `file_size` field written by `COLMesh.write`. */
  function ColFileSize(m: ColMesh): nat {
    ColHeaderSize + |m.nodes| * NodeRecordSize + |m.triangles| * TriangleRecordSize
  }

  /** A mesh of n triangles is a 116n - 12 byte file. */
  lemma ColFileSizeOf(ts: seq<ColTriangle>)
    requires |ts| > 0
    ensures ColFileSize(MakeColMesh(ts).value) == 116 * |ts| - 12
  {
    var m := MakeColMesh(ts).value;
    assert |m.triangles| == |multiset(m.triangles)| == |ts|;
  }

  // ---------------------------------------------------------------------
  // edgeHash
  // ---------------------------------------------------------------------

  /** `edgeHash`: an unordered pair of distinct vertices as one number; nothing for a loop. */
  function EdgeHash(v0: nat, v1: nat, n: nat): (r: Option<nat>)
    ensures r.None? <==> v0 == v1
  {
    if v0 < v1 then Some(v0 * n + v1)
    else if v1 < v0 then Some(v1 * n + v0)
    else None
  }

  lemma EdgeHashSymmetric(v0: nat, v1: nat, n: nat)
    ensures EdgeHash(v0, v1, n) == EdgeHash(v1, v0, n)
  {
  }

  /** For vertices below the count the hash decodes back to (smaller, larger). */
  lemma EdgeHashDecodes(v0: nat, v1: nat, n: nat)
    requires v0 < n && v1 < n && v0 != v1
    ensures var h := EdgeHash(v0, v1, n).value;
            && h / n == (if v0 < v1 then v0 else v1)
            && h % n == (if v0 < v1 then v1 else v0)
  {
    var a := if v0 < v1 then v0 else v1;
    var b := if v0 < v1 then v1 else v0;
    DivModUnique(a, b, n);
  }

  /** (a * n + b) / n == a and (a * n + b) % n == b for 0 <= b < n. */
  lemma DivModUnique(a: nat, b: nat, n: nat)
    requires b < n
    ensures (a * n + b) / n == a && (a * n + b) % n == b
  {
    var h := a * n + b;
    var q := h / n;
    var r := h % n;
    assert h == q * n + r;
    assert (q - a) * n == b - r;
    if q > a {
      MulAtLeast(q - a, n);
    } else if q < a {
      MulAtLeast(a - q, n);
    }
  }

  lemma MulAtLeast(k: int, n: nat)
    requires k >= 1
    ensures k * n >= n
  {
    assert k * n == (k - 1) * n + n;
  }

  /** Two pairs of vertices below the count hash alike only when they are the same unordered pair. */
  lemma EdgeHashInjective(a0: nat, a1: nat, b0: nat, b1: nat, n: nat)
    requires a0 < n && a1 < n && b0 < n && b1 < n && a0 != a1 && b0 != b1
    requires EdgeHash(a0, a1, n) == EdgeHash(b0, b1, n)
    ensures (a0 == b0 && a1 == b1) || (a0 == b1 && a1 == b0)
  {
    EdgeHashDecodes(a0, a1, n);
    EdgeHashDecodes(b0, b1, n);
  }

  /**
   `subdivide` as written, sorting along `ChooseAxis`: the node layout does
   not depend on the axis, so every layout guarantee holds for it too.
   */
  lemma SubdivideAsWrittenLayout(ts: seq<ColTriangle>, tpl: nat, offset: nat)
    requires |ts| > 0 && tpl >= 1
    ensures Permutes(SortForSplitAsWritten)
    ensures var r := SubdivideWith(ts, tpl, offset, SortForSplitAsWritten);
            && (forall i :: 0 <= i < |r| ==> NodeOk(r[i], tpl))
            && multiset(Leaves(r)) == multiset(ts)
            && OffsetsOk(r, offset)
            && (forall i :: 0 <= i < |r| ==> SubtreeOk(r, i))
  {
    SortForSplitAsWrittenPermutes();
    SubdivideLeafIff(ts, tpl, offset, SortForSplitAsWritten);
    SubdivideLeaves(ts, tpl, offset, SortForSplitAsWritten);
    SubdivideOffsets(ts, tpl, offset, SortForSplitAsWritten);
    SubdivideSkips(ts, tpl, offset, SortForSplitAsWritten);
  }
}
