/**
 The second half of `Track::generate`: the cross-section points of every
 segment, the triangle index list that joins consecutive cross-sections
 into three quads (left wall, road surface, right wall), and the flat
 vertex buffer of positions and per-face normals.
 */
module TrackMesh {
  import opened Geometry
  import opened TrackGen

  /** `POINTS_PER_SEGMENT` */
  const PointsPerSegment: nat := 4
  /** Position and normal: six floats per emitted vertex. */
  const FloatsPerVertex: nat := 6
  /** Three quads of two triangles between each pair of consecutive cross-sections. */
  const IndicesPerJoint: nat := 18

  /** `v3(c - 0.5*w*t, h)`: the left rail of segment `s` at centre point `c`, on the road surface. */
  function LeftRail(c: Vec2, s: Segment): Vec3
  {
    Lift(Sub2(c, Scale2(0.5 * s.Width(), s.t)), s.Height())
  }

  /** `v3(c + 0.5*w*t, h)`: the right rail of segment `s` at centre point `c`, on the road surface. */
  function RightRail(c: Vec2, s: Segment): Vec3
  {
    Lift(Add2(c, Scale2(0.5 * s.Width(), s.t)), s.Height())
  }

  /**
   The four points of the cross-section at the start of `s`, in emission
   order: left foot, left rail, right rail, right foot.
   */
  function Corner(s: Segment, j: nat): Vec3
    requires j < PointsPerSegment
  {
    if j == 0 then LeftRail(s.p, s).(z := 0.0)
    else if j == 1 then LeftRail(s.p, s)
    else if j == 2 then RightRail(s.p, s)
    else RightRail(s.p, s).(z := 0.0)
  }

  /**
   The shape of a cross-section: the feet stand on z = 0 directly under the
   rails, the rails are at the segment's height, and the road between them
   is the width times the tangent, centred on the base point.
   */
  lemma CrossSection(s: Segment)
    ensures Corner(s, 0).z == 0.0 && Corner(s, 3).z == 0.0
    ensures Corner(s, 1).z == s.Height() && Corner(s, 2).z == s.Height()
    ensures Drop(Corner(s, 0)) == Drop(Corner(s, 1)) && Drop(Corner(s, 3)) == Drop(Corner(s, 2))
    ensures Sub2(Drop(Corner(s, 2)), Drop(Corner(s, 1))) == Scale2(s.Width(), s.t)
    ensures Scale2(0.5, Add2(Drop(Corner(s, 1)), Drop(Corner(s, 2)))) == s.p
  {
  }

  /** The points loop: four points per segment, in segment order. */
  method BuildPoints(segs: seq<Segment>) returns (points: seq<Vec3>)
    ensures |points| == PointsPerSegment * |segs|
    ensures forall i, j :: 0 <= i < |segs| && 0 <= j < PointsPerSegment ==>
              points[PointsPerSegment * i + j] == Corner(segs[i], j)
  {
    points := [];
    var i := 0;
    while i < |segs|
      invariant 0 <= i <= |segs|
      invariant |points| == PointsPerSegment * i
      invariant forall i', j :: 0 <= i' < i && 0 <= j < PointsPerSegment ==>
                  points[PointsPerSegment * i' + j] == Corner(segs[i'], j)
    {
      var s := segs[i];
      points := points + [Corner(s, 0), Corner(s, 1), Corner(s, 2), Corner(s, 3)];
      i := i + 1;
    }
  }

  /**
   The six indices pushed for quad `j` (0: left wall, 1: road, 2: right
   wall) between cross-sections `i` and `i + 1`: triangles
   (a, a+1, b) and (b+1, b, a+1) with a = 4i + j and b = 4(i+1) + j.
   */
  function QuadIndex(i: nat, j: nat, k: nat): int
    requires k < 6
  {
    var a := PointsPerSegment * i + j;
    var b := PointsPerSegment * (i + 1) + j;
    [a, a + 1, b, b + 1, b, a + 1][k]
  }

  predicate Distinct3(a: int, b: int, c: int) { a != b && b != c && a != c }

  /** No triangle of an index list repeats a point. */
  predicate NoDegenerateFace(indices: seq<int>)
  {
    forall f :: 0 <= f < |indices| / 3 ==> Distinct3(indices[3 * f], indices[3 * f + 1], indices[3 * f + 2])
  }

  /** The number of indices for `n` segments; no joint (and no index) without a second segment. */
  function IndexCount(n: nat): nat
  {
    if n == 0 then 0 else IndicesPerJoint * (n - 1)
  }

  /**
   The index loop. Every index addresses one of the `4n` points, and every
   index of joint `i` addresses cross-section `i` or `i + 1`.
   */
  method BuildIndices(n: nat) returns (indices: seq<int>)
    ensures |indices| == IndexCount(n)
    ensures forall i, j, k :: 0 <= i < n - 1 && 0 <= j < 3 && 0 <= k < 6 ==>
              indices[IndicesPerJoint * i + 6 * j + k] == QuadIndex(i, j, k)
    ensures forall q :: 0 <= q < |indices| ==> 0 <= indices[q] < PointsPerSegment * n
    ensures forall q :: 0 <= q < |indices| ==>
              PointsPerSegment * (q / IndicesPerJoint) <= indices[q] < PointsPerSegment * (q / IndicesPerJoint + 2)
    ensures NoDegenerateFace(indices)
  {
    indices := [];
    var i := 0;
    while i < n - 1
      invariant 0 <= i && (n >= 1 ==> i <= n - 1) && (n == 0 ==> i == 0)
      invariant |indices| == IndicesPerJoint * i
      invariant forall i', j, k :: 0 <= i' < i && 0 <= j < 3 && 0 <= k < 6 ==>
                  indices[IndicesPerJoint * i' + 6 * j + k] == QuadIndex(i', j, k)
      invariant forall q :: 0 <= q < |indices| ==> 0 <= indices[q] < PointsPerSegment * n
      invariant forall q :: 0 <= q < |indices| ==>
                  PointsPerSegment * (q / IndicesPerJoint) <= indices[q] < PointsPerSegment * (q / IndicesPerJoint + 2)
      invariant NoDegenerateFace(indices)
    {
      AppendJointLayout(indices, i);
      AppendJointRange(indices, i, n);
      AppendJointFaces(indices, i);
      indices := indices + JointIndices(i);
      i := i + 1;
    }
  }

  /** The 18 indices pushed by one iteration of the outer index loop. */
  function JointIndices(i: nat): seq<int>
  {
    seq(IndicesPerJoint, q requires 0 <= q < IndicesPerJoint => QuadIndex(i, q / 6, q % 6))
  }

  lemma JointIndicesShape(i: nat)
    ensures |JointIndices(i)| == IndicesPerJoint
    ensures forall q :: 0 <= q < IndicesPerJoint ==>
              PointsPerSegment * i <= JointIndices(i)[q] < PointsPerSegment * (i + 2)
    ensures NoDegenerateFace(JointIndices(i))
  {
    JointRange(i);
    JointFaces(i);
  }

  lemma JointRange(i: nat)
    ensures forall q :: 0 <= q < IndicesPerJoint ==>
              PointsPerSegment * i <= JointIndices(i)[q] < PointsPerSegment * (i + 2)
  {
    var joint := JointIndices(i);
    forall q | 0 <= q < IndicesPerJoint
      ensures PointsPerSegment * i <= joint[q] < PointsPerSegment * (i + 2)
    {
      var j, k := q / 6, q % 6;
      assert j < 3 && joint[q] == QuadIndex(i, j, k);
    }
  }

  lemma JointFaces(i: nat)
    ensures NoDegenerateFace(JointIndices(i))
  {
    var joint := JointIndices(i);
    forall f | 0 <= f < |joint| / 3
      ensures Distinct3(joint[3 * f], joint[3 * f + 1], joint[3 * f + 2])
    {
      var j := f / 2;
      var k := 3 * (f % 2);
      assert 3 * f == 6 * j + k;
      QuadPosition(j, k);
      QuadPosition(j, k + 1);
      QuadPosition(j, k + 2);
      assert joint[3 * f] == QuadIndex(i, j, k);
      assert joint[3 * f + 1] == QuadIndex(i, j, k + 1);
      assert joint[3 * f + 2] == QuadIndex(i, j, k + 2);
      QuadWinding(i, j);
    }
  }

  /** Index `6 j + k` of a joint is entry k of quad j. */
  lemma QuadPosition(j: nat, k: nat)
    requires k < 6
    ensures (6 * j + k) / 6 == j && (6 * j + k) % 6 == k
  {
  }

  /** Appending joint `i` extends the per-quad layout. */
  lemma AppendJointLayout(indices: seq<int>, i: nat)
    requires |indices| == IndicesPerJoint * i
    requires forall i', j, k :: 0 <= i' < i && 0 <= j < 3 && 0 <= k < 6 ==>
               indices[IndicesPerJoint * i' + 6 * j + k] == QuadIndex(i', j, k)
    ensures var r := indices + JointIndices(i);
            forall i', j, k :: 0 <= i' < i + 1 && 0 <= j < 3 && 0 <= k < 6 ==>
              r[IndicesPerJoint * i' + 6 * j + k] == QuadIndex(i', j, k)
  {
    var joint := JointIndices(i);
    var r := indices + joint;
    forall i', j, k | 0 <= i' < i + 1 && 0 <= j < 3 && 0 <= k < 6
      ensures r[IndicesPerJoint * i' + 6 * j + k] == QuadIndex(i', j, k)
    {
      if i' == i {
        var q := 6 * j + k;
        assert q / 6 == j && q % 6 == k;
        assert r[IndicesPerJoint * i' + q] == joint[q];
      }
    }
  }

  /** Appending joint `i` keeps every index within cross-sections `q / 18` and `q / 18 + 1`. */
  lemma AppendJointRange(indices: seq<int>, i: nat, n: nat)
    requires |indices| == IndicesPerJoint * i && i + 1 < n
    requires forall q :: 0 <= q < |indices| ==> 0 <= indices[q] < PointsPerSegment * n
    requires forall q :: 0 <= q < |indices| ==>
               PointsPerSegment * (q / IndicesPerJoint) <= indices[q] < PointsPerSegment * (q / IndicesPerJoint + 2)
    ensures var r := indices + JointIndices(i);
            && (forall q :: 0 <= q < |r| ==> 0 <= r[q] < PointsPerSegment * n)
            && (forall q :: 0 <= q < |r| ==>
                  PointsPerSegment * (q / IndicesPerJoint) <= r[q] < PointsPerSegment * (q / IndicesPerJoint + 2))
  {
    JointIndicesShape(i);
    var joint := JointIndices(i);
    var r := indices + joint;
    forall q | 0 <= q < |r|
      ensures PointsPerSegment * (q / IndicesPerJoint) <= r[q] < PointsPerSegment * (q / IndicesPerJoint + 2)
      ensures 0 <= r[q] < PointsPerSegment * n
    {
      if q >= |indices| {
        assert q - |indices| < IndicesPerJoint;
        assert q / IndicesPerJoint == i;
        assert r[q] == joint[q - |indices|];
      } else {
        assert r[q] == indices[q];
      }
    }
  }

  /** Appending a joint (a whole number of faces) keeps every face non-degenerate. */
  lemma AppendJointFaces(indices: seq<int>, i: nat)
    requires |indices| == IndicesPerJoint * i
    requires NoDegenerateFace(indices)
    ensures NoDegenerateFace(indices + JointIndices(i))
  {
    JointFaces(i);
    JoinFaces(indices, JointIndices(i), 6 * i, 6);
  }

  /** Joining two lists of whole faces, neither repeating a point within a face, repeats none. */
  lemma JoinFaces(a: seq<int>, b: seq<int>, na: nat, nb: nat)
    requires |a| == 3 * na && |b| == 3 * nb
    requires NoDegenerateFace(a) && NoDegenerateFace(b)
    ensures NoDegenerateFace(a + b)
  {
    var r := a + b;
    assert |r| / 3 == na + nb;
    forall f | 0 <= f < na + nb
      ensures Distinct3(r[3 * f], r[3 * f + 1], r[3 * f + 2])
    {
      if f >= na {
        var g := f - na;
        assert g < |b| / 3;
        assert r[3 * f] == b[3 * g] && r[3 * f + 1] == b[3 * g + 1] && r[3 * f + 2] == b[3 * g + 2];
      } else {
        assert f < |a| / 3;
        assert r[3 * f] == a[3 * f] && r[3 * f + 1] == a[3 * f + 1] && r[3 * f + 2] == a[3 * f + 2];
      }
    }
  }

  /**
   Each quad is two triangles that share the diagonal (a+1, b) and traverse
   it in opposite directions, so both triangles wind the same way; no
   triangle repeats a point.
   */
  lemma QuadWinding(i: nat, j: nat)
    ensures QuadIndex(i, j, 1) == QuadIndex(i, j, 5) && QuadIndex(i, j, 2) == QuadIndex(i, j, 4)
    ensures Distinct3(QuadIndex(i, j, 0), QuadIndex(i, j, 1), QuadIndex(i, j, 2))
    ensures Distinct3(QuadIndex(i, j, 3), QuadIndex(i, j, 4), QuadIndex(i, j, 5))
  {
  }

  /**
   The road quad (j = 1) between cross-sections i and i+1 is made of the
   rail points of both: triangles (4i+1, 4i+2, 4i+5) and (4i+6, 4i+5, 4i+2).
   */
  lemma RoadQuad(i: nat)
    ensures [QuadIndex(i, 1, 0), QuadIndex(i, 1, 1), QuadIndex(i, 1, 2)]
         == [PointsPerSegment * i + 1, PointsPerSegment * i + 2, PointsPerSegment * (i + 1) + 1]
    ensures [QuadIndex(i, 1, 3), QuadIndex(i, 1, 4), QuadIndex(i, 1, 5)]
         == [PointsPerSegment * (i + 1) + 2, PointsPerSegment * (i + 1) + 1, PointsPerSegment * i + 2]
  {
  }

  /** `normalize(cross(p1 - p0, p2 - p0))`: the face normal of triangle (p0, p1, p2). */
  function FaceNormal(m: Maths, p0: Vec3, p1: Vec3, p2: Vec3): Vec3
  {
    m.normalize3(Cross(Sub3(p1, p0), Sub3(p2, p0)))
  }

  /** The six floats written for one vertex: position, then normal. */
  function VertexRecord(p: Vec3, nor: Vec3): seq<real>
  {
    [p.x, p.y, p.z, nor.x, nor.y, nor.z]
  }

  /** The position stored at vertex `k` of a flat vertex buffer. */
  function PositionAt(data: seq<real>, k: nat): Vec3
    requires FloatsPerVertex * k + 3 <= |data|
  {
    Vec3(data[FloatsPerVertex * k], data[FloatsPerVertex * k + 1], data[FloatsPerVertex * k + 2])
  }

  /** The normal stored at vertex `k` of a flat vertex buffer. */
  function NormalAt(data: seq<real>, k: nat): Vec3
    requires FloatsPerVertex * k + 6 <= |data|
  {
    Vec3(data[FloatsPerVertex * k + 3], data[FloatsPerVertex * k + 4], data[FloatsPerVertex * k + 5])
  }

  predicate IndicesAddress(points: seq<Vec3>, indices: seq<int>)
  {
    forall q :: 0 <= q < |indices| ==> 0 <= indices[q] < |points|
  }

  /** The normal of face `f` of an index list. */
  function FaceNormalOf(m: Maths, points: seq<Vec3>, indices: seq<int>, f: nat): Vec3
    requires IndicesAddress(points, indices) && 3 * f + 2 < |indices|
  {
    FaceNormal(m, points[indices[3 * f]], points[indices[3 * f + 1]], points[indices[3 * f + 2]])
  }

  /**
   The vertex-buffer loop: one record per index (so `6 * |indices|` floats),
   holding the indexed point and the normal of the face the index belongs
   to. Reading the buffer back gives the point list seen through the index
   list.
   */
  method BuildVertexData(m: Maths, points: seq<Vec3>, indices: seq<int>) returns (data: seq<real>)
    requires IndicesAddress(points, indices)
    requires |indices| % 3 == 0
    ensures |data| == FloatsPerVertex * |indices|
    ensures forall k :: 0 <= k < |indices| ==> PositionAt(data, k) == points[indices[k]]
    ensures forall k :: 0 <= k < |indices| ==> NormalAt(data, k) == FaceNormalOf(m, points, indices, k / 3)
  {
    data := [];
    var f := 0;
    while f < |indices| / 3
      invariant 0 <= f <= |indices| / 3
      invariant |data| == FloatsPerVertex * 3 * f
      invariant forall k :: 0 <= k < 3 * f ==> PositionAt(data, k) == points[indices[k]]
      invariant forall k :: 0 <= k < 3 * f ==> NormalAt(data, k) == FaceNormalOf(m, points, indices, k / 3)
    {
      var nor := FaceNormalOf(m, points, indices, f);
      var face := VertexRecord(points[indices[3 * f]], nor)
                + VertexRecord(points[indices[3 * f + 1]], nor)
                + VertexRecord(points[indices[3 * f + 2]], nor);
      AppendFace(data, face, m, points, indices, f, nor);
      data := data + face;
      f := f + 1;
    }
  }

  lemma AppendFace(data: seq<real>, face: seq<real>, m: Maths, points: seq<Vec3>, indices: seq<int>, f: nat, nor: Vec3)
    requires IndicesAddress(points, indices) && 3 * f + 2 < |indices|
    requires |data| == FloatsPerVertex * 3 * f
    requires nor == FaceNormalOf(m, points, indices, f)
    requires face == VertexRecord(points[indices[3 * f]], nor)
                   + VertexRecord(points[indices[3 * f + 1]], nor)
                   + VertexRecord(points[indices[3 * f + 2]], nor)
    requires forall k :: 0 <= k < 3 * f ==> PositionAt(data, k) == points[indices[k]]
    requires forall k :: 0 <= k < 3 * f ==> NormalAt(data, k) == FaceNormalOf(m, points, indices, k / 3)
    ensures |data + face| == FloatsPerVertex * 3 * (f + 1)
    ensures forall k :: 0 <= k < 3 * (f + 1) ==> PositionAt(data + face, k) == points[indices[k]]
    ensures forall k :: 0 <= k < 3 * (f + 1) ==> NormalAt(data + face, k) == FaceNormalOf(m, points, indices, k / 3)
  {
    var r := data + face;
    var n := 3 * f;
    FaceRecord(points[indices[n]], points[indices[n + 1]], points[indices[n + 2]], nor);
    forall k | 0 <= k < 3 * (f + 1)
      ensures PositionAt(r, k) == points[indices[k]]
      ensures NormalAt(r, k) == FaceNormalOf(m, points, indices, k / 3)
    {
      RecordOfJoin(data, face, n, k);
      if k >= n {
        assert k / 3 == f;
      }
    }
  }

  /** The three records of a face hold its corners, each with the face normal. */
  lemma FaceRecord(p0: Vec3, p1: Vec3, p2: Vec3, nor: Vec3)
    ensures var face := VertexRecord(p0, nor) + VertexRecord(p1, nor) + VertexRecord(p2, nor);
            && |face| == FloatsPerVertex * 3
            && PositionAt(face, 0) == p0 && PositionAt(face, 1) == p1 && PositionAt(face, 2) == p2
            && NormalAt(face, 0) == nor && NormalAt(face, 1) == nor && NormalAt(face, 2) == nor
  {
  }

  /** Vertex k of two joined buffers, the first holding n vertices, is read from the one it falls in. */
  lemma RecordOfJoin(data: seq<real>, face: seq<real>, n: nat, k: nat)
    requires |data| == FloatsPerVertex * n && FloatsPerVertex * k + 6 <= |data| + |face|
    ensures k < n ==> PositionAt(data + face, k) == PositionAt(data, k) && NormalAt(data + face, k) == NormalAt(data, k)
    ensures k >= n ==> PositionAt(data + face, k) == PositionAt(face, k - n) && NormalAt(data + face, k) == NormalAt(face, k - n)
  {
  }

  /**
   With lawful maths, each stored normal is parallel to, and on the same
   side as, the cross product of its face's edges: the face normal points
   the way the triangle winds.
   */
  lemma NormalFollowsWinding(m: Maths, p0: Vec3, p1: Vec3, p2: Vec3)
    requires Lawful(m)
    requires Cross(Sub3(p1, p0), Sub3(p2, p0)) != Zero3
    ensures Cross(FaceNormal(m, p0, p1, p2), Cross(Sub3(p1, p0), Sub3(p2, p0))) == Zero3
    ensures Dot3(FaceNormal(m, p0, p1, p2), Cross(Sub3(p1, p0), Sub3(p2, p0))) > 0.0
  {
  }

  /** The whole mesh of a segment chain. */
  method BuildMesh(m: Maths, segs: seq<Segment>) returns (points: seq<Vec3>, indices: seq<int>, data: seq<real>)
    ensures |points| == PointsPerSegment * |segs|
    ensures |indices| == IndexCount(|segs|)
    ensures |data| == FloatsPerVertex * IndexCount(|segs|)
    ensures IndicesAddress(points, indices)
    ensures forall k :: 0 <= k < |indices| ==> PositionAt(data, k) == points[indices[k]]
  {
    points := BuildPoints(segs);
    indices := BuildIndices(|segs|);
    data := BuildVertexData(m, points, indices);
  }
}
