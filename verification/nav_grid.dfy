/**
 The navigation grid of `ColMesh2D.buildNavGrid`: the collision edges are
 pushed outwards by the tank's radius, every grid tile an edge crosses is
 marked as blocked, and a flood fill from the first spawn point marks the
 tiles a tank can drive to (1) and the blocked tiles at the border of that
 region (2).
 */
module NavGrids {
  import opened Wrappers
  import opened Geometry
  import opened ColGeometry
  import opened ColMeshes

  /** `TANK_RADIUS`. */
  const TankRadius: real := 1.337

  /** `navgrid_tile_size`, as `createFrom` sets it. */
  const NavTileSize: real := 1.0

  // ---------------------------------------------------------------------
  // Dilation
  // ---------------------------------------------------------------------

  /** `getEdgeNormal`: the normalised right-hand normal of an edge. */
  function EdgeNormalOf(maths: Maths, verts: seq<Vec3>, e: Edge): Vec2
    requires e.a < |verts| && e.b < |verts|
  {
    maths.normalize(EdgeNormal(verts[e.a], verts[e.b]))
  }

  /**
   The running `v_min`/`v_max` of the dilation loop: both start at the
   origin and take the componentwise minimum and maximum of the normals.
   The result is the smallest box holding the origin and every normal.
   */
  function Spread(ns: seq<Vec2>): (r: (Vec2, Vec2))
    ensures r.0.x <= 0.0 <= r.1.x && r.0.y <= 0.0 <= r.1.y
    ensures forall i :: 0 <= i < |ns| ==> r.0.x <= ns[i].x <= r.1.x && r.0.y <= ns[i].y <= r.1.y
    ensures r.0.x == 0.0 || exists i :: 0 <= i < |ns| && ns[i].x == r.0.x
    ensures r.1.x == 0.0 || exists i :: 0 <= i < |ns| && ns[i].x == r.1.x
    ensures r.0.y == 0.0 || exists i :: 0 <= i < |ns| && ns[i].y == r.0.y
    ensures r.1.y == 0.0 || exists i :: 0 <= i < |ns| && ns[i].y == r.1.y
  {
    if |ns| == 0 then (Vec2(0.0, 0.0), Vec2(0.0, 0.0))
    else
      var s := Spread(ns[..|ns| - 1]);
      var n := ns[|ns| - 1];
      assert forall i :: 0 <= i < |ns| - 1 ==> ns[..|ns| - 1][i] == ns[i];
      (Vec2(Min(s.0.x, n.x), Min(s.0.y, n.y)), Vec2(Max(s.1.x, n.x), Max(s.1.y, n.y)))
  }

  /** The normals of the edges in an incidence list, in list order. */
  function NormalsOf(maths: Maths, verts: seq<Vec3>, es: seq<Edge>): (ns: seq<Vec2>)
    requires forall e :: e in es ==> e.a < |verts| && e.b < |verts|
    ensures |ns| == |es|
    ensures forall i :: 0 <= i < |es| ==> ns[i] == EdgeNormalOf(maths, verts, es[i])
  {
    seq(|es|, i requires 0 <= i < |es| => EdgeNormalOf(maths, verts, es[i]))
  }

  /** Every edge listed at a vertex of a well-formed mesh has both ends in the vertex list. */
  lemma ListedInRange(round3: real -> int, m: Mesh2D, i: nat)
    requires Wf(round3, m) && i < |m.vertEdges|
    ensures forall e :: e in m.vertEdges[i] ==> e.a < |m.table.verts| && e.b < |m.table.verts|
  {
    forall e | e in m.vertEdges[i]
      ensures e.a < |m.table.verts| && e.b < |m.table.verts|
    {
      ListedAt(round3, m, i, e);
      var j :| 0 <= j < |m.edges| && m.edges[j] == e;
    }
  }

  /** The dilated position of vertex i: moved by `(v_min + v_max) * TANK_RADIUS` in the plane. */
  function Dilate(round3: real -> int, maths: Maths, m: Mesh2D, i: nat): Vec3
    requires Wf(round3, m) && i < |m.table.verts|
  {
    ListedInRange(round3, m, i);
    var s := Spread(NormalsOf(maths, m.table.verts, m.vertEdges[i]));
    var d := Scale2(TankRadius, Add2(s.0, s.1));
    Add3(m.table.verts[i], Vec3(d.x, d.y, 0.0))
  }

  /** `dilated_verts`. */
  function DilatedVerts(round3: real -> int, maths: Maths, m: Mesh2D): (dv: seq<Vec3>)
    requires Wf(round3, m)
    ensures |dv| == |m.table.verts|
  {
    seq(|m.table.verts|, i requires 0 <= i < |m.table.verts| => Dilate(round3, maths, m, i))
  }

  /** A component of a unit vector lies in [-1, 1]. */
  lemma UnitComponents(n: Vec2)
    requires Len2Sq(n) == 1.0
    ensures -1.0 <= n.x <= 1.0 && -1.0 <= n.y <= 1.0
  {
    SquareAtMostOne(n.x, n.y);
    SquareAtMostOne(n.y, n.x);
  }

  /** If a^2 + b^2 == 1 then a lies in [-1, 1]. */
  lemma SquareAtMostOne(a: real, b: real)
    requires a * a + b * b == 1.0
    ensures -1.0 <= a <= 1.0
  {
    if b >= 0.0 { MulNonneg(b, b); } else { MulNonneg(-b, -b); }
    if a > 1.0 || a < -1.0 {
      var c := if a > 1.0 then a - 1.0 else -a - 1.0;
      MulPos(c, c + 2.0);
      assert false;
    }
  }

  /**
   With lawful maths and no zero-length edge at the vertex, dilation moves
   a vertex by at most the tank radius along each axis (a max-norm
   dilation) and keeps its height.
   */
  lemma {:induction false} DilateBound(round3: real -> int, maths: Maths, m: Mesh2D, i: nat)
    requires Wf(round3, m) && i < |m.table.verts| && Lawful(maths)
    requires forall e :: e in m.vertEdges[i] ==>
               e.a < |m.table.verts| && e.b < |m.table.verts| && EdgeNormal(m.table.verts[e.a], m.table.verts[e.b]) != Zero2
    ensures var v := m.table.verts[i];
            var w := Dilate(round3, maths, m, i);
            && w.z == v.z
            && -TankRadius <= w.x - v.x <= TankRadius
            && -TankRadius <= w.y - v.y <= TankRadius
  {
    var ns := NormalsOf(maths, m.table.verts, m.vertEdges[i]);
    var s := Spread(ns);
    forall j | 0 <= j < |ns|
      ensures -1.0 <= ns[j].x <= 1.0 && -1.0 <= ns[j].y <= 1.0
    {
      var e := m.vertEdges[i][j];
      assert e in m.vertEdges[i];
      UnitComponents(ns[j]);
    }
    assert -1.0 <= s.0.x && s.1.x <= 1.0 && -1.0 <= s.0.y && s.1.y <= 1.0;
  }

  // ---------------------------------------------------------------------
  // Grid coordinates
  // ---------------------------------------------------------------------

  /** Python's `int()` of a float: truncation towards zero. */
  function Trunc(x: real): (r: int)
    ensures x >= 0.0 ==> r as real <= x < r as real + 1.0
    ensures x < 0.0 ==> r as real - 1.0 < x <= r as real
  {
    if x >= 0.0 then x.Floor else -((-x).Floor)
  }

  /** `range(k)` of a negative k is empty, so a negative grid size behaves as 0. */
  function NonNeg(k: int): nat {
    if k < 0 then 0 else k
  }

  /**
   The grid's width and height: the extent of the bounds in tiles, rounded
   half up by `int(x + 0.5)`. Without bounds the source computes
   `int(-inf)`, which raises; that is `None` here.
   */
  function GridSize(b: Bounds, tile: real): (r: Option<(nat, nat)>)
    requires tile > 0.0
    ensures r.Some? <==> b.Box?
  {
    match b
    case NoBounds => None
    case Box(lo, hi) =>
      Some((NonNeg(Trunc((hi.x - lo.x) / tile + 0.5)), NonNeg(Trunc((hi.y - lo.y) / tile + 0.5))))
  }

  /** A non-negative extent becomes the nearest whole number of tiles. */
  lemma GridSizeRounds(lo: Vec2, hi: Vec2, tile: real)
    requires tile > 0.0 && lo.x <= hi.x && lo.y <= hi.y
    ensures var r := GridSize(Box(lo, hi), tile).value;
            && (hi.x - lo.x) / tile - 0.5 < r.0 as real <= (hi.x - lo.x) / tile + 0.5
            && (hi.y - lo.y) / tile - 0.5 < r.1 as real <= (hi.y - lo.y) / tile + 0.5
  {
    DivNonneg(hi.x - lo.x, tile);
    DivNonneg(hi.y - lo.y, tile);
  }

  lemma DivNonneg(a: real, t: real)
    requires a >= 0.0 && t > 0.0
    ensures a / t >= 0.0
  {
  }

  /** `toGridPoint`: the tile a point falls in, by truncating its offset from the lower bound. */
  function GridPoint(b: Bounds, tile: real, p: Vec2): (r: Option<(int, int)>)
    requires tile > 0.0
    ensures r.Some? <==> b.Box?
  {
    match b
    case NoBounds => None
    case Box(lo, _) => Some((Trunc((p.x - lo.x) / tile), Trunc((p.y - lo.y) / tile)))
  }

  /** The lower corner of tile (x, y). */
  function CellMin(lo: Vec2, tile: real, x: int, y: int): Vec2 {
    Vec2(lo.x + x as real * tile, lo.y + y as real * tile)
  }

  /** The upper corner of tile (x, y). */
  function CellMax(lo: Vec2, tile: real, x: int, y: int): Vec2 {
    var c := CellMin(lo, tile, x, y);
    Vec2(c.x + tile, c.y + tile)
  }

  /** On one axis: a coordinate at or above the origin lies in the tile its truncated offset names. */
  lemma AxisInTile(lo: real, tile: real, p: real)
    requires tile > 0.0 && lo <= p
    ensures var k := Trunc((p - lo) / tile);
            lo + k as real * tile <= p < lo + k as real * tile + tile
  {
    var q := (p - lo) / tile;
    DivNonneg(p - lo, tile);
    DivMul(p - lo, tile);
    ScaleBetween(p - lo, tile, q, Trunc(q) as real);
  }

  lemma DivMul(d: real, t: real)
    requires t > 0.0
    ensures (d / t) * t == d
  {
  }

  /** Scaling k <= q < k + 1 by the tile size. */
  lemma ScaleBetween(d: real, tile: real, q: real, k: real)
    requires tile > 0.0 && q * tile == d && k <= q < k + 1.0
    ensures k * tile <= d < k * tile + tile
  {
    MulMonotone(k, q, tile);
    ScaleUpper(d, tile, q, k, k + 1.0);
  }

  /** The upper half, with `k + 1` named so that the solver keeps the product `(k + 1) * tile` whole. */
  lemma ScaleUpper(d: real, tile: real, q: real, k: real, k1: real)
    requires tile > 0.0 && q * tile == d && q < k1 && k1 == k + 1.0
    ensures d < k * tile + tile
  {
    MulMonotone(q, k1, tile);
    NextMul(k, k1, tile);
  }

  lemma NextMul(k: real, k1: real, t: real)
    requires k1 == k + 1.0
    ensures k1 * t == k * t + t
  {
  }

  /** Multiplying by a positive factor keeps the order. */
  lemma MulMonotone(a: real, b: real, t: real)
    requires t > 0.0
    ensures a <= b ==> a * t <= b * t
    ensures a < b ==> a * t < b * t
  {
    if a < b {
      MulPos(b - a, t);
      SubMul(b, a, t);
    }
  }

  lemma SubMul(a: real, b: real, t: real)
    ensures (a - b) * t == a * t - b * t
  {
  }

  /** A point inside the bounds lies in the tile `toGridPoint` gives it. */
  lemma GridPointInTile(lo: Vec2, hi: Vec2, tile: real, p: Vec2)
    requires tile > 0.0 && lo.x <= p.x && lo.y <= p.y
    ensures var g := GridPoint(Box(lo, hi), tile, p).value;
            var cmin := CellMin(lo, tile, g.0, g.1);
            var cmax := CellMax(lo, tile, g.0, g.1);
            cmin.x <= p.x < cmax.x && cmin.y <= p.y < cmax.y
  {
    var g := GridPoint(Box(lo, hi), tile, p).value;
    assert g == (Trunc((p.x - lo.x) / tile), Trunc((p.y - lo.y) / tile));
    AxisInTile(lo.x, tile, p.x);
    AxisInTile(lo.y, tile, p.y);
    assert CellMin(lo, tile, g.0, g.1) == Vec2(lo.x + g.0 as real * tile, lo.y + g.1 as real * tile);
  }

  // ---------------------------------------------------------------------
  // Grids
  // ---------------------------------------------------------------------

  /** A grid of tile values, row by row: `grid[y][x]`. */
  type Grid = seq<seq<nat>>

  /** A tile position (x, y). */
  type Cell = (int, int)

  predicate Shaped(g: Grid, w: nat, h: nat) {
    |g| == h && forall y :: 0 <= y < h ==> |g[y]| == w
  }

  predicate InGrid(p: Cell, w: nat, h: nat) {
    0 <= p.0 < w && 0 <= p.1 < h
  }

  function At(g: Grid, w: nat, h: nat, p: Cell): nat
    requires Shaped(g, w, h) && InGrid(p, w, h)
  {
    g[p.1][p.0]
  }

  /** The grid with tile p set to v. */
  function Put(g: Grid, w: nat, h: nat, p: Cell, v: nat): (r: Grid)
    requires Shaped(g, w, h) && InGrid(p, w, h)
    ensures Shaped(r, w, h)
    ensures At(r, w, h, p) == v
    ensures forall q :: InGrid(q, w, h) && q != p ==> At(r, w, h, q) == At(g, w, h, q)
  {
    var row: seq<nat> := g[p.1][p.0 := v];
    g[p.1 := row]
  }

  // ---------------------------------------------------------------------
  // Edge grid
  // ---------------------------------------------------------------------

  /** Edge `e` (between dilated vertices) crosses tile (x, y). */
  predicate EdgeHitsCell(lo: Vec2, tile: real, dv: seq<Vec3>, e: Edge, x: int, y: int)
    requires e.a < |dv| && e.b < |dv|
  {
    AabbVsLine(CellMin(lo, tile, x, y), CellMax(lo, tile, x, y), Drop(dv[e.a]), Drop(dv[e.b]))
  }

  /** Some collision edge crosses tile (x, y). */
  predicate CellBlocked(lo: Vec2, tile: real, dv: seq<Vec3>, edges: seq<Edge>, x: int, y: int)
    requires EdgesInRange(edges, |dv|)
  {
    exists j :: 0 <= j < |edges| && EdgeHitsCell(lo, tile, dv, edges[j], x, y)
  }

  /**
   `edgegrid`: for each tile, row by row, test the edges in order and stop
   at the first one that crosses it. The tile holds 1 exactly when some
   edge crosses it, and 0 otherwise.
   */
  method BuildEdgeGrid(lo: Vec2, tile: real, w: nat, h: nat, dv: seq<Vec3>, edges: seq<Edge>) returns (eg: Grid)
    requires EdgesInRange(edges, |dv|)
    ensures Shaped(eg, w, h)
    ensures forall y, x :: 0 <= y < h && 0 <= x < w ==>
              eg[y][x] <= 1 && (eg[y][x] == 1 <==> CellBlocked(lo, tile, dv, edges, x, y))
  {
    eg := [];
    var y := 0;
    while y < h
      invariant 0 <= y <= h
      invariant |eg| == y
      invariant forall yy :: 0 <= yy < y ==> |eg[yy]| == w
      invariant forall yy, x :: 0 <= yy < y && 0 <= x < w ==>
                  eg[yy][x] <= 1 && (eg[yy][x] == 1 <==> CellBlocked(lo, tile, dv, edges, x, yy))
    {
      var row := [];
      var x := 0;
      while x < w
        invariant 0 <= x <= w
        invariant |row| == x
        invariant forall xx :: 0 <= xx < x ==> row[xx] <= 1 && (row[xx] == 1 <==> CellBlocked(lo, tile, dv, edges, xx, y))
      {
        var hit := false;
        var i := 0;
        while !hit && i < |edges|
          invariant 0 <= i <= |edges|
          invariant hit ==> i < |edges| && EdgeHitsCell(lo, tile, dv, edges[i], x, y)
          invariant !hit ==> forall j :: 0 <= j < i ==> !EdgeHitsCell(lo, tile, dv, edges[j], x, y)
        {
          if EdgeHitsCell(lo, tile, dv, edges[i], x, y) {
            hit := true;
          } else {
            i := i + 1;
          }
        }
        row := row + [if hit then 1 else 0];
        x := x + 1;
      }
      eg := eg + [row];
      y := y + 1;
    }
  }

  // ---------------------------------------------------------------------
  // Flood fill
  // ---------------------------------------------------------------------

  /** Two different tiles that touch, along a side or at a corner. */
  predicate Adjacent(p: Cell, q: Cell) {
    p != q && -1 <= q.0 - p.0 <= 1 && -1 <= q.1 - p.1 <= 1
  }

  /** The eight neighbours in the order the fill pushes them: north first, then clockwise through +x. */
  function Neighbours(p: Cell): (ns: seq<Cell>)
    ensures |ns| == 8
    ensures forall q :: Adjacent(p, q) <==> q in ns
  {
    [(p.0, p.1 + 1), (p.0 + 1, p.1 + 1), (p.0 + 1, p.1), (p.0 + 1, p.1 - 1),
     (p.0, p.1 - 1), (p.0 - 1, p.1 - 1), (p.0 - 1, p.1), (p.0 - 1, p.1 + 1)]
  }

  /** A tile of the grid that no edge crosses. */
  predicate Open(eg: Grid, w: nat, h: nat, q: Cell)
    requires Shaped(eg, w, h)
  {
    InGrid(q, w, h) && At(eg, w, h, q) != 1
  }

  /** An 8-connected walk over open tiles. */
  ghost predicate IsPath(eg: Grid, w: nat, h: nat, path: seq<Cell>)
    requires Shaped(eg, w, h)
  {
    && |path| > 0
    && (forall i :: 0 <= i < |path| ==> Open(eg, w, h, path[i]))
    && (forall i :: 0 <= i < |path| - 1 ==> Adjacent(path[i], path[i + 1]))
  }

  /** A tank starting on `start` can drive to q without crossing an edge. */
  ghost predicate Reachable(eg: Grid, w: nat, h: nat, start: Cell, q: Cell)
    requires Shaped(eg, w, h)
  {
    exists path :: IsPath(eg, w, h, path) && path[0] == start && path[|path| - 1] == q
  }

  lemma ReachStart(eg: Grid, w: nat, h: nat, start: Cell)
    requires Shaped(eg, w, h) && Open(eg, w, h, start)
    ensures Reachable(eg, w, h, start, start)
  {
    assert IsPath(eg, w, h, [start]);
  }

  lemma ReachStep(eg: Grid, w: nat, h: nat, start: Cell, q: Cell, p: Cell)
    requires Shaped(eg, w, h) && Reachable(eg, w, h, start, q)
    requires Adjacent(q, p) && Open(eg, w, h, p)
    ensures Reachable(eg, w, h, start, p)
  {
    var path :| IsPath(eg, w, h, path) && path[0] == start && path[|path| - 1] == q;
    var path' := path + [p];
    assert IsPath(eg, w, h, path');
  }

  /** The tiles still holding 0. */
  ghost function Unseen(g: Grid, w: nat, h: nat): set<Cell>
    requires Shaped(g, w, h)
  {
    set x: int, y: int | 0 <= x < w && 0 <= y < h && g[y][x] == 0 :: (x, y)
  }

  lemma MarkShrinks(g: Grid, w: nat, h: nat, p: Cell, v: nat)
    requires Shaped(g, w, h) && InGrid(p, w, h) && At(g, w, h, p) == 0 && v != 0
    ensures |Unseen(Put(g, w, h, p, v), w, h)| < |Unseen(g, w, h)|
  {
    var g' := Put(g, w, h, p, v);
    assert Unseen(g', w, h) == Unseen(g, w, h) - {p} by {
      forall q | q in Unseen(g', w, h) ensures q in Unseen(g, w, h) - {p} {
        assert At(g', w, h, q) == 0;
      }
      forall q | q in Unseen(g, w, h) - {p} ensures q in Unseen(g', w, h) {
        assert At(g, w, h, q) == 0;
      }
    }
    assert p in Unseen(g, w, h);
  }

  lemma PutSame(g: Grid, w: nat, h: nat, p: Cell)
    requires Shaped(g, w, h) && InGrid(p, w, h)
    ensures Put(g, w, h, p, At(g, w, h, p)) == g
  {
    assert g[p.1][p.0 := g[p.1][p.0]] == g[p.1];
  }

  /** The values a tile can hold: 2 only on a crossed tile, 1 only on an open one. */
  ghost predicate Marks(eg: Grid, g: Grid, w: nat, h: nat)
    requires Shaped(eg, w, h) && Shaped(g, w, h)
  {
    forall q :: InGrid(q, w, h) ==>
      && At(g, w, h, q) <= 2
      && (At(g, w, h, q) == 2 ==> At(eg, w, h, q) == 1)
      && (At(g, w, h, q) == 1 ==> Open(eg, w, h, q))
  }

  /** Every tile marked 1 can be driven to from the start. */
  ghost predicate Sound(eg: Grid, g: Grid, w: nat, h: nat, start: Cell)
    requires Shaped(eg, w, h) && Shaped(g, w, h)
  {
    forall q :: InGrid(q, w, h) && At(g, w, h, q) == 1 ==> Reachable(eg, w, h, start, q)
  }

  /** Every tile marked 2 is the start or touches a tile marked 1: the border of the region. */
  ghost predicate Border(g: Grid, w: nat, h: nat, start: Cell)
    requires Shaped(g, w, h)
  {
    forall q :: InGrid(q, w, h) && At(g, w, h, q) == 2 ==>
      q == start || exists r :: InGrid(r, w, h) && At(g, w, h, r) == 1 && Adjacent(r, q)
  }

  /** Every tile on the stack is the start or touches a tile marked 1. */
  ghost predicate Pending(g: Grid, w: nat, h: nat, start: Cell, st: seq<Cell>)
    requires Shaped(g, w, h)
  {
    forall i :: 0 <= i < |st| ==>
      st[i] == start || exists r :: InGrid(r, w, h) && At(g, w, h, r) == 1 && Adjacent(r, st[i])
  }

  /** Each neighbour of a tile marked 1 (and the start) has been visited or is still on the stack. */
  ghost predicate Closed(g: Grid, w: nat, h: nat, start: Cell, st: seq<Cell>)
    requires Shaped(g, w, h)
  {
    && (InGrid(start, w, h) ==> At(g, w, h, start) != 0 || start in st)
    && forall q, n :: InGrid(q, w, h) && InGrid(n, w, h) && At(g, w, h, q) == 1 && Adjacent(q, n) ==>
         At(g, w, h, n) != 0 || n in st
  }

  ghost predicate FillInv(eg: Grid, g: Grid, w: nat, h: nat, start: Cell, st: seq<Cell>) {
    && Shaped(eg, w, h) && Shaped(g, w, h)
    && Marks(eg, g, w, h) && Sound(eg, g, w, h, start) && Border(g, w, h, start)
    && Pending(g, w, h, start, st) && Closed(g, w, h, start, st)
  }

  /** Popping a tile outside the grid, or one already marked, changes nothing else. */
  lemma FillSkip(eg: Grid, g: Grid, w: nat, h: nat, start: Cell, st: seq<Cell>)
    requires |st| > 0 && FillInv(eg, g, w, h, start, st)
    requires var p := st[|st| - 1]; !InGrid(p, w, h) || At(g, w, h, p) != 0
    ensures FillInv(eg, g, w, h, start, st[..|st| - 1])
  {
    PopPending(g, w, h, start, st);
    PopClosed(g, w, h, start, st);
  }

  lemma PopPending(g: Grid, w: nat, h: nat, start: Cell, st: seq<Cell>)
    requires |st| > 0 && Shaped(g, w, h) && Pending(g, w, h, start, st)
    ensures Pending(g, w, h, start, st[..|st| - 1])
  {
    var st' := st[..|st| - 1];
    assert forall i :: 0 <= i < |st'| ==> st'[i] == st[i];
  }

  lemma PopClosed(g: Grid, w: nat, h: nat, start: Cell, st: seq<Cell>)
    requires |st| > 0 && Shaped(g, w, h) && Closed(g, w, h, start, st)
    requires var p := st[|st| - 1]; !InGrid(p, w, h) || At(g, w, h, p) != 0
    ensures Closed(g, w, h, start, st[..|st| - 1])
  {
    var st' := st[..|st| - 1];
    forall n | n in st && n != st[|st| - 1] ensures n in st' {
      var i :| 0 <= i < |st| && st[i] == n;
      assert st'[i] == n;
    }
  }

  /** Popping an unmarked crossed tile marks it 2. */
  lemma FillBlocked(eg: Grid, g: Grid, w: nat, h: nat, start: Cell, st: seq<Cell>)
    requires |st| > 0 && FillInv(eg, g, w, h, start, st)
    requires var p := st[|st| - 1]; InGrid(p, w, h) && At(eg, w, h, p) == 1 && At(g, w, h, p) == 0
    ensures var p := st[|st| - 1]; FillInv(eg, Put(g, w, h, p, 2), w, h, start, st)
  {
    var p := st[|st| - 1];
    var g' := Put(g, w, h, p, 2);
    assert forall q :: InGrid(q, w, h) ==> (At(g', w, h, q) == 1 <==> At(g, w, h, q) == 1);
    BlockedMarks(eg, g, w, h, p);
    BlockedBorder(g, w, h, start, st);
    BlockedClosed(g, w, h, start, st);
  }

  lemma BlockedMarks(eg: Grid, g: Grid, w: nat, h: nat, p: Cell)
    requires Shaped(eg, w, h) && Shaped(g, w, h) && Marks(eg, g, w, h)
    requires InGrid(p, w, h) && At(eg, w, h, p) == 1
    ensures Marks(eg, Put(g, w, h, p, 2), w, h)
  {
  }

  lemma BlockedBorder(g: Grid, w: nat, h: nat, start: Cell, st: seq<Cell>)
    requires |st| > 0 && Shaped(g, w, h) && Border(g, w, h, start) && Pending(g, w, h, start, st)
    requires var p := st[|st| - 1]; InGrid(p, w, h) && At(g, w, h, p) == 0
    ensures var p := st[|st| - 1]; Border(Put(g, w, h, p, 2), w, h, start)
  {
    var p := st[|st| - 1];
    var g' := Put(g, w, h, p, 2);
    assert forall q :: InGrid(q, w, h) ==> (At(g', w, h, q) == 1 <==> At(g, w, h, q) == 1);
    assert p == start || exists r :: InGrid(r, w, h) && At(g, w, h, r) == 1 && Adjacent(r, p);
  }

  lemma BlockedClosed(g: Grid, w: nat, h: nat, start: Cell, st: seq<Cell>)
    requires |st| > 0 && Shaped(g, w, h) && Closed(g, w, h, start, st)
    requires var p := st[|st| - 1]; InGrid(p, w, h) && At(g, w, h, p) == 0
    ensures var p := st[|st| - 1]; Closed(Put(g, w, h, p, 2), w, h, start, st)
  {
    var p := st[|st| - 1];
    var g' := Put(g, w, h, p, 2);
    assert forall q :: InGrid(q, w, h) ==> (At(g', w, h, q) == 1 <==> At(g, w, h, q) == 1);
    assert forall q :: InGrid(q, w, h) && At(g, w, h, q) != 0 ==> At(g', w, h, q) != 0;
  }

  /** Popping an unmarked open tile marks it 1 and pushes its eight neighbours. */
  lemma FillOpen(eg: Grid, g: Grid, w: nat, h: nat, start: Cell, st: seq<Cell>)
    requires |st| > 0 && FillInv(eg, g, w, h, start, st)
    requires var p := st[|st| - 1]; InGrid(p, w, h) && At(eg, w, h, p) != 1 && At(g, w, h, p) == 0
    ensures var p := st[|st| - 1];
            FillInv(eg, Put(g, w, h, p, 1), w, h, start, st[..|st| - 1] + Neighbours(p))
  {
    var p := st[|st| - 1];
    var g' := Put(g, w, h, p, 1);
    var st' := st[..|st| - 1] + Neighbours(p);
    assert forall q :: InGrid(q, w, h) && At(g, w, h, q) == 1 ==> At(g', w, h, q) == 1;
    OpenSound(eg, g, w, h, start, st);
    OpenPending(g, w, h, start, st);
    OpenClosed(g, w, h, start, st);
  }

  lemma OpenSound(eg: Grid, g: Grid, w: nat, h: nat, start: Cell, st: seq<Cell>)
    requires |st| > 0 && Shaped(eg, w, h) && Shaped(g, w, h)
    requires Sound(eg, g, w, h, start) && Pending(g, w, h, start, st)
    requires var p := st[|st| - 1]; Open(eg, w, h, p) && At(g, w, h, p) == 0
    ensures Sound(eg, Put(g, w, h, st[|st| - 1], 1), w, h, start)
  {
    var p := st[|st| - 1];
    if p == start {
      ReachStart(eg, w, h, start);
    } else {
      var r :| InGrid(r, w, h) && At(g, w, h, r) == 1 && Adjacent(r, p);
      ReachStep(eg, w, h, start, r, p);
    }
  }

  lemma OpenPending(g: Grid, w: nat, h: nat, start: Cell, st: seq<Cell>)
    requires |st| > 0 && Shaped(g, w, h) && Pending(g, w, h, start, st)
    requires var p := st[|st| - 1]; InGrid(p, w, h) && At(g, w, h, p) == 0
    ensures var p := st[|st| - 1]; Pending(Put(g, w, h, p, 1), w, h, start, st[..|st| - 1] + Neighbours(p))
  {
    var p := st[|st| - 1];
    var g' := Put(g, w, h, p, 1);
    var st' := st[..|st| - 1] + Neighbours(p);
    forall i | 0 <= i < |st'|
      ensures st'[i] == start || exists r :: InGrid(r, w, h) && At(g', w, h, r) == 1 && Adjacent(r, st'[i])
    {
      if i < |st| - 1 {
        assert st'[i] == st[i];
        if st[i] != start {
          var r :| InGrid(r, w, h) && At(g, w, h, r) == 1 && Adjacent(r, st[i]);
          assert At(g', w, h, r) == 1;
        }
      } else {
        assert st'[i] in Neighbours(p);
        assert Adjacent(p, st'[i]);
        assert At(g', w, h, p) == 1;
      }
    }
  }

  lemma OpenClosed(g: Grid, w: nat, h: nat, start: Cell, st: seq<Cell>)
    requires |st| > 0 && Shaped(g, w, h) && Closed(g, w, h, start, st)
    requires var p := st[|st| - 1]; InGrid(p, w, h) && At(g, w, h, p) == 0
    ensures var p := st[|st| - 1]; Closed(Put(g, w, h, p, 1), w, h, start, st[..|st| - 1] + Neighbours(p))
  {
    var p := st[|st| - 1];
    var st' := st[..|st| - 1] + Neighbours(p);
    forall n | n in st && n != p ensures n in st' {
      var i :| 0 <= i < |st| && st[i] == n;
      assert st'[i] == n;
    }
    forall n | Adjacent(p, n) ensures n in st' {
      assert n in Neighbours(p);
    }
  }

  /**
   The flood fill from `start`: pop a tile; skip it when it lies outside
   the grid; mark it 2 and stop when an edge crosses it; skip it when it is
   already marked; otherwise mark it 1 and push its eight neighbours.
   */
  method FloodFill(eg: Grid, w: nat, h: nat, start: Cell) returns (g: Grid)
    requires Shaped(eg, w, h)
    ensures Shaped(g, w, h)
    ensures Marks(eg, g, w, h)
    ensures forall q :: InGrid(q, w, h) && At(g, w, h, q) == 1 ==> Reachable(eg, w, h, start, q)
    ensures Border(g, w, h, start)
    ensures InGrid(start, w, h) ==> At(g, w, h, start) != 0
    ensures forall q, n :: InGrid(q, w, h) && InGrid(n, w, h) && At(g, w, h, q) == 1 && Adjacent(q, n) ==>
              At(g, w, h, n) != 0
  {
    g := seq(h, y => seq(w, x => 0));
    var st := [start];
    while |st| > 0
      invariant FillInv(eg, g, w, h, start, st)
      decreases |Unseen(g, w, h)|, |st|
    {
      var p := st[|st| - 1];
      if !InGrid(p, w, h) {
        FillSkip(eg, g, w, h, start, st);
        st := st[..|st| - 1];
      } else if At(eg, w, h, p) == 1 {
        if At(g, w, h, p) == 0 {
          FillBlocked(eg, g, w, h, start, st);
          MarkShrinks(g, w, h, p, 2);
        } else {
          PutSame(g, w, h, p);
        }
        g := Put(g, w, h, p, 2);
        FillSkip(eg, g, w, h, start, st);
        st := st[..|st| - 1];
      } else if At(g, w, h, p) != 0 {
        FillSkip(eg, g, w, h, start, st);
        st := st[..|st| - 1];
      } else {
        FillOpen(eg, g, w, h, start, st);
        MarkShrinks(g, w, h, p, 1);
        g := Put(g, w, h, p, 1);
        st := st[..|st| - 1] + Neighbours(p);
      }
    }
  }

  /**
   With the start on an open tile, the fill marks 1 exactly the tiles
   reachable from it.
   */
  lemma {:induction false} FloodFillExact(eg: Grid, g: Grid, w: nat, h: nat, start: Cell, q: Cell)
    requires Shaped(eg, w, h) && Shaped(g, w, h) && Marks(eg, g, w, h)
    requires forall c :: InGrid(c, w, h) && At(g, w, h, c) == 1 ==> Reachable(eg, w, h, start, c)
    requires InGrid(start, w, h) ==> At(g, w, h, start) != 0
    requires forall c, n :: InGrid(c, w, h) && InGrid(n, w, h) && At(g, w, h, c) == 1 && Adjacent(c, n) ==>
               At(g, w, h, n) != 0
    requires Open(eg, w, h, start) && InGrid(q, w, h)
    ensures At(g, w, h, q) == 1 <==> Reachable(eg, w, h, start, q)
  {
    if Reachable(eg, w, h, start, q) {
      var path :| IsPath(eg, w, h, path) && path[0] == start && path[|path| - 1] == q;
      PathMarked(eg, g, w, h, path, |path| - 1);
    }
  }

  /** Along a walk from the start, every tile is marked 1. */
  lemma {:induction false} PathMarked(eg: Grid, g: Grid, w: nat, h: nat, path: seq<Cell>, k: nat)
    requires Shaped(eg, w, h) && Shaped(g, w, h) && Marks(eg, g, w, h)
    requires IsPath(eg, w, h, path) && k < |path|
    requires At(g, w, h, path[0]) != 0
    requires forall c, n :: InGrid(c, w, h) && InGrid(n, w, h) && At(g, w, h, c) == 1 && Adjacent(c, n) ==>
               At(g, w, h, n) != 0
    ensures At(g, w, h, path[k]) == 1
  {
    if k > 0 {
      PathMarked(eg, g, w, h, path, k - 1);
      assert Adjacent(path[k - 1], path[k]);
    }
  }

  // ---------------------------------------------------------------------
  // buildNavGrid
  // ---------------------------------------------------------------------

  /** The tiles some edge crosses, as `BuildEdgeGrid` computes them. */
  ghost function BlockedGrid(lo: Vec2, tile: real, w: nat, h: nat, dv: seq<Vec3>, edges: seq<Edge>): (eg: Grid)
    requires EdgesInRange(edges, |dv|)
    ensures Shaped(eg, w, h)
  {
    seq(h, y => seq(w, x => if CellBlocked(lo, tile, dv, edges, x, y) then 1 else 0))
  }

  /** `BuildEdgeGrid` computes exactly the blocked tiles. */
  lemma EdgeGridIsBlocked(lo: Vec2, tile: real, w: nat, h: nat, dv: seq<Vec3>, edges: seq<Edge>, eg: Grid)
    requires EdgesInRange(edges, |dv|) && Shaped(eg, w, h)
    requires forall y, x :: 0 <= y < h && 0 <= x < w ==>
               eg[y][x] <= 1 && (eg[y][x] == 1 <==> CellBlocked(lo, tile, dv, edges, x, y))
    ensures eg == BlockedGrid(lo, tile, w, h, dv, edges)
  {
    var b := BlockedGrid(lo, tile, w, h, dv, edges);
    forall y | 0 <= y < h ensures eg[y] == b[y] {
      assert forall x :: 0 <= x < w ==> eg[y][x] == b[y][x];
    }
  }

  /**
   `buildNavGrid` after `createFrom`: dilate the vertices, size the grid,
   mark the crossed tiles and flood-fill from the first spawn point's tile.
   Without bounds there is no grid.
   */
  method BuildNavGrid(round3: real -> int, maths: Maths, m: Mesh2D, spawns: seq<Vec2>) returns (r: Option<Grid>)
    requires Wf(round3, m) && |spawns| > 0
    ensures r.Some? <==> m.bounds.Box?
    ensures r.Some? ==>
              var size := GridSize(m.bounds, NavTileSize).value;
              var w := size.0;
              var h := size.1;
              var start := GridPoint(m.bounds, NavTileSize, spawns[0]).value;
              var eg := BlockedGrid(m.bounds.lo, NavTileSize, w, h, DilatedVerts(round3, maths, m), m.edges);
              && Shaped(r.value, w, h)
              && Marks(eg, r.value, w, h)
              && (forall q :: InGrid(q, w, h) && At(r.value, w, h, q) == 1 ==> Reachable(eg, w, h, start, q))
              && (Open(eg, w, h, start) ==>
                    forall q :: InGrid(q, w, h) ==> (At(r.value, w, h, q) == 1 <==> Reachable(eg, w, h, start, q)))
  {
    if m.bounds.NoBounds? {
      return None;
    }
    var dv := DilatedVerts(round3, maths, m);
    var size := GridSize(m.bounds, NavTileSize).value;
    var start := GridPoint(m.bounds, NavTileSize, spawns[0]).value;
    var eg := BuildEdgeGrid(m.bounds.lo, NavTileSize, size.0, size.1, dv, m.edges);
    EdgeGridIsBlocked(m.bounds.lo, NavTileSize, size.0, size.1, dv, m.edges, eg);
    var g := FloodFill(eg, size.0, size.1, start);
    forall q | InGrid(q, size.0, size.1) && Open(eg, size.0, size.1, start)
      ensures At(g, size.0, size.1, q) == 1 <==> Reachable(eg, size.0, size.1, start, q)
    {
      FloodFillExact(eg, g, size.0, size.1, start, q);
    }
    return Some(g);
  }
}
