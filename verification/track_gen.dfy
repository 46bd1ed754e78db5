/**
 `Track::generate`: extrudes a chain of track segments along a biased random
 walk, drops one oil spill on every segment and appends two fixed pickups.
 The random source `randf` is an oracle: one `Draws` record per loop
 iteration holds the seven values the iteration consumes, in call order.
 */
module TrackGen {
  import opened Geometry
  import opened Pickups

  /**
   `TrackSegment`: base point, dims (x: width, y: length, z: height),
   unit direction, tangent derived from the direction, and the distance
   from the start of the track to the base point.
   */
  datatype Segment = Segment(p: Vec2, dims: Vec3, dir: Vec2, t: Vec2, distance: real)
  {
    function Width(): real { dims.x }
    function Length(): real { dims.y }
    function Height(): real { dims.z }
    /** The base point of the next segment: `p + length * dir`. */
    function End(): Vec2 { Add2(p, Scale2(dims.y, dir)) }
  }

  const MaxDistance: real := 1000.0
  const MinWidth: real := 16.0
  const MaxWidth: real := 20.0
  const MinLength: real := 20.0
  const MaxLength: real := 30.0
  const MaxHeightDelta: real := 0.0
  const AngleMaxDelta: real := 0.125 * Pi
  const InitialHeight: real := 50.0
  /** The clamp slack in `fminf(length, max_distance - distance + 0.1)`. */
  const Overshoot: real := 0.1
  /** An upper bound on the number of loop iterations (proved below). */
  const MaxSegments: nat := 50

  /**
   The seven `randf()` values one iteration of the generator loop consumes:
   width, the (ignored) difficulty roll, the obstacle's lateral and
   longitudinal offsets, the next length, the height delta and the turn.
   */
  datatype Draws = Draws(width: real, obstacle: real, offsetX: real, offsetY: real,
                         length: real, height: real, angle: real)

  predicate Unit(r: real) { 0.0 <= r <= 1.0 }

  predicate DrawsInRange(d: Draws) {
    Unit(d.width) && Unit(d.obstacle) && Unit(d.offsetX) && Unit(d.offsetY)
    && Unit(d.length) && Unit(d.height) && Unit(d.angle)
  }

  /** `rand_rangef(min, max)` with the oracle value `r` in place of `randf()`. */
  function RandRange(lo: real, hi: real, r: real): (v: real)
    requires lo <= hi && Unit(r)
    ensures lo <= v <= hi
  {
    var w := hi - lo;
    UnitScale(r, w);
    lo + r * w
  }

  lemma UnitScale(r: real, w: real)
    requires Unit(r) && 0.0 <= w
    ensures 0.0 <= r * w <= w
  {
    assert r * w <= 1.0 * w;
  }

  /** Lateral offset of the obstacle on a segment of width `w`. */
  function ObstacleX(w: real, r: real): real
    requires 4.0 <= w && Unit(r)
  {
    RandRange(-0.5 * w + 2.0, 0.5 * w - 2.0, r)
  }

  /** The oil spill placed on segment `s`: `s.p + x*s.t + y*s.dir` at the segment's height. */
  function ObstacleAt(s: Segment, d: Draws): Vec3
    requires 4.0 <= s.Width() && DrawsInRange(d)
  {
    var x := ObstacleX(s.Width(), d.offsetX);
    var y := d.offsetY * s.Length();
    Lift(Add2(Add2(s.p, Scale2(x, s.t)), Scale2(y, s.dir)), s.Height())
  }

  /** The direction before straightening: `dirFromAngle(angleFromDir(dir) + delta)`. */
  function Turned(m: Maths, dir: Vec2, r: real): Vec2
    requires Unit(r)
  {
    m.dirFromAngle(m.angleFromDir(dir) + RandRange(-AngleMaxDelta, AngleMaxDelta, r))
  }

  /** `mix(d, (0,1), 0.1*(1 - d.y^2))` followed by clamping y at 0. */
  function Straighten(d: Vec2): (v: Vec2)
    ensures v.y >= 0.0
  {
    var mixed := Mix2(d, Vec2(0.0, 1.0), 0.1 * (1.0 - d.y * d.y));
    if mixed.y < 0.0 then Vec2(mixed.x, 0.0) else mixed
  }

  /** The heading update of one generator iteration. */
  function HeadingStep(m: Maths, dir: Vec2, r: real): (nd: Vec2)
    requires Lawful(m) && Unit(r)
    ensures nd.y >= 0.0
  {
    m.normalize(Straighten(Turned(m, dir, r)))
  }

  /**
   The straightened, clamped direction vanishes only when the turned unit
   direction points straight down (-y); any other unit direction survives.
   */
  lemma StraightenZero(d: Vec2)
    requires Len2Sq(d) == 1.0
    ensures Straighten(d) == Zero2 <==> d == Vec2(0.0, -1.0)
  {
    var f := 0.1 * (1.0 - d.y * d.y);
    var mixed := Mix2(d, Vec2(0.0, 1.0), f);
    if Straighten(d) == Zero2 {
      assert mixed.x == 0.0;
      SquareUnitBound(d);
      MixFactor(d.x, f);
      NonzeroFactor(d.x, 1.0 - f);
      UnitAxis(d.y);
      StraightenUp();
    }
  }

  /** Straight ahead stays straight ahead. */
  lemma StraightenUp()
    ensures Straighten(Vec2(0.0, 1.0)) == Vec2(0.0, 1.0)
  {
  }

  /** The x part of `mix(d, (0,1), f)` is `d.x * (1 - f)`. */
  lemma MixFactor(x: real, f: real)
    ensures x + f * (0.0 - x) == x * (1.0 - f)
  {
  }

  /** Both squared components of a unit vector are at most 1. */
  lemma SquareUnitBound(d: Vec2)
    requires Len2Sq(d) == 1.0
    ensures 0.0 <= 1.0 - d.y * d.y <= 1.0
  {
  }

  lemma NonzeroFactor(a: real, b: real)
    requires a * b == 0.0 && b > 0.0
    ensures a == 0.0
  {
  }

  lemma UnitAxis(y: real)
    requires y * y == 1.0
    ensures y == 1.0 || y == -1.0
  {
    assert (y - 1.0) * (y + 1.0) == 0.0;
  }

  /** Hence the new heading is a unit vector unless the turn pointed straight down. */
  lemma HeadingStepUnit(m: Maths, dir: Vec2, r: real)
    requires Lawful(m) && Unit(r)
    requires Turned(m, dir, r) != Vec2(0.0, -1.0)
    ensures Len2Sq(HeadingStep(m, dir, r)) == 1.0
  {
    StraightenZero(Turned(m, dir, r));
  }

  /** The sum of the lengths of `segs`. */
  function SumLengths(segs: seq<Segment>): real
  {
    if |segs| == 0 then 0.0 else SumLengths(segs[..|segs| - 1]) + segs[|segs| - 1].Length()
  }

  /** The result of `generate`: segments, pickups and total length (the mesh is in TrackMesh). */
  datatype Generated = Generated(segments: seq<Segment>, pickups: seq<Pickup>, length: real)

  /** Each segment's distance is the sum of the lengths of the segments before it. */
  ghost predicate DistancesAccumulate(segs: seq<Segment>)
  {
    forall i :: 0 <= i < |segs| ==> segs[i].distance == SumLengths(segs[..i])
  }

  /** Each segment starts where the previous one ends. */
  ghost predicate Contiguous(segs: seq<Segment>)
  {
    forall i :: 0 <= i < |segs| - 1 ==> segs[i + 1].p == segs[i].End()
  }

  /** The per-segment ranges of width, height, length and heading. */
  ghost predicate SegmentInRange(s: Segment)
  {
    && MinWidth <= s.Width() <= MaxWidth
    && s.Height() == InitialHeight
    && Overshoot < s.Length() <= MaxLength
    && s.dir.y >= 0.0 && s.t == Perp(s.dir)
  }

  ghost predicate AllInRange(segs: seq<Segment>)
  {
    forall i :: 0 <= i < |segs| ==> SegmentInRange(segs[i])
  }

  /** The first segment starts at the origin heading +y with length 30. */
  ghost predicate StartsAtOrigin(segs: seq<Segment>)
  {
    |segs| > 0 ==> segs[0].p == Zero2 && segs[0].dir == Vec2(0.0, 1.0) && segs[0].Length() == MaxLength
  }

  /** The properties one generated segment chain has, segment by segment. */
  ghost predicate ChainInvariant(segs: seq<Segment>)
  {
    DistancesAccumulate(segs) && Contiguous(segs) && AllInRange(segs) && StartsAtOrigin(segs)
  }

  /** The cursor's width for iteration `r`, stamped with the distance so far. */
  function Stamp(s: Segment, distance: real, r: Draws): (seg: Segment)
    requires DrawsInRange(r)
    ensures MinWidth <= seg.Width() <= MaxWidth
  {
    s.(dims := s.dims.(x := RandRange(MinWidth, MaxWidth, r.width)), distance := distance)
  }

  /**
   The end of one iteration: move to the end of the segment just placed,
   draw and clamp the next length, add the (zero-amplitude) height delta and
   turn the heading.
   */
  function NextCursor(m: Maths, s: Segment, distance: real, r: Draws): (c: Segment)
    requires Lawful(m) && DrawsInRange(r)
    ensures c.p == s.End()
    ensures c.Length() <= MaxLength && c.Length() <= MaxDistance - distance + Overshoot
    ensures c.Length() >= MinLength || c.Length() == MaxDistance - distance + Overshoot
    ensures c.Height() == s.Height()
    ensures c.dir.y >= 0.0 && c.t == Perp(c.dir)
  {
    var len := FMin(RandRange(MinLength, MaxLength, r.length), MaxDistance - distance + Overshoot);
    var dir := HeadingStep(m, s.dir, r.angle);
    Segment(s.End(), Vec3(s.dims.x, len, s.dims.z + r.height * MaxHeightDelta), dir, Perp(dir), s.distance)
  }

  lemma SumLengthsSnoc(segs: seq<Segment>, s: Segment)
    ensures SumLengths(segs + [s]) == SumLengths(segs) + s.Length()
    ensures (segs + [s])[..|segs|] == segs
  {
    assert (segs + [s])[..|segs|] == segs;
  }

  lemma DistancesExtend(segs: seq<Segment>, s: Segment)
    requires DistancesAccumulate(segs)
    requires s.distance == SumLengths(segs)
    ensures DistancesAccumulate(segs + [s])
  {
    var segs' := segs + [s];
    forall i | 0 <= i < |segs'|
      ensures segs'[i].distance == SumLengths(segs'[..i])
    {
      if i < |segs| {
        assert segs'[..i] == segs[..i];
        assert segs'[i] == segs[i];
      } else {
        assert segs'[..i] == segs;
      }
    }
  }

  lemma ContiguousExtend(segs: seq<Segment>, s: Segment)
    requires Contiguous(segs)
    requires |segs| > 0 ==> s.p == segs[|segs| - 1].End()
    ensures Contiguous(segs + [s])
  {
    var segs' := segs + [s];
    forall i | 0 <= i < |segs'| - 1
      ensures segs'[i + 1].p == segs'[i].End()
    {
      if i + 1 < |segs| {
        assert segs'[i + 1] == segs[i + 1] && segs'[i] == segs[i];
      } else {
        assert segs'[i + 1] == s && segs'[i] == segs[|segs| - 1];
      }
    }
  }

  /** Appending a segment that continues the chain keeps the chain invariant. */
  lemma ChainExtend(segs: seq<Segment>, s: Segment)
    requires ChainInvariant(segs)
    requires s.distance == SumLengths(segs)
    requires |segs| > 0 ==> s.p == segs[|segs| - 1].End()
    requires |segs| == 0 ==> s.p == Zero2 && s.dir == Vec2(0.0, 1.0) && s.Length() == MaxLength
    requires SegmentInRange(s)
    ensures ChainInvariant(segs + [s])
  {
    DistancesExtend(segs, s);
    ContiguousExtend(segs, s);
    var segs' := segs + [s];
    forall i | 0 <= i < |segs'|
      ensures SegmentInRange(segs'[i])
    {
      if i < |segs| {
        assert segs'[i] == segs[i];
      }
    }
  }

  /** The generator's cursor: the segment about to be placed next. */
  ghost predicate CursorInvariant(segs: seq<Segment>, s: Segment, distance: real)
  {
    && (|segs| == 0 ==> distance == 0.0 && s.p == Zero2 && s.dir == Vec2(0.0, 1.0) && s.Length() == MaxLength)
    && (|segs| > 0 ==> s.p == segs[|segs| - 1].End())
    && s.Height() == InitialHeight && s.dir.y >= 0.0 && s.t == Perp(s.dir)
    && s.Length() <= MaxLength && s.Length() <= MaxDistance - distance + Overshoot
    && (s.Length() >= MinLength || s.Length() == MaxDistance - distance + Overshoot)
  }

  /** Bounds on the distance covered by `n` segments, from which the segment count follows. */
  ghost predicate CountInvariant(n: nat, distance: real)
  {
    && distance <= 30.0 * (n as real)
    && (n >= 1 ==> distance >= 20.0 * (n as real) + 10.0 || distance >= MaxDistance)
    && distance <= MaxDistance + Overshoot
  }

  ghost predicate ObstaclesPlaced(segs: seq<Segment>, pickups: seq<Pickup>, draws: seq<Draws>)
  {
    && |pickups| == |segs| <= |draws|
    && (forall i :: 0 <= i < |segs| ==> 4.0 <= segs[i].Width() && DrawsInRange(draws[i]))
    && (forall i :: 0 <= i < |segs| ==> pickups[i] == NewPickup(OilSpill, ObstacleAt(segs[i], draws[i])))
  }

  /** Fewer than 50 segments have been placed while the loop still runs. */
  lemma CountBound(n: nat, distance: real)
    requires CountInvariant(n, distance) && distance < MaxDistance
    ensures n < MaxSegments
  {
  }

  lemma CountStep(n: nat, distance: real, len: real)
    requires CountInvariant(n, distance) && distance < MaxDistance
    requires len <= MaxLength && len <= MaxDistance - distance + Overshoot
    requires len >= MinLength || len == MaxDistance - distance + Overshoot
    requires n == 0 ==> distance == 0.0 && len == MaxLength
    ensures CountInvariant(n + 1, distance + len)
  {
  }

  /** The count bounds carry over to the chain extended by the cursor's segment. */
  lemma CursorCount(segs: seq<Segment>, s: Segment, distance: real, len: real)
    requires CursorInvariant(segs, s, distance) && CountInvariant(|segs|, distance)
    requires distance < MaxDistance && len == s.Length()
    ensures CountInvariant(|segs| + 1, distance + len)
  {
    CountStep(|segs|, distance, len);
  }

  /** The segment stamped from a valid cursor is in range and continues the chain. */
  lemma StampStep(segs: seq<Segment>, s: Segment, distance: real, r: Draws)
    requires CursorInvariant(segs, s, distance) && distance < MaxDistance && DrawsInRange(r)
    ensures SegmentInRange(Stamp(s, distance, r))
    ensures Stamp(s, distance, r).Length() == s.Length()
  {
  }

  lemma CursorStep(m: Maths, segs: seq<Segment>, s: Segment, distance: real, r: Draws)
    requires Lawful(m) && DrawsInRange(r)
    requires s.Height() == InitialHeight
    ensures CursorInvariant(segs + [s], NextCursor(m, s, distance, r), distance)
  {
  }

  lemma ObstaclesStep(segs: seq<Segment>, pickups: seq<Pickup>, draws: seq<Draws>, s: Segment)
    requires ObstaclesPlaced(segs, pickups, draws)
    requires |segs| < |draws| && DrawsInRange(draws[|segs|]) && 4.0 <= s.Width()
    ensures ObstaclesPlaced(segs + [s], pickups + [NewPickup(OilSpill, ObstacleAt(s, draws[|segs|]))], draws)
  {
    var segs' := segs + [s];
    var pickups' := pickups + [NewPickup(OilSpill, ObstacleAt(s, draws[|segs|]))];
    forall i | 0 <= i < |segs'|
      ensures 4.0 <= segs'[i].Width() && DrawsInRange(draws[i])
      ensures pickups'[i] == NewPickup(OilSpill, ObstacleAt(segs'[i], draws[i]))
    {
      if i < |segs| {
        assert segs'[i] == segs[i] && pickups'[i] == pickups[i];
      }
    }
  }

  /** Everything the generator loop keeps true between iterations. */
  ghost predicate LoopInvariant(draws: seq<Draws>, segs: seq<Segment>, pickups: seq<Pickup>, s: Segment, distance: real)
  {
    && |segs| <= MaxSegments
    && ChainInvariant(segs)
    && distance == SumLengths(segs)
    && CountInvariant(|segs|, distance)
    && CursorInvariant(segs, s, distance)
    && ObstaclesPlaced(segs, pickups, draws)
  }

  /** What every step lemma below assumes: the loop is about to run one more iteration. */
  ghost predicate BeforeIteration(m: Maths, draws: seq<Draws>, segs: seq<Segment>, pickups: seq<Pickup>, s: Segment, distance: real)
  {
    && Lawful(m)
    && |draws| >= MaxSegments
    && (forall k :: 0 <= k < |draws| ==> DrawsInRange(draws[k]))
    && LoopInvariant(draws, segs, pickups, s, distance) && distance < MaxDistance
  }

  lemma ChainIteration(m: Maths, draws: seq<Draws>, segs: seq<Segment>, pickups: seq<Pickup>, s: Segment, distance: real)
    requires BeforeIteration(m, draws, segs, pickups, s, distance)
    ensures |segs| < MaxSegments
    ensures var placed := Stamp(s, distance, draws[|segs|]);
            && ChainInvariant(segs + [placed])
            && distance + placed.Length() == SumLengths(segs + [placed])
            && CountInvariant(|segs| + 1, distance + placed.Length())
  {
    CountBound(|segs|, distance);
    var r := draws[|segs|];
    var placed := Stamp(s, distance, r);
    StampStep(segs, s, distance, r);
    ChainExtend(segs, placed);
    SumLengthsSnoc(segs, placed);
    CursorCount(segs, s, distance, placed.Length());
  }

  lemma PlacementIteration(m: Maths, draws: seq<Draws>, segs: seq<Segment>, pickups: seq<Pickup>, s: Segment, distance: real)
    requires BeforeIteration(m, draws, segs, pickups, s, distance)
    requires |segs| < MaxSegments
    ensures var r := draws[|segs|];
            var placed := Stamp(s, distance, r);
            && ObstaclesPlaced(segs + [placed], pickups + [NewPickup(OilSpill, ObstacleAt(placed, r))], draws)
            && CursorInvariant(segs + [placed], NextCursor(m, placed, distance + placed.Length(), r), distance + placed.Length())
  {
    var r := draws[|segs|];
    var placed := Stamp(s, distance, r);
    ObstaclesStep(segs, pickups, draws, placed);
    CursorStep(m, segs, placed, distance + placed.Length(), r);
  }

  /** One iteration of the generator loop keeps the loop invariant. */
  lemma IterationStep(m: Maths, draws: seq<Draws>, segs: seq<Segment>, pickups: seq<Pickup>, s: Segment, distance: real)
    requires BeforeIteration(m, draws, segs, pickups, s, distance)
    ensures |segs| < MaxSegments
    ensures var r := draws[|segs|];
            var placed := Stamp(s, distance, r);
            var distance' := distance + placed.Length();
            LoopInvariant(draws, segs + [placed], pickups + [NewPickup(OilSpill, ObstacleAt(placed, r))],
                          NextCursor(m, placed, distance', r), distance')
  {
    ChainIteration(m, draws, segs, pickups, s, distance);
    PlacementIteration(m, draws, segs, pickups, s, distance);
  }

  /**
   `Track::generate`. `difficulty` is documented to lie in [0, 1] but the
   obstacle roll is short-circuited by `|| true`, so it has no effect.
   */
  method Generate(m: Maths, difficulty: real, draws: seq<Draws>) returns (g: Generated)
    requires Lawful(m)
    requires 0.0 <= difficulty <= 1.0
    requires |draws| >= MaxSegments
    requires forall k :: 0 <= k < |draws| ==> DrawsInRange(draws[k])
    ensures 34 <= |g.segments| <= MaxSegments
    ensures ChainInvariant(g.segments)
    ensures g.length == SumLengths(g.segments)
    ensures MaxDistance <= g.length <= MaxDistance + Overshoot
    ensures |g.pickups| == |g.segments| + 2
    ensures forall i :: 0 <= i < |g.segments| ==>
              g.pickups[i] == NewPickup(OilSpill, ObstacleAt(g.segments[i], draws[i]))
    ensures g.pickups[|g.segments|] == NewPickup(GasTank, Vec3(0.0, 12.0, 50.0))
    ensures g.pickups[|g.segments| + 1] == NewPickup(OilSpill, Vec3(2.0, 12.0, 50.0))
  {
    var distance := 0.0;
    var segs: seq<Segment> := [];
    var pickups: seq<Pickup> := [];
    var s := Segment(Zero2, Vec3(0.0, MaxLength, InitialHeight), Vec2(0.0, 1.0), Perp(Vec2(0.0, 1.0)), 0.0);
    InitialInvariant(draws, s);

    while distance < MaxDistance
      invariant LoopInvariant(draws, segs, pickups, s, distance)
      decreases MaxSegments - |segs|
    {
      segs, pickups, s, distance := Iterate(m, draws, segs, pickups, s, distance);
    }
    g := Generated(segs, pickups + [NewPickup(GasTank, Vec3(0.0, 12.0, 50.0)), NewPickup(OilSpill, Vec3(2.0, 12.0, 50.0))], distance);
    FinalState(draws, segs, pickups, s, distance, g);
  }

  /**
   One iteration of the generator loop: stamp the cursor as the next
   segment, drop an oil spill on it, and turn the cursor for the next one.
   */
  method Iterate(m: Maths, draws: seq<Draws>, segs: seq<Segment>, pickups: seq<Pickup>, s: Segment, distance: real)
    returns (segs': seq<Segment>, pickups': seq<Pickup>, s': Segment, distance': real)
    requires BeforeIteration(m, draws, segs, pickups, s, distance)
    ensures |segs| < MaxSegments && |segs'| == |segs| + 1
    ensures LoopInvariant(draws, segs', pickups', s', distance')
  {
    IterationStep(m, draws, segs, pickups, s, distance);
    var r := draws[|segs|];
    var placed := Stamp(s, distance, r);
    distance' := distance + placed.Length();
    // `randf() < difficulty || true`: the roll is consumed and ignored
    pickups' := pickups + [NewPickup(OilSpill, ObstacleAt(placed, r))];
    segs' := segs + [placed];
    s' := NextCursor(m, placed, distance', r);
  }

  /** What the loop invariant gives once the distance reaches 1000. */
  lemma FinalState(draws: seq<Draws>, segs: seq<Segment>, pickups: seq<Pickup>, s: Segment, distance: real, g: Generated)
    requires LoopInvariant(draws, segs, pickups, s, distance) && MaxDistance <= distance
    requires g == Generated(segs, pickups + [NewPickup(GasTank, Vec3(0.0, 12.0, 50.0)), NewPickup(OilSpill, Vec3(2.0, 12.0, 50.0))], distance)
    ensures 34 <= |g.segments| <= MaxSegments
    ensures ChainInvariant(g.segments)
    ensures g.length == SumLengths(g.segments)
    ensures MaxDistance <= g.length <= MaxDistance + Overshoot
    ensures |g.pickups| == |g.segments| + 2
    ensures forall i :: 0 <= i < |g.segments| ==>
              g.pickups[i] == NewPickup(OilSpill, ObstacleAt(g.segments[i], draws[i]))
    ensures g.pickups[|g.segments|] == NewPickup(GasTank, Vec3(0.0, 12.0, 50.0))
    ensures g.pickups[|g.segments| + 1] == NewPickup(OilSpill, Vec3(2.0, 12.0, 50.0))
  {
    FinalCount(|segs|, distance);
    FinalPickups(segs, pickups, draws);
  }

  /** Before the first iteration: no segments, and the cursor is the first segment, 30 long along +y. */
  lemma InitialInvariant(draws: seq<Draws>, s: Segment)
    requires s == Segment(Zero2, Vec3(0.0, MaxLength, InitialHeight), Vec2(0.0, 1.0), Perp(Vec2(0.0, 1.0)), 0.0)
    ensures LoopInvariant(draws, [], [], s, 0.0)
  {
  }

  /** When the loop stops, the distance bounds leave between 34 and 50 segments. */
  lemma FinalCount(n: nat, distance: real)
    requires CountInvariant(n, distance) && MaxDistance <= distance && n <= MaxSegments
    ensures 34 <= n
  {
  }

  /** The two fixed pickups come after the ones placed on the segments. */
  lemma FinalPickups(segs: seq<Segment>, pickups: seq<Pickup>, draws: seq<Draws>)
    requires ObstaclesPlaced(segs, pickups, draws)
    ensures var all := pickups + [NewPickup(GasTank, Vec3(0.0, 12.0, 50.0)), NewPickup(OilSpill, Vec3(2.0, 12.0, 50.0))];
            && |all| == |segs| + 2
            && (forall i :: 0 <= i < |segs| ==> all[i] == NewPickup(OilSpill, ObstacleAt(segs[i], draws[i])))
            && all[|segs|] == NewPickup(GasTank, Vec3(0.0, 12.0, 50.0))
            && all[|segs| + 1] == NewPickup(OilSpill, Vec3(2.0, 12.0, 50.0))
  {
  }

  /**
   Where the oil spill sits on its segment: at lateral offset x in
   [-w/2 + 2, w/2 - 2] along the tangent and y in [0, length] along the
   direction, at the segment's height.
   */
  lemma ObstacleOffsets(s: Segment, d: Draws)
    requires 4.0 <= s.Width() && DrawsInRange(d)
    ensures var x := ObstacleX(s.Width(), d.offsetX);
            var y := d.offsetY * s.Length();
            && -0.5 * s.Width() + 2.0 <= x <= 0.5 * s.Width() - 2.0
            && (0.0 <= s.Length() ==> 0.0 <= y <= s.Length())
            && ObstacleAt(s, d) == Lift(Add2(Add2(s.p, Scale2(x, s.t)), Scale2(y, s.dir)), s.Height())
  {
    var y := d.offsetY * s.Length();
    if 0.0 <= s.Length() {
      assert y <= 1.0 * s.Length();
    }
  }
}
