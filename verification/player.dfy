/**
 The car: its three-flag life cycle (alive, fell off the track, exploded),
 the half-off-track and oil-spill timers, the pedal curves, the engine
 brake, the steering selection and the per-frame track check.
 */
module Players {
  import opened Wrappers
  import opened Geometry
  import opened TrackGen
  import opened TrackQuery

  const OilSpillDuration: real := 0.5
  const ExplosionDuration: real := 1.0
  const HalfOffTrackDuration: real := 1.0
  /** Seconds of falling before the car explodes. */
  const FallBeforeExplosion: real := 1.5
  const MaxSteeringAngle: real := 0.125 * Pi
  /** `24 / 0.5`: the speed at which the acceleration curve reaches zero. */
  const MaxSpeed: real := 48.0
  const BrakeDeceleration: real := 60.0
  const EngineBrakeDeceleration: real := 20.0
  /** The engine brake leaves a reversing car creeping at this speed. */
  const ReverseCreep: real := -0.001
  const Drag: real := 0.998
  const Gravity: real := 10.0
  const JumpUp: real := 4.0
  const Nudge: real := 5.0
  const StartY: real := 4.0
  const StartHeight: real := 50.0

  /** A button as the input layer reports it: held this frame, and newly pressed this frame. */
  datatype ButtonState = ButtonState(down: bool, pressed: bool)

  datatype Controls = Controls(
    steerLeft: ButtonState, steerRight: ButtonState,
    accelerate: ButtonState, decelerate: ButtonState)

  /** The simulation state of `Player`; model handles and animation actions are left out. */
  datatype Player = Player(
    alive: bool, fellOffTrack: bool, exploded: bool,
    fuel: real, distance: real,
    position: Vec3, speed: real, heading: real,
    oilSpill: real,
    velocity: Vec3, offTrackTime: real, offTrackYAngle: real,
    explosionTime: real, explosionCenter: Vec3,
    centerOnTrack: bool, leftOnTrack: bool, rightOnTrack: bool,
    timeHalfOffTrack: real)

  // ---------------------------------------------------------------------
  // Life-cycle states
  // ---------------------------------------------------------------------

  /** The enumeration the three flags stand in for. */
  datatype PlayerState = Alive | FellOffTrack | Exploded

  /** The flag triple (alive, fell_off_track, exploded) each state is stored as. */
  function FlagsOf(st: PlayerState): (bool, bool, bool) {
    match st
    case Alive => (true, false, false)
    case FellOffTrack => (false, true, false)
    case Exploded => (false, true, true)
  }

  /** The state a flag triple encodes, if it encodes one. */
  function StateOf(p: Player): (r: Option<PlayerState>)
    ensures r.Some? ==> FlagsOf(r.value) == (p.alive, p.fellOffTrack, p.exploded)
  {
    if p.alive && !p.fellOffTrack && !p.exploded then Some(Alive)
    else if !p.alive && p.fellOffTrack && !p.exploded then Some(FellOffTrack)
    else if !p.alive && p.fellOffTrack && p.exploded then Some(Exploded)
    else None
  }

  /** exploded ==> fell_off_track ==> !alive, and alive ==> neither. */
  predicate FlagsConsistent(p: Player) {
    && (p.exploded ==> p.fellOffTrack)
    && (p.fellOffTrack ==> !p.alive)
    && (!p.alive ==> p.fellOffTrack)
  }

  /** The consistent flag triples are exactly the encodings of the three states, one each. */
  lemma StateFlagsRoundTrip(p: Player, st: PlayerState)
    ensures StateOf(p).Some? <==> FlagsConsistent(p)
    ensures FlagsOf(st) == (p.alive, p.fellOffTrack, p.exploded) ==> StateOf(p) == Some(st)
  {
  }

  /** How far along the life cycle a state is. */
  function Rank(st: PlayerState): nat {
    match st
    case Alive => 0
    case FellOffTrack => 1
    case Exploded => 2
  }

  /** No step goes back along the life cycle. */
  predicate NoRevival(p: Player, q: Player) {
    StateOf(p).Some? ==> StateOf(q).Some? && Rank(StateOf(q).value) >= Rank(StateOf(p).value)
  }

  // ---------------------------------------------------------------------
  // Events
  // ---------------------------------------------------------------------

  /**
   `Player::reset`: alive, no oil, full tank, no distance, heading along +y,
   at y = 4 and height 50. Speed, x, the timers and the probe flags are not
   touched.
   */
  function Reset(m: Maths, p: Player): (r: Player)
    ensures StateOf(r) == Some(Alive)
    ensures r.oilSpill == 0.0 && r.fuel == 1.0 && r.distance == 0.0
    ensures r.heading == m.angleFromDir(Vec2(0.0, 1.0))
    ensures r.position == Vec3(p.position.x, StartY, StartHeight)
    ensures r.speed == p.speed && r.timeHalfOffTrack == p.timeHalfOffTrack
    ensures r.velocity == p.velocity && r.offTrackTime == p.offTrackTime
    ensures r.explosionTime == p.explosionTime && r.explosionCenter == p.explosionCenter
    ensures (r.leftOnTrack, r.centerOnTrack, r.rightOnTrack) == (p.leftOnTrack, p.centerOnTrack, p.rightOnTrack)
  {
    p.(alive := true, fellOffTrack := false, exploded := false, oilSpill := 0.0,
       fuel := 1.0, distance := 0.0,
       heading := m.angleFromDir(Vec2(0.0, 1.0)),
       position := p.position.(y := StartY, z := StartHeight))
  }

  /**
   `Player::init` ends with `reset`; before it only the two fields with
   default initialisers have defined values, so `garbage` stands for the
   rest.
   */
  function Init(m: Maths, garbage: Player): (r: Player)
    ensures StateOf(r) == Some(Alive) && FlagsConsistent(r)
    ensures r.oilSpill == 0.0 && r.timeHalfOffTrack == 0.0
    ensures r.fuel == 1.0 && r.distance == 0.0
  {
    Reset(m, garbage.(oilSpill := 0.0, timeHalfOffTrack := 0.0))
  }

  /**
   `Player::onFellOffTrack`: the car leaves the alive state and is thrown
   along its heading at its current speed, upward at 4, and 5 sideways away
   from each side probe that was off the track.
   */
  function OnFellOffTrack(m: Maths, p: Player): (r: Player)
    ensures r.fellOffTrack && !r.alive && r.exploded == p.exploded
    ensures r.offTrackTime == 0.0 && r.offTrackYAngle == 0.0
    ensures Drop(r.velocity).y == p.speed * m.dirFromAngle(p.heading).y
    ensures r.velocity.z == JumpUp
    ensures r.velocity.x == p.speed * m.dirFromAngle(p.heading).x
                            - (if p.leftOnTrack then 0.0 else Nudge)
                            + (if p.rightOnTrack then 0.0 else Nudge)
    ensures r.position == p.position && r.speed == p.speed && r.heading == p.heading
    ensures r.oilSpill == p.oilSpill && r.timeHalfOffTrack == p.timeHalfOffTrack
    ensures r.distance == p.distance && r.fuel == p.fuel
    ensures r.explosionTime == p.explosionTime && r.explosionCenter == p.explosionCenter
  {
    var v := Lift(Scale2(p.speed, m.dirFromAngle(p.heading)), JumpUp);
    var v1 := if !p.leftOnTrack then v.(x := v.x - Nudge) else v;
    var v2 := if !p.rightOnTrack then v1.(x := v1.x + Nudge) else v1;
    p.(fellOffTrack := true, alive := false, offTrackTime := 0.0, offTrackYAngle := 0.0, velocity := v2)
  }

  /** With both side probes off (or both on) the sideways nudges cancel. */
  lemma FallNudgesCancel(m: Maths, p: Player)
    requires p.leftOnTrack == p.rightOnTrack
    ensures OnFellOffTrack(m, p).velocity == Lift(Scale2(p.speed, m.dirFromAngle(p.heading)), JumpUp)
  {
  }

  /** `Player::onExploded`: the explosion starts one unit above the car, with its clock at 0. */
  function OnExploded(p: Player): (r: Player)
    ensures r.exploded && !r.alive && r.fellOffTrack == p.fellOffTrack
    ensures r.explosionCenter == Add3(p.position, Vec3(0.0, 0.0, 1.0))
    ensures r.explosionTime == 0.0
    ensures r.position == p.position && r.velocity == p.velocity && r.speed == p.speed
    ensures r.offTrackTime == p.offTrackTime && r.heading == p.heading
  {
    p.(exploded := true, alive := false,
       explosionCenter := Add3(p.position, Vec3(0.0, 0.0, 1.0)), explosionTime := 0.0)
  }

  // ---------------------------------------------------------------------
  // Track check
  // ---------------------------------------------------------------------

  /**
   `Player::checkTrack`: a no-op unless alive. Otherwise it probes the track
   one unit to the left of the car, one unit to the right and at the car
   itself. The centre probe writes the distance along the track whenever the
   search finds a segment; if the centre is on the road the car is put at
   the traced height, otherwise it falls off.
   */
  function CheckTrack(m: Maths, segs: seq<Segment>, p: Player): (r: Player)
    requires |segs| >= 1
    ensures !p.alive ==> r == p
    ensures p.alive ==>
              var here := Drop(p.position);
              var t := m.dirFromAngle(p.heading - 0.5 * Pi);
              var center := TraceZ(m, segs, here);
              && r.leftOnTrack == TraceZ(m, segs, Sub2(here, t)).onTrack
              && r.rightOnTrack == TraceZ(m, segs, Add2(here, t)).onTrack
              && r.centerOnTrack == center.onTrack
              && r.distance == (if center.distance.Some? then center.distance.value else p.distance)
              && (center.onTrack ==> r.alive && r.position == p.position.(z := center.z.value))
              && (!center.onTrack ==> r.fellOffTrack && !r.alive && Drop(r.position) == here)
    ensures r.speed == p.speed && r.heading == p.heading && r.exploded == p.exploded
  {
    if !p.alive then p
    else
      var t := m.dirFromAngle(p.heading - 0.5 * Pi);
      var here := Drop(p.position);
      var left := TraceZ(m, segs, Sub2(here, t));
      var right := TraceZ(m, segs, Add2(here, t));
      var center := TraceZ(m, segs, here);
      var probed := p.(leftOnTrack := left.onTrack, rightOnTrack := right.onTrack,
                       centerOnTrack := center.onTrack,
                       distance := if center.distance.Some? then center.distance.value else p.distance);
      if center.onTrack then probed.(position := probed.position.(z := center.z.value))
      else OnFellOffTrack(m, probed)
  }

  /** The track check keeps the flags consistent and never moves back along the life cycle. */
  lemma CheckTrackKeepsState(m: Maths, segs: seq<Segment>, p: Player)
    requires |segs| >= 1 && FlagsConsistent(p)
    ensures FlagsConsistent(CheckTrack(m, segs, p))
    ensures NoRevival(p, CheckTrack(m, segs, p))
  {
  }

  /**
   On a generated track whose road quads are non-degenerate, a car that
   passes the track check alive rides at the track's height of 50.
   */
  lemma CheckTrackHeight(m: Maths, segs: seq<Segment>, p: Player)
    requires Lawful(m) && |segs| >= 1 && ChainInvariant(segs) && RoadsNondegenerate(segs)
    requires p.alive
    ensures CheckTrack(m, segs, p).alive ==> CheckTrack(m, segs, p).position.z == InitialHeight
  {
    TraceZHeight(m, segs, Drop(p.position));
  }

  // ---------------------------------------------------------------------
  // Driving rules
  // ---------------------------------------------------------------------

  /** The throttle curve: 24 at standstill, falling by half the speed, never negative. */
  function Acceleration(speed: real): (a: real)
    ensures a >= 0.0
    ensures a == 0.0 <==> speed >= MaxSpeed
    ensures speed < MaxSpeed ==> a == 24.0 - 0.5 * speed
  {
    FMax(24.0 - 0.5 * speed, 0.0)
  }

  /** Braking at 60 while moving forward; otherwise the reverse gear, 12 + 1.6 speed, never negative. */
  function Deceleration(speed: real): (d: real)
    ensures d >= 0.0
    ensures speed > 0.0 ==> d == BrakeDeceleration
    ensures speed <= 0.0 ==> (d == 0.0 <==> speed <= -7.5)
    ensures -7.5 < speed <= 0.0 ==> d == 12.0 + 1.6 * speed
  {
    if speed > 0.0 then BrakeDeceleration else FMax(12.0 + 1.6 * speed, 0.0)
  }

  /**
   The engine brake applied when neither pedal is held: positive speeds drop
   by 20 dt but not below 0; speeds below -0.001 rise by 20 dt but not above
   -0.001.
   */
  function EngineBrake(dt: real, speed: real): real {
    var s1 := if speed > 0.0 then FMax0(speed - dt * EngineBrakeDeceleration) else speed;
    if s1 < ReverseCreep then
      var s2 := s1 + dt * EngineBrakeDeceleration;
      if s2 > ReverseCreep then ReverseCreep else s2
    else s1
  }

  /** `if (x < 0) x = 0` */
  function FMax0(x: real): real { if x < 0.0 then 0.0 else x }

  /**
   For a non-negative time step the engine brake moves speed toward zero by
   20 dt without crossing: positive speeds end in [0, speed], speeds below
   -0.001 end in [speed, -0.001], and speeds in [-0.001, 0] stay put.
   */
  lemma EngineBrakeTowardZero(dt: real, speed: real)
    requires dt >= 0.0
    ensures speed > 0.0 ==> 0.0 <= EngineBrake(dt, speed) <= speed
    ensures speed > 0.0 && speed >= dt * EngineBrakeDeceleration ==>
              EngineBrake(dt, speed) == speed - dt * EngineBrakeDeceleration
    ensures speed < ReverseCreep ==> speed <= EngineBrake(dt, speed) <= ReverseCreep
    ensures speed < ReverseCreep && speed + dt * EngineBrakeDeceleration <= ReverseCreep ==>
              EngineBrake(dt, speed) == speed + dt * EngineBrakeDeceleration
    ensures ReverseCreep <= speed <= 0.0 ==> EngineBrake(dt, speed) == speed
  {
  }

  /** The engine brake settles: a second application from a settled speed changes nothing. */
  lemma EngineBrakeSettles(dt: real, speed: real)
    requires dt >= 0.0
    requires ReverseCreep <= EngineBrake(dt, speed) <= 0.0
    ensures EngineBrake(dt, EngineBrake(dt, speed)) == EngineBrake(dt, speed)
  {
  }

  /**
   The pedals: the throttle adds dt times the acceleration; the brake takes
   off dt times the deceleration but, unless pressed anew this frame, stops
   at 0 instead of reversing; with neither pedal held the engine brake acts.
   An oil spill (`disabled`) zeroes both curves.
   */
  function Pedals(c: Controls, dt: real, speed: real, disabled: bool): real {
    var acc := if disabled then 0.0 else Acceleration(speed);
    var dec := if disabled then 0.0 else Deceleration(speed);
    var s1 := if c.accelerate.down then speed + dt * acc else speed;
    var s2 :=
      if c.decelerate.down then
        var braked := s1 - dt * dec;
        if s1 >= 0.0 && braked < 0.0 && !c.decelerate.pressed then 0.0 else braked
      else s1;
    if !c.accelerate.down && !c.decelerate.down then EngineBrake(dt, s2) else s2
  }

  /** Holding the brake, without pressing it anew, never turns a forward-or-still car into reverse. */
  lemma BrakeStopsAtZero(c: Controls, dt: real, speed: real, disabled: bool)
    requires dt >= 0.0 && speed >= 0.0
    requires !c.decelerate.pressed
    ensures Pedals(c, dt, speed, disabled) >= 0.0
  {
    var acc := if disabled then 0.0 else Acceleration(speed);
    assert dt * acc >= 0.0;
  }

  /** A fresh press of the brake from standstill engages the reverse gear at 12 dt. */
  lemma PressToReverse(c: Controls, dt: real)
    requires dt > 0.0
    requires c.decelerate.down && c.decelerate.pressed && !c.accelerate.down
    ensures Pedals(c, dt, 0.0, false) == -12.0 * dt
    ensures Pedals(c, dt, 0.0, false) < 0.0
  {
  }

  /** With the throttle alone and frames no longer than 2 s, speed below 48 never passes 48. */
  lemma ThrottleBelowMaxSpeed(c: Controls, dt: real, speed: real, disabled: bool)
    requires 0.0 <= dt <= 2.0 && speed <= MaxSpeed
    requires c.accelerate.down && !c.decelerate.down
    ensures speed <= Pedals(c, dt, speed, disabled) <= MaxSpeed
  {
    if !disabled && speed < MaxSpeed {
      assert Pedals(c, dt, speed, disabled) == speed + dt * (24.0 - 0.5 * speed);
      assert speed + dt * (24.0 - 0.5 * speed) == MaxSpeed - (1.0 - 0.5 * dt) * (MaxSpeed - speed);
      assert (1.0 - 0.5 * dt) * (MaxSpeed - speed) >= 0.0;
    }
  }

  /** During an oil spill the pedals do nothing except through the engine brake. */
  lemma OilSpillPedals(c: Controls, dt: real, speed: real)
    ensures c.accelerate.down || c.decelerate.down ==>
              Pedals(c, dt, speed, true) == speed
    ensures !c.accelerate.down && !c.decelerate.down ==>
              Pedals(c, dt, speed, true) == EngineBrake(dt, speed)
  {
  }

  /** Steering: full left for left alone, full right for right alone, straight otherwise. */
  function SteeringAngle(c: Controls): (a: real)
    ensures a == MaxSteeringAngle <==> c.steerLeft.down && !c.steerRight.down
    ensures a == -MaxSteeringAngle <==> c.steerRight.down && !c.steerLeft.down
    ensures a == 0.0 <==> c.steerLeft.down == c.steerRight.down
  {
    var a := 0.0;
    var a1 := if c.steerLeft.down && !c.steerRight.down then MaxSteeringAngle else a;
    if c.steerRight.down && !c.steerLeft.down then -MaxSteeringAngle else a1
  }

  /** The speed-scaled steering angle, `angle * (48 - speed) / 48`. */
  function ScaledSteering(angle: real, speed: real): real {
    angle * (MaxSpeed - speed) / MaxSpeed
  }

  /**
   Between standstill and 48 the scaled angle keeps the sign of the chosen
   angle and shrinks linearly to 0 at 48; beyond 48 the sign flips.
   */
  lemma SteeringScale(angle: real, speed: real)
    ensures 0.0 <= speed <= MaxSpeed && angle >= 0.0 ==> 0.0 <= ScaledSteering(angle, speed) <= angle
    ensures 0.0 <= speed <= MaxSpeed && angle <= 0.0 ==> angle <= ScaledSteering(angle, speed) <= 0.0
    ensures ScaledSteering(angle, MaxSpeed) == 0.0 && ScaledSteering(angle, 0.0) == angle
    ensures speed > MaxSpeed && angle > 0.0 ==> ScaledSteering(angle, speed) < 0.0
  {
    if 0.0 <= speed <= MaxSpeed && angle >= 0.0 {
      assert angle * (MaxSpeed - speed) <= angle * MaxSpeed;
    }
    if 0.0 <= speed <= MaxSpeed && angle <= 0.0 {
      assert angle * (MaxSpeed - speed) >= angle * MaxSpeed;
    }
    if speed > MaxSpeed && angle > 0.0 {
      assert angle * (MaxSpeed - speed) < 0.0;
    }
  }

  /** The oil-spill clock: while positive it runs down by dt, clamped at 0; otherwise it is left alone. */
  function OilStep(oil: real, dt: real): (r: real)
    ensures oil <= 0.0 ==> r == oil
    ensures oil > 0.0 ==> r >= 0.0
    ensures oil > 0.0 && oil >= dt ==> r == oil - dt
    ensures oil > 0.0 && oil < dt ==> r == 0.0
  {
    if oil > 0.0 then FMax0(oil - dt) else oil
  }

  /**
   For a positive step the oil clock stays between 0 and its old value,
   drops exactly while time is left, and reaches 0 exactly when no more
   than one step is left.
   */
  lemma OilSpillRunsOut(oil: real, dt: real)
    requires dt > 0.0 && 0.0 <= oil
    ensures 0.0 <= OilStep(oil, dt) <= oil
    ensures OilStep(oil, dt) < oil <==> oil > 0.0
    ensures OilStep(oil, dt) == 0.0 <==> oil <= dt
  {
  }

  /**
   The half-off-track timer: grows by dt while a side probe is off, is reset
   when both are on, and makes the car fall only once strictly above 1 s.
   */
  function HalfOffStep(m: Maths, p: Player, dt: real): (r: Player)
    ensures p.leftOnTrack && p.rightOnTrack ==> r == p.(timeHalfOffTrack := 0.0)
    ensures !(p.leftOnTrack && p.rightOnTrack) ==> r.timeHalfOffTrack == p.timeHalfOffTrack + dt
    ensures r.fellOffTrack != p.fellOffTrack || r.alive != p.alive ==>
              !(p.leftOnTrack && p.rightOnTrack) && p.timeHalfOffTrack + dt > HalfOffTrackDuration
    ensures !(p.leftOnTrack && p.rightOnTrack) && p.timeHalfOffTrack + dt > HalfOffTrackDuration ==>
              r.fellOffTrack && !r.alive
    ensures r.speed == p.speed && r.position == p.position && r.heading == p.heading
  {
    if !p.leftOnTrack || !p.rightOnTrack then
      var q := p.(timeHalfOffTrack := p.timeHalfOffTrack + dt);
      if q.timeHalfOffTrack > HalfOffTrackDuration then OnFellOffTrack(m, q) else q
    else p.(timeHalfOffTrack := 0.0)
  }

  /** Reaching exactly 1 s half off the track is not yet a fall. */
  lemma HalfOffThresholdStrict(m: Maths, p: Player, dt: real)
    requires p.alive && !p.fellOffTrack && !p.leftOnTrack
    requires p.timeHalfOffTrack + dt == HalfOffTrackDuration
    ensures HalfOffStep(m, p, dt).alive
  {
  }

  // ---------------------------------------------------------------------
  // Tick
  // ---------------------------------------------------------------------

  /**
   One frame of a car that is not alive: a fallen car keeps falling under
   gravity (explosion once 1.5 s have passed), an exploded car's explosion
   clock runs. Speed, heading and everything else stay put.
   */
  function DeadTick(m: Maths, dt: real, p: Player): Player
    requires !p.alive
  {
    var p1 :=
      if p.fellOffTrack then
        var timed := p.(offTrackTime := p.offTrackTime + dt);
        var q := if !timed.exploded && timed.offTrackTime > FallBeforeExplosion then OnExploded(timed) else timed;
        var yAngle := q.offTrackYAngle + dt * 2.0 * Dot2(m.dirFromAngle(q.heading - 0.5 * Pi), Drop(q.velocity));
        var v := Add3(q.velocity, Scale3(dt, Vec3(0.0, 0.0, -Gravity)));
        q.(offTrackYAngle := yAngle, velocity := v, position := Add3(q.position, Scale3(dt, v)))
      else p;
    if p1.exploded then p1.(explosionTime := p1.explosionTime + dt) else p1
  }

  /**
   One frame of a live car: the oil clock, the half-off timer (which may
   make the car fall, after which the rest of the frame still runs), the
   pedals, drag, the speed-scaled steering and the bicycle move.
   */
  function LiveTick(m: Maths, c: Controls, dt: real, p: Player): Player
    requires p.alive
  {
    Drive(m, HalfOffStep(m, p.(oilSpill := OilStep(p.oilSpill, dt)), dt), LiveSpeed(c, dt, p), FrontSteer(c, dt, p), dt)
  }

  /** The new speed of a live car: the pedals' speed after drag, with the controls disabled during an oil spill. */
  function LiveSpeed(c: Controls, dt: real, p: Player): real {
    Pedals(c, dt, p.speed, p.oilSpill > 0.0) * Drag
  }

  /** The front wheel's steering: the speed-scaled angle, or straight during an oil spill. */
  function FrontSteer(c: Controls, dt: real, p: Player): (steer: real)
    ensures p.oilSpill > 0.0 || c.steerLeft.down == c.steerRight.down ==> steer == 0.0
    ensures p.oilSpill <= 0.0 && 0.0 <= LiveSpeed(c, dt, p) <= MaxSpeed ==>
              -MaxSteeringAngle <= steer <= MaxSteeringAngle
  {
    SteeringScale(SteeringAngle(c), LiveSpeed(c, dt, p));
    if p.oilSpill > 0.0 then 0.0 else ScaledSteering(SteeringAngle(c), LiveSpeed(c, dt, p))
  }

  /** The car after the bicycle move at the given speed and front-wheel steering. */
  function Drive(m: Maths, q: Player, speed: real, steer: real, dt: real): (r: Player)
    ensures r.speed == speed && r.position.z == q.position.z
    ensures Drop(r.position) == Add2(Drop(q.position),
                 Scale2(dt * speed, Add2(Dir(m, q.heading + steer), Dir(m, q.heading))))
  {
    var mv := BicycleStep(m, q.position, q.heading, dt * speed, steer);
    BicycleDisplacement(m, q.position, q.heading, dt * speed, steer);
    q.(speed := speed, position := mv.0, heading := mv.1)
  }

  /** The unit direction of a heading, `dirFromAngle`. */
  function Dir(m: Maths, a: real): Vec2 { m.dirFromAngle(a) }

  /** The heading of a direction, `angleFromDir(normalize(v))`. */
  function HeadingOf(m: Maths, v: Vec2): real { m.angleFromDir(m.normalize(v)) }

  /**
   The bicycle move: both wheels, one unit ahead and 0.9 behind the car
   along its heading, roll `travel` units, the front one along the heading
   turned by `steer`. The car's position follows the wheels' sum and its new
   heading points from the back wheel to the front wheel.
   */
  function BicycleStep(m: Maths, position: Vec3, heading: real, travel: real, steer: real): (Vec3, real) {
    var front := Dir(m, heading);
    var back := Scale2(-0.9, Dir(m, heading));
    var lifted := Sub3(position, Lift(Add2(front, back), 0.0));
    var front' := Add2(front, Scale2(travel, Dir(m, heading + steer)));
    var back' := Add2(back, Scale2(travel, Dir(m, heading)));
    (Add3(lifted, Lift(Add2(front', back'), 0.0)), HeadingOf(m, Sub2(front', back')))
  }

  /**
   The wheels' offsets cancel: the car moves by `travel` along the back
   wheel's heading plus `travel` along the front wheel's, in the plane.
   */
  lemma BicycleDisplacement(m: Maths, position: Vec3, heading: real, travel: real, steer: real)
    ensures var r := BicycleStep(m, position, heading, travel, steer).0;
            && r.z == position.z
            && Drop(r) == Add2(Drop(position),
                 Scale2(travel, Add2(Dir(m, heading + steer), Dir(m, heading))))
    ensures steer == 0.0 ==>
              Drop(BicycleStep(m, position, heading, travel, steer).0)
              == Add2(Drop(position), Scale2(2.0 * travel, Dir(m, heading)))
  {
    var d := Dir(m, heading);
    var e := Dir(m, heading + steer);
    var r := BicycleStep(m, position, heading, travel, steer).0;
    assert r.x == position.x + travel * (e.x + d.x);
    assert r.y == position.y + travel * (e.y + d.y);
  }

  /** `Player::tick`: it never writes the fuel or the distance, and it can take the car out of play but never back in. */
  function Tick(m: Maths, c: Controls, dt: real, p: Player): (r: Player)
    ensures r.fuel == p.fuel && r.distance == p.distance
    ensures r.alive ==> p.alive
  {
    if !p.alive then DeadTick(m, dt, p) else LiveTick(m, c, dt, p)
  }

  /** A tick keeps the flags consistent and never moves back along the life cycle. */
  lemma TickKeepsState(m: Maths, c: Controls, dt: real, p: Player)
    requires FlagsConsistent(p)
    ensures FlagsConsistent(Tick(m, c, dt, p))
    ensures NoRevival(p, Tick(m, c, dt, p))
  {
  }

  /**
   While not alive a tick touches only the fall and explosion state: speed,
   heading, fuel, distance, the oil and half-off clocks and the probe flags
   stay; the vertical velocity drops by 10 dt; the explosion happens at most
   once, in the frame where the fall clock first passes 1.5 s.
   */
  lemma DeadTickFrame(m: Maths, c: Controls, dt: real, p: Player)
    requires !p.alive
    ensures var r := Tick(m, c, dt, p);
            && !r.alive && r.fellOffTrack == p.fellOffTrack
            && r.speed == p.speed && r.heading == p.heading
            && r.fuel == p.fuel && r.distance == p.distance
            && r.oilSpill == p.oilSpill && r.timeHalfOffTrack == p.timeHalfOffTrack
            && (r.leftOnTrack, r.centerOnTrack, r.rightOnTrack) == (p.leftOnTrack, p.centerOnTrack, p.rightOnTrack)
    ensures var r := Tick(m, c, dt, p);
            p.fellOffTrack ==>
              && r.offTrackTime == p.offTrackTime + dt
              && r.velocity == Vec3(p.velocity.x, p.velocity.y, p.velocity.z - dt * Gravity)
              && r.position == Add3(p.position, Scale3(dt, r.velocity))
    ensures var r := Tick(m, c, dt, p);
            !p.fellOffTrack ==> r == (if p.exploded then p.(explosionTime := p.explosionTime + dt) else p)
    ensures var r := Tick(m, c, dt, p);
            p.exploded ==> r.exploded && r.explosionCenter == p.explosionCenter
                           && r.explosionTime == p.explosionTime + dt
    ensures var r := Tick(m, c, dt, p);
            p.fellOffTrack && !p.exploded ==>
              && (r.exploded <==> p.offTrackTime + dt > FallBeforeExplosion)
              && (r.exploded ==> r.explosionCenter == Add3(p.position, Vec3(0.0, 0.0, 1.0))
                                 && r.explosionTime == dt)
  {
  }

  /**
   A live tick moves the car, in the plane and at constant height, by dt
   times the new speed along the back wheel's heading plus the front
   wheel's steered heading, which is straight during an oil spill.
   */
  lemma LiveTickMove(m: Maths, c: Controls, dt: real, p: Player)
    requires p.alive
    ensures Drop(Tick(m, c, dt, p).position) == Add2(Drop(p.position),
              Scale2(dt * LiveSpeed(c, dt, p), Add2(Dir(m, p.heading + FrontSteer(c, dt, p)), Dir(m, p.heading))))
  {
    var p2 := LiveTickDrives(m, c, dt, p);
  }

  /** Under an oil spill, or with the steering straight, both wheels roll along the heading. */
  lemma LiveTickStraight(m: Maths, c: Controls, dt: real, p: Player)
    requires p.alive
    requires p.oilSpill > 0.0 || c.steerLeft.down == c.steerRight.down
    ensures Drop(Tick(m, c, dt, p).position)
            == Add2(Drop(p.position), Scale2(2.0 * dt * LiveSpeed(c, dt, p), Dir(m, p.heading)))
  {
    ZeroSteerMove(m, c, dt, p);
  }

  /** A live tick whose front wheel points straight moves the car twice the travel along its heading. */
  lemma ZeroSteerMove(m: Maths, c: Controls, dt: real, p: Player)
    requires p.alive && FrontSteer(c, dt, p) == 0.0
    ensures Drop(Tick(m, c, dt, p).position)
            == Add2(Drop(p.position), Scale2(2.0 * dt * LiveSpeed(c, dt, p), Dir(m, p.heading)))
  {
    var p2 := LiveTickDrives(m, c, dt, p);
    DriveStraight(m, p2, LiveSpeed(c, dt, p), FrontSteer(c, dt, p), dt);
  }

  /** Driving with the front wheel straight moves the car twice the travel along its heading. */
  lemma DriveStraight(m: Maths, q: Player, speed: real, steer: real, dt: real)
    requires steer == 0.0
    ensures Drop(Drive(m, q, speed, steer, dt).position)
            == Add2(Drop(q.position), Scale2(2.0 * dt * speed, Dir(m, q.heading)))
  {
    StraightSum(m, Drop(q.position), q.heading, steer, dt, speed, Drop(Drive(m, q, speed, steer, dt).position));
  }

  /** With the front wheel straight, the bicycle displacement is twice the travel along the heading. */
  lemma StraightSum(m: Maths, start: Vec2, heading: real, steer: real, dt: real, speed: real, moved: Vec2)
    requires steer == 0.0
    requires moved == Add2(start, Scale2(dt * speed, Add2(Dir(m, heading + steer), Dir(m, heading))))
    ensures moved == Add2(start, Scale2(2.0 * dt * speed, Dir(m, heading)))
  {
    assert heading + steer == heading;
    ScaleDouble(dt, speed, Dir(m, heading));
  }

  /** Rolling both wheels along one direction moves the car twice as far along it. */
  lemma ScaleDouble(dt: real, s: real, d: Vec2)
    ensures Scale2(dt * s, Add2(d, d)) == Scale2(2.0 * dt * s, d)
  {
  }

  /** A live tick keeps the car's height (only the track check sets it) and takes the new speed. */
  lemma LiveTickHeight(m: Maths, c: Controls, dt: real, p: Player)
    requires p.alive
    ensures Tick(m, c, dt, p).position.z == p.position.z
    ensures Tick(m, c, dt, p).speed == LiveSpeed(c, dt, p)
  {
    var p2 := LiveTickDrives(m, c, dt, p);
  }

  /** A live tick is the bicycle move from the car after its timers, which keep it in place. */
  lemma LiveTickDrives(m: Maths, c: Controls, dt: real, p: Player) returns (p2: Player)
    requires p.alive
    ensures p2.position == p.position && p2.heading == p.heading
    ensures Tick(m, c, dt, p) == Drive(m, p2, LiveSpeed(c, dt, p), FrontSteer(c, dt, p), dt)
  {
    p2 := HalfOffStep(m, p.(oilSpill := OilStep(p.oilSpill, dt)), dt);
  }

  /**
   A live tick runs the oil clock down, and while the spill lasts the
   throttle and brake only pass through; the new speed is the pedals' speed
   after drag.
   */
  lemma LiveTickSpeed(m: Maths, c: Controls, dt: real, p: Player)
    requires p.alive
    ensures var r := Tick(m, c, dt, p);
            && r.oilSpill == OilStep(p.oilSpill, dt)
            && r.speed == Pedals(c, dt, p.speed, p.oilSpill > 0.0) * Drag
            && r.fuel == p.fuel && r.distance == p.distance
    ensures var r := Tick(m, c, dt, p);
            p.oilSpill > 0.0 && c.accelerate.down ==> r.speed == p.speed * Drag
  {
  }

  /** One frame of the game loop: `player.tick` then `player.checkTrack`. */
  function Frame(m: Maths, segs: seq<Segment>, c: Controls, dt: real, p: Player): Player
    requires |segs| >= 1
  {
    CheckTrack(m, segs, Tick(m, c, dt, p))
  }

  /** A frame keeps the flags consistent and never moves back along the life cycle. */
  lemma FrameKeepsState(m: Maths, segs: seq<Segment>, c: Controls, dt: real, p: Player)
    requires |segs| >= 1 && FlagsConsistent(p)
    ensures FlagsConsistent(Frame(m, segs, c, dt, p)) && NoRevival(p, Frame(m, segs, c, dt, p))
  {
    TickKeepsState(m, c, dt, p);
    CheckTrackKeepsState(m, segs, Tick(m, c, dt, p));
  }

  /** Once the car has fallen off, no run of frames brings it back; only `reset` does. */
  lemma {:induction false} FallenStaysDown(m: Maths, segs: seq<Segment>, cs: seq<Controls>, dt: real, p: Player)
    requires |segs| >= 1 && FlagsConsistent(p) && p.fellOffTrack
    ensures var r := Frames(m, segs, cs, dt, p);
            FlagsConsistent(r) && r.fellOffTrack && !r.alive && (p.exploded ==> r.exploded)
    decreases |cs|
  {
    if |cs| > 0 {
      var q := Frame(m, segs, cs[0], dt, p);
      FrameKeepsState(m, segs, cs[0], dt, p);
      assert StateOf(q).Some? && Rank(StateOf(q).value) >= 1;
      FallenStaysDown(m, segs, cs[1..], dt, q);
    }
  }

  /** Frames driven by a sequence of control inputs, with a fixed time step. */
  function Frames(m: Maths, segs: seq<Segment>, cs: seq<Controls>, dt: real, p: Player): Player
    requires |segs| >= 1
    decreases |cs|
  {
    if |cs| == 0 then p else Frames(m, segs, cs[1..], dt, Frame(m, segs, cs[0], dt, p))
  }
}
