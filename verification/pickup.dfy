/**
 Pickups placed along the track: gas tanks that refuel the car and oil
 spills that take control away from it for a moment.
 */
module Pickups {
  import opened Geometry

  /** `PickupType`: there are exactly two kinds. */
  datatype PickupType = GasTank | OilSpill

  datatype Pickup = Pickup(kind: PickupType, active: bool, position: Vec3, animTime: real)

  /**
   What `tryCollect` asks of the player: `Player::onGasTank` or
   `Player::onOilSpill` (both opaque callbacks here), or nothing.
   */
  datatype Effect = NoEffect | GasTankCollected | OilSpillHit

  /** `Pickup(t, pos)`: fresh pickups are active and start their animation at 0. */
  function NewPickup(kind: PickupType, position: Vec3): (pk: Pickup)
    ensures pk.kind == kind && pk.position == position
    ensures pk.active && pk.animTime == 0.0
  {
    Pickup(kind, true, position, 0.0)
  }

  /** The collection radius: 2 for a gas tank, 3 for an oil spill. */
  function TriggerRadius(kind: PickupType): real {
    match kind
    case GasTank => 2.0
    case OilSpill => 3.0
  }

  function EffectOf(kind: PickupType): Effect {
    match kind
    case GasTank => GasTankCollected
    case OilSpill => OilSpillHit
  }

  /** Squared Euclidean distance; `length(a - b) < r` iff this is `< r*r` for r >= 0. */
  function DistSq(a: Vec3, b: Vec3): real { Len3Sq(Sub3(a, b)) }

  /** Whether `length(position - playerPos) < radius`, compared squared. */
  predicate InRange(pk: Pickup, playerPos: Vec3) {
    DistSq(pk.position, playerPos) < TriggerRadius(pk.kind) * TriggerRadius(pk.kind)
  }

  /**
   `Pickup::tryCollect`: an active pickup within its radius of the player
   fires its effect and deactivates; an oil spill also restarts its
   animation clock so that it can shrink away.
   */
  function TryCollect(pk: Pickup, playerPos: Vec3): (r: (Pickup, Effect))
    ensures !pk.active ==> r == (pk, NoEffect)
    ensures r.1 != NoEffect <==> pk.active && InRange(pk, playerPos)
    ensures r.1 != NoEffect ==> r.1 == EffectOf(pk.kind) && !r.0.active
    ensures r.1 == NoEffect ==> r.0 == pk
    ensures r.0.kind == pk.kind && r.0.position == pk.position
    ensures r.1 == OilSpillHit ==> r.0.animTime == 0.0
    ensures r.1 == GasTankCollected ==> r.0.animTime == pk.animTime
  {
    if !pk.active then (pk, NoEffect)
    else
      match pk.kind
      case GasTank =>
        if InRange(pk, playerPos) then (pk.(active := false), GasTankCollected) else (pk, NoEffect)
      case OilSpill =>
        if InRange(pk, playerPos) then (pk.(active := false, animTime := 0.0), OilSpillHit) else (pk, NoEffect)
  }

  /** A pickup fires at most once: a second call after a trigger changes nothing. */
  lemma TryCollectOnce(pk: Pickup, a: Vec3, b: Vec3)
    requires TryCollect(pk, a).1 != NoEffect
    ensures TryCollect(TryCollect(pk, a).0, b) == (TryCollect(pk, a).0, NoEffect)
  {
  }

  /** What `Pickup::draw` shows this frame: nothing, or the model at a scale. */
  datatype Appearance = Hidden | Shown(scale: real)

  const AnimStep: real := 1.0 / 60.0

  /**
   The state and scale logic of `Pickup::draw`: the clock always advances by
   1/60; an inactive gas tank is not drawn; an inactive oil spill shrinks with
   scale 1 - 2*anim_time and is not drawn once that is negative.
   */
  function DrawStep(pk: Pickup): (r: (Pickup, Appearance))
    ensures r.0 == pk.(animTime := pk.animTime + AnimStep)
    ensures pk.active ==> r.1 == Shown(1.0)
    ensures !pk.active && pk.kind == GasTank ==> r.1 == Hidden
    ensures !pk.active && pk.kind == OilSpill ==>
              (r.1 == Hidden <==> 1.0 - 2.0 * r.0.animTime < 0.0)
  {
    var next := pk.(animTime := pk.animTime + AnimStep);
    match pk.kind
    case GasTank =>
      if !pk.active then (next, Hidden) else (next, Shown(1.0))
    case OilSpill =>
      var scale := if !pk.active then 1.0 - 2.0 * next.animTime else 1.0;
      if scale < 0.0 then (next, Hidden) else (next, Shown(scale))
  }

  /** `n` consecutive frames of `Pickup::draw`, returning the last appearance. */
  function DrawFrames(pk: Pickup, n: nat): (Pickup, Appearance)
    requires n >= 1
    decreases n
  {
    if n == 1 then DrawStep(pk) else DrawFrames(DrawStep(pk).0, n - 1)
  }

  lemma {:induction false} DrawFramesClock(pk: Pickup, n: nat)
    requires n >= 1
    ensures DrawFrames(pk, n).0 == pk.(animTime := pk.animTime + (n as real) * AnimStep)
    ensures DrawFrames(pk, n).1 == DrawStep(pk.(animTime := pk.animTime + ((n - 1) as real) * AnimStep)).1
    decreases n
  {
    if n > 1 {
      DrawFramesClock(DrawStep(pk).0, n - 1);
    }
  }

  /**
   An oil spill that has just been triggered (clock reset to 0) keeps being
   drawn for exactly 30 frames while it shrinks, and is hidden from then on.
   */
  lemma OilSpillShrinkOut(pk: Pickup, n: nat)
    requires pk.kind == OilSpill && !pk.active && pk.animTime == 0.0
    requires n >= 1
    ensures DrawFrames(pk, n).1 != Hidden <==> n <= 30
    ensures n <= 30 ==> DrawFrames(pk, n).1 == Shown(1.0 - (n as real) / 30.0)
  {
    DrawFramesClock(pk, n);
  }
}
