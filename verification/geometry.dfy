/** Option/Result wrappers shared by every module of the model. */
module Wrappers {

  datatype Option<+T> = None | Some(value: T)

  /** The outcome of code whose failure mode is a Python `assert` or a C `assert`. */
  datatype Result<+T> = Ok(value: T) | AssertionFailed
}

/**
 Vector arithmetic over unbounded reals, standing in for the `vec2`/`vec3` float
 types of the game and for `mathutils.Vector` in the asset tools.
 */
module Geometry {

  datatype Vec2 = Vec2(x: real, y: real)
  datatype Vec3 = Vec3(x: real, y: real, z: real)

  const Zero2: Vec2 := Vec2(0.0, 0.0)
  const Zero3: Vec3 := Vec3(0.0, 0.0, 0.0)

  /** `M_PI` as a double literal; only used to form the angle constants of the source. */
  const Pi: real := 3.141592653589793

  function Add2(a: Vec2, b: Vec2): Vec2 { Vec2(a.x + b.x, a.y + b.y) }
  function Sub2(a: Vec2, b: Vec2): Vec2 { Vec2(a.x - b.x, a.y - b.y) }
  function Scale2(k: real, a: Vec2): Vec2 { Vec2(k * a.x, k * a.y) }
  function Dot2(a: Vec2, b: Vec2): real { a.x * b.x + a.y * b.y }
  function Len2Sq(a: Vec2): real { Dot2(a, a) }

  /** `mix(a, b, f)`: linear interpolation from a to b. */
  function Mix2(a: Vec2, b: Vec2, f: real): Vec2 { Add2(a, Scale2(f, Sub2(b, a))) }

  function Add3(a: Vec3, b: Vec3): Vec3 { Vec3(a.x + b.x, a.y + b.y, a.z + b.z) }
  function Sub3(a: Vec3, b: Vec3): Vec3 { Vec3(a.x - b.x, a.y - b.y, a.z - b.z) }
  function Scale3(k: real, a: Vec3): Vec3 { Vec3(k * a.x, k * a.y, k * a.z) }
  function Dot3(a: Vec3, b: Vec3): real { a.x * b.x + a.y * b.y + a.z * b.z }
  function Len3Sq(a: Vec3): real { Dot3(a, a) }

  function Cross(a: Vec3, b: Vec3): Vec3 {
    Vec3(a.y * b.z - a.z * b.y, a.z * b.x - a.x * b.z, a.x * b.y - a.y * b.x)
  }

  /** `v3(p, z)` */
  function Lift(p: Vec2, z: real): Vec3 { Vec3(p.x, p.y, z) }
  /** `v2(p)` */
  function Drop(p: Vec3): Vec2 { Vec2(p.x, p.y) }

  function Min(a: real, b: real): real { if a <= b then a else b }
  function Max(a: real, b: real): real { if a >= b then a else b }

  /** C's `fminf` / `fmaxf` on ordinary (non-NaN) operands. */
  function FMin(a: real, b: real): real { if b < a then b else a }
  function FMax(a: real, b: real): real { if b > a then b else a }

  /**
   The transcendental helpers of the game's maths library. They are kept
   abstract: the model only relies on the facts listed in `Lawful`.
   */
  datatype Maths = Maths(
    dirFromAngle: real -> Vec2,
    angleFromDir: Vec2 -> real,
    normalize: Vec2 -> Vec2,
    normalize3: Vec3 -> Vec3)

  /**
   The facts the code relies on: `dirFromAngle` yields a unit vector,
   `normalize` yields a unit vector for a non-zero input and keeps a
   non-negative y component non-negative, and `normalize3` of a non-zero
   vector points the same way as its input.
   */
  ghost predicate Lawful(m: Maths) {
    && (forall a: real :: Len2Sq(m.dirFromAngle(a)) == 1.0)
    && (forall v: Vec2 :: v != Zero2 ==> Len2Sq(m.normalize(v)) == 1.0)
    && (forall v: Vec2 :: v.y >= 0.0 ==> m.normalize(v).y >= 0.0)
    && (forall v: Vec3 :: v != Zero3 ==> Cross(m.normalize3(v), v) == Zero3 && Dot3(m.normalize3(v), v) > 0.0)
  }

  /** `v2(dir.y, -dir.x)`: the tangent the track derives from a direction. */
  function Perp(d: Vec2): Vec2
  {
    Vec2(d.y, -d.x)
  }

  /** The tangent is perpendicular to the direction and as long as it. */
  lemma PerpOrthogonal(d: Vec2)
    ensures Dot2(Perp(d), d) == 0.0
    ensures Len2Sq(Perp(d)) == Len2Sq(d)
  {
  }
}
