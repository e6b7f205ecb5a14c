/** The small part of the `gamemath` vector library the engine's core relies
    on, over exact reals in place of `f32`. Quaternions are carried as opaque
    data: their operations belong to the library and are not modelled. */
module VecMath {

  datatype Vec2 = Vec2(x: real, y: real)

  datatype Vec3 = Vec3(x: real, y: real, z: real)

  datatype Vec4 = Vec4(x: real, y: real, z: real, w: real)

  /** A quaternion, stored but never computed with by the modelled code. */
  datatype Quat = Quat(x: real, y: real, z: real, w: real)

  const Zero2: Vec2 := Vec2(0.0, 0.0)
  const One2: Vec2 := Vec2(1.0, 1.0)
  const Zero3: Vec3 := Vec3(0.0, 0.0, 0.0)
  const One3: Vec3 := Vec3(1.0, 1.0, 1.0)
  const Zero4: Vec4 := Vec4(0.0, 0.0, 0.0, 0.0)
  const One4: Vec4 := Vec4(1.0, 1.0, 1.0, 1.0)

  /** `Quat::identity()`. */
  const IdentityQuat: Quat := Quat(0.0, 0.0, 0.0, 1.0)

  function Add(a: Vec3, b: Vec3): Vec3 {
    Vec3(a.x + b.x, a.y + b.y, a.z + b.z)
  }

  function Sub(a: Vec3, b: Vec3): Vec3 {
    Vec3(a.x - b.x, a.y - b.y, a.z - b.z)
  }

  function Scale(a: Vec3, k: real): Vec3 {
    Vec3(a.x * k, a.y * k, a.z * k)
  }

  function Dot(a: Vec3, b: Vec3): real {
    a.x * b.x + a.y * b.y + a.z * b.z
  }

  function LengthSquared(a: Vec3): real {
    Dot(a, a)
  }

  function Abs(x: real): real {
    if x < 0.0 then -x else x
  }

  /** `f32::min` on ordinary (non-NaN) values. */
  function Min(a: real, b: real): real {
    if a <= b then a else b
  }

  /** `f32::max` on ordinary (non-NaN) values. */
  function Max(a: real, b: real): real {
    if a >= b then a else b
  }

  /** The three unit axis vectors and their negations. */
  predicate IsUnitAxis(n: Vec3) {
    n in {Vec3(1.0, 0.0, 0.0), Vec3(-1.0, 0.0, 0.0),
          Vec3(0.0, 1.0, 0.0), Vec3(0.0, -1.0, 0.0),
          Vec3(0.0, 0.0, 1.0), Vec3(0.0, 0.0, -1.0)}
  }

  lemma ScaleZero(k: real)
    ensures Scale(Zero3, k) == Zero3
  {
  }

  lemma AddZero(p: Vec3)
    ensures Add(p, Zero3) == p
  {
  }
}
