/** Three-component real vectors standing in for glam's `Vec3` (f32 lanes become reals). */
module Vectors {

  datatype Vec3 = Vec3(x: real, y: real, z: real)

  const Zero := Vec3(0.0, 0.0, 0.0)

  /** Lane `i` of a vector, like glam's `v[i]` (panics for i >= 3 there). */
  function Get(v: Vec3, i: nat): real
    requires i < 3
  {
    if i == 0 then v.x else if i == 1 then v.y else v.z
  }

  function Add(a: Vec3, b: Vec3): Vec3 { Vec3(a.x + b.x, a.y + b.y, a.z + b.z) }

  function Sub(a: Vec3, b: Vec3): Vec3 { Vec3(a.x - b.x, a.y - b.y, a.z - b.z) }

  function Scale(a: Vec3, s: real): Vec3 { Vec3(a.x * s, a.y * s, a.z * s) }

  function MinReal(a: real, b: real): real { if a < b then a else b }

  function MaxReal(a: real, b: real): real { if a > b then a else b }

  /** glam's lane-wise `Vec3::min`. */
  function Min(a: Vec3, b: Vec3): Vec3 { Vec3(MinReal(a.x, b.x), MinReal(a.y, b.y), MinReal(a.z, b.z)) }

  /** glam's lane-wise `Vec3::max`. */
  function Max(a: Vec3, b: Vec3): Vec3 { Vec3(MaxReal(a.x, b.x), MaxReal(a.y, b.y), MaxReal(a.z, b.z)) }

  /** Lane-wise `a <= b`. */
  predicate LessEq(a: Vec3, b: Vec3) { a.x <= b.x && a.y <= b.y && a.z <= b.z }
}
