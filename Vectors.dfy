/** Three-component vectors over the reals, for velocities, positions and Euler angles. */
module Vectors {

  datatype Vec3 = Vec3(x: real, y: real, z: real)

  const Zero: Vec3 := Vec3(0.0, 0.0, 0.0)

  function Scale(v: Vec3, k: real): (r: Vec3)
  {
    Vec3(k * v.x, k * v.y, k * v.z)
  }

  /** The squared Euclidean length. */
  function Norm2(v: Vec3): real
  {
    v.x * v.x + v.y * v.y + v.z * v.z
  }

  /** Scaling by k multiplies the squared length by k * k. */
  lemma ScaleNorm2(v: Vec3, k: real)
    ensures Norm2(Scale(v, k)) == k * k * Norm2(v)
  {
    calc {
      Norm2(Scale(v, k));
      (k * v.x) * (k * v.x) + (k * v.y) * (k * v.y) + (k * v.z) * (k * v.z);
      k * k * (v.x * v.x) + k * k * (v.y * v.y) + k * k * (v.z * v.z);
      k * k * Norm2(v);
    }
  }
}
