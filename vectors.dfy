/** Three-component vectors over the reals, standing for the `double[3]`
    arrays of raycast.c, and the square root as an oracle. */
module Vectors {

  datatype Vec3 = Vec3(x: real, y: real, z: real)

  const Origin := Vec3(0.0, 0.0, 0.0)

  /** `sqr` of raycast.c. */
  function Sqr(v: real): (r: real)
    ensures r >= 0.0
  {
    v * v
  }

  function Dot(u: Vec3, v: Vec3): real
  {
    u.x * v.x + u.y * v.y + u.z * v.z
  }

  function SquaredLength(v: Vec3): (r: real)
    ensures r >= 0.0
  {
    Sqr(v.x) + Sqr(v.y) + Sqr(v.z)
  }

  function Add(u: Vec3, v: Vec3): Vec3
  {
    Vec3(u.x + v.x, u.y + v.y, u.z + v.z)
  }

  function Sub(u: Vec3, v: Vec3): Vec3
  {
    Vec3(u.x - v.x, u.y - v.y, u.z - v.z)
  }

  function Scale(v: Vec3, q: real): Vec3
  {
    Vec3(v.x * q, v.y * q, v.z * q)
  }

  /** The point reached after travelling distance `t` along the ray. */
  function At(ro: Vec3, rd: Vec3, t: real): Vec3
  {
    Add(ro, Scale(rd, t))
  }

  /** `s` is a square root of `d` whenever `d` has one. */
  predicate SqrtWitness(s: real, d: real)
  {
    d >= 0.0 ==> s >= 0.0 && s * s == d
  }

  /** `sqrt` of math.h, taken as a parameter: on every non-negative
      argument it returns the non-negative square root. */
  ghost predicate IsSqrt(sqrt: real -> real)
  {
    forall d :: SqrtWitness(sqrt(d), d)
  }

  lemma ScaleSquaredLength(v: Vec3, q: real)
    ensures SquaredLength(Scale(v, q)) == q * q * SquaredLength(v)
  {
  }

  /** `normalize` of raycast.c, on values: the vector divided by its length. */
  function Normalize(v: Vec3, sqrt: real -> real): (u: Vec3)
    requires IsSqrt(sqrt)
    requires SquaredLength(v) > 0.0
    ensures SquaredLength(u) == 1.0
    ensures exists q :: q > 0.0 && u == Scale(v, q)
  {
    var len := sqrt(SquaredLength(v));
    assert SqrtWitness(len, SquaredLength(v));
    assert len > 0.0;
    var u := Vec3(v.x / len, v.y / len, v.z / len);
    assert u == Scale(v, 1.0 / len);
    ScaleSquaredLength(v, 1.0 / len);
    assert (1.0 / len) * (1.0 / len) * (len * len) == 1.0;
    u
  }
}
