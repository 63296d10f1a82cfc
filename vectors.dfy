/**
 * Three-dimensional points and 3x3 matrices over the reals, standing in for
 * the double-precision vecmath types Vector3d and Matrix3d, and the two ways
 * the source turns a real coordinate into an integer one.
 */
module Vectors {

  datatype Vec3 = Vec3(x: real, y: real, z: real)

  const Zero: Vec3 := Vec3(0.0, 0.0, 0.0)

  function Add(u: Vec3, v: Vec3): Vec3 {
    Vec3(u.x + v.x, u.y + v.y, u.z + v.z)
  }

  function Sub(u: Vec3, v: Vec3): Vec3 {
    Vec3(u.x - v.x, u.y - v.y, u.z - v.z)
  }

  function Scale(k: real, v: Vec3): Vec3 {
    Vec3(k * v.x, k * v.y, k * v.z)
  }

  function Neg(v: Vec3): Vec3 {
    Vec3(-v.x, -v.y, -v.z)
  }

  function Dot(u: Vec3, v: Vec3): real {
    u.x * v.x + u.y * v.y + u.z * v.z
  }

  lemma NegatedProducts(a: real, b: real, c: real, d: real, e: real, f: real)
    ensures (-a) * d + (-b) * e + (-c) * f == -(a * d + b * e + c * f)
  {
  }

  /** Negating one argument negates the dot product. */
  lemma DotNegLeft(u: Vec3, w: Vec3)
    ensures Dot(Neg(u), w) == -Dot(u, w)
  {
    NegatedProducts(u.x, u.y, u.z, w.x, w.y, w.z);
  }

  lemma MulPositive(x: real, y: real)
    requires x > 0.0 && y > 0.0
    ensures x * y > 0.0
  {
  }

  lemma SumOfSquaresNonNegative(a: real, b: real, c: real)
    ensures a * a + b * b + c * c >= 0.0
  {
    assert a * a >= 0.0;
    assert b * b >= 0.0;
    assert c * c >= 0.0;
  }

  /** The squared length of a vector is never negative. */
  lemma DotSelfNonNegative(u: Vec3)
    ensures Dot(u, u) >= 0.0
  {
    SumOfSquaresNonNegative(u.x, u.y, u.z);
  }

  function Abs(r: real): real {
    if r < 0.0 then -r else r
  }

  /** A 3x3 matrix kept as its three column vectors. */
  datatype Mat3 = Mat3(col0: Vec3, col1: Vec3, col2: Vec3) {

    function Column(i: nat): Vec3
      requires i < 3
    {
      if i == 0 then col0 else if i == 1 then col1 else col2
    }

    function WithColumn(i: nat, v: Vec3): (m: Mat3)
      requires i < 3
      ensures m.Column(i) == v
      ensures forall j :: 0 <= j < 3 && j != i ==> m.Column(j) == Column(j)
    {
      if i == 0 then Mat3(v, col1, col2)
      else if i == 1 then Mat3(col0, v, col2)
      else Mat3(col0, col1, v)
    }

    /** Row i, the vector (M_i0, M_i1, M_i2). */
    function Row(i: nat): Vec3
      requires i < 3
    {
      if i == 0 then Vec3(col0.x, col1.x, col2.x)
      else if i == 1 then Vec3(col0.y, col1.y, col2.y)
      else Vec3(col0.z, col1.z, col2.z)
    }

    /** The matrix-vector product M v: coordinate i is row i dotted with v. */
    function Times(v: Vec3): Vec3 {
      Vec3(Dot(Row(0), v), Dot(Row(1), v), Dot(Row(2), v))
    }
  }

  const ZeroMatrix: Mat3 := Mat3(Zero, Zero, Zero)

  const Identity: Mat3 := Mat3(Vec3(1.0, 0.0, 0.0), Vec3(0.0, 1.0, 0.0), Vec3(0.0, 0.0, 1.0))

  /**
   * Java's narrowing cast `(long) r`: truncation toward zero. The result is
   * never farther from zero than r and lies within one unit of it.
   */
  function Trunc(r: real): (t: int)
    ensures r >= 0.0 ==> 0 <= t && t as real <= r < t as real + 1.0
    ensures r < 0.0 ==> t <= 0 && t as real - 1.0 < r <= t as real
  {
    if r >= 0.0 then r.Floor else -((-r).Floor)
  }

  /** Java's Math.round on a double: the floor of r + 1/2. */
  function Round(r: real): (t: int)
    ensures t as real - 0.5 <= r < t as real + 0.5
  {
    (r + 0.5).Floor
  }

  /** Truncating r + 1/2 gives back a non-negative integer i. */
  lemma TruncOfHalfAbove(i: int)
    requires i >= 0
    ensures Trunc(i as real + 0.5) == i
  {
  }
}
