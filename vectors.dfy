/** Python's `None`-or-value results (`Sphere.intersect`, `Scene.closest`). */
module Options {
  datatype Option<+T> = None | Some(value: T)
}

/**
 * Three-component vectors over exact reals, standing in for `glm.vec3`,
 * together with the square-root oracle that `glm.length` and
 * `glm.normalize` are built on.
 *
 * The square root is not computable over the reals in Dafny, so every
 * operation that needs one takes it as a parameter `sqrt` and requires
 * `IsSqrt(sqrt)`: on non-negative arguments it returns the non-negative root.
 */
module Vectors {

  datatype Vec3 = Vec3(x: real, y: real, z: real)

  /** The zero vector: the only vector whose squared norm is zero. */
  predicate IsZero(v: Vec3) {
    Dot(v, v) == 0.0
  }

  function Add(u: Vec3, v: Vec3): Vec3 {
    Vec3(u.x + v.x, u.y + v.y, u.z + v.z)
  }

  function Sub(u: Vec3, v: Vec3): Vec3 {
    Vec3(u.x - v.x, u.y - v.y, u.z - v.z)
  }

  /** `v * k` (and `k * v`) in glm: every component multiplied by `k`. */
  function Scale(v: Vec3, k: real): Vec3 {
    Vec3(k * v.x, k * v.y, k * v.z)
  }

  /** `glm.dot` */
  function Dot(u: Vec3, v: Vec3): real {
    u.x * v.x + u.y * v.y + u.z * v.z
  }

  /** The square-root oracle: the non-negative root of every non-negative real. */
  ghost predicate IsSqrt(sqrt: real -> real) {
    forall x: real :: 0.0 <= x ==> 0.0 <= sqrt(x) && sqrt(x) * sqrt(x) == x
  }

  /** `glm.length`: the Euclidean norm, a non-negative root of the squared norm. */
  function Length(v: Vec3, sqrt: real -> real): (r: real)
    requires IsSqrt(sqrt)
    ensures 0.0 <= r && r * r == Dot(v, v)
  {
    DotSelfNonnegative(v);
    sqrt(Dot(v, v))
  }

  /**
   * `glm.normalize`: `v` scaled by the inverse of its length. When the
   * length is not zero the result is a unit vector pointing the way `v`
   * points (its dot product with `v` is the length of `v`). glm yields a
   * vector of NaNs when the length is zero; the model returns `v`, which is
   * then the zero vector, and its users treat that as the NaN vector.
   */
  function Normalize(v: Vec3, sqrt: real -> real): (r: Vec3)
    requires IsSqrt(sqrt)
    ensures Length(v, sqrt) == 0.0 <==> IsZero(r)
    ensures Length(v, sqrt) != 0.0 ==> Dot(r, r) == 1.0 && Dot(r, v) == Length(v, sqrt)
  {
    var len := Length(v, sqrt);
    if len == 0.0 then v
    else
      NormalizedIsUnit(v, len);
      Scale(v, 1.0 / len)
  }

  /** A squared norm is never negative. */
  lemma DotSelfNonnegative(v: Vec3)
    ensures 0.0 <= Dot(v, v)
  {
    SquareNonnegative(v.x);
    SquareNonnegative(v.y);
    SquareNonnegative(v.z);
  }

  lemma SquareNonnegative(a: real)
    ensures 0.0 <= a * a
  {
    if a < 0.0 {
      assert a * a == (-a) * (-a);
    }
  }

  lemma PositiveProduct(x: real, y: real)
    requires 0.0 < x && 0.0 < y
    ensures 0.0 < x * y
  {
  }

  lemma NonnegativeProduct(x: real, y: real)
    requires 0.0 <= x && 0.0 <= y
    ensures 0.0 <= x * y
  {
  }

  /** Squaring is monotone on the non-negative reals. */
  lemma SquareMonotone(s: real, b: real)
    requires 0.0 <= s <= b
    ensures s * s <= b * b
  {
    NonnegativeProduct(s, b - s);
    NonnegativeProduct(b, b - s);
    assert s * (b - s) == s * b - s * s;
    assert b * (b - s) == b * b - s * b;
  }

  /** A non-negative number whose square exceeds `b * b` exceeds both `b` and `-b`. */
  lemma RootExceeds(s: real, b: real)
    requires 0.0 <= s && s * s > b * b
    ensures s > b && s > -b
  {
    if b >= s { SquareMonotone(s, b); }
    if -b >= s { SquareMonotone(s, -b); }
  }

  /** Between non-negative numbers, a smaller square means a smaller number. */
  lemma RootBelow(s: real, b: real)
    requires 0.0 <= s && 0.0 <= b && s * s < b * b
    ensures s < b
  {
    if b <= s { SquareMonotone(b, s); }
  }

  lemma NormalizedIsUnit(v: Vec3, len: real)
    requires 0.0 < len && len * len == Dot(v, v)
    ensures Dot(Scale(v, 1.0 / len), Scale(v, 1.0 / len)) == 1.0
    ensures Dot(Scale(v, 1.0 / len), v) == len
  {
    var k := 1.0 / len;
    assert Dot(Scale(v, k), Scale(v, k)) == (k * k) * Dot(v, v);
    assert Dot(Scale(v, k), v) == k * Dot(v, v);
  }

  /** The dot product is linear in its first argument. */
  lemma DotLinear(u: Vec3, v: Vec3, w: Vec3, k: real)
    ensures Dot(Add(u, v), w) == Dot(u, w) + Dot(v, w)
    ensures Dot(Scale(u, k), w) == k * Dot(u, w)
  {
  }
}
