/** Value types shared by the terrain model: the engine's 2D/3D vectors, a
    nullable wrapper for reference-typed fields, and the engine's clamped
    linear interpolation. Engine floats are modelled as reals. */
module Geometry {

  /** A reference that may be null (a C# array or object field). */
  datatype Option<T> = None | Some(value: T)

  /** Vector2: a surface point, a collider vertex or a texture coordinate. */
  datatype Vec2 = Vec2(x: real, y: real)

  /** Vector3: a mesh vertex or a world position. */
  datatype Vec3 = Vec3(x: real, y: real, z: real)

  /** Vector3.zero, the pose a segment is reset to. */
  const Origin: Vec3 := Vec3(0.0, 0.0, 0.0)

  /** r lies on the closed interval between a and b, whichever is smaller. */
  predicate Between(r: real, a: real, b: real)
  {
    (a <= b ==> a <= r <= b) && (b <= a ==> b <= r <= a)
  }

  /** Mathf.Clamp01: the parameter clamped to [0, 1]. */
  function Clamp01(t: real): (r: real)
    ensures 0.0 <= r <= 1.0
    ensures 0.0 <= t <= 1.0 ==> r == t
    ensures t < 0.0 ==> r == 0.0
    ensures t > 1.0 ==> r == 1.0
  {
    if t < 0.0 then 0.0 else if t > 1.0 then 1.0 else t
  }

  /** t * d. Scaling a non-negative d by a factor t in [0, 1] stays within
      [0, d]; the factor 0 gives 0 and the factor 1 gives d. */
  function Scale(t: real, d: real): (r: real)
    ensures d >= 0.0 && 0.0 <= t <= 1.0 ==> 0.0 <= r <= d
    ensures t == 0.0 ==> r == 0.0
    ensures t == 1.0 ==> r == d
  {
    if d >= 0.0 && 0.0 <= t <= 1.0 then
      assert t * d <= 1.0 * d;
      t * d
    else
      t * d
  }

  /** a / d for a positive d: 0 at a = 0, 1 at a = d, within [0, 1] for a
      in [0, d], and non-negative for a non-negative a. */
  function Fraction(a: real, d: real): (r: real)
    requires d > 0.0
    ensures 0.0 <= a ==> 0.0 <= r
    ensures a == 0.0 ==> r == 0.0
    ensures a == d ==> r == 1.0
    ensures 0.0 <= a <= d ==> 0.0 <= r <= 1.0
  {
    a / d
  }

  /** Dividing by the same positive number preserves order. */
  lemma FractionMonotone(a: real, b: real, d: real)
    requires a <= b && d > 0.0
    ensures Fraction(a, d) <= Fraction(b, d)
  {
    assert Fraction(b, d) - Fraction(a, d) == Fraction(b - a, d);
  }

  /** Mathf.Lerp(a, b, t): a + (b - a) * Clamp01(t). The result is a convex
      combination of a and b, equal to a at t <= 0 and to b at t >= 1. */
  function Lerp(a: real, b: real, t: real): (r: real)
    ensures Between(r, a, b)
    ensures t <= 0.0 ==> r == a
    ensures t >= 1.0 ==> r == b
  {
    var c := Clamp01(t);
    assert Scale(c, b - a) == -Scale(c, a - b);
    a + Scale(c, b - a)
  }
}
