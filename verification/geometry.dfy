/** Plane geometry shared by the sketch, and the library numerics it calls. */
module Geometry {

  /** A point or vector in the plane (the sketch's `Vec2`, with `f32` read as `real`). */
  datatype Vec2 = Vec2(x: real, y: real)

  /** An axis-aligned rectangle given by its four edges, as nannou's `Rect`
      reports them through `left()`, `right()`, `bottom()` and `top()`. */
  datatype Rect = Rect(left: real, right: real, bottom: real, top: real)
  {
    /** `Rect::pad`: every edge moves inward by `p`. The result is a rectangle
        inside this one only while `2 * p` is at most the width and the height;
        beyond that its left edge passes its right edge (or bottom passes top). */
    function Pad(p: real): Rect
    {
      Rect(left + p, right - p, bottom + p, top - p)
    }

    /** Padding by `p >= 0` with `2 * p` at most the width and the height gives an
        ordered rectangle inside this one, `2 * p` narrower and `2 * p` lower. */
    lemma PadInside(p: real)
      requires 0.0 <= p && 2.0 * p <= right - left && 2.0 * p <= top - bottom
      ensures var r := Pad(p);
              && left <= r.left <= r.right <= right && bottom <= r.bottom <= r.top <= top
              && r.right - r.left == right - left - 2.0 * p
              && r.top - r.bottom == top - bottom - 2.0 * p
    {
    }

    /** Padding by more than half the width leaves the left edge past the right one. */
    lemma PadPastCenter(p: real)
      requires 2.0 * p > right - left
      ensures Pad(p).left > Pad(p).right
    {
    }
  }

  /** The library numerics the sketch calls and this model does not define:
      `f32::sin`, `f32::cos`, `Vec2::angle_between` and `Vec2::distance`.
      They are supplied from outside; the lemmas that need something of them
      say so in their requires clauses. */
  datatype Numerics = Numerics(
    sin: real -> real,
    cos: real -> real,
    angleBetween: (Vec2, Vec2) -> real,
    distance: (Vec2, Vec2) -> real)

  /** The sine of `a` lies in [-1, 1]. */
  predicate SinInRange(num: Numerics, a: real)
  {
    -1.0 <= num.sin(a) <= 1.0
  }

  /** Both the sine and the cosine of `a` lie in [-1, 1]. */
  predicate SinCosInRange(num: Numerics, a: real)
  {
    SinInRange(num, a) && -1.0 <= num.cos(a) <= 1.0
  }

  /** sin²(a) + cos²(a) = 1: true of the real functions, and of `f32` up to rounding. */
  predicate OnUnitCircle(num: Numerics, a: real)
  {
    num.sin(a) * num.sin(a) + num.cos(a) * num.cos(a) == 1.0
  }

  /** `f32::min` on ordinary (non-NaN) values. */
  function Min(a: real, b: real): real
  {
    if a <= b then a else b
  }

  /** The square of `a`, for stating distances without a square root. */
  function Sq(a: real): real
  {
    a * a
  }
}
