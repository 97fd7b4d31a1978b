/** The attractor (`Point`): one position that sweeps its bounding box along two
    sinusoids of elapsed time. */
module Attractor {
  import opened Geometry

  /** nannou's `map_range`: the affine map that sends `inMin` to `outMin` and
      `inMax` to `outMax`. */
  function MapRange(v: real, inMin: real, inMax: real, outMin: real, outMax: real): real
    requires inMin != inMax
  {
    (v - inMin) / (inMax - inMin) * (outMax - outMin) + outMin
  }

  /** The ends of the input range go to the ends of the output range. */
  lemma MapRangeEndpoints(inMin: real, inMax: real, outMin: real, outMax: real)
    requires inMin != inMax
    ensures MapRange(inMin, inMin, inMax, outMin, outMax) == outMin
    ensures MapRange(inMax, inMin, inMax, outMin, outMax) == outMax
  {
    assert (inMax - inMin) / (inMax - inMin) == 1.0;
  }

  /** A share of a positive whole lies in [0, 1]. */
  lemma UnitFraction(part: real, whole: real)
    requires whole > 0.0 && 0.0 <= part <= whole
    ensures 0.0 <= part / whole <= 1.0
  {
    var t := part / whole;
    assert t * whole == part;
    assert (1.0 - t) * whole == whole - part;
  }

  /** A value inside the input range lands inside the output range. */
  lemma MapRangeWithin(v: real, inMin: real, inMax: real, outMin: real, outMax: real)
    requires inMin < inMax && inMin <= v <= inMax
    requires outMin <= outMax
    ensures outMin <= MapRange(v, inMin, inMax, outMin, outMax) <= outMax
  {
    var t := (v - inMin) / (inMax - inMin);
    UnitFraction(v - inMin, inMax - inMin);
    var d := outMax - outMin;
    assert 0.0 <= t * d;
    assert 0.0 <= (1.0 - t) * d;
    assert t * d + (1.0 - t) * d == d;
  }

  /** Mapping with an increasing input range and an ordered output range preserves order. */
  lemma MapRangeMonotone(u: real, v: real, inMin: real, inMax: real, outMin: real, outMax: real)
    requires inMin < inMax && outMin <= outMax && u <= v
    ensures MapRange(u, inMin, inMax, outMin, outMax) <= MapRange(v, inMin, inMax, outMin, outMax)
  {
    var w := inMax - inMin;
    assert (u - inMin) / w <= (v - inMin) / w;
  }

  /** Mapping back from the output range to the input range recovers the value. */
  lemma MapRangeInverse(v: real, inMin: real, inMax: real, outMin: real, outMax: real)
    requires inMin != inMax && outMin != outMax
    ensures MapRange(MapRange(v, inMin, inMax, outMin, outMax), outMin, outMax, inMin, inMax) == v
  {
    var t := (v - inMin) / (inMax - inMin);
    var r := t * (outMax - outMin) + outMin;
    assert r == MapRange(v, inMin, inMax, outMin, outMax);
    assert (r - outMin) / (outMax - outMin) == t;
    assert t * (inMax - inMin) == v - inMin;
  }

  /** Divisors of elapsed time for the horizontal and the vertical sinusoid. */
  const XTimeDivisor: real := 1.4
  const YTimeDivisor: real := 2.0

  /** Where `Point::update` puts the attractor at elapsed time `time` inside `bounds`. */
  function PositionAt(time: real, bounds: Rect, num: Numerics): Vec2
  {
    Vec2(MapRange(num.sin(time / XTimeDivisor), -1.0, 1.0, bounds.left, bounds.right),
         MapRange(num.sin(time / YTimeDivisor), -1.0, 1.0, bounds.bottom, bounds.top))
  }

  /** With sines in [-1, 1] and ordered bounds, the attractor stays inside its box. */
  lemma PositionAtInBounds(time: real, bounds: Rect, num: Numerics)
    requires SinInRange(num, time / XTimeDivisor) && SinInRange(num, time / YTimeDivisor)
    requires bounds.left <= bounds.right && bounds.bottom <= bounds.top
    ensures bounds.left <= PositionAt(time, bounds, num).x <= bounds.right
    ensures bounds.bottom <= PositionAt(time, bounds, num).y <= bounds.top
  {
    MapRangeWithin(num.sin(time / XTimeDivisor), -1.0, 1.0, bounds.left, bounds.right);
    MapRangeWithin(num.sin(time / YTimeDivisor), -1.0, 1.0, bounds.bottom, bounds.top);
  }

  /** A sine of -1 puts the attractor on the low edge, a sine of 1 on the high edge. */
  lemma PositionAtPeaks(time: real, bounds: Rect, num: Numerics)
    ensures num.sin(time / XTimeDivisor) == -1.0 ==> PositionAt(time, bounds, num).x == bounds.left
    ensures num.sin(time / XTimeDivisor) == 1.0 ==> PositionAt(time, bounds, num).x == bounds.right
    ensures num.sin(time / YTimeDivisor) == -1.0 ==> PositionAt(time, bounds, num).y == bounds.bottom
    ensures num.sin(time / YTimeDivisor) == 1.0 ==> PositionAt(time, bounds, num).y == bounds.top
  {
    MapRangeEndpoints(-1.0, 1.0, bounds.left, bounds.right);
    MapRangeEndpoints(-1.0, 1.0, bounds.bottom, bounds.top);
  }

  /** The sketch's `Point`: a position and the bounding box captured at construction. */
  class Point {
    var x: real
    var y: real
    var minX: real
    var maxX: real
    var minY: real
    var maxY: real

    function Position(): Vec2
      reads this
    {
      Vec2(x, y)
    }

    function Bounds(): Rect
      reads this
    {
      Rect(minX, maxX, minY, maxY)
    }

    ghost predicate InBounds()
      reads this
    {
      minX <= x <= maxX && minY <= y <= maxY
    }

    /** `Point::new`: keeps the given position and the four edges of `boundary`. */
    constructor (x: real, y: real, boundary: Rect)
      ensures Position() == Vec2(x, y)
      ensures Bounds() == boundary
    {
      this.x := x;
      this.y := y;
      minX := boundary.left;
      maxX := boundary.right;
      minY := boundary.bottom;
      maxY := boundary.top;
    }

    /** `Point::update`: recomputes the position from elapsed time; the bounds stay. */
    method Update(time: real, num: Numerics)
      modifies this
      ensures Bounds() == old(Bounds())
      ensures Position() == PositionAt(time, Bounds(), num)
      ensures (SinInRange(num, time / XTimeDivisor) && SinInRange(num, time / YTimeDivisor) &&
               minX <= maxX && minY <= maxY) ==> InBounds()
    {
      var sin1 := num.sin(time / XTimeDivisor);
      var sin2 := num.sin(time / YTimeDivisor);
      x := MapRange(sin1, -1.0, 1.0, minX, maxX);
      y := MapRange(sin2, -1.0, 1.0, minY, maxY);
      if SinInRange(num, time / XTimeDivisor) && SinInRange(num, time / YTimeDivisor) &&
         minX <= maxX && minY <= maxY
      {
        PositionAtInBounds(time, Bounds(), num);
      }
    }
  }
}
