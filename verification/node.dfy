/** A grid node: a fixed resting center, and a position, radius and colour that
    respond every frame to the attractor. */
module Nodes {
  import opened Geometry
  import opened Attractor

  /** An sRGB colour with alpha, channels nominally in [0, 1] (nannou's `Srgba`). */
  datatype Rgba = Rgba(r: real, g: real, b: real, a: real)

  /** Opaque white, `srgba(1.0, 1.0, 1.0, 1.0)`. */
  const White: Rgba := Rgba(1.0, 1.0, 1.0, 1.0)

  /** Three draws of `random_f32`, one per colour channel. */
  datatype Rgb = Rgb(r: real, g: real, b: real)

  predicate InUnit(v: real)
  {
    0.0 <= v <= 1.0
  }

  /** Every channel of the draw lies in [0, 1], as `random_f32` guarantees. */
  predicate SampleInUnit(s: Rgb)
  {
    InUnit(s.r) && InUnit(s.g) && InUnit(s.b)
  }

  /** Every channel of the colour lies in [0, 1]. */
  predicate InGamut(c: Rgba)
  {
    InUnit(c.r) && InUnit(c.g) && InUnit(c.b) && InUnit(c.a)
  }

  /** Distance from the resting center kept by `Node::update`. */
  const OrbitRadius: real := 30.0
  /** Below this distance to the attractor a node takes a random colour. */
  const ColorThreshold: real := 100.0
  /** The radius rule `2 + min(1000 / dist, 50)`. */
  const RadiusFloor: real := 2.0
  const RadiusNumerator: real := 1000.0
  const RadiusCap: real := 50.0
  /** The distance at which `1000 / dist` reaches the cap of 50. */
  const CapDistance: real := 20.0

  /** `angle_between` of the center and the attractor, both read as vectors from the origin. */
  function Bearing(center: Vec2, target: Vec2, num: Numerics): real
  {
    num.angleBetween(center, target)
  }

  /** The point `offset` away from `center` along (sin, cos) of `bearing`. */
  function Orbit(center: Vec2, bearing: real, offset: real, num: Numerics): Vec2
  {
    Vec2(center.x + num.sin(bearing) * offset, center.y + num.cos(bearing) * offset)
  }

  /** With sin² + cos² = 1 the orbit point lies exactly `offset` from the center. */
  lemma OrbitOnCircle(center: Vec2, bearing: real, offset: real, num: Numerics)
    requires OnUnitCircle(num, bearing)
    ensures Sq(Orbit(center, bearing, offset, num).x - center.x) +
            Sq(Orbit(center, bearing, offset, num).y - center.y) == Sq(offset)
  {
    var s, c := num.sin(bearing), num.cos(bearing);
    var p := Orbit(center, bearing, offset, num);
    assert p.x - center.x == s * offset;
    assert p.y - center.y == c * offset;
    assert Sq(s * offset) + Sq(c * offset) == (s * s + c * c) * (offset * offset);
  }

  /** Sign step for the nonlinear bounds in `OrbitInSquare` and the grid lemmas. */
  lemma NonNegProduct(a: real, b: real)
    requires a >= 0.0 && b >= 0.0
    ensures a * b >= 0.0
  {
  }

  /** With sin and cos in [-1, 1] the orbit point lies in the square of half-side `offset`. */
  lemma OrbitInSquare(center: Vec2, bearing: real, offset: real, num: Numerics)
    requires SinCosInRange(num, bearing) && offset >= 0.0
    ensures center.x - offset <= Orbit(center, bearing, offset, num).x <= center.x + offset
    ensures center.y - offset <= Orbit(center, bearing, offset, num).y <= center.y + offset
  {
    var s, c := num.sin(bearing), num.cos(bearing);
    assert -1.0 <= s <= 1.0 && -1.0 <= c <= 1.0;
    NonNegProduct(1.0 - s, offset);
    NonNegProduct(1.0 + s, offset);
    NonNegProduct(1.0 - c, offset);
    NonNegProduct(1.0 + c, offset);
  }

  /** The radius for distance `dist` to the attractor. In `f32`, `1000 / 0` is
      infinity and `.min(50)` makes it 50; for every `dist >= 0` this is the same
      as comparing `dist` with 20. The rule is meant for `dist >= 0` only: a
      Euclidean distance is never negative, and for a negative `dist` this form
      gives 52 where `2 + min(1000 / dist, 50)` would give less than 2. */
  function RadiusFor(dist: real): real
  {
    RadiusFloor + (if dist <= CapDistance then RadiusCap else RadiusNumerator / dist)
  }

  /** For a positive distance the radius is the source's `2 + min(1000 / dist, 50)`. */
  lemma RadiusForMatchesClamp(dist: real)
    requires dist > 0.0
    ensures RadiusFor(dist) == RadiusFloor + Min(RadiusNumerator / dist, RadiusCap)
  {
    var q := RadiusNumerator / dist;
    assert q * dist == RadiusNumerator;
    if dist <= CapDistance {
      assert (q - RadiusCap) * dist == RadiusNumerator - RadiusCap * dist;
    } else {
      assert (RadiusCap - q) * dist == RadiusCap * dist - RadiusNumerator;
    }
  }

  /** The radius lies in [2, 52], and is 52 exactly when the distance is at most 20
      (which includes the distance 0). */
  lemma RadiusForBounds(dist: real)
    ensures RadiusFloor <= RadiusFor(dist) <= RadiusFloor + RadiusCap
    ensures RadiusFor(dist) == RadiusFloor + RadiusCap <==> dist <= CapDistance
  {
    if dist > CapDistance {
      var q := RadiusNumerator / dist;
      assert q * dist == RadiusNumerator;
      assert (RadiusCap - q) * dist == RadiusCap * dist - RadiusNumerator;
      assert 0.0 < q < RadiusCap;
    }
  }

  /** A node closer to the attractor is never drawn smaller. */
  lemma RadiusForMonotone(near: real, far: real)
    requires near <= far
    ensures RadiusFor(far) <= RadiusFor(near)
  {
    RadiusForBounds(far);
    if near > CapDistance {
      var qn, qf := RadiusNumerator / near, RadiusNumerator / far;
      assert qn * near == RadiusNumerator && qf * far == RadiusNumerator;
      assert (qn - qf) * near == qf * (far - near);
      assert qf > 0.0;
      NonNegProduct(qf, far - near);
      assert qf <= qn;
    }
  }

  /** The colour for distance `dist`: the random draw at full opacity when closer
      than the threshold, white otherwise. */
  function ColorFor(dist: real, sample: Rgb): Rgba
  {
    if dist < ColorThreshold then Rgba(sample.r, sample.g, sample.b, 1.0) else White
  }

  /** The colour is opaque; it is white at or beyond the threshold and the draw
      below it; it stays in gamut whenever the draw does. */
  lemma ColorForRules(dist: real, sample: Rgb)
    ensures ColorFor(dist, sample).a == 1.0
    ensures dist >= ColorThreshold ==> ColorFor(dist, sample) == White
    ensures dist < ColorThreshold ==>
              ColorFor(dist, sample) == Rgba(sample.r, sample.g, sample.b, 1.0)
    ensures SampleInUnit(sample) ==> InGamut(ColorFor(dist, sample))
  {
  }

  /** What a node draws: its position, radius and colour. */
  datatype Appearance = Appearance(pos: Vec2, radius: real, color: Rgba)

  /** The appearance `Node::new` is given by `create_nodes`: `offset` away from the
      center along (sin θ, cos θ), θ the angle between the center and the attractor
      as vectors from the origin; radius `offset`; white. */
  function Initial(center: Vec2, target: Vec2, offset: real, num: Numerics): Appearance
  {
    Appearance(Orbit(center, Bearing(center, target, num), offset, num), offset, White)
  }

  /** The appearance after `Node::update` against an attractor at `target`. */
  function Responded(center: Vec2, target: Vec2, num: Numerics, sample: Rgb): Appearance
  {
    var pos := Orbit(center, Bearing(center, target, num), OrbitRadius, num);
    var dist := num.distance(pos, target);
    Appearance(pos, RadiusFor(dist), ColorFor(dist, sample))
  }

  /** After an update the radius is in [2, 52] (52 exactly when within 20 of the
      attractor), the colour is opaque, white at distance 100 or more and in gamut
      for an in-range draw, and the position is 30 from the center when the
      bearing's sine and cosine lie on the unit circle. */
  lemma RespondedProperties(center: Vec2, target: Vec2, num: Numerics, sample: Rgb)
    ensures var a := Responded(center, target, num, sample);
            var dist := num.distance(a.pos, target);
            && RadiusFloor <= a.radius <= RadiusFloor + RadiusCap
            && (a.radius == RadiusFloor + RadiusCap <==> dist <= CapDistance)
            && a.color.a == 1.0
            && (dist >= ColorThreshold ==> a.color == White)
            && (SampleInUnit(sample) ==> InGamut(a.color))
    ensures OnUnitCircle(num, Bearing(center, target, num)) ==>
              var a := Responded(center, target, num, sample);
              Sq(a.pos.x - center.x) + Sq(a.pos.y - center.y) == Sq(OrbitRadius)
  {
    var bearing := Bearing(center, target, num);
    var pos := Orbit(center, bearing, OrbitRadius, num);
    RadiusForBounds(num.distance(pos, target));
    ColorForRules(num.distance(pos, target), sample);
    if OnUnitCircle(num, bearing) {
      OrbitOnCircle(center, bearing, OrbitRadius, num);
    }
  }

  /** A freshly built node keeps radius `offset`, is white, and sits `offset` from
      its center when the bearing's sine and cosine lie on the unit circle. */
  lemma InitialProperties(center: Vec2, target: Vec2, offset: real, num: Numerics)
    ensures Initial(center, target, offset, num).radius == offset
    ensures Initial(center, target, offset, num).color == White
    ensures InGamut(Initial(center, target, offset, num).color)
    ensures OnUnitCircle(num, Bearing(center, target, num)) ==>
              var a := Initial(center, target, offset, num);
              Sq(a.pos.x - center.x) + Sq(a.pos.y - center.y) == Sq(offset)
  {
    if OnUnitCircle(num, Bearing(center, target, num)) {
      OrbitOnCircle(center, Bearing(center, target, num), offset, num);
    }
  }

  /** No node appears twice in the sequence (the sketch owns each `Node` by value). */
  ghost predicate Distinct(nodes: seq<Node>)
  {
    forall i, j :: 0 <= i < j < |nodes| ==> nodes[i] != nodes[j]
  }

  /** Appending a node not yet in the sequence keeps it free of repeats. */
  lemma DistinctAppend(nodes: seq<Node>, node: Node)
    requires Distinct(nodes) && node !in nodes
    ensures Distinct(nodes + [node])
  {
  }

  /** The sketch's `Node`. */
  class Node {
    var center: Vec2
    var x: real
    var y: real
    var radius: real
    var color: Rgba

    function Look(): Appearance
      reads this
    {
      Appearance(Vec2(x, y), radius, color)
    }

    /** `Node::new`: keeps the given center, position and radius; the colour is white. */
    constructor (center: Vec2, x: real, y: real, radius: real)
      ensures this.center == center
      ensures Look() == Appearance(Vec2(x, y), radius, White)
    {
      this.center := center;
      this.x := x;
      this.y := y;
      this.radius := radius;
      color := White;
    }

    /** `Node::update`: moves 30 from the center along (sin θ, cos θ), θ the angle
        between the center and the attractor as vectors from the origin,
        then sets radius and colour from the distance to it; the center stays. */
    method Update(target: Point, num: Numerics, sample: Rgb)
      modifies this
      ensures center == old(center)
      ensures Look() == Responded(center, target.Position(), num, sample)
    {
      var rad := num.angleBetween(Vec2(center.x, center.y), Vec2(target.x, target.y));
      x := center.x + num.sin(rad) * OrbitRadius;
      y := center.y + num.cos(rad) * OrbitRadius;

      var pos := Vec2(x, y);
      var posTarget := Vec2(target.x, target.y);
      var dist := num.distance(pos, posTarget);
      radius := RadiusFor(dist);

      if dist < ColorThreshold {
        color := Rgba(sample.r, sample.g, sample.b, 1.0);
      } else {
        color := White;
      }
    }
  }
}
