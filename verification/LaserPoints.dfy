/** The point every stream carries: `LaserPoint` in include/libera/core/LaserPoint.hpp, with real
coordinates and colours in place of floats, and the blank moves that join two points. */
module LaserPoints {
  import opened Arithmetic

  datatype LaserPoint = LaserPoint(x: real, y: real, r: real, g: real, b: real, i: real, u1: real, u2: real)

  /** A default-constructed point: no colour, full legacy intensity. */
  const DEFAULT_POINT := LaserPoint(0.0, 0.0, 0.0, 0.0, 0.0, 1.0, 0.0, 0.0)

  /** A default point that is dark on controllers that honour the legacy intensity as well. */
  const BLANK_POINT := DEFAULT_POINT.(i := 0.0)

  predicate NoColour(p: LaserPoint) { p.r == 0.0 && p.g == 0.0 && p.b == 0.0 }

  predicate Dark(p: LaserPoint) { NoColour(p) && p.i == 0.0 }

  function SquaredDistance(p: LaserPoint, q: LaserPoint): real
  {
    (q.x - p.x) * (q.x - p.x) + (q.y - p.y) * (q.y - p.y)
  }

  // ----- whole part of a square root -----

  function FloorSqrtFrom(v: real, n: nat): (r: nat)
    requires (n * n) as real <= v
    ensures (r * r) as real <= v < ((r + 1) * (r + 1)) as real
    decreases v.Floor - n
  {
    if ((n + 1) * (n + 1)) as real <= v then
      assert n + 1 <= (n + 1) * (n + 1);
      FloorSqrtFrom(v, n + 1)
    else n
  }

  /** The integer part of the square root of v. */
  function FloorSqrt(v: real): (r: nat)
    requires v >= 0.0
    ensures (r * r) as real <= v < ((r + 1) * (r + 1)) as real
  {
    FloorSqrtFrom(v, 0)
  }

  // ----- eased moves -----

  function CubicEaseInOut(t: real): real
  {
    var clamped := ClampReal(t, 0.0, 1.0);
    if clamped < 0.5 then 4.0 * clamped * clamped * clamped
    else
      var inv := -2.0 * clamped + 2.0;
      1.0 - (inv * inv * inv) / 2.0
  }

  /** The easing starts and ends at rest, is the same forwards and backwards, and is still at a sixteenth
      after a quarter of the way. */
  lemma EasingIsSymmetric(t: real)
    requires 0.0 <= t <= 1.0
    ensures CubicEaseInOut(t) + CubicEaseInOut(1.0 - t) == 1.0
    ensures t <= 0.5 ==> 0.0 <= CubicEaseInOut(t) <= t * t * 2.0
    ensures CubicEaseInOut(0.25) == 0.0625
  {
    if t < 0.5 {
      FirstHalf(t);
      SecondHalf(1.0 - t);
      BackAndForth(t);
      CubeBelowSquare(t);
    } else if t > 0.5 {
      FirstHalf(1.0 - t);
      SecondHalf(t);
      BackAndForth(1.0 - t);
    }
  }

  lemma FirstHalf(t: real)
    requires 0.0 <= t < 0.5
    ensures CubicEaseInOut(t) == 4.0 * t * t * t
  {
    assert ClampReal(t, 0.0, 1.0) == t;
  }

  lemma SecondHalf(t: real)
    requires 0.5 <= t <= 1.0
    ensures var inv := -2.0 * t + 2.0; CubicEaseInOut(t) == 1.0 - inv * inv * inv / 2.0
  {
    assert ClampReal(t, 0.0, 1.0) == t;
  }

  lemma BackAndForth(t: real)
    ensures var inv := -2.0 * (1.0 - t) + 2.0; inv * inv * inv / 2.0 == 4.0 * t * t * t
  {
    var inv := -2.0 * (1.0 - t) + 2.0;
    assert inv == 2.0 * t;
  }

  lemma CubeBelowSquare(t: real)
    requires 0.0 <= t <= 0.5
    ensures 0.0 <= 4.0 * t * t * t <= t * t * 2.0
  {
    var square := t * t;
    assert square >= 0.0;
    assert square * t <= square * 0.5;
    assert 4.0 * t * t * t == 4.0 * (square * t);
  }

  /** Step `index` of a dark move of `count` points. */
  function EasedBlank(from: LaserPoint, to: LaserPoint, index: nat, count: nat): (p: LaserPoint)
    ensures Dark(p)
  {
    var last := if count > 1 then count - 1 else 1;
    var eased := CubicEaseInOut(index as real / last as real);
    from.(x := from.x + (to.x - from.x) * eased,
          y := from.y + (to.y - from.y) * eased,
          r := 0.0, g := 0.0, b := 0.0, i := 0.0)
  }

  lemma EasedBlankEnds(from: LaserPoint, to: LaserPoint, count: nat)
    requires count >= 2
    ensures var p := EasedBlank(from, to, 0, count); p.x == from.x && p.y == from.y
    ensures var p := EasedBlank(from, to, count - 1, count); p.x == to.x && p.y == to.y
  {
    var last := count - 1;
    assert last as real / last as real == 1.0;
    assert CubicEaseInOut(1.0) == 1.0;
    assert CubicEaseInOut(0.0) == 0.0;
  }
}
