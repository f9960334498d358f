/** Per-component formulas of the GLSL built-in functions: the bodies of the
    functor structs in vector_functions_adapter.h, over exact reals.
    `min` and `max` follow the C++ standard library: `min(a, b)` is
    `b < a ? b : a` and `max(a, b)` is `a < b ? b : a`. */
module GlslScalar {

  /** The literal the adapter uses for pi, read as an exact decimal. */
  const Pi: real := 3.14159265358979323846

  /** Factor that turns degrees into radians (`deg_to_rad`). */
  const DegToRad: real := Pi / 180.0

  /** Largest integer not above `x`. */
  function Floor(x: real): (r: int)
    ensures r as real <= x < r as real + 1.0
  {
    x.Floor
  }

  /** Smallest integer not below `x`. */
  function Ceil(x: real): (r: int)
    ensures x <= r as real < x + 1.0
  {
    -((-x).Floor)
  }

  /** `fract(x) = x - floor(x)`: the part of `x` above the integer below it. */
  function Fract(x: real): (r: real)
    ensures 0.0 <= r < 1.0
    ensures Floor(x - r) as real == x - r
  {
    x - Floor(x) as real
  }

  /** Floored remainder `mod(x, y) = x - y * floor(x / y)`: it has the sign
      of `y`, is smaller than `y` in magnitude, and `x - r` is a whole
      multiple of `y`. */
  function Mod(x: real, y: real): (r: real)
    requires y != 0.0
    ensures y > 0.0 ==> 0.0 <= r < y
    ensures y < 0.0 ==> y < r <= 0.0
    ensures Floor((x - r) / y) as real == (x - r) / y
  {
    var q := Floor(x / y) as real;
    ModBounds(x, y, q);
    x - y * q
  }

  lemma ModBounds(x: real, y: real, q: real)
    requires y != 0.0 && q <= x / y < q + 1.0
    ensures y > 0.0 ==> 0.0 <= x - y * q < y
    ensures y < 0.0 ==> y < x - y * q <= 0.0
    ensures (x - (x - y * q)) / y == q
  {
    var g := x / y - q;
    var h := 1.0 - g;
    var r := x - y * q;
    assert r == y * g;
    if y > 0.0 {
      MulNonNegative(y, g);
      MulPositive(y, h);
      assert y - r == y * h;
      assert 0.0 <= x - y * q < y;
    } else {
      var n := -y;
      MulNonNegative(n, g);
      MulPositive(n, h);
      assert r - y == n * h;
      assert -r == n * g;
      assert y < x - y * q <= 0.0;
    }
  }

  /** The product of two non-negative reals is non-negative. */
  lemma MulNonNegative(a: real, b: real)
    requires 0.0 <= a && 0.0 <= b
    ensures 0.0 <= a * b
  {
  }

  /** The product of two positive reals is positive. */
  lemma MulPositive(a: real, b: real)
    requires 0.0 < a && 0.0 < b
    ensures 0.0 < a * b
  {
  }

  /** A square is non-negative. */
  lemma SquareNonNegative(a: real)
    ensures 0.0 <= a * a
  {
    if a < 0.0 {
      MulPositive(-a, -a);
    }
  }

  /** `std::min` on one component: the lesser of the two. */
  function Min(a: real, b: real): (r: real)
    ensures r <= a && r <= b
    ensures r == a || r == b
  {
    if b < a then b else a
  }

  /** `std::max` on one component: the greater of the two. */
  function Max(a: real, b: real): (r: real)
    ensures a <= r && b <= r
    ensures r == a || r == b
  {
    if a < b then b else a
  }

  /** `clamp(x, lo, hi) = max(min(x, hi), lo)`. Because `min` comes first, a
      disordered pair of bounds (`lo > hi`) yields `lo`. */
  function Clamp(x: real, lo: real, hi: real): (r: real)
    ensures lo <= hi ==> lo <= r <= hi
    ensures lo > hi ==> r == lo
    ensures lo <= x <= hi ==> r == x
    ensures lo <= hi && x < lo ==> r == lo
    ensures lo <= hi && hi < x ==> r == hi
  {
    Max(Min(x, hi), lo)
  }

  /** `mix(x, y, a) = x + a * (y - x)`: linear interpolation, exact at both
      ends and between `x` and `y` for a weight in `[0, 1]`. */
  function Mix(x: real, y: real, a: real): (r: real)
    ensures a == 0.0 ==> r == x
    ensures a == 1.0 ==> r == y
    ensures 0.0 <= a <= 1.0 ==> Min(x, y) <= r <= Max(x, y)
  {
    MixBetween(x, y, a);
    x + a * (y - x)
  }

  lemma MixBetween(x: real, y: real, a: real)
    ensures 0.0 <= a <= 1.0 ==> Min(x, y) <= x + a * (y - x) <= Max(x, y)
  {
    if 0.0 <= a <= 1.0 {
      if x <= y {
        MulNonNegative(a, y - x);
        MulNonNegative(1.0 - a, y - x);
        assert (y - x) - a * (y - x) == (1.0 - a) * (y - x);
      } else {
        MulNonNegative(a, x - y);
        MulNonNegative(1.0 - a, x - y);
        assert a * (y - x) == -(a * (x - y));
        assert (x - y) - a * (x - y) == (1.0 - a) * (x - y);
      }
    }
  }

  /** The Hermite polynomial `t * t * (3 - 2 * t)` maps `[0, 1]` into `[0, 1]`. */
  lemma HermiteBounds(t: real)
    requires 0.0 <= t <= 1.0
    ensures 0.0 <= t * t * (3.0 - 2.0 * t) <= 1.0
  {
    MulNonNegative(t, t);
    MulNonNegative(t * t, 3.0 - 2.0 * t);
    MulNonNegative(1.0 - t, 1.0 - t);
    MulNonNegative((1.0 - t) * (1.0 - t), 1.0 + 2.0 * t);
    assert 1.0 - t * t * (3.0 - 2.0 * t) == (1.0 - t) * (1.0 - t) * (1.0 + 2.0 * t);
  }

  /** `smoothstep(edge0, edge1, x)`: `t = (x - edge0) / (edge1 - edge0)` is
      clamped into `[0, 1]` as `min(max(t, 0), 1)`, and the result is
      `t * t * (3 - 2 * t)`. It lies in `[0, 1]`, is 0 at or below the lower
      edge and 1 at or above the upper one. */
  function Smoothstep(edge0: real, edge1: real, x: real): (r: real)
    requires edge0 != edge1
    ensures 0.0 <= r <= 1.0
    ensures edge0 < edge1 && x <= edge0 ==> r == 0.0
    ensures edge0 < edge1 && edge1 <= x ==> r == 1.0
  {
    var ratio := (x - edge0) / (edge1 - edge0);
    var t := Min(Max(ratio, 0.0), 1.0);
    HermiteBounds(t);
    EdgeRatio(edge0, edge1, x);
    t * t * (3.0 - 2.0 * t)
  }

  lemma EdgeRatio(edge0: real, edge1: real, x: real)
    requires edge0 != edge1
    ensures edge0 < edge1 && x <= edge0 ==> (x - edge0) / (edge1 - edge0) <= 0.0
    ensures edge0 < edge1 && edge1 <= x ==> (x - edge0) / (edge1 - edge0) >= 1.0
  {
    var w := edge1 - edge0;
    var ratio := (x - edge0) / w;
    if edge0 < edge1 && x <= edge0 {
      assert -ratio * w == edge0 - x;
      FactorSign(-ratio, w);
    }
    if edge0 < edge1 && edge1 <= x {
      assert (ratio - 1.0) * w == x - edge1;
      FactorSign(ratio - 1.0, w);
    }
  }

  /** A product with a positive factor is non-negative only if the other
      factor is. */
  lemma FactorSign(a: real, b: real)
    requires 0.0 < b && 0.0 <= a * b
    ensures 0.0 <= a
  {
    if a < 0.0 {
      MulPositive(-a, b);
    }
  }
}
