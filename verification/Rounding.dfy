/** Rounding of real values to integers, as the daemon's float casts perform it. */
module Rounding {
  /** The range of a signed 32-bit integer. */
  type i32 = x: int | -0x8000_0000 <= x < 0x8000_0000

  /** `a - b` in 32-bit two's complement. */
  function Sub32(a: i32, b: i32): i32 {
    var d := a - b;
    if d >= 0x8000_0000 then d - 0x1_0000_0000
    else if d < -0x8000_0000 then d + 0x1_0000_0000
    else d
  }

  /** The difference is representable, so the subtraction did not wrap. */
  predicate SpanFits(a: i32, b: i32) {
    -0x8000_0000 <= a - b < 0x8000_0000
  }

  /** Round to nearest, ties away from zero (`f32::round`). */
  function Round(x: real): int {
    if x >= 0.0 then (x + 0.5).Floor else -((0.5 - x).Floor)
  }

  /** Drop the fraction, towards zero. */
  function Trunc(x: real): int {
    if x >= 0.0 then x.Floor else -((-x).Floor)
  }

  /** A float-to-`i32` cast: truncate, then saturate at the ends of the range. */
  function ToI32(x: real): i32 {
    var t := Trunc(x);
    if t < -0x8000_0000 then -0x8000_0000
    else if t >= 0x8000_0000 then 0x7fff_ffff
    else t
  }

  /** `Round` is the nearest integer, and of two equally near ones that farther from zero. */
  lemma RoundIsNearest(x: real, n: int)
    ensures n == Round(x) <==>
              if x >= 0.0 then x - 0.5 < n as real <= x + 0.5 else x - 0.5 <= n as real < x + 0.5
  {}

  /** The cast is the integer part, and the end of the range for what lies beyond it. */
  lemma ToI32IsTheIntegerPart(x: real, n: i32)
    ensures n == ToI32(x) <==>
              || (0.0 <= x && n as real <= x < n as real + 1.0)
              || (x <= 0.0 && n as real - 1.0 < x <= n as real)
              || (x >= 2147483648.0 && n == 0x7fff_ffff)
              || (x <= -2147483649.0 && n == -0x8000_0000)
  {}

  /** The wrapped difference is the one 32-bit number that differs from the true one by a multiple of 2^32. */
  lemma Sub32IsCongruent(a: i32, b: i32, d: i32)
    ensures d == Sub32(a, b) <==> (d - (a - b)) % 0x1_0000_0000 == 0
  {
    var k := (d - (a - b)) / 0x1_0000_0000;
    if (d - (a - b)) % 0x1_0000_0000 == 0 {
      assert d - (a - b) == k * 0x1_0000_0000;
      assert -2 <= k <= 1;
    }
  }

  lemma RoundIsMonotone(x: real, y: real)
    requires x <= y
    ensures Round(x) <= Round(y)
  {}

  lemma RoundOfInteger(n: int)
    ensures Round(n as real) == n
  {}

  lemma ToI32IsMonotone(x: real, y: real)
    requires x <= y
    ensures ToI32(x) <= ToI32(y)
  {}

  lemma NonNegativeProduct(x: real, y: real)
    requires 0.0 <= x && 0.0 <= y
    ensures 0.0 <= x * y
  {}

  lemma NonPositiveProduct(x: real, y: real)
    requires 0.0 <= x && y <= 0.0
    ensures x * y <= 0.0
  {}

  lemma PositiveProduct(x: real, y: real)
    requires 0.0 < x && 0.0 < y
    ensures 0.0 < x * y
  {}

  lemma MixedProduct(x: real, y: real)
    requires x < 0.0 < y
    ensures x * y < 0.0 && y * x < 0.0
  {}

  lemma NegativeProduct(x: real, y: real)
    requires x < 0.0 && y < 0.0
    ensures 0.0 < x * y
  {}

  /** A fraction of a gain lies between nothing and all of it. */
  lemma FractionOfGain(r: real, d: real)
    requires 0.0 <= r <= 1.0 && 0.0 <= d
    ensures 0.0 <= r * d <= d
  {
    NonNegativeProduct(r, d);
    NonNegativeProduct(1.0 - r, d);
    assert (1.0 - r) * d == d - r * d;
  }

  /** And of a loss. */
  lemma FractionOfLoss(r: real, d: real)
    requires 0.0 <= r <= 1.0 && d <= 0.0
    ensures d <= r * d <= 0.0
  {
    NonPositiveProduct(r, d);
    NonPositiveProduct(1.0 - r, d);
    assert (1.0 - r) * d == d - r * d;
  }

  lemma ScaleIsMonotone(r: real, t: real, k: real)
    requires r <= t && 0.0 <= k
    ensures r * k <= t * k
  {
    NonNegativeProduct(t - r, k);
    assert (t - r) * k == t * k - r * k;
  }

  lemma ScaleIsStrict(r: real, t: real, k: real)
    requires r < t && 0.0 < k
    ensures r * k < t * k
  {
    PositiveProduct(t - r, k);
    assert (t - r) * k == t * k - r * k;
  }

  /** A quotient of an interior point over a positive span is a proper fraction. */
  lemma RatioInUnit(x: real, span: real)
    requires 0.0 <= x <= span && 0.0 < span
    ensures 0.0 <= x / span <= 1.0
  {}

  lemma RatioIsMonotone(x: real, y: real, span: real)
    requires x <= y && 0.0 < span
    ensures x / span <= y / span
  {}

  lemma DivideThenMultiply(x: real, span: real)
    requires span != 0.0
    ensures x / span * span == x
  {}

  lemma QuotientBelow(x: real, span: real, q: real)
    requires 0.0 < span && x / span < q
    ensures x < q * span
  {
    DivideThenMultiply(x, span);
    ScaleIsStrict(x / span, q, span);
  }

  lemma QuotientAtLeast(x: real, span: real, q: real)
    requires 0.0 < span && q <= x / span
    ensures q * span <= x
  {
    DivideThenMultiply(x, span);
    ScaleIsMonotone(q, x / span, span);
  }
}
