/** IEEE arithmetic on non-negative reals: results are rounded to a fixed number
    of significant bits, ties to even.  Overflow and subnormals are out of range. */
module Floats {

  /** A significand of double precision has 53 bits, so it is at least 2^52; the
      extended products of math/big carry 64 bits. */
  const DOUBLE: real := 4503599627370496.0
  const EXTENDED: real := 9223372036854775808.0

  /** The power of two at or below x. */
  function PowerBelow(x: real): (s: real)
    requires 0.0 < x
    ensures 0.0 < s <= x < 2.0 * s
    decreases if x < 1.0 then 1 else 0, if x < 1.0 then (1.0 / x).Floor else x.Floor
  {
    if x >= 2.0 then 2.0 * PowerBelow(x / 2.0)
    else if x < 1.0 then
      InverseHalves(x);
      PowerBelow(2.0 * x) / 2.0
    else 1.0
  }

  lemma InverseHalves(x: real)
    requires 0.0 < x < 1.0
    ensures 2.0 * x < 1.0 ==> (1.0 / (2.0 * x)).Floor < (1.0 / x).Floor
    ensures 0 <= (1.0 / x).Floor
  {
    var y := 1.0 / x;
    assert y * x == 1.0;
    assert (y - 1.0) * x == 1.0 - x;
    assert (y - 2.0) * x == 1.0 - 2.0 * x;
    PositiveFactor(y - 1.0, x);
    if 2.0 * x < 1.0 {
      PositiveFactor(y - 2.0, x);
      assert (y / 2.0) * (2.0 * x) == 1.0;
    }
  }

  lemma PositiveFactor(a: real, x: real)
    requires 0.0 < x && 0.0 < a * x
    ensures 0.0 < a
  {
  }

  function NearestEven(r: real): int {
    var f := r.Floor;
    var d := r - f as real;
    if d < 0.5 || (d == 0.5 && f % 2 == 0) then f else f + 1
  }

  /** The nearest multiple of unit. */
  function OnGrid(x: real, unit: real): real
    requires 0.0 < unit
  {
    NearestEven(x / unit) as real * unit
  }

  /** The nearest multiple of the spacing that x has at this precision. */
  function Round(x: real, precision: real): real
    requires 0.0 <= x && 0.0 < precision
  {
    if x == 0.0 then 0.0 else OnGrid(x, PowerBelow(x) / precision)
  }

  lemma NearestEvenError(r: real)
    ensures r - 0.5 <= NearestEven(r) as real <= r + 0.5
  {
  }

  lemma OnGridError(x: real, unit: real)
    requires 0.0 < unit
    ensures x - 0.5 * unit <= OnGrid(x, unit) <= x + 0.5 * unit
  {
    var r := x / unit;
    assert r * unit == x;
    NearestEvenError(r);
    ScaleError(x, r, NearestEven(r) as real, unit);
  }

  /** The relative error of rounding is at most half a unit in the last place. */
  lemma RoundError(x: real, precision: real)
    requires 0.0 <= x && 1.0 <= precision
    ensures 0.0 <= Round(x, precision)
    ensures 2.0 * precision * Round(x, precision) <= 2.0 * precision * x + x
    ensures 2.0 * precision * Round(x, precision) >= 2.0 * precision * x - x
  {
    hide OnGrid, PowerBelow;
    if x > 0.0 {
      var s := PowerBelow(x);
      var unit := s / precision;
      DivideBack(s, precision);
      OnGridError(x, unit);
      WithinHalfUnit(x, OnGrid(x, unit), unit, s, precision);
    }
  }

  lemma DivideBack(a: real, b: real)
    requires 0.0 < a && 0.0 < b
    ensures 0.0 < a / b && (a / b) * b == a
  {
  }

  lemma WithinHalfUnit(x: real, v: real, unit: real, s: real, precision: real)
    requires x - 0.5 * unit <= v <= x + 0.5 * unit
    requires unit * precision == s && 0.0 < s <= x && 1.0 <= precision && 0.0 < unit
    ensures 0.0 <= v && 2.0 * precision * x - x <= 2.0 * precision * v <= 2.0 * precision * x + x
  {
    TimesPrecision(v - x, unit, precision, s);
    TimesPrecision(x - v, unit, precision, s);
    assert 2.0 * precision * (v - x) == 2.0 * precision * v - 2.0 * precision * x;
    assert 2.0 * precision * (x - v) == 2.0 * precision * x - 2.0 * precision * v;
    MulReal(1.0, precision, unit);
  }

  lemma ScaleError(x: real, r: real, n: real, unit: real)
    requires 0.0 < unit && r * unit == x && r - 0.5 <= n <= r + 0.5
    ensures x - 0.5 * unit <= n * unit <= x + 0.5 * unit
  {
    var hi, lo := (r + 0.5) * unit, (r - 0.5) * unit;
    assert hi == x + 0.5 * unit && lo == x - 0.5 * unit;
    MulReal(n, r + 0.5, unit);
    MulReal(r - 0.5, n, unit);
    assert n * unit <= hi;
  }

  lemma MulReal(a: real, b: real, c: real)
    requires a <= b && 0.0 <= c
    ensures a * c <= b * c
  {
  }

  lemma TimesPrecision(d: real, unit: real, precision: real, s: real)
    requires d <= 0.5 * unit && unit * precision == s && 0.0 < precision
    ensures 2.0 * precision * d <= s
  {
    MulReal(d, 0.5 * unit, precision);
    assert d * precision <= 0.5 * unit * precision;
    assert 0.5 * unit * precision == 0.5 * s;
  }

  // ----------------------------------------------- rounding concrete numbers

  lemma PowerUnique(x: real, s: real)
    requires 0.0 < s && PowerBelow(s) == s && s <= x < 2.0 * s
    ensures PowerBelow(x) == s
    decreases if s < 1.0 then 1 else 0, if s < 1.0 then (1.0 / s).Floor else s.Floor
  {
    if s >= 2.0 {
      PowerUnique(x / 2.0, s / 2.0);
    } else if s < 1.0 {
      InverseHalves(s);
      PowerUnique(2.0 * x, 2.0 * s);
    }
  }

  lemma PowerDoubles(s: real)
    requires 0.0 < s
    ensures PowerBelow(s) == s <==> PowerBelow(2.0 * s) == 2.0 * s
  {
  }

  /** x is nearest to n units of the spacing that follows from the power of two s. */
  predicate Nearest(x: real, precision: real, s: real, n: int) {
    && s <= x < 2.0 * s
    && -s <= 2.0 * (x * precision - n as real * s) <= s
    && (n % 2 == 0 || -s < 2.0 * (x * precision - n as real * s) < s)
  }

  lemma RoundsTo(x: real, precision: real, s: real, n: int)
    requires 0.0 < s && PowerBelow(s) == s && 1.0 <= precision && Nearest(x, precision, s, n)
    ensures Round(x, precision) == n as real * (s / precision)
  {
    hide OnGrid, PowerBelow;
    PowerUnique(x, s);
    var unit := s / precision;
    DivideBack(s, precision);
    DivideBack(x, unit);
    var r := x / unit;
    GridDistance(x, precision, s, unit, r, n as real);
    OnGridIs(x, unit, r, n);
  }

  lemma GridDistance(x: real, precision: real, s: real, unit: real, r: real, n: real)
    requires 0.0 < s && 0.0 < precision && unit * precision == s && 0.0 < unit && r * unit == x
    ensures x * precision - n * s == (r - n) * s
    ensures -s <= 2.0 * (x * precision - n * s) <= s ==> -0.5 <= r - n <= 0.5
    ensures -s < 2.0 * (x * precision - n * s) < s ==> -0.5 < r - n < 0.5
  {
    assert x * precision == r * (unit * precision);
    var d := 2.0 * (r - n);
    assert d * s == 2.0 * (x * precision - n * s) by {
      Spread(r, n, s);
    }
    DividesBelow(d, s);
  }

  lemma Spread(r: real, n: real, s: real)
    ensures (2.0 * (r - n)) * s == 2.0 * (r * s - n * s)
    ensures (r - n) * s == r * s - n * s
  {
  }

  lemma DividesBelow(d: real, s: real)
    requires 0.0 < s
    ensures -s <= d * s <= s ==> -1.0 <= d <= 1.0
    ensures -s < d * s < s ==> -1.0 < d < 1.0
  {
    if d > 1.0 {
      PositiveTimes(d - 1.0, s);
    }
    if d >= 1.0 {
      MulReal(1.0, d, s);
    }
    if d < -1.0 {
      PositiveTimes(-1.0 - d, s);
    }
    if d <= -1.0 {
      MulReal(d, -1.0, s);
    }
  }

  lemma PositiveTimes(a: real, s: real)
    requires 0.0 < a && 0.0 < s
    ensures 0.0 < a * s
  {
  }

  lemma OnGridIs(x: real, unit: real, r: real, n: int)
    requires 0.0 < unit && r == x / unit
    requires -0.5 <= r - n as real <= 0.5 && (n % 2 == 0 || -0.5 < r - n as real < 0.5)
    ensures OnGrid(x, unit) == n as real * unit
  {
    assert NearestEven(r) == n;
  }
}
