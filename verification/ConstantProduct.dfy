/** The constant-product formula with a 0.3% fee. */
module ConstantProduct {
  import opened Sums

  function Product(a: nat, b: nat): nat { a * b }

  function Floor(n: nat, d: nat): nat
    requires d > 0
  {
    n / d
  }

  /** arbAmountOut */
  function AmountOut(a: nat, x: nat, y: nat): nat {
    if a == 0 || x == 0 || y == 0 then 0 else Floor(Product(997 * a, y), 1000 * x + 997 * a)
  }

  // ------------------------------------------------------------ the formula

  /** The floor of the output, multiplied out. */
  lemma OutTimesDenominator(a: nat, x: nat, y: nat)
    ensures AmountOut(a, x, y) * (1000 * x + 997 * a) <= 997 * a * y
    ensures AmountOut(a, x, y) <= y
    ensures x > 0 && y > 0 ==> AmountOut(a, x, y) < y
  {
    if a > 0 && x > 0 && y > 0 {
      var d := 1000 * x + 997 * a;
      assert 997 * a * y < d * y by {
        assert d * y == 1000 * (x * y) + 997 * a * y;
        assert x * y > 0;
      }
      FloorIsLargest(997 * a * y, d, AmountOut(a, x, y));
      CancelLt(d, AmountOut(a, x, y), y);
    } else {
      assert 0 <= a * y && 997 * a * y == 997 * (a * y);
    }
  }

  /** A swap pays the most that its input less the fee is worth: no larger output
      keeps the product of the reserves with 99.7% of the input counted. */
  lemma OutIsLargest(a: nat, x: nat, y: nat, out: nat)
    requires x > 0 && y > 0
    ensures out <= AmountOut(a, x, y) <==> out * (1000 * x + 997 * a) <= 997 * a * y
  {
    if a == 0 {
      MulMonotone(out, 1, 1000 * x);
    } else {
      FloorIsLargest(997 * a * y, 1000 * x + 997 * a, out);
    }
  }

  lemma FloorIsLargest(n: nat, d: nat, v: nat)
    requires d > 0
    ensures v <= n / d <==> v * d <= n
  {
    if v <= n / d {
      MulMonotone(d, v, n / d);
      assert d * (n / d) <= n && v * d == d * v;
    }
    if v * d <= n {
      Commute(v, d);
      FloorAtLeast(v, n, d);
    }
  }

  /** A swap never lowers the product of the reserves. */
  lemma ProductNeverDrops(a: nat, x: nat, y: nat)
    ensures AmountOut(a, x, y) * (x + a) <= a * y
    ensures AmountOut(a, x, y) <= y
    ensures (x + a) * (y - AmountOut(a, x, y)) >= x * y
  {
    var out := AmountOut(a, x, y);
    OutTimesDenominator(a, x, y);
    OutBelowPrice(a, x, y, out);
    assert (x + a) * (y - out) == x * y + a * y - out * (x + a);
  }

  lemma OutBelowPrice(a: nat, x: nat, y: nat, out: nat)
    requires out <= y && out * (1000 * x + 997 * a) <= 997 * a * y
    ensures out * (x + a) <= a * y
  {
    MulMonotone(a, out, y);
    assert out * (1000 * x + 997 * a) == 1000 * (out * x) + 997 * (a * out);
    assert 997 * a * y == 997 * (a * y);
    assert out * (x + a) == out * x + a * out;
  }

  /** Splitting a trade never beats one swap, whatever the pool holds, except that
      an empty input reserve, on which the first swap pays nothing, is filled by it. */
  lemma SplittingNeverPays(a: nat, b: nat, x: nat, y: nat)
    ensures AmountOut(a, x, y) <= y
    ensures AmountOut(a, x, y) + AmountOut(b, x + a, y - AmountOut(a, x, y)) <= AmountOut(a + b, x, y)
            <==> x > 0 || a == 0 || 997 * b * y < 1000 * a + 997 * b
  {
    NothingOut(a, y, b);
    OutTimesDenominator(a, x, y);
    if x > 0 && y > 0 && a + b > 0 {
      var o1 := AmountOut(a, x, y);
      var o2 := AmountOut(b, x + a, y - o1);
      OutTimesDenominator(b, x + a, y - o1);
      SplitBound(a, b, x, y, o1, o2);
      Commute(o1 + o2, 1000 * x + 997 * (a + b));
      FloorAtLeast(o1 + o2, 997 * (a + b) * y, 1000 * x + 997 * (a + b));
    }
  }

  /** What an empty reserve pays, before and after the first swap fills it. */
  lemma NothingOut(a: nat, y: nat, b: nat)
    ensures AmountOut(a, 0, y) == 0 && AmountOut(a + b, 0, y) == 0
    ensures AmountOut(b, a, y) == 0 <==> a == 0 || 997 * b * y < 1000 * a + 997 * b
  {
    if a > 0 && b > 0 && y > 0 {
      PositiveQuotient(997 * b * y, 1000 * a + 997 * b);
    } else {
      assert b == 0 || y == 0 ==> 997 * b * y == 0;
    }
  }

  lemma PositiveQuotient(n: nat, d: nat)
    requires 0 < d
    ensures n / d == 0 <==> n < d
  {
  }

  lemma SplitBound(a: nat, b: nat, x: nat, y: nat, o1: nat, o2: nat)
    requires o1 <= y && o1 * (1000 * x + 997 * a) <= 997 * a * y
    requires o2 * (1000 * (x + a) + 997 * b) <= 997 * b * (y - o1)
    ensures (o1 + o2) * (1000 * x + 997 * (a + b)) <= 997 * (a + b) * y
  {
    var d := 1000 * x + 997 * (a + b);
    assert o2 * (1000 * (x + a) + 997 * b) == o2 * d + 3 * (o2 * a);
    assert 0 <= o2 * a;
    assert o1 * d == o1 * (1000 * x + 997 * a) + 997 * (o1 * b);
    assert 997 * b * (y - o1) == 997 * (b * y) - 997 * (b * o1);
    assert b * o1 == o1 * b;
    assert 997 * (a + b) * y == 997 * a * y + 997 * (b * y);
    assert (o1 + o2) * d == o1 * d + o2 * d;
  }

  lemma BackBound(a: nat, x: nat, y: nat, out: nat, back: nat)
    requires out < y && out * (x + a) <= a * y
    requires back * (1000 * (y - out) + 997 * out) <= 997 * out * (x + a)
    ensures back <= a
  {
    var d := 1000 * (y - out) + 997 * out;
    MulMonotone(back, 997 * y, d);
    assert 997 * out * (x + a) == 997 * (out * (x + a));
    assert back * (997 * y) == (997 * y) * back && 997 * (a * y) == (997 * y) * a;
    CancelLeq(997 * y, back, a);
  }

  /** Swapping the output straight back never returns more than was put in. */
  lemma RoundTripNeverGains(a: nat, x: nat, y: nat)
    requires x > 0 && y > 0
    ensures AmountOut(a, x, y) < y
    ensures AmountOut(AmountOut(a, x, y), y - AmountOut(a, x, y), x + a) <= a
  {
    var out := AmountOut(a, x, y);
    OutTimesDenominator(a, x, y);
    ProductNeverDrops(a, x, y);
    OutTimesDenominator(out, y - out, x + a);
    BackBound(a, x, y, out, AmountOut(out, y - out, x + a));
  }
}
