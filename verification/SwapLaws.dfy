/** What a swap pays and where it ends, measured on the liquidity that lies
    between two prices: an area under the liquidity profile, one unit of price at
    a time, that knows nothing of the crossing loop. */
module SwapLaws {
  import opened Sums
  import opened TickLedger
  import opened SwapMath

  /** The liquidity in use just above price x, up to what base adds everywhere. */
  function Profile(ticks: seq<Tick>, base: int, x: int): int { base + NetUpTo(ticks, x) }

  /** The token1, in units of 1/SCALE, that the profile holds between two prices. */
  function Token1(ticks: seq<Tick>, base: int, lo: int, hi: int): int
    decreases hi - lo
  {
    if lo >= hi then 0 else Profile(ticks, base, lo) + Token1(ticks, base, lo + 1, hi)
  }

  function Inverse(x: int): real
    requires 0 < x
  {
    1.0 / x as real
  }

  /** The token0 that the profile holds between two prices. */
  function Token0(ticks: seq<Tick>, base: int, lo: int, hi: int): real
    requires 0 < lo
    decreases hi - lo
  {
    if lo >= hi then 0.0
    else (Profile(ticks, base, lo) * SCALE) as real * (Inverse(lo) - Inverse(lo + 1)) + Token0(ticks, base, lo + 1, hi)
  }

  lemma {:induction false} Token1Split(ticks: seq<Tick>, base: int, lo: int, mid: int, hi: int)
    requires lo <= mid <= hi
    ensures Token1(ticks, base, lo, hi) == Token1(ticks, base, lo, mid) + Token1(ticks, base, mid, hi)
    decreases mid - lo
  {
    if lo < mid {
      Token1Split(ticks, base, lo + 1, mid, hi);
    }
  }

  lemma {:induction false} Token0Split(ticks: seq<Tick>, base: int, lo: int, mid: int, hi: int)
    requires 0 < lo <= mid <= hi
    ensures Token0(ticks, base, lo, hi) == Token0(ticks, base, lo, mid) + Token0(ticks, base, mid, hi)
    decreases mid - lo
  {
    if lo < mid {
      Token0Split(ticks, base, lo + 1, mid, hi);
    }
  }

  ghost predicate Flat(ticks: seq<Tick>, base: int, lo: int, hi: int, liquidity: int) {
    forall x :: lo <= x < hi ==> Profile(ticks, base, x) == liquidity
  }

  lemma {:induction false} Token1Flat(ticks: seq<Tick>, base: int, lo: int, hi: int, liquidity: int)
    requires lo <= hi && Flat(ticks, base, lo, hi, liquidity)
    ensures Token1(ticks, base, lo, hi) == liquidity * (hi - lo)
    decreases hi - lo
  {
    if lo < hi {
      Token1Flat(ticks, base, lo + 1, hi, liquidity);
      assert liquidity * (hi - lo) == liquidity + liquidity * (hi - (lo + 1));
    }
  }

  lemma {:induction false} Token0Flat(ticks: seq<Tick>, base: int, lo: int, hi: int, liquidity: int)
    requires 0 < lo <= hi && Flat(ticks, base, lo, hi, liquidity)
    ensures Token0(ticks, base, lo, hi) == (liquidity * SCALE) as real * (Inverse(lo) - Inverse(hi))
    decreases hi - lo
  {
    if lo < hi {
      Token0Flat(ticks, base, lo + 1, hi, liquidity);
      Telescope((liquidity * SCALE) as real, Inverse(lo), Inverse(lo + 1), Inverse(hi));
    }
  }

  lemma Telescope(c: real, a: real, b: real, d: real)
    ensures c * (a - b) + c * (b - d) == c * (a - d)
  {
  }

  // ---------------------------------------------------- one step, measured

  /** n / d lies in [q, q + 1). */
  predicate Floors(q: int, v: real) { q as real <= v < q as real + 1.0 }

  /** The token0 of a flat range as one fraction. */
  lemma RangeFraction(c: int, lo: int, hi: int)
    requires 0 < lo <= hi
    ensures c as real * (Inverse(lo) - Inverse(hi)) * (lo as real * hi as real) == c as real * (hi as real - lo as real)
  {
    var a, b := lo as real, hi as real;
    assert Inverse(lo) * a == 1.0 && Inverse(hi) * b == 1.0;
    Cleared(c as real, Inverse(lo), Inverse(hi), a, b);
  }

  lemma Cleared(c: real, u: real, v: real, a: real, b: real)
    requires u * a == 1.0 && v * b == 1.0
    ensures c * (u - v) * (a * b) == c * (b - a)
  {
    assert (u - v) * (a * b) == (u * a) * b - (v * b) * a;
    assert c * (u - v) * (a * b) == c * ((u - v) * (a * b));
  }

  lemma Products(x: int, y: int)
    ensures (x * y) as real == x as real * y as real
  {
  }

  /** Comparing a whole number with the token0 of a flat range, cross-multiplied. */
  lemma CompareRange(q: int, c: int, lo: int, hi: int)
    requires 0 < lo <= hi
    ensures var v := c as real * (Inverse(lo) - Inverse(hi));
            && (q * (lo * hi) <= c * (hi - lo) ==> q as real <= v)
            && (q * (lo * hi) > c * (hi - lo) ==> v < q as real)
  {
    var v := c as real * (Inverse(lo) - Inverse(hi));
    var area := lo as real * hi as real;
    RangeFraction(c, lo, hi);
    Products(lo, hi);
    Products(q, lo * hi);
    Products(c, hi - lo);
    PositiveArea(lo, hi);
    CancelReal(area, q as real, v);
    CancelReal(area, v, q as real);
  }

  lemma PositiveArea(lo: int, hi: int)
    requires 0 < lo <= hi
    ensures 0 < lo * hi && 0.0 < lo as real * hi as real
  {
    Products(lo, hi);
  }

  lemma FloorRange(c: int, lo: int, hi: int)
    requires 0 < lo <= hi
    ensures 0 < lo * hi && Floors((c * (hi - lo)) / (lo * hi), c as real * (Inverse(lo) - Inverse(hi)))
  {
    PositiveArea(lo, hi);
    var q := (c * (hi - lo)) / (lo * hi);
    FloorOf(c * (hi - lo), lo * hi);
    CompareRange(q, c, lo, hi);
    CompareRange(q + 1, c, lo, hi);
  }

  lemma FloorOf(n: int, d: int)
    requires 0 < d
    ensures (n / d) * d <= n < (n / d + 1) * d
  {
    assert n == d * (n / d) + n % d;
  }

  lemma DownTargetFloors(liquidity: int, price: int, target: int)
    requires 0 < target <= price
    ensures Floors(DownTarget(liquidity, price, target), (liquidity * SCALE) as real * (Inverse(target) - Inverse(price)))
  {
    FloorRange(liquidity * SCALE, target, price);
    assert liquidity * (price - target) * SCALE == (liquidity * SCALE) * (price - target);
    Commute(price, target);
  }

  lemma UpOutputFloors(liquidity: int, price: int, target: int)
    requires 0 < price <= target
    ensures Floors(UpOutput(liquidity, price, target), (liquidity * SCALE) as real * (Inverse(price) - Inverse(target)))
  {
    FloorRange(liquidity * SCALE, price, target);
    assert liquidity * (target - price) * SCALE == (liquidity * SCALE) * (target - price);
  }

  /** The token1 of a flat range, as the loop floors it. */
  lemma Token1Floors(liquidity: int, width: int)
    ensures var q := MulDiv(liquidity, width, SCALE);
            q * SCALE <= liquidity * width < (q + 1) * SCALE
  {
    FloorOf(liquidity * width, SCALE);
  }

  /** The price at which a partial downward step ends is the highest whose range
      up to the start still holds the remaining input. */
  lemma DownPartialIsHighest(liquidity: int, price: int, target: int, remaining: int)
    requires 0 < liquidity && 0 < target < price && 0 < remaining < DownTarget(liquidity, price, target)
    ensures var p := DownPartial(liquidity, price, remaining); var c := (liquidity * SCALE) as real;
            && target <= p < price
            && remaining as real <= c * (Inverse(p) - Inverse(price))
            && c * (Inverse(p + 1) - Inverse(price)) < remaining as real
  {
    hide DownTarget, DownPartial;
    DownPartialStaysAbove(liquidity, price, target, remaining);
    var p := DownPartial(liquidity, price, remaining);
    PartialQuotient(liquidity, price, remaining);
    PartialBrackets(liquidity * SCALE, price, remaining, p);
    CompareRange(remaining, liquidity * SCALE, p, price);
    CompareRange(remaining, liquidity * SCALE, p + 1, price);
  }

  lemma PartialQuotient(liquidity: int, price: int, remaining: int)
    requires 0 < liquidity && 0 < price && 0 < remaining
    ensures DownPartial(liquidity, price, remaining)
         == ((liquidity * SCALE) * price) / (liquidity * SCALE + remaining * price)
  {
    assert 0 < remaining * price;
    assert liquidity * price * SCALE == (liquidity * SCALE) * price;
  }

  lemma PartialBrackets(c: int, price: int, remaining: int, p: int)
    requires 0 < c && 0 < price && 0 < remaining && p == (c * price) / (c + remaining * price)
    ensures remaining * (p * price) <= c * (price - p)
    ensures remaining * ((p + 1) * price) > c * (price - (p + 1))
  {
    assert 0 < remaining * price;
    FloorOf(c * price, c + remaining * price);
    Distribute(c, remaining, price, p);
    Distribute(c, remaining, price, p + 1);
  }

  lemma Distribute(c: int, remaining: int, price: int, p: int)
    ensures p * (c + remaining * price) == p * c + remaining * (p * price)
    ensures c * (price - p) == c * price - p * c
  {
  }

  // ------------------------------------------------------- downward swaps

  /** The profile as a downward swap sees it just below its start. */
  function BaseBelow(ticks: seq<Tick>, price: int, liquidity: int): int { Drift(ticks, price - 1, liquidity) }

  lemma RangeBelow(ticks: seq<Tick>, price: int, liquidity: int, i: nat)
    requires StrictlySorted(ticks) && i == NextBelow(ticks, price, |ticks|) && i > 0
    ensures Flat(ticks, BaseBelow(ticks, price, liquidity), ticks[i - 1].price, price, liquidity)
    ensures BaseBelow(ticks, ticks[i - 1].price, liquidity - ticks[i - 1].net) == BaseBelow(ticks, price, liquidity)
  {
    var base := BaseBelow(ticks, price, liquidity);
    forall x | ticks[i - 1].price <= x < price ensures Profile(ticks, base, x) == liquidity {
      DownwardGap(ticks, price, i, x);
    }
    DownwardGap(ticks, price, i, ticks[i - 1].price);
  }

  /** The output is the token1 held down to the end price, less than one unit a
      step below it; the end price is the highest above which the profile holds
      the input, give or take a unit a crossing. */
  ghost predicate DownLaw(ticks: seq<Tick>, price: int, liquidity: int, input: int, output: int, r: Outcome) {
    r.Done? ==>
      var base := BaseBelow(ticks, price, liquidity);
      && 0 < r.price <= price
      && output * SCALE <= Token1(ticks, base, r.price, price) < (output + r.crossings + 1) * SCALE
      && input as real <= Token0(ticks, base, r.price, price)
      && (0 < input ==> Token0(ticks, base, r.price + 1, price) < input as real + r.crossings as real)
  }

  lemma DownStops(ticks: seq<Tick>, price: int, liquidity: int, input: int, i: nat)
    requires StrictlySorted(ticks) && PositivePrices(ticks) && 0 < price && 0 < liquidity
    requires i == NextBelow(ticks, price, |ticks|) && i > 0
    requires 0 < input < DownTarget(liquidity, price, ticks[i - 1].price)
    ensures var p := DownPartial(liquidity, price, input);
            DownLaw(ticks, price, liquidity, input, DownOutput(liquidity, price, p), Done(p, liquidity, 0, input, 0, false))
  {
    hide DownTarget, DownPartial, Inverse, NextBelow;
    var target := ticks[i - 1].price;
    var base := BaseBelow(ticks, price, liquidity);
    var p := DownPartial(liquidity, price, input);
    DownPartialIsHighest(liquidity, price, target, input);
    RangeBelow(ticks, price, liquidity, i);
    Token1Flat(ticks, base, p, price, liquidity);
    Token0Flat(ticks, base, p, price, liquidity);
    Token0Flat(ticks, base, p + 1, price, liquidity);
    Token1Floors(liquidity, price - p);
  }

  lemma DownCrosses(ticks: seq<Tick>, price: int, liquidity: int, input: int, i: nat, rest: Outcome, restOutput: int)
    requires StrictlySorted(ticks) && PositivePrices(ticks) && 0 < price && 0 < liquidity
    requires i == NextBelow(ticks, price, |ticks|) && i > 0
    requires var tick := ticks[i - 1]; var dx := DownTarget(liquidity, price, tick.price);
             dx <= input && DownLaw(ticks, tick.price, liquidity - tick.net, input - dx, restOutput, rest)
    requires rest.Done? && input == DownTarget(liquidity, price, ticks[i - 1].price) ==> rest.price == ticks[i - 1].price
    ensures var tick := ticks[i - 1];
            DownLaw(ticks, price, liquidity, input, DownOutput(liquidity, price, tick.price) + restOutput,
                    Later(rest, DownTarget(liquidity, price, tick.price), 1))
  {
    hide DownTarget, DownOutput, NextBelow, Token0, Token1, Profile, Flat, BaseBelow, StrictlySorted, PositivePrices;
    var tick := ticks[i - 1];
    var base := BaseBelow(ticks, price, liquidity);
    if rest.Done? {
      NextBelowLower(ticks, price, i);
      RangeBelow(ticks, price, liquidity, i);
      RangePays(ticks, base, tick.price, price, liquidity);
      Token1Split(ticks, base, rest.price, tick.price, price);
      Token0Split(ticks, base, rest.price, tick.price, price);
      if rest.price < tick.price {
        Token0Split(ticks, base, rest.price + 1, tick.price, price);
      } else {
        Token0Shorter(ticks, base, tick.price, price, liquidity);
      }
    }
  }

  lemma NextBelowLower(ticks: seq<Tick>, price: int, i: nat)
    requires StrictlySorted(ticks) && PositivePrices(ticks) && i == NextBelow(ticks, price, |ticks|) && i > 0
    ensures 0 < ticks[i - 1].price < price
  {
  }

  /** What crossing a range pays and costs, rounded down. */
  lemma RangePays(ticks: seq<Tick>, base: int, lo: int, hi: int, liquidity: int)
    requires 0 < lo < hi && Flat(ticks, base, lo, hi, liquidity)
    ensures var out := DownOutput(liquidity, hi, lo); out * SCALE <= Token1(ticks, base, lo, hi) < (out + 1) * SCALE
    ensures Floors(DownTarget(liquidity, hi, lo), Token0(ticks, base, lo, hi))
  {
    hide DownTarget, Inverse, Token0, Token1;
    Token1Flat(ticks, base, lo, hi, liquidity);
    Token1Floors(liquidity, hi - lo);
    Token0Flat(ticks, base, lo, hi, liquidity);
    DownTargetFloors(liquidity, hi, lo);
  }

  lemma Token0Shorter(ticks: seq<Tick>, base: int, lo: int, hi: int, liquidity: int)
    requires 0 < lo < hi && 0 < liquidity && Flat(ticks, base, lo, hi, liquidity)
    ensures Token0(ticks, base, lo + 1, hi) <= Token0(ticks, base, lo, hi)
  {
    assert Profile(ticks, base, lo) == liquidity;
    UnitIsPositive((liquidity * SCALE) as real, lo);
  }

  lemma UnitIsPositive(c: real, x: int)
    requires 0.0 <= c && 0 < x
    ensures 0.0 <= c * (Inverse(x) - Inverse(x + 1))
  {
    assert Inverse(x) >= Inverse(x + 1);
  }

  lemma {:induction false} SwapDownObeys(ticks: seq<Tick>, price: int, liquidity: int, input: int, output: int)
    requires StrictlySorted(ticks) && PositivePrices(ticks) && 0 < price && 0 <= input
    ensures var r := SwapDown(ticks, price, liquidity, input, output);
            r.Done? ==> DownLaw(ticks, price, liquidity, input, r.output - output, r)
    decreases NextBelow(ticks, price, |ticks|)
  {
    hide DownTarget, DownOutput, DownPartial, NextBelow, DownLaw;
    SwapDownStops(ticks, price, liquidity, input, output);
    var i := NextBelow(ticks, price, |ticks|);
    if input == 0 {
      DownRests(ticks, price, liquidity, output);
    } else if liquidity > 0 && i > 0 {
      var tick := ticks[i - 1];
      var dx := DownTarget(liquidity, price, tick.price);
      if input < dx {
        DownStops(ticks, price, liquidity, input, i);
        DownLawReads(ticks, price, liquidity, input, DownOutput(liquidity, price, DownPartial(liquidity, price, input)),
                     Done(DownPartial(liquidity, price, input), liquidity, 0, input, 0, false),
                     SwapDown(ticks, price, liquidity, input, output));
      } else {
        var out := output + DownOutput(liquidity, price, tick.price);
        NextBelowStrict(ticks, price, i);
        SwapDownCrosses(ticks, price, liquidity, input, output, i - 1);
        SwapDownObeys(ticks, tick.price, liquidity - tick.net, input - dx, out);
        var rest := SwapDown(ticks, tick.price, liquidity - tick.net, input - dx, out);
        SwapDownStops(ticks, tick.price, liquidity - tick.net, input - dx, out);
        if rest.Done? {
          DownCrosses(ticks, price, liquidity, input, i, rest, rest.output - out);
        }
      }
    }
  }

  lemma DownRests(ticks: seq<Tick>, price: int, liquidity: int, output: int)
    requires 0 < price
    ensures DownLaw(ticks, price, liquidity, 0, 0, Done(price, liquidity, output, 0, 0, true))
  {
  }

  /** The law looks at the end price and the crossings only. */
  lemma DownLawReads(ticks: seq<Tick>, price: int, liquidity: int, input: int, output: int, r: Outcome, q: Outcome)
    requires DownLaw(ticks, price, liquidity, input, output, r)
    requires r.Done? && q.Done? ==> q.price == r.price && q.crossings == r.crossings
    requires r.Done?
    ensures DownLaw(ticks, price, liquidity, input, output, q)
  {
  }

  // --------------------------------------------------------- upward swaps

  lemma RangeAbove(ticks: seq<Tick>, price: int, liquidity: int, i: nat)
    requires StrictlySorted(ticks) && i == NextAbove(ticks, price, 0) && i < |ticks|
    ensures Flat(ticks, Drift(ticks, price, liquidity), price, ticks[i].price, liquidity)
    ensures Drift(ticks, ticks[i].price, liquidity + ticks[i].net) == Drift(ticks, price, liquidity)
  {
    var base := Drift(ticks, price, liquidity);
    forall x | price <= x < ticks[i].price ensures Profile(ticks, base, x) == liquidity {
      UpwardGap(ticks, price, i, x);
    }
    UpwardGap(ticks, price, i, price);
  }

  /** The output is the token0 held up to the end price, less than one unit a step
      below it; the input is the token1 held there, less than a unit a crossing
      below it, and not enough for the next price unless a tick ends the swap. */
  ghost predicate UpLaw(ticks: seq<Tick>, price: int, liquidity: int, input: int, output: int, r: Outcome)
    requires 0 < price
  {
    r.Done? ==>
      var base := Drift(ticks, price, liquidity);
      && price <= r.price
      && output as real <= Token0(ticks, base, price, r.price) < output as real + r.crossings as real + 1.0
      && Token1(ticks, base, price, r.price) <= (input + r.crossings) * SCALE
      && (if r.exact then input * SCALE <= Token1(ticks, base, price, r.price)
          else input * SCALE < Token1(ticks, base, price, r.price + 1))
  }

  lemma UpStops(ticks: seq<Tick>, price: int, liquidity: int, input: int, i: nat)
    requires StrictlySorted(ticks) && 0 < price && 0 < liquidity
    requires i == NextAbove(ticks, price, 0) && i < |ticks|
    requires 0 < input < UpTarget(liquidity, price, ticks[i].price)
    ensures var p := UpPartial(liquidity, price, input);
            && price <= p
            && UpLaw(ticks, price, liquidity, input, UpOutput(liquidity, price, p), Done(p, liquidity, 0, input, 0, false))
  {
    hide UpTarget, UpOutput, UpPartial, Inverse, NextAbove;
    var base := Drift(ticks, price, liquidity);
    var p := UpPartial(liquidity, price, input);
    UpPartialStopsShort(liquidity, price, ticks[i].price, input);
    UpPartialIsHighest(liquidity, price, input);
    RangeAbove(ticks, price, liquidity, i);
    Token1Flat(ticks, base, price, p, liquidity);
    Token1Flat(ticks, base, price, p + 1, liquidity);
    Token0Flat(ticks, base, price, p, liquidity);
    UpOutputFloors(liquidity, price, p);
  }

  lemma UpPartialIsHighest(liquidity: int, price: int, input: int)
    requires 0 < liquidity
    ensures var p := UpPartial(liquidity, price, input);
            liquidity * (p - price) <= input * SCALE < liquidity * (p + 1 - price)
  {
    FloorOf(input * SCALE, liquidity);
    Commute(liquidity, input * SCALE / liquidity);
    Commute(liquidity, input * SCALE / liquidity + 1);
  }

  lemma UpCrosses(ticks: seq<Tick>, price: int, liquidity: int, input: int, i: nat, rest: Outcome, restOutput: int)
    requires StrictlySorted(ticks) && 0 < price && 0 < liquidity
    requires i == NextAbove(ticks, price, 0) && i < |ticks|
    requires var tick := ticks[i]; var dy := UpTarget(liquidity, price, tick.price);
             dy <= input && UpLaw(ticks, tick.price, liquidity + tick.net, input - dy, restOutput, rest)
    ensures var tick := ticks[i];
            UpLaw(ticks, price, liquidity, input, UpOutput(liquidity, price, tick.price) + restOutput,
                  Later(rest, UpTarget(liquidity, price, tick.price), 1))
  {
    hide UpOutput, Inverse, NextAbove, NetUpTo;
    var tick := ticks[i];
    var base := Drift(ticks, price, liquidity);
    if rest.Done? {
      RangeAbove(ticks, price, liquidity, i);
      Token1Flat(ticks, base, price, tick.price, liquidity);
      Token1Floors(liquidity, tick.price - price);
      Token1Split(ticks, base, price, tick.price, rest.price);
      Token1Split(ticks, base, price, tick.price, rest.price + 1);
      Token0Flat(ticks, base, price, tick.price, liquidity);
      UpOutputFloors(liquidity, price, tick.price);
      Token0Split(ticks, base, price, tick.price, rest.price);
    }
  }

  lemma UpLawReads(ticks: seq<Tick>, price: int, liquidity: int, input: int, output: int, r: Outcome, q: Outcome)
    requires 0 < price && r.Done? && UpLaw(ticks, price, liquidity, input, output, r)
    requires q.Done? ==> q.price == r.price && q.crossings == r.crossings && q.exact == r.exact
    ensures UpLaw(ticks, price, liquidity, input, output, q)
  {
  }

  lemma UpRests(ticks: seq<Tick>, price: int, liquidity: int, output: int)
    requires 0 < price
    ensures UpLaw(ticks, price, liquidity, 0, 0, Done(price, liquidity, output, 0, 0, true))
  {
  }

  lemma {:induction false} SwapUpObeys(ticks: seq<Tick>, price: int, liquidity: int, input: int, output: int)
    requires StrictlySorted(ticks) && 0 < price && 0 <= input
    ensures var r := SwapUp(ticks, price, liquidity, input, output);
            r.Done? ==> UpLaw(ticks, price, liquidity, input, r.output - output, r)
    decreases CountAbove(ticks, price)
  {
    hide UpTarget, UpOutput, UpPartial, NextAbove, UpLaw;
    var i := NextAbove(ticks, price, 0);
    if input == 0 {
      UpRests(ticks, price, liquidity, output);
    } else if liquidity > 0 && i < |ticks| {
      var tick := ticks[i];
      var dy := UpTarget(liquidity, price, tick.price);
      if input < dy {
        UpStops(ticks, price, liquidity, input, i);
        UpLawReads(ticks, price, liquidity, input, UpOutput(liquidity, price, UpPartial(liquidity, price, input)),
                   Done(UpPartial(liquidity, price, input), liquidity, 0, input, 0, false),
                   SwapUp(ticks, price, liquidity, input, output));
      } else {
        var out := output + UpOutput(liquidity, price, tick.price);
        NextAboveStrict(ticks, price, i);
        SwapUpObeys(ticks, tick.price, liquidity + tick.net, input - dy, out);
        var rest := SwapUp(ticks, tick.price, liquidity + tick.net, input - dy, out);
        if rest.Done? {
          UpCrosses(ticks, price, liquidity, input, i, rest, rest.output - out);
        }
      }
    }
  }

  // -------------------------------------------------- when a swap goes through

  /** One range between neighbouring ticks: what crossing it costs, and its liquidity. */
  datatype Rung = Rung(cost: int, liquidity: int)

  /** The ranges below the price, nearest first. */
  function RungsBelow(ticks: seq<Tick>, price: int, liquidity: int): seq<Rung>
    requires StrictlySorted(ticks)
    decreases Below(ticks, price)
  {
    if Below(ticks, price) == 0 then []
    else
      BelowNext(ticks, price);
      var next := ticks[Below(ticks, price) - 1];
      [Rung(DownTarget(liquidity, price, next.price), liquidity)] + RungsBelow(ticks, next.price, liquidity - next.net)
  }

  function RungsAbove(ticks: seq<Tick>, price: int, liquidity: int): seq<Rung>
    requires StrictlySorted(ticks)
    decreases CountAbove(ticks, price)
  {
    if CountAbove(ticks, price) == 0 then []
    else
      var i := NextAbove(ticks, price, 0);
      NextAboveStrict(ticks, price, i);
      [Rung(UpTarget(liquidity, price, ticks[i].price), liquidity)] + RungsAbove(ticks, ticks[i].price, liquidity + ticks[i].net)
  }

  function CostOf(rungs: seq<Rung>): int {
    if rungs == [] then 0 else rungs[0].cost + CostOf(rungs[1..])
  }

  predicate Liquid(rungs: seq<Rung>) {
    forall j :: 0 <= j < |rungs| ==> 0 < rungs[j].liquidity
  }

  /** The first k ranges are all liquid and together take the input. */
  predicate TakenBy(rungs: seq<Rung>, input: int, k: nat) {
    k <= |rungs| && Liquid(rungs[..k]) && input <= CostOf(rungs[..k])
  }

  ghost predicate CanTake(rungs: seq<Rung>, input: int) { exists k :: TakenBy(rungs, input, k) }

  ghost predicate CostsCount(rungs: seq<Rung>) {
    forall j :: 0 <= j < |rungs| && 0 < rungs[j].liquidity ==> 0 <= rungs[j].cost
  }

  lemma TakenNext(rungs: seq<Rung>, input: int, k: nat)
    requires rungs != [] && 0 < k <= |rungs|
    ensures TakenBy(rungs, input, k) <==> 0 < rungs[0].liquidity && TakenBy(rungs[1..], input - rungs[0].cost, k - 1)
  {
    var first, later := rungs[..k], rungs[1..][..k - 1];
    assert first[1..] == later && first[0] == rungs[0];
    assert forall j :: 0 < j < k ==> first[j] == later[j - 1];
    assert forall j :: 0 <= j < k - 1 ==> later[j] == first[j + 1];
  }

  /** The loop's view: nothing left, or a liquid range that takes the rest or passes it on. */
  lemma CanTakeSteps(rungs: seq<Rung>, input: int)
    requires CostsCount(rungs)
    ensures CanTake(rungs, input) <==>
              input <= 0 || (rungs != [] && 0 < rungs[0].liquidity
                             && (input < rungs[0].cost || CanTake(rungs[1..], input - rungs[0].cost)))
  {
    if input <= 0 {
      assert TakenBy(rungs, input, 0);
    } else if rungs != [] {
      if input < rungs[0].cost && 0 < rungs[0].liquidity {
        TakenNext(rungs, input, 1);
        assert TakenBy(rungs, input, 1);
      }
      if k :| TakenBy(rungs, input, k) {
        TakenNext(rungs, input, k);
      }
      if 0 < rungs[0].liquidity && CanTake(rungs[1..], input - rungs[0].cost) {
        var k: nat :| TakenBy(rungs[1..], input - rungs[0].cost, k);
        TakenNext(rungs, input, k + 1);
        assert TakenBy(rungs, input, k + 1);
      }
    }
  }

  lemma {:induction false} RungsBelowCount(ticks: seq<Tick>, price: int, liquidity: int)
    requires StrictlySorted(ticks) && PositivePrices(ticks) && 0 < price
    ensures CostsCount(RungsBelow(ticks, price, liquidity))
    decreases Below(ticks, price)
  {
    hide DownTarget;
    if Below(ticks, price) > 0 {
      BelowNext(ticks, price);
      var next := ticks[Below(ticks, price) - 1];
      RungsBelowCount(ticks, next.price, liquidity - next.net);
      if 0 < liquidity {
        DownTargetCounts(liquidity, price, next.price);
      }
    }
  }

  lemma DownTargetCounts(liquidity: int, price: int, target: int)
    requires 0 < liquidity && 0 < target < price
    ensures 0 <= DownTarget(liquidity, price, target)
  {
    PositiveArea(target, price);
    Commute(price, target);
    assert 0 <= liquidity * (price - target);
    QuotientCounts(liquidity * (price - target) * SCALE, price * target);
  }

  lemma QuotientCounts(n: int, d: int)
    requires 0 <= n && 0 < d
    ensures 0 <= n / d
  {
  }

  lemma {:induction false} RungsAboveCount(ticks: seq<Tick>, price: int, liquidity: int)
    requires StrictlySorted(ticks)
    ensures CostsCount(RungsAbove(ticks, price, liquidity))
    decreases CountAbove(ticks, price)
  {
    hide UpTarget;
    if CountAbove(ticks, price) > 0 {
      var i := NextAbove(ticks, price, 0);
      NextAboveStrict(ticks, price, i);
      RungsAboveCount(ticks, ticks[i].price, liquidity + ticks[i].net);
      if 0 < liquidity {
        UpTargetCounts(liquidity, price, ticks[i].price);
      }
    }
  }

  lemma UpTargetCounts(liquidity: int, price: int, target: int)
    requires 0 < liquidity && price < target
    ensures 0 <= UpTarget(liquidity, price, target)
  {
    assert 0 <= liquidity * (target - price);
    QuotientCounts(liquidity * (target - price), SCALE);
  }

  /** A downward swap goes through exactly when the liquid ranges next to its
      price can take the input. */
  lemma {:induction false} DownGoesThrough(ticks: seq<Tick>, price: int, liquidity: int, input: int, output: int)
    requires StrictlySorted(ticks) && PositivePrices(ticks) && 0 < price
    ensures SwapDown(ticks, price, liquidity, input, output).Done? <==> CanTake(RungsBelow(ticks, price, liquidity), input)
    decreases Below(ticks, price)
  {
    hide DownTarget, DownOutput, DownPartial, NextBelow, CanTake, CostsCount;
    var rungs := RungsBelow(ticks, price, liquidity);
    RungsBelowCount(ticks, price, liquidity);
    CanTakeSteps(rungs, input);
    SwapDownStops(ticks, price, liquidity, input, output);
    var i := Below(ticks, price);
    if 0 < input && 0 < liquidity && 0 < i {
      var next := ticks[i - 1];
      var dx := DownTarget(liquidity, price, next.price);
      assert rungs[0] == Rung(dx, liquidity) && rungs[1..] == RungsBelow(ticks, next.price, liquidity - next.net);
      if dx <= input {
        NextBelowStrict(ticks, price, i);
        SwapDownCrosses(ticks, price, liquidity, input, output, i - 1);
        DownGoesThrough(ticks, next.price, liquidity - next.net, input - dx, output + DownOutput(liquidity, price, next.price));
      }
    }
  }

  /** And so does an upward swap. */
  lemma {:induction false} UpGoesThrough(ticks: seq<Tick>, price: int, liquidity: int, input: int, output: int)
    requires StrictlySorted(ticks) && 0 < price
    ensures SwapUp(ticks, price, liquidity, input, output).Done? <==> CanTake(RungsAbove(ticks, price, liquidity), input)
    decreases CountAbove(ticks, price)
  {
    hide UpTarget, UpOutput, UpPartial, NextAbove, CanTake, CostsCount;
    var rungs := RungsAbove(ticks, price, liquidity);
    RungsAboveCount(ticks, price, liquidity);
    CanTakeSteps(rungs, input);
    var i := NextAbove(ticks, price, 0);
    if 0 < input && 0 < liquidity && i < |ticks| {
      var tick := ticks[i];
      var dy := UpTarget(liquidity, price, tick.price);
      NextAboveStrict(ticks, price, i);
      assert rungs[0] == Rung(dy, liquidity) && rungs[1..] == RungsAbove(ticks, tick.price, liquidity + tick.net);
      if dy <= input {
        UpGoesThrough(ticks, tick.price, liquidity + tick.net, input - dy, output + UpOutput(liquidity, price, tick.price));
      }
    }
  }
}
