/** The tick-crossing loop of a concentrated-liquidity swap as a function, and
    the laws it obeys: how far the cached active liquidity may drift from the
    positions, and which way an upward swap rounds. */
module SwapMath {
  import opened Sums
  import opened TickLedger

  const SCALE: int := 1_000_000_000_000_000_000

  function MulDiv(a: int, b: int, denominator: int): int {
    if denominator == 0 then 0 else (a * b) / denominator
  }

  datatype Failure = InvalidSwap | ZeroLiquidity | NoTick | RoundedToZero

  /** The end of a swap loop, with the input it took.  exact says that the last
      step landed on a tick and crossed it, rather than stopping inside a range. */
  datatype Outcome =
    | Done(price: int, liquidity: int, output: int, consumed: int, crossings: nat, exact: bool)
    | Failed(reason: Failure)

  function CountAbove(ticks: seq<Tick>, price: int): nat {
    |ticks| - NextAbove(ticks, price, 0)
  }

  /** The same end, k crossings and their cost later. */
  function Later(o: Outcome, cost: int, k: nat): Outcome {
    match o
    case Done(p, l, out, c, n, e) => Done(p, l, out, c + cost, n + k, e)
    case Failed(_) => o
  }

  lemma LaterAgain(o: Outcome, step: int, cost: int, k: nat)
    ensures Later(Later(o, step, 1), cost, k) == Later(o, cost + step, k + 1)
  {
  }

  lemma {:induction false} NextAboveStrict(ticks: seq<Tick>, price: int, i: nat)
    requires StrictlySorted(ticks) && i == NextAbove(ticks, price, 0) && i < |ticks|
    ensures CountAbove(ticks, ticks[i].price) < CountAbove(ticks, price)
  {
    var j := NextAbove(ticks, ticks[i].price, 0);
    if j < |ticks| {
      assert ticks[i].price < ticks[j].price;
    }
  }

  lemma NextBelowStrict(ticks: seq<Tick>, price: int, i: nat)
    requires StrictlySorted(ticks) && i == NextBelow(ticks, price, |ticks|) && i > 0
    ensures NextBelow(ticks, ticks[i - 1].price, |ticks|) < i
  {
    var j := NextBelow(ticks, ticks[i - 1].price, |ticks|);
    if j > 0 {
      assert ticks[j - 1].price < ticks[i - 1].price;
    }
  }

  // ------------------------------------------------- the two directions

  function UpTarget(liquidity: int, price: int, target: int): int {
    MulDiv(liquidity, target - price, SCALE)
  }

  function UpOutput(liquidity: int, price: int, target: int): int
    requires 0 < price && 0 < target
  {
    (liquidity * (target - price) * SCALE) / (price * target)
  }

  function UpPartial(liquidity: int, price: int, remaining: int): int {
    price + MulDiv(remaining, SCALE, liquidity)
  }

  /** token1 enters, the price rises. */
  function SwapUp(ticks: seq<Tick>, price: int, liquidity: int, remaining: int, output: int): Outcome
    requires StrictlySorted(ticks) && 0 < price
    decreases CountAbove(ticks, price)
  {
    if remaining <= 0 then Done(price, liquidity, output, 0, 0, true)
    else if liquidity <= 0 then Failed(ZeroLiquidity)
    else
      var i := NextAbove(ticks, price, 0);
      if i == |ticks| then Failed(NoTick)
      else
        var target := ticks[i].price;
        var dy := UpTarget(liquidity, price, target);
        if remaining < dy then
          UpPartialPaid(liquidity, price, remaining);
          var newP := UpPartial(liquidity, price, remaining);
          Done(newP, liquidity, output + UpOutput(liquidity, price, newP), remaining, 0, false)
        else
          NextAboveStrict(ticks, price, i);
          Later(SwapUp(ticks, target, liquidity + ticks[i].net, remaining - dy,
                       output + UpOutput(liquidity, price, target)), dy, 1)
  }

  function DownTarget(liquidity: int, price: int, target: int): int {
    MulDiv(liquidity * (price - target), SCALE, price * target)
  }

  function DownPartial(liquidity: int, price: int, remaining: int): int {
    MulDiv(liquidity * price, SCALE, liquidity * SCALE + remaining * price)
  }

  function DownOutput(liquidity: int, price: int, target: int): int {
    MulDiv(liquidity, price - target, SCALE)
  }

  /** token0 enters, the price falls. */
  function SwapDown(ticks: seq<Tick>, price: int, liquidity: int, remaining: int, output: int): Outcome
    requires StrictlySorted(ticks)
    decreases NextBelow(ticks, price, |ticks|)
  {
    if remaining <= 0 then Done(price, liquidity, output, 0, 0, true)
    else if liquidity <= 0 then Failed(ZeroLiquidity)
    else
      var i := NextBelow(ticks, price, |ticks|);
      if i == 0 then Failed(NoTick)
      else
        var target := ticks[i - 1].price;
        var dx := DownTarget(liquidity, price, target);
        if remaining < dx then
          var newP := DownPartial(liquidity, price, remaining);
          Done(newP, liquidity, output + DownOutput(liquidity, price, newP), remaining, 0, false)
        else
          NextBelowStrict(ticks, price, i);
          Later(SwapDown(ticks, target, liquidity - ticks[i - 1].net, remaining - dx,
                         output + DownOutput(liquidity, price, target)), dx, 1)
  }

  /** Where the downward loop does not go round again. */
  lemma SwapDownStops(ticks: seq<Tick>, price: int, liquidity: int, remaining: int, output: int)
    requires StrictlySorted(ticks)
    ensures remaining <= 0 ==> SwapDown(ticks, price, liquidity, remaining, output) == Done(price, liquidity, output, 0, 0, true)
    ensures 0 < remaining && liquidity <= 0 ==> SwapDown(ticks, price, liquidity, remaining, output) == Failed(ZeroLiquidity)
    ensures 0 < remaining && 0 < liquidity && NextBelow(ticks, price, |ticks|) == 0
        ==> SwapDown(ticks, price, liquidity, remaining, output) == Failed(NoTick)
  {
  }

  /** One crossing of the downward loop. */
  lemma SwapDownCrosses(ticks: seq<Tick>, price: int, liquidity: int, remaining: int, output: int, i: nat)
    requires StrictlySorted(ticks) && 0 < remaining && 0 < liquidity
    requires i + 1 == NextBelow(ticks, price, |ticks|)
    requires DownTarget(liquidity, price, ticks[i].price) <= remaining
    ensures SwapDown(ticks, price, liquidity, remaining, output)
         == Later(SwapDown(ticks, ticks[i].price, liquidity - ticks[i].net,
                           remaining - DownTarget(liquidity, price, ticks[i].price),
                           output + DownOutput(liquidity, price, ticks[i].price)),
                  DownTarget(liquidity, price, ticks[i].price), 1)
  {
  }

  // ------------------------------------------------- input and its costs

  /** An upward swap takes exactly its input. */
  lemma {:induction false} SwapUpConsumes(ticks: seq<Tick>, price: int, liquidity: int, remaining: int, output: int)
    requires StrictlySorted(ticks) && 0 < price && 0 <= remaining
    ensures var r := SwapUp(ticks, price, liquidity, remaining, output);
            r.Done? ==> r.consumed == remaining
    decreases CountAbove(ticks, price)
  {
    var i := NextAbove(ticks, price, 0);
    if remaining > 0 && liquidity > 0 && i < |ticks| && UpTarget(liquidity, price, ticks[i].price) <= remaining {
      var target := ticks[i].price;
      var dy := UpTarget(liquidity, price, target);
      NextAboveStrict(ticks, price, i);
      SwapUpConsumes(ticks, target, liquidity + ticks[i].net, remaining - dy, output + UpOutput(liquidity, price, target));
    }
  }

  /** How many ticks lie strictly below the price. */
  function Below(ticks: seq<Tick>, price: int): nat { NextBelow(ticks, price, |ticks|) }

  lemma BelowNext(ticks: seq<Tick>, price: int)
    requires StrictlySorted(ticks) && 0 < Below(ticks, price)
    ensures Below(ticks, ticks[Below(ticks, price) - 1].price) == Below(ticks, price) - 1
  {
    var i := Below(ticks, price);
    NextBelowStrict(ticks, price, i);
    if i > 1 {
      assert ticks[i - 2].price < ticks[i - 1].price;
    }
  }

  /** What it costs to cross the next k ticks below the price. */
  function CostTo(ticks: seq<Tick>, price: int, liquidity: int, k: nat): int
    requires StrictlySorted(ticks) && k <= Below(ticks, price)
    decreases k
  {
    if k == 0 then 0
    else
      BelowNext(ticks, price);
      var next := ticks[Below(ticks, price) - 1];
      DownTarget(liquidity, price, next.price) + CostTo(ticks, next.price, liquidity - next.net, k - 1)
  }

  /** An input that is exactly the cost of k crossings, and not of fewer. */
  predicate LandsOn(ticks: seq<Tick>, price: int, liquidity: int, input: int, k: nat)
    requires StrictlySorted(ticks)
  {
    && 1 <= k <= Below(ticks, price)
    && CostTo(ticks, price, liquidity, k) == input
    && forall j :: 0 <= j < k ==> CostTo(ticks, price, liquidity, j) < input
  }

  /** Where a downward swap ends, read off the costs of its crossings. */
  ghost predicate EndsByCost(ticks: seq<Tick>, price: int, liquidity: int, input: int, r: Outcome)
    requires StrictlySorted(ticks)
  {
    r.Done? ==>
      && r.crossings <= Below(ticks, price) && r.consumed == input
      && (forall j :: 0 <= j < r.crossings ==> CostTo(ticks, price, liquidity, j) < input)
      && (if r.exact then
            && CostTo(ticks, price, liquidity, r.crossings) == input
            && r.price == (if r.crossings > 0 then ticks[Below(ticks, price) - r.crossings].price else price)
          else
            && r.crossings < Below(ticks, price)
            && CostTo(ticks, price, liquidity, r.crossings) < input < CostTo(ticks, price, liquidity, r.crossings + 1))
  }

  lemma CostStep(ticks: seq<Tick>, price: int, liquidity: int, k: nat)
    requires StrictlySorted(ticks) && 0 < k <= Below(ticks, price)
    ensures var next := ticks[Below(ticks, price) - 1];
            && k - 1 <= Below(ticks, next.price)
            && CostTo(ticks, price, liquidity, k)
               == DownTarget(liquidity, price, next.price) + CostTo(ticks, next.price, liquidity - next.net, k - 1)
  {
    BelowNext(ticks, price);
  }

  lemma CostCrosses(ticks: seq<Tick>, price: int, liquidity: int, input: int, rest: Outcome)
    requires StrictlySorted(ticks) && 0 < input && 0 < Below(ticks, price)
    requires var next := ticks[Below(ticks, price) - 1];
             EndsByCost(ticks, next.price, liquidity - next.net, input - DownTarget(liquidity, price, next.price), rest)
    ensures EndsByCost(ticks, price, liquidity, input,
                       Later(rest, DownTarget(liquidity, price, ticks[Below(ticks, price) - 1].price), 1))
  {
    hide DownTarget, NextBelow, StrictlySorted;
    BelowNext(ticks, price);
    var next := ticks[Below(ticks, price) - 1];
    if rest.Done? {
      var n := rest.crossings;
      CostStep(ticks, price, liquidity, n + 1);
      if !rest.exact {
        CostStep(ticks, price, liquidity, n + 2);
      }
      forall j | 0 <= j < n + 1 ensures CostTo(ticks, price, liquidity, j) < input {
        if j > 0 {
          CostStep(ticks, price, liquidity, j);
        }
      }
    }
  }

  lemma {:induction false} SwapDownEndsByCost(ticks: seq<Tick>, price: int, liquidity: int, input: int, output: int)
    requires StrictlySorted(ticks) && 0 <= input
    ensures EndsByCost(ticks, price, liquidity, input, SwapDown(ticks, price, liquidity, input, output))
    decreases Below(ticks, price)
  {
    hide DownTarget, DownOutput, DownPartial, NextBelow;
    var i := Below(ticks, price);
    if input > 0 && liquidity > 0 && i > 0 {
      var target := ticks[i - 1].price;
      var dx := DownTarget(liquidity, price, target);
      if dx <= input {
        hide EndsByCost, CostTo;
        NextBelowStrict(ticks, price, i);
        var out := output + DownOutput(liquidity, price, target);
        SwapDownEndsByCost(ticks, target, liquidity - ticks[i - 1].net, input - dx, out);
        var rest := SwapDown(ticks, target, liquidity - ticks[i - 1].net, input - dx, out);
        SwapDownCrosses(ticks, price, liquidity, input, output, i - 1);
        CostCrosses(ticks, price, liquidity, input, rest);
      } else {
        CostStep(ticks, price, liquidity, 1);
      }
    }
  }

  /** A downward swap that goes through lands on the k-th tick below exactly when
      its input is the cost of k crossings. */
  lemma LandsExactly(ticks: seq<Tick>, price: int, liquidity: int, input: int)
    requires StrictlySorted(ticks) && 0 < input
    ensures var r := SwapDown(ticks, price, liquidity, input, 0);
            r.Done? ==>
              && (r.exact <==> exists k :: LandsOn(ticks, price, liquidity, input, k))
              && (forall k :: LandsOn(ticks, price, liquidity, input, k) ==>
                    k == r.crossings && r.price == ticks[Below(ticks, price) - k].price)
  {
    var r := SwapDown(ticks, price, liquidity, input, 0);
    SwapDownEndsByCost(ticks, price, liquidity, input, 0);
    if r.Done? {
      if r.exact {
        assert LandsOn(ticks, price, liquidity, input, r.crossings);
      }
      forall k | LandsOn(ticks, price, liquidity, input, k) ensures r.exact && k == r.crossings {
        OneLanding(ticks, price, liquidity, input, r, k);
      }
    }
  }

  lemma OneLanding(ticks: seq<Tick>, price: int, liquidity: int, input: int, r: Outcome, k: nat)
    requires StrictlySorted(ticks) && 0 < input && r.Done? && EndsByCost(ticks, price, liquidity, input, r)
    requires LandsOn(ticks, price, liquidity, input, k)
    ensures r.exact && k == r.crossings
  {
  }

  // ------------------------------------------------------ step arithmetic

  /** A partial upward step stops strictly below the next tick. */
  lemma UpPartialStopsShort(liquidity: int, price: int, target: int, remaining: int)
    requires 0 < liquidity && 0 < price < target
    requires 0 < remaining < UpTarget(liquidity, price, target)
    ensures price <= UpPartial(liquidity, price, remaining) < target
  {
    var gap := liquidity * (target - price);
    var move := (remaining * SCALE) / liquidity;
    assert remaining * SCALE < gap by {
      assert SCALE * (gap / SCALE) <= gap;
      assert remaining < gap / SCALE;
    }
    assert liquidity * move <= remaining * SCALE;
    if move >= target - price {
      MulMonotone(liquidity, target - price, move);
      assert false;
    }
  }

  /** A partial downward step moves the price, and not past the next tick. */
  lemma DownPartialStaysAbove(liquidity: int, price: int, target: int, remaining: int)
    requires 0 < liquidity && 0 < target < price
    requires 0 < remaining < DownTarget(liquidity, price, target)
    ensures target <= DownPartial(liquidity, price, remaining) < price
  {
    var den := liquidity * SCALE + remaining * price;
    var num := liquidity * price * SCALE;
    assert 0 < den;
    assert (liquidity * price) * SCALE == num;
    DownRoom(liquidity, price, target, remaining);
    assert target * den <= num;
    QuotientBounds(num, den, target, price) by {
      assert price * den == num + price * (remaining * price);
    }
  }

  lemma DownRoom(liquidity: int, price: int, target: int, remaining: int)
    requires 0 < liquidity && 0 < target < price
    requires 0 < remaining < DownTarget(liquidity, price, target)
    ensures target * (liquidity * SCALE + remaining * price) <= liquidity * price * SCALE
  {
    var area := price * target;
    var gap := liquidity * (price - target) * SCALE;
    assert 0 < area;
    assert area * (gap / area) <= gap;
    MulMonotone(area, remaining, gap / area);
    assert area * remaining <= gap;
    assert gap == liquidity * price * SCALE - liquidity * target * SCALE;
    assert target * (liquidity * SCALE + remaining * price)
        == liquidity * target * SCALE + area * remaining;
  }

  lemma QuotientBounds(num: int, den: int, lo: int, hi: int)
    requires 0 < den && lo * den <= num < hi * den
    ensures lo <= num / den < hi
  {
    var q := num / den;
    assert den * q <= num < den * q + den;
    if q < lo {
      MulMonotone(den, q + 1, lo);
      assert false;
    }
    if q >= hi {
      MulMonotone(den, hi, q);
      assert false;
    }
  }

  // ------------------------------------------------------------ the drift

  /** What the cached liquidity has beyond the ticks at or under the price. */
  function Drift(ticks: seq<Tick>, price: int, liquidity: int): int {
    liquidity - NetUpTo(ticks, price)
  }

  /** An upward swap from any state leaves the drift unchanged. */
  lemma {:induction false} SwapUpKeepsDrift(ticks: seq<Tick>, price: int, liquidity: int, remaining: int, output: int)
    requires StrictlySorted(ticks) && 0 < price
    ensures var r := SwapUp(ticks, price, liquidity, remaining, output);
            r.Done? ==> r.price >= price && Drift(ticks, r.price, r.liquidity) == Drift(ticks, price, liquidity)
    decreases CountAbove(ticks, price)
  {
    if remaining > 0 && liquidity > 0 {
      var i := NextAbove(ticks, price, 0);
      if i < |ticks| {
        var target := ticks[i].price;
        var dy := UpTarget(liquidity, price, target);
        if remaining < dy {
          UpPartialStopsShort(liquidity, price, target, remaining);
          UpwardGap(ticks, price, i, UpPartial(liquidity, price, remaining));
        } else {
          NextAboveStrict(ticks, price, i);
          UpwardGap(ticks, price, i, price);
          SwapUpKeepsDrift(ticks, target, liquidity + ticks[i].net, remaining - dy,
                           output + UpOutput(liquidity, price, target));
        }
      }
    }
  }

  /** The drift just under the price before a downward swap, and where its end
      leaves that drift: just under the new price after a last step that
      crosses a tick, at the new price after a last step inside a range. */
  ghost predicate DriftCarried(ticks: seq<Tick>, price: int, liquidity: int, r: Outcome) {
    r.Done? ==>
      && 0 < r.price <= price
      && Drift(ticks, price - 1, liquidity) == Drift(ticks, if r.exact then r.price - 1 else r.price, r.liquidity)
  }

  lemma DownPartialDrift(ticks: seq<Tick>, price: int, liquidity: int, remaining: int, i: nat)
    requires StrictlySorted(ticks) && PositivePrices(ticks) && 0 < price && 0 < liquidity
    requires i == NextBelow(ticks, price, |ticks|) && i > 0
    requires 0 < remaining < DownTarget(liquidity, price, ticks[i - 1].price)
    ensures var newP := DownPartial(liquidity, price, remaining);
            0 < newP < price && NetUpTo(ticks, newP) == NetUpTo(ticks, price - 1)
  {
    DownPartialStaysAbove(liquidity, price, ticks[i - 1].price, remaining);
    DownwardGap(ticks, price, i, DownPartial(liquidity, price, remaining));
  }

  /** A downward swap carries its drift over, from any state. */
  lemma {:induction false} SwapDownDrift(ticks: seq<Tick>, price: int, liquidity: int, remaining: int, output: int)
    requires StrictlySorted(ticks) && PositivePrices(ticks) && 0 < price
    ensures DriftCarried(ticks, price, liquidity, SwapDown(ticks, price, liquidity, remaining, output))
    decreases NextBelow(ticks, price, |ticks|)
  {
    if remaining > 0 && liquidity > 0 {
      var i := NextBelow(ticks, price, |ticks|);
      if i > 0 {
        var target := ticks[i - 1].price;
        var dx := DownTarget(liquidity, price, target);
        if remaining < dx {
          DownPartialDrift(ticks, price, liquidity, remaining, i);
        } else {
          NextBelowStrict(ticks, price, i);
          DownwardGap(ticks, price, i, target);
          var l := liquidity - ticks[i - 1].net;
          var out := output + DownOutput(liquidity, price, target);
          SwapDownDrift(ticks, target, l, remaining - dx, out);
          var rest := SwapDown(ticks, target, l, remaining - dx, out);
          assert SwapDown(ticks, price, liquidity, remaining, output) == Later(rest, dx, 1);
        }
      }
    }
  }

  // ----------------------------------------------- value paid out upwards

  lemma ProductsGrow(p0: int, price: int, target: int, x: int)
    requires 0 < p0 <= price <= target && 0 <= x
    ensures x * (p0 * p0) <= x * (price * target)
  {
    assert p0 * p0 <= price * p0;
    assert price * p0 <= price * target;
    MulMonotone(x, p0 * p0, price * target);
  }

  /** One upward step pays out at most the paid input at the old price, plus
      one unit of input for the floor when a tick is crossed. */
  lemma UpStepPays(p0: int, liquidity: int, price: int, target: int, paid: int)
    requires 0 < p0 <= price <= target && 0 < liquidity
    requires liquidity * (target - price) <= paid * SCALE
    ensures UpOutput(liquidity, price, target) * (p0 * p0) <= paid * (SCALE * SCALE)
    ensures 0 <= UpOutput(liquidity, price, target)
  {
    var gap := liquidity * (target - price);
    var area := price * target;
    var out := (gap * SCALE) / area;
    assert 0 < area;
    assert 0 <= gap;
    assert 0 <= gap * SCALE;
    assert area * out <= gap * SCALE;
    assert 0 <= out by {
      if out < 0 {
        MulMonotone(area, out + 1, 0);
        assert false;
      }
    }
    ProductsGrow(p0, price, target, out);
    assert gap * SCALE <= paid * SCALE * SCALE;
  }

  lemma UpPartialPaid(liquidity: int, price: int, remaining: int)
    requires 0 < liquidity && 0 < remaining
    ensures var newP := UpPartial(liquidity, price, remaining);
            price <= newP && liquidity * (newP - price) <= remaining * SCALE
  {
    var m := (remaining * SCALE) / liquidity;
    assert liquidity * m <= remaining * SCALE;
    assert UpPartial(liquidity, price, remaining) - price == m;
  }

  /** The payout of an upward swap that starts at p0 or above. */
  lemma {:induction false} SwapUpPays(p0: int, ticks: seq<Tick>, price: int, liquidity: int, remaining: int, output: int)
    requires StrictlySorted(ticks) && 0 < p0 <= price && 0 <= remaining
    ensures var r := SwapUp(ticks, price, liquidity, remaining, output);
            r.Done? ==> (r.output - output) * (p0 * p0) <= (remaining + r.crossings) * (SCALE * SCALE)
    decreases CountAbove(ticks, price)
  {
    if remaining > 0 && liquidity > 0 {
      var i := NextAbove(ticks, price, 0);
      if i < |ticks| {
        var target := ticks[i].price;
        var dy := UpTarget(liquidity, price, target);
        if remaining < dy {
          UpPartialPaid(liquidity, price, remaining);
          UpStepPays(p0, liquidity, price, UpPartial(liquidity, price, remaining), remaining);
        } else {
          NextAboveStrict(ticks, price, i);
          var out := UpOutput(liquidity, price, target);
          assert liquidity * (target - price) <= (dy + 1) * SCALE;
          UpStepPays(p0, liquidity, price, target, dy + 1);
          SwapUpPays(p0, ticks, target, liquidity + ticks[i].net, remaining - dy, output + out);
          var r := SwapUp(ticks, price, liquidity, remaining, output);
          if r.Done? {
            AddPayouts(out, r.output - output - out, p0 * p0, dy + 1, remaining - dy + r.crossings - 1, SCALE * SCALE);
          }
        }
      }
    }
  }

  lemma AddPayouts(a: int, b: int, c: int, u: int, v: int, d: int)
    requires a * c <= u * d && b * c <= v * d
    ensures (a + b) * c <= (u + v) * d
  {
    assert (a + b) * c == a * c + b * c;
    assert (u + v) * d == u * d + v * d;
  }

  /** The price paid for a whole upward swap, whatever it crosses: the output
      is worth at most the input plus one unit for each crossed tick at the
      price it started from. */
  lemma UpwardSwapPays(ticks: seq<Tick>, price: int, liquidity: int, netInput: int)
    requires StrictlySorted(ticks) && 0 < price && 0 <= netInput
    ensures var r := SwapUp(ticks, price, liquidity, netInput, 0);
            r.Done? ==> r.output * (price * price) <= (netInput + r.crossings) * (SCALE * SCALE)
  {
    SwapUpPays(price, ticks, price, liquidity, netInput, 0);
  }
}
