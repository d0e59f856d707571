/** What the operations of a pool mean for those who use it: what a swap pays out
    of the positions, who earns a fee, and what adding, handing over and
    withdrawing a position give back. */
module PoolLaws {
  import opened Basics
  import opened Sums
  import opened TickLedger
  import opened SwapMath
  import opened SwapLaws
  import opened PoolModel

  // --------------------------------------------------- what a swap pays out

  /** The token1, in units of 1/SCALE, that the positions hold between two prices,
      when the counter is off by base. */
  ghost function PositionsToken1(positions: Positions, base: int, lo: int, hi: int): int
    decreases hi - lo
  {
    if lo >= hi then 0 else base + ActiveAt(positions, lo) + PositionsToken1(positions, base, lo + 1, hi)
  }

  ghost function PositionsToken0(positions: Positions, base: int, lo: int, hi: int): real
    requires 0 < lo
    decreases hi - lo
  {
    if lo >= hi then 0.0
    else ((base + ActiveAt(positions, lo)) * SCALE) as real * (Inverse(lo) - Inverse(lo + 1))
         + PositionsToken0(positions, base, lo + 1, hi)
  }

  lemma {:induction false} TicksHoldToken1(ticks: seq<Tick>, positions: Positions, base: int, lo: int, hi: int)
    requires Backed(ticks, positions)
    ensures PositionsToken1(positions, base, lo, hi) == Token1(ticks, base, lo, hi)
    decreases hi - lo
  {
    if lo < hi {
      TicksHoldToken1(ticks, positions, base, lo + 1, hi);
      assert NetUpTo(ticks, lo) == ActiveAt(positions, lo);
    }
  }

  lemma {:induction false} TicksHoldToken0(ticks: seq<Tick>, positions: Positions, base: int, lo: int, hi: int)
    requires Backed(ticks, positions) && 0 < lo
    ensures PositionsToken0(positions, base, lo, hi) == Token0(ticks, base, lo, hi)
    decreases hi - lo
  {
    if lo < hi {
      TicksHoldToken0(ticks, positions, base, lo + 1, hi);
      assert NetUpTo(ticks, lo) == ActiveAt(positions, lo);
    }
  }

  /** How far the counter is from the positions just below the price, and at it. */
  ghost function OffBelow(p: Pool): int { p.liquidity - ActiveAt(p.positions, p.price - 1) }

  lemma ConsistentIsExact(p: Pool)
    requires BackedPool(p) && Consistent(p)
    ensures PoolDrift(p) == 0
    ensures NetAt(p.ticks, p.price) == 0 ==> OffBelow(p) == 0
  {
    assert NetUpTo(p.ticks, p.price) == ActiveAt(p.positions, p.price);
    assert NetUpTo(p.ticks, p.price - 1) == ActiveAt(p.positions, p.price - 1);
  }

  /** The fee is what the rounded-down net input leaves. */
  lemma NetInputRounds(p: Pool, amountIn: int)
    ensures var net := NetInput(p, amountIn);
            10000 * net <= amountIn * (10000 - p.feeBPS) < 10000 * (net + 1)
  {
    FloorOf(amountIn * (10000 - p.feeBPS), 10000);
  }

  /** A downward swap pays the token1 the positions hold down to its end price,
      less under a unit a step, and ends at the highest price above which they
      hold its net input in token0, give or take a unit a crossing. */
  lemma DownwardSwapPays(p: Pool, amountIn: int)
    requires BackedPool(p) && PositivePrices(p.ticks)
    ensures var o := SwapOutcome(p, amountIn, true);
            var net := NetInput(p, amountIn);
            o.Done? ==>
              && 0 < net && 0 < o.price <= p.price
              && o.output * SCALE <= PositionsToken1(p.positions, OffBelow(p), o.price, p.price)
                                  < (o.output + o.crossings + 1) * SCALE
              && net as real <= PositionsToken0(p.positions, OffBelow(p), o.price, p.price)
              && PositionsToken0(p.positions, OffBelow(p), o.price + 1, p.price) < net as real + o.crossings as real
  {
    var o := SwapOutcome(p, amountIn, true);
    if o.Done? {
      var net, base := NetInput(p, amountIn), OffBelow(p);
      PositiveNet(p, amountIn);
      assert NetUpTo(p.ticks, p.price - 1) == ActiveAt(p.positions, p.price - 1);
      SwapDownObeys(p.ticks, p.price, p.liquidity, net, 0);
      TicksHoldToken1(p.ticks, p.positions, base, o.price, p.price);
      TicksHoldToken0(p.ticks, p.positions, base, o.price, p.price);
      TicksHoldToken0(p.ticks, p.positions, base, o.price + 1, p.price);
    }
  }

  /** An upward swap pays the token0 the positions hold up to its end price, less
      under a unit a step; its net input is the token1 they hold there. */
  lemma UpwardSwapPaysOut(p: Pool, amountIn: int)
    requires BackedPool(p)
    ensures var o := SwapOutcome(p, amountIn, false);
            var net := NetInput(p, amountIn);
            o.Done? ==>
              && 0 < p.price <= o.price
              && o.output as real <= PositionsToken0(p.positions, PoolDrift(p), p.price, o.price)
                                   < o.output as real + o.crossings as real + 1.0
              && PositionsToken1(p.positions, PoolDrift(p), p.price, o.price) <= (net + o.crossings) * SCALE
              && net * SCALE <= PositionsToken1(p.positions, PoolDrift(p), p.price, if o.exact then o.price else o.price + 1)
  {
    var o := SwapOutcome(p, amountIn, false);
    if o.Done? {
      var net, base := NetInput(p, amountIn), PoolDrift(p);
      NetInputFits(amountIn, p.feeBPS);
      assert NetUpTo(p.ticks, p.price) == ActiveAt(p.positions, p.price);
      SwapUpObeys(p.ticks, p.price, p.liquidity, net, 0);
      TicksHoldToken1(p.ticks, p.positions, base, p.price, o.price);
      TicksHoldToken1(p.ticks, p.positions, base, p.price, o.price + 1);
      TicksHoldToken0(p.ticks, p.positions, base, p.price, o.price);
    }
  }

  /** A valid swap fails exactly when the liquid ranges next to the price cannot
      take its net input, or its output rounds to nothing. */
  lemma SwapSucceeds(p: Pool, amountIn: int, zeroForOne: bool)
    requires BackedPool(p) && PositivePrices(p.ticks)
    requires 0 < amountIn && 0 < p.price && 0 < p.liquidity && 0 <= p.feeBPS <= 1000
    ensures var o := SwapOutcome(p, amountIn, zeroForOne);
            var rungs := if zeroForOne then RungsBelow(p.ticks, p.price, p.liquidity)
                         else RungsAbove(p.ticks, p.price, p.liquidity);
            && (o.Done? || o == Failed(RoundedToZero) <==> CanTake(rungs, NetInput(p, amountIn)))
            && (o.Done? ==> 0 < o.output)
            && (ApplySwap(p, amountIn, zeroForOne).Some? <==> o.Done?)
  {
    hide SwapDown, SwapUp, CanTake, RungsBelow, RungsAbove, AccrueFee;
    if zeroForOne {
      DownGoesThrough(p.ticks, p.price, p.liquidity, NetInput(p, amountIn), 0);
      DownFailures(p.ticks, p.price, p.liquidity, NetInput(p, amountIn), 0);
    } else {
      UpGoesThrough(p.ticks, p.price, p.liquidity, NetInput(p, amountIn), 0);
      UpFailures(p.ticks, p.price, p.liquidity, NetInput(p, amountIn), 0);
    }
  }

  lemma {:induction false} DownFailures(ticks: seq<Tick>, price: int, liquidity: int, input: int, output: int)
    requires StrictlySorted(ticks)
    ensures SwapDown(ticks, price, liquidity, input, output) != Failed(RoundedToZero)
    decreases Below(ticks, price)
  {
    var i := Below(ticks, price);
    if 0 < input && 0 < liquidity && 0 < i {
      var next := ticks[i - 1];
      var dx := DownTarget(liquidity, price, next.price);
      if dx <= input {
        NextBelowStrict(ticks, price, i);
        DownFailures(ticks, next.price, liquidity - next.net, input - dx, output + DownOutput(liquidity, price, next.price));
      }
    }
  }

  lemma {:induction false} UpFailures(ticks: seq<Tick>, price: int, liquidity: int, input: int, output: int)
    requires StrictlySorted(ticks) && 0 < price
    ensures SwapUp(ticks, price, liquidity, input, output) != Failed(RoundedToZero)
    decreases CountAbove(ticks, price)
  {
    var i := NextAbove(ticks, price, 0);
    if 0 < input && 0 < liquidity && i < |ticks| {
      var tick := ticks[i];
      var dy := UpTarget(liquidity, price, tick.price);
      if dy <= input {
        NextAboveStrict(ticks, price, i);
        UpFailures(ticks, tick.price, liquidity + tick.net, input - dy, output + UpOutput(liquidity, price, tick.price));
      }
    }
  }

  // ------------------------------------------------------- who earns a fee

  function Owed(pos: Position, token0: bool): int { if token0 then pos.owed0 else pos.owed1 }

  /** Each position that covers the price earns its liquidity's part of the fee,
      rounded down, in the token of the fee; nothing else about it changes, and the
      positions that do not cover the price earn nothing. */
  lemma FeeGoesToCovering(p: Pool, fee: int, token0: bool, id: string)
    requires 0 < fee && id in p.positions
    ensures var q := AccrueFee(p, fee, token0);
            && id in q.positions
            && var a, b := p.positions[id], q.positions[id];
            && b.(owed0 := 0, owed1 := 0) == a.(owed0 := 0, owed1 := 0)
            && Owed(b, !token0) == Owed(a, !token0)
            && (!a.Covers(p.price) ==> b == a)
            && (a.Covers(p.price) && 0 < ActiveAt(p.positions, p.price) ==>
                  var earned := Owed(b, token0) - Owed(a, token0);
                  var all := ActiveAt(p.positions, p.price);
                  earned * all <= fee * a.liquidity < (earned + 1) * all)
  {
    hide Total, ActiveAt, Shares;
    ActiveWeightsTotal(p);
    if 0 < Total(ActiveWeights(p)) {
      FloorOf(fee * p.positions[id].liquidity, Total(ActiveWeights(p)));
    }
  }

  // --------------------------------------------- adding and withdrawing

  /** A fresh position is accepted whatever the pool holds, and puts its liquidity
      at exactly the prices of its range; its owner, and no one else, can withdraw
      it at once, and withdrawing all of it restores counter, positions and the
      net liquidity at every price. */
  lemma AddThenRemove(p: Pool, id: string, owner: string, lower: int, upper: int, liquidity: int, who: string)
    requires BackedPool(p) && Consistent(p)
    ensures ApplyAdd(p, id, owner, lower, upper, liquidity).Some?
       <==> id !in p.positions && id != "" && owner != "" && 0 < liquidity && lower < upper
    ensures ApplyAdd(p, id, owner, lower, upper, liquidity).Some? ==>
              var q := ApplyAdd(p, id, owner, lower, upper, liquidity).value;
              var r := ApplyRemove(q, id, who, liquidity);
              && q.positions.Keys == p.positions.Keys + {id}
              && (forall x :: NetUpTo(q.ticks, x) == NetUpTo(p.ticks, x) + if lower <= x < upper then liquidity else 0)
              && (r.Some? <==> who == owner)
              && (r.Some? ==>
                    && r.value.positions == p.positions && r.value.liquidity == p.liquidity && r.value.price == p.price
                    && BackedPool(r.value)
                    && forall x :: NetUpTo(r.value.ticks, x) == NetUpTo(p.ticks, x))
  {
    hide AddTick, ActiveAt, NetUpTo;
    if ApplyAdd(p, id, owner, lower, upper, liquidity).Some? {
      var q := ApplyAdd(p, id, owner, lower, upper, liquidity).value;
      AddKeeps(p, id, owner, lower, upper, liquidity);
      AddTickCorrect(p.ticks, lower, liquidity);
      AddTickCorrect(AddTick(p.ticks, lower, liquidity), upper, -liquidity);
      StillConsistent(p, q);
      OwnerCanWithdraw(q, id, who, liquidity);
      var r := ApplyRemove(q, id, who, liquidity);
      if r.Some? {
        RemoveKeeps(q, id, who, liquidity);
        assert r.value.positions == p.positions;
      }
    }
  }

  lemma StillConsistent(p: Pool, q: Pool)
    requires Consistent(p) && PoolDrift(q) == PoolDrift(p)
    ensures Consistent(q)
  {
  }

  /** A transferred position belongs to its new owner, who alone can withdraw it,
      collect its fees and pass it on; what it holds is untouched. */
  lemma TransferHandsOver(p: Pool, id: string, from: string, to: string, who: string, liquidity: int)
    requires BackedPool(p) && Consistent(p)
    ensures ApplyTransfer(p, id, from, to).Some? <==> id in p.positions && p.positions[id].owner == from && to != ""
    ensures ApplyTransfer(p, id, from, to).Some? ==>
              var q := ApplyTransfer(p, id, from, to).value;
              && (ApplyRemove(q, id, who, liquidity).Some? <==> who == to && 0 < liquidity <= p.positions[id].liquidity)
              && (ApplyCollect(q, id, who).Some? <==> who == to)
              && (forall other :: ApplyTransfer(q, id, who, other).Some? <==> who == to && other != "")
              && (forall x :: x != id && x in p.positions ==> x in q.positions && q.positions[x] == p.positions[x])
  {
    hide AddTick, ActiveAt, NetUpTo;
    if ApplyTransfer(p, id, from, to).Some? {
      var q := ApplyTransfer(p, id, from, to).value;
      TransferKeeps(p, id, from, to);
      StillConsistent(p, q);
      OwnerCanWithdraw(q, id, who, liquidity);
    }
  }
}
