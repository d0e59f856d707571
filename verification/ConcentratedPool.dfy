/** The pool object, updated in place, proved against the value model. */
module ConcentratedPoolObject {
  import opened Basics
  import opened Sums
  import opened TickLedger
  import opened SwapMath
  import opened PoolModel

  class ConcentratedPool {
    var price: int
    var liquidity: int
    var feeBPS: int
    var ticks: seq<Tick>
    var positions: Positions
    var remainder0: int
    var remainder1: int

    function State(): Pool
      reads this
    {
      Pool(price, liquidity, feeBPS, ticks, positions, remainder0, remainder1)
    }

    ghost predicate Valid()
      reads this
    {
      BackedPool(State())
    }

    constructor (price: int, feeBPS: int)
      ensures State() == Pool(price, 0, feeBPS, [], map[], 0, 0) && Valid()
    {
      this.price, this.liquidity, this.feeBPS := price, 0, feeBPS;
      ticks, positions := [], map[];
      remainder0, remainder1 := 0, 0;
      EmptyPool(price, feeBPS);
    }

    /** deepCopy: the working pool of a swap. */
    constructor Copy(p: ConcentratedPool)
      ensures State() == p.State()
    {
      price, liquidity, feeBPS := p.price, p.liquidity, p.feeBPS;
      ticks, positions := p.ticks, p.positions;
      remainder0, remainder1 := p.remainder0, p.remainder1;
    }

    method AddTickAt(tickPrice: int, delta: int)
      modifies this`ticks
      ensures ticks == AddTick(old(ticks), tickPrice, delta)
    {
      var i := 0;
      while i < |ticks|
        invariant 0 <= i <= |ticks| && ticks == old(ticks)
        invariant Find(ticks, tickPrice, 0) == Find(ticks, tickPrice, i)
      {
        if ticks[i].price == tickPrice {
          ticks := ticks[i := Tick(tickPrice, ticks[i].net + delta)];
          return;
        }
        i := i + 1;
      }
      ticks := Sorting.Sort(PriceLeq, ticks + [Tick(tickPrice, delta)]);
    }

    method AddRange(lower: int, upper: int, amount: int) returns (ok: bool)
      modifies this`ticks, this`liquidity
      ensures ok <==> 0 < amount && lower < upper
      ensures State() == if ok then PoolModel.AddRange(old(State()), lower, upper, amount) else old(State())
    {
      ok := amount > 0 && lower < upper;
      if ok {
        AddTickAt(lower, amount);
        AddTickAt(upper, -amount);
        if lower <= price < upper {
          liquidity := liquidity + amount;
        }
      }
    }

    method AddPosition(id: string, owner: string, lower: int, upper: int, amount: int) returns (ok: bool)
      requires Valid()
      modifies this
      ensures Valid()
      ensures ok <==> ApplyAdd(old(State()), id, owner, lower, upper, amount).Some?
      ensures State() == Next(old(State()), Op.AddPosition(id, owner, lower, upper, amount))
    {
      AddKeeps(State(), id, owner, lower, upper, amount);
      if id == "" || owner == "" || id in positions {
        return false;
      }
      ok := AddRange(lower, upper, amount);
      if ok {
        positions := positions[id := Position(owner, lower, upper, amount, 0, 0)];
      }
    }

    method RemovePosition(id: string, owner: string, amount: int) returns (left: Option<Position>)
      requires Valid()
      modifies this
      ensures Valid()
      ensures left.Some? <==> ApplyRemove(old(State()), id, owner, amount).Some?
      ensures left.Some? ==> left.value == old(positions)[id].(liquidity := old(positions)[id].liquidity - amount)
      ensures State() == Next(old(State()), Op.RemovePosition(id, owner, amount))
    {
      RemoveKeeps(State(), id, owner, amount);
      if id !in positions || positions[id].owner != owner || amount <= 0 || positions[id].liquidity < amount {
        return None;
      }
      var position := positions[id];
      var active := position.lower <= price < position.upper;
      if active && liquidity < amount {
        return None;
      }
      position := Withdraw(id, amount, active);
      return Some(position);
    }

    /** The part of RemovePosition after its checks. */
    method Withdraw(id: string, amount: int, active: bool) returns (left: Position)
      requires id in positions && ApplyRemove(State(), id, positions[id].owner, amount).Some?
      requires active <==> positions[id].lower <= price < positions[id].upper
      modifies this
      ensures left == old(positions)[id].(liquidity := old(positions)[id].liquidity - amount)
      ensures State() == ApplyRemove(old(State()), id, left.owner, amount).value
    {
      left := positions[id];
      AddTickAt(left.lower, -amount);
      AddTickAt(left.upper, amount);
      if active {
        liquidity := liquidity - amount;
      }
      left := left.(liquidity := left.liquidity - amount);
      positions := positions[id := left];
      if Emptied(left) {
        positions := positions - {id};
        assert positions == old(positions) - {id};
      }
    }

    method TransferPosition(id: string, from: string, to: string) returns (ok: bool)
      requires Valid()
      modifies this`positions
      ensures Valid()
      ensures ok <==> ApplyTransfer(old(State()), id, from, to).Some?
      ensures State() == Next(old(State()), Op.TransferPosition(id, from, to))
    {
      TransferKeeps(State(), id, from, to);
      ok := id in positions && positions[id].owner == from && to != "";
      if ok {
        positions := positions[id := positions[id].(owner := to)];
      }
    }

    method CollectPositionFees(id: string, owner: string) returns (owed: Option<(int, int)>)
      requires Valid()
      modifies this`positions
      ensures Valid()
      ensures owed.Some? <==> ApplyCollect(old(State()), id, owner).Some?
      ensures owed.Some? ==> owed.value == (old(positions)[id].owed0, old(positions)[id].owed1)
      ensures State() == Next(old(State()), Op.CollectFees(id, owner))
    {
      CollectKeeps(State(), id, owner);
      if id !in positions || positions[id].owner != owner {
        return None;
      }
      owed := Some((positions[id].owed0, positions[id].owed1));
      positions := positions[id := positions[id].(owed0 := 0, owed1 := 0)];
      if positions[id].liquidity == 0 {
        positions := positions - {id};
        assert positions == old(positions) - {id};
      }
    }

    /** nextTick: the index of the closest tick strictly beyond the price. */
    method NextTick(zeroForOne: bool) returns (found: bool, i: nat)
      ensures zeroForOne ==> (found <==> NextBelow(ticks, price, |ticks|) > 0)
                             && (found ==> i + 1 == NextBelow(ticks, price, |ticks|))
      ensures !zeroForOne ==> (found <==> NextAbove(ticks, price, 0) < |ticks|)
                              && (found ==> i == NextAbove(ticks, price, 0))
    {
      if zeroForOne {
        var k := |ticks|;
        while k > 0
          invariant 0 <= k <= |ticks| && NextBelow(ticks, price, k) == NextBelow(ticks, price, |ticks|)
        {
          if ticks[k - 1].price < price {
            return true, k - 1;
          }
          k := k - 1;
        }
      } else {
        var k := 0;
        while k < |ticks|
          invariant 0 <= k <= |ticks| && NextAbove(ticks, price, k) == NextAbove(ticks, price, 0)
        {
          if ticks[k].price > price {
            return true, k;
          }
          k := k + 1;
        }
      }
      return false, 0;
    }

    /** The ids of the positions that cover the price and the sum of their
        liquidity, gathered in whatever order the map is visited. */
    method GatherActive() returns (active: set<string>, total: int)
      ensures active == ActiveWeights(State()).Keys && total == Total(ActiveWeights(State()))
    {
      ghost var w := ActiveWeights(State());
      active, total := {}, 0;
      var todo := positions.Keys;
      assert (map id | id in w && id in todo :: w[id]) == w;
      while todo != {}
        invariant todo <= positions.Keys && active == w.Keys - todo
        invariant total == Total(w) - Total(map id | id in w && id in todo :: w[id])
        decreases todo
      {
        var id :| id in todo;
        ghost var before := map k | k in w && k in todo :: w[k];
        ghost var after := map k | k in w && k in todo - {id} :: w[k];
        if positions[id].Covers(price) {
          active := active + {id};
          total := total + positions[id].liquidity;
          TotalPick(before, id);
          assert before - {id} == after;
        } else {
          assert before == after;
        }
        todo := todo - {id};
      }
    }

    method AccruePositionFee(fee: int, token0: bool)
      modifies this`positions, this`remainder0, this`remainder1
      ensures State() == AccrueFee(old(State()), fee, token0)
    {
      if fee <= 0 {
        return;
      }
      var active, total := GatherActive();
      if total <= 0 {
        AddToRemainder(fee, token0);
        return;
      }
      var distributed := Distribute(active, fee, total, token0);
      AddToRemainder(fee - distributed, token0);
    }

    method AddToRemainder(amount: int, token0: bool)
      modifies this`remainder0, this`remainder1
      ensures State() == AddRemainder(old(State()), amount, token0)
    {
      if token0 {
        remainder0 := remainder0 + amount;
      } else {
        remainder1 := remainder1 + amount;
      }
    }

    /** Credits every active position with its floored share. */
    method Distribute(active: set<string>, fee: int, total: int, token0: bool) returns (distributed: int)
      requires active == ActiveWeights(State()).Keys && 0 < total
      modifies this`positions
      ensures positions == Credited(old(positions), price, fee, total, token0)
      ensures distributed == Total(Shares(ActiveWeights(old(State())), fee, total))
    {
      ghost var w := ActiveWeights(State());
      ghost var shares := Shares(w, fee, total);
      distributed := 0;
      var todo := active;
      assert shares - todo == map[];
      while todo != {}
        invariant todo <= active && positions.Keys == old(positions).Keys
        invariant forall id :: id in positions && (id !in active || id in todo) ==> positions[id] == old(positions)[id]
        invariant forall id :: id in active && id !in todo ==> positions[id] == Credit(old(positions)[id], shares[id], token0)
        invariant distributed == Total(shares - todo)
        decreases todo
      {
        var id :| id in todo;
        var share := (fee * positions[id].liquidity) / total;
        TotalStep(shares, todo, id);
        distributed := distributed + share;
        positions := positions[id := Credit(positions[id], share, token0)];
        todo := todo - {id};
      }
      assert shares - todo == shares;
    }

    method SwapUpInPlace(netInput: int) returns (r: Outcome)
      requires StrictlySorted(ticks) && 0 < price
      modifies this`price, this`liquidity
      ensures r == SwapUp(ticks, old(price), old(liquidity), netInput, 0)
      ensures r.Done? ==> price == r.price && liquidity == r.liquidity
    {
      hide UpTarget, UpOutput, UpPartial, NextAbove;
      var remaining, output, crossings, exact := netInput, 0, 0, true;
      ghost var goal := SwapUp(ticks, price, liquidity, netInput, 0);
      while remaining > 0
        invariant 0 < price
        invariant exact ==> goal == Later(SwapUp(ticks, price, liquidity, remaining, output), netInput - remaining, crossings)
        invariant !exact ==> remaining == 0 && goal == Done(price, liquidity, output, netInput, crossings, false)
        decreases exact, CountAbove(ticks, price)
      {
        if liquidity <= 0 {
          return Failed(ZeroLiquidity);
        }
        var found, i := NextTick(false);
        if !found {
          return Failed(NoTick);
        }
        var target := ticks[i].price;
        var dyTarget := UpTarget(liquidity, price, target);
        if remaining < dyTarget {
          UpPartialPaid(liquidity, price, remaining);
          var newP := UpPartial(liquidity, price, remaining);
          output := output + UpOutput(liquidity, price, newP);
          price, remaining, exact := newP, 0, false;
        } else {
          NextAboveStrict(ticks, price, i);
          output := output + UpOutput(liquidity, price, target);
          remaining := remaining - dyTarget;
          price := target;
          liquidity := liquidity + ticks[i].net;
          crossings := crossings + 1;
        }
      }
      r := Done(price, liquidity, output, netInput - remaining, crossings, exact);
    }

    /** A downward step that ends inside the range above target. */
    method StopBelowPrice(target: int, remaining: int, output: int) returns (out: int)
      requires StrictlySorted(ticks) && 0 < remaining && 0 < liquidity
      requires NextBelow(ticks, price, |ticks|) > 0 && target == ticks[NextBelow(ticks, price, |ticks|) - 1].price
      requires remaining < DownTarget(liquidity, price, target)
      modifies this`price
      ensures SwapDown(ticks, old(price), liquidity, remaining, output) == Done(price, liquidity, out, remaining, 0, false)
    {
      var newP := DownPartial(liquidity, price, remaining);
      out := output + DownOutput(liquidity, price, newP);
      price := newP;
    }

    /** A downward step across tick i. */
    method CrossBelow(i: nat, dxTarget: int, remaining: int, output: int) returns (left: int, out: int)
      requires StrictlySorted(ticks) && 0 < remaining && 0 < liquidity
      requires i + 1 == NextBelow(ticks, price, |ticks|)
      requires dxTarget == DownTarget(liquidity, price, ticks[i].price) <= remaining
      modifies this`price, this`liquidity
      ensures SwapDown(ticks, old(price), old(liquidity), remaining, output)
           == Later(SwapDown(ticks, price, liquidity, left, out), dxTarget, 1)
      ensures left == remaining - dxTarget
      ensures NextBelow(ticks, price, |ticks|) < NextBelow(ticks, old(price), |ticks|)
    {
      var target := ticks[i].price;
      out := output + DownOutput(liquidity, price, target);
      left := remaining - dxTarget;
      SwapDownCrosses(ticks, price, liquidity, remaining, output, i);
      NextBelowStrict(ticks, price, i + 1);
      price, liquidity := target, liquidity - ticks[i].net;
    }

    method SwapDownInPlace(netInput: int) returns (r: Outcome)
      requires StrictlySorted(ticks)
      modifies this`price, this`liquidity
      ensures r == SwapDown(ticks, old(price), old(liquidity), netInput, 0)
      ensures r.Done? ==> price == r.price && liquidity == r.liquidity
    {
      hide SwapDown, DownTarget, DownOutput, NextBelow;
      var remaining, output, crossings, exact := netInput, 0, 0, true;
      ghost var goal := SwapDown(ticks, price, liquidity, netInput, 0);
      while remaining > 0
        invariant exact ==> goal == Later(SwapDown(ticks, price, liquidity, remaining, output), netInput - remaining, crossings)
        invariant !exact ==> remaining == 0 && goal == Done(price, liquidity, output, netInput, crossings, false)
        decreases exact, NextBelow(ticks, price, |ticks|)
      {
        SwapDownStops(ticks, price, liquidity, remaining, output);
        if liquidity <= 0 {
          return Failed(ZeroLiquidity);
        }
        var found, i := NextTick(true);
        if !found {
          return Failed(NoTick);
        }
        var dxTarget := DownTarget(liquidity, price, ticks[i].price);
        if remaining < dxTarget {
          output := StopBelowPrice(ticks[i].price, remaining, output);
          remaining, exact := 0, false;
        } else {
          remaining, output := CrossBelow(i, dxTarget, remaining, output);
          LaterAgain(SwapDown(ticks, price, liquidity, remaining, output), dxTarget, netInput - remaining - dxTarget, crossings);
          crossings := crossings + 1;
        }
      }
      SwapDownStops(ticks, price, liquidity, remaining, output);
      r := Done(price, liquidity, output, netInput - remaining, crossings, exact);
    }

    /** The loop and fee step of a swap, run on the working copy. */
    method SwapInPlace(amountIn: int, zeroForOne: bool) returns (r: Outcome)
      requires StrictlySorted(ticks) && 0 < amountIn && 0 < price && 0 < liquidity && 0 <= feeBPS <= 1000
      modifies this
      ensures r == SwapOutcome(old(State()), amountIn, zeroForOne)
      ensures r.Done? ==> State() == ApplySwap(old(State()), amountIn, zeroForOne).value
    {
      var netInput := MulDiv(amountIn, 10000 - feeBPS, 10000);
      var fee := amountIn - netInput;
      if zeroForOne {
        r := SwapDownInPlace(netInput);
      } else {
        r := SwapUpInPlace(netInput);
      }
      if r.Done? {
        if r.output <= 0 {
          return Failed(RoundedToZero);
        }
        AccruePositionFee(fee, zeroForOne);
      }
    }

    /** A swap either takes full effect or leaves the pool untouched. */
    method Swap(amountIn: int, zeroForOne: bool) returns (r: Outcome)
      requires Valid() && (zeroForOne ==> PositivePrices(ticks))
      modifies this
      ensures Valid()
      ensures r == SwapOutcome(old(State()), amountIn, zeroForOne)
      ensures State() == Next(old(State()), Op.Swap(amountIn, zeroForOne))
    {
      if amountIn <= 0 || price <= 0 || liquidity <= 0 || feeBPS < 0 || feeBPS > 1000 {
        return Failed(InvalidSwap);
      }
      if zeroForOne {
        DownwardSwapDrift(State(), amountIn);
      } else {
        UpwardSwapKeeps(State(), amountIn);
      }
      var working := new ConcentratedPool.Copy(this);
      r := working.SwapInPlace(amountIn, zeroForOne);
      if r.Failed? {
        return;
      }
      price, liquidity, feeBPS := working.price, working.liquidity, working.feeBPS;
      ticks, positions := working.ticks, working.positions;
      remainder0, remainder1 := working.remainder0, working.remainder1;
    }
  }
}
