/** The concentrated pool as a value: what each operation does to it, the laws
    every operation keeps and what they mean for whole runs. */
module PoolModel {
  import opened Basics
  import opened Sums
  import opened TickLedger
  import opened SwapMath

  datatype Pool = Pool(price: int, liquidity: int, feeBPS: int, ticks: seq<Tick>, positions: Positions,
                       remainder0: int, remainder1: int)

  datatype Op =
    | AddPosition(id: string, owner: string, lower: int, upper: int, liquidity: int)
    | RemovePosition(id: string, owner: string, liquidity: int)
    | TransferPosition(id: string, from: string, to: string)
    | CollectFees(id: string, owner: string)
    | Swap(amountIn: int, zeroForOne: bool)


  // ---------------------------------------------------------- invariants

  ghost predicate BackedPool(p: Pool) { Backed(p.ticks, p.positions) }

  /** The cached counter is the liquidity of the positions around the price. */
  ghost predicate Consistent(p: Pool) { p.liquidity == ActiveAt(p.positions, p.price) }

  ghost function PoolDrift(p: Pool): int { p.liquidity - ActiveAt(p.positions, p.price) }

  // ---------------------------------------------------------- operations

  function AddRange(p: Pool, lower: int, upper: int, liquidity: int): Pool {
    p.(ticks := AddTick(AddTick(p.ticks, lower, liquidity), upper, -liquidity),
       liquidity := if lower <= p.price < upper then p.liquidity + liquidity else p.liquidity)
  }

  function ApplyAdd(p: Pool, id: string, owner: string, lower: int, upper: int, liquidity: int): Option<Pool> {
    if id == "" || owner == "" || id in p.positions || liquidity <= 0 || lower >= upper then None
    else
      var q := AddRange(p, lower, upper, liquidity);
      Some(q.(positions := q.positions[id := Position(owner, lower, upper, liquidity, 0, 0)]))
  }

  function Emptied(pos: Position): bool { pos.liquidity == 0 && pos.owed0 == 0 && pos.owed1 == 0 }

  function Removed(positions: Positions, id: string, left: Position): Positions {
    if Emptied(left) then positions - {id} else positions[id := left]
  }

  function ApplyRemove(p: Pool, id: string, owner: string, liquidity: int): Option<Pool> {
    if id !in p.positions || p.positions[id].owner != owner || liquidity <= 0
       || p.positions[id].liquidity < liquidity then None
    else
      var pos := p.positions[id];
      var active := pos.lower <= p.price < pos.upper;
      if active && p.liquidity < liquidity then None
      else
        var left := pos.(liquidity := pos.liquidity - liquidity);
        Some(p.(ticks := AddTick(AddTick(p.ticks, pos.lower, -liquidity), pos.upper, liquidity),
                liquidity := if active then p.liquidity - liquidity else p.liquidity,
                positions := Removed(p.positions, id, left)))
  }

  function ApplyTransfer(p: Pool, id: string, from: string, to: string): Option<Pool> {
    if id !in p.positions || p.positions[id].owner != from || to == "" then None
    else Some(p.(positions := p.positions[id := p.positions[id].(owner := to)]))
  }

  function ApplyCollect(p: Pool, id: string, owner: string): Option<Pool> {
    if id !in p.positions || p.positions[id].owner != owner then None
    else
      var pos := p.positions[id].(owed0 := 0, owed1 := 0);
      Some(p.(positions := if pos.liquidity == 0 then p.positions - {id} else p.positions[id := pos]))
  }

  /** The loop of a swap on the input left after the fee. */
  function SwapOutcome(p: Pool, amountIn: int, zeroForOne: bool): Outcome
    requires StrictlySorted(p.ticks)
  {
    if amountIn <= 0 || p.price <= 0 || p.liquidity <= 0 || p.feeBPS < 0 || p.feeBPS > 1000 then Failed(InvalidSwap)
    else
      var net := NetInput(p, amountIn);
      var r := if zeroForOne then SwapDown(p.ticks, p.price, p.liquidity, net, 0)
               else SwapUp(p.ticks, p.price, p.liquidity, net, 0);
      if r.Done? && r.output <= 0 then Failed(RoundedToZero) else r
  }

  function NetInput(p: Pool, amountIn: int): int { MulDiv(amountIn, 10000 - p.feeBPS, 10000) }

  function Fee(p: Pool, amountIn: int): int { amountIn - NetInput(p, amountIn) }

  ghost function ApplySwap(p: Pool, amountIn: int, zeroForOne: bool): Option<Pool>
    requires StrictlySorted(p.ticks)
  {
    match SwapOutcome(p, amountIn, zeroForOne)
    case Failed(_) => None
    case Done(price, liquidity, _, _, _, _) =>
      Some(AccrueFee(p.(price := price, liquidity := liquidity), Fee(p, amountIn), zeroForOne))
  }

  ghost function Apply(p: Pool, op: Op): Option<Pool>
    requires StrictlySorted(p.ticks)
  {
    match op
    case AddPosition(id, owner, lower, upper, liquidity) => ApplyAdd(p, id, owner, lower, upper, liquidity)
    case RemovePosition(id, owner, liquidity) => ApplyRemove(p, id, owner, liquidity)
    case TransferPosition(id, from, to) => ApplyTransfer(p, id, from, to)
    case CollectFees(id, owner) => ApplyCollect(p, id, owner)
    case Swap(amountIn, zeroForOne) => ApplySwap(p, amountIn, zeroForOne)
  }

  // ---------------------------------------------------------------- fees

  function Credit(pos: Position, share: int, token0: bool): Position {
    if token0 then pos.(owed0 := pos.owed0 + share) else pos.(owed1 := pos.owed1 + share)
  }

  function AddRemainder(p: Pool, amount: int, token0: bool): Pool {
    if token0 then p.(remainder0 := p.remainder0 + amount) else p.(remainder1 := p.remainder1 + amount)
  }

  /** The weights of the positions that cover the price, by id. */
  ghost function ActiveWeights(p: Pool): map<string, int> {
    map id | id in p.positions && p.positions[id].Covers(p.price) :: p.positions[id].liquidity
  }

  ghost function Credited(positions: Positions, price: int, fee: int, total: int, token0: bool): Positions
    requires 0 < total
  {
    map id | id in positions ::
      if positions[id].Covers(price) then Credit(positions[id], (fee * positions[id].liquidity) / total, token0)
      else positions[id]
  }

  ghost function AccrueFee(p: Pool, fee: int, token0: bool): Pool {
    if fee <= 0 then p
    else
      var total := Total(ActiveWeights(p));
      if total <= 0 then AddRemainder(p, fee, token0)
      else AddRemainder(p.(positions := Credited(p.positions, p.price, fee, total, token0)),
                        fee - Total(Shares(ActiveWeights(p), fee, total)), token0)
  }

  ghost function OwedByToken(p: Pool, token0: bool): map<string, int> {
    map id | id in p.positions :: if token0 then p.positions[id].owed0 else p.positions[id].owed1
  }

  /** All fees of one token the pool holds: owed to positions or kept as remainder. */
  ghost function FeesHeld(p: Pool, token0: bool): int {
    Total(OwedByToken(p, token0)) + (if token0 then p.remainder0 else p.remainder1)
  }

  lemma {:induction false} RestrictedTotal(small: map<string, int>, big: map<string, int>)
    requires small.Keys <= big.Keys
    requires forall k :: k in small ==> big[k] == small[k]
    requires forall k :: k in big && k !in small ==> big[k] == 0
    ensures Total(small) == Total(big)
    decreases |big|
  {
    if big != map[] {
      var k :| k in big;
      TotalPick(big, k);
      if k in small {
        TotalPick(small, k);
        RestrictedTotal(small - {k}, big - {k});
      } else {
        assert small - {k} == small;
        RestrictedTotal(small, big - {k});
      }
    }
  }

  lemma ActiveWeightsTotal(p: Pool)
    ensures Total(ActiveWeights(p)) == ActiveAt(p.positions, p.price)
  {
    RestrictedTotal(ActiveWeights(p), Contributions(p.positions, p.price));
  }

  lemma SharesAreOwed(p: Pool, fee: int, token0: bool)
    requires 0 < fee && 0 < Total(ActiveWeights(p))
    ensures var q := AccrueFee(p, fee, token0);
            Total(OwedByToken(q, token0))
              == Total(OwedByToken(p, token0)) + Total(Shares(ActiveWeights(p), fee, Total(ActiveWeights(p))))
  {
    hide Total;
    var s := Shares(ActiveWeights(p), fee, Total(ActiveWeights(p)));
    var padded := map id | id in p.positions :: if id in s then s[id] else 0;
    TotalSplit(OwedByToken(p, token0), padded, OwedByToken(AccrueFee(p, fee, token0), token0));
    RestrictedTotal(s, padded);
  }

  lemma OthersNotOwed(p: Pool, fee: int, token0: bool)
    ensures var q := AccrueFee(p, fee, token0);
            && OwedByToken(q, !token0) == OwedByToken(p, !token0)
            && (Total(ActiveWeights(p)) <= 0 ==> OwedByToken(q, token0) == OwedByToken(p, token0))
  {
    hide Total;
  }

  /** A positive fee is added in full to what the pool holds in that token and
      changes nothing held in the other; each position gets its floored share,
      and the remainder takes fewer units than there are active positions. */
  lemma FeeIsConserved(p: Pool, fee: int, token0: bool)
    requires 0 < fee
    ensures var q := AccrueFee(p, fee, token0);
            && FeesHeld(q, token0) == FeesHeld(p, token0) + fee
            && FeesHeld(q, !token0) == FeesHeld(p, !token0)
            && (0 < ActiveAt(p.positions, p.price) ==>
                  var kept := if token0 then q.remainder0 - p.remainder0 else q.remainder1 - p.remainder1;
                  0 <= kept < |ActiveWeights(p)|)
  {
    hide Total, ActiveAt, OwedByToken, ActiveWeights, Shares, Credited;
    ActiveWeightsTotal(p);
    OthersNotOwed(p, fee, token0);
    if 0 < Total(ActiveWeights(p)) {
      SharesAreOwed(p, fee, token0);
      SharesOfWhole(ActiveWeights(p), fee);
    }
  }

  lemma AccrueFeeKeepsLiquidity(p: Pool, fee: int, token0: bool)
    ensures var q := AccrueFee(p, fee, token0);
            && q.price == p.price && q.liquidity == p.liquidity && q.ticks == p.ticks && q.feeBPS == p.feeBPS
            && (forall x :: ActiveAt(q.positions, x) == ActiveAt(p.positions, x))
            && (PositionsOk(p.positions) ==> PositionsOk(q.positions))
  {
    var q := AccrueFee(p, fee, token0);
    forall x ensures ActiveAt(q.positions, x) == ActiveAt(p.positions, x) {
      SameContributions(p.positions, q.positions, x);
    }
  }

  // ------------------------------------------------- what operations keep

  lemma AddKeeps(p: Pool, id: string, owner: string, lower: int, upper: int, liquidity: int)
    requires BackedPool(p)
    ensures var r := ApplyAdd(p, id, owner, lower, upper, liquidity);
            r.Some? ==> BackedPool(r.value) && PoolDrift(r.value) == PoolDrift(p)
                        && (PositivePrices(p.ticks) && 0 < lower ==> PositivePrices(r.value.ticks))
  {
    hide AddTick, ActiveAt;
    var r := ApplyAdd(p, id, owner, lower, upper, liquidity);
    if r.Some? {
      var pos := Position(owner, lower, upper, liquidity, 0, 0);
      AddTickCorrect(p.ticks, lower, liquidity);
      AddTickCorrect(AddTick(p.ticks, lower, liquidity), upper, -liquidity);
      forall x ensures ActiveAt(r.value.positions, x) == ActiveAt(p.positions, x) + Share(pos, x) {
        ActiveAtUpdate(p.positions, id, pos, x);
      }
    }
  }

  lemma RemoveKeeps(p: Pool, id: string, owner: string, liquidity: int)
    requires BackedPool(p)
    ensures var r := ApplyRemove(p, id, owner, liquidity);
            r.Some? ==> BackedPool(r.value) && PoolDrift(r.value) == PoolDrift(p)
                        && (PositivePrices(p.ticks) && 0 < p.positions[id].lower ==> PositivePrices(r.value.ticks))
  {
    var r := ApplyRemove(p, id, owner, liquidity);
    if r.Some? {
      var pos := p.positions[id];
      var left := pos.(liquidity := pos.liquidity - liquidity);
      AddTickCorrect(p.ticks, pos.lower, -liquidity);
      AddTickCorrect(AddTick(p.ticks, pos.lower, -liquidity), pos.upper, liquidity);
      RemovedActive(p.positions, id, left);
    }
  }

  lemma RemovedActive(positions: Positions, id: string, left: Position)
    requires id in positions
    ensures forall x :: ActiveAt(Removed(positions, id, left), x)
                        == ActiveAt(positions, x) - Share(positions[id], x) + Share(left, x)
  {
    forall x ensures ActiveAt(Removed(positions, id, left), x)
                     == ActiveAt(positions, x) - Share(positions[id], x) + Share(left, x)
    {
      RemoveAt(positions, id, left, x);
    }
  }

  lemma RemoveAt(positions: map<string, Position>, id: string, left: Position, x: int)
    requires id in positions
    ensures ActiveAt(Removed(positions, id, left), x)
         == ActiveAt(positions, x) - Share(positions[id], x) + (if Emptied(left) then 0 else Share(left, x))
    ensures Emptied(left) && left.liquidity == 0 ==> Share(left, x) == 0
  {
    if Emptied(left) {
      ActiveAtRemove(positions, id, x);
    } else {
      ActiveAtUpdate(positions, id, left, x);
    }
  }

  /** In a consistent pool the owner can always withdraw what the position
      holds: the underflow guard never fires. */
  lemma OwnerCanWithdraw(p: Pool, id: string, owner: string, liquidity: int)
    requires BackedPool(p) && Consistent(p)
    ensures ApplyRemove(p, id, owner, liquidity).Some? <==>
              id in p.positions && p.positions[id].owner == owner && 0 < liquidity <= p.positions[id].liquidity
  {
    if id in p.positions && p.positions[id].Covers(p.price) {
      CoveredLiquidity(p.positions, id, p.price);
    }
  }

  lemma TransferKeeps(p: Pool, id: string, from: string, to: string)
    requires BackedPool(p)
    ensures var r := ApplyTransfer(p, id, from, to);
            r.Some? ==> BackedPool(r.value) && PoolDrift(r.value) == PoolDrift(p) && r.value.ticks == p.ticks
  {
    var r := ApplyTransfer(p, id, from, to);
    if r.Some? {
      forall x ensures ActiveAt(r.value.positions, x) == ActiveAt(p.positions, x) {
        SameContributions(p.positions, r.value.positions, x);
      }
    }
  }

  lemma CollectKeeps(p: Pool, id: string, owner: string)
    requires BackedPool(p)
    ensures var r := ApplyCollect(p, id, owner);
            r.Some? ==> BackedPool(r.value) && PoolDrift(r.value) == PoolDrift(p) && r.value.ticks == p.ticks
  {
    var r := ApplyCollect(p, id, owner);
    if r.Some? {
      var pos := p.positions[id].(owed0 := 0, owed1 := 0);
      forall x ensures ActiveAt(r.value.positions, x) == ActiveAt(p.positions, x) {
        if pos.liquidity == 0 {
          ActiveAtRemove(p.positions, id, x);
        } else {
          ActiveAtUpdate(p.positions, id, pos, x);
        }
      }
    }
  }

  /** Every successful upward swap keeps the drift, so it keeps consistency. */
  lemma UpwardSwapKeeps(p: Pool, amountIn: int)
    requires BackedPool(p)
    ensures var r := ApplySwap(p, amountIn, false);
            r.Some? ==> BackedPool(r.value) && PoolDrift(r.value) == PoolDrift(p) && r.value.ticks == p.ticks
                        && p.price <= r.value.price
  {
    var o := SwapOutcome(p, amountIn, false);
    if o.Done? {
      SwapUpKeepsDrift(p.ticks, p.price, p.liquidity, NetInput(p, amountIn), 0);
      AccrueFeeKeepsLiquidity(p.(price := o.price, liquidity := o.liquidity), Fee(p, amountIn), false);
    }
  }

  /** Input and fee of a successful swap are all accounted for: what the loop
      takes and what the pool then holds more in fees of that token is exactly
      the amount paid in. */
  lemma InputIsAccountedFor(p: Pool, amountIn: int, zeroForOne: bool)
    requires BackedPool(p)
    ensures var o := SwapOutcome(p, amountIn, zeroForOne);
            o.Done? ==>
              var q := ApplySwap(p, amountIn, zeroForOne).value;
              && o.consumed + (FeesHeld(q, zeroForOne) - FeesHeld(p, zeroForOne)) == amountIn
              && FeesHeld(q, !zeroForOne) == FeesHeld(p, !zeroForOne)
  {
    var o := SwapOutcome(p, amountIn, zeroForOne);
    if o.Done? {
      NetInputFits(amountIn, p.feeBPS);
      if zeroForOne {
        SwapDownEndsByCost(p.ticks, p.price, p.liquidity, NetInput(p, amountIn), 0);
      } else {
        SwapUpConsumes(p.ticks, p.price, p.liquidity, NetInput(p, amountIn), 0);
      }
      var moved := p.(price := o.price, liquidity := o.liquidity);
      assert OwedByToken(moved, true) == OwedByToken(p, true) && OwedByToken(moved, false) == OwedByToken(p, false);
      if Fee(p, amountIn) > 0 {
        FeeIsConserved(moved, Fee(p, amountIn), zeroForOne);
      }
    }
  }

  lemma NetInputFits(amountIn: int, feeBPS: int)
    requires 0 < amountIn && 0 <= feeBPS <= 1000
    ensures 0 <= MulDiv(amountIn, 10000 - feeBPS, 10000) <= amountIn
  {
    assert 0 <= amountIn * (10000 - feeBPS) <= amountIn * 10000;
  }

  /** The input is the cost of crossing down to and onto the k-th tick below. */
  predicate SwapLands(p: Pool, amountIn: int, k: nat)
    requires StrictlySorted(p.ticks)
  {
    LandsOn(p.ticks, p.price, p.liquidity, NetInput(p, amountIn), k)
  }

  ghost predicate SwapLandsSomewhere(p: Pool, amountIn: int)
    requires StrictlySorted(p.ticks)
  {
    exists k :: SwapLands(p, amountIn, k)
  }

  /** The net of the tick, if any, that a downward swap leaves uncounted: the one
      its input pays to land on. */
  ghost function EndNet(p: Pool, amountIn: int): int
    requires StrictlySorted(p.ticks)
  {
    if SwapLandsSomewhere(p, amountIn) then
      var k :| SwapLands(p, amountIn, k);
      p.ticks[Below(p.ticks, p.price) - k].net
    else 0
  }

  lemma EndNetIs(p: Pool, amountIn: int)
    requires StrictlySorted(p.ticks) && SwapOutcome(p, amountIn, true).Done?
    ensures var o := SwapOutcome(p, amountIn, true);
            && (o.exact <==> SwapLandsSomewhere(p, amountIn))
            && EndNet(p, amountIn) == if o.exact then NetAt(p.ticks, o.price) else 0
  {
    hide SwapDown, NetAt, NetInput;
    var o := SwapOutcome(p, amountIn, true);
    PositiveNet(p, amountIn);
    LandsExactly(p.ticks, p.price, p.liquidity, NetInput(p, amountIn));
    if o.exact {
      var k :| LandsOn(p.ticks, p.price, p.liquidity, NetInput(p, amountIn), k);
      assert SwapLands(p, amountIn, k);
    }
    if SwapLandsSomewhere(p, amountIn) {
      var k :| SwapLands(p, amountIn, k) && EndNet(p, amountIn) == p.ticks[Below(p.ticks, p.price) - k].net;
      NetAtTick(p.ticks, Below(p.ticks, p.price) - k);
    }
  }

  /** A swap of nothing pays nothing, so it fails. */
  lemma PositiveNet(p: Pool, amountIn: int)
    requires StrictlySorted(p.ticks) && SwapOutcome(p, amountIn, true).Done?
    ensures 0 < NetInput(p, amountIn)
  {
  }

  /** A downward swap shifts the drift by the net value at the price it started
      on, less the net value at the tick its last step crosses exactly. */
  lemma DownwardSwapDrift(p: Pool, amountIn: int)
    requires BackedPool(p) && PositivePrices(p.ticks)
    ensures var o := SwapOutcome(p, amountIn, true);
            var r := ApplySwap(p, amountIn, true);
            r.Some? <==> o.Done?
    ensures var o := SwapOutcome(p, amountIn, true);
            var r := ApplySwap(p, amountIn, true);
            o.Done? ==>
              && BackedPool(r.value) && r.value.ticks == p.ticks && 0 < r.value.price == o.price <= p.price
              && PoolDrift(r.value) == PoolDrift(p) + NetAt(p.ticks, p.price) - EndNet(p, amountIn)
  {
    hide SwapDown, AccrueFee, EndNet, ActiveAt;
    var o := SwapOutcome(p, amountIn, true);
    if o.Done? {
      SwapDownDrift(p.ticks, p.price, p.liquidity, NetInput(p, amountIn), 0);
      AccrueFeeKeepsLiquidity(p.(price := o.price, liquidity := o.liquidity), Fee(p, amountIn), true);
      EndNetIs(p, amountIn);
    }
  }

  /** Where a downward swap that started off every tick leaves the counter of a
      consistent pool: at the liquidity around its new price when it stops inside
      a range, at the liquidity of the range just below when it lands on a tick. */
  lemma DownwardSwapCounts(p: Pool, amountIn: int)
    requires BackedPool(p) && PositivePrices(p.ticks) && Consistent(p) && NetAt(p.ticks, p.price) == 0
    requires SwapOutcome(p, amountIn, true).Done?
    ensures var q := ApplySwap(p, amountIn, true).value;
            q.liquidity == ActiveAt(q.positions, if SwapLandsSomewhere(p, amountIn) then q.price - 1 else q.price)
  {
    DownwardSwapDrift(p, amountIn);
    EndNetIs(p, amountIn);
    CountsFromDrift(ApplySwap(p, amountIn, true).value, SwapOutcome(p, amountIn, true).exact);
  }

  lemma CountsFromDrift(q: Pool, exact: bool)
    requires BackedPool(q) && PoolDrift(q) == -(if exact then NetAt(q.ticks, q.price) else 0)
    ensures q.liquidity == ActiveAt(q.positions, if exact then q.price - 1 else q.price)
  {
    assert ActiveAt(q.positions, q.price) == NetUpTo(q.ticks, q.price);
    assert ActiveAt(q.positions, q.price - 1) == NetUpTo(q.ticks, q.price - 1);
  }

  // --------------------------------------------------------------- runs

  /** What must be known before the operation for the counter to stay right:
      only a downward swap that goes through can spoil it, and only when the net
      at its price differs from that of the tick its input pays to land on. */
  ghost predicate KeepsCounter(p: Pool, op: Op)
    requires StrictlySorted(p.ticks)
  {
    op.Swap? && op.zeroForOne && SwapOutcome(p, op.amountIn, true).Done? ==>
      NetAt(p.ticks, p.price) == EndNet(p, op.amountIn)
  }

  ghost predicate PositivePool(p: Pool) {
    PositivePrices(p.ticks) && forall id :: id in p.positions ==> 0 < p.positions[id].lower
  }

  predicate PositiveOp(op: Op) { op.AddPosition? ==> 0 < op.lower }

  /** A failed operation leaves the pool as it was. */
  ghost function Next(p: Pool, op: Op): Pool
    requires StrictlySorted(p.ticks)
  {
    match Apply(p, op) case Some(q) => q case None => p
  }

  /** One operation on a consistent pool: it stays backed, and it stays
      consistent exactly when KeepsCounter held. */
  lemma StepConsistency(p: Pool, op: Op)
    requires BackedPool(p) && PositivePool(p) && Consistent(p) && PositiveOp(op)
    ensures BackedPool(Next(p, op)) && PositivePool(Next(p, op))
    ensures Consistent(Next(p, op)) <==> KeepsCounter(p, op)
  {
    match op
    case AddPosition(id, owner, lower, upper, liquidity) => AddKeeps(p, id, owner, lower, upper, liquidity);
    case RemovePosition(id, owner, liquidity) => RemoveKeeps(p, id, owner, liquidity);
    case TransferPosition(id, from, to) => TransferKeeps(p, id, from, to);
    case CollectFees(id, owner) => CollectKeeps(p, id, owner);
    case Swap(amountIn, zeroForOne) =>
      if zeroForOne {
        DownwardSwapDrift(p, amountIn);
      } else {
        UpwardSwapKeeps(p, amountIn);
      }
      SwapKeepsPositions(p, amountIn, zeroForOne);
  }

  lemma SwapKeepsPositions(p: Pool, amountIn: int, zeroForOne: bool)
    requires BackedPool(p)
    ensures var r := ApplySwap(p, amountIn, zeroForOne);
            r.Some? ==> forall id :: id in r.value.positions ==>
                          id in p.positions && r.value.positions[id].lower == p.positions[id].lower
  {
  }

  /** Consistency after the first operation, after the second, and so on. */
  ghost predicate ConsistentThroughout(p: Pool, ops: seq<Op>)
    requires BackedPool(p) && PositivePool(p) && Consistent(p)
    requires forall op :: op in ops ==> PositiveOp(op)
    decreases |ops|
  {
    if ops == [] then true
    else
      StepConsistency(p, ops[0]);
      Consistent(Next(p, ops[0])) && ConsistentThroughout(Next(p, ops[0]), ops[1..])
  }

  /** No operation of the run is a downward swap with unequal end nets. */
  ghost predicate CleanRun(p: Pool, ops: seq<Op>)
    requires BackedPool(p) && PositivePool(p) && Consistent(p)
    requires forall op :: op in ops ==> PositiveOp(op)
    decreases |ops|
  {
    if ops == [] then true
    else
      StepConsistency(p, ops[0]);
      KeepsCounter(p, ops[0]) && CleanRun(Next(p, ops[0]), ops[1..])
  }

  /** Over every run, the counter equals the sum over the positions after every
      operation exactly when no downward swap starts and ends on unequal nets. */
  lemma {:induction false} RunConsistency(p: Pool, ops: seq<Op>)
    requires BackedPool(p) && PositivePool(p) && Consistent(p)
    requires forall op :: op in ops ==> PositiveOp(op)
    ensures ConsistentThroughout(p, ops) <==> CleanRun(p, ops)
    decreases |ops|
  {
    if ops != [] {
      StepConsistency(p, ops[0]);
      if KeepsCounter(p, ops[0]) {
        RunConsistency(Next(p, ops[0]), ops[1..]);
      }
    }
  }

  /** A pool with no positions yet is backed and consistent. */
  lemma EmptyPool(price: int, feeBPS: int)
    ensures var p := Pool(price, 0, feeBPS, [], map[], 0, 0);
            BackedPool(p) && PositivePool(p) && Consistent(p)
  {
    forall x ensures ActiveAt(map[], x) == 0 {
      assert Contributions(map[], x) == map[];
    }
  }

  /** The counter does go wrong: one position on [SCALE, 3*SCALE), the price at
      2*SCALE, and a sale that lands exactly on the lower tick, where the position
      still covers the price but its liquidity has already been taken out. */
  function SpoiledPool(): Pool {
    Pool(2 * SCALE, 1000, 0, [Tick(SCALE, 1000), Tick(3 * SCALE, -1000)],
         map["p" := Position("o", SCALE, 3 * SCALE, 1000, 0, 0)], 0, 0)
  }

  lemma DownwardSwapCanSpoil()
    ensures var p := SpoiledPool();
            && BackedPool(p) && PositivePool(p) && Consistent(p)
            && ApplySwap(p, 500, true).Some?
            && !Consistent(ApplySwap(p, 500, true).value)
  {
    hide SwapOutcome, ApplySwap, EndNet, NetAt, BackedPool, PositivePool;
    var p := SpoiledPool();
    SpoiledPoolIsBacked();
    SpoiledOutcome();
    EndNetIs(p, 500);
    DownwardSwapDrift(p, 500);
  }

  lemma SpoiledPoolIsBacked()
    ensures BackedPool(SpoiledPool()) && PositivePool(SpoiledPool()) && Consistent(SpoiledPool())
  {
    var p := SpoiledPool();
    var empty: Positions := map[];
    assert p.positions == empty["p" := p.positions["p"]];
    forall x ensures NetUpTo(p.ticks, x) == ActiveAt(p.positions, x) {
      ActiveAtUpdate(empty, "p", p.positions["p"], x);
      assert Contributions(empty, x) == map[];
      var last := [Tick(3 * SCALE, -1000)];
      assert p.ticks[1..] == last;
      assert NetUpTo(last[1..], x) == 0;
      assert NetUpTo(last, x) == if 3 * SCALE <= x then -1000 else 0;
    }
  }

  lemma SpoiledNumbers()
    ensures DownTarget(1000, 2 * SCALE, SCALE) == 500 && DownOutput(1000, 2 * SCALE, SCALE) == 1000
  {
  }

  lemma SpoiledNext(ticks: seq<Tick>)
    requires ticks == SpoiledPool().ticks
    ensures NextBelow(ticks, 2 * SCALE, 2) == 1
  {
  }

  lemma SpoiledNets(ticks: seq<Tick>)
    requires ticks == SpoiledPool().ticks
    ensures NetAt(ticks, SCALE) == 1000 && NetAt(ticks, 2 * SCALE) == 0
  {
    NetAtTick(ticks, 0);
    NetUpToGap(ticks, 2 * SCALE - 1, 2 * SCALE);
  }

  lemma SpoiledSwap(ticks: seq<Tick>)
    requires ticks == SpoiledPool().ticks
    ensures SwapDown(ticks, 2 * SCALE, 1000, 500, 0) == Done(SCALE, 0, 1000, 500, 1, true)
  {
    SpoiledNext(ticks);
    SpoiledNumbers();
    SwapDownCrosses(ticks, 2 * SCALE, 1000, 500, 0, 0);
  }

  lemma SpoiledOutcome()
    ensures SwapOutcome(SpoiledPool(), 500, true) == Done(SCALE, 0, 1000, 500, 1, true)
    ensures NetAt(SpoiledPool().ticks, SCALE) == 1000 && NetAt(SpoiledPool().ticks, 2 * SCALE) == 0
  {
    hide NetAt, SwapDown;
    SpoiledNets(SpoiledPool().ticks);
    SpoiledSwap(SpoiledPool().ticks);
    assert NetInput(SpoiledPool(), 500) == 500;
  }
}
