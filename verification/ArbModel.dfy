/** Triangular arbitrage against live pools, paid from the treasury. */
module ArbModel {
  import opened Basics
  import opened Sums
  import opened Ledger
  import opened ConstantProduct

  const NATIVE: string := "lqd"
  const MIN_PROFIT_BPS: int := 50
  const MAX_ARBS: nat := 3

  datatype Leg = Leg(pair: string, tokenIn: string, tokenOut: string, reserveIn: nat, reserveOut: nat, inIsReserve0: bool)

  datatype Path = Path(leg1: Leg, leg2: Leg, leg3: Leg, input: nat, output: nat, profit: int)

  datatype Pool = Pool(token0: string, token1: string, reserve0: nat, reserve1: nat)

  type Pools = map<string, Pool>

  datatype Market = Market(balances: Balances, pools: Pools)

  // -------------------------------------------------------------- simulation

  function MinProfit(input: nat, bps: int): int {
    input * (if bps <= 0 then MIN_PROFIT_BPS else bps) / 10000
  }

  /** The three outputs of a cycle on the given reserves. */
  function Cycle(input: nat, x1: nat, y1: nat, x2: nat, y2: nat, x3: nat, y3: nat): (nat, nat, nat) {
    var a := AmountOut(input, x1, y1);
    var b := AmountOut(a, x2, y2);
    (a, b, AmountOut(b, x3, y3))
  }

  function Simulate(leg1: Leg, leg2: Leg, leg3: Leg, input: nat): (found: Option<Path>)
    ensures found.Some? ==> found.value.input == input
  {
    var (a, b, out) := Cycle(input, leg1.reserveIn, leg1.reserveOut, leg2.reserveIn, leg2.reserveOut, leg3.reserveIn, leg3.reserveOut);
    if a == 0 || b == 0 || out == 0 || out - input < MinProfit(input, MIN_PROFIT_BPS) then None
    else Some(Path(leg1, leg2, leg3, input, out, out - input))
  }

  const MAX_CAPITAL_BPS: int := 1000

  /** The most one arbitrage may spend, from the treasury at the start of the epoch. */
  function CapitalCap(treasuryBalance: nat, policyBps: int): nat {
    treasuryBalance * CapBps(policyBps) / 10000
  }

  function CapBps(policyBps: int): nat {
    if policyBps <= 0 || policyBps > MAX_CAPITAL_BPS then MAX_CAPITAL_BPS else policyBps
  }

  /** The input after k doublings, none beyond the capital cap. */
  function Rung(start: nat, maxCapital: nat, k: nat): (input: nat)
    requires start <= maxCapital
    ensures start <= input <= maxCapital
  {
    if k == 0 then start
    else
      var twice := 2 * Rung(start, maxCapital, k - 1);
      if twice > maxCapital then maxCapital else twice
  }

  /** Doubling once more pays, and leaves more profit. */
  predicate Rises(leg1: Leg, leg2: Leg, leg3: Leg, start: nat, maxCapital: nat, k: nat)
    requires start <= maxCapital
  {
    var here := Simulate(leg1, leg2, leg3, Rung(start, maxCapital, k));
    var next := Simulate(leg1, leg2, leg3, Rung(start, maxCapital, k + 1));
    here.Some? && next.Some? && next.value.profit > here.value.profit
  }

  /** Every doubling up to k pays. */
  ghost predicate Climbed(leg1: Leg, leg2: Leg, leg3: Leg, start: nat, maxCapital: nat, k: nat)
    requires start <= maxCapital
  {
    && Simulate(leg1, leg2, leg3, Rung(start, maxCapital, k)).Some?
    && forall j :: 0 <= j < k ==> Rises(leg1, leg2, leg3, start, maxCapital, j)
  }

  /** And one more does not, or would be the seventh. */
  ghost predicate Peak(leg1: Leg, leg2: Leg, leg3: Leg, start: nat, maxCapital: nat, k: nat)
    requires start <= maxCapital
  {
    && k <= 6 && Climbed(leg1, leg2, leg3, start, maxCapital, k)
    && (k == 6 || !Rises(leg1, leg2, leg3, start, maxCapital, k))
  }

  lemma ClimbStarts(leg1: Leg, leg2: Leg, leg3: Leg, start: nat, maxCapital: nat)
    requires start <= maxCapital && Simulate(leg1, leg2, leg3, start).Some?
    ensures Climbed(leg1, leg2, leg3, start, maxCapital, 0)
  {
  }

  lemma ClimbedFurther(leg1: Leg, leg2: Leg, leg3: Leg, start: nat, maxCapital: nat, k: nat)
    requires start <= maxCapital && Climbed(leg1, leg2, leg3, start, maxCapital, k)
    requires Rises(leg1, leg2, leg3, start, maxCapital, k)
    ensures Climbed(leg1, leg2, leg3, start, maxCapital, k + 1)
  {
  }

  /** Along a climb the profit grows from where it started. */
  lemma {:induction false} ClimbGains(leg1: Leg, leg2: Leg, leg3: Leg, start: nat, maxCapital: nat, k: nat)
    requires start <= maxCapital && Climbed(leg1, leg2, leg3, start, maxCapital, k)
    ensures var first := Simulate(leg1, leg2, leg3, start); var last := Simulate(leg1, leg2, leg3, Rung(start, maxCapital, k));
            && first.Some? && last.value.profit >= first.value.profit
            && (k > 0 ==> last.value.profit > first.value.profit)
    decreases k
  {
    if k > 0 {
      assert Rises(leg1, leg2, leg3, start, maxCapital, k - 1);
      ClimbGains(leg1, leg2, leg3, start, maxCapital, k - 1);
    }
  }

  /** Doubles the input while that raises the profit, six times at most and never
      beyond the capital cap. */
  method OptimiseInput(leg1: Leg, leg2: Leg, leg3: Leg, start: nat, maxCapital: nat) returns (best: Option<Path>)
    requires start <= maxCapital
    ensures best.Some? <==> Simulate(leg1, leg2, leg3, start).Some?
    ensures best.Some? ==>
              && start <= best.value.input <= maxCapital
              && best == Simulate(leg1, leg2, leg3, best.value.input)
              && best.value.profit >= Simulate(leg1, leg2, leg3, start).value.profit
              && (best.value.input > start ==> best.value.profit > Simulate(leg1, leg2, leg3, start).value.profit)
    ensures best.Some? ==>
              exists k :: Peak(leg1, leg2, leg3, start, maxCapital, k) && best.value.input == Rung(start, maxCapital, k)
  {
    hide Simulate, Climbed;
    best := Simulate(leg1, leg2, leg3, start);
    if best.None? {
      return;
    }
    var cur := start;
    ghost var rung: nat := 0;
    ClimbStarts(leg1, leg2, leg3, start, maxCapital);
    for tries := 0 to 6
      invariant rung == tries
      invariant best.Some? && best.value.input == cur == Rung(start, maxCapital, rung)
      invariant best == Simulate(leg1, leg2, leg3, cur)
      invariant Climbed(leg1, leg2, leg3, start, maxCapital, rung)
    {
      var next := if cur * 2 > maxCapital then maxCapital else cur * 2;
      var candidate := Simulate(leg1, leg2, leg3, next);
      assert next == Rung(start, maxCapital, rung + 1);
      if candidate.None? || candidate.value.profit <= best.value.profit {
        break;
      }
      ClimbedFurther(leg1, leg2, leg3, start, maxCapital, rung);
      best, cur, rung := candidate, next, rung + 1;
      if next >= maxCapital {
        assert Rung(start, maxCapital, rung + 1) == maxCapital;
        break;
      }
    }
    assert Peak(leg1, leg2, leg3, start, maxCapital, rung);
    ClimbGains(leg1, leg2, leg3, start, maxCapital, rung);
  }

  // --------------------------------------------------------------- execution

  /** Missing pair storage reads as zero reserves. */
  function LiveIn(pools: Pools, leg: Leg): nat {
    if leg.pair !in pools then 0 else if leg.inIsReserve0 then pools[leg.pair].reserve0 else pools[leg.pair].reserve1
  }

  function LiveOut(pools: Pools, leg: Leg): nat {
    if leg.pair !in pools then 0 else if leg.inIsReserve0 then pools[leg.pair].reserve1 else pools[leg.pair].reserve0
  }

  function SetReserves(pools: Pools, leg: Leg, newIn: nat, newOut: nat): Pools {
    if leg.pair !in pools then pools
    else
      var p := pools[leg.pair];
      pools[leg.pair := if leg.inIsReserve0 then p.(reserve0 := newIn, reserve1 := newOut)
                        else p.(reserve0 := newOut, reserve1 := newIn)]
  }

  function LiveCycle(pools: Pools, path: Path): (nat, nat, nat) {
    Cycle(path.input, LiveIn(pools, path.leg1), LiveOut(pools, path.leg1), LiveIn(pools, path.leg2),
          LiveOut(pools, path.leg2), LiveIn(pools, path.leg3), LiveOut(pools, path.leg3))
  }

  predicate MayExecute(m: Market, treasury: Address, path: Path, bps: int) {
    var (a, b, out) := LiveCycle(m.pools, path);
    && out - path.input >= MinProfit(path.input, bps)
    && CanDebit(m.balances, treasury, path.input)
    && Covers(m.pools, path, (a, b, out))
  }

  /** The cycle takes less than each pool pays out of. */
  predicate Covers(pools: Pools, path: Path, amounts: (nat, nat, nat)) {
    LiveOut(pools, path.leg1) > amounts.0 && LiveOut(pools, path.leg2) > amounts.1 && LiveOut(pools, path.leg3) > amounts.2
  }

  function WriteLeg(written: Pools, pools: Pools, leg: Leg, paid: nat, taken: nat): Pools
    requires LiveOut(pools, leg) > taken
  {
    SetReserves(written, leg, LiveIn(pools, leg) + paid, LiveOut(pools, leg) - taken)
  }

  /** One batch of reserve writes; a pair named twice keeps the last one. */
  function WriteReserves(pools: Pools, path: Path, amounts: (nat, nat, nat)): Pools
    requires Covers(pools, path, amounts)
  {
    var p1 := WriteLeg(pools, pools, path.leg1, path.input, amounts.0);
    var p2 := WriteLeg(p1, pools, path.leg2, amounts.0, amounts.1);
    WriteLeg(p2, pools, path.leg3, amounts.1, amounts.2)
  }

  function ExecuteArb(m: Market, treasury: Address, path: Path, bps: int): (Market, bool) {
    if !MayExecute(m, treasury, path, bps) then (m, false)
    else
      (Market(Credit(Debit(m.balances, treasury, path.input), treasury, LiveCycle(m.pools, path).2),
              WriteReserves(m.pools, path, LiveCycle(m.pools, path))), true)
  }

  function ExecuteArbs(m: Market, treasury: Address, paths: seq<Path>, bps: int, executed: nat): (Market, nat)
    decreases |paths|
  {
    if paths == [] || executed >= MAX_ARBS then (m, executed)
    else
      var (next, ok) := ExecuteArb(m, treasury, paths[0], bps);
      ExecuteArbs(next, treasury, paths[1..], bps, if ok then executed + 1 else executed)
  }

  // ---------------------------------------------------------------- the laws

  ghost predicate LegFits(pools: Pools, leg: Leg) {
    && leg.pair in pools
    && leg.tokenIn == (if leg.inIsReserve0 then pools[leg.pair].token0 else pools[leg.pair].token1)
    && leg.tokenOut == (if leg.inIsReserve0 then pools[leg.pair].token1 else pools[leg.pair].token0)
  }

  /** A cycle native -> A -> B -> native over three distinct pairs. */
  ghost predicate Triangle(pools: Pools, path: Path) {
    && LegFits(pools, path.leg1) && LegFits(pools, path.leg2) && LegFits(pools, path.leg3)
    && path.leg1.tokenIn == NATIVE == path.leg3.tokenOut
    && path.leg1.tokenOut == path.leg2.tokenIn && path.leg2.tokenOut == path.leg3.tokenIn
    && path.leg1.pair != path.leg2.pair && path.leg2.pair != path.leg3.pair && path.leg1.pair != path.leg3.pair
  }

  function PoolShare(p: Pool, token: string): int {
    (if p.token0 == token then p.reserve0 else 0) + (if p.token1 == token then p.reserve1 else 0)
  }

  ghost function PoolShares(pools: Pools, token: string): map<string, int> {
    map k | k in pools :: PoolShare(pools[k], token)
  }

  /** All of a token in the pools, and of the native coin in the treasury. */
  ghost function Held(m: Market, treasury: Address, token: string): int {
    Total(PoolShares(m.pools, token)) + if token == NATIVE then BalanceOf(m.balances, treasury) else 0
  }

  /** The same pair with a product that is no smaller. */
  ghost predicate NoWorse(p: Pool, q: Pool) {
    p.token0 == q.token0 && p.token1 == q.token1 && q.reserve0 * q.reserve1 >= p.reserve0 * p.reserve1
  }

  /** The same pools, none with a smaller product. */
  ghost predicate PoolsKept(before: Pools, after: Pools) {
    && before.Keys == after.Keys
    && forall k {:trigger NoWorse(before[k], after[k])} :: k in before ==> NoWorse(before[k], after[k])
  }

  lemma SetHeld(pools: Pools, leg: Leg, newIn: nat, newOut: nat, token: string)
    requires LegFits(pools, leg)
    ensures Total(PoolShares(SetReserves(pools, leg, newIn, newOut), token))
         == Total(PoolShares(pools, token))
            + (if leg.tokenIn == token then newIn - LiveIn(pools, leg) else 0)
            + (if leg.tokenOut == token then newOut - LiveOut(pools, leg) else 0)
  {
    var after := SetReserves(pools, leg, newIn, newOut);
    TotalUpdate(PoolShares(pools, token), leg.pair, PoolShare(after[leg.pair], token));
    assert PoolShares(after, token) == PoolShares(pools, token)[leg.pair := PoolShare(after[leg.pair], token)];
  }

  /** The reserves x and y with this much paid in and taken out. */
  ghost predicate NoDrop(x: nat, y: nat, paid: nat, taken: nat) {
    taken <= y && (x + paid) * (y - taken) >= x * y
  }

  lemma SetKeeps(pools: Pools, leg: Leg, x: nat, y: nat, paid: nat, taken: nat)
    requires LegFits(pools, leg) && x == LiveIn(pools, leg) && y == LiveOut(pools, leg) && NoDrop(x, y, paid, taken)
    ensures PoolsKept(pools, SetReserves(pools, leg, x + paid, y - taken))
  {
    Commute(x, y);
    Commute(x + paid, y - taken);
    var after := SetReserves(pools, leg, x + paid, y - taken);
    forall k | k in pools ensures NoWorse(pools[k], after[k]) {
      if k != leg.pair {
        assert after[k] == pools[k];
      }
    }
  }

  lemma PoolsKeptTransitive(a: Pools, b: Pools, c: Pools)
    requires PoolsKept(a, b) && PoolsKept(b, c)
    ensures PoolsKept(a, c)
  {
    forall k | k in a ensures NoWorse(a[k], c[k]) {
      assert NoWorse(a[k], b[k]) && NoWorse(b[k], c[k]);
    }
  }

  lemma OtherLeg(pools: Pools, leg: Leg, newIn: nat, newOut: nat, other: Leg)
    requires LegFits(pools, leg) && LegFits(pools, other) && leg.pair != other.pair
    ensures var after := SetReserves(pools, leg, newIn, newOut);
            LegFits(after, other) && LiveIn(after, other) == LiveIn(pools, other) && LiveOut(after, other) == LiveOut(pools, other)
  {
  }

  /** What the second and third leg read is untouched by the writes before them. */
  lemma LegsStayLive(pools: Pools, path: Path, amounts: (nat, nat, nat))
    requires Triangle(pools, path) && Covers(pools, path, amounts)
    ensures var p1 := WriteLeg(pools, pools, path.leg1, path.input, amounts.0);
            var p2 := WriteLeg(p1, pools, path.leg2, amounts.0, amounts.1);
            && LegFits(p1, path.leg2) && LiveIn(p1, path.leg2) == LiveIn(pools, path.leg2) && LiveOut(p1, path.leg2) == LiveOut(pools, path.leg2)
            && LegFits(p2, path.leg3) && LiveIn(p2, path.leg3) == LiveIn(pools, path.leg3) && LiveOut(p2, path.leg3) == LiveOut(pools, path.leg3)
  {
    var in1, out1 := LiveIn(pools, path.leg1) + path.input, LiveOut(pools, path.leg1) - amounts.0;
    OtherLeg(pools, path.leg1, in1, out1, path.leg2);
    OtherLeg(pools, path.leg1, in1, out1, path.leg3);
    OtherLeg(SetReserves(pools, path.leg1, in1, out1), path.leg2, LiveIn(pools, path.leg2) + amounts.0,
             LiveOut(pools, path.leg2) - amounts.1, path.leg3);
  }

  lemma WritesKeepPools(pools: Pools, path: Path, amounts: (nat, nat, nat))
    requires Triangle(pools, path) && Covers(pools, path, amounts)
    requires NoDrop(LiveIn(pools, path.leg1), LiveOut(pools, path.leg1), path.input, amounts.0)
    requires NoDrop(LiveIn(pools, path.leg2), LiveOut(pools, path.leg2), amounts.0, amounts.1)
    requires NoDrop(LiveIn(pools, path.leg3), LiveOut(pools, path.leg3), amounts.1, amounts.2)
    ensures PoolsKept(pools, WriteReserves(pools, path, amounts))
  {
    var p1 := WriteLeg(pools, pools, path.leg1, path.input, amounts.0);
    var p2 := WriteLeg(p1, pools, path.leg2, amounts.0, amounts.1);
    LegsStayLive(pools, path, amounts);
    SetKeeps(pools, path.leg1, LiveIn(pools, path.leg1), LiveOut(pools, path.leg1), path.input, amounts.0);
    SetKeeps(p1, path.leg2, LiveIn(pools, path.leg2), LiveOut(pools, path.leg2), amounts.0, amounts.1);
    SetKeeps(p2, path.leg3, LiveIn(pools, path.leg3), LiveOut(pools, path.leg3), amounts.1, amounts.2);
    PoolsKeptTransitive(pools, p1, p2);
    PoolsKeptTransitive(pools, p2, WriteReserves(pools, path, amounts));
  }

  /** What paying into and taking from a pool does to the pools' holding of a token. */
  function Moved(leg: Leg, paid: nat, taken: nat, token: string): int {
    (if leg.tokenIn == token then paid else 0) - (if leg.tokenOut == token then taken else 0)
  }

  lemma WriteLegHeld(written: Pools, pools: Pools, leg: Leg, paid: nat, taken: nat, token: string)
    requires LiveOut(pools, leg) > taken && LegFits(written, leg)
    requires LiveIn(written, leg) == LiveIn(pools, leg) && LiveOut(written, leg) == LiveOut(pools, leg)
    ensures Total(PoolShares(WriteLeg(written, pools, leg, paid, taken), token))
            == Total(PoolShares(written, token)) + Moved(leg, paid, taken, token)
  {
    hide SetReserves, PoolShares, Total, LegFits, LiveIn, LiveOut;
    SetHeld(written, leg, LiveIn(pools, leg) + paid, LiveOut(pools, leg) - taken, token);
  }

  lemma WritesConserve(pools: Pools, path: Path, amounts: (nat, nat, nat), token: string)
    requires Triangle(pools, path) && Covers(pools, path, amounts)
    ensures Total(PoolShares(WriteReserves(pools, path, amounts), token))
            == Total(PoolShares(pools, token)) + if token == NATIVE then path.input - amounts.2 else 0
  {
    var p1 := WriteLeg(pools, pools, path.leg1, path.input, amounts.0);
    var p2 := WriteLeg(p1, pools, path.leg2, amounts.0, amounts.1);
    LegsStayLive(pools, path, amounts);
    WriteLegHeld(pools, pools, path.leg1, path.input, amounts.0, token);
    WriteLegHeld(p1, pools, path.leg2, amounts.0, amounts.1, token);
    WriteLegHeld(p2, pools, path.leg3, amounts.1, amounts.2, token);
  }

  lemma CycleNeverDrops(input: nat, x1: nat, y1: nat, x2: nat, y2: nat, x3: nat, y3: nat)
    ensures var (a, b, out) := Cycle(input, x1, y1, x2, y2, x3, y3);
            NoDrop(x1, y1, input, a) && NoDrop(x2, y2, a, b) && NoDrop(x3, y3, b, out)
  {
    var (a, b, out) := Cycle(input, x1, y1, x2, y2, x3, y3);
    ProductNeverDrops(input, x1, y1);
    ProductNeverDrops(a, x2, y2);
    ProductNeverDrops(b, x3, y3);
  }

  lemma ArbKeepsPools(pools: Pools, path: Path)
    requires Triangle(pools, path) && Covers(pools, path, LiveCycle(pools, path))
    ensures PoolsKept(pools, WriteReserves(pools, path, LiveCycle(pools, path)))
  {
    CycleNeverDrops(path.input, LiveIn(pools, path.leg1), LiveOut(pools, path.leg1), LiveIn(pools, path.leg2),
                    LiveOut(pools, path.leg2), LiveIn(pools, path.leg3), LiveOut(pools, path.leg3));
    WritesKeepPools(pools, path, LiveCycle(pools, path));
  }

  /** Nothing is lost: pools keep their tokens and products, every token is
      conserved across treasury and pools, other accounts are untouched. */
  ghost predicate Sound(before: Market, after: Market, treasury: Address) {
    && PoolsKept(before.pools, after.pools)
    && (forall token :: Held(after, treasury, token) == Held(before, treasury, token))
    && (forall a :: a != treasury ==> BalanceOf(after.balances, a) == BalanceOf(before.balances, a))
    && BalanceOf(after.balances, treasury) >= BalanceOf(before.balances, treasury)
  }

  /** An arbitrage goes through exactly when the cycle returns its input and the
      profit floor on top, the treasury can pay the input, and no pool it takes
      from is empty. */
  lemma ArbSucceedsExactly(m: Market, treasury: Address, path: Path, bps: int)
    ensures var rate := if bps <= 0 then 50 else bps;
            ExecuteArb(m, treasury, path, bps).1
            <==> && 10000 * (LiveCycle(m.pools, path).2 - path.input + 1) > path.input * rate
                 && treasury in m.balances && path.input <= m.balances[treasury]
                 && LiveOut(m.pools, path.leg1) > 0 && LiveOut(m.pools, path.leg2) > 0 && LiveOut(m.pools, path.leg3) > 0
  {
    hide AmountOut;
    var (a, b, out) := LiveCycle(m.pools, path);
    FloorBelow(path.input * (if bps <= 0 then 50 else bps), out - path.input);
    OutBelowReserve(path.input, LiveIn(m.pools, path.leg1), LiveOut(m.pools, path.leg1));
    OutBelowReserve(a, LiveIn(m.pools, path.leg2), LiveOut(m.pools, path.leg2));
    OutBelowReserve(b, LiveIn(m.pools, path.leg3), LiveOut(m.pools, path.leg3));
  }

  lemma FloorBelow(n: int, v: int)
    ensures v >= n / 10000 <==> 10000 * (v + 1) > n
  {
  }

  lemma OutBelowReserve(a: nat, x: nat, y: nat)
    ensures y > AmountOut(a, x, y) <==> y > 0
  {
    OutTimesDenominator(a, x, y);
  }

  /** A triangular arbitrage over three distinct pairs, on whatever the pools hold
      by then, never lowers a pool's product, conserves each token, and when it
      succeeds grows the treasury by at least the profit floor. */
  lemma ArbIsSafe(m: Market, treasury: Address, path: Path, bps: int)
    requires Triangle(m.pools, path)
    ensures var (after, ok) := ExecuteArb(m, treasury, path, bps);
            && Sound(m, after, treasury)
            && (!ok ==> after == m)
            && (ok ==> BalanceOf(after.balances, treasury) - BalanceOf(m.balances, treasury) >= MinProfit(path.input, bps))
            && (ok ==> path.input <= BalanceOf(m.balances, treasury)
                       && BalanceOf(after.balances, treasury)
                          == BalanceOf(m.balances, treasury) - path.input + LiveCycle(m.pools, path).2)
  {
    if MayExecute(m, treasury, path, bps) {
      ArbKeepsPools(m.pools, path);
      MinProfitNonNegative(path.input, bps);
      var after := ExecuteArb(m, treasury, path, bps).0;
      forall token ensures Held(after, treasury, token) == Held(m, treasury, token) {
        WritesConserve(m.pools, path, LiveCycle(m.pools, path), token);
      }
    } else {
      SoundReflexive(m, treasury);
    }
  }

  lemma SoundReflexive(m: Market, treasury: Address)
    ensures Sound(m, m, treasury)
  {
    forall k | k in m.pools ensures NoWorse(m.pools[k], m.pools[k]) {
    }
  }

  lemma MinProfitNonNegative(input: nat, bps: int)
    ensures 0 <= MinProfit(input, bps)
  {
    assert 0 <= input * (if bps <= 0 then MIN_PROFIT_BPS else bps);
  }

  lemma SoundTransitive(a: Market, b: Market, c: Market, treasury: Address)
    requires Sound(a, b, treasury) && Sound(b, c, treasury)
    ensures Sound(a, c, treasury)
  {
    PoolsKeptTransitive(a.pools, b.pools, c.pools);
  }

  lemma TriangleStays(before: Pools, after: Pools, path: Path)
    requires Triangle(before, path) && PoolsKept(before, after)
    ensures Triangle(after, path)
  {
    LegStays(before, after, path.leg1);
    LegStays(before, after, path.leg2);
    LegStays(before, after, path.leg3);
  }

  lemma LegStays(before: Pools, after: Pools, leg: Leg)
    requires LegFits(before, leg) && PoolsKept(before, after)
    ensures LegFits(after, leg)
  {
    assert NoWorse(before[leg.pair], after[leg.pair]);
  }

  /** A whole epoch: at most three arbitrages succeed and the market stays sound,
      in whatever order the prepared paths come. */
  lemma {:induction false} EpochIsSafe(m: Market, treasury: Address, paths: seq<Path>, bps: int, executed: nat)
    requires executed <= MAX_ARBS && forall i :: 0 <= i < |paths| ==> Triangle(m.pools, paths[i])
    ensures var (after, count) := ExecuteArbs(m, treasury, paths, bps, executed);
            Sound(m, after, treasury) && executed <= count <= MAX_ARBS && (count == executed ==> after == m)
    decreases |paths|
  {
    if paths == [] || executed >= MAX_ARBS {
      SoundReflexive(m, treasury);
    } else {
      ArbIsSafe(m, treasury, paths[0], bps);
      var (next, ok) := ExecuteArb(m, treasury, paths[0], bps);
      forall i | 0 <= i < |paths| - 1 ensures Triangle(next.pools, paths[1..][i]) {
        TriangleStays(m.pools, next.pools, paths[i + 1]);
      }
      EpochIsSafe(next, treasury, paths[1..], bps, if ok then executed + 1 else executed);
      SoundTransitive(m, next, ExecuteArbs(m, treasury, paths, bps, executed).0, treasury);
    }
  }

  /** What the treasury pays into the pools in a whole epoch. */
  ghost function Spent(m: Market, treasury: Address, paths: seq<Path>, bps: int, executed: nat): nat
    decreases |paths|
  {
    if paths == [] || executed >= MAX_ARBS then 0
    else
      var (next, ok) := ExecuteArb(m, treasury, paths[0], bps);
      (if ok then paths[0].input else 0) + Spent(next, treasury, paths[1..], bps, if ok then executed + 1 else executed)
  }

  lemma {:induction false} SpendingIsCapped(m: Market, treasury: Address, paths: seq<Path>, bps: int, executed: nat, cap: nat)
    requires executed <= MAX_ARBS && forall i :: 0 <= i < |paths| ==> paths[i].input <= cap
    ensures var count := ExecuteArbs(m, treasury, paths, bps, executed).1;
            executed <= count <= MAX_ARBS && Spent(m, treasury, paths, bps, executed) <= (count - executed) * cap
    decreases |paths|
  {
    hide ExecuteArb;
    if paths != [] && executed < MAX_ARBS {
      var (next, ok) := ExecuteArb(m, treasury, paths[0], bps);
      assert forall i :: 0 <= i < |paths| - 1 ==> paths[1..][i] == paths[i + 1];
      SpendingIsCapped(next, treasury, paths[1..], bps, if ok then executed + 1 else executed, cap);
      var count := ExecuteArbs(m, treasury, paths, bps, executed).1;
      assert ok ==> (count - executed) * cap == (count - (executed + 1)) * cap + cap;
    }
  }

  /** Paths sized within the cap spend at most three tenths of what the treasury
      held when the epoch began, less under a lower policy. */
  lemma EpochSpendsWithinCap(m: Market, treasury: Address, paths: seq<Path>, bps: int, policyBps: int)
    requires 0 <= BalanceOf(m.balances, treasury)
    requires forall i :: 0 <= i < |paths| ==> paths[i].input <= CapitalCap(BalanceOf(m.balances, treasury), policyBps)
    ensures 10000 * Spent(m, treasury, paths, bps, 0) <= 3 * (BalanceOf(m.balances, treasury) * CapBps(policyBps))
    ensures 10 * Spent(m, treasury, paths, bps, 0) <= 3 * BalanceOf(m.balances, treasury)
  {
    var balance := BalanceOf(m.balances, treasury);
    var cap := CapitalCap(balance, policyBps);
    SpendingIsCapped(m, treasury, paths, bps, 0, cap);
    CapArithmetic(Spent(m, treasury, paths, bps, 0), ExecuteArbs(m, treasury, paths, bps, 0).1, cap, balance, CapBps(policyBps));
  }

  lemma CapArithmetic(spent: nat, count: nat, cap: nat, balance: nat, capBps: nat)
    requires count <= 3 && capBps <= 1000 && spent <= count * cap && cap == balance * capBps / 10000
    ensures 10000 * spent <= 3 * (balance * capBps) && 10 * spent <= 3 * balance
  {
    MulMonotone(cap, count, 3);
    assert cap * count == count * cap;
    assert 10000 * cap <= balance * capBps;
    MulMonotone(balance, capBps, 1000);
  }
}
