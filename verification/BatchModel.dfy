/** Uniform-price batch clearing as a function of the orders. */
module BatchModel {
  import opened Basics
  import opened Sums
  import opened Sorting

  datatype Order = Order(
    id: string,
    owner: Address,
    tokenIn: string,
    tokenOut: string,
    amountIn: Option<int>,
    minOut: Option<int>,
    validFrom: nat,
    expiresAt: nat,
    nonce: nat)

  datatype Fill = Fill(orderId: string, owner: Address, amountIn: int, amountOut: int)

  datatype Market = Market(token0: string, token1: string, reserve0: int, reserve1: int, height: nat)

  datatype Settlement = Settlement(
    clearingNum: int,
    clearingDen: int,
    matched0: int,
    matched1: int,
    fills: seq<Fill>,
    unfilled: seq<string>)

  /** The id hash and the address check, whatever they are. */
  datatype Rules = Rules(hashId: Order -> string, validOwner: Address -> bool)

  predicate MarketOk(m: Market) {
    m.token0 != "" && m.token1 != "" && m.token0 != m.token1 && 0 < m.reserve0 && 0 < m.reserve1 && m.height != 0
  }

  function Resolve(e: Rules, o: Order): Order {
    if o.id == "" then o.(id := e.hashId(o)) else o
  }

  datatype Verdict = Sells0 | Sells1 | Rejected

  predicate Live(e: Rules, m: Market, o: Order) {
    && e.validOwner(o.owner) && o.amountIn.Some? && o.minOut.Some?
    && o.amountIn.value > 0 && o.minOut.value >= 0
    && o.validFrom <= m.height <= o.expiresAt
  }

  /** What becomes of a live order: a side, when the quote at the clearing price
      meets its limit, or a rejection. */
  function Place(m: Market, o: Order): Verdict
    requires MarketOk(m) && o.amountIn.Some? && o.minOut.Some?
  {
    if o.tokenIn == m.token0 && o.tokenOut == m.token1 then
      if o.amountIn.value * m.reserve1 / m.reserve0 >= o.minOut.value then Sells0 else Rejected
    else if o.tokenIn == m.token1 && o.tokenOut == m.token0 then
      if o.amountIn.value * m.reserve0 / m.reserve1 >= o.minOut.value then Sells1 else Rejected
    else Rejected
  }

  function Judge(e: Rules, m: Market, o: Order): Verdict
    requires MarketOk(m)
  {
    if Live(e, m, o) then Place(m, o) else Rejected
  }

  datatype Sides = Sides(side0: seq<Order>, side1: seq<Order>, rejected: seq<string>)

  function Put(sides: Sides, v: Verdict, o: Order): Sides {
    match v
    case Sells0 => sides.(side0 := sides.side0 + [o])
    case Sells1 => sides.(side1 := sides.side1 + [o])
    case Rejected => sides.(rejected := sides.rejected + [o.id])
  }

  /** The first live order of an id is the only one considered. */
  function Classify(e: Rules, m: Market, orders: seq<Order>): (Sides, set<string>)
    requires MarketOk(m)
    decreases |orders|
  {
    if orders == [] then (Sides([], [], []), {})
    else
      var (sides, seen) := Classify(e, m, orders[..|orders| - 1]);
      var o := Resolve(e, orders[|orders| - 1]);
      if o.id in seen || !Live(e, m, o) then (Put(sides, Rejected, o), seen)
      else (Put(sides, Place(m, o), o), seen + {o.id})
  }

  predicate ById(a: Order, b: Order) { TextLeq(a.id, b.id) }

  predicate FillById(a: Fill, b: Fill) { TextLeq(a.orderId, b.orderId) }

  function AmountIn(o: Order): int { if o.amountIn.Some? then o.amountIn.value else 0 }

  function MinOut(o: Order): int { if o.minOut.Some? then o.minOut.value else 0 }

  function TotalIn(side: seq<Order>): int {
    if side == [] then 0 else AmountIn(side[0]) + TotalIn(side[1..])
  }

  function Share(matched: int, amount: int, total: int): int
    requires total > 0
  {
    matched * amount / total
  }

  /** Floored pro-rata shares; the last order takes what remains. */
  function Allot(side: seq<Order>, remaining: int, matched: int, total: int): seq<int> {
    if side == [] then []
    else if |side| == 1 then [remaining]
    else
      var share := if total > 0 then Share(matched, AmountIn(side[0]), total) else 0;
      [share] + Allot(side[1..], remaining - share, matched, total)
  }

  function CeilDiv(a: int, b: int): int
    requires b > 0
  {
    if a % b > 0 then a / b + 1 else a / b
  }

  /** The fill an allotment gives an order, unless it is empty or, at the clearing
      price, misses the order's pro-rata limit. */
  function FillOf(o: Order, amount: int, num: int, den: int): Option<Fill>
    requires den > 0
  {
    if amount <= 0 || AmountIn(o) <= 0 then None
    else if amount * num / den < CeilDiv(MinOut(o) * amount, AmountIn(o)) then None
    else Some(Fill(o.id, o.owner, amount, amount * num / den))
  }

  function FillsOf(side: seq<Order>, allot: seq<int>, num: int, den: int): seq<Fill>
    requires |side| == |allot| && den > 0
  {
    if side == [] then []
    else
      var f := FillOf(side[0], allot[0], num, den);
      (if f.Some? then [f.value] else []) + FillsOf(side[1..], allot[1..], num, den)
  }

  predicate StaysOpen(o: Order, amount: int, num: int, den: int)
    requires den > 0
  {
    FillOf(o, amount, num, den).None? || amount < AmountIn(o)
  }

  function OpenOf(side: seq<Order>, allot: seq<int>, num: int, den: int): seq<string>
    requires |side| == |allot| && den > 0
  {
    if side == [] then []
    else (if StaysOpen(side[0], allot[0], num, den) then [side[0].id] else []) + OpenOf(side[1..], allot[1..], num, den)
  }

  function IdOf(o: Order): seq<string> { [o.id] }

  function IdsOf(side: seq<Order>): seq<string> { FlatMap(IdOf, side) }

  function Matched0(m: Market, total0: int, total1: int): int
    requires MarketOk(m)
  {
    var available := total1 * m.reserve0 / m.reserve1;
    if available < total0 then available else total0
  }

  function Matched1(m: Market, matched0: int): int
    requires MarketOk(m)
  {
    matched0 * m.reserve1 / m.reserve0
  }

  /** The matched amounts of the two sides. */
  function Matched(m: Market, side0: seq<Order>, side1: seq<Order>): (int, int)
    requires MarketOk(m)
  {
    var matched0 := Matched0(m, TotalIn(side0), TotalIn(side1));
    (matched0, Matched1(m, matched0))
  }

  predicate Trades(m: Market, side0: seq<Order>, side1: seq<Order>)
    requires MarketOk(m)
  {
    Matched(m, side0, side1).0 > 0 && Matched(m, side0, side1).1 > 0
  }

  /** What the orders of a side are allotted of the matched amount. */
  function Allotted(side: seq<Order>, matched: int): (allot: seq<int>)
    ensures |allot| == |side|
  {
    AllotLength(side, matched, matched, TotalIn(side));
    Allot(side, matched, matched, TotalIn(side))
  }

  function SideFills(side: seq<Order>, matched: int, num: int, den: int): seq<Fill>
    requires den > 0
  {
    FillsOf(side, Allotted(side, matched), num, den)
  }

  function SideOpen(side: seq<Order>, matched: int, num: int, den: int): seq<string>
    requires den > 0
  {
    OpenOf(side, Allotted(side, matched), num, den)
  }

  function AllFills(m: Market, side0: seq<Order>, side1: seq<Order>): seq<Fill>
    requires MarketOk(m)
  {
    var (matched0, matched1) := Matched(m, side0, side1);
    if Trades(m, side0, side1)
    then SideFills(side0, matched0, m.reserve1, m.reserve0) + SideFills(side1, matched1, m.reserve0, m.reserve1)
    else []
  }

  function AllOpen(m: Market, side0: seq<Order>, side1: seq<Order>): seq<string>
    requires MarketOk(m)
  {
    var (matched0, matched1) := Matched(m, side0, side1);
    if Trades(m, side0, side1)
    then SideOpen(side0, matched0, m.reserve1, m.reserve0) + SideOpen(side1, matched1, m.reserve0, m.reserve1)
    else IdsOf(side0) + IdsOf(side1)
  }

  function Settle(m: Market, side0: seq<Order>, side1: seq<Order>, rejected: seq<string>): Settlement
    requires MarketOk(m)
  {
    var (matched0, matched1) := Matched(m, side0, side1);
    Settlement(m.reserve1, m.reserve0, matched0, matched1,
               Sort(FillById, AllFills(m, side0, side1)), Sort(TextLeq, rejected + AllOpen(m, side0, side1)))
  }

  function Clear(e: Rules, m: Market, orders: seq<Order>): Option<Settlement> {
    if !MarketOk(m) then None
    else
      var sides := Classify(e, m, orders).0;
      Some(Settle(m, Sort(ById, sides.side0), Sort(ById, sides.side1), sides.rejected))
  }

  lemma {:induction false} AllotLength(side: seq<Order>, remaining: int, matched: int, total: int)
    ensures |Allot(side, remaining, matched, total)| == |side|
  {
    if |side| > 1 {
      var share := if total > 0 then Share(matched, AmountIn(side[0]), total) else 0;
      AllotLength(side[1..], remaining - share, matched, total);
    }
  }

  // ------------------------------------------------------ exact allotments

  /** Nothing of the matched amount is lost or invented. */
  lemma {:induction false} AllotmentsAreExact(side: seq<Order>, remaining: int, matched: int, total: int)
    requires side != []
    ensures SumSeq(Allot(side, remaining, matched, total)) == remaining
  {
    if |side| > 1 {
      var share := if total > 0 then Share(matched, AmountIn(side[0]), total) else 0;
      AllotmentsAreExact(side[1..], remaining - share, matched, total);
    } else {
      assert Allot(side, remaining, matched, total)[1..] == [];
    }
  }

  ghost predicate PositiveSide(side: seq<Order>) {
    forall i :: 0 <= i < |side| ==> AmountIn(side[i]) > 0 && MinOut(side[i]) >= 0
  }

  /** A floored share leaves at least the pro-rata part of the rest, and at most
      one unit per share more. */
  lemma ShareLeavesEnough(remaining: int, matched: int, total: int, amount: int, rest: int, k: nat)
    requires total > 0
    requires matched * (amount + rest) <= total * remaining <= matched * (amount + rest) + k * (total - 1)
    ensures var left := remaining - matched * amount / total;
            matched * rest <= total * left <= matched * rest + (k + 1) * (total - 1)
  {
    var share := matched * amount / total;
    assert total * share <= matched * amount <= total * share + (total - 1);
    assert matched * (amount + rest) == matched * amount + matched * rest;
    assert total * (remaining - share) == total * remaining - total * share;
    assert (k + 1) * (total - 1) == k * (total - 1) + (total - 1);
  }

  /** Every order but the last gets its floored share; the last gets at least its
      pro-rata share and at most one unit per other order more. */
  lemma {:induction false} AllotBounds(side: seq<Order>, remaining: int, matched: int, total: int, k: nat)
    requires side != [] && total > 0
    requires matched * TotalIn(side) <= total * remaining <= matched * TotalIn(side) + k * (total - 1)
    ensures |Allot(side, remaining, matched, total)| == |side|
    ensures forall i :: 0 <= i < |side| - 1 ==> Allot(side, remaining, matched, total)[i] == matched * AmountIn(side[i]) / total
    ensures var last := |side| - 1; var amount := Allot(side, remaining, matched, total)[last];
            && matched * AmountIn(side[last]) <= total * amount
            && total * amount <= matched * AmountIn(side[last]) + (k + last) * (total - 1)
  {
    AllotLength(side, remaining, matched, total);
    if |side| > 1 {
      var share := matched * AmountIn(side[0]) / total;
      ShareLeavesEnough(remaining, matched, total, AmountIn(side[0]), TotalIn(side[1..]), k);
      AllotBounds(side[1..], remaining - share, matched, total, k + 1);
      var tail := Allot(side[1..], remaining - share, matched, total);
      assert Allot(side, remaining, matched, total) == [share] + tail;
      assert side[1..][|side| - 2] == side[|side| - 1];
      forall i | 0 < i < |side| - 1
        ensures Allot(side, remaining, matched, total)[i] == matched * AmountIn(side[i]) / total
      {
        assert side[1..][i - 1] == side[i] && tail[i - 1] == matched * AmountIn(side[1..][i - 1]) / total;
      }
    } else {
      assert side[1..] == [];
    }
  }

  /** The allotments of one side of a settlement: exact in total, never negative,
      floored pro-rata shares but for the last, which is within n - 1 units. */
  lemma SideAllotments(side: seq<Order>, matched: int)
    requires side != [] && PositiveSide(side) && matched >= 0
    ensures TotalIn(side) > 0
    ensures var total := TotalIn(side); var allot := Allotted(side, matched); var last := |side| - 1;
            && SumSeq(allot) == matched
            && (forall i :: 0 <= i < last ==> allot[i] == matched * AmountIn(side[i]) / total)
            && (forall i :: 0 <= i < |allot| ==> 0 <= allot[i])
            && matched * AmountIn(side[last]) <= total * allot[last] <= matched * AmountIn(side[last]) + last * (total - 1)
  {
    var total := TotalIn(side);
    TotalInPositive(side);
    Commute(matched, total);
    AllotBounds(side, matched, matched, total, 0);
    AllotmentsAreExact(side, matched, matched, total);
    var allot, last := Allotted(side, matched), |side| - 1;
    forall i | 0 <= i < |allot| ensures 0 <= allot[i] {
      ShareNonNegative(matched, AmountIn(side[i]), total, allot[i]);
    }
  }

  lemma ShareNonNegative(matched: int, amount: int, total: int, got: int)
    requires 0 <= matched && 0 < amount && 0 < total
    requires got == matched * amount / total || matched * amount <= total * got
    ensures 0 <= got
  {
    assert 0 <= matched * amount;
    if got != matched * amount / total {
      NonNegativeFactor(total, got);
    }
  }

  lemma NonNegativeFactor(c: int, x: int)
    requires c > 0 && 0 <= c * x
    ensures 0 <= x
  {
  }

  lemma {:induction false} TotalInPositive(side: seq<Order>)
    requires PositiveSide(side)
    ensures 0 <= TotalIn(side) && (side != [] ==> 0 < TotalIn(side))
  {
    if side != [] {
      TotalInPositive(side[1..]);
    }
  }

  // ----------------------------------------------------- limits and payouts

  /** Every fill is at the clearing price and within the order's limit. */
  lemma FillMeetsLimit(o: Order, amount: int, num: int, den: int)
    requires den > 0 && FillOf(o, amount, num, den).Some?
    ensures var f := FillOf(o, amount, num, den).value;
            && f.orderId == o.id && f.owner == o.owner && f.amountIn == amount > 0
            && f.amountOut * AmountIn(o) >= MinOut(o) * amount
            && den * f.amountOut <= amount * num < den * (f.amountOut + 1)
  {
    var c := CeilDiv(MinOut(o) * amount, AmountIn(o));
    assert c * AmountIn(o) >= MinOut(o) * amount;
    var out := amount * num / den;
    assert out * AmountIn(o) >= c * AmountIn(o) by {
      MulMonotone(AmountIn(o), c, out);
    }
  }

  function PaidOut(fills: seq<Fill>): int {
    if fills == [] then 0 else fills[0].amountOut + PaidOut(fills[1..])
  }

  lemma {:induction false} PayoutsBounded(side: seq<Order>, allot: seq<int>, num: int, den: int)
    requires |side| == |allot| && den > 0 && num >= 0
    requires forall i :: 0 <= i < |allot| ==> 0 <= allot[i]
    ensures den * PaidOut(FillsOf(side, allot, num, den)) <= SumSeq(allot) * num
  {
    if side != [] {
      hide FillOf, MinOut, AmountIn;
      PayoutsBounded(side[1..], allot[1..], num, den);
      var f, rest := FillOf(side[0], allot[0], num, den), FillsOf(side[1..], allot[1..], num, den);
      if f.Some? {
        assert ([f.value] + rest)[1..] == rest;
        FillMeetsLimit(side[0], allot[0], num, den);
        OnePayout(den, num, f.value.amountOut, allot[0], PaidOut(rest), SumSeq(allot[1..]));
      } else {
        assert [] + rest == rest;
        OnePayout(den, num, 0, allot[0], PaidOut(rest), SumSeq(allot[1..]));
      }
    }
  }

  lemma OnePayout(den: int, num: int, out: int, amount: int, paid: int, sum: int)
    requires 0 <= num && 0 <= amount && (out == 0 || den * out <= amount * num) && den * paid <= sum * num
    ensures den * (out + paid) <= (amount + sum) * num
  {
    assert 0 <= amount * num;
    assert den * (out + paid) == den * out + den * paid;
    assert (amount + sum) * num == amount * num + sum * num;
  }

  lemma SidePayouts(side: seq<Order>, matched: int, num: int, den: int)
    requires side != [] && PositiveSide(side) && matched >= 0 && num >= 0 && den > 0
    ensures PaidOut(SideFills(side, matched, num, den)) <= matched * num / den
  {
    var allot := Allotted(side, matched);
    SideAllotments(side, matched);
    PayoutsBounded(side, allot, num, den);
    FloorAtLeast(PaidOut(FillsOf(side, allot, num, den)), matched * num, den);
  }

  /** Payouts fit what the other side brought: token0 sellers are paid at most
      matched1 and token1 sellers at most matched0, and neither matched amount
      exceeds what its side offered. */
  lemma PayoutsFitMatched(m: Market, side0: seq<Order>, side1: seq<Order>)
    requires MarketOk(m) && side0 != [] && side1 != [] && PositiveSide(side0) && PositiveSide(side1)
    ensures var (matched0, matched1) := Matched(m, side0, side1);
            && 0 <= matched0 <= TotalIn(side0) && 0 <= matched1 <= TotalIn(side1)
            && PaidOut(SideFills(side0, matched0, m.reserve1, m.reserve0)) <= matched1
            && PaidOut(SideFills(side1, matched1, m.reserve0, m.reserve1)) <= matched0
  {
    var (matched0, matched1) := Matched(m, side0, side1);
    TotalInPositive(side0);
    TotalInPositive(side1);
    MatchedBounds(m, TotalIn(side0), TotalIn(side1));
    SidePayouts(side0, matched0, m.reserve1, m.reserve0);
    SidePayouts(side1, matched1, m.reserve0, m.reserve1);
    ConvertingBackShrinks(matched0, m.reserve1, m.reserve0);
  }

  /** Converting at a price and back, rounding down, never gains. */
  lemma ConvertingBackShrinks(x: int, num: int, den: int)
    requires num > 0 && den > 0
    ensures (x * num / den) * den / num <= x
  {
    var y := x * num / den;
    assert den * y <= x * num;
    Commute(y, den);
    var z := y * den / num;
    assert num * z <= y * den;
    Commute(x, num);
    CancelLeq(num, z, x);
  }

  lemma MatchedBounds(m: Market, total0: int, total1: int)
    requires MarketOk(m) && 0 <= total0 && 0 <= total1
    ensures var matched0 := Matched0(m, total0, total1);
            0 <= matched0 <= total0 && 0 <= Matched1(m, matched0) <= total1
  {
    var available := total1 * m.reserve0 / m.reserve1;
    var matched0 := Matched0(m, total0, total1);
    assert 0 <= total1 * m.reserve0;
    assert 0 <= matched0 * m.reserve1;
    MulMonotone(m.reserve1, matched0, available);
    FloorMonotone(matched0 * m.reserve1, available * m.reserve1, m.reserve0);
    ConvertingBackShrinks(total1, m.reserve0, m.reserve1);
  }

  lemma FloorMonotone(a: int, b: int, c: int)
    requires a <= b && c > 0
    ensures a / c <= b / c
  {
    assert c * (a / c) <= b;
    FloorAtLeast(a / c, b, c);
  }
}
