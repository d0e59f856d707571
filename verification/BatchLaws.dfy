/** A batch trades all it can: the smaller side is used up, and an order goes
    unfilled only for want of an allotment or because its limit forbids it. */
module BatchLaws {
  import opened Basics
  import opened Sums
  import opened Sorting
  import opened BatchModel
  import opened BatchOrder

  /** A live order that sells one token of the pair for the other and whose limit
      the reserves' price meets. */
  predicate Offers(e: Rules, m: Market, o: Order, sells0: bool) {
    var (tokenIn, tokenOut, reserveIn, reserveOut) :=
      if sells0 then (m.token0, m.token1, m.reserve0, m.reserve1) else (m.token1, m.token0, m.reserve1, m.reserve0);
    && e.validOwner(o.owner) && o.validFrom <= m.height <= o.expiresAt
    && o.amountIn.Some? && 0 < o.amountIn.value && o.minOut.Some? && 0 <= o.minOut.value
    && o.tokenIn == tokenIn && o.tokenOut == tokenOut
    && o.minOut.value * reserveIn <= o.amountIn.value * reserveOut
  }

  /** All that a list offers of one token. */
  function Offered(e: Rules, m: Market, orders: seq<Order>, sells0: bool): int {
    if orders == [] then 0
    else
      var o := Resolve(e, orders[|orders| - 1]);
      Offered(e, m, orders[..|orders| - 1], sells0) + if Offers(e, m, o, sells0) then o.amountIn.value else 0
  }

  lemma QuoteMeets(amount: int, limit: int, reserveIn: int, reserveOut: int)
    requires 0 < reserveIn
    ensures amount * reserveOut / reserveIn >= limit <==> limit * reserveIn <= amount * reserveOut
  {
    var q := amount * reserveOut / reserveIn;
    assert reserveIn * q <= amount * reserveOut < reserveIn * (q + 1);
    if q >= limit {
      MulMonotone(reserveIn, limit, q);
    } else {
      MulMonotone(reserveIn, q + 1, limit);
    }
  }

  lemma JudgedExactly(e: Rules, m: Market, o: Order)
    requires MarketOk(m)
    ensures Judge(e, m, o) == Sells0 <==> Offers(e, m, o, true)
    ensures Judge(e, m, o) == Sells1 <==> Offers(e, m, o, false)
  {
    if o.amountIn.Some? && o.minOut.Some? {
      QuoteMeets(o.amountIn.value, o.minOut.value, m.reserve0, m.reserve1);
      QuoteMeets(o.amountIn.value, o.minOut.value, m.reserve1, m.reserve0);
    }
  }

  lemma {:induction false} TotalInConcat(a: seq<Order>, b: seq<Order>)
    ensures TotalIn(a + b) == TotalIn(a) + TotalIn(b)
  {
    if a == [] {
      assert a + b == b;
    } else {
      TotalInConcat(a[1..], b);
      assert (a + b)[1..] == a[1..] + b;
    }
  }

  lemma {:induction false} TotalInPermutation(a: seq<Order>, b: seq<Order>)
    requires multiset(a) == multiset(b)
    ensures TotalIn(a) == TotalIn(b)
  {
    assert |multiset(a)| == |multiset(b)|;
    if a != [] {
      assert a[0] in multiset(b);
      var i :| 0 <= i < |b| && b[i] == a[0];
      TailMultiset(a);
      RemoveAtMultiset(b, i);
      TotalInPermutation(a[1..], b[..i] + b[i + 1..]);
      TotalInConcat(b[..i], b[i + 1..]);
      TotalInConcat(b[..i], b[i..]);
      assert b == b[..i] + b[i..] && b[i..][1..] == b[i + 1..];
    }
  }

  lemma TotalInSnoc(side: seq<Order>, o: Order)
    ensures TotalIn(side + [o]) == TotalIn(side) + AmountIn(o)
  {
    TotalInConcat(side, [o]);
    assert TotalIn([o]) == AmountIn(o) + TotalIn([]);
  }

  lemma {:induction false} SelectedTotal(e: Rules, m: Market, orders: seq<Order>, sells0: bool)
    requires MarketOk(m)
    ensures TotalIn(Selected(e, m, if sells0 then Sells0 else Sells1, orders)) == Offered(e, m, orders, sells0)
    decreases |orders|
  {
    if orders != [] {
      SelectedTotalStep(e, m, orders, sells0);
      SelectedTotal(e, m, orders[..|orders| - 1], sells0);
    }
  }

  lemma SelectedTotalStep(e: Rules, m: Market, orders: seq<Order>, sells0: bool)
    requires MarketOk(m) && orders != []
    ensures var v, o := if sells0 then Sells0 else Sells1, Resolve(e, orders[|orders| - 1]);
            TotalIn(Selected(e, m, v, orders))
            == TotalIn(Selected(e, m, v, orders[..|orders| - 1])) + if Offers(e, m, o, sells0) then AmountIn(o) else 0
  {
    hide Judge, Resolve, Offers, TotalIn, Selected;
    var v, o := if sells0 then Sells0 else Sells1, Resolve(e, orders[|orders| - 1]);
    SelectedSnoc(e, m, v, orders);
    JudgedExactly(e, m, o);
    TotalInSnoc(Selected(e, m, v, orders[..|orders| - 1]), o);
  }

  lemma SortedTotal(side: seq<Order>)
    ensures TotalIn(Sort(ById, side)) == TotalIn(side)
  {
    ByIdIsOrder();
    SortCorrect(ById, side);
    TotalInPermutation(Sort(ById, side), side);
  }

  /** The matched amounts of a settlement are the largest the offers allow: either
      all of token0 is matched, or one unit more would be worth more than all of
      token1; and matched1 is the largest amount worth no more than matched0. */
  lemma ClearExhausts(e: Rules, m: Market, orders: seq<Order>)
    requires DistinctIds(e, orders)
    ensures Clear(e, m, orders).Some? <==>
              m.token0 != "" && m.token1 != "" && m.token0 != m.token1 && 0 < m.reserve0 && 0 < m.reserve1 && m.height != 0
    ensures Clear(e, m, orders).Some? ==>
              var s := Clear(e, m, orders).value;
              var offered0, offered1 := Offered(e, m, orders, true), Offered(e, m, orders, false);
              && s.clearingNum == m.reserve1 && s.clearingDen == m.reserve0
              && s.matched0 <= offered0 && s.matched0 * m.reserve1 <= offered1 * m.reserve0
              && (s.matched0 == offered0 || (s.matched0 + 1) * m.reserve1 > offered1 * m.reserve0)
              && s.matched1 * m.reserve0 <= s.matched0 * m.reserve1 < (s.matched1 + 1) * m.reserve0
  {
    if MarketOk(m) {
      ClassifySelects(e, m, orders);
      SelectedTotal(e, m, orders, true);
      SelectedTotal(e, m, orders, false);
      SortedTotal(Selected(e, m, Sells0, orders));
      SortedTotal(Selected(e, m, Sells1, orders));
      LargestMatch(Offered(e, m, orders, true), Offered(e, m, orders, false), m.reserve0, m.reserve1);
    }
  }

  lemma LargestMatch(total0: int, total1: int, reserve0: int, reserve1: int)
    requires 0 < reserve0 && 0 < reserve1
    ensures var available := total1 * reserve0 / reserve1;
            var matched0 := if available < total0 then available else total0;
            var matched1 := matched0 * reserve1 / reserve0;
            && matched0 <= total0 && matched0 * reserve1 <= total1 * reserve0
            && (matched0 == total0 || (matched0 + 1) * reserve1 > total1 * reserve0)
            && matched1 * reserve0 <= matched0 * reserve1 < (matched1 + 1) * reserve0
  {
    var available := total1 * reserve0 / reserve1;
    var matched0 := if available < total0 then available else total0;
    assert reserve1 * available <= total1 * reserve0 < reserve1 * (available + 1);
    MulMonotone(reserve1, matched0, available);
    var matched1 := matched0 * reserve1 / reserve0;
    assert reserve0 * matched1 <= matched0 * reserve1 < reserve0 * (matched1 + 1);
  }

  // ------------------------------------------------------- who is filled

  /** The limit, rounded up, is met exactly when the fill is worth the limit's part. */
  lemma CeilMeets(a: int, b: int, out: int)
    requires 0 < b
    ensures out >= CeilDiv(a, b) <==> a <= out * b
  {
    var q := a / b;
    assert b * q <= a < b * (q + 1) && a == b * q + a % b;
    if out >= CeilDiv(a, b) {
      MulMonotone(b, CeilDiv(a, b), out);
    } else {
      MulMonotone(b, out, CeilDiv(a, b) - 1);
    }
  }

  /** An allotment becomes a fill, for exactly that amount at the clearing price
      rounded down, unless it is empty or the fill is worth less than its part of
      the limit. */
  lemma FilledExactly(o: Order, amount: int, num: int, den: int)
    requires 0 < den && 0 < AmountIn(o)
    ensures FillOf(o, amount, num, den)
         == if 0 < amount && MinOut(o) * amount <= (amount * num / den) * AmountIn(o)
            then Some(Fill(o.id, o.owner, amount, amount * num / den)) else None
  {
    CeilMeets(MinOut(o) * amount, AmountIn(o), amount * num / den);
  }

  /** The fills of one order, wherever it stands, in a sorted settlement. */
  lemma FillsOfOne(fills0: seq<Fill>, fills1: seq<Fill>, id: string, f: Fill)
    requires forall g :: g in fills1 ==> g.orderId != id
    requires f.orderId == id
    ensures f in Sort(FillById, fills0 + fills1) <==> f in fills0
    ensures f in Sort(FillById, fills1 + fills0) <==> f in fills0
  {
    ByIdIsOrder();
    SortCorrect(FillById, fills0 + fills1);
    SortCorrect(FillById, fills1 + fills0);
    SameElements(Sort(FillById, fills0 + fills1), fills0 + fills1);
    SameElements(Sort(FillById, fills1 + fills0), fills1 + fills0);
  }

  /** The orders of one side, by id. */
  function SideOf(e: Rules, m: Market, orders: seq<Order>, sells0: bool): seq<Order>
    requires MarketOk(m)
  {
    Sort(ById, Selected(e, m, if sells0 then Sells0 else Sells1, orders))
  }

  lemma SideSource(e: Rules, m: Market, orders: seq<Order>, sells0: bool, k: nat) returns (i: nat)
    requires MarketOk(m) && DistinctIds(e, orders) && k < |SideOf(e, m, orders, sells0)|
    ensures i < |orders| && SideOf(e, m, orders, sells0)[k] == Resolve(e, orders[i])
    ensures Offers(e, m, SideOf(e, m, orders, sells0)[k], sells0)
    ensures Silent(SideOf(e, m, orders, !sells0), SideOf(e, m, orders, sells0)[k].id)
  {
    var v := if sells0 then Sells0 else Sells1;
    var o := SideOf(e, m, orders, sells0)[k];
    SortedSide(e, m, v, orders);
    assert o in SideOf(e, m, orders, sells0);
    i := SelectedComesFrom(e, m, v, orders, o);
    JudgedExactly(e, m, o);
    OtherListsSilent(e, m, orders, i, if sells0 then Sells1 else Sells0);
  }

  /** Every order that offers stands on its side. */
  lemma OffersStand(e: Rules, m: Market, orders: seq<Order>, sells0: bool, i: nat)
    requires MarketOk(m) && DistinctIds(e, orders) && i < |orders| && Offers(e, m, Resolve(e, orders[i]), sells0)
    ensures Resolve(e, orders[i]) in SideOf(e, m, orders, sells0)
  {
    JudgedExactly(e, m, Resolve(e, orders[i]));
    SelectedHas(e, m, if sells0 then Sells0 else Sells1, orders, i);
    SortedSide(e, m, if sells0 then Sells0 else Sells1, orders);
  }

  /** The fill an allotment of a side gives its k-th order, and no other. */
  ghost predicate FilledBy(side: seq<Order>, k: nat, matched: int, num: int, den: int, f: Fill)
    requires k < |side| && 0 < den
  {
    var o, amount := side[k], Allotted(side, matched)[k];
    && 0 < amount && MinOut(o) * amount <= (amount * num / den) * AmountIn(o)
    && f == Fill(o.id, o.owner, amount, amount * num / den)
  }

  lemma SideFilledBy(side: seq<Order>, k: nat, matched: int, num: int, den: int, f: Fill)
    requires DistinctSide(side) && k < |side| && 0 < den && 0 < AmountIn(side[k]) && f.orderId == side[k].id
    ensures f in SideFills(side, matched, num, den) <==> FilledBy(side, k, matched, num, den, f)
  {
    hide SideFills, SideOpen, FillOf;
    SideAnswers(side, matched, num, den, k);
    FilledExactly(side[k], Allotted(side, matched)[k], num, den);
  }

  lemma SettleFills0(m: Market, side0: seq<Order>, side1: seq<Order>, rejected: seq<string>, k: nat, f: Fill)
    requires MarketOk(m) && DistinctSide(side0) && k < |side0| && Silent(side1, side0[k].id)
    requires 0 < AmountIn(side0[k]) && f.orderId == side0[k].id
    ensures var s := Settle(m, side0, side1, rejected);
            f in s.fills <==> 0 < s.matched0 && 0 < s.matched1 && FilledBy(side0, k, s.matched0, m.reserve1, m.reserve0, f)
  {
    hide SideFills, SideOpen, FilledBy, Matched0, Matched1;
    var (matched0, matched1) := Matched(m, side0, side1);
    if Trades(m, side0, side1) {
      SideFilledBy(side0, k, matched0, m.reserve1, m.reserve0, f);
      SideMentions(side1, matched1, m.reserve0, m.reserve1, side0[k].id);
      FillsOfOne(SideFills(side0, matched0, m.reserve1, m.reserve0), SideFills(side1, matched1, m.reserve0, m.reserve1), side0[k].id, f);
    } else {
      NoFills();
    }
  }

  lemma SettleFills1(m: Market, side0: seq<Order>, side1: seq<Order>, rejected: seq<string>, k: nat, f: Fill)
    requires MarketOk(m) && DistinctSide(side1) && k < |side1| && Silent(side0, side1[k].id)
    requires 0 < AmountIn(side1[k]) && f.orderId == side1[k].id
    ensures var s := Settle(m, side0, side1, rejected);
            f in s.fills <==> 0 < s.matched0 && 0 < s.matched1 && FilledBy(side1, k, s.matched1, m.reserve0, m.reserve1, f)
  {
    hide SideFills, SideOpen, FilledBy, Matched0, Matched1;
    var (matched0, matched1) := Matched(m, side0, side1);
    if Trades(m, side0, side1) {
      SideFilledBy(side1, k, matched1, m.reserve0, m.reserve1, f);
      SideMentions(side0, matched0, m.reserve1, m.reserve0, side1[k].id);
      FillsOfOne(SideFills(side1, matched1, m.reserve0, m.reserve1), SideFills(side0, matched0, m.reserve1, m.reserve0), side1[k].id, f);
    } else {
      NoFills();
    }
  }

  lemma NoFills()
    ensures Sort(FillById, []) == []
  {
    ByIdIsOrder();
    SortCorrect(FillById, []);
  }

  /** In every settlement an offering order has the fill its allotment gives at the
      clearing price, if both sides match and its limit allows it, and no other. */
  lemma OrderIsFilledExactly(e: Rules, m: Market, orders: seq<Order>, sells0: bool, k: nat, f: Fill)
    requires MarketOk(m) && DistinctIds(e, orders) && k < |SideOf(e, m, orders, sells0)|
    requires f.orderId == SideOf(e, m, orders, sells0)[k].id
    ensures Offers(e, m, SideOf(e, m, orders, sells0)[k], sells0)
    ensures var s := Clear(e, m, orders).value;
            f in s.fills <==>
              && 0 < s.matched0 && 0 < s.matched1
              && FilledBy(SideOf(e, m, orders, sells0), k, if sells0 then s.matched0 else s.matched1,
                          if sells0 then m.reserve1 else m.reserve0, if sells0 then m.reserve0 else m.reserve1, f)
  {
    hide FilledBy, Settle, Offers;
    var i := SideSource(e, m, orders, sells0, k);
    ClassifySelects(e, m, orders);
    SortedSide(e, m, if sells0 then Sells0 else Sells1, orders);
    OfferHasAmounts(e, m, SideOf(e, m, orders, sells0)[k], sells0);
    var side0, side1 := SideOf(e, m, orders, true), SideOf(e, m, orders, false);
    var rejected := IdsOf(Selected(e, m, Rejected, orders));
    if sells0 {
      SettleFills0(m, side0, side1, rejected, k, f);
    } else {
      SettleFills1(m, side0, side1, rejected, k, f);
    }
  }

  lemma OfferHasAmounts(e: Rules, m: Market, o: Order, sells0: bool)
    requires MarketOk(m) && Offers(e, m, o, sells0)
    ensures 0 < m.reserve0 && 0 < m.reserve1
    ensures o.amountIn.Some? && AmountIn(o) == o.amountIn.value > 0 && o.minOut.Some? && MinOut(o) == o.minOut.value
  {
  }
}
