/** Clearing does not depend on the order in which intents arrive, and answers
    every one of them. */
module BatchOrder {
  import opened Basics
  import Sums
  import opened Sorting
  import opened BatchModel

  function ResolvedId(e: Rules): Order -> seq<string> {
    (o: Order) => [Resolve(e, o).id]
  }

  function ResolvedIds(e: Rules, orders: seq<Order>): seq<string> {
    FlatMap(ResolvedId(e), orders)
  }

  /** No two orders share an id once missing ids are filled in. */
  ghost predicate DistinctIds(e: Rules, orders: seq<Order>) {
    Distinct(ResolvedIds(e, orders))
  }

  function Picker(e: Rules, m: Market, v: Verdict): Order -> seq<Order>
    requires MarketOk(m)
  {
    (o: Order) => if Judge(e, m, Resolve(e, o)) == v then [Resolve(e, o)] else []
  }

  function Selected(e: Rules, m: Market, v: Verdict, orders: seq<Order>): seq<Order>
    requires MarketOk(m)
  {
    FlatMap(Picker(e, m, v), orders)
  }

  lemma {:induction false} ResolvedIdAt(e: Rules, orders: seq<Order>)
    ensures |ResolvedIds(e, orders)| == |orders|
    ensures forall i :: 0 <= i < |orders| ==> ResolvedIds(e, orders)[i] == Resolve(e, orders[i]).id
    decreases |orders|
  {
    if orders != [] {
      ResolvedIdAt(e, orders[..|orders| - 1]);
    }
  }

  lemma DistinctFront(e: Rules, orders: seq<Order>)
    requires orders != [] && DistinctIds(e, orders)
    ensures DistinctIds(e, orders[..|orders| - 1])
    ensures Resolve(e, orders[|orders| - 1]).id !in ResolvedIds(e, orders[..|orders| - 1])
  {
    DistinctPrefix(ResolvedIds(e, orders[..|orders| - 1]), Resolve(e, orders[|orders| - 1]).id);
  }

  lemma DistinctPrefix<T>(front: seq<T>, last: T)
    requires Distinct(front + [last])
    ensures Distinct(front) && last !in front
  {
    var s := front + [last];
    forall i | 0 <= i < |front| ensures front[i] != last {
      assert s[i] != s[|front|];
    }
    forall i, j | 0 <= i < j < |front| ensures front[i] != front[j] {
      assert s[i] != s[j];
    }
  }

  lemma SelectedSnoc(e: Rules, m: Market, v: Verdict, orders: seq<Order>)
    requires MarketOk(m) && orders != []
    ensures var o := Resolve(e, orders[|orders| - 1]);
            var before := Selected(e, m, v, orders[..|orders| - 1]);
            Selected(e, m, v, orders) == if Judge(e, m, o) == v then before + [o] else before
  {
    var before := Selected(e, m, v, orders[..|orders| - 1]);
    assert before + [] == before;
  }

  function Partitioned(e: Rules, m: Market, orders: seq<Order>): Sides
    requires MarketOk(m)
  {
    Sides(Selected(e, m, Sells0, orders), Selected(e, m, Sells1, orders), IdsOf(Selected(e, m, Rejected, orders)))
  }

  lemma PartitionedSnoc(e: Rules, m: Market, orders: seq<Order>)
    requires MarketOk(m) && orders != []
    ensures var o := Resolve(e, orders[|orders| - 1]);
            Partitioned(e, m, orders) == Put(Partitioned(e, m, orders[..|orders| - 1]), Judge(e, m, o), o)
  {
    var o := Resolve(e, orders[|orders| - 1]);
    SelectedSnoc(e, m, Sells0, orders);
    SelectedSnoc(e, m, Sells1, orders);
    SelectedSnoc(e, m, Rejected, orders);
    IdsOfSnoc(Selected(e, m, Rejected, orders[..|orders| - 1]), o);
  }

  lemma IdsOfSnoc(side: seq<Order>, o: Order)
    ensures IdsOf(side + [o]) == IdsOf(side) + [o.id]
  {
    FlatMapConcat(IdOf, side, [o]);
    assert [o][..0] == [];
  }

  /** With distinct ids classification is a selection. */
  lemma {:induction false} ClassifySelects(e: Rules, m: Market, orders: seq<Order>)
    requires MarketOk(m) && DistinctIds(e, orders)
    ensures Classify(e, m, orders).0 == Partitioned(e, m, orders)
    ensures forall id :: id in Classify(e, m, orders).1 ==> id in ResolvedIds(e, orders)
    decreases |orders|
  {
    if orders != [] {
      var front, o := orders[..|orders| - 1], Resolve(e, orders[|orders| - 1]);
      DistinctFront(e, orders);
      ClassifySelects(e, m, front);
      PartitionedSnoc(e, m, orders);
      assert o.id !in Classify(e, m, front).1;
      assert ResolvedIds(e, orders) == ResolvedIds(e, front) + [o.id];
    }
  }

  /** Order ids tell resolved orders apart. */
  lemma SameIdSameOrder(e: Rules, orders: seq<Order>, i: nat, j: nat)
    requires DistinctIds(e, orders) && i < |orders| && j < |orders|
    requires Resolve(e, orders[i]).id == Resolve(e, orders[j]).id
    ensures i == j
  {
    ResolvedIdAt(e, orders);
    var ids := ResolvedIds(e, orders);
    assert ids[i] == ids[j];
  }

  lemma PickedIs(e: Rules, m: Market, v: Verdict, x: Order, o: Order)
    requires MarketOk(m) && o in Picker(e, m, v)(x)
    ensures o == Resolve(e, x) && Judge(e, m, o) == v
  {
  }

  lemma FlatMapSource<T, U>(g: T -> seq<U>, s: seq<T>, x: U) returns (i: nat)
    requires x in FlatMap(g, s)
    ensures i < |s| && x in g(s[i])
  {
    FlatMapIn(g, s, x);
    i :| i < |s| && x in g(s[i]);
  }

  lemma SelectedComesFrom(e: Rules, m: Market, v: Verdict, orders: seq<Order>, o: Order) returns (i: nat)
    requires MarketOk(m) && o in Selected(e, m, v, orders)
    ensures i < |orders| && Resolve(e, orders[i]) == o && Judge(e, m, o) == v
  {
    i := FlatMapSource(Picker(e, m, v), orders, o);
    PickedIs(e, m, v, orders[i], o);
  }

  lemma SelectedHas(e: Rules, m: Market, v: Verdict, orders: seq<Order>, i: nat)
    requires MarketOk(m) && i < |orders| && Judge(e, m, Resolve(e, orders[i])) == v
    ensures Resolve(e, orders[i]) in Selected(e, m, v, orders)
  {
    var g, o := Picker(e, m, v), Resolve(e, orders[i]);
    FlatMapIn(g, orders, o);
    assert o in g(orders[i]);
  }

  /** In a side, equal ids mean the same order. */
  lemma SelectedSeparates(e: Rules, m: Market, v: Verdict, orders: seq<Order>)
    requires MarketOk(m) && DistinctIds(e, orders)
    ensures Separates(ById, Selected(e, m, v, orders))
  {
    var s := Selected(e, m, v, orders);
    forall a, b | a in s && b in s && ById(a, b) && ById(b, a) ensures a == b {
      TextLeqTotal(a.id, b.id);
      var i := SelectedComesFrom(e, m, v, orders, a);
      var j := SelectedComesFrom(e, m, v, orders, b);
      SameIdSameOrder(e, orders, i, j);
    }
  }

  lemma ByIdIsOrder()
    ensures TotalOrder(ById) && TotalOrder(FillById) && TotalOrder(TextLeq)
  {
    TextLeqIsOrder();
  }

  lemma DistinctIdsPermutation(e: Rules, a: seq<Order>, b: seq<Order>)
    requires multiset(a) == multiset(b) && DistinctIds(e, a)
    ensures DistinctIds(e, b)
  {
    FlatMapPermutation(ResolvedId(e), a, b);
    DistinctPermutation(ResolvedIds(e, a), ResolvedIds(e, b));
  }

  lemma SettleIgnoresRejectOrder(m: Market, side0: seq<Order>, side1: seq<Order>, r: seq<string>, t: seq<string>)
    requires MarketOk(m) && multiset(r) == multiset(t)
    ensures Settle(m, side0, side1, r) == Settle(m, side0, side1, t)
  {
    TextLeqIsOrder();
    SortIsOrderIndependent(TextLeq, r + AllOpen(m, side0, side1), t + AllOpen(m, side0, side1));
  }

  /** Batch clearing is independent of the order in which orders arrive. */
  lemma ClearingIsOrderIndependent(e: Rules, m: Market, a: seq<Order>, b: seq<Order>)
    requires multiset(a) == multiset(b) && DistinctIds(e, a)
    ensures Clear(e, m, a) == Clear(e, m, b)
  {
    if MarketOk(m) {
      DistinctIdsPermutation(e, a, b);
      ClassifySelects(e, m, a);
      ClassifySelects(e, m, b);
      ByIdIsOrder();
      forall v ensures multiset(Selected(e, m, v, a)) == multiset(Selected(e, m, v, b)) {
        FlatMapPermutation(Picker(e, m, v), a, b);
      }
      SelectedSeparates(e, m, Sells0, a);
      SelectedSeparates(e, m, Sells1, a);
      SortIsOrderIndependent(ById, Selected(e, m, Sells0, a), Selected(e, m, Sells0, b));
      SortIsOrderIndependent(ById, Selected(e, m, Sells1, a), Selected(e, m, Sells1, b));
      FlatMapPermutation(IdOf, Selected(e, m, Rejected, a), Selected(e, m, Rejected, b));
      SettleIgnoresRejectOrder(m, Sort(ById, Selected(e, m, Sells0, a)), Sort(ById, Selected(e, m, Sells1, a)),
                               IdsOf(Selected(e, m, Rejected, a)), IdsOf(Selected(e, m, Rejected, b)));
    }
  }

  // --------------------------------------------- every order gets an answer

  /** What a settlement says about an order: it is filled within its limit, or
      left open, or both when the fill is partial. */
  ghost predicate Answered(fills: seq<Fill>, unfilled: seq<string>, o: Order) {
    && (o.id in unfilled || exists f :: f in fills && f.orderId == o.id)
    && forall f :: f in fills && f.orderId == o.id ==> FairFill(o, f) && (o.id in unfilled <==> f.amountIn < AmountIn(o))
  }

  ghost predicate FairFill(o: Order, f: Fill) {
    f.owner == o.owner && 0 < f.amountIn && f.amountOut * AmountIn(o) >= MinOut(o) * f.amountIn
  }

  lemma {:induction false} FillsOfIn(side: seq<Order>, allot: seq<int>, num: int, den: int, f: Fill)
    requires |side| == |allot| && den > 0
    ensures f in FillsOf(side, allot, num, den) <==>
              exists k :: 0 <= k < |side| && FillOf(side[k], allot[k], num, den) == Some(f)
  {
    if side != [] {
      FillsOfIn(side[1..], allot[1..], num, den, f);
      if k :| 0 <= k < |side| - 1 && FillOf(side[1..][k], allot[1..][k], num, den) == Some(f) {
        assert FillOf(side[k + 1], allot[k + 1], num, den) == Some(f);
      }
      if k :| 0 <= k < |side| && FillOf(side[k], allot[k], num, den) == Some(f) {
        if k > 0 {
          assert FillOf(side[1..][k - 1], allot[1..][k - 1], num, den) == Some(f);
        }
      }
    }
  }

  lemma {:induction false} OpenOfIn(side: seq<Order>, allot: seq<int>, num: int, den: int, id: string)
    requires |side| == |allot| && den > 0
    ensures id in OpenOf(side, allot, num, den) <==>
              exists k :: 0 <= k < |side| && StaysOpen(side[k], allot[k], num, den) && side[k].id == id
  {
    if side != [] {
      OpenOfIn(side[1..], allot[1..], num, den, id);
      if k :| 0 <= k < |side| - 1 && StaysOpen(side[1..][k], allot[1..][k], num, den) && side[1..][k].id == id {
        assert StaysOpen(side[k + 1], allot[k + 1], num, den) && side[k + 1].id == id;
      }
      if k :| 0 <= k < |side| && StaysOpen(side[k], allot[k], num, den) && side[k].id == id {
        if k > 0 {
          assert StaysOpen(side[1..][k - 1], allot[1..][k - 1], num, den) && side[1..][k - 1].id == id;
        }
      }
    }
  }

  ghost predicate DistinctSide(side: seq<Order>) {
    forall i, j :: 0 <= i < j < |side| ==> side[i].id != side[j].id
  }

  /** Within a side an order's fill and its place among the open orders follow
      from its own allotment alone. */
  lemma SideAnswers(side: seq<Order>, matched: int, num: int, den: int, k: nat)
    requires DistinctSide(side) && den > 0 && k < |side|
    ensures var amount := Allotted(side, matched)[k];
            && (forall f :: f in SideFills(side, matched, num, den) && f.orderId == side[k].id
                  <==> FillOf(side[k], amount, num, den) == Some(f))
            && (side[k].id in SideOpen(side, matched, num, den) <==> StaysOpen(side[k], amount, num, den))
  {
    var allot := Allotted(side, matched);
    forall f ensures f in SideFills(side, matched, num, den) && f.orderId == side[k].id
                     <==> FillOf(side[k], allot[k], num, den) == Some(f)
    {
      FillsOfIn(side, allot, num, den, f);
    }
    OpenOfIn(side, allot, num, den, side[k].id);
  }

  /** A side mentions only its own orders. */
  lemma SideMentions(side: seq<Order>, matched: int, num: int, den: int, id: string)
    requires den > 0 && forall k :: 0 <= k < |side| ==> side[k].id != id
    ensures id !in SideOpen(side, matched, num, den)
    ensures forall f :: f in SideFills(side, matched, num, den) ==> f.orderId != id
  {
    OpenOfIn(side, Allotted(side, matched), num, den, id);
    forall f | f in SideFills(side, matched, num, den) ensures f.orderId != id {
      FillsOfIn(side, Allotted(side, matched), num, den, f);
    }
  }

  /** The two sides of the sorted book: each order once, all live, and no id on
      both sides or among the rejected. */
  lemma SortedSide(e: Rules, m: Market, v: Verdict, orders: seq<Order>)
    requires MarketOk(m) && DistinctIds(e, orders)
    ensures DistinctSide(Sort(ById, Selected(e, m, v, orders)))
    ensures forall o :: o in Sort(ById, Selected(e, m, v, orders)) <==> o in Selected(e, m, v, orders)
  {
    ByIdIsOrder();
    SelectedDistinct(e, m, v, orders);
    SelectedSeparates(e, m, v, orders);
    SortStrictly(ById, Selected(e, m, v, orders));
    StrictlyDistinct(Sort(ById, Selected(e, m, v, orders)));
  }

  lemma StrictlyDistinct(side: seq<Order>)
    requires StrictlySortedBy(ById, side)
    ensures DistinctSide(side)
  {
    forall i, j | 0 <= i < j < |side| ensures side[i].id != side[j].id {
      TextLeqTotal(side[i].id, side[i].id);
      assert !ById(side[j], side[i]);
    }
  }

  lemma {:induction false} SelectedDistinct(e: Rules, m: Market, v: Verdict, orders: seq<Order>)
    requires MarketOk(m) && DistinctIds(e, orders)
    ensures Distinct(Selected(e, m, v, orders))
    decreases |orders|
  {
    if orders != [] {
      var front, o := orders[..|orders| - 1], Resolve(e, orders[|orders| - 1]);
      DistinctFront(e, orders);
      SelectedDistinct(e, m, v, front);
      SelectedSnoc(e, m, v, orders);
      if o in Selected(e, m, v, front) {
        SelectedHasId(e, m, v, front, o);
      }
    }
  }

  lemma SelectedHasId(e: Rules, m: Market, v: Verdict, orders: seq<Order>, o: Order)
    requires MarketOk(m) && o in Selected(e, m, v, orders)
    ensures o.id in ResolvedIds(e, orders)
  {
    var i := SelectedComesFrom(e, m, v, orders, o);
    ResolvedIdAt(e, orders);
    assert ResolvedIds(e, orders)[i] == o.id;
  }

  /** No other verdict's list holds the id of an order. */
  lemma OnlyItsSide(e: Rules, m: Market, orders: seq<Order>, i: nat, v: Verdict, x: Order)
    requires MarketOk(m) && DistinctIds(e, orders) && i < |orders|
    requires x in Selected(e, m, v, orders) && x.id == Resolve(e, orders[i]).id
    ensures x == Resolve(e, orders[i]) && Judge(e, m, x) == v
  {
    var j := SelectedComesFrom(e, m, v, orders, x);
    SameIdSameOrder(e, orders, i, j);
  }

  lemma SideAnswered(side: seq<Order>, matched: int, num: int, den: int, k: nat)
    requires DistinctSide(side) && den > 0 && k < |side|
    ensures Answered(SideFills(side, matched, num, den), SideOpen(side, matched, num, den), side[k])
  {
    var o, amount := side[k], Allotted(side, matched)[k];
    SideAnswers(side, matched, num, den, k);
    if FillOf(o, amount, num, den).Some? {
      FillMeetsLimit(o, amount, num, den);
      assert FillOf(o, amount, num, den).value in SideFills(side, matched, num, den);
    }
  }

  ghost predicate Unmentioned(fills: seq<Fill>, unfilled: seq<string>, o: Order) {
    o.id !in unfilled && forall f :: f in fills ==> f.orderId != o.id
  }

  /** Entries about other orders do not change an answer, nor does sorting. */
  lemma AnswerSurvives(fills: seq<Fill>, open: seq<string>, o: Order,
                       fills0: seq<Fill>, open0: seq<string>, fills1: seq<Fill>, open1: seq<string>)
    requires Answered(fills, open, o)
    requires Unmentioned(fills0, open0, o) && Unmentioned(fills1, open1, o)
    ensures Answered(Sort(FillById, fills0 + fills + fills1), Sort(TextLeq, open0 + open + open1), o)
  {
    var allFills, allOpen := fills0 + fills + fills1, open0 + open + open1;
    ByIdIsOrder();
    SortCorrect(FillById, allFills);
    SortCorrect(TextLeq, allOpen);
    SameElements(Sort(FillById, allFills), allFills);
    SameElements(Sort(TextLeq, allOpen), allOpen);
    if f :| f in fills && f.orderId == o.id {
      assert f in Sort(FillById, allFills);
    }
  }

  lemma IdsOfIn(side: seq<Order>, id: string)
    ensures id in IdsOf(side) <==> exists k :: 0 <= k < |side| && side[k].id == id
  {
    FlatMapIn(IdOf, side, id);
    if k :| 0 <= k < |side| && id in IdOf(side[k]) {
      assert side[k].id == id;
    }
    if k :| 0 <= k < |side| && side[k].id == id {
      assert id in IdOf(side[k]);
    }
  }

  lemma OtherListsSilent(e: Rules, m: Market, orders: seq<Order>, i: nat, v: Verdict)
    requires MarketOk(m) && DistinctIds(e, orders) && i < |orders|
    requires Judge(e, m, Resolve(e, orders[i])) != v
    ensures var side := Sort(ById, Selected(e, m, v, orders)); var id := Resolve(e, orders[i]).id;
            (forall k :: 0 <= k < |side| ==> side[k].id != id) && id !in IdsOf(Selected(e, m, v, orders)) && id !in IdsOf(side)
  {
    var sel, side, id := Selected(e, m, v, orders), Sort(ById, Selected(e, m, v, orders)), Resolve(e, orders[i]).id;
    SortedSide(e, m, v, orders);
    forall x | x in sel ensures x.id != id {
      if x.id == id {
        OnlyItsSide(e, m, orders, i, v, x);
      }
    }
    forall k | 0 <= k < |side| ensures side[k].id != id {
      assert side[k] in side;
    }
    IdsOfIn(sel, id);
    IdsOfIn(side, id);
  }

  lemma ItsListHolds(e: Rules, m: Market, orders: seq<Order>, i: nat) returns (k: nat)
    requires MarketOk(m) && DistinctIds(e, orders) && i < |orders|
    ensures var o := Resolve(e, orders[i]); var side := Sort(ById, Selected(e, m, Judge(e, m, o), orders));
            k < |side| && side[k] == o && o.id in IdsOf(side) && o.id in IdsOf(Selected(e, m, Judge(e, m, o), orders))
  {
    var o := Resolve(e, orders[i]);
    var v := Judge(e, m, o);
    var sel, side := Selected(e, m, v, orders), Sort(ById, Selected(e, m, v, orders));
    SortedSide(e, m, v, orders);
    SelectedHas(e, m, v, orders, i);
    k :| k < |side| && side[k] == o;
    var j :| 0 <= j < |sel| && sel[j] == o;
    IdsOfIn(side, o.id);
    IdsOfIn(sel, o.id);
  }

  /** Every order of a batch is answered: filled within its limit, left open, or
      both exactly when the fill is partial. */
  lemma EveryOrderIsAnswered(e: Rules, m: Market, orders: seq<Order>, i: nat)
    requires MarketOk(m) && DistinctIds(e, orders) && i < |orders|
    ensures var s := Clear(e, m, orders);
            s.Some? && Answered(s.value.fills, s.value.unfilled, Resolve(e, orders[i]))
  {
    var o := Resolve(e, orders[i]);
    var side0, side1 := Sort(ById, Selected(e, m, Sells0, orders)), Sort(ById, Selected(e, m, Sells1, orders));
    var rejected := IdsOf(Selected(e, m, Rejected, orders));
    ClassifySelects(e, m, orders);
    var k := ItsListHolds(e, m, orders, i);
    SortedSide(e, m, Sells0, orders);
    SortedSide(e, m, Sells1, orders);
    match Judge(e, m, o) {
      case Sells0 =>
        OtherListsSilent(e, m, orders, i, Sells1);
        OtherListsSilent(e, m, orders, i, Rejected);
        Side0Answered(m, side0, side1, rejected, k);
      case Sells1 =>
        OtherListsSilent(e, m, orders, i, Sells0);
        OtherListsSilent(e, m, orders, i, Rejected);
        Side1Answered(m, side0, side1, rejected, k);
      case Rejected =>
        OtherListsSilent(e, m, orders, i, Sells0);
        OtherListsSilent(e, m, orders, i, Sells1);
        RejectedAnswered(m, side0, side1, rejected, o);
    }
  }

  ghost predicate Silent(side: seq<Order>, id: string) {
    forall k :: 0 <= k < |side| ==> side[k].id != id
  }

  lemma Side0Answered(m: Market, side0: seq<Order>, side1: seq<Order>, rejected: seq<string>, k: nat)
    requires MarketOk(m) && DistinctSide(side0) && k < |side0|
    requires Silent(side1, side0[k].id) && side0[k].id !in rejected
    ensures var s := Settle(m, side0, side1, rejected); Answered(s.fills, s.unfilled, side0[k])
  {
    var o := side0[k];
    var (matched0, matched1) := Matched(m, side0, side1);
    if Trades(m, side0, side1) {
      SideAnswered(side0, matched0, m.reserve1, m.reserve0, k);
      SideMentions(side1, matched1, m.reserve0, m.reserve1, o.id);
      var f0, f1 := SideFills(side0, matched0, m.reserve1, m.reserve0), SideFills(side1, matched1, m.reserve0, m.reserve1);
      var u0, u1 := SideOpen(side0, matched0, m.reserve1, m.reserve0), SideOpen(side1, matched1, m.reserve0, m.reserve1);
      AnswerSurvives(f0, u0, o, [], rejected, f1, u1);
      assert [] + f0 == f0;
      assert (rejected + u0) + u1 == rejected + (u0 + u1);
    } else {
      OpenAnswered(m, side0, side1, rejected, o, side0, k);
    }
  }

  lemma Side1Answered(m: Market, side0: seq<Order>, side1: seq<Order>, rejected: seq<string>, k: nat)
    requires MarketOk(m) && DistinctSide(side1) && k < |side1|
    requires Silent(side0, side1[k].id) && side1[k].id !in rejected
    ensures var s := Settle(m, side0, side1, rejected); Answered(s.fills, s.unfilled, side1[k])
  {
    var o := side1[k];
    var (matched0, matched1) := Matched(m, side0, side1);
    if Trades(m, side0, side1) {
      SideAnswered(side1, matched1, m.reserve0, m.reserve1, k);
      SideMentions(side0, matched0, m.reserve1, m.reserve0, o.id);
      var f0, f1 := SideFills(side0, matched0, m.reserve1, m.reserve0), SideFills(side1, matched1, m.reserve0, m.reserve1);
      var u0, u1 := SideOpen(side0, matched0, m.reserve1, m.reserve0), SideOpen(side1, matched1, m.reserve0, m.reserve1);
      AnswerSurvives(f1, u1, o, f0, rejected + u0, [], []);
      assert (f0 + f1) + [] == f0 + f1;
      assert ((rejected + u0) + u1) + [] == rejected + (u0 + u1);
    } else {
      OpenAnswered(m, side0, side1, rejected, o, side1, k);
    }
  }

  lemma OpenAnswered(m: Market, side0: seq<Order>, side1: seq<Order>, rejected: seq<string>, o: Order, side: seq<Order>, k: nat)
    requires MarketOk(m) && !Trades(m, side0, side1)
    requires k < |side| && side[k] == o && (side == side0 || side == side1)
    ensures var s := Settle(m, side0, side1, rejected); Answered(s.fills, s.unfilled, o)
  {
    IdsOfIn(side, o.id);
    var open := rejected + AllOpen(m, side0, side1);
    assert o.id in open;
    SortHasAll(open);
  }

  lemma SortHasAll(open: seq<string>)
    ensures forall id :: id in Sort(TextLeq, open) <==> id in open
  {
    TextLeqIsOrder();
    SortCorrect(TextLeq, open);
    SameElements(Sort(TextLeq, open), open);
  }

  lemma RejectedAnswered(m: Market, side0: seq<Order>, side1: seq<Order>, rejected: seq<string>, o: Order)
    requires MarketOk(m) && Silent(side0, o.id) && Silent(side1, o.id) && o.id in rejected
    ensures var s := Settle(m, side0, side1, rejected); Answered(s.fills, s.unfilled, o)
  {
    var (matched0, matched1) := Matched(m, side0, side1);
    SortHasAll(rejected + AllOpen(m, side0, side1));
    SideMentions(side0, matched0, m.reserve1, m.reserve0, o.id);
    SideMentions(side1, matched1, m.reserve0, m.reserve1, o.id);
    ByIdIsOrder();
    SortCorrect(FillById, AllFills(m, side0, side1));
    SameElements(Sort(FillById, AllFills(m, side0, side1)), AllFills(m, side0, side1));
  }

  // ------------------------------------------------ payouts of a settlement

  ghost predicate AllLive(e: Rules, m: Market, side: seq<Order>) {
    forall o :: o in side ==> Live(e, m, o)
  }

  lemma {:induction false} ClassifiedLive(e: Rules, m: Market, orders: seq<Order>)
    requires MarketOk(m)
    ensures AllLive(e, m, Classify(e, m, orders).0.side0) && AllLive(e, m, Classify(e, m, orders).0.side1)
    decreases |orders|
  {
    if orders != [] {
      ClassifiedLive(e, m, orders[..|orders| - 1]);
    }
  }

  lemma SortedPositive(e: Rules, m: Market, side: seq<Order>)
    requires AllLive(e, m, side)
    ensures PositiveSide(Sort(ById, side))
  {
    ByIdIsOrder();
    SortCorrect(ById, side);
    SameElements(Sort(ById, side), side);
    var s := Sort(ById, side);
    forall i | 0 <= i < |s| ensures AmountIn(s[i]) > 0 && MinOut(s[i]) >= 0 {
      assert s[i] in side;
    }
  }

  lemma TradingSides(m: Market, side0: seq<Order>, side1: seq<Order>)
    requires MarketOk(m) && Trades(m, side0, side1)
    ensures side0 != [] && side1 != []
  {
  }

  /** Every settlement, whatever the orders: its fills are those of the two sides,
      each side is allotted exactly its matched amount, and no side is paid more
      than the other's matched amount. */
  lemma SettlementPayouts(e: Rules, m: Market, orders: seq<Order>)
    requires MarketOk(m)
    ensures var s := Clear(e, m, orders).value;
            var sides := Classify(e, m, orders).0;
            var side0, side1 := Sort(ById, sides.side0), Sort(ById, sides.side1);
            if !Trades(m, side0, side1) then s.fills == []
            else
              var f0 := SideFills(side0, s.matched0, m.reserve1, m.reserve0);
              var f1 := SideFills(side1, s.matched1, m.reserve0, m.reserve1);
              && multiset(s.fills) == multiset(f0 + f1)
              && Sums.SumSeq(Allotted(side0, s.matched0)) == s.matched0 <= TotalIn(side0)
              && Sums.SumSeq(Allotted(side1, s.matched1)) == s.matched1 <= TotalIn(side1)
              && PaidOut(f0) <= s.matched1 && PaidOut(f1) <= s.matched0
  {
    var sides := Classify(e, m, orders).0;
    var side0, side1 := Sort(ById, sides.side0), Sort(ById, sides.side1);
    ClassifiedLive(e, m, orders);
    SortedPositive(e, m, sides.side0);
    SortedPositive(e, m, sides.side1);
    ByIdIsOrder();
    SortCorrect(FillById, AllFills(m, side0, side1));
    if Trades(m, side0, side1) {
      TradingSides(m, side0, side1);
      PayoutsFitMatched(m, side0, side1);
      SideAllotments(side0, Matched(m, side0, side1).0);
      SideAllotments(side1, Matched(m, side0, side1).1);
    }
  }
}
