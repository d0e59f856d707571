/** The tick list of a concentrated-liquidity pool and what it says about the
    positions: crossing ticks from the left accumulates exactly the liquidity of
    the positions that cover a price. */
module TickLedger {
  import opened Sums
  import Sorting

  datatype Tick = Tick(price: int, net: int)

  datatype Position = Position(owner: string, lower: int, upper: int, liquidity: int, owed0: int, owed1: int)
  {
    predicate Covers(price: int) { liquidity > 0 && lower <= price < upper }
  }

  type Positions = map<string, Position>

  // ---------------------------------------------------------------- ticks

  predicate PriceLeq(a: Tick, b: Tick) { a.price <= b.price }

  ghost predicate StrictlySorted(ticks: seq<Tick>) {
    forall i, j :: 0 <= i < j < |ticks| ==> ticks[i].price < ticks[j].price
  }

  ghost predicate PositivePrices(ticks: seq<Tick>) {
    forall i :: 0 <= i < |ticks| ==> 0 < ticks[i].price
  }

  /** Liquidity reached by crossing, from below, every tick at or under x. */
  function NetUpTo(ticks: seq<Tick>, x: int): int {
    if ticks == [] then 0
    else (if ticks[0].price <= x then ticks[0].net else 0) + NetUpTo(ticks[1..], x)
  }

  /** The net value stored at price x, 0 when no tick is there. */
  function NetAt(ticks: seq<Tick>, x: int): int {
    NetUpTo(ticks, x) - NetUpTo(ticks, x - 1)
  }

  lemma {:induction false} NetUpToGap(ticks: seq<Tick>, lo: int, hi: int)
    requires lo <= hi
    requires forall i :: 0 <= i < |ticks| ==> !(lo < ticks[i].price <= hi)
    ensures NetUpTo(ticks, lo) == NetUpTo(ticks, hi)
  {
    if ticks != [] {
      assert forall i :: 0 <= i < |ticks[1..]| ==> ticks[1..][i] == ticks[i + 1];
      NetUpToGap(ticks[1..], lo, hi);
    }
  }

  lemma {:induction false} NetAtTick(ticks: seq<Tick>, i: nat)
    requires StrictlySorted(ticks) && i < |ticks|
    ensures NetAt(ticks, ticks[i].price) == ticks[i].net
  {
    var p := ticks[i].price;
    assert forall k :: 0 <= k < |ticks[1..]| ==> ticks[1..][k] == ticks[k + 1];
    if i == 0 {
      NetUpToGap(ticks[1..], p - 1, p);
    } else {
      NetAtTick(ticks[1..], i - 1);
    }
  }

  /** The sum of every net value. */
  function NetTotal(ticks: seq<Tick>): int {
    if ticks == [] then 0 else ticks[0].net + NetTotal(ticks[1..])
  }

  lemma {:induction false} NetUpToAll(ticks: seq<Tick>, x: int)
    requires forall i :: 0 <= i < |ticks| ==> ticks[i].price <= x
    ensures NetUpTo(ticks, x) == NetTotal(ticks)
  {
    if ticks != [] {
      assert forall k :: 0 <= k < |ticks[1..]| ==> ticks[1..][k] == ticks[k + 1];
      NetUpToAll(ticks[1..], x);
    }
  }

  function Find(ticks: seq<Tick>, price: int, from: nat): (i: nat)
    requires from <= |ticks|
    ensures from <= i <= |ticks|
    ensures i < |ticks| ==> ticks[i].price == price
    ensures forall k :: from <= k < i ==> ticks[k].price != price
    decreases |ticks| - from
  {
    if from == |ticks| || ticks[from].price == price then from else Find(ticks, price, from + 1)
  }

  /** addTick: adjust the tick at price, or append a new one and sort. */
  function AddTick(ticks: seq<Tick>, price: int, delta: int): seq<Tick> {
    var i := Find(ticks, price, 0);
    if i < |ticks| then ticks[i := Tick(price, ticks[i].net + delta)]
    else Sorting.Sort(PriceLeq, ticks + [Tick(price, delta)])
  }

  lemma {:induction false} InsertTick(ticks: seq<Tick>, t: Tick)
    requires StrictlySorted(ticks)
    requires forall i :: 0 <= i < |ticks| ==> ticks[i].price != t.price
    ensures StrictlySorted(Sorting.Insert(PriceLeq, t, ticks))
    ensures forall x :: NetUpTo(Sorting.Insert(PriceLeq, t, ticks), x)
                     == NetUpTo(ticks, x) + (if t.price <= x then t.net else 0)
    ensures forall u :: u in Sorting.Insert(PriceLeq, t, ticks) <==> u == t || u in ticks
  {
    if ticks == [] {
    } else if PriceLeq(t, ticks[0]) {
      assert ([t] + ticks)[1..] == ticks;
    } else {
      var rest := ticks[1..];
      InsertTick(rest, t);
      var tail := Sorting.Insert(PriceLeq, t, rest);
      var r := [ticks[0]] + tail;
      assert r[1..] == tail && ticks == [ticks[0]] + rest;
      forall k | 0 <= k < |tail| ensures ticks[0].price < tail[k].price {
        assert tail[k] in tail;
      }
    }
  }

  lemma PriceLeqIsOrder()
    ensures Sorting.TotalOrder(PriceLeq)
  {
  }

  lemma AppendAndSort(ticks: seq<Tick>, t: Tick)
    requires StrictlySorted(ticks)
    requires forall i :: 0 <= i < |ticks| ==> ticks[i].price != t.price
    ensures Sorting.Sort(PriceLeq, ticks + [t]) == Sorting.Insert(PriceLeq, t, ticks)
  {
    var a := Sorting.Insert(PriceLeq, t, ticks);
    PriceLeqIsOrder();
    InsertTick(ticks, t);
    Sorting.SortCorrect(PriceLeq, ticks + [t]);
    Sorting.InsertCorrect(PriceLeq, t, ticks);
    assert Sorting.Separates(PriceLeq, a) by {
      forall u, v | u in a && v in a && PriceLeq(u, v) && PriceLeq(v, u) ensures u == v {
        var i :| 0 <= i < |a| && a[i] == u;
        var j :| 0 <= j < |a| && a[j] == v;
        assert i == j;
      }
    }
    Sorting.SortedUnique(PriceLeq, a, Sorting.Sort(PriceLeq, ticks + [t]));
  }

  lemma {:induction false} NetUpToUpdate(ticks: seq<Tick>, i: nat, delta: int, x: int)
    requires i < |ticks|
    ensures NetUpTo(ticks[i := Tick(ticks[i].price, ticks[i].net + delta)], x)
         == NetUpTo(ticks, x) + (if ticks[i].price <= x then delta else 0)
  {
    var u := Tick(ticks[i].price, ticks[i].net + delta);
    if i == 0 {
      assert ticks[i := u][1..] == ticks[1..];
    } else {
      NetUpToUpdate(ticks[1..], i - 1, delta, x);
      assert ticks[i := u][1..] == ticks[1..][i - 1 := u];
    }
  }

  /** addTick keeps the list strictly sorted and shifts the accumulated
      liquidity by delta at and above the price. */
  lemma AddTickCorrect(ticks: seq<Tick>, price: int, delta: int)
    requires StrictlySorted(ticks)
    ensures StrictlySorted(AddTick(ticks, price, delta))
    ensures forall x :: NetUpTo(AddTick(ticks, price, delta), x)
                     == NetUpTo(ticks, x) + (if price <= x then delta else 0)
    ensures 0 < price && PositivePrices(ticks) ==> PositivePrices(AddTick(ticks, price, delta))
  {
    hide Sorting.Sort, NetUpTo;
    var i := Find(ticks, price, 0);
    if i < |ticks| {
      forall x ensures NetUpTo(AddTick(ticks, price, delta), x)
                    == NetUpTo(ticks, x) + (if price <= x then delta else 0) {
        NetUpToUpdate(ticks, i, delta, x);
      }
    } else {
      var t := Tick(price, delta);
      AppendAndSort(ticks, t);
      InsertTick(ticks, t);
      var r := AddTick(ticks, price, delta);
      if 0 < price && PositivePrices(ticks) {
        forall k | 0 <= k < |r| ensures 0 < r[k].price {
          assert r[k] in r;
        }
      }
    }
  }

  // ------------------------------------------------------------ next tick

  /** The first index at or after from whose price is above the given one. */
  function NextAbove(ticks: seq<Tick>, price: int, from: nat): (i: nat)
    requires from <= |ticks|
    ensures from <= i <= |ticks|
    ensures i < |ticks| ==> ticks[i].price > price
    ensures forall k :: from <= k < i ==> ticks[k].price <= price
    decreases |ticks| - from
  {
    if from == |ticks| || ticks[from].price > price then from else NextAbove(ticks, price, from + 1)
  }

  /** One more than the last index before upto whose price is below; 0 if none. */
  function NextBelow(ticks: seq<Tick>, price: int, upto: nat): (i: nat)
    requires upto <= |ticks|
    ensures i <= upto
    ensures i > 0 ==> ticks[i - 1].price < price
    ensures forall k :: i <= k < upto ==> ticks[k].price >= price
  {
    if upto == 0 || ticks[upto - 1].price < price then upto else NextBelow(ticks, price, upto - 1)
  }

  lemma UpwardGap(ticks: seq<Tick>, price: int, i: nat, x: int)
    requires StrictlySorted(ticks) && i == NextAbove(ticks, price, 0) && i < |ticks|
    requires price <= x < ticks[i].price
    ensures NetUpTo(ticks, x) == NetUpTo(ticks, price)
    ensures NetUpTo(ticks, ticks[i].price) == NetUpTo(ticks, price) + ticks[i].net
  {
    NetUpToGap(ticks, price, x);
    NetUpToGap(ticks, price, ticks[i].price - 1);
    NetAtTick(ticks, i);
  }

  lemma DownwardGap(ticks: seq<Tick>, price: int, i: nat, x: int)
    requires StrictlySorted(ticks) && i == NextBelow(ticks, price, |ticks|) && i > 0
    requires ticks[i - 1].price <= x < price
    ensures NetUpTo(ticks, x) == NetUpTo(ticks, price - 1)
    ensures NetUpTo(ticks, ticks[i - 1].price - 1) == NetUpTo(ticks, price - 1) - ticks[i - 1].net
  {
    NetUpToGap(ticks, x, price - 1);
    NetUpToGap(ticks, ticks[i - 1].price, price - 1);
    NetAtTick(ticks, i - 1);
  }

  // ------------------------------------------------------------ positions

  ghost function Contributions(positions: Positions, x: int): map<string, int> {
    map id | id in positions :: if positions[id].Covers(x) then positions[id].liquidity else 0
  }

  /** The liquidity of the positions with lower <= x < upper. */
  ghost function ActiveAt(positions: Positions, x: int): int {
    Total(Contributions(positions, x))
  }

  ghost predicate PositionsOk(positions: Positions) {
    forall id :: id in positions ==> positions[id].lower < positions[id].upper && 0 <= positions[id].liquidity
  }

  /** The tick list and the positions tell the same story at every price. */
  ghost predicate Backed(ticks: seq<Tick>, positions: Positions) {
    && StrictlySorted(ticks)
    && PositionsOk(positions)
    && forall x :: NetUpTo(ticks, x) == ActiveAt(positions, x)
  }

  ghost function Share(p: Position, x: int): int { if p.Covers(x) then p.liquidity else 0 }

  lemma ActiveAtUpdate(positions: Positions, id: string, p: Position, x: int)
    ensures ActiveAt(positions[id := p], x) == ActiveAt(positions, x) + Share(p, x)
            - (if id in positions then Share(positions[id], x) else 0)
  {
    assert Contributions(positions[id := p], x) == Contributions(positions, x)[id := Share(p, x)];
    TotalUpdate(Contributions(positions, x), id, Share(p, x));
  }

  lemma ActiveAtRemove(positions: Positions, id: string, x: int)
    requires id in positions
    ensures ActiveAt(positions - {id}, x) == ActiveAt(positions, x) - Share(positions[id], x)
  {
    assert Contributions(positions - {id}, x) == Contributions(positions, x) - {id};
    TotalPick(Contributions(positions, x), id);
  }

  predicate SameRange(a: Position, b: Position) {
    a.lower == b.lower && a.upper == b.upper && a.liquidity == b.liquidity
  }

  /** Rewriting owners or owed fees does not move liquidity. */
  lemma SameContributions(a: Positions, b: Positions, x: int)
    requires a.Keys == b.Keys
    requires forall id :: id in a ==> SameRange(a[id], b[id])
    ensures ActiveAt(a, x) == ActiveAt(b, x)
  {
    assert Contributions(a, x) == Contributions(b, x);
  }

  /** A covering position is counted in full. */
  lemma CoveredLiquidity(positions: Positions, id: string, x: int)
    requires PositionsOk(positions) && id in positions && positions[id].Covers(x)
    ensures positions[id].liquidity <= ActiveAt(positions, x)
  {
    TotalNonNegative(Contributions(positions, x));
    assert Contributions(positions, x)[id] == positions[id].liquidity;
  }

  /** In a backed pool the net values sum to zero. */
  lemma BackedNetsSumToZero(ticks: seq<Tick>, positions: Positions)
    requires Backed(ticks, positions)
    ensures NetTotal(ticks) == 0
  {
    var x := HighestPrice(ticks, positions);
    NetUpToAll(ticks, x);
    AllZero(Contributions(positions, x));
  }

  lemma {:induction false} HighestPrice(ticks: seq<Tick>, positions: Positions) returns (x: int)
    ensures forall i :: 0 <= i < |ticks| ==> ticks[i].price <= x
    ensures forall id :: id in positions ==> positions[id].upper <= x
    decreases |ticks|, |positions|
  {
    if ticks != [] {
      x := HighestPrice(ticks[1..], positions);
      x := if x < ticks[0].price then ticks[0].price else x;
      assert forall i :: 1 <= i < |ticks| ==> ticks[i] == ticks[1..][i - 1];
    } else if positions != map[] {
      var id :| id in positions;
      var rest := positions - {id};
      x := HighestPrice(ticks, rest);
      x := if x < positions[id].upper then positions[id].upper else x;
      forall k | k in positions ensures positions[k].upper <= x {
        assert k == id || (k in rest && rest[k] == positions[k]);
      }
    } else {
      x := 0;
    }
  }
}
