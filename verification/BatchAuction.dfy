/** Uniform-price batch clearing as the loops that carry it out. */
module BatchAuction {
  import opened Basics
  import opened Sorting
  import opened BatchModel

  method Collect(e: Rules, m: Market, orders: seq<Order>)
    returns (side0: seq<Order>, side1: seq<Order>, rejected: seq<string>)
    requires MarketOk(m)
    ensures Sides(side0, side1, rejected) == Classify(e, m, orders).0
  {
    side0, side1, rejected := [], [], [];
    var seen: set<string> := {};
    for i := 0 to |orders|
      invariant (Sides(side0, side1, rejected), seen) == Classify(e, m, orders[..i])
    {
      assert orders[..i + 1][..i] == orders[..i];
      var order := Resolve(e, orders[i]);
      if order.id in seen || !Live(e, m, order) {
        rejected := rejected + [order.id];
      } else {
        seen := seen + {order.id};
        match Place(m, order) {
          case Sells0 => side0 := side0 + [order];
          case Sells1 => side1 := side1 + [order];
          case Rejected => rejected := rejected + [order.id];
        }
      }
    }
    assert orders[..|orders|] == orders;
  }

  method SumIn(side: seq<Order>) returns (total: int)
    ensures total == TotalIn(side)
  {
    total := 0;
    for i := 0 to |side|
      invariant total + TotalIn(side[i..]) == TotalIn(side)
    {
      total := total + AmountIn(side[i]);
      assert side[i..][1..] == side[i + 1..];
    }
  }

  /** One order's fill at the clearing price, refused below its pro-rata limit,
      which is rounded up. */
  method FillOrder(order: Order, fillIn: int, num: int, den: int) returns (fill: seq<Fill>, open: seq<string>)
    requires den > 0
    ensures fill == if FillOf(order, fillIn, num, den).Some? then [FillOf(order, fillIn, num, den).value] else []
    ensures open == if StaysOpen(order, fillIn, num, den) then [order.id] else []
  {
    if fillIn <= 0 || AmountIn(order) <= 0 {
      return [], [order.id];
    }
    var fillOut := fillIn * num / den;
    var minNumerator := MinOut(order) * fillIn;
    var minimumForFill := minNumerator / AmountIn(order);
    if minNumerator % AmountIn(order) > 0 {
      minimumForFill := minimumForFill + 1;
    }
    if fillOut < minimumForFill {
      return [], [order.id];
    }
    fill, open := [Fill(order.id, order.owner, fillIn, fillOut)], [];
    if fillIn < AmountIn(order) {
      open := [order.id];
    }
  }

  lemma SideStep(side: seq<Order>, allot: seq<int>, num: int, den: int, i: nat)
    requires |side| == |allot| && den > 0 && i < |side|
    ensures var f := FillOf(side[i], allot[i], num, den);
            FillsOf(side[i..], allot[i..], num, den)
            == (if f.Some? then [f.value] else []) + FillsOf(side[i + 1..], allot[i + 1..], num, den)
    ensures OpenOf(side[i..], allot[i..], num, den)
            == (if StaysOpen(side[i], allot[i], num, den) then [side[i].id] else [])
               + OpenOf(side[i + 1..], allot[i + 1..], num, den)
  {
    assert side[i..][1..] == side[i + 1..] && allot[i..][1..] == allot[i + 1..];
  }

  /** The share of order i out of what remains: the rest for the last order, a
      floored pro-rata share for the others. */
  method NextShare(side: seq<Order>, i: nat, remaining: int, matched: int, total: int) returns (fillIn: int, left: int)
    requires i < |side|
    ensures Allot(side[i..], remaining, matched, total) == [fillIn] + Allot(side[i + 1..], left, matched, total)
  {
    fillIn, left := 0, remaining;
    if i == |side| - 1 {
      fillIn := remaining;
    } else if total > 0 {
      fillIn := Share(matched, AmountIn(side[i]), total);
      left := remaining - fillIn;
    }
    assert side[i..][1..] == side[i + 1..];
  }

  /** The loop over one side: shares are handed out from what remains, the last
      order takes the rest, and each fill must meet its order's limit. */
  method FillSide(side: seq<Order>, matched: int, total: int, num: int, den: int)
    returns (fills: seq<Fill>, open: seq<string>)
    requires den > 0 && total == TotalIn(side)
    ensures fills == SideFills(side, matched, num, den) && open == SideOpen(side, matched, num, den)
  {
    fills, open := [], [];
    var remaining := matched;
    ghost var allot := Allotted(side, matched);
    for i := 0 to |side|
      invariant allot[i..] == Allot(side[i..], remaining, matched, total)
      invariant fills + FillsOf(side[i..], allot[i..], num, den) == SideFills(side, matched, num, den)
      invariant open + OpenOf(side[i..], allot[i..], num, den) == SideOpen(side, matched, num, den)
    {
      var fillIn, left := NextShare(side, i, remaining, matched, total);
      assert allot[i..][0] == fillIn && allot[i..][1..] == allot[i + 1..];
      remaining := left;
      SideStep(side, allot, num, den, i);
      var fill, more := FillOrder(side[i], fillIn, num, den);
      AppendStep(fills, fill, FillsOf(side[i + 1..], allot[i + 1..], num, den));
      AppendStep(open, more, OpenOf(side[i + 1..], allot[i + 1..], num, den));
      fills, open := fills + fill, open + more;
    }
  }

  lemma AppendStep<T>(a: seq<T>, b: seq<T>, c: seq<T>)
    ensures a + (b + c) == (a + b) + c
  {
  }

  method ClearUniformBatch(e: Rules, m: Market, orders: seq<Order>) returns (settlement: Option<Settlement>)
    ensures settlement == Clear(e, m, orders)
  {
    if !MarketOk(m) {
      return None;
    }
    var side0, side1, unfilled := Collect(e, m, orders);
    side0, side1 := Sort(ById, side0), Sort(ById, side1);
    var total0 := SumIn(side0);
    var total1 := SumIn(side1);
    var available := total1 * m.reserve0 / m.reserve1;
    var matched0 := total0;
    if available < matched0 {
      matched0 := available;
    }
    var matched1 := matched0 * m.reserve1 / m.reserve0;
    assert (matched0, matched1) == Matched(m, side0, side1);
    ghost var rejected := unfilled;
    var fills: seq<Fill> := [];
    if matched0 > 0 && matched1 > 0 {
      var fills0, open0 := FillSide(side0, matched0, total0, m.reserve1, m.reserve0);
      var fills1, open1 := FillSide(side1, matched1, total1, m.reserve0, m.reserve1);
      fills := fills0 + fills1;
      unfilled := unfilled + (open0 + open1);
    } else {
      unfilled := unfilled + (IdsOf(side0) + IdsOf(side1));
    }
    assert fills == AllFills(m, side0, side1) && unfilled == rejected + AllOpen(m, side0, side1);
    settlement := Some(Settlement(m.reserve1, m.reserve0, matched0, matched1, Sort(FillById, fills), Sort(TextLeq, unfilled)));
  }
}
