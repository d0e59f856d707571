/** The registered pool liquidity of the chain, rebalanced and drained in place. */
module PoolRouterObject {
  import opened Basics
  import opened Sums
  import opened Sorting
  import opened PoolRebalance

  class PoolRouter {
    var poolLiquidity: Pools
    var unallocatedLiquidity: int

    constructor ()
      ensures poolLiquidity == map[] && unallocatedLiquidity == 0
    {
      poolLiquidity, unallocatedLiquidity := map[], 0;
    }

    ghost function Whole(): int
      reads this
    {
      Total(poolLiquidity) + unallocatedLiquidity
    }

    /** A pool holding at least as much as any other, whatever the map order. */
    method Richest() returns (richest: Address)
      requires poolLiquidity != map[]
      ensures richest in poolLiquidity && IsRichest(poolLiquidity, richest)
    {
      var todo := poolLiquidity.Keys;
      richest :| richest in todo;
      todo := todo - {richest};
      while todo != {}
        invariant todo <= poolLiquidity.Keys && richest in poolLiquidity
        invariant forall a :: a in poolLiquidity && a !in todo ==> poolLiquidity[a] <= poolLiquidity[richest]
      {
        var a :| a in todo;
        todo := todo - {a};
        if poolLiquidity[a] > poolLiquidity[richest] {
          richest := a;
        }
      }
    }

    /** One of the richest pools has amount more, the others what they had. */
    static ghost predicate Filled(before: Pools, after: Pools, amount: int) {
      exists r :: r in before && IsRichest(before, r) && after == before[r := before[r] + amount]
    }

    static ghost predicate IsRichest(pools: Pools, r: Address)
      requires r in pools
    {
      forall a :: a in pools ==> pools[a] <= pools[r]
    }

    static lemma FillRichest(pools: Pools, r: Address, amount: int)
      requires r in pools && IsRichest(pools, r) && 0 <= amount && NonNegative(pools)
      ensures var after := pools[r := pools[r] + amount];
              Filled(pools, after, amount) && NonNegative(after) && Total(after) == Total(pools) + amount
    {
      TotalUpdate(pools, r, pools[r] + amount);
    }

    /** Unallocated liquidity goes to the richest pool. */
    method Allocate()
      requires poolLiquidity != map[] && NonNegative(poolLiquidity)
      modifies this
      ensures poolLiquidity.Keys == old(poolLiquidity.Keys) && NonNegative(poolLiquidity)
      ensures Whole() == old(Whole())
      ensures unallocatedLiquidity == if old(unallocatedLiquidity) > 0 then 0 else old(unallocatedLiquidity)
      ensures if old(unallocatedLiquidity) > 0 then Filled(old(poolLiquidity), poolLiquidity, old(unallocatedLiquidity))
              else poolLiquidity == old(poolLiquidity)
    {
      hide Filled, IsRichest, Total, NonNegative;
      if unallocatedLiquidity > 0 {
        var richest := Richest();
        var filled := poolLiquidity[richest] + unallocatedLiquidity;
        FillRichest(poolLiquidity, richest, unallocatedLiquidity);
        poolLiquidity, unallocatedLiquidity := poolLiquidity[richest := filled], 0;
      }
    }

    method Addresses() returns (addresses: seq<Address>, total: int)
      ensures Lists(addresses, poolLiquidity.Keys) && total == Total(poolLiquidity)
    {
      addresses, total := [], 0;
      var todo := poolLiquidity.Keys;
      assert poolLiquidity - todo == map[];
      while todo != {}
        invariant todo <= poolLiquidity.Keys
        invariant Lists(addresses, poolLiquidity.Keys - todo)
        invariant total == Total(poolLiquidity - todo)
      {
        var a :| a in todo;
        TotalStep(poolLiquidity, todo, a);
        addresses, total := addresses + [a], total + poolLiquidity[a];
        todo := todo - {a};
      }
      assert poolLiquidity - todo == poolLiquidity;
    }

    method WriteBack(addresses: seq<Address>, balances: seq<int>)
      requires |addresses| == |balances| && Lists(addresses, poolLiquidity.Keys)
      modifies this`poolLiquidity
      ensures poolLiquidity.Keys == old(poolLiquidity.Keys)
      ensures Values(poolLiquidity, addresses) == balances
    {
      for k := 0 to |addresses|
        invariant poolLiquidity.Keys == old(poolLiquidity.Keys)
        invariant forall m :: 0 <= m < k ==> Lookup(poolLiquidity, addresses[m]) == balances[m]
      {
        assert addresses[k] in addresses;
        poolLiquidity := poolLiquidity[addresses[k] := balances[k]];
      }
    }

    /** Rebalancing conserves pools plus unallocated liquidity and leaves each of
        the n pools between the floor of the average and n - 1 above it. */
    method RebalancePoolsEqual()
      requires NonNegative(poolLiquidity)
      modifies this
      ensures poolLiquidity.Keys == old(poolLiquidity.Keys) && NonNegative(poolLiquidity)
      ensures Whole() == old(Whole())
      ensures old(poolLiquidity) == map[] ==> poolLiquidity == map[] && unallocatedLiquidity == old(unallocatedLiquidity)
      ensures old(poolLiquidity) != map[] ==> Even(poolLiquidity, Total(poolLiquidity))
      ensures old(poolLiquidity) != map[] ==>
                unallocatedLiquidity == if old(unallocatedLiquidity) > 0 then 0 else old(unallocatedLiquidity)
    {
      hide Poorer;
      if poolLiquidity == map[] {
        return;
      }
      Allocate();
      var addresses, total := Addresses();
      ghost var n := |poolLiquidity|;
      SortedLists(poolLiquidity, addresses);
      addresses := Sort(Poorer(poolLiquidity), addresses);
      ValuesTotal(poolLiquidity, addresses);
      var target := total / |addresses|;
      if total == 0 || target == 0 {
        TotalNonNegative(poolLiquidity);
        SmallQuotient(total, |addresses|);
        FewIsEven(poolLiquidity);
        return;
      }
      TotalNonNegative(poolLiquidity);
      AverageBounds(total, |addresses|);
      var levelled := Level(Values(poolLiquidity, addresses), target);
      WriteBack(addresses, levelled);
      ValuesTotal(poolLiquidity, addresses);
      forall a | a in poolLiquidity ensures target <= poolLiquidity[a] <= target + n - 1 {
        var k :| 0 <= k < |addresses| && addresses[k] == a;
        assert Values(poolLiquidity, addresses)[k] == levelled[k];
      }
    }

    static lemma SmallQuotient(total: int, n: int)
      requires 0 <= total && 0 < n && (total == 0 || total / n == 0)
      ensures total < n
    {
    }

    static lemma AverageBounds(total: int, n: int)
      requires 0 <= total && 0 < n
      ensures 0 <= total / n && n * (total / n) <= total <= n * (total / n) + n - 1
    {
    }

    /** Pools only lose, and a pool that lost was no poorer than one that did not. */
    static ghost predicate Drained(before: Pools, after: Pools) {
      && before.Keys == after.Keys
      && (forall a :: a in before ==> 0 <= after[a] <= before[a])
      && (forall a, b :: a in before && b in before && after[a] < before[a] && after[b] == before[b] ==> before[b] <= before[a])
    }

    /** Every pool that lost something, but the one named, is empty. */
    static ghost predicate Emptied(before: Pools, after: Pools, but: Address)
      requires before.Keys == after.Keys
    {
      forall a :: a in before && after[a] < before[a] && a != but ==> after[a] == 0
    }

    static lemma DrainRichest(before: Pools, pools: Pools, richest: Address, left: int)
      requires Drained(before, pools) && Emptied(before, pools, richest) && richest in pools && 0 <= left <= pools[richest]
      requires IsRichest(pools, richest)
      ensures Drained(before, pools[richest := left]) && Emptied(before, pools[richest := left], richest)
      ensures Total(pools[richest := left]) == Total(pools) - (pools[richest] - left)
    {
      TotalUpdate(pools, richest, left);
    }

    /** Draining takes exactly the smaller of the amount and what there is, from
        the richest pools: no pool that lost something was poorer than one that
        did not, and all of them but one are left empty. */
    method ReducePoolLiquidity(amount: int)
      requires NonNegative(poolLiquidity)
      modifies this`poolLiquidity
      ensures Drained(old(poolLiquidity), poolLiquidity)
      ensures exists but :: Emptied(old(poolLiquidity), poolLiquidity, but)
      ensures Total(poolLiquidity) == old(Total(poolLiquidity)) - Taken(amount, old(Total(poolLiquidity)))
    {
      TotalNonNegative(poolLiquidity);
      ghost var last: Address := "";
      assert Emptied(poolLiquidity, poolLiquidity, last);
      if amount <= 0 || poolLiquidity == map[] {
        return;
      }
      var remaining := amount;
      ghost var before := poolLiquidity;
      while remaining > 0
        invariant poolLiquidity != map[] && Drained(before, poolLiquidity)
        invariant 0 <= remaining <= amount
        invariant Emptied(before, poolLiquidity, last)
        invariant remaining > 0 ==> forall a :: Emptied(before, poolLiquidity, a)
        invariant Total(poolLiquidity) == Total(before) - (amount - remaining)
      {
        var richest := Richest();
        var max := poolLiquidity[richest];
        if max == 0 {
          AllZero(poolLiquidity);
          break;
        }
        var left := if max <= remaining then 0 else max - remaining;
        DrainRichest(before, poolLiquidity, richest, left);
        poolLiquidity, last := poolLiquidity[richest := left], richest;
        remaining := if max <= remaining then remaining - max else 0;
      }
      TotalNonNegative(poolLiquidity);
    }

    /** A non-positive amount takes nothing. */
    static function Taken(amount: int, total: int): int {
      if amount <= 0 then 0 else if amount < total then amount else total
    }
  }
}
