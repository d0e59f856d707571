/** Equalising registered liquidity across pools and draining it. */
module PoolRebalance {
  import opened Basics
  import opened Sums
  import opened Sorting

  type Pools = map<Address, int>

  // ------------------------------------------------------------ two pointers

  ghost predicate Ascending(s: seq<int>) {
    forall i, j :: 0 <= i < j < |s| ==> s[i] <= s[j]
  }

  /** x lies between its original value and the target. */
  ghost predicate Towards(x: int, original: int, target: int) {
    if original <= target then original <= x <= target else target <= x <= original
  }

  /** Left of i nothing is below the target, right of j everything is on it, and
      surplus is left behind only when nothing in between is short. */
  ghost predicate Levelling(b: seq<int>, a: seq<int>, target: int, i: int, j: int) {
    && |b| == |a| && 0 <= i && j < |b|
    && (forall k :: 0 <= k < i && k < |b| ==> b[k] >= target)
    && (forall k :: 0 <= j < k < |b| ==> b[k] == target)
    && (forall k :: i <= k <= j ==> Towards(b[k], a[k], target))
    && ((forall k :: 0 <= k < i && k < |b| ==> b[k] == target) || (forall k :: i <= k <= j ==> a[k] >= target))
  }

  lemma {:induction false} SumAtMost(b: seq<int>, target: int)
    requires forall k :: 0 <= k < |b| ==> b[k] <= target
    ensures SumSeq(b) <= |b| * target
    ensures (exists k :: 0 <= k < |b| && b[k] < target) ==> SumSeq(b) < |b| * target
  {
    if b != [] {
      assert |b| * target == target + (|b| - 1) * target;
      SumAtMost(b[1..], target);
      if k :| 0 <= k < |b| && b[k] < target {
        if k > 0 {
          assert b[1..][k - 1] < target;
        }
      }
    }
  }

  /** Values that are all at least the target share the surplus. */
  lemma {:induction false} SurplusBound(b: seq<int>, target: int, k: nat)
    requires k < |b| && forall m :: 0 <= m < |b| ==> b[m] >= target
    ensures b[k] <= target + (SumSeq(b) - |b| * target)
  {
    SumSeqRemoveAt(b, k);
    var rest := b[..k] + b[k + 1..];
    forall m | 0 <= m < |rest| ensures rest[m] >= target {
      assert rest[m] == b[if m < k then m else m + 1];
    }
    AtLeast(rest, target);
    OneLess(|b|, target);
  }

  lemma OneLess(n: int, target: int)
    ensures (n - 1) * target == n * target - target
  {
  }

  lemma {:induction false} AtLeast(b: seq<int>, target: int)
    requires forall m :: 0 <= m < |b| ==> b[m] >= target
    ensures SumSeq(b) >= |b| * target
  {
    if b != [] {
      assert |b| * target == target + (|b| - 1) * target;
      AtLeast(b[1..], target);
    }
  }

  /** The right end is never short of the target. */
  lemma RightEndOnTarget(b: seq<int>, a: seq<int>, target: int, i: int, j: int)
    requires Ascending(a) && Levelling(b, a, target, i, j) && 0 <= i < j
    requires SumSeq(b) >= |b| * target && b[i] < target && b[j] <= target
    ensures b[j] == target
  {
    if b[j] < target {
      forall k | 0 <= k < |b| ensures b[k] <= target {
        if i <= k <= j {
          assert a[k] <= a[j];
        }
      }
      SumAtMost(b, target);
      assert false;
    }
  }

  lemma LeftPasses(b: seq<int>, a: seq<int>, target: int, i: int, j: int)
    requires Ascending(a) && Levelling(b, a, target, i, j) && 0 <= i < j && b[i] >= target
    ensures Levelling(b, a, target, i + 1, j)
  {
    if b[i] > target {
      forall k | i + 1 <= k <= j ensures a[k] >= target {
        assert a[i] <= a[k];
      }
    }
  }

  /** When the pointers meet, nothing is below the target. */
  lemma LevelledWhenMet(b: seq<int>, a: seq<int>, target: int, i: int, j: int)
    requires Ascending(a) && Levelling(b, a, target, i, j) && 0 <= j <= i
    requires SumSeq(b) >= |b| * target
    ensures forall k :: 0 <= k < |b| ==> b[k] >= target
  {
    if i == j && b[i] < target {
      assert Towards(b[i], a[i], target);
      SumAtMost(b, target);
      assert false;
    }
  }

  lemma MoveSum(b: seq<int>, i: nat, j: nat, move: int)
    requires i < j < |b|
    ensures SumSeq(b[i := b[i] + move][j := b[j] - move]) == SumSeq(b)
  {
    SumSeqUpdate(b, i, b[i] + move);
    SumSeqUpdate(b[i := b[i] + move], j, b[j] - move);
  }

  ghost predicate AllTowards(b: seq<int>, a: seq<int>, target: int) {
    |b| == |a| && forall k :: 0 <= k < |b| ==> Towards(b[k], a[k], target)
  }

  /** Moving the smaller of need and excess overshoots at neither end. */
  lemma MoveKeeps(b: seq<int>, a: seq<int>, target: int, i: int, j: int, move: int)
    requires Levelling(b, a, target, i, j) && AllTowards(b, a, target) && 0 <= i < j
    requires 0 <= move <= target - b[i] && move <= b[j] - target
    ensures var c := b[i := b[i] + move][j := b[j] - move];
            Levelling(c, a, target, i, j) && AllTowards(c, a, target)
  {
  }

  /** The two-pointer loop on ascending balances whose sum covers the target
      everywhere: the sum is kept and nobody ends below the target. */
  method Level(a: seq<int>, target: int) returns (b: seq<int>)
    requires a != [] && Ascending(a) && SumSeq(a) >= |a| * target
    ensures |b| == |a| && SumSeq(b) == SumSeq(a)
    ensures forall k :: 0 <= k < |b| ==> target <= b[k] <= target + (SumSeq(a) - |a| * target)
    ensures AllTowards(b, a, target)
  {
    b := a;
    var i, j := 0, |a| - 1;
    while i < j
      invariant 0 <= i <= j < |b| == |a|
      invariant Levelling(b, a, target, i, j)
      invariant AllTowards(b, a, target)
      invariant SumSeq(b) == SumSeq(a)
      decreases j - i, if b[i] < target && b[j] > target then 1 else 0
    {
      if b[i] >= target {
        LeftPasses(b, a, target, i, j);
        i := i + 1;
        continue;
      }
      if b[j] <= target {
        RightEndOnTarget(b, a, target, i, j);
        j := j - 1;
        continue;
      }
      var need, excess := target - b[i], b[j] - target;
      var move := if excess < need then excess else need;
      MoveSum(b, i, j, move);
      MoveKeeps(b, a, target, i, j, move);
      b := b[i := b[i] + move][j := b[j] - move];
    }
    LevelledWhenMet(b, a, target, i, j);
    forall k | 0 <= k < |b| ensures b[k] <= target + (SumSeq(a) - |a| * target) {
      SurplusBound(b, target, k);
    }
  }

  // --------------------------------------------------- maps as address lists

  function Values(pools: Pools, addresses: seq<Address>): seq<int> {
    seq(|addresses|, k requires 0 <= k < |addresses| => Lookup(pools, addresses[k]))
  }

  ghost predicate Lists(addresses: seq<Address>, keys: set<Address>) {
    Distinct(addresses) && forall a :: a in addresses <==> a in keys
  }

  lemma TailLists(addresses: seq<Address>, keys: set<Address>)
    requires Lists(addresses, keys) && addresses != []
    ensures addresses[0] in keys && Lists(addresses[1..], keys - {addresses[0]})
  {
    var head, tail := addresses[0], addresses[1..];
    assert head in addresses;
    forall a ensures a in tail <==> a in keys - {head} {
      assert a in addresses <==> a == head || a in tail;
    }
  }

  lemma TailValues(pools: Pools, addresses: seq<Address>)
    requires Lists(addresses, pools.Keys) && addresses != []
    ensures Values(pools, addresses)[1..] == Values(pools - {addresses[0]}, addresses[1..])
  {
    var head, tail := addresses[0], addresses[1..];
    forall k | 0 <= k < |tail| ensures Lookup(pools, tail[k]) == Lookup(pools - {head}, tail[k]) {
      assert tail[k] == addresses[k + 1] && tail[k] in addresses;
    }
  }

  lemma {:induction false} ValuesTotal(pools: Pools, addresses: seq<Address>)
    requires Lists(addresses, pools.Keys)
    ensures SumSeq(Values(pools, addresses)) == Total(pools) && |addresses| == |pools|
    decreases |addresses|
  {
    if addresses == [] {
      assert pools == map[];
    } else {
      var head := addresses[0];
      TailLists(addresses, pools.Keys);
      TailValues(pools, addresses);
      TotalPick(pools, head);
      assert (pools - {head}).Keys == pools.Keys - {head};
      ValuesTotal(pools - {head}, addresses[1..]);
    }
  }

  function Poorer(pools: Pools): (Address, Address) -> bool {
    (a: Address, b: Address) => Lookup(pools, a) <= Lookup(pools, b)
  }

  lemma SortedLists(pools: Pools, addresses: seq<Address>)
    requires Lists(addresses, pools.Keys)
    ensures Lists(Sort(Poorer(pools), addresses), pools.Keys)
    ensures Ascending(Values(pools, Sort(Poorer(pools), addresses)))
  {
    var s := Sort(Poorer(pools), addresses);
    SortCorrect(Poorer(pools), addresses);
    SameElements(s, addresses);
    DistinctPermutation(addresses, s);
    forall i, j | 0 <= i < j < |s| ensures Lookup(pools, s[i]) <= Lookup(pools, s[j]) {
      assert Poorer(pools)(s[i], s[j]);
    }
  }

  /** Every pool of n holding between the floor of the average and n - 1 more. */
  ghost predicate Even(pools: Pools, total: int) {
    pools != map[] && forall a :: a in pools ==> total / |pools| <= pools[a] <= total / |pools| + |pools| - 1
  }

  /** Fewer coins than pools are even however they lie. */
  lemma FewIsEven(pools: Pools)
    requires NonNegative(pools) && pools != map[] && Total(pools) < |pools|
    ensures Even(pools, Total(pools))
  {
    TotalNonNegative(pools);
    assert Total(pools) / |pools| == 0;
  }
}
