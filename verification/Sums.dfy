/** Sums over finite maps and sequences.  The order in which a map is visited is
    never fixed, so every fact below holds for any iteration order. */
module Sums {

  /** The sum of all values of m. */
  ghost function Total<K>(m: map<K, int>): int
    decreases |m|
  {
    if m == map[] then 0
    else
      var k :| k in m;
      m[k] + Total(m - {k})
  }

  /** Any key may be taken out first. */
  lemma {:induction false} TotalPick<K>(m: map<K, int>, k: K)
    requires k in m
    ensures Total(m) == m[k] + Total(m - {k})
    decreases |m|
  {
    var j :| j in m && Total(m) == m[j] + Total(m - {j});
    if j != k {
      TotalPick(m - {j}, k);
      TotalPick(m - {k}, j);
      assert (m - {j}) - {k} == (m - {k}) - {j};
    }
  }

  function Lookup<K>(m: map<K, int>, k: K): int {
    if k in m then m[k] else 0
  }

  lemma TotalUpdate<K>(m: map<K, int>, k: K, v: int)
    ensures Total(m[k := v]) == Total(m) - Lookup(m, k) + v
  {
    TotalPick(m[k := v], k);
    assert m[k := v] - {k} == m - {k};
    if k in m {
      TotalPick(m, k);
    } else {
      assert m - {k} == m;
    }
  }

  /** One key more taken from those set aside. */
  lemma TotalStep<K>(m: map<K, int>, todo: set<K>, k: K)
    requires k in todo && todo <= m.Keys
    ensures Total(m - (todo - {k})) == Total(m - todo) + m[k]
  {
    var done := m - (todo - {k});
    assert done - {k} == m - todo;
    TotalPick(done, k);
  }

  lemma {:induction false} TotalNonNegative<K>(m: map<K, int>)
    requires forall k :: k in m ==> 0 <= m[k]
    ensures 0 <= Total(m)
    ensures forall k :: k in m ==> m[k] <= Total(m)
    decreases |m|
  {
    if m != map[] {
      forall k | k in m ensures m[k] <= Total(m) && 0 <= Total(m) {
        TotalPick(m, k);
        TotalNonNegative(m - {k});
      }
      var k :| k in m;
      assert m[k] <= Total(m);
    }
  }

  ghost predicate NonNegative<K>(m: map<K, int>) {
    forall k :: k in m ==> 0 <= m[k]
  }

  lemma {:induction false} AllZero<K>(m: map<K, int>)
    requires forall k :: k in m ==> m[k] == 0
    ensures Total(m) == 0
    decreases |m|
  {
    if m != map[] {
      var k :| k in m;
      TotalPick(m, k);
      AllZero(m - {k});
    }
  }

  /** Sums add up key by key. */
  lemma {:induction false} TotalSplit<K>(a: map<K, int>, b: map<K, int>, c: map<K, int>)
    requires a.Keys == b.Keys == c.Keys
    requires forall k :: k in a ==> c[k] == a[k] + b[k]
    ensures Total(c) == Total(a) + Total(b)
    decreases |a|
  {
    if a != map[] {
      var k :| k in a;
      TotalPick(a, k);
      TotalPick(b, k);
      TotalPick(c, k);
      TotalSplit(a - {k}, b - {k}, c - {k});
    } else {
      assert b == map[] && c == map[];
    }
  }

  function SumSeq(s: seq<int>): int {
    if s == [] then 0 else s[0] + SumSeq(s[1..])
  }

  lemma {:induction false} SumSeqConcat(a: seq<int>, b: seq<int>)
    ensures SumSeq(a + b) == SumSeq(a) + SumSeq(b)
  {
    if a == [] {
      assert a + b == b;
    } else {
      SumSeqConcat(a[1..], b);
      assert (a + b)[1..] == a[1..] + b;
    }
  }

  lemma {:induction false} SumSeqUpdate(s: seq<int>, i: nat, v: int)
    requires i < |s|
    ensures SumSeq(s[i := v]) == SumSeq(s) - s[i] + v
  {
    SumSeqConcat(s[..i], s[i..]);
    SumSeqConcat(s[..i], [v] + s[i + 1..]);
    assert s[..i] + s[i..] == s;
    assert s[i := v] == s[..i] + ([v] + s[i + 1..]);
    assert ([v] + s[i + 1..])[1..] == s[i..][1..];
  }

  lemma SumSeqRemoveAt(s: seq<int>, i: nat)
    requires i < |s|
    ensures SumSeq(s) == s[i] + SumSeq(s[..i] + s[i + 1..])
  {
    SumSeqConcat(s[..i], s[i..]);
    SumSeqConcat(s[..i], s[i + 1..]);
    assert s[..i] + s[i..] == s;
    assert s[i..][1..] == s[i + 1..];
  }

  lemma RemoveAtMultiset<T>(s: seq<T>, i: nat)
    requires i < |s|
    ensures multiset(s[..i] + s[i + 1..]) == multiset(s) - multiset{s[i]}
  {
    assert s == s[..i] + [s[i]] + s[i + 1..];
  }

  lemma TailMultiset<T>(s: seq<T>)
    requires s != []
    ensures multiset(s[1..]) == multiset(s) - multiset{s[0]}
  {
    assert s == [s[0]] + s[1..];
  }

  // ------------------------------------------------------- pro-rata shares

  /** Every weight's floored share of the amount. */
  ghost function Shares<K>(weights: map<K, int>, amount: int, total: int): map<K, int>
    requires 0 < total
  {
    map k | k in weights :: (amount * weights[k]) / total
  }

  /** What n floored shares pay out, and the amount they are shares of. */
  predicate NearShare(paid: int, exact: int, total: int, n: int) {
    total * paid <= exact <= total * paid + n * (total - 1)
  }

  lemma ShareStep(w: int, amount: int, total: int, sw: int, ss: int, n: nat)
    requires 0 < total && NearShare(ss, amount * sw, total, n)
    ensures NearShare((amount * w) / total + ss, amount * (w + sw), total, n + 1)
  {
    var share := (amount * w) / total;
    assert total * share <= amount * w <= total * share + (total - 1);
    assert total * (share + ss) == total * share + total * ss;
    assert amount * (w + sw) == amount * w + amount * sw;
    assert (n + 1) * (total - 1) == n * (total - 1) + (total - 1);
  }

  lemma SharesPick<K>(weights: map<K, int>, amount: int, total: int, k: K)
    requires 0 < total && k in weights
    ensures Total(Shares(weights, amount, total))
         == (amount * weights[k]) / total + Total(Shares(weights - {k}, amount, total))
  {
    TotalPick(Shares(weights, amount, total), k);
    assert Shares(weights, amount, total) - {k} == Shares(weights - {k}, amount, total);
  }

  lemma {:induction false} SharesBound<K>(weights: map<K, int>, amount: int, total: int)
    requires 0 < total
    ensures NearShare(Total(Shares(weights, amount, total)), amount * Total(weights), total, |weights|)
    decreases |weights|
  {
    if weights == map[] {
      assert NearShare(0, amount * 0, total, 0);
    } else {
      var k :| k in weights;
      var rest := weights - {k};
      SharesBound(rest, amount, total);
      TotalPick(weights, k);
      SharesPick(weights, amount, total, k);
      ShareStep(weights[k], amount, total, Total(rest), Total(Shares(rest, amount, total)), |rest|);
    }
  }

  /** Shares against the exact sum of the weights lose fewer units than there are weights. */
  lemma SharesOfWhole<K>(weights: map<K, int>, amount: int)
    requires 0 < Total(weights)
    ensures var paid := Total(Shares(weights, amount, Total(weights)));
            paid <= amount < paid + |weights|
  {
    var total := Total(weights);
    var paid := Total(Shares(weights, amount, total));
    SharesBound(weights, amount, total);
    assert |weights| > 0;
    Cancel(total, paid, amount, |weights|);
  }

  lemma MulMonotone(c: int, a: int, b: int)
    requires 0 <= c && a <= b
    ensures c * a <= c * b
  {
  }

  lemma Commute(a: int, b: int)
    ensures a * b == b * a
  {
  }

  lemma CancelLeq(c: int, a: int, b: int)
    requires 0 < c && c * a <= c * b
    ensures a <= b
  {
  }

  lemma CancelLt(c: int, a: int, b: int)
    requires 0 < c && c * a < c * b
    ensures a < b
  {
  }

  lemma CancelReal(c: real, a: real, b: real)
    requires 0.0 < c
    ensures a * c <= b * c ==> a <= b
    ensures a * c < b * c ==> a < b
  {
  }

  lemma FloorAtLeast(v: int, n: int, d: int)
    requires d > 0 && d * v <= n
    ensures v <= n / d
  {
    assert n < d * (n / d + 1);
    CancelLt(d, v, n / d + 1);
  }

  lemma Cancel(total: int, paid: int, amount: int, n: nat)
    requires 0 < total && total * paid <= amount * total <= total * paid + n * (total - 1)
    requires n > 0
    ensures paid <= amount < paid + n
  {
    CancelLeq(total, paid, amount);
    assert n * (total - 1) == total * n - n;
    assert total * (paid + n) == total * paid + total * n;
    CancelLt(total, amount, paid + n);
  }
}
