/** Adding up the values of a map by where each key is sent. */
module Grouping {
  import opened Sums

  function AddTo<L>(g: map<L, int>, l: L, v: int): map<L, int> {
    g[l := Lookup(g, l) + v]
  }

  /** Every value is added at its key's target. */
  ghost function Group<K, L>(dest: K -> L, m: map<K, int>): map<L, int>
    decreases |m|
  {
    if m == map[] then map[]
    else
      var k :| k in m;
      AddTo(Group(dest, m - {k}), dest(k), m[k])
  }

  lemma AddToCommutes<L>(g: map<L, int>, l1: L, v1: int, l2: L, v2: int)
    ensures AddTo(AddTo(g, l1, v1), l2, v2) == AddTo(AddTo(g, l2, v2), l1, v1)
  {
  }

  /** Any key may be taken out first. */
  lemma {:induction false} GroupPick<K, L>(dest: K -> L, m: map<K, int>, k: K)
    requires k in m
    ensures Group(dest, m) == AddTo(Group(dest, m - {k}), dest(k), m[k])
    decreases |m|
  {
    var j :| j in m && Group(dest, m) == AddTo(Group(dest, m - {j}), dest(j), m[j]);
    if j != k {
      GroupPick(dest, m - {j}, k);
      GroupPick(dest, m - {k}, j);
      assert (m - {j}) - {k} == (m - {k}) - {j};
      AddToCommutes(Group(dest, (m - {j}) - {k}), dest(k), m[k], dest(j), m[j]);
    }
  }

  /** The keys sent to a target, with their values. */
  ghost function SentTo<K, L>(dest: K -> L, m: map<K, int>, l: L): map<K, int> {
    map k | k in m && dest(k) == l :: m[k]
  }

  lemma SentPick<K, L>(dest: K -> L, m: map<K, int>, k: K, l: L)
    requires k in m
    ensures Total(SentTo(dest, m, l)) == Total(SentTo(dest, m - {k}, l)) + if dest(k) == l then m[k] else 0
  {
    if dest(k) == l {
      TotalPick(SentTo(dest, m, l), k);
      assert SentTo(dest, m, l) - {k} == SentTo(dest, m - {k}, l);
    } else {
      assert SentTo(dest, m, l) == SentTo(dest, m - {k}, l);
    }
  }

  /** What a target holds is the sum of the values sent to it, and it is listed
      exactly when some key is sent there. */
  lemma {:induction false} GroupAt<K, L>(dest: K -> L, m: map<K, int>, l: L)
    ensures Lookup(Group(dest, m), l) == Total(SentTo(dest, m, l))
    ensures l in Group(dest, m) <==> exists k :: k in m && dest(k) == l
    decreases |m|
  {
    if m == map[] {
      assert SentTo(dest, m, l) == map[];
    } else {
      var k :| k in m;
      GroupPick(dest, m, k);
      GroupAt(dest, m - {k}, l);
      SentPick(dest, m, k, l);
      if j :| j in m && dest(j) == l {
        assert j == k || j in m - {k};
      }
    }
  }

  lemma AddToTotal<L>(g: map<L, int>, l: L, v: int)
    ensures Total(AddTo(g, l, v)) == Total(g) + v
  {
    TotalUpdate(g, l, Lookup(g, l) + v);
  }

  lemma {:induction false} GroupTotal<K, L>(dest: K -> L, m: map<K, int>)
    ensures Total(Group(dest, m)) == Total(m)
    decreases |m|
  {
    if m != map[] {
      var k :| k in m;
      GroupTotal(dest, m - {k});
      GroupPick(dest, m, k);
      AddToTotal(Group(dest, m - {k}), dest(k), m[k]);
      TotalPick(m, k);
    }
  }

  lemma {:induction false} GroupNonNegative<K, L>(dest: K -> L, m: map<K, int>)
    requires forall k :: k in m ==> 0 <= m[k]
    ensures forall l :: l in Group(dest, m) ==> 0 <= Group(dest, m)[l]
    decreases |m|
  {
    if m != map[] {
      var k :| k in m;
      GroupPick(dest, m, k);
      GroupNonNegative(dest, m - {k});
    }
  }

  /** The same with the keys still to come set aside. */
  lemma GroupStep<K, L>(dest: K -> L, m: map<K, int>, todo: set<K>, k: K)
    requires k in todo && todo <= m.Keys
    ensures Group(dest, m - (todo - {k})) == AddTo(Group(dest, m - todo), dest(k), m[k])
  {
    var done := m - (todo - {k});
    assert done - {k} == m - todo;
    GroupPick(dest, done, k);
  }
}
