/** What a library sort promises: the sorted arrangement of its input.  When the
    order separates the elements that arrangement is unique, so the outcome does
    not depend on the order in which the elements arrived. */
module Sorting {
  import opened Sums

  ghost predicate TotalOrder<T(!new)>(leq: (T, T) -> bool) {
    && (forall a, b :: leq(a, b) || leq(b, a))
    && (forall a, b, c :: leq(a, b) && leq(b, c) ==> leq(a, c))
  }

  /** The order decides equality for the elements of s. */
  ghost predicate Separates<T>(leq: (T, T) -> bool, s: seq<T>) {
    forall a, b :: a in s && b in s && leq(a, b) && leq(b, a) ==> a == b
  }

  ghost predicate Sorted<T>(leq: (T, T) -> bool, s: seq<T>) {
    forall i, j :: 0 <= i < j < |s| ==> leq(s[i], s[j])
  }

  function Insert<T>(leq: (T, T) -> bool, x: T, s: seq<T>): seq<T> {
    if s == [] then [x]
    else if leq(x, s[0]) then [x] + s
    else [s[0]] + Insert(leq, x, s[1..])
  }

  function Sort<T>(leq: (T, T) -> bool, s: seq<T>): seq<T> {
    if s == [] then [] else Insert(leq, s[0], Sort(leq, s[1..]))
  }

  lemma ConsSorted<T>(leq: (T, T) -> bool, x: T, s: seq<T>)
    requires Sorted(leq, s) && forall k :: 0 <= k < |s| ==> leq(x, s[k])
    ensures Sorted(leq, [x] + s)
  {
    var r := [x] + s;
    forall i, j | 0 <= i < j < |r| ensures leq(r[i], r[j]) {
      assert r[j] == s[j - 1] && (i > 0 ==> r[i] == s[i - 1]);
    }
  }

  lemma {:induction false} InsertElements<T>(leq: (T, T) -> bool, x: T, s: seq<T>)
    ensures multiset(Insert(leq, x, s)) == multiset(s) + multiset{x}
    ensures forall y :: y in Insert(leq, x, s) ==> y == x || y in s
  {
    if s != [] && !leq(x, s[0]) {
      InsertElements(leq, x, s[1..]);
      assert s == [s[0]] + s[1..];
    }
  }

  lemma {:induction false} InsertCorrect<T(!new)>(leq: (T, T) -> bool, x: T, s: seq<T>)
    requires TotalOrder(leq) && Sorted(leq, s)
    ensures Sorted(leq, Insert(leq, x, s))
    ensures multiset(Insert(leq, x, s)) == multiset(s) + multiset{x}
  {
    InsertElements(leq, x, s);
    if s == [] {
    } else if leq(x, s[0]) {
      ConsSorted(leq, x, s);
    } else {
      var tail := Insert(leq, x, s[1..]);
      InsertCorrect(leq, x, s[1..]);
      InsertElements(leq, x, s[1..]);
      forall k | 0 <= k < |tail| ensures leq(s[0], tail[k]) {
        assert tail[k] in tail;
      }
      ConsSorted(leq, s[0], tail);
    }
  }

  lemma {:induction false} SortCorrect<T(!new)>(leq: (T, T) -> bool, s: seq<T>)
    requires TotalOrder(leq)
    ensures Sorted(leq, Sort(leq, s))
    ensures multiset(Sort(leq, s)) == multiset(s)
    ensures |Sort(leq, s)| == |s|
  {
    if s != [] {
      SortCorrect(leq, s[1..]);
      InsertCorrect(leq, s[0], Sort(leq, s[1..]));
      assert s == [s[0]] + s[1..];
    }
    assert |multiset(Sort(leq, s))| == |multiset(s)|;
  }

  lemma SameFirst<T(!new)>(leq: (T, T) -> bool, a: seq<T>, b: seq<T>)
    requires TotalOrder(leq) && Sorted(leq, a) && Sorted(leq, b)
    requires multiset(a) == multiset(b) && Separates(leq, a) && a != [] && b != []
    ensures a[0] == b[0]
  {
    assert a[0] in multiset(b) && b[0] in multiset(a);
    assert a[0] in b && b[0] in a;
    var i :| 0 <= i < |a| && a[i] == b[0];
    var j :| 0 <= j < |b| && b[j] == a[0];
    assert i > 0 ==> leq(a[0], a[i]);
    assert j > 0 ==> leq(b[0], b[j]);
  }

  /** Sorted arrangements of the same elements are equal when the order separates them. */
  lemma {:induction false} SortedUnique<T(!new)>(leq: (T, T) -> bool, a: seq<T>, b: seq<T>)
    requires TotalOrder(leq) && Sorted(leq, a) && Sorted(leq, b)
    requires multiset(a) == multiset(b) && Separates(leq, a)
    ensures a == b
  {
    assert |multiset(a)| == |multiset(b)|;
    if a != [] {
      SameFirst(leq, a, b);
      TailMultiset(a);
      TailMultiset(b);
      SortedUnique(leq, a[1..], b[1..]);
      assert a == [a[0]] + a[1..] && b == [b[0]] + b[1..];
    }
  }

  lemma SortIsOrderIndependent<T(!new)>(leq: (T, T) -> bool, a: seq<T>, b: seq<T>)
    requires TotalOrder(leq) && multiset(a) == multiset(b) && Separates(leq, a)
    ensures Sort(leq, a) == Sort(leq, b)
  {
    SortCorrect(leq, a);
    SortCorrect(leq, b);
    SameElements(Sort(leq, a), a);
    SortedUnique(leq, Sort(leq, a), Sort(leq, b));
  }

  lemma SameElements<T>(a: seq<T>, b: seq<T>)
    requires multiset(a) == multiset(b)
    ensures forall x :: x in a <==> x in b
  {
    forall x ensures x in a <==> x in b {
      assert x in a <==> x in multiset(a);
      assert x in b <==> x in multiset(b);
    }
  }

  ghost predicate Distinct<T>(s: seq<T>) {
    forall i, j :: 0 <= i < j < |s| ==> s[i] != s[j]
  }

  lemma {:induction false} DistinctCount<T>(s: seq<T>, x: T)
    requires Distinct(s)
    ensures multiset(s)[x] <= 1
  {
    if s != [] {
      DistinctCount(s[1..], x);
      assert s == [s[0]] + s[1..];
      if x == s[0] {
        assert x !in s[1..];
        assert multiset(s[1..])[x] == 0;
      }
    }
  }

  lemma RepeatedCount<T>(s: seq<T>, i: nat, j: nat)
    requires i < j < |s| && s[i] == s[j]
    ensures multiset(s)[s[i]] >= 2
  {
    assert s == s[..j] + s[j..];
    assert s[i] in s[..j] && s[j] in s[j..];
    assert multiset(s) == multiset(s[..j]) + multiset(s[j..]);
  }

  lemma DistinctPermutation<T(!new)>(a: seq<T>, b: seq<T>)
    requires Distinct(a) && multiset(a) == multiset(b)
    ensures Distinct(b)
  {
    forall i, j | 0 <= i < j < |b| ensures b[i] != b[j] {
      if b[i] == b[j] {
        RepeatedCount(b, i, j);
        DistinctCount(a, b[i]);
      }
    }
  }

  /** Sorting distinct elements by an order that separates them sorts strictly. */
  lemma SortStrictly<T(!new)>(leq: (T, T) -> bool, s: seq<T>)
    requires TotalOrder(leq) && Distinct(s) && Separates(leq, s)
    ensures StrictlySortedBy(leq, Sort(leq, s))
    ensures forall x :: x in Sort(leq, s) <==> x in s
  {
    var r := Sort(leq, s);
    SortCorrect(leq, s);
    SameElements(r, s);
    DistinctPermutation(s, r);
    forall i, j | 0 <= i < j < |r| ensures leq(r[i], r[j]) && !leq(r[j], r[i]) {
      assert r[i] in s && r[j] in s;
    }
  }

  ghost predicate StrictlySortedBy<T>(leq: (T, T) -> bool, s: seq<T>) {
    forall i, j :: 0 <= i < j < |s| ==> leq(s[i], s[j]) && !leq(s[j], s[i])
  }

  /** A strictly sorted list is decided by its set of elements. */
  lemma {:induction false} StrictlySortedUnique<T(!new)>(leq: (T, T) -> bool, a: seq<T>, b: seq<T>)
    requires TotalOrder(leq) && StrictlySortedBy(leq, a) && StrictlySortedBy(leq, b)
    requires forall x :: x in a <==> x in b
    ensures a == b
  {
    assert a != [] ==> a[0] in b;
    assert b != [] ==> b[0] in a;
    if a != [] && b != [] {
      assert leq(a[0], b[0]) && leq(b[0], a[0]);
      assert a[0] == b[0];
      forall x ensures x in a[1..] <==> x in b[1..] {
        assert x in a[1..] <==> x in a && x != a[0];
        assert x in b[1..] <==> x in b && x != b[0];
      }
      StrictlySortedUnique(leq, a[1..], b[1..]);
    }
  }

  /** Byte-wise comparison of strings, the order Go's < gives. */
  predicate TextLeq(a: string, b: string) {
    if a == [] then true
    else if b == [] then false
    else if a[0] != b[0] then a[0] < b[0]
    else TextLeq(a[1..], b[1..])
  }

  lemma {:induction false} TextLeqTotal(a: string, b: string)
    ensures TextLeq(a, b) || TextLeq(b, a)
    ensures TextLeq(a, b) && TextLeq(b, a) ==> a == b
  {
    if a != [] && b != [] && a[0] == b[0] {
      TextLeqTotal(a[1..], b[1..]);
      assert a == [a[0]] + a[1..] && b == [b[0]] + b[1..];
    }
  }

  lemma {:induction false} TextLeqTransitive(a: string, b: string, c: string)
    requires TextLeq(a, b) && TextLeq(b, c)
    ensures TextLeq(a, c)
  {
    if a != [] && b != [] && c != [] && a[0] == b[0] == c[0] {
      TextLeqTransitive(a[1..], b[1..], c[1..]);
    }
  }

  lemma TextLeqIsOrder()
    ensures TotalOrder(TextLeq)
    ensures forall a, b :: TextLeq(a, b) && TextLeq(b, a) ==> a == b
  {
    forall a, b ensures (TextLeq(a, b) || TextLeq(b, a)) && (TextLeq(a, b) && TextLeq(b, a) ==> a == b) {
      TextLeqTotal(a, b);
    }
    forall a, b, c | TextLeq(a, b) && TextLeq(b, c) ensures TextLeq(a, c) {
      TextLeqTransitive(a, b, c);
    }
  }

  // -------------------------------------------------- lists built item by item

  /** The lists g gives for the items of s, one after the other. */
  function FlatMap<T, U>(g: T -> seq<U>, s: seq<T>): seq<U>
    decreases |s|
  {
    if s == [] then [] else FlatMap(g, s[..|s| - 1]) + g(s[|s| - 1])
  }

  lemma {:induction false} FlatMapConcat<T, U>(g: T -> seq<U>, a: seq<T>, b: seq<T>)
    ensures FlatMap(g, a + b) == FlatMap(g, a) + FlatMap(g, b)
    decreases |b|
  {
    if b == [] {
      assert a + b == a;
    } else {
      FlatMapConcat(g, a, b[..|b| - 1]);
      assert (a + b)[..|a + b| - 1] == a + b[..|b| - 1];
    }
  }

  /** Rearranging the items only rearranges the result. */
  lemma {:induction false} FlatMapPermutation<T, U>(g: T -> seq<U>, a: seq<T>, b: seq<T>)
    requires multiset(a) == multiset(b)
    ensures multiset(FlatMap(g, a)) == multiset(FlatMap(g, b))
    decreases |a|
  {
    assert |multiset(a)| == |multiset(b)|;
    if a != [] {
      var front, last := a[..|a| - 1], a[|a| - 1];
      assert last in multiset(b);
      var i :| 0 <= i < |b| && b[i] == last;
      RemoveAtMultiset(a, |a| - 1);
      RemoveAtMultiset(b, i);
      assert a[..|a| - 1] + a[|a|..] == front;
      FlatMapPermutation(g, front, b[..i] + b[i + 1..]);
      FlatMapMiddle(g, b, i);
    }
  }

  lemma FlatMapMiddle<T, U>(g: T -> seq<U>, s: seq<T>, i: nat)
    requires i < |s|
    ensures multiset(FlatMap(g, s)) == multiset(FlatMap(g, s[..i] + s[i + 1..])) + multiset(g(s[i]))
  {
    var before, after := s[..i], s[i + 1..];
    assert s == (before + [s[i]]) + after;
    FlatMapConcat(g, before, after);
    FlatMapConcat(g, before + [s[i]], after);
    FlatMapSnoc(g, before, s[i]);
    MultisetMiddle(FlatMap(g, before), g(s[i]), FlatMap(g, after));
  }

  lemma FlatMapSnoc<T, U>(g: T -> seq<U>, s: seq<T>, x: T)
    ensures FlatMap(g, s + [x]) == FlatMap(g, s) + g(x)
  {
    assert (s + [x])[..|s|] == s;
  }

  lemma MultisetMiddle<U>(a: seq<U>, x: seq<U>, b: seq<U>)
    ensures multiset((a + x) + b) == multiset(a + b) + multiset(x)
  {
    assert multiset((a + x) + b) == (multiset(a) + multiset(x)) + multiset(b);
  }

  lemma {:induction false} FlatMapIn<T, U>(g: T -> seq<U>, s: seq<T>, x: U)
    ensures x in FlatMap(g, s) <==> exists i :: 0 <= i < |s| && x in g(s[i])
    decreases |s|
  {
    if s != [] {
      var front := s[..|s| - 1];
      FlatMapIn(g, front, x);
      if x in FlatMap(g, front) {
        var i :| 0 <= i < |front| && x in g(front[i]);
        assert s[i] == front[i];
      }
      if i :| 0 <= i < |s| && x in g(s[i]) {
        if i < |s| - 1 {
          assert front[i] == s[i];
        }
      }
    }
  }
}
