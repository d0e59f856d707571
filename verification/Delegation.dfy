/** Vote delegation, the power snapshot and the tallies of proposals. */
module Delegation {
  import opened Basics
  import opened Sums
  import opened Grouping

  /** Who each account delegates to; an account without an entry keeps its power. */
  type Graph = map<Address, Address>

  const MAX_HOPS: nat := 64

  // ------------------------------------------------------------- the chains

  /** Following delegations from a ends after at most n hops. */
  predicate EndsWithin(d: Graph, a: Address, n: nat)
    decreases n, a
  {
    a !in d || (n > 0 && EndsWithin(d, d[a], n - 1))
  }

  ghost predicate HasEnd(d: Graph, a: Address) {
    exists n: nat :: EndsWithin(d, a, n)
  }

  ghost predicate Acyclic(d: Graph) {
    forall a :: HasEnd(d, a)
  }

  /** Where n hops lead, or the sink if it comes earlier. */
  function Follow(d: Graph, a: Address, n: nat): Address
    decreases n, a
  {
    if a !in d || n == 0 then a else Follow(d, d[a], n - 1)
  }

  /** The guard of delegate: from the delegatee the chain ends, in time, without
      passing the actor. */
  predicate ChainAvoids(d: Graph, cursor: Address, actor: Address, hops: nat)
    decreases hops, cursor
  {
    cursor != actor && (cursor !in d || (hops > 0 && ChainAvoids(d, d[cursor], actor, hops - 1)))
  }

  predicate MayDelegate(d: Graph, valid: Address -> bool, actor: Address, delegatee: Address) {
    valid(delegatee) && delegatee != actor && ChainAvoids(d, delegatee, actor, MAX_HOPS - 1)
  }

  lemma {:induction false} MoreHops(d: Graph, a: Address, n: nat, m: nat)
    requires EndsWithin(d, a, n) && n <= m
    ensures EndsWithin(d, a, m)
    decreases n
  {
    if a in d {
      MoreHops(d, d[a], n - 1, m - 1);
    }
  }

  /** A chain that avoids the actor is untouched by the actor's new delegation. */
  lemma {:induction false} AvoidingChainEnds(d: Graph, cursor: Address, actor: Address, delegatee: Address, hops: nat)
    requires ChainAvoids(d, cursor, actor, hops)
    ensures EndsWithin(d[actor := delegatee], cursor, hops)
    decreases hops
  {
    if cursor in d {
      AvoidingChainEnds(d, d[cursor], actor, delegatee, hops - 1);
    }
  }

  lemma {:induction false} DelegatedChainEnds(d: Graph, actor: Address, delegatee: Address, a: Address, n: nat)
    requires EndsWithin(d, a, n) && ChainAvoids(d, delegatee, actor, MAX_HOPS - 1)
    ensures EndsWithin(d[actor := delegatee], a, n + MAX_HOPS)
    decreases n
  {
    if a == actor {
      AvoidingChainEnds(d, delegatee, actor, delegatee, MAX_HOPS - 1);
      MoreHops(d[actor := delegatee], delegatee, MAX_HOPS - 1, n + MAX_HOPS - 1);
    } else if a in d {
      DelegatedChainEnds(d, actor, delegatee, d[a], n - 1);
    }
  }

  lemma {:induction false} ShorterChainEnds(d: Graph, actor: Address, a: Address, n: nat)
    requires EndsWithin(d, a, n)
    ensures EndsWithin(d - {actor}, a, n)
    decreases n
  {
    if a in d - {actor} {
      ShorterChainEnds(d, actor, d[a], n - 1);
    }
  }

  lemma AvoidingKeepsAcyclic(d: Graph, actor: Address, delegatee: Address)
    requires Acyclic(d) && ChainAvoids(d, delegatee, actor, MAX_HOPS - 1)
    ensures Acyclic(d[actor := delegatee])
  {
    var after := d[actor := delegatee];
    forall a ensures HasEnd(after, a) {
      assert HasEnd(d, a);
      var n: nat :| EndsWithin(d, a, n);
      DelegatedChainEnds(d, actor, delegatee, a, n);
    }
  }

  lemma UndelegateKeepsAcyclic(d: Graph, actor: Address)
    requires Acyclic(d)
    ensures Acyclic(d - {actor})
  {
    forall a ensures HasEnd(d - {actor}, a) {
      assert HasEnd(d, a);
      var n: nat :| EndsWithin(d, a, n);
      ShorterChainEnds(d, actor, a, n);
    }
  }

  /** In an acyclic graph the actor is on the delegatee's chain exactly when the
      new delegation would close a cycle; the guard refuses those, and chains of
      more than 63 hops, and nothing else. */
  lemma GuardIsExact(d: Graph, actor: Address, delegatee: Address)
    requires Acyclic(d)
    ensures ChainAvoids(d, delegatee, actor, MAX_HOPS - 1)
            <==> EndsWithin(d, delegatee, MAX_HOPS - 1) && Acyclic(d[actor := delegatee])
  {
    if ChainAvoids(d, delegatee, actor, MAX_HOPS - 1) {
      AvoidingEnds(d, delegatee, actor, MAX_HOPS - 1);
      AvoidingKeepsAcyclic(d, actor, delegatee);
    } else if EndsWithin(d, delegatee, MAX_HOPS - 1) && Acyclic(d[actor := delegatee]) {
      assert HasEnd(d[actor := delegatee], delegatee);
      var n: nat :| EndsWithin(d[actor := delegatee], delegatee, n);
      CycleNeverEnds(d, actor, delegatee, delegatee, MAX_HOPS - 1, n);
    }
  }

  lemma {:induction false} AvoidingEnds(d: Graph, cursor: Address, actor: Address, hops: nat)
    requires ChainAvoids(d, cursor, actor, hops)
    ensures EndsWithin(d, cursor, hops)
    decreases hops
  {
    if cursor in d {
      AvoidingEnds(d, d[cursor], actor, hops - 1);
    }
  }

  /** If the chain from the cursor meets the actor, then with the actor delegating
      back to its start it has no end. */
  lemma {:induction false} CycleNeverEnds(d: Graph, actor: Address, delegatee: Address, cursor: Address, hops: nat, n: nat)
    requires EndsWithin(d, cursor, hops) && !ChainAvoids(d, cursor, actor, hops)
    requires EndsWithin(d, delegatee, MAX_HOPS - 1) && !ChainAvoids(d, delegatee, actor, MAX_HOPS - 1)
    ensures !EndsWithin(d[actor := delegatee], cursor, n)
    decreases n, hops
  {
    if EndsWithin(d[actor := delegatee], cursor, n) && n > 0 {
      if cursor == actor {
        CycleNeverEnds(d, actor, delegatee, delegatee, MAX_HOPS - 1, n - 1);
      } else {
        CycleNeverEnds(d, actor, delegatee, d[cursor], hops - 1, n - 1);
      }
    }
  }

  // ------------------------------------------------------------ the snapshot

  /** The walk of the snapshot: at most i more hops, never twice to one account. */
  function Walk(d: Graph, at: Address, seen: set<Address>, i: nat): Address
    decreases i, at
  {
    if i == 0 || at !in d || d[at] in seen then at else Walk(d, d[at], seen + {d[at]}, i - 1)
  }

  function Destination(d: Graph, owner: Address): Address { Walk(d, owner, {owner}, MAX_HOPS) }

  lemma {:induction false} LeastEnd(d: Graph, a: Address, n: nat) returns (m: nat)
    requires EndsWithin(d, a, n)
    ensures m <= n && EndsWithin(d, a, m) && (m == 0 || !EndsWithin(d, a, m - 1))
    decreases n
  {
    m := n;
    if n > 0 && EndsWithin(d, a, n - 1) {
      m := LeastEnd(d, a, n - 1);
    }
  }

  /** Accounts seen so far are at least as far from the end, so none comes back. */
  lemma {:induction false} WalkFollows(d: Graph, at: Address, seen: set<Address>, i: nat, n: nat)
    requires EndsWithin(d, at, n) && (n == 0 || !EndsWithin(d, at, n - 1))
    requires n > 0 ==> forall x :: x in seen ==> !EndsWithin(d, x, n - 1)
    ensures Walk(d, at, seen, i) == Follow(d, at, i)
    decreases i
  {
    if i > 0 && at in d {
      var next := d[at];
      assert EndsWithin(d, next, n - 1);
      if n > 1 {
        forall x | x in seen + {next} ensures !EndsWithin(d, x, n - 2) {
          if EndsWithin(d, x, n - 2) {
            MoreHops(d, x, n - 2, n - 1);
          }
        }
      }
      WalkFollows(d, next, seen + {next}, i - 1, n - 1);
    }
  }

  lemma DestinationFollows(d: Graph, owner: Address)
    requires Acyclic(d)
    ensures Destination(d, owner) == Follow(d, owner, MAX_HOPS)
  {
    assert HasEnd(d, owner);
    var n: nat :| EndsWithin(d, owner, n);
    var m := LeastEnd(d, owner, n);
    WalkFollows(d, owner, {owner}, MAX_HOPS, m);
  }

  lemma {:induction false} FollowReachesSink(d: Graph, a: Address, n: nat)
    ensures Follow(d, a, n) !in d <==> EndsWithin(d, a, n)
    decreases n
  {
    if a in d && n > 0 {
      FollowReachesSink(d, d[a], n - 1);
    }
  }

  lemma {:induction false} FollowStays(d: Graph, a: Address, n: nat, m: nat)
    requires EndsWithin(d, a, n) && n <= m
    ensures Follow(d, a, m) == Follow(d, a, n)
    decreases n
  {
    if a in d {
      FollowStays(d, d[a], n - 1, m - 1);
    }
  }

  /** In an acyclic graph the snapshot sends an owner's power to an account that
      delegates no further exactly when the owner's chain has at most 64 hops, and
      that account is then the one every longer walk would end in. */
  lemma PowerReachesTheSink(d: Graph, owner: Address, n: nat)
    requires Acyclic(d)
    ensures Destination(d, owner) !in d <==> EndsWithin(d, owner, MAX_HOPS)
    ensures EndsWithin(d, owner, MAX_HOPS) && n >= MAX_HOPS ==> Follow(d, owner, n) == Destination(d, owner)
  {
    DestinationFollows(d, owner);
    FollowReachesSink(d, owner, MAX_HOPS);
    if EndsWithin(d, owner, MAX_HOPS) && n >= MAX_HOPS {
      FollowStays(d, owner, MAX_HOPS, n);
    }
  }

  function DestinationIn(d: Graph): Address -> Address { (a: Address) => Destination(d, a) }

  /** Every owner's power at its destination; without any delegation, the power
      itself. */
  ghost function Snapshot(d: Graph, power: map<Address, int>): map<Address, int> {
    if d == map[] then power else Group(DestinationIn(d), power)
  }

  /** The snapshot moves power but neither creates nor destroys it. */
  lemma SnapshotConserves(d: Graph, power: map<Address, int>)
    ensures Total(Snapshot(d, power)) == Total(power)
  {
    GroupTotal(DestinationIn(d), power);
  }

  lemma SnapshotNonNegative(d: Graph, power: map<Address, int>)
    requires forall a :: a in power ==> 0 <= power[a]
    ensures forall a :: a in Snapshot(d, power) ==> 0 <= Snapshot(d, power)[a]
  {
    GroupNonNegative(DestinationIn(d), power);
  }

  /** An account's snapshot power is the sum of the power whose chains lead to it. */
  lemma SnapshotAt(d: Graph, power: map<Address, int>, sink: Address)
    requires d != map[]
    ensures Lookup(Snapshot(d, power), sink) == Total(SentTo(DestinationIn(d), power, sink))
    ensures sink in Snapshot(d, power) <==> exists owner :: owner in power && Destination(d, owner) == sink
  {
    GroupAt(DestinationIn(d), power, sink);
    if owner :| owner in power && Destination(d, owner) == sink {
      assert DestinationIn(d)(owner) == sink;
    }
  }
}
