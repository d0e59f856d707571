/** Weighted quorum intersection: what certificates of one key have in common. */
module Quorums {
  import opened Basics
  import opened VotingPower
  import opened BftModel

  ghost predicate WellFormedSets(s: Bft) {
    ValidSet(s.active) && (s.pending.Some? ==> ValidSet(s.pending.value.newSet))
  }

  ghost predicate SameSets(s: Bft, t: Bft) { s.active == t.active && s.pending == t.pending }

  /** Validators with more than a third of the active power, and before it
      activates of the pending power, are in the set. */
  ghost predicate MoreThanAThird(s: Bft, height: nat, voters: set<Address>) {
    && 3 * Weight(voters, s.active) > SetPower(s.active)
    && (s.pending.Some? && height < s.pending.value.activation ==>
          3 * Weight(voters, s.pending.value.newSet) > SetPower(s.pending.value.newSet))
  }

  /** The validators a node has on record for the block the vote names, once the
      vote has been processed. */
  ghost function Supporters(e: Env, s: Bft, built: PowerSet, v: Vote): set<Address> {
    Voters(TableOf(AddVote(e, s, built, v).0, v.key), v.hash)
  }

  lemma JointQuorumsOverlap(s: Bft, height: nat, a: set<Address>, b: set<Address>)
    requires WellFormedSets(s) && JointQuorum(s, height, a) && JointQuorum(s, height, b)
    ensures MoreThanAThird(s, height, a * b)
  {
    QuorumsOverlap(a, b, s.active);
    if s.pending.Some? && height < s.pending.value.activation {
      QuorumsOverlap(a, b, s.pending.value.newSet);
    }
  }

  /** A certificate is backed by a joint quorum of the recorded votes. */
  lemma CertifiedMeans(e: Env, s: Bft, built: PowerSet, v: Vote)
    requires AddVote(e, s, built, v).1.Certified?
    ensures VoteVerifies(e, v) && v.validator !in TableOf(s, v.key)
    ensures JointQuorum(Ready(s, built), v.key.height, Supporters(e, s, built, v))
    ensures TableOf(AddVote(e, s, built, v).0, v.key) == TableOf(s, v.key)[v.validator := v]
  {
    var r := Ready(s, built);
    CountedTable(r, v);
    assert TableOf(r, v.key) == TableOf(s, v.key);
  }

  lemma CountedTable(s: Bft, v: Vote)
    ensures TableOf(CountVote(s, v).0, v.key) == TableOf(Stored(s, v), v.key) == TableOf(s, v.key)[v.validator := v]
    ensures forall k :: k != v.key ==> TableOf(CountVote(s, v).0, k) == TableOf(s, k)
  {
  }

  /** Certificates for two different blocks at one height, round and step, on
      any two nodes with the same validator sets, need validators with more
      than a third of the active power, and of the pending power before it
      activates, to have voted for both. */
  lemma ConflictingCertificatesShareVoters(e: Env, s1: Bft, b1: PowerSet, v1: Vote, s2: Bft, b2: PowerSet, v2: Vote)
    requires WellFormedSets(Ready(s1, b1)) && SameSets(Ready(s1, b1), Ready(s2, b2))
    requires v1.key == v2.key && v1.hash != v2.hash
    requires AddVote(e, s1, b1, v1).1.Certified? && AddVote(e, s2, b2, v2).1.Certified?
    ensures MoreThanAThird(Ready(s1, b1), v1.key.height, Supporters(e, s1, b1, v1) * Supporters(e, s2, b2, v2))
  {
    CertifiedMeans(e, s1, b1, v1);
    CertifiedMeans(e, s2, b2, v2);
    assert JointQuorum(Ready(s1, b1), v1.key.height, Supporters(e, s2, b2, v2));
    JointQuorumsOverlap(Ready(s1, b1), v1.key.height, Supporters(e, s1, b1, v1), Supporters(e, s2, b2, v2));
  }

  // ----------------------------------------------------- one node's table

  /** Every recorded vote stays, unchanged. */
  ghost predicate Kept(before: map<Address, Vote>, after: map<Address, Vote>) {
    forall a :: a in before ==> a in after && after[a] == before[a]
  }

  lemma VoteKeepsTable(e: Env, s: Bft, built: PowerSet, v: Vote, k: Key)
    ensures Kept(TableOf(s, k), TableOf(AddVote(e, s, built, v).0, k))
  {
    var r := Ready(s, built);
    assert TableOf(r, k) == TableOf(s, k);
    if VoteVerifies(e, v) && Member(r, v.validator) && v.validator !in TableOf(r, v.key) {
      CountedTable(r, v);
    }
  }

  /** Finalizing a height forgets only votes at least 128 heights below it. */
  predicate Retains(ev: Event, k: Key) {
    ev.Finalize? ==> k.height > PruneThrough(ev.height)
  }

  lemma TimeoutKeepsVotes(e: Env, s: Bft, built: PowerSet, v: TimeoutVote)
    ensures AddTimeout(e, s, built, v).0.votes == s.votes
  {
    assert Ready(s, built).votes == s.votes;
    assert EnterTimeout(Ready(s, built), v).0.votes == Ready(s, built).votes;
  }

  lemma StepKeepsTable(e: Env, s: Bft, ev: Event, k: Key)
    requires Retains(ev, k)
    ensures Kept(TableOf(s, k), TableOf(Step(e, s, ev), k))
  {
    match ev
    case CastVote(v, built) => VoteKeepsTable(e, s, built, v, k);
    case CastTimeout(v, built) => TimeoutKeepsVotes(e, s, built, v);
    case StartHeight(h, now) =>
    case Advance(h, now) =>
    case Boundary(h, built) =>
    case Finalize(h) =>
  }

  lemma {:induction false} RunKeepsTable(e: Env, s: Bft, events: seq<Event>, k: Key)
    requires forall ev :: ev in events ==> Retains(ev, k)
    ensures Kept(TableOf(s, k), TableOf(Run(e, s, events), k))
    decreases |events|
  {
    if events != [] {
      var front := events[..|events| - 1];
      RunKeepsTable(e, s, front, k);
      StepKeepsTable(e, Run(e, s, front), events[|events| - 1], k);
    }
  }

  /** One node never certifies two different blocks at one height, round and
      step: certify v1, then process any events whatever, then v2 cannot be
      certified while the validator sets are the ones v1 was certified under. */
  lemma OneNodeCertifiesOnce(e: Env, s: Bft, b1: PowerSet, v1: Vote, between: seq<Event>, b2: PowerSet, v2: Vote)
    requires AddVote(e, s, b1, v1).1.Certified? && v1.key == v2.key && v1.hash != v2.hash
    requires forall ev :: ev in between ==> Retains(ev, v1.key)
    requires WellFormedSets(Ready(s, b1))
    requires SameSets(Ready(s, b1), Ready(Run(e, AddVote(e, s, b1, v1).0, between), b2))
    ensures !AddVote(e, Run(e, AddVote(e, s, b1, v1).0, between), b2, v2).1.Certified?
  {
    var s1 := AddVote(e, s, b1, v1).0;
    var s2 := Run(e, s1, between);
    if AddVote(e, s2, b2, v2).1.Certified? {
      CertifiedMeans(e, s, b1, v1);
      CertifiedMeans(e, s2, b2, v2);
      RunKeepsTable(e, s1, between, v1.key);
      VoteKeepsTable(e, s2, b2, v2, v1.key);
      var a, b := Supporters(e, s, b1, v1), Supporters(e, s2, b2, v2);
      SupportersDisjoint(TableOf(s1, v1.key), TableOf(AddVote(e, s2, b2, v2).0, v1.key), v1.hash, v2.hash);
      NoDisjointQuorums(a, b, Ready(s, b1).active);
    }
  }

  // ------------------------------------------------ what is on record is signed

  /** Every recorded vote is filed under its own key and validator and verifies. */
  ghost predicate Authentic(e: Env, s: Bft) {
    forall k: Key, a: Address :: a in TableOf(s, k) ==> OnRecord(e, k, a, TableOf(s, k)[a])
  }

  predicate OnRecord(e: Env, k: Key, a: Address, v: Vote) {
    v.key == k && v.validator == a && VoteVerifies(e, v)
  }

  lemma VoteKeepsAuthentic(e: Env, s: Bft, built: PowerSet, v: Vote)
    requires Authentic(e, s)
    ensures Authentic(e, AddVote(e, s, built, v).0)
  {
    var r := Ready(s, built);
    var t := AddVote(e, s, built, v).0;
    forall k: Key, a: Address | a in TableOf(t, k) ensures OnRecord(e, k, a, TableOf(t, k)[a]) {
      assert TableOf(r, k) == TableOf(s, k);
      if VoteVerifies(e, v) && Member(r, v.validator) && v.validator !in TableOf(r, v.key) {
        CountedTable(r, v);
      }
    }
  }

  lemma StepKeepsAuthentic(e: Env, s: Bft, ev: Event)
    requires Authentic(e, s)
    ensures Authentic(e, Step(e, s, ev))
  {
    match ev
    case CastVote(v, built) => VoteKeepsAuthentic(e, s, built, v);
    case CastTimeout(v, built) =>
      TimeoutKeepsVotes(e, s, built, v);
      SameVotesAuthentic(e, s, Step(e, s, ev));
    case StartHeight(h, now) => SameVotesAuthentic(e, s, Step(e, s, ev));
    case Advance(h, now) => SameVotesAuthentic(e, s, Step(e, s, ev));
    case Boundary(h, built) => SameVotesAuthentic(e, s, Step(e, s, ev));
    case Finalize(h) => SomeVotesAuthentic(e, s, Step(e, s, ev));
  }

  lemma SameVotesAuthentic(e: Env, s: Bft, t: Bft)
    requires Authentic(e, s) && t.votes == s.votes
    ensures Authentic(e, t)
  {
    forall k: Key, a: Address | a in TableOf(t, k) ensures OnRecord(e, k, a, TableOf(t, k)[a]) {
      assert TableOf(t, k) == TableOf(s, k);
    }
  }

  lemma SomeVotesAuthentic(e: Env, s: Bft, t: Bft)
    requires Authentic(e, s) && forall k :: k in t.votes ==> k in s.votes && t.votes[k] == s.votes[k]
    ensures Authentic(e, t)
  {
    forall k: Key, a: Address | a in TableOf(t, k) ensures OnRecord(e, k, a, TableOf(t, k)[a]) {
      assert TableOf(t, k) == TableOf(s, k);
    }
  }

  /** In every run of any events only verified votes are ever on record. */
  lemma {:induction false} RunKeepsAuthentic(e: Env, s: Bft, events: seq<Event>)
    requires Authentic(e, s)
    ensures Authentic(e, Run(e, s, events))
    decreases |events|
  {
    if events != [] {
      var front := events[..|events| - 1];
      RunKeepsAuthentic(e, s, front);
      StepKeepsAuthentic(e, Run(e, s, front), events[|events| - 1]);
    }
  }

  /** After any runs of two nodes from empty tables, conflicting certificates under
      the same sets convict more than a third of the power: each of those
      validators has signed a vote for both blocks. */
  lemma ConflictConvicts(e: Env, start1: Bft, events1: seq<Event>, b1: PowerSet, v1: Vote,
                         start2: Bft, events2: seq<Event>, b2: PowerSet, v2: Vote)
    requires start1.votes == map[] && start2.votes == map[]
    requires v1.key == v2.key && v1.hash != v2.hash
    requires var (s1, s2) := (Run(e, start1, events1), Run(e, start2, events2));
             && WellFormedSets(Ready(s1, b1)) && SameSets(Ready(s1, b1), Ready(s2, b2))
             && AddVote(e, s1, b1, v1).1.Certified? && AddVote(e, s2, b2, v2).1.Certified?
    ensures var (s1, s2) := (Run(e, start1, events1), Run(e, start2, events2));
            var both := Supporters(e, s1, b1, v1) * Supporters(e, s2, b2, v2);
            && MoreThanAThird(Ready(s1, b1), v1.key.height, both)
            && forall a :: a in both ==>
                 VoteVerifies(e, Vote(v1.key, v1.hash, a)) && VoteVerifies(e, Vote(v1.key, v2.hash, a))
  {
    var s1, s2 := Run(e, start1, events1), Run(e, start2, events2);
    ConflictingCertificatesShareVoters(e, s1, b1, v1, s2, b2, v2);
    RunKeepsAuthentic(e, start1, events1);
    RunKeepsAuthentic(e, start2, events2);
    SupportersSigned(e, s1, b1, v1);
    SupportersSigned(e, s2, b2, v2);
  }

  lemma SupportersSigned(e: Env, s: Bft, built: PowerSet, v: Vote)
    requires Authentic(e, s)
    ensures forall a :: a in Supporters(e, s, built, v) ==> VoteVerifies(e, Vote(v.key, v.hash, a))
  {
    VoteKeepsAuthentic(e, s, built, v);
    var table := TableOf(AddVote(e, s, built, v).0, v.key);
    forall a | a in Supporters(e, s, built, v) ensures VoteVerifies(e, Vote(v.key, v.hash, a)) {
      assert OnRecord(e, v.key, a, table[a]);
      assert table[a] == Vote(v.key, v.hash, a);
    }
  }

  // ------------------------------------------------------------------------

  lemma SupportersDisjoint(before: map<Address, Vote>, after: map<Address, Vote>, h1: string, h2: string)
    requires Kept(before, after) && h1 != h2
    ensures Voters(before, h1) !! Voters(after, h2)
  {
  }

  /** A validator whose vote is on record and that signs another block for the
      same key leaves evidence of both votes, and its second vote changes
      nothing else. */
  lemma EquivocationLeavesEvidence(e: Env, s: Bft, v1: Vote, between: seq<Event>, b2: PowerSet, v2: Vote)
    requires v1.validator in TableOf(s, v1.key) && TableOf(s, v1.key)[v1.validator] == v1
    requires v1.key == v2.key && v1.validator == v2.validator && v1.hash != v2.hash && VoteVerifies(e, v2)
    requires forall ev :: ev in between ==> Retains(ev, v1.key)
    requires Member(Ready(Run(e, s, between), b2), v2.validator)
    ensures var t := Ready(Run(e, s, between), b2);
            AddVote(e, Run(e, s, between), b2, v2) == (t.(evidence := t.evidence + [(v1, v2)]), Equivocation)
  {
    RunKeepsTable(e, s, between, v1.key);
    var t := Run(e, s, between);
    assert TableOf(t, v1.key)[v1.validator] == v1;
    assert TableOf(Ready(t, b2), v1.key) == TableOf(t, v1.key);
  }

  /** How certificates and the lock meet: a prevote certificate locks its block, a
      precommit certificate is only issued for the locked block or without a lock
      and becomes the last certificate, and nothing else touches either. */
  ghost predicate LockRule(s: Bft, v: Vote, t: Bft, outcome: VoteOutcome) {
    match outcome
    case Certified(qc) =>
      if v.key.step == Prevote then
        t.lockedHash == v.hash && t.lockedRound == v.key.round && t.lastQC == s.lastQC
      else
        && (s.lockedHash == "" || s.lockedHash == v.hash) && t.lockedHash == s.lockedHash
        && t.lastQC == Some(qc) && qc.hash == v.hash && qc.key == v.key
    case LockConflict =>
      v.key.step == Precommit && s.lockedHash != "" && s.lockedHash != v.hash && SameLock(s, t)
    case _ => SameLock(s, t)
  }

  ghost predicate SameLock(s: Bft, t: Bft) {
    t.lockedHash == s.lockedHash && t.lockedRound == s.lockedRound && t.lastQC == s.lastQC
  }

  lemma CertifyFollowsRule(s: Bft, v: Vote, qc: QC)
    requires qc.hash == v.hash && qc.key == v.key
    ensures LockRule(s, v, Certify(s, v, qc).0, Certify(s, v, qc).1)
  {
  }

  lemma CountFollowsRule(s: Bft, v: Vote)
    ensures LockRule(s, v, CountVote(s, v).0, CountVote(s, v).1)
  {
    var t := Stored(s, v);
    assert SameLock(s, t);
    CertifyFollowsRule(t, v, QCFor(s, v, Voters(TableOf(t, v.key), v.hash)));
  }

  /** Every vote follows the rule, and a precommit that conflicts with the lock is
      refused only once a joint quorum of recorded votes backs it. */
  lemma VotesFollowLockRule(e: Env, s: Bft, built: PowerSet, v: Vote)
    ensures LockRule(s, v, AddVote(e, s, built, v).0, AddVote(e, s, built, v).1)
    ensures AddVote(e, s, built, v).1 == LockConflict ==>
              JointQuorum(Ready(s, built), v.key.height, Supporters(e, s, built, v))
  {
    var r := Ready(s, built);
    assert SameLock(s, r);
    CountFollowsRule(r, v);
    CountedTable(r, v);
  }
}
