/** When votes and timeouts do lead somewhere: a node certifies, changes round and
    changes validators exactly when it should, so enough honest validators can
    always move it on. */
module Liveness {
  import opened Basics
  import opened Sums
  import opened VotingPower
  import opened BftModel

  /** The recorded voters for the block of v, and v's own. */
  ghost function Backers(s: Bft, v: Vote): set<Address> {
    (set a | a in TableOf(s, v.key) && TableOf(s, v.key)[a].hash == v.hash) + {v.validator}
  }

  /** More than two thirds of the active power, and of the pending power until
      it takes over. */
  ghost predicate Enough(s: Bft, height: nat, voters: set<Address>) {
    && 3 * Weight(voters, s.active) > 2 * SetPower(s.active)
    && (s.pending.Some? && height < s.pending.value.activation ==>
          3 * Weight(voters, s.pending.value.newSet) > 2 * SetPower(s.pending.value.newSet))
  }

  predicate Votes(s: Bft, a: Address) {
    PowerFor(s.active, a) > 0 || (s.pending.Some? && PowerFor(s.pending.value.newSet, a) > 0)
  }

  lemma BackersAre(s: Bft, v: Vote)
    requires v.validator !in TableOf(s, v.key)
    ensures Voters(TableOf(Stored(s, v), v.key), v.hash) == Backers(s, v)
  {
  }

  /** Every vote has exactly one outcome: refused when it does not verify or its
      validator has no power; a repetition; evidence; or, the first time, a
      certificate as soon as its block has enough votes, unless another block is
      locked, and a mere record before that. */
  lemma VoteOutcomes(e: Env, s: Bft, built: PowerSet, v: Vote)
    ensures var r := if s.active == [] then s.(active := built) else s;
            var table := TableOf(r, v.key);
            var (t, outcome) := AddVote(e, s, built, v);
            if v.key.height == 0 || v.key.round > MAX_ROUND || v.hash == "" || !e.signedVote(v) || !Votes(r, v.validator) then
              outcome == Refused
            else if v.validator in table then
              outcome == (if table[v.validator].hash == v.hash then Duplicate else Equivocation)
            else
              && t.votes == r.votes[v.key := table[v.validator := v]]
              && (!Enough(r, v.key.height, Backers(r, v)) ==> outcome == Recorded)
              && (Enough(r, v.key.height, Backers(r, v)) ==>
                    if v.key.step == Precommit && r.lockedHash != "" && r.lockedHash != v.hash then outcome == LockConflict
                    else
                      && outcome.Certified?
                      && outcome.qc.key == v.key && outcome.qc.hash == v.hash
                      && outcome.qc.power == Weight(Backers(r, v), r.active) && outcome.qc.total == SetPower(r.active)
                      && (forall a :: a in outcome.qc.voters <==> a in Backers(r, v) && PowerFor(r.active, a) > 0)
                      && (v.key.step == Prevote ==> t.lockedHash == v.hash && t.lockedRound == v.key.round)
                      && (v.key.step == Precommit ==> t.lastQC == Some(outcome.qc)))
  {
    hide Weight, SetPower;
    var r := Ready(s, built);
    if VoteVerifies(e, v) && v.validator !in TableOf(r, v.key) {
      BackersAre(r, v);
    }
  }

  /** A first timeout of a validator with power forms a certificate exactly when
      enough have timed out. */
  lemma TimeoutOutcomes(e: Env, s: Bft, built: PowerSet, v: TimeoutVote)
    ensures var r := if s.active == [] then s.(active := built) else s;
            var voters := TimeoutTable(r, v.height, v.round) + {v.validator};
            var (t, tc) := AddTimeout(e, s, built, v);
            if v.height == 0 || v.round > MAX_ROUND || v.validator == "" || !e.signedTimeout(v) || !Votes(r, v.validator)
               || v.validator in TimeoutTable(r, v.height, v.round) then tc == None
            else
              && TimeoutTable(t, v.height, v.round) == voters
              && (tc.Some? <==> Enough(r, v.height, voters))
              && (tc.Some? ==>
                    && t.lastTC == tc && tc.value.height == v.height && tc.value.round == v.round
                    && tc.value.power == Weight(voters, r.active) && tc.value.total == SetPower(r.active)
                    && forall a :: a in tc.value.voters <==> a in voters && PowerFor(r.active, a) > 0)
  {
    hide Weight, SetPower;
  }

  /** A height moves to the next round exactly when its timer has run out, its
      round holds a certificate, and nothing is final at or above it. */
  lemma AdvancesExactly(s: Bft, height: nat, now: int)
    requires RoundOf(s, height) < 0xFFFF_FFFF
    ensures var t := AdvanceRound(s, height, now);
            && (RoundOf(t, height) != RoundOf(s, height) <==>
                  && 0 < height && StartOf(s, height) != 0 && StartOf(s, height) + s.timeoutSeconds <= now
                  && (exists tc :: s.lastTC == Some(tc) && tc.height == height && tc.round == RoundOf(s, height))
                  && !(exists qc :: s.lastQC == Some(qc) && qc.key.step == Precommit && qc.key.height >= height))
            && (RoundOf(t, height) != RoundOf(s, height) ==>
                  RoundOf(t, height) == RoundOf(s, height) + 1 && StartOf(t, height) == now)
            && (forall h :: h != height ==> RoundOf(t, h) == RoundOf(s, h) && StartOf(t, h) == StartOf(s, h))
  {
    assert s.lastTC.Some? ==> s.lastTC == Some(s.lastTC.value);
    assert s.lastQC.Some? ==> s.lastQC == Some(s.lastQC.value);
  }

  // ------------------------------------------------- enough honest validators

  /** The same vote from each of these validators, one after the other. */
  ghost function Ballots(key: Key, hash: string, validators: seq<Address>, built: PowerSet): (events: seq<Event>)
    ensures |events| == |validators|
  {
    seq(|validators|, i requires 0 <= i < |validators| => CastVote(Vote(key, hash, validators[i]), built))
  }

  function Elements(s: seq<Address>): set<Address> { set a | a in s }

  ghost predicate NoRepeats(s: seq<Address>) { forall i, j :: 0 <= i < j < |s| ==> s[i] != s[j] }

  /** All of them vote, and nobody has voted for the key before. */
  ghost predicate CanVote(e: Env, s: Bft, key: Key, hash: string, validators: seq<Address>) {
    && s.active != [] && TableOf(s, key) == map[] && NoRepeats(validators)
    && forall a :: a in validators ==> VoteVerifies(e, Vote(key, hash, a)) && Votes(s, a)
  }

  ghost predicate SameRules(s: Bft, t: Bft) {
    t.active == s.active && t.pending == s.pending && t.epochLength == s.epochLength
  }

  lemma VoteKeepsRules(e: Env, s: Bft, built: PowerSet, v: Vote)
    requires s.active != []
    ensures SameRules(s, AddVote(e, s, built, v).0)
  {
  }

  lemma FirstVoteIsStored(e: Env, s: Bft, built: PowerSet, v: Vote)
    requires s.active != [] && VoteVerifies(e, v) && Votes(s, v.validator) && v.validator !in TableOf(s, v.key)
    ensures TableOf(AddVote(e, s, built, v).0, v.key) == TableOf(s, v.key)[v.validator := v]
  {
    hide AddVote, Enough, Backers;
    VoteOutcomes(e, s, built, v);
  }

  lemma {:induction false} BallotsFill(e: Env, s: Bft, key: Key, hash: string, validators: seq<Address>, built: PowerSet)
    requires CanVote(e, s, key, hash, validators)
    ensures var t := Run(e, s, Ballots(key, hash, validators, built));
            && SameRules(s, t)
            && (forall a :: a in TableOf(t, key) <==> a in validators)
            && (forall a :: a in validators ==> TableOf(t, key)[a] == Vote(key, hash, a))
    decreases |validators|
  {
    if validators != [] {
      hide AddVote;
      var front, a := validators[..|validators| - 1], validators[|validators| - 1];
      assert CanVote(e, s, key, hash, front);
      BallotsFill(e, s, key, hash, front, built);
      assert Ballots(key, hash, validators, built)[..|validators| - 1] == Ballots(key, hash, front, built);
      var t := Run(e, s, Ballots(key, hash, front, built));
      var v := Vote(key, hash, a);
      assert a !in front;
      assert VoteVerifies(e, v) && Votes(s, a);
      VoteKeepsRules(e, t, built, v);
      FirstVoteIsStored(e, t, built, v);
    }
  }

  /** Validators with enough power that vote for one block make the node certify
      it, in whatever order their votes arrive: prevotes lock it, and precommits
      for a block that no other lock excludes make it the last certificate. */
  lemma SupermajorityCertifies(e: Env, s: Bft, key: Key, hash: string, validators: seq<Address>, built: PowerSet)
    requires CanVote(e, s, key, hash, validators) && validators != []
    requires Enough(s, key.height, Elements(validators))
    ensures var front := Run(e, s, Ballots(key, hash, validators[..|validators| - 1], built));
            var t := Run(e, s, Ballots(key, hash, validators, built));
            && (key.step == Prevote ==> t.lockedHash == hash && t.lockedRound == key.round)
            && (key.step == Precommit && (front.lockedHash == "" || front.lockedHash == hash) ==>
                  t.lastQC.Some? && t.lastQC.value.hash == hash && t.lastQC.value.key == key)
  {
    hide Weight, SetPower, AddVote, Backers;
    var front, a := validators[..|validators| - 1], validators[|validators| - 1];
    assert CanVote(e, s, key, hash, front);
    BallotsFill(e, s, key, hash, front, built);
    assert Ballots(key, hash, validators, built)[..|validators| - 1] == Ballots(key, hash, front, built);
    var t := Run(e, s, Ballots(key, hash, front, built));
    var v := Vote(key, hash, a);
    assert a !in front;
    assert VoteVerifies(e, v) && Votes(s, a);
    LastBacker(t, v, front, validators);
    LastVoteCertifies(e, t, built, v);
  }

  lemma LastBacker(t: Bft, v: Vote, front: seq<Address>, validators: seq<Address>)
    requires validators == front + [v.validator]
    requires forall a :: a in TableOf(t, v.key) <==> a in front
    requires forall a :: a in front ==> TableOf(t, v.key)[a].hash == v.hash
    ensures Backers(t, v) == Elements(validators)
  {
    assert forall x :: x in validators <==> x in front || x == v.validator;
  }

  lemma LastVoteCertifies(e: Env, t: Bft, built: PowerSet, v: Vote)
    requires t.active != [] && VoteVerifies(e, v) && Votes(t, v.validator) && v.validator !in TableOf(t, v.key)
    requires Enough(t, v.key.height, Backers(t, v))
    ensures var n := AddVote(e, t, built, v).0;
            && (v.key.step == Prevote ==> n.lockedHash == v.hash && n.lockedRound == v.key.round)
            && (v.key.step == Precommit && (t.lockedHash == "" || t.lockedHash == v.hash) ==>
                  n.lastQC.Some? && n.lastQC.value.hash == v.hash && n.lastQC.value.key == v.key)
  {
    hide AddVote, Enough;
    VoteOutcomes(e, t, built, v);
  }

  // ------------------------------------------------------ changing validators

  /** The set built at an epoch boundary takes over exactly one epoch later, when
      the next one is scheduled; between boundaries nothing changes. */
  lemma TransitionTakesOneEpoch(s: Bft, height: nat, first: PowerSet, second: PowerSet, between: nat, other: PowerSet)
    requires s.active != [] && s.pending == None && 0 < height && height % s.epochLength == 0 && first != []
    requires between == 0 || between % s.epochLength != 0
    ensures var scheduled := PrepareTransition(s, height, first);
            && scheduled.active == s.active && scheduled.pending == Some(Transition(height + s.epochLength, first))
            && PrepareTransition(scheduled, between, other) == scheduled
            && PrepareTransition(scheduled, height + s.epochLength, second)
               == scheduled.(active := first, pending := Some(Transition(height + 2 * s.epochLength, second)))
  {
    NextBoundary(height, s.epochLength);
  }

  lemma NextBoundary(height: nat, epoch: nat)
    requires 0 < epoch && height % epoch == 0
    ensures (height + epoch) % epoch == 0
  {
    var q, r := (height + epoch) / epoch, (height + epoch) % epoch;
    Multiple(epoch, height / epoch + 1 - q, r);
  }

  lemma Multiple(epoch: nat, k: int, r: int)
    requires 0 < epoch && 0 <= r < epoch && epoch * k == r
    ensures r == 0
  {
    if k >= 1 {
      MulMonotone(epoch, 1, k);
    } else {
      MulMonotone(epoch, k, 0);
    }
  }

  /** Finalizing a height forgets the rounds up to it and, past 128 heights, the
      votes and timeouts of heights 128 and more below; everything else stays. */
  lemma FinalizeForgets(s: Bft, height: nat, h: nat, k: Key)
    ensures var t := Prune(s, height);
            && RoundOf(t, h) == (if h <= height then 0 else RoundOf(s, h))
            && StartOf(t, h) == (if h <= height then 0 else StartOf(s, h))
            && TableOf(t, k) == (if height > RETENTION && k.height <= height - RETENTION then map[] else TableOf(s, k))
            && TimeoutTable(t, h, k.round) == (if height > RETENTION && h <= height - RETENTION then {} else TimeoutTable(s, h, k.round))
            && t == s.(rounds := t.rounds, startedAt := t.startedAt, votes := t.votes, timeoutVotes := t.timeoutVotes)
  {
  }
}
