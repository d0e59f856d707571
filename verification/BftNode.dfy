/** The consensus state of one node, updated in place. */
module BftNodeObject {
  import opened Basics
  import opened VotingPower
  import opened BftModel
  import opened Quorums

  method ValidatorSetPower(set_: PowerSet) returns (total: int)
    ensures total == SetPower(set_)
  {
    total := 0;
    for i := 0 to |set_|
      invariant total + SetPower(set_[i..]) == SetPower(set_)
    {
      total := total + set_[i].power;
      assert set_[i..][1..] == set_[i + 1..];
    }
  }

  method ValidatorPowerFor(set_: PowerSet, address: Address) returns (power: int)
    ensures power == PowerFor(set_, address)
  {
    for i := 0 to |set_|
      invariant PowerFor(set_, address) == PowerFor(set_[i..], address)
    {
      if set_[i].address == address {
        return set_[i].power;
      }
      assert set_[i..][1..] == set_[i + 1..];
    }
    power := 0;
  }

  /** The power behind a block among the recorded votes, whatever the order in
      which the table is visited. */
  method VotePowerForHash(votes: map<Address, Vote>, set_: PowerSet, hash: string)
    returns (power: int, validators: set<Address>)
    requires ValidSet(set_)
    ensures power == Weight(Voters(votes, hash), set_)
    ensures validators == WithPower(Voters(votes, hash), set_)
  {
    power, validators := 0, {};
    var todo := votes.Keys;
    assert Voters(votes - todo, hash) == {};
    assert Weights({}, set_) == map[];
    while todo != {}
      invariant todo <= votes.Keys
      invariant power == Weight(Voters(votes - todo, hash), set_)
      invariant validators == WithPower(Voters(votes - todo, hash), set_)
    {
      var address :| address in todo;
      ghost var done := Voters(votes - todo, hash);
      todo := todo - {address};
      if votes[address].hash == hash {
        assert Voters(votes - todo, hash) == done + {address};
        var p := ValidatorPowerFor(set_, address);
        PowerForNonNegative(set_, address);
        WeightPick(done + {address}, address, set_);
        assert done + {address} - {address} == done;
        if p > 0 {
          power, validators := power + p, validators + {address};
        }
      } else {
        assert Voters(votes - todo, hash) == done;
      }
    }
    assert votes - todo == votes;
  }

  method HasQuorum(votes: map<Address, Vote>, set_: PowerSet, hash: string)
    returns (ok: bool, power: int, total: int, validators: set<Address>)
    requires ValidSet(set_)
    ensures power == Weight(Voters(votes, hash), set_) && total == SetPower(set_)
    ensures validators == WithPower(Voters(votes, hash), set_)
    ensures ok == IsQuorum(power, total)
  {
    power, validators := VotePowerForHash(votes, set_, hash);
    total := ValidatorSetPower(set_);
    ok := IsQuorum(power, total);
  }

  class BftNode {
    const signatures: Env
    const epochLength: Positive
    const timeoutSeconds: int
    var activeSet: PowerSet
    var pendingTransition: Option<Transition>
    var votes: map<Key, map<Address, Vote>>
    var lockedHash: string
    var lockedRound: nat
    var lastQC: Option<QC>
    var evidence: seq<(Vote, Vote)>
    var currentRounds: map<nat, nat>
    var roundStartedAt: map<nat, int>
    var timeoutVotes: map<(nat, nat), set<Address>>
    var lastTimeoutCertificate: Option<TC>

    ghost function Now(): Bft
      reads this
    {
      Bft(epochLength, activeSet, pendingTransition, votes, lockedHash, lockedRound, lastQC, evidence,
          currentRounds, roundStartedAt, timeoutSeconds, timeoutVotes, lastTimeoutCertificate)
    }

    ghost predicate Valid()
      reads this
    {
      WellFormedSets(Now())
    }

    constructor (signatures: Env, epochLength: Positive, timeoutSeconds: int)
      ensures Valid() && this.signatures == signatures
      ensures Now() == Bft(epochLength, [], None, map[], "", 0, None, [], map[], map[], timeoutSeconds, map[], None)
    {
      this.signatures, this.epochLength, this.timeoutSeconds := signatures, epochLength, timeoutSeconds;
      activeSet, pendingTransition, votes := [], None, map[];
      lockedHash, lockedRound, lastQC, evidence := "", 0, None, [];
      currentRounds, roundStartedAt := map[], map[];
      timeoutVotes, lastTimeoutCertificate := map[], None;
    }

    /** The active set is built from the registry on first use. */
    method EnsureActiveSet(built: PowerSet)
      requires Valid() && ValidSet(built)
      modifies this`activeSet
      ensures Valid() && Now() == Ready(old(Now()), built)
    {
      if activeSet == [] {
        activeSet := built;
      }
    }

    method IsMember(address: Address) returns (member: bool)
      ensures member == Member(Now(), address)
    {
      var p := ValidatorPowerFor(activeSet, address);
      member := p > 0;
      if !member && pendingTransition.Some? {
        p := ValidatorPowerFor(pendingTransition.value.newSet, address);
        member := p > 0;
      }
    }

    /** Both sets judge the table; the certificate's figures are the active set's. */
    method JudgeVotes(height: nat, table: map<Address, Vote>, hash: string)
      returns (ok: bool, power: int, total: int, validators: set<Address>)
      requires Valid()
      ensures ok == JointQuorum(Now(), height, Voters(table, hash))
      ensures power == Weight(Voters(table, hash), activeSet) && total == SetPower(activeSet)
      ensures validators == WithPower(Voters(table, hash), activeSet)
    {
      ok, power, total, validators := HasQuorum(table, activeSet, hash);
      if ok && pendingTransition.Some? && height < pendingTransition.value.activation {
        var pendingOk, _, _, _ := HasQuorum(table, pendingTransition.value.newSet, hash);
        ok := pendingOk;
      }
    }

    method AddConsensusVote(built: PowerSet, vote: Vote) returns (outcome: VoteOutcome)
      requires Valid() && ValidSet(built)
      modifies this
      ensures Valid()
      ensures (Now(), outcome) == AddVote(signatures, old(Now()), built, vote)
    {
      if !VoteVerifies(signatures, vote) {
        return Refused;
      }
      EnsureActiveSet(built);
      var member := IsMember(vote.validator);
      if !member {
        return Refused;
      }
      var table := if vote.key in votes then votes[vote.key] else map[];
      if vote.validator in table {
        var prior := table[vote.validator];
        if prior.hash == vote.hash {
          return Duplicate;
        }
        evidence := evidence + [(prior, vote)];
        return Equivocation;
      }
      outcome := CountFirstVote(vote);
    }

    method CountFirstVote(vote: Vote) returns (outcome: VoteOutcome)
      requires Valid()
      modifies this
      ensures Valid()
      ensures (Now(), outcome) == CountVote(old(Now()), vote)
    {
      var table := (if vote.key in votes then votes[vote.key] else map[])[vote.validator := vote];
      votes := votes[vote.key := table];
      assert Now() == Stored(old(Now()), vote);
      var ok, power, total, validators := JudgeVotes(vote.key.height, table, vote.hash);
      if !ok {
        return Recorded;
      }
      var qc := QC(vote.key, vote.hash, power, total, validators);
      match vote.key.step {
        case Prevote =>
          lockedHash, lockedRound := vote.hash, vote.key.round;
        case Precommit =>
          if lockedHash != "" && lockedHash != vote.hash {
            return LockConflict;
          }
          lastQC := Some(qc);
      }
      outcome := Certified(qc);
    }

    /** Each signer is entered as a vote for the same placeholder block. */
    method AddConsensusTimeoutVote(built: PowerSet, vote: TimeoutVote) returns (tc: Option<TC>)
      requires Valid() && ValidSet(built)
      modifies this
      ensures Valid()
      ensures (Now(), tc) == AddTimeout(signatures, old(Now()), built, vote)
    {
      if !TimeoutVerifies(signatures, vote) {
        return None;
      }
      EnsureActiveSet(built);
      var member := IsMember(vote.validator);
      if !member {
        return None;
      }
      tc := CountTimeout(vote);
    }

    method CountTimeout(vote: TimeoutVote) returns (tc: Option<TC>)
      requires Valid() && Member(Now(), vote.validator)
      modifies this
      ensures Valid()
      ensures (Now(), tc) == EnterTimeout(old(Now()), vote)
    {
      var key := (vote.height, vote.round);
      var before := if key in timeoutVotes then timeoutVotes[key] else {};
      if vote.validator in before {
        return None;
      }
      var signers := before + {vote.validator};
      timeoutVotes := timeoutVotes[key := signers];
      var voters := map a | a in signers :: Vote(Key(vote.height, vote.round, Prevote), "timeout", a);
      assert Voters(voters, "timeout") == signers;
      var ok, power, total, validators := JudgeVotes(vote.height, voters, "timeout");
      if !ok {
        return None;
      }
      tc := Some(TC(vote.height, vote.round, power, total, validators));
      lastTimeoutCertificate := tc;
    }

    method CurrentConsensusRound(height: nat, now: int) returns (round: nat)
      modifies this`roundStartedAt
      ensures Now() == StartRound(old(Now()), height, now) && round == RoundOf(Now(), height)
    {
      if height !in roundStartedAt || roundStartedAt[height] == 0 {
        roundStartedAt := roundStartedAt[height := now];
      }
      round := if height in currentRounds then currentRounds[height] else 0;
    }

    /** The view change itself: the timer, the certificate and the absence of a
        final block at or above the height decide. */
    method AdvanceConsensusRound(height: nat, now: int) returns (round: nat, moved: bool)
      modifies this`currentRounds, this`roundStartedAt
      ensures Now() == AdvanceRound(old(Now()), height, now)
      ensures moved == MayAdvance(old(Now()), height, now)
      ensures round == if height == 0 then 0 else RoundOf(Now(), height)
    {
      if height == 0 {
        return 0, false;
      }
      round := if height in currentRounds then currentRounds[height] else 0;
      var started := if height in roundStartedAt then roundStartedAt[height] else 0;
      if started == 0 {
        roundStartedAt := roundStartedAt[height := now];
        return round, false;
      }
      if now - started < timeoutSeconds {
        return round, false;
      }
      var tc := lastTimeoutCertificate;
      if tc.None? || tc.value.height != height || tc.value.round != round {
        return round, false;
      }
      if lastQC.Some? && lastQC.value.key.height >= height && lastQC.value.key.step == Precommit {
        return round, false;
      }
      round, moved := (round + 1) % 0x1_0000_0000, true;
      currentRounds := currentRounds[height := round];
      roundStartedAt := roundStartedAt[height := now];
    }

    method PrepareValidatorSetTransition(height: nat, built: PowerSet)
      requires Valid() && ValidSet(built)
      modifies this`activeSet, this`pendingTransition
      ensures Valid() && Now() == PrepareTransition(old(Now()), height, built)
    {
      if activeSet == [] {
        activeSet := built;
        return;
      }
      if height == 0 || height % epochLength != 0 {
        return;
      }
      if pendingTransition.Some? && height >= pendingTransition.value.activation {
        activeSet, pendingTransition := pendingTransition.value.newSet, None;
      }
      if pendingTransition.None? {
        pendingTransition := Some(Transition(height + epochLength, built));
      }
    }

    method PruneConsensusRounds(finalized: nat)
      modifies this`currentRounds, this`roundStartedAt, this`votes, this`timeoutVotes
      ensures Now() == Prune(old(Now()), finalized)
    {
      currentRounds := map h | h in currentRounds && h > finalized :: currentRounds[h];
      roundStartedAt := map h | h in roundStartedAt && h > finalized :: roundStartedAt[h];
      if finalized <= RETENTION {
        return;
      }
      votes := map k | k in votes && k.height > PruneThrough(finalized) :: votes[k];
      timeoutVotes := map k | k in timeoutVotes && k.0 > PruneThrough(finalized) :: timeoutVotes[k];
    }
  }
}
