/** Voting, quorum certificates and view change of one node as a state machine
    over values. */
module BftModel {
  import opened Basics
  import opened VotingPower

  const MAX_ROUND: int := 1_000_000
  const RETENTION: int := 128

  datatype ConsensusStep = Prevote | Precommit

  datatype Key = Key(height: nat, round: nat, step: ConsensusStep)

  datatype Vote = Vote(key: Key, hash: string, validator: Address)

  datatype TimeoutVote = TimeoutVote(height: nat, round: nat, validator: Address)

  datatype QC = QC(key: Key, hash: string, power: int, total: int, voters: set<Address>)

  datatype TC = TC(height: nat, round: nat, power: int, total: int, voters: set<Address>)

  datatype Transition = Transition(activation: nat, newSet: PowerSet)

  datatype Bft = Bft(
    epochLength: Positive,
    active: PowerSet,
    pending: Option<Transition>,
    votes: map<Key, map<Address, Vote>>,
    lockedHash: string,
    lockedRound: nat,
    lastQC: Option<QC>,
    evidence: seq<(Vote, Vote)>,
    rounds: map<nat, nat>,
    startedAt: map<nat, int>,
    timeoutSeconds: int,
    timeoutVotes: map<(nat, nat), set<Address>>,
    lastTC: Option<TC>)

  /** The signature checks, whatever they are. */
  datatype Env = Env(signedVote: Vote -> bool, signedTimeout: TimeoutVote -> bool)

  datatype VoteOutcome = Refused | Recorded | Duplicate | Equivocation | LockConflict | Certified(qc: QC)

  // --------------------------------------------------------------- voting

  predicate VoteVerifies(e: Env, v: Vote) {
    v.key.height != 0 && v.key.round <= MAX_ROUND && v.hash != "" && e.signedVote(v)
  }

  /** The members of the table that named this block. */
  function Voters(table: map<Address, Vote>, hash: string): set<Address> {
    set a | a in table && table[a].hash == hash
  }

  predicate Member(s: Bft, a: Address) {
    PowerFor(s.active, a) > 0 || (s.pending.Some? && PowerFor(s.pending.value.newSet, a) > 0)
  }

  /** Both the active set and, before activation, the pending set agree. */
  ghost predicate JointQuorum(s: Bft, height: nat, voters: set<Address>) {
    && IsQuorum(Weight(voters, s.active), SetPower(s.active))
    && (s.pending.Some? && height < s.pending.value.activation ==>
          IsQuorum(Weight(voters, s.pending.value.newSet), SetPower(s.pending.value.newSet)))
  }

  function TableOf(s: Bft, k: Key): map<Address, Vote> {
    if k in s.votes then s.votes[k] else map[]
  }

  function WithPower(voters: set<Address>, set_: PowerSet): set<Address> {
    set a | a in voters && PowerFor(set_, a) > 0
  }

  ghost function QCFor(s: Bft, v: Vote, voters: set<Address>): QC {
    QC(v.key, v.hash, Weight(voters, s.active), SetPower(s.active), WithPower(voters, s.active))
  }

  /** An empty active set is filled from the validator registry on first use. */
  function Ready(s: Bft, built: PowerSet): Bft {
    if s.active == [] then s.(active := built) else s
  }

  function Stored(s: Bft, v: Vote): Bft {
    s.(votes := s.votes[v.key := TableOf(s, v.key)[v.validator := v]])
  }

  /** What a stored vote that completes a quorum does. */
  function Certify(s: Bft, v: Vote, qc: QC): (Bft, VoteOutcome) {
    match v.key.step
    case Prevote => (s.(lockedHash := v.hash, lockedRound := v.key.round), Certified(qc))
    case Precommit =>
      if s.lockedHash != "" && s.lockedHash != v.hash then (s, LockConflict)
      else (s.(lastQC := Some(qc)), Certified(qc))
  }

  /** A first vote of a member for this key. */
  ghost function CountVote(s: Bft, v: Vote): (Bft, VoteOutcome) {
    var t := Stored(s, v);
    var voters := Voters(TableOf(t, v.key), v.hash);
    if JointQuorum(s, v.key.height, voters) then Certify(t, v, QCFor(s, v, voters)) else (t, Recorded)
  }

  ghost function EnterVote(s: Bft, v: Vote): (Bft, VoteOutcome) {
    var table := TableOf(s, v.key);
    if !Member(s, v.validator) then (s, Refused)
    else if v.validator !in table then CountVote(s, v)
    else if table[v.validator].hash == v.hash then (s, Duplicate)
    else (s.(evidence := s.evidence + [(table[v.validator], v)]), Equivocation)
  }

  ghost function AddVote(e: Env, s: Bft, built: PowerSet, v: Vote): (Bft, VoteOutcome) {
    if VoteVerifies(e, v) then EnterVote(Ready(s, built), v) else (s, Refused)
  }

  // ---------------------------------------------------------- view change

  predicate TimeoutVerifies(e: Env, v: TimeoutVote) {
    v.height != 0 && v.round <= MAX_ROUND && v.validator != "" && e.signedTimeout(v)
  }

  function TimeoutTable(s: Bft, height: nat, round: nat): set<Address> {
    if (height, round) in s.timeoutVotes then s.timeoutVotes[(height, round)] else {}
  }

  ghost function TCFor(s: Bft, v: TimeoutVote, voters: set<Address>): TC {
    TC(v.height, v.round, Weight(voters, s.active), SetPower(s.active), WithPower(voters, s.active))
  }

  ghost function EnterTimeout(s: Bft, v: TimeoutVote): (Bft, Option<TC>) {
    var before := TimeoutTable(s, v.height, v.round);
    if !Member(s, v.validator) || v.validator in before then (s, None)
    else
      var voters := before + {v.validator};
      var t := s.(timeoutVotes := s.timeoutVotes[(v.height, v.round) := voters]);
      if JointQuorum(s, v.height, voters)
      then (t.(lastTC := Some(TCFor(s, v, voters))), Some(TCFor(s, v, voters)))
      else (t, None)
  }

  ghost function AddTimeout(e: Env, s: Bft, built: PowerSet, v: TimeoutVote): (Bft, Option<TC>) {
    if TimeoutVerifies(e, v) then EnterTimeout(Ready(s, built), v) else (s, None)
  }

  function RoundOf(s: Bft, height: nat): nat { if height in s.rounds then s.rounds[height] else 0 }

  function StartOf(s: Bft, height: nat): int { if height in s.startedAt then s.startedAt[height] else 0 }

  /** CurrentConsensusRound: starts the timer of a height on first use. */
  function StartRound(s: Bft, height: nat, now: int): Bft {
    if StartOf(s, height) == 0 then s.(startedAt := s.startedAt[height := now]) else s
  }

  predicate MayAdvance(s: Bft, height: nat, now: int) {
    && height != 0
    && StartOf(s, height) != 0
    && now - StartOf(s, height) >= s.timeoutSeconds
    && s.lastTC.Some? && s.lastTC.value.height == height && s.lastTC.value.round == RoundOf(s, height)
    && !(s.lastQC.Some? && s.lastQC.value.key.height >= height && s.lastQC.value.key.step == Precommit)
  }

  function AdvanceRound(s: Bft, height: nat, now: int): Bft {
    if MayAdvance(s, height, now) then
      s.(rounds := s.rounds[height := (RoundOf(s, height) + 1) % 0x1_0000_0000], startedAt := s.startedAt[height := now])
    else if height != 0 && StartOf(s, height) == 0 then s.(startedAt := s.startedAt[height := now])
    else s
  }

  function PruneThrough(finalized: nat): int { finalized - RETENTION }

  function Prune(s: Bft, finalized: nat): Bft {
    var t := s.(rounds := map h | h in s.rounds && h > finalized :: s.rounds[h],
                startedAt := map h | h in s.startedAt && h > finalized :: s.startedAt[h]);
    if finalized <= RETENTION then t
    else t.(votes := map k | k in t.votes && k.height > PruneThrough(finalized) :: t.votes[k],
            timeoutVotes := map k | k in t.timeoutVotes && k.0 > PruneThrough(finalized) :: t.timeoutVotes[k])
  }

  /** PrepareValidatorSetTransition with the set the node would build now. */
  function PrepareTransition(s: Bft, height: nat, built: PowerSet): Bft {
    if s.active == [] then s.(active := built)
    else if height == 0 || height % s.epochLength != 0 then s
    else
      var t := if s.pending.Some? && height >= s.pending.value.activation
               then s.(active := s.pending.value.newSet, pending := None) else s;
      if t.pending.None? then t.(pending := Some(Transition(height + t.epochLength, built))) else t
  }

  // --------------------------------------------------------------- events

  datatype Event =
    | CastVote(vote: Vote, built: PowerSet)
    | CastTimeout(timeout: TimeoutVote, built: PowerSet)
    | StartHeight(height: nat, now: int)
    | Advance(height: nat, now: int)
    | Boundary(height: nat, built: PowerSet)
    | Finalize(height: nat)

  ghost function Step(e: Env, s: Bft, ev: Event): Bft {
    match ev
    case CastVote(v, built) => AddVote(e, s, built, v).0
    case CastTimeout(v, built) => AddTimeout(e, s, built, v).0
    case StartHeight(h, now) => StartRound(s, h, now)
    case Advance(h, now) => AdvanceRound(s, h, now)
    case Boundary(h, built) => PrepareTransition(s, h, built)
    case Finalize(h) => Prune(s, h)
  }

  ghost function Run(e: Env, s: Bft, events: seq<Event>): Bft
    decreases |events|
  {
    if events == [] then s else Step(e, Run(e, s, events[..|events| - 1]), events[|events| - 1])
  }
}
