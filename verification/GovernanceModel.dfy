/** Proposals over delegation snapshots: creation, votes and the queue decision,
    and what every run of them keeps. */
module GovernanceModel {
  import opened Basics
  import opened Sums
  import opened Delegation

  datatype Choice = For | Against | Abstain

  datatype Ballot = Ballot(choice: Choice, power: int)

  datatype Status = Voting | Rejected | Timelocked

  datatype Proposal = Proposal(
    proposer: Address,
    endHeight: nat,
    executeHeight: nat,
    status: Status,
    snapshot: map<Address, int>,
    votes: map<Address, Ballot>,
    forPower: int,
    againstPower: int,
    abstainPower: int)

  /** The rules of one chain: address check, proposal ids and thresholds. */
  datatype Rules = Rules(
    validAddress: Address -> bool,
    proposalId: (Address, string, nat) -> string,
    votingPeriod: nat,
    timelock: nat,
    quorumBps: int,
    approvalBps: int)

  datatype Gov = Gov(delegations: Graph, proposals: map<string, Proposal>, nonce: nat)

  // -------------------------------------------------------------- operations

  function NewProposal(proposer: Address, endHeight: nat, snapshot: map<Address, int>): Proposal {
    Proposal(proposer, endHeight, 0, Voting, snapshot, map[], 0, 0, 0)
  }

  predicate MayVote(g: Gov, id: string, actor: Address, height: nat) {
    && id in g.proposals && g.proposals[id].status == Voting && height <= g.proposals[id].endHeight
    && Lookup(g.proposals[id].snapshot, actor) > 0 && actor !in g.proposals[id].votes
  }

  function Cast(p: Proposal, actor: Address, choice: Choice): Proposal {
    var power := Lookup(p.snapshot, actor);
    var q := p.(votes := p.votes[actor := Ballot(choice, power)]);
    match choice
    case For => q.(forPower := q.forPower + power)
    case Against => q.(againstPower := q.againstPower + power)
    case Abstain => q.(abstainPower := q.abstainPower + power)
  }

  /** Participation meets the quorum and the approving share its threshold. */
  ghost predicate Passes(r: Rules, p: Proposal) {
    var total, counted := Total(p.snapshot), p.forPower + p.againstPower;
    && total > 0 && (counted + p.abstainPower) * 10000 >= total * r.quorumBps
    && counted > 0 && p.forPower * 10000 >= counted * r.approvalBps
  }

  ghost function Decide(r: Rules, p: Proposal, height: nat): Proposal {
    if Passes(r, p) then p.(status := Timelocked, executeHeight := height + r.timelock) else p.(status := Rejected)
  }

  datatype Op =
    | Delegate(actor: Address, delegatee: Address)
    | Undelegate(actor: Address)
    | Create(actor: Address, title: string, power: map<Address, int>, height: nat)
    | Vote(actor: Address, id: string, choice: Choice, height: nat)
    | Queue(id: string, height: nat)

  function Opened(g: Gov, id: string, p: Proposal): Gov {
    g.(nonce := g.nonce + 1, proposals := g.proposals[id := p])
  }

  ghost function ApplyDelegate(r: Rules, g: Gov, actor: Address, delegatee: Address): Option<Gov> {
    if MayDelegate(g.delegations, r.validAddress, actor, delegatee)
    then Some(g.(delegations := g.delegations[actor := delegatee])) else None
  }

  ghost function ApplyCreate(r: Rules, g: Gov, actor: Address, title: string, power: map<Address, int>, height: nat): Option<Gov> {
    var snapshot := Snapshot(g.delegations, power);
    if Lookup(snapshot, actor) <= 0 then None
    else Some(Opened(g, r.proposalId(actor, title, g.nonce + 1), NewProposal(actor, height + r.votingPeriod, snapshot)))
  }

  ghost function ApplyVote(g: Gov, actor: Address, id: string, choice: Choice, height: nat): Option<Gov> {
    if MayVote(g, id, actor, height)
    then Some(g.(proposals := g.proposals[id := Cast(g.proposals[id], actor, choice)])) else None
  }

  ghost function ApplyQueue(r: Rules, g: Gov, id: string, height: nat): Option<Gov> {
    if id in g.proposals && g.proposals[id].status == Voting && height > g.proposals[id].endHeight
    then Some(g.(proposals := g.proposals[id := Decide(r, g.proposals[id], height)])) else None
  }

  ghost function Apply(r: Rules, g: Gov, op: Op): Option<Gov> {
    match op
    case Delegate(actor, delegatee) => ApplyDelegate(r, g, actor, delegatee)
    case Undelegate(actor) => Some(g.(delegations := g.delegations - {actor}))
    case Create(actor, title, power, height) => ApplyCreate(r, g, actor, title, power, height)
    case Vote(actor, id, choice, height) => ApplyVote(g, actor, id, choice, height)
    case Queue(id, height) => ApplyQueue(r, g, id, height)
  }

  /** A refused transaction changes nothing. */
  ghost function Run(r: Rules, g: Gov, ops: seq<Op>): Gov
    decreases |ops|
  {
    if ops == [] then g
    else
      var before := Run(r, g, ops[..|ops| - 1]);
      var after := Apply(r, before, ops[|ops| - 1]);
      if after.Some? then after.value else before
  }

  // --------------------------------------------------------------- invariants

  ghost function PowerOf(votes: map<Address, Ballot>, choice: Choice): map<Address, int> {
    map a | a in votes && votes[a].choice == choice :: votes[a].power
  }

  ghost function PowerCast(votes: map<Address, Ballot>): map<Address, int> {
    map a | a in votes :: votes[a].power
  }

  /** Each ballot carries its voter's snapshot power. */
  ghost predicate BallotsHonest(votes: map<Address, Ballot>, snapshot: map<Address, int>) {
    forall a :: a in votes ==> a in snapshot && 0 < votes[a].power == snapshot[a]
  }

  /** The tallies are the recorded votes. */
  ghost predicate TalliesExact(votes: map<Address, Ballot>, forPower: int, againstPower: int, abstainPower: int) {
    && forPower == Total(PowerOf(votes, For))
    && againstPower == Total(PowerOf(votes, Against))
    && abstainPower == Total(PowerOf(votes, Abstain))
    && forPower + againstPower + abstainPower == Total(PowerCast(votes))
  }

  ghost predicate Counted(p: Proposal) {
    && (forall a :: a in p.snapshot ==> 0 <= p.snapshot[a])
    && BallotsHonest(p.votes, p.snapshot)
    && TalliesExact(p.votes, p.forPower, p.againstPower, p.abstainPower)
  }

  ghost predicate GoodProposal(r: Rules, p: Proposal) {
    Counted(p) && (p.status != Voting ==> (p.status == Timelocked <==> Passes(r, p)))
  }

  ghost predicate GoodProposals(r: Rules, proposals: map<string, Proposal>) {
    forall id {:trigger GoodProposal(r, proposals[id])} :: id in proposals ==> GoodProposal(r, proposals[id])
  }

  ghost predicate Good(r: Rules, g: Gov) {
    Acyclic(g.delegations) && GoodProposals(r, g.proposals)
  }

  lemma PutKeepsGood(r: Rules, proposals: map<string, Proposal>, id: string, p: Proposal)
    requires GoodProposals(r, proposals) && GoodProposal(r, p)
    ensures GoodProposals(r, proposals[id := p])
  {
    var after := proposals[id := p];
    forall x | x in after ensures GoodProposal(r, after[x]) {
      if x != id {
        assert GoodProposal(r, proposals[x]);
      }
    }
  }

  ghost predicate ValidOp(op: Op) {
    op.Create? ==> forall a :: a in op.power ==> 0 <= op.power[a]
  }

  lemma CastPower(votes: map<Address, Ballot>, a: Address, b: Ballot, choice: Choice)
    requires a !in votes
    ensures Total(PowerOf(votes[a := b], choice)) == Total(PowerOf(votes, choice)) + if b.choice == choice then b.power else 0
  {
    if b.choice == choice {
      TotalUpdate(PowerOf(votes, choice), a, b.power);
      assert PowerOf(votes[a := b], choice) == PowerOf(votes, choice)[a := b.power];
    } else {
      assert PowerOf(votes[a := b], choice) == PowerOf(votes, choice);
    }
  }

  lemma CastKeepsTallies(votes: map<Address, Ballot>, actor: Address, b: Ballot, f: int, g: int, h: int)
    requires actor !in votes && TalliesExact(votes, f, g, h)
    ensures TalliesExact(votes[actor := b],
                         if b.choice == For then f + b.power else f,
                         if b.choice == Against then g + b.power else g,
                         if b.choice == Abstain then h + b.power else h)
  {
    CastPower(votes, actor, b, For);
    CastPower(votes, actor, b, Against);
    CastPower(votes, actor, b, Abstain);
    TotalUpdate(PowerCast(votes), actor, b.power);
    assert PowerCast(votes[actor := b]) == PowerCast(votes)[actor := b.power];
  }

  lemma CastKeepsCounted(p: Proposal, actor: Address, choice: Choice)
    requires Counted(p) && Lookup(p.snapshot, actor) > 0 && actor !in p.votes
    ensures Counted(Cast(p, actor, choice))
  {
    CastKeepsTallies(p.votes, actor, Ballot(choice, Lookup(p.snapshot, actor)), p.forPower, p.againstPower, p.abstainPower);
  }

  lemma CastKeepsGood(r: Rules, p: Proposal, actor: Address, choice: Choice)
    requires GoodProposal(r, p) && p.status == Voting && Lookup(p.snapshot, actor) > 0 && actor !in p.votes
    ensures GoodProposal(r, Cast(p, actor, choice))
  {
    CastKeepsCounted(p, actor, choice);
  }

  lemma DecideKeepsGood(r: Rules, p: Proposal, height: nat)
    requires GoodProposal(r, p)
    ensures GoodProposal(r, Decide(r, p, height))
  {
  }

  lemma NewIsGood(r: Rules, proposer: Address, endHeight: nat, snapshot: map<Address, int>)
    requires forall a :: a in snapshot ==> 0 <= snapshot[a]
    ensures GoodProposal(r, NewProposal(proposer, endHeight, snapshot))
  {
    assert PowerOf(map[], For) == map[] && PowerOf(map[], Against) == map[] && PowerOf(map[], Abstain) == map[];
    assert PowerCast(map[]) == map[];
  }

  lemma OpenedIsGood(r: Rules, g: Gov, id: string, p: Proposal)
    requires Good(r, g) && GoodProposal(r, p)
    ensures Good(r, Opened(g, id, p))
  {
    PutKeepsGood(r, g.proposals, id, p);
  }

  lemma NewOpenedIsGood(r: Rules, g: Gov, id: string, actor: Address, endHeight: nat, power: map<Address, int>)
    requires Good(r, g) && forall a :: a in power ==> 0 <= power[a]
    ensures Good(r, Opened(g, id, NewProposal(actor, endHeight, Snapshot(g.delegations, power))))
  {
    SnapshotNonNegative(g.delegations, power);
    NewIsGood(r, actor, endHeight, Snapshot(g.delegations, power));
    OpenedIsGood(r, g, id, NewProposal(actor, endHeight, Snapshot(g.delegations, power)));
  }

  lemma CreateOpens(r: Rules, g: Gov, actor: Address, title: string, power: map<Address, int>, height: nat)
    ensures var after := ApplyCreate(r, g, actor, title, power, height);
            after.Some? ==>
              after.value == Opened(g, r.proposalId(actor, title, g.nonce + 1),
                                    NewProposal(actor, height + r.votingPeriod, Snapshot(g.delegations, power)))
  {
    hide Snapshot, NewProposal;
  }

  lemma CreateKeepsGood(r: Rules, g: Gov, actor: Address, title: string, power: map<Address, int>, height: nat)
    requires Good(r, g) && forall a :: a in power ==> 0 <= power[a]
    ensures var after := ApplyCreate(r, g, actor, title, power, height); after.Some? ==> Good(r, after.value)
  {
    hide ApplyCreate, Opened, NewProposal, Snapshot, Good;
    CreateOpens(r, g, actor, title, power, height);
    NewOpenedIsGood(r, g, r.proposalId(actor, title, g.nonce + 1), actor, height + r.votingPeriod, power);
  }

  lemma VoteKeepsGood(r: Rules, g: Gov, actor: Address, id: string, choice: Choice, height: nat)
    requires Good(r, g)
    ensures var after := ApplyVote(g, actor, id, choice, height); after.Some? ==> Good(r, after.value)
  {
    if MayVote(g, id, actor, height) {
      assert GoodProposal(r, g.proposals[id]);
      CastKeepsGood(r, g.proposals[id], actor, choice);
      PutKeepsGood(r, g.proposals, id, Cast(g.proposals[id], actor, choice));
    }
  }

  lemma QueueKeepsGood(r: Rules, g: Gov, id: string, height: nat)
    requires Good(r, g)
    ensures var after := ApplyQueue(r, g, id, height); after.Some? ==> Good(r, after.value)
  {
    if id in g.proposals {
      assert GoodProposal(r, g.proposals[id]);
      DecideKeepsGood(r, g.proposals[id], height);
      PutKeepsGood(r, g.proposals, id, Decide(r, g.proposals[id], height));
    }
  }

  lemma ApplyKeepsGood(r: Rules, g: Gov, op: Op)
    requires Good(r, g) && ValidOp(op)
    ensures var after := Apply(r, g, op); after.Some? ==> Good(r, after.value)
  {
    match op
    case Delegate(actor, delegatee) =>
      if MayDelegate(g.delegations, r.validAddress, actor, delegatee) {
        AvoidingKeepsAcyclic(g.delegations, actor, delegatee);
      }
    case Undelegate(actor) => UndelegateKeepsAcyclic(g.delegations, actor);
    case Create(actor, title, power, height) => CreateKeepsGood(r, g, actor, title, power, height);
    case Vote(actor, id, choice, height) => VoteKeepsGood(r, g, actor, id, choice, height);
    case Queue(id, height) => QueueKeepsGood(r, g, id, height);
  }

  /** Over every run of delegations, undelegations, proposals, votes and queue
      decisions: delegation stays acyclic, tallies equal the recorded votes, and
      of the decided proposals exactly those whose final tallies pass are
      timelocked. */
  lemma {:induction false} RunKeepsGood(r: Rules, g: Gov, ops: seq<Op>)
    requires Good(r, g) && forall op :: op in ops ==> ValidOp(op)
    ensures Good(r, Run(r, g, ops))
    decreases |ops|
  {
    if ops != [] {
      var front := ops[..|ops| - 1];
      RunKeepsGood(r, g, front);
      ApplyKeepsGood(r, Run(r, g, front), ops[|ops| - 1]);
    }
  }

  lemma FreshIsGood(r: Rules)
    ensures Good(r, Gov(map[], map[], 0))
  {
    var d: Graph := map[];
    forall a ensures HasEnd(d, a) {
      assert EndsWithin(d, a, 0);
    }
  }

  lemma {:induction false} PartTotal(part: map<Address, int>, whole: map<Address, int>)
    requires part.Keys <= whole.Keys && forall a :: a in part ==> part[a] == whole[a]
    requires forall a :: a in whole ==> 0 <= whole[a]
    ensures Total(part) <= Total(whole)
    decreases |part|
  {
    if part == map[] {
      TotalNonNegative(whole);
    } else {
      var a :| a in part;
      TotalPick(part, a);
      TotalPick(whole, a);
      PartTotal(part - {a}, whole - {a});
    }
  }

  /** In every reachable state the tallies of a proposal add up to at most its
      snapshot power: nobody votes twice or with power it was not given. */
  lemma TalliesWithinSnapshot(r: Rules, ops: seq<Op>, id: string)
    requires forall op :: op in ops ==> ValidOp(op)
    requires id in Run(r, Gov(map[], map[], 0), ops).proposals
    ensures var p := Run(r, Gov(map[], map[], 0), ops).proposals[id];
            p.forPower + p.againstPower + p.abstainPower <= Total(p.snapshot)
  {
    FreshIsGood(r);
    RunKeepsGood(r, Gov(map[], map[], 0), ops);
    var p := Run(r, Gov(map[], map[], 0), ops).proposals[id];
    assert GoodProposal(r, p);
    PartTotal(PowerCast(p.votes), p.snapshot);
  }

  /** The proposal as it was, with at most more ballots and a decision. */
  ghost predicate Grown(p: Proposal, q: Proposal) {
    && q.proposer == p.proposer && q.endHeight == p.endHeight && q.snapshot == p.snapshot
    && (forall a :: a in p.votes ==> a in q.votes && q.votes[a] == p.votes[a])
    && (p.status != Voting ==> q == p)
  }

  /** Ids come from hashing a counter that never repeats. */
  ghost predicate NeverReissued(r: Rules, id: string, nonce: nat) {
    forall actor: Address, title: string, n: nat :: n > nonce ==> r.proposalId(actor, title, n) != id
  }

  lemma ApplyGrows(r: Rules, g: Gov, op: Op, id: string)
    requires id in g.proposals && NeverReissued(r, id, g.nonce) && Apply(r, g, op).Some?
    ensures var after := Apply(r, g, op).value;
            id in after.proposals && Grown(g.proposals[id], after.proposals[id]) && after.nonce >= g.nonce
  {
    hide Passes, Snapshot;
  }

  /** Power is fixed when a proposal is opened and votes are final: whatever is
      delegated, voted or decided later, an existing proposal keeps its snapshot
      and every ballot cast, and once decided it never changes. */
  lemma {:induction false} ProposalsOnlyGrow(r: Rules, g: Gov, ops: seq<Op>, id: string)
    requires id in g.proposals && NeverReissued(r, id, g.nonce)
    ensures var after := Run(r, g, ops);
            id in after.proposals && Grown(g.proposals[id], after.proposals[id]) && after.nonce >= g.nonce
    decreases |ops|
  {
    hide Apply;
    if ops != [] {
      var front := Run(r, g, ops[..|ops| - 1]);
      ProposalsOnlyGrow(r, g, ops[..|ops| - 1], id);
      if Apply(r, front, ops[|ops| - 1]).Some? {
        ApplyGrows(r, front, ops[|ops| - 1], id);
      }
    }
  }

  // ------------------------------------------------- decisions from ballots

  lemma PowerAdds(votes: map<Address, Ballot>, a: Address, b: Ballot)
    requires a !in votes
    ensures forall c: Choice :: Total(PowerOf(votes[a := b], c)) == Total(PowerOf(votes, c)) + if c == b.choice then b.power else 0
  {
    forall c: Choice ensures Total(PowerOf(votes[a := b], c)) == Total(PowerOf(votes, c)) + if c == b.choice then b.power else 0 {
      CastPower(votes, a, b, c);
    }
  }

  /** A vote counts exactly when the proposal is open, the voting period lasts, and
      the voter holds snapshot power and has not voted; it adds that power to the
      ballots of its choice and to no others. */
  lemma VoteCounts(g: Gov, actor: Address, id: string, choice: Choice, height: nat)
    ensures ApplyVote(g, actor, id, choice, height).Some?
            <==> id in g.proposals && g.proposals[id].status == Voting && height <= g.proposals[id].endHeight
                 && actor in g.proposals[id].snapshot && g.proposals[id].snapshot[actor] > 0 && actor !in g.proposals[id].votes
    ensures var after := ApplyVote(g, actor, id, choice, height);
            after.Some? ==>
              var p := g.proposals[id];
              && after.value.proposals.Keys == g.proposals.Keys && after.value.delegations == g.delegations
              && (forall x :: x in g.proposals && x != id ==> after.value.proposals[x] == g.proposals[x])
              && (forall a :: a in after.value.proposals[id].votes <==> a in p.votes || a == actor)
              && (forall c: Choice :: Total(PowerOf(after.value.proposals[id].votes, c))
                                      == Total(PowerOf(p.votes, c)) + if c == choice then p.snapshot[actor] else 0)
  {
    hide Total, PowerOf;
    if MayVote(g, id, actor, height) {
      PowerAdds(g.proposals[id].votes, actor, Ballot(choice, Lookup(g.proposals[id].snapshot, actor)));
    }
  }

  /** The ballots carry a proposal when enough of the snapshot took part and enough
      of those for or against are for it. */
  ghost predicate Carried(r: Rules, votes: map<Address, Ballot>, snapshot: map<Address, int>) {
    var f, a, b := Total(PowerOf(votes, For)), Total(PowerOf(votes, Against)), Total(PowerOf(votes, Abstain));
    && 0 < Total(snapshot) && r.quorumBps * Total(snapshot) <= 10000 * (f + a + b)
    && 0 < f + a && r.approvalBps * (f + a) <= 10000 * f
  }

  /** In every reachable state a proposal can be queued exactly once its voting
      period is over, and its ballots alone decide: it is timelocked if they carry
      it and rejected if not. */
  lemma BallotsDecide(r: Rules, ops: seq<Op>, id: string, height: nat)
    requires forall op :: op in ops ==> ValidOp(op)
    requires id in Run(r, Gov(map[], map[], 0), ops).proposals
    ensures var g := Run(r, Gov(map[], map[], 0), ops); var p := g.proposals[id]; var after := ApplyQueue(r, g, id, height);
            && (after.Some? <==> p.status == Voting && height > p.endHeight)
            && (after.Some? ==>
                  var q := after.value.proposals[id];
                  && q.votes == p.votes && q.snapshot == p.snapshot
                  && q.status == (if Carried(r, p.votes, p.snapshot) then Timelocked else Rejected)
                  && (q.status == Timelocked ==> q.executeHeight == height + r.timelock))
            && (p.status != Voting ==> p.status == if Carried(r, p.votes, p.snapshot) then Timelocked else Rejected)
  {
    FreshIsGood(r);
    RunKeepsGood(r, Gov(map[], map[], 0), ops);
    var p := Run(r, Gov(map[], map[], 0), ops).proposals[id];
    assert GoodProposal(r, p);
    PassesIsCarried(r, p);
  }

  lemma PassesIsCarried(r: Rules, p: Proposal)
    requires Counted(p)
    ensures Passes(r, p) <==> Carried(r, p.votes, p.snapshot)
  {
  }

  lemma {:induction false} DropZeros(m: map<Address, int>, part: map<Address, int>)
    requires part.Keys <= m.Keys && forall a :: a in m ==> m[a] == if a in part then part[a] else 0
    ensures Total(part) == Total(m)
    decreases |m|
  {
    if m.Keys == part.Keys {
      assert m == part;
    } else {
      var a :| a in m && a !in part;
      TotalPick(m, a);
      DropZeros(m - {a}, part);
    }
  }

  /** When all snapshot power is cast one way, it carries exactly if that way is
      for the proposal, whatever thresholds up to 10000 are set. */
  lemma UnanimityDecides(r: Rules, votes: map<Address, Ballot>, snapshot: map<Address, int>, choice: Choice)
    requires 0 <= r.quorumBps <= 10000 && 0 < r.approvalBps <= 10000
    requires BallotsHonest(votes, snapshot) && (forall a :: a in snapshot ==> 0 <= snapshot[a]) && 0 < Total(snapshot)
    requires forall a :: a in snapshot && 0 < snapshot[a] ==> a in votes && votes[a].choice == choice
    ensures Carried(r, votes, snapshot) <==> choice == For
  {
    DropZeros(snapshot, PowerOf(votes, choice));
    forall c: Choice | c != choice ensures Total(PowerOf(votes, c)) == 0 {
      assert PowerOf(votes, c) == map[];
    }
    var t := Total(snapshot);
    assert r.quorumBps * t <= 10000 * t && r.approvalBps * t <= 10000 * t && 0 < r.approvalBps * t by {
      MulMonotone(t, r.quorumBps, 10000);
      MulMonotone(t, r.approvalBps, 10000);
      MulMonotone(t, 1, r.approvalBps);
    }
  }
}
