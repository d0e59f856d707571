/** Why a node is in the round it is in: every earlier round of the height was
    given up by a certified timeout. */
module ViewChange {
  import opened Basics
  import opened VotingPower
  import opened BftModel

  /** A timeout certificate with the voters behind it and the state whose
      validator sets judged them. */
  datatype Formed = Formed(tc: TC, judge: Bft, voters: set<Address>)

  ghost predicate Justified(f: Formed) {
    && f.tc.round <= MAX_ROUND
    && JointQuorum(f.judge, f.tc.height, f.voters)
    && f.tc.power == Weight(f.voters, f.judge.active)
    && f.tc.total == SetPower(f.judge.active)
  }

  /** The certificates the events have formed, oldest first. */
  ghost function FormedBy(e: Env, s: Bft, ev: Event): seq<Formed> {
    if ev.CastTimeout? && AddTimeout(e, s, ev.built, ev.timeout).1.Some? then
      var v, r := ev.timeout, Ready(s, ev.built);
      [Formed(AddTimeout(e, s, ev.built, v).1.value, r, TimeoutTable(r, v.height, v.round) + {v.validator})]
    else []
  }

  ghost function Trace(e: Env, s: Bft, events: seq<Event>): seq<Formed>
    decreases |events|
  {
    if events == [] then []
    else
      var front := events[..|events| - 1];
      Trace(e, s, front) + FormedBy(e, Run(e, s, front), events[|events| - 1])
  }

  lemma FormedAreJustified(e: Env, s: Bft, ev: Event)
    ensures forall f :: f in FormedBy(e, s, ev) ==> Justified(f)
    ensures ev.CastTimeout? && Step(e, s, ev).lastTC != s.lastTC ==>
              |FormedBy(e, s, ev)| == 1 && Step(e, s, ev).lastTC == Some(FormedBy(e, s, ev)[0].tc)
  {
  }

  /** The round of the height was given up with a justified certificate. */
  ghost predicate GivenUp(trace: seq<Formed>, height: nat, round: nat) {
    exists i :: 0 <= i < |trace| && Justified(trace[i]) && trace[i].tc.height == height && trace[i].tc.round == round
  }

  ghost predicate RoundsJustified(s: Bft, trace: seq<Formed>) {
    && (forall h: nat, r: nat :: r < RoundOf(s, h) ==> GivenUp(trace, h, r))
    && (s.lastTC.Some? ==> GivenUp(trace, s.lastTC.value.height, s.lastTC.value.round) && s.lastTC.value.round <= MAX_ROUND)
  }

  lemma GivenUpStays(trace: seq<Formed>, more: seq<Formed>, height: nat, round: nat)
    requires GivenUp(trace, height, round)
    ensures GivenUp(trace + more, height, round)
  {
    var i :| 0 <= i < |trace| && Justified(trace[i]) && trace[i].tc.height == height && trace[i].tc.round == round;
    assert (trace + more)[i] == trace[i];
  }

  lemma RoundsStayJustified(s: Bft, trace: seq<Formed>, more: seq<Formed>)
    requires RoundsJustified(s, trace)
    ensures RoundsJustified(s, trace + more)
  {
    forall h: nat, r: nat | r < RoundOf(s, h) ensures GivenUp(trace + more, h, r) {
      GivenUpStays(trace, more, h, r);
    }
    if s.lastTC.Some? {
      GivenUpStays(trace, more, s.lastTC.value.height, s.lastTC.value.round);
    }
  }

  /** An event moves the round of a height by one and only through an expired
      timer, a certificate for the current round and no final block at or above
      the height; otherwise the round stays, or is forgotten with its height.
      Locks and votes are untouched by a view change. */
  ghost predicate RoundMoves(s: Bft, ev: Event, t: Bft, h: nat) {
    || RoundOf(t, h) == RoundOf(s, h)
    || (ev.Finalize? && h <= ev.height && RoundOf(t, h) == 0)
    || (&& ev.Advance? && ev.height == h && MayAdvance(s, h, ev.now)
        && RoundOf(t, h) == RoundOf(s, h) + 1
        && t == s.(rounds := t.rounds, startedAt := t.startedAt))
  }

  /** What a vote cannot touch: rounds, timers and timeout certificates. */
  ghost predicate SameView(s: Bft, t: Bft) {
    t.rounds == s.rounds && t.startedAt == s.startedAt && t.timeoutVotes == s.timeoutVotes && t.lastTC == s.lastTC
  }

  /** What a timeout cannot touch: rounds, timers, locks, votes and evidence. */
  ghost predicate SameVoting(s: Bft, t: Bft) {
    && t.rounds == s.rounds && t.startedAt == s.startedAt && t.votes == s.votes && t.lastQC == s.lastQC
    && t.lockedHash == s.lockedHash && t.lockedRound == s.lockedRound && t.evidence == s.evidence
  }

  lemma CertifyFrame(s: Bft, v: Vote, qc: QC)
    ensures SameView(s, Certify(s, v, qc).0)
  {
  }

  lemma EnterVoteFrame(s: Bft, v: Vote)
    ensures SameView(s, EnterVote(s, v).0)
  {
    var t := Stored(s, v);
    assert SameView(s, t);
    CertifyFrame(t, v, QCFor(s, v, Voters(TableOf(t, v.key), v.hash)));
  }

  lemma VoteFrame(e: Env, s: Bft, built: PowerSet, v: Vote)
    ensures SameView(s, AddVote(e, s, built, v).0)
  {
    EnterVoteFrame(Ready(s, built), v);
  }

  lemma EnterTimeoutFrame(s: Bft, v: TimeoutVote)
    ensures SameVoting(s, EnterTimeout(s, v).0)
  {
  }

  lemma TimeoutFrame(e: Env, s: Bft, built: PowerSet, v: TimeoutVote)
    ensures SameVoting(s, AddTimeout(e, s, built, v).0)
  {
    EnterTimeoutFrame(Ready(s, built), v);
  }

  lemma AdvanceMovesRound(s: Bft, height: nat, now: int, h: nat)
    requires s.lastTC.Some? ==> s.lastTC.value.round <= MAX_ROUND
    ensures RoundMoves(s, Advance(height, now), AdvanceRound(s, height, now), h)
  {
    if MayAdvance(s, height, now) {
      assert RoundOf(AdvanceRound(s, height, now), height) == RoundOf(s, height) + 1;
    }
  }

  lemma StepMovesRound(e: Env, s: Bft, ev: Event, h: nat)
    requires s.lastTC.Some? ==> s.lastTC.value.round <= MAX_ROUND
    ensures RoundMoves(s, ev, Step(e, s, ev), h)
  {
    match ev
    case CastVote(v, built) => VoteFrame(e, s, built, v);
    case CastTimeout(v, built) => TimeoutFrame(e, s, built, v);
    case StartHeight(_, _) =>
    case Advance(height, now) => AdvanceMovesRound(s, height, now, h);
    case Boundary(height, built) => assert PrepareTransition(s, height, built).rounds == s.rounds;
    case Finalize(_) =>
  }

  lemma LastCertificate(e: Env, s: Bft, ev: Event)
    ensures Step(e, s, ev).lastTC == s.lastTC
            || (|FormedBy(e, s, ev)| == 1 && Step(e, s, ev).lastTC == Some(FormedBy(e, s, ev)[0].tc))
  {
    match ev
    case CastVote(v, built) => VoteFrame(e, s, built, v);
    case CastTimeout(v, built) => FormedAreJustified(e, s, ev);
    case StartHeight(_, _) =>
    case Advance(_, _) =>
    case Boundary(height, built) => assert PrepareTransition(s, height, built).lastTC == s.lastTC;
    case Finalize(_) =>
  }

  lemma StepKeepsJustified(e: Env, s: Bft, ev: Event, trace: seq<Formed>)
    requires RoundsJustified(s, trace)
    ensures RoundsJustified(Step(e, s, ev), trace + FormedBy(e, s, ev))
  {
    var t, more := Step(e, s, ev), FormedBy(e, s, ev);
    RoundsStayJustified(s, trace, more);
    FormedAreJustified(e, s, ev);
    LastCertificate(e, s, ev);
    if t.lastTC != s.lastTC {
      assert (trace + more)[|trace|] == more[0];
      assert Justified(more[0]);
    }
    forall h: nat, r: nat | r < RoundOf(t, h) ensures GivenUp(trace + more, h, r) {
      StepMovesRound(e, s, ev, h);
      assert RoundMoves(s, ev, t, h);
    }
  }

  ghost predicate Fresh(s: Bft) { s.rounds == map[] && s.lastTC.None? }

  /** View-change justification: a node that starts with no rounds is in a later
      round of a height only when a certificate with more than two thirds of the
      active power, and of the pending power before activation, was formed for
      every earlier round of that height. */
  lemma {:induction false} RoundsAreJustified(e: Env, s: Bft, events: seq<Event>)
    requires Fresh(s)
    ensures RoundsJustified(Run(e, s, events), Trace(e, s, events))
    decreases |events|
  {
    if events != [] {
      var front := events[..|events| - 1];
      RoundsAreJustified(e, s, front);
      StepKeepsJustified(e, Run(e, s, front), events[|events| - 1], Trace(e, s, front));
    }
  }

  /** No round passes 1,000,001, so the 32-bit counter never wraps. */
  lemma RoundsAreBounded(e: Env, s: Bft, events: seq<Event>, h: nat)
    requires Fresh(s)
    ensures RoundOf(Run(e, s, events), h) <= MAX_ROUND + 1
  {
    RoundsAreJustified(e, s, events);
    var t := Run(e, s, events);
    if RoundOf(t, h) > 0 {
      var r: nat := RoundOf(t, h) - 1;
      assert GivenUp(Trace(e, s, events), h, r);
    }
  }

  /** A lock is released only by a later vote: no timeout, view change, set
      transition or pruning alters it. */
  lemma LocksSurviveViewChange(e: Env, s: Bft, ev: Event)
    requires !ev.CastVote?
    ensures Step(e, s, ev).lockedHash == s.lockedHash && Step(e, s, ev).lockedRound == s.lockedRound
    ensures Step(e, s, ev).lastQC == s.lastQC && Step(e, s, ev).evidence == s.evidence
  {
    match ev
    case CastTimeout(v, built) => TimeoutFrame(e, s, built, v);
    case StartHeight(_, _) =>
    case Advance(_, _) =>
    case Boundary(_, _) =>
    case Finalize(_) =>
  }
}
