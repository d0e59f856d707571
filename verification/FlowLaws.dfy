/** Who pays and who receives in a contract transaction, told by sums over the
    queued sends, and what one act or call of a contract may do. */
module FlowLaws {
  import opened Basics
  import opened Sums
  import opened Ledger
  import opened NativeFlows

  // -------------------------------------------------------- sums over sends

  function SentTo(sends: seq<NativeSend>, who: Address): int {
    if sends == [] then 0
    else (if sends[0].to == who then sends[0].amount else 0) + SentTo(sends[1..], who)
  }

  function SentFrom(sends: seq<NativeSend>, who: Address): int {
    if sends == [] then 0
    else (if sends[0].from == who then sends[0].amount else 0) + SentFrom(sends[1..], who)
  }

  /** A balance once the sends are made. */
  function After(b: Balances, sends: seq<NativeSend>, who: Address): int {
    BalanceOf(b, who) + SentTo(sends, who) - SentFrom(sends, who)
  }

  /** Each sender holds the amount when its turn comes. */
  ghost predicate Covered(b: Balances, sends: seq<NativeSend>) {
    forall i :: 0 <= i < |sends| ==> sends[i].amount <= After(b, sends[..i], sends[i].from)
  }

  ghost predicate Positive(sends: seq<NativeSend>) {
    forall i :: 0 <= i < |sends| ==> 0 < sends[i].amount
  }

  function Sent(b: Balances, s: NativeSend): Balances { Credit(Debit(b, s.from, s.amount), s.to, s.amount) }

  lemma AfterFirst(b: Balances, sends: seq<NativeSend>, who: Address)
    requires sends != []
    ensures After(b, sends, who) == After(Sent(b, sends[0]), sends[1..], who)
  {
  }

  lemma CoveredFirst(b: Balances, sends: seq<NativeSend>)
    requires sends != []
    ensures Covered(b, sends) <==>
              sends[0].amount <= BalanceOf(b, sends[0].from) && Covered(Sent(b, sends[0]), sends[1..])
  {
    hide Sent;
    var next, rest := Sent(b, sends[0]), sends[1..];
    assert After(b, sends[..0], sends[0].from) == BalanceOf(b, sends[0].from);
    forall i | 0 <= i < |rest|
      ensures After(next, rest[..i], rest[i].from) == After(b, sends[..i + 1], sends[i + 1].from)
    {
      AfterFirst(b, sends[..i + 1], sends[i + 1].from);
      assert sends[..i + 1][1..] == rest[..i];
    }
    if Covered(b, sends) {
      forall i | 0 <= i < |rest| ensures rest[i].amount <= After(next, rest[..i], rest[i].from) {
        assert sends[i + 1].amount <= After(b, sends[..i + 1], sends[i + 1].from);
      }
    }
    if sends[0].amount <= BalanceOf(b, sends[0].from) && Covered(next, rest) {
      forall i | 0 <= i < |sends| ensures sends[i].amount <= After(b, sends[..i], sends[i].from) {
        if i > 0 {
          assert rest[i - 1].amount <= After(next, rest[..i - 1], rest[i - 1].from);
        }
      }
    }
  }

  /** Sends go through exactly when every sender, with what the sends before paid
      it and took from it, holds its amount; each account then gains what is sent
      to it and loses what it sends. */
  lemma {:induction false} SendsSettle(b: Balances, sends: seq<NativeSend>)
    requires Positive(sends)
    ensures ApplySends(b, sends).Some? <==> Covered(b, sends)
    ensures ApplySends(b, sends).Some? ==> forall who :: BalanceOf(ApplySends(b, sends).value, who) == After(b, sends, who)
    decreases |sends|
  {
    if sends != [] {
      CoveredFirst(b, sends);
      if CanDebit(b, sends[0].from, sends[0].amount) {
        var next := Sent(b, sends[0]);
        SendsSettle(next, sends[1..]);
        if ApplySends(next, sends[1..]).Some? {
          forall who ensures BalanceOf(ApplySends(b, sends).value, who) == After(b, sends, who) {
            AfterFirst(b, sends, who);
          }
        }
      }
    }
  }

  // ------------------------------------------------------- whole transactions

  lemma CreditsReach(b: Balances, tb: Buffer, who: Address)
    requires Conserved(tb) && tb.entry != ""
    ensures BalanceOf(AddCredits(b, WithRemainder(tb)), who)
         == BalanceOf(b, who) + Lookup(tb.credit, who) + if who == tb.entry then tb.escrow else 0
  {
  }

  /** The buffer in which a transaction's run ends. */
  function Ended(caller: Address, value: nat, t: Invocation): Outcome {
    RunCall(NewBuffer(value, t.target), [], caller, t)
  }

  lemma EndedKeeps(caller: Address, value: nat, t: Invocation)
    ensures Keeps(NewBuffer(value, t.target), Ended(caller, value, t), [])
  {
    var tb := NewBuffer(value, t.target);
    assert Total(tb.credit) == 0;
    assert Holds(tb, []);
    CallsKeep(tb, [], caller, t);
  }

  /** A contract transaction goes through exactly when its run succeeds and, after
      claims are paid, each queued send is covered when its turn comes.  Then an
      account gains its claims and what is sent to it, loses what it sends, and
      the called contract also gets the attached coins nobody claimed. */
  lemma ExecuteSettles(b: Balances, caller: Address, value: nat, t: Invocation)
    ensures var r := Ended(caller, value, t);
            var b0 := AddCredits(b, WithRemainder(r.tb));
            Execute(b, caller, value, t).Some? <==> r.ok && Covered(b0, r.tb.sends)
    ensures var r := Ended(caller, value, t);
            Execute(b, caller, value, t).Some? ==> forall who ::
              BalanceOf(Execute(b, caller, value, t).value, who)
              == BalanceOf(b, who) + Lookup(r.tb.credit, who) + (if who == t.target then r.tb.escrow else 0)
                 + SentTo(r.tb.sends, who) - SentFrom(r.tb.sends, who)
  {
    hide AddCredits, WithRemainder, SentTo, SentFrom, Covered;
    var r := Ended(caller, value, t);
    EndedKeeps(caller, value, t);
    if r.ok {
      SuccessLoads(NewBuffer(value, t.target), [], caller, t);
      PreflightDecides(r.tb, b);
      var b0 := AddCredits(b, WithRemainder(r.tb));
      SendsSettle(b0, r.tb.sends);
      forall who ensures BalanceOf(b0, who) == BalanceOf(b, who) + Lookup(r.tb.credit, who)
                                              + if who == t.target then r.tb.escrow else 0 {
        CreditsReach(b, r.tb, who);
      }
    }
  }

  // ------------------------------------------------------ what an act may do

  /** Everything of the buffer but its credits, escrow and sends. */
  predicate SameFrame(before: Buffer, after: Buffer) {
    && after.callStack == before.callStack && after.depth == before.depth
    && after.value == before.value && after.entry == before.entry
  }

  /** A claim succeeds exactly within the escrow and is credited to the running
      contract alone; a pull is owed by the caller to the running contract, a
      payment by the running contract, both behind the sends already queued. */
  lemma ActEffects(tb: Buffer, frames: seq<Address>, self: Address, caller: Address, act: Act)
    requires self != "" && !act.Call?
    ensures var r := RunAct(tb, frames, self, caller, act);
            && SameFrame(tb, r.tb) && r.stacks == []
            && (!r.ok ==> r.tb == tb)
            && (match act
                case Abort => !r.ok
                case Claim(amount) =>
                  && (r.ok <==> 0 < amount <= tb.escrow)
                  && (r.ok ==>
                        && r.tb.escrow + amount == tb.escrow && r.tb.sends == tb.sends
                        && forall a :: Lookup(r.tb.credit, a) == Lookup(tb.credit, a) + if a == self then amount else 0)
                case Pull(amount) =>
                  && (r.ok <==> 0 < amount && caller != "")
                  && (r.ok ==>
                        && r.tb.escrow == tb.escrow && r.tb.credit == tb.credit
                        && forall who :: SentFrom(r.tb.sends, who) - SentFrom(tb.sends, who) == (if who == caller then amount else 0)
                                         && SentTo(r.tb.sends, who) - SentTo(tb.sends, who) == (if who == self then amount else 0))
                case Pay(to, amount) =>
                  && (r.ok <==> 0 < amount && to != "")
                  && (r.ok ==>
                        && r.tb.escrow == tb.escrow && r.tb.credit == tb.credit
                        && forall who :: SentFrom(r.tb.sends, who) - SentFrom(tb.sends, who) == (if who == self then amount else 0)
                                         && SentTo(r.tb.sends, who) - SentTo(tb.sends, who) == (if who == to then amount else 0)))
  {
    match act
    case Abort =>
    case Claim(amount) =>
    case Pull(amount) =>
      forall who { SentSnoc(tb.sends, NativeSend(caller, self, amount), who); }
    case Pay(to, amount) =>
      forall who { SentSnoc(tb.sends, NativeSend(self, to, amount), who); }
  }

  lemma {:induction false} SentSnoc(sends: seq<NativeSend>, s: NativeSend, who: Address)
    ensures SentTo(sends + [s], who) == SentTo(sends, who) + if s.to == who then s.amount else 0
    ensures SentFrom(sends + [s], who) == SentFrom(sends, who) + if s.from == who then s.amount else 0
    decreases |sends|
  {
    if sends != [] {
      SentSnoc(sends[1..], s, who);
      assert (sends + [s])[1..] == sends[1..] + [s];
    }
  }

  /** Acts run one after another, each on the buffer the one before left; the
      first that fails ends the run there. */
  lemma {:induction false} ActsCompose(tb: Buffer, frames: seq<Address>, self: Address, caller: Address, a: seq<Act>, b: seq<Act>)
    ensures var first := RunActs(tb, frames, self, caller, a);
            var second := RunActs(first.tb, frames, self, caller, b);
            RunActs(tb, frames, self, caller, a + b)
            == if first.ok then Outcome(second.tb, second.ok, first.stacks + second.stacks) else first
    decreases |a|
  {
    if a == [] {
      assert a + b == b;
    } else {
      var r := RunAct(tb, frames, self, caller, a[0]);
      assert (a + b)[1..] == a[1..] + b;
      if r.ok {
        ActsCompose(r.tb, frames, self, caller, a[1..], b);
        var rest := RunActs(r.tb, frames, self, caller, a[1..]);
        assert (r.stacks + rest.stacks) + RunActs(rest.tb, frames, self, caller, b).stacks
            == r.stacks + (rest.stacks + RunActs(rest.tb, frames, self, caller, b).stacks);
      }
    }
  }

  /** A call is entered exactly when fewer than 16 calls are active and none of them
      is the target's.  A call that is refused, or finds no contract, changes
      nothing and fails; one that runs fails exactly when its acts do, and leaves
      the claims and sends its acts made, failed or not. */
  lemma CallEnters(tb: Buffer, frames: seq<Address>, caller: Address, t: Invocation)
    requires Holds(tb, frames)
    ensures var r := RunCall(tb, frames, caller, t);
            && (r.stacks != [] <==> |frames| < MAX_DEPTH && t.target !in frames)
            && (r.stacks != [] ==> r.stacks[0] == frames + [t.target])
            && SameFrame(tb, r.tb)
            && (r.stacks == [] || !Loads(t) ==> !r.ok && r.tb == tb)
            && (r.stacks != [] && Loads(t) ==>
                  var inner := RunActs(Push(tb, t.target), frames + [t.target], t.target, caller, t.acts);
                  r.ok == inner.ok && r.tb.credit == inner.tb.credit && r.tb.escrow == inner.tb.escrow && r.tb.sends == inner.tb.sends)
  {
    CallsKeep(tb, frames, caller, t);
    var r := RunCall(tb, frames, caller, t);
    assert r.tb.callStack == tb.callStack;
    assert MayPush(tb, t.target) <==> |frames| < MAX_DEPTH && t.target !in frames;
    if MayPush(tb, t.target) && !Loads(t) {
      assert Pop(Push(tb, t.target), t.target).callStack == tb.callStack;
    }
  }

  // -------------------------------------------------------------- bystanders

  /** The contract at the end of one of the recorded call stacks. */
  ghost predicate Entered(stacks: seq<seq<Address>>, a: Address) {
    exists i :: 0 <= i < |stacks| && Top(stacks[i], a)
  }

  predicate Top(frames: seq<Address>, a: Address) { frames != [] && frames[|frames| - 1] == a }

  /** What has happened since: sends only queue up, paid by payers, and only
      payers get credits. */
  ghost predicate Within(before: Buffer, after: Buffer, payers: iset<Address>) {
    && |before.sends| <= |after.sends| && after.sends[..|before.sends|] == before.sends
    && (forall i :: |before.sends| <= i < |after.sends| ==> after.sends[i].from in payers)
    && (forall a :: a !in payers ==> Lookup(after.credit, a) == Lookup(before.credit, a))
  }

  ghost function Payers(caller: Address, self: Address, stacks: seq<seq<Address>>): iset<Address> {
    iset a | a == caller || a == self || Entered(stacks, a)
  }

  lemma WithinTransitive(a: Buffer, b: Buffer, c: Buffer, p: iset<Address>, q: iset<Address>, r: iset<Address>)
    requires Within(a, b, p) && Within(b, c, q) && p <= r && q <= r
    ensures Within(a, c, r)
  {
    assert c.sends[..|a.sends|] == b.sends[..|a.sends|];
    forall i | |a.sends| <= i < |c.sends| ensures c.sends[i].from in r {
      if i < |b.sends| {
        assert c.sends[i] == c.sends[..|b.sends|][i];
      }
    }
  }

  lemma EnteredJoins(a: seq<seq<Address>>, b: seq<seq<Address>>, x: Address)
    ensures Entered(a + b, x) <==> Entered(a, x) || Entered(b, x)
  {
    if Entered(a, x) {
      var i :| 0 <= i < |a| && Top(a[i], x);
      assert (a + b)[i] == a[i];
    }
    if Entered(b, x) {
      var i :| 0 <= i < |b| && Top(b[i], x);
      assert (a + b)[|a| + i] == b[i];
    }
  }

  lemma {:induction false} CallWithin(tb: Buffer, frames: seq<Address>, caller: Address, t: Invocation)
    ensures var r := RunCall(tb, frames, caller, t); Within(tb, r.tb, Payers(caller, caller, r.stacks))
    decreases t, 0
  {
    if MayPush(tb, t.target) && Loads(t) {
      var pushed, inner := Push(tb, t.target), frames + [t.target];
      ActsWithin(pushed, inner, t.target, caller, t.acts);
      var acts := RunActs(pushed, inner, t.target, caller, t.acts);
      forall a ensures Entered([inner] + acts.stacks, a) <==> a == t.target || Entered(acts.stacks, a) {
        EnteredJoins([inner], acts.stacks, a);
        assert Top([inner][0], a) <==> a == t.target;
      }
      assert Payers(caller, t.target, acts.stacks) <= Payers(caller, caller, [inner] + acts.stacks);
    }
  }

  lemma {:induction false} ActsWithin(tb: Buffer, frames: seq<Address>, self: Address, caller: Address, acts: seq<Act>)
    ensures var r := RunActs(tb, frames, self, caller, acts); Within(tb, r.tb, Payers(caller, self, r.stacks))
    decreases acts, 1
  {
    if acts != [] {
      ActWithin(tb, frames, self, caller, acts[0]);
      var r := RunAct(tb, frames, self, caller, acts[0]);
      if r.ok {
        ActsWithin(r.tb, frames, self, caller, acts[1..]);
        var rest := RunActs(r.tb, frames, self, caller, acts[1..]);
        forall a ensures Entered(r.stacks + rest.stacks, a) <==> Entered(r.stacks, a) || Entered(rest.stacks, a) {
          EnteredJoins(r.stacks, rest.stacks, a);
        }
        WithinTransitive(tb, r.tb, rest.tb, Payers(caller, self, r.stacks), Payers(caller, self, rest.stacks),
                         Payers(caller, self, r.stacks + rest.stacks));
      }
    }
  }

  lemma {:induction false} ActWithin(tb: Buffer, frames: seq<Address>, self: Address, caller: Address, act: Act)
    ensures var r := RunAct(tb, frames, self, caller, act); Within(tb, r.tb, Payers(caller, self, r.stacks))
    decreases act, 0
  {
    if act.Call? {
      CallWithin(tb, frames, self, act.call);
      var r := RunCall(tb, frames, self, act.call);
      assert Payers(self, self, r.stacks) <= Payers(caller, self, r.stacks);
    }
  }

  lemma {:induction false} NothingSentFrom(sends: seq<NativeSend>, who: Address)
    requires forall i :: 0 <= i < |sends| ==> 0 < sends[i].amount && sends[i].from != who
    ensures SentFrom(sends, who) == 0 <= SentTo(sends, who)
  {
    if sends != [] {
      NothingSentFrom(sends[1..], who);
    }
  }

  /** However contracts call each other, only the signer and contracts that were
      entered can pay or claim: every other account loses nothing, and gains
      exactly what is sent to it. */
  lemma BystandersLoseNothing(b: Balances, caller: Address, value: nat, t: Invocation, who: Address)
    requires Execute(b, caller, value, t).Some?
    requires who != caller && !Entered(Ended(caller, value, t).stacks, who)
    ensures BalanceOf(Execute(b, caller, value, t).value, who)
         == BalanceOf(b, who) + SentTo(Ended(caller, value, t).tb.sends, who) >= BalanceOf(b, who)
  {
    var tb, r := NewBuffer(value, t.target), Ended(caller, value, t);
    ExecuteSettles(b, caller, value, t);
    EndedKeeps(caller, value, t);
    CallWithin(tb, [], caller, t);
    assert who !in Payers(caller, caller, r.stacks);
    assert r.stacks[0] == [t.target] && Top(r.stacks[0], t.target);
    NothingSentFrom(r.tb.sends, who);
  }
}
