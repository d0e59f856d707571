/** Native coins during one contract transaction: the attached value is claimed
    and forwarded by the called contracts, buffered, checked, then applied. */
module NativeFlows {
  import opened Basics
  import opened Sums
  import opened Ledger

  const MAX_DEPTH: nat := 16

  datatype NativeSend = NativeSend(from: Address, to: Address, amount: int)

  datatype Buffer = Buffer(
    callStack: set<Address>,
    depth: nat,
    value: nat,
    escrow: int,
    entry: Address,
    credit: map<Address, int>,
    sends: seq<NativeSend>)

  function NewBuffer(value: nat, entry: Address): Buffer {
    Buffer({}, 0, value, value, entry, map[], [])
  }

  // ------------------------------------------------------------- call frames

  predicate MayPush(tb: Buffer, a: Address) {
    tb.depth < MAX_DEPTH && a !in tb.callStack
  }

  function Push(tb: Buffer, a: Address): Buffer {
    tb.(callStack := tb.callStack + {a}, depth := tb.depth + 1)
  }

  function Pop(tb: Buffer, a: Address): Buffer {
    tb.(callStack := tb.callStack - {a}, depth := if tb.depth > 0 then tb.depth - 1 else 0)
  }

  // ------------------------------------------------------- claims and sends

  /** creditNative ignores an empty address and a non-positive amount. */
  function CreditNative(tb: Buffer, a: Address, amount: int): Buffer {
    if amount <= 0 || a == "" then tb else tb.(credit := tb.credit[a := Lookup(tb.credit, a) + amount])
  }

  predicate MayReceive(tb: Buffer, amount: int) { 0 < amount <= tb.escrow }

  function Receive(tb: Buffer, self: Address, amount: int): Buffer {
    CreditNative(tb.(escrow := tb.escrow - amount), self, amount)
  }

  predicate MaySend(from: Address, to: Address, amount: int) { 0 < amount && from != "" && to != "" }

  function QueueSend(tb: Buffer, from: Address, to: Address, amount: int): Buffer {
    tb.(sends := tb.sends + [NativeSend(from, to, amount)])
  }

  // --------------------------------------------------------------- call trees

  /** What one run of a contract does to the buffer, in order.  Abort stands for a
      revert, a panic or exhausted gas; after a failed call the caller may go on. */
  datatype Act =
    | Claim(amount: int)
    | Pull(amount: int)
    | Pay(to: Address, amount: int)
    | Call(call: Invocation)
    | Abort

  datatype Invocation = Invocation(target: Address, known: bool, acts: seq<Act>)

  datatype Outcome = Outcome(tb: Buffer, ok: bool, stacks: seq<seq<Address>>)

  predicate Loads(t: Invocation) { t.known && t.target != "" }

  /** frames are the active calls, outermost first; stacks records them at every
      call that is entered. */
  function RunCall(tb: Buffer, frames: seq<Address>, caller: Address, t: Invocation): Outcome
    decreases t, 0
  {
    if !MayPush(tb, t.target) then Outcome(tb, false, [])
    else
      var pushed, inner := Push(tb, t.target), frames + [t.target];
      if !Loads(t) then Outcome(Pop(pushed, t.target), false, [inner])
      else
        var r := RunActs(pushed, inner, t.target, caller, t.acts);
        Outcome(Pop(r.tb, t.target), r.ok, [inner] + r.stacks)
  }

  /** One act of the running contract; ok tells whether the contract goes on. */
  function RunAct(tb: Buffer, frames: seq<Address>, self: Address, caller: Address, act: Act): Outcome
    decreases act, 0
  {
    match act
    case Abort => Outcome(tb, false, [])
    case Claim(amount) =>
      if MayReceive(tb, amount) then Outcome(Receive(tb, self, amount), true, []) else Outcome(tb, false, [])
    case Pull(amount) =>
      if MaySend(caller, self, amount) then Outcome(QueueSend(tb, caller, self, amount), true, []) else Outcome(tb, false, [])
    case Pay(to, amount) =>
      if MaySend(self, to, amount) then Outcome(QueueSend(tb, self, to, amount), true, []) else Outcome(tb, false, [])
    case Call(t) => RunCall(tb, frames, self, t).(ok := true)
  }

  function RunActs(tb: Buffer, frames: seq<Address>, self: Address, caller: Address, acts: seq<Act>): Outcome
    decreases acts, 1
  {
    if acts == [] then Outcome(tb, true, [])
    else
      var r := RunAct(tb, frames, self, caller, acts[0]);
      if !r.ok then r
      else
        var after := RunActs(r.tb, frames, self, caller, acts[1..]);
        Outcome(after.tb, after.ok, r.stacks + after.stacks)
  }

  // ------------------------------------------------------ checking, applying

  function WithRemainder(tb: Buffer): map<Address, int> {
    if tb.escrow > 0 && tb.entry != "" then tb.credit[tb.entry := Lookup(tb.credit, tb.entry) + tb.escrow]
    else tb.credit
  }

  /** The lazily filled table of ensureNativeFlows. */
  function Fetch(available: Balances, b: Balances, credits: map<Address, int>, a: Address): Balances {
    if a in available then available else available[a := BalanceOf(b, a) + Lookup(credits, a)]
  }

  function SendCheck(available: Balances, b: Balances, credits: map<Address, int>, s: NativeSend): Option<Balances> {
    var a1 := Fetch(available, b, credits, s.from);
    if a1[s.from] < s.amount then None
    else
      var a2 := Fetch(a1[s.from := a1[s.from] - s.amount], b, credits, s.to);
      Some(a2[s.to := a2[s.to] + s.amount])
  }

  function SendsPass(available: Balances, b: Balances, credits: map<Address, int>, sends: seq<NativeSend>): bool
    decreases |sends|
  {
    sends == [] ||
    (var next := SendCheck(available, b, credits, sends[0]);
     next.Some? && SendsPass(next.value, b, credits, sends[1..]))
  }

  predicate EnsureNativeFlows(tb: Buffer, b: Balances) {
    SendsPass(map[], b, WithRemainder(tb), tb.sends)
  }

  function AddCredits(b: Balances, credits: map<Address, int>): Balances {
    var paid := set a | a in credits && credits[a] > 0;
    map a | a in b.Keys + paid :: BalanceOf(b, a) + if a in paid then credits[a] else 0
  }

  function ApplySends(b: Balances, sends: seq<NativeSend>): Option<Balances>
    decreases |sends|
  {
    if sends == [] then Some(b)
    else if !CanDebit(b, sends[0].from, sends[0].amount) then None
    else ApplySends(Credit(Debit(b, sends[0].from, sends[0].amount), sends[0].to, sends[0].amount), sends[1..])
  }

  function ApplyNativeFlows(tb: Buffer, b: Balances): Option<Balances> {
    ApplySends(AddCredits(b, WithRemainder(tb)), tb.sends)
  }

  /** ExecuteAtomicAt: run, check, apply; any failure leaves the balances alone. */
  function Execute(b: Balances, caller: Address, value: nat, t: Invocation): Option<Balances> {
    var r := RunCall(NewBuffer(value, t.target), [], caller, t);
    if !r.ok || !EnsureNativeFlows(r.tb, b) then None else ApplyNativeFlows(r.tb, b)
  }

  // ----------------------------------------------------------- conservation

  /** Claimed credits and unclaimed escrow make up the attached value. */
  ghost predicate Conserved(tb: Buffer) {
    && Total(tb.credit) + tb.escrow == tb.value && 0 <= tb.escrow
    && (forall a :: a in tb.credit ==> 0 < tb.credit[a])
    && (forall i :: 0 <= i < |tb.sends| ==> 0 < tb.sends[i].amount)
  }

  ghost predicate AllDistinct(frames: seq<Address>) {
    forall i, j :: 0 <= i < j < |frames| ==> frames[i] != frames[j]
  }

  /** The guard's set and counter describe the active frames. */
  ghost predicate FramesOk(tb: Buffer, frames: seq<Address>) {
    && tb.depth == |frames| <= MAX_DEPTH
    && AllDistinct(frames)
    && (forall a :: a in tb.callStack <==> a in frames)
  }

  ghost predicate StacksOk(stacks: seq<seq<Address>>) {
    forall i :: 0 <= i < |stacks| ==> AllDistinct(stacks[i]) && |stacks[i]| <= MAX_DEPTH
  }

  ghost predicate Holds(tb: Buffer, frames: seq<Address>) { Conserved(tb) && FramesOk(tb, frames) }

  /** What every part of a run keeps of the buffer it starts from. */
  ghost predicate Keeps(before: Buffer, r: Outcome, frames: seq<Address>) {
    && Holds(r.tb, frames) && StacksOk(r.stacks)
    && r.tb.value == before.value && r.tb.entry == before.entry
  }

  lemma ReceiveConserves(tb: Buffer, self: Address, amount: int)
    requires Conserved(tb) && MayReceive(tb, amount) && self != ""
    ensures Conserved(Receive(tb, self, amount))
  {
    TotalUpdate(tb.credit, self, Lookup(tb.credit, self) + amount);
  }

  lemma PushHolds(tb: Buffer, frames: seq<Address>, a: Address)
    requires Holds(tb, frames) && MayPush(tb, a)
    ensures Holds(Push(tb, a), frames + [a])
  {
    var inner := frames + [a];
    forall x ensures x in tb.callStack + {a} <==> x in inner {
    }
  }

  lemma PopHolds(tb: Buffer, frames: seq<Address>, a: Address)
    requires Holds(tb, frames + [a])
    ensures Holds(Pop(tb, a), frames)
  {
    var inner := frames + [a];
    forall i, j | 0 <= i < j < |frames| ensures frames[i] != frames[j] {
      assert inner[i] != inner[j];
    }
    forall i | 0 <= i < |frames| ensures frames[i] != a {
      assert inner[i] != inner[|frames|];
    }
    forall x ensures x in tb.callStack - {a} <==> x in frames {
    }
  }

  lemma QueueHolds(tb: Buffer, frames: seq<Address>, from: Address, to: Address, amount: int)
    requires Holds(tb, frames) && MaySend(from, to, amount)
    ensures Holds(QueueSend(tb, from, to, amount), frames)
  {
  }

  lemma StacksJoin(a: seq<seq<Address>>, b: seq<seq<Address>>)
    requires StacksOk(a) && StacksOk(b)
    ensures StacksOk(a + b)
  {
  }

  /** However contracts call each other and wherever they fail: the active frames
      are always pairwise distinct and at most 16 deep, every exit restores the
      caller's frames, and credits plus escrow stay equal to the attached value. */
  lemma {:induction false} CallsKeep(tb: Buffer, frames: seq<Address>, caller: Address, t: Invocation)
    requires Holds(tb, frames)
    ensures Keeps(tb, RunCall(tb, frames, caller, t), frames)
    decreases t, 0
  {
    if MayPush(tb, t.target) {
      var pushed, inner := Push(tb, t.target), frames + [t.target];
      PushHolds(tb, frames, t.target);
      if Loads(t) {
        ActsKeep(pushed, inner, t.target, caller, t.acts);
        var r := RunActs(pushed, inner, t.target, caller, t.acts);
        PopHolds(r.tb, frames, t.target);
        StacksJoin([inner], r.stacks);
      } else {
        PopHolds(pushed, frames, t.target);
      }
    }
  }

  lemma {:induction false} ActKeeps(tb: Buffer, frames: seq<Address>, self: Address, caller: Address, act: Act)
    requires Holds(tb, frames) && self != ""
    ensures Keeps(tb, RunAct(tb, frames, self, caller, act), frames)
    decreases act, 0
  {
    match act
    case Abort =>
    case Claim(amount) =>
      if MayReceive(tb, amount) {
        ReceiveConserves(tb, self, amount);
      }
    case Pull(amount) =>
      if MaySend(caller, self, amount) {
        QueueHolds(tb, frames, caller, self, amount);
      }
    case Pay(to, amount) =>
      if MaySend(self, to, amount) {
        QueueHolds(tb, frames, self, to, amount);
      }
    case Call(t) => CallsKeep(tb, frames, self, t);
  }

  lemma {:induction false} ActsKeep(tb: Buffer, frames: seq<Address>, self: Address, caller: Address, acts: seq<Act>)
    requires Holds(tb, frames) && self != ""
    ensures Keeps(tb, RunActs(tb, frames, self, caller, acts), frames)
    decreases acts, 1
  {
    if acts != [] {
      ActKeeps(tb, frames, self, caller, acts[0]);
      var r := RunAct(tb, frames, self, caller, acts[0]);
      if r.ok {
        ActsKeep(r.tb, frames, self, caller, acts[1..]);
        StacksJoin(r.stacks, RunActs(r.tb, frames, self, caller, acts[1..]).stacks);
      }
    }
  }

  // ------------------------------------------------- the check is the apply

  ghost predicate Tracks(available: Balances, b: Balances, credits: map<Address, int>, now: Balances) {
    forall a :: (if a in available then available[a] else BalanceOf(b, a) + Lookup(credits, a)) == BalanceOf(now, a)
  }

  lemma FetchTracked(available: Balances, b: Balances, credits: map<Address, int>, now: Balances, a: Address)
    requires Tracks(available, b, credits, now)
    ensures var f := Fetch(available, b, credits, a); Tracks(f, b, credits, now) && f[a] == BalanceOf(now, a)
  {
  }

  lemma UpdateTracked(available: Balances, b: Balances, credits: map<Address, int>, now: Balances, a: Address, v: int)
    requires Tracks(available, b, credits, now)
    ensures Tracks(available[a := v], b, credits, now[a := v])
  {
  }

  lemma SendTracked(available: Balances, b: Balances, credits: map<Address, int>, now: Balances, s: NativeSend)
    requires Tracks(available, b, credits, now) && 0 < s.amount
    ensures SendCheck(available, b, credits, s).Some? <==> CanDebit(now, s.from, s.amount)
    ensures CanDebit(now, s.from, s.amount) ==>
              Tracks(SendCheck(available, b, credits, s).value, b, credits, Credit(Debit(now, s.from, s.amount), s.to, s.amount))
  {
    hide Tracks;
    var a1 := Fetch(available, b, credits, s.from);
    FetchTracked(available, b, credits, now, s.from);
    if s.amount <= a1[s.from] {
      var debited, next := a1[s.from := a1[s.from] - s.amount], Debit(now, s.from, s.amount);
      UpdateTracked(a1, b, credits, now, s.from, a1[s.from] - s.amount);
      FetchTracked(debited, b, credits, next, s.to);
      var a2 := Fetch(debited, b, credits, s.to);
      UpdateTracked(a2, b, credits, next, s.to, a2[s.to] + s.amount);
    }
  }

  lemma {:induction false} PassMeansApply(available: Balances, b: Balances, credits: map<Address, int>, now: Balances, sends: seq<NativeSend>)
    requires Tracks(available, b, credits, now)
    requires forall i :: 0 <= i < |sends| ==> 0 < sends[i].amount
    ensures SendsPass(available, b, credits, sends) <==> ApplySends(now, sends).Some?
    decreases |sends|
  {
    if sends != [] {
      SendTracked(available, b, credits, now, sends[0]);
      if CanDebit(now, sends[0].from, sends[0].amount) {
        PassMeansApply(SendCheck(available, b, credits, sends[0]).value, b, credits,
                       Credit(Debit(now, sends[0].from, sends[0].amount), sends[0].to, sends[0].amount), sends[1..]);
      }
    }
  }

  lemma {:induction false} SendsConserve(b: Balances, sends: seq<NativeSend>)
    ensures ApplySends(b, sends).Some? ==> Total(ApplySends(b, sends).value) == Total(b)
    decreases |sends|
  {
    if sends != [] && CanDebit(b, sends[0].from, sends[0].amount) {
      var d := Debit(b, sends[0].from, sends[0].amount);
      DebitTotal(b, sends[0].from, sends[0].amount);
      CreditTotal(d, sends[0].to, sends[0].amount);
      SendsConserve(Credit(d, sends[0].to, sends[0].amount), sends[1..]);
    }
  }

  lemma {:induction false} AddCreditsTotal(b: Balances, credits: map<Address, int>)
    requires forall a :: a in credits ==> 0 < credits[a]
    ensures Total(AddCredits(b, credits)) == Total(b) + Total(credits)
    decreases |credits|
  {
    if credits == map[] {
      assert AddCredits(b, credits) == b;
    } else {
      var k :| k in credits;
      var rest := credits - {k};
      AddCreditsTotal(b, rest);
      TotalPick(credits, k);
      AddOneCredit(b, credits, k);
      CreditTotal(AddCredits(b, rest), k, credits[k]);
    }
  }

  lemma AddOneCredit(b: Balances, credits: map<Address, int>, k: Address)
    requires k in credits && 0 < credits[k]
    ensures AddCredits(b, credits) == Credit(AddCredits(b, credits - {k}), k, credits[k])
  {
    var rest := credits - {k};
    var paid, less := set a | a in credits && credits[a] > 0, set a | a in rest && rest[a] > 0;
    assert paid == less + {k};
    assert b.Keys + paid == (b.Keys + less) + {k};
  }

  lemma RemainderTotal(tb: Buffer)
    requires Conserved(tb) && tb.entry != ""
    ensures Total(WithRemainder(tb)) == tb.value
    ensures forall a :: a in WithRemainder(tb) ==> 0 < WithRemainder(tb)[a]
  {
    TotalUpdate(tb.credit, tb.entry, Lookup(tb.credit, tb.entry) + tb.escrow);
  }

  /** The preflight decides: flows can be applied exactly when it passes, and
      then the balances rise by the attached value and nothing else. */
  lemma PreflightDecides(tb: Buffer, b: Balances)
    requires Conserved(tb) && tb.entry != ""
    ensures EnsureNativeFlows(tb, b) <==> ApplyNativeFlows(tb, b).Some?
    ensures EnsureNativeFlows(tb, b) ==> Total(ApplyNativeFlows(tb, b).value) == Total(b) + tb.value
  {
    var credits := WithRemainder(tb);
    RemainderTotal(tb);
    AddCreditsTotal(b, credits);
    var now := AddCredits(b, credits);
    assert Tracks(map[], b, credits, now);
    PassMeansApply(map[], b, credits, now, tb.sends);
    SendsConserve(now, tb.sends);
  }

  /** A run that reports success has entered a real contract. */
  lemma SuccessLoads(tb: Buffer, frames: seq<Address>, caller: Address, t: Invocation)
    requires RunCall(tb, frames, caller, t).ok
    ensures t.target != ""
  {
  }

  /** A contract transaction that executes adds exactly the attached value to the
      balances; one that fails changes nothing.  It fails only in the run or in
      the preflight, never while flows are applied. */
  lemma ExecuteAddsValue(b: Balances, caller: Address, value: nat, t: Invocation)
    ensures var r := RunCall(NewBuffer(value, t.target), [], caller, t);
            Execute(b, caller, value, t).Some? <==> r.ok && EnsureNativeFlows(r.tb, b)
    ensures Execute(b, caller, value, t).Some? ==> Total(Execute(b, caller, value, t).value) == Total(b) + value
  {
    var tb := NewBuffer(value, t.target);
    assert Total(tb.credit) == 0;
    assert Holds(tb, []);
    CallsKeep(tb, [], caller, t);
    var r := RunCall(tb, [], caller, t);
    if r.ok {
      SuccessLoads(tb, [], caller, t);
      PreflightDecides(r.tb, b);
    }
  }

  /** Block replay debits value and fee from the sender after the call, so a
      contract transaction lowers the total by exactly its fee. */
  function ReplayContractCall(b: Balances, from: Address, value: nat, fee: nat, t: Invocation): Option<Balances> {
    match Execute(b, from, value, t)
    case None => None
    case Some(after) => if CanDebit(after, from, value + fee) then Some(Debit(after, from, value + fee)) else None
  }

  lemma ContractCallCostsItsFee(b: Balances, from: Address, value: nat, fee: nat, t: Invocation)
    requires ReplayContractCall(b, from, value, fee, t).Some?
    ensures Total(ReplayContractCall(b, from, value, fee, t).value) == Total(b) - fee
  {
    ExecuteAddsValue(b, from, value, t);
    DebitTotal(Execute(b, from, value, t).value, from, value + fee);
  }

  /** Balances never go negative through native flows. */
  lemma {:induction false} SendsStayNonNegative(b: Balances, sends: seq<NativeSend>)
    requires NonNegative(b) && forall i :: 0 <= i < |sends| ==> 0 < sends[i].amount
    ensures ApplySends(b, sends).Some? ==> NonNegative(ApplySends(b, sends).value)
    decreases |sends|
  {
    if sends != [] && CanDebit(b, sends[0].from, sends[0].amount) {
      SendsStayNonNegative(Credit(Debit(b, sends[0].from, sends[0].amount), sends[0].to, sends[0].amount), sends[1..]);
    }
  }
}
