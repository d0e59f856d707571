/** The transaction buffer object: the re-entrancy guard and the native-coin
    staging of one contract transaction. */
module TxBufferObject {
  import opened Basics
  import opened Ledger
  import opened NativeFlows

  class TxBuffer {
    var callStack: set<Address>
    var depth: nat
    const nativeValue: nat
    var nativeEscrow: int
    const nativeEntry: Address
    var nativeCredit: map<Address, int>
    var nativeSends: seq<NativeSend>

    ghost function Now(): Buffer
      reads this
    {
      Buffer(callStack, depth, nativeValue, nativeEscrow, nativeEntry, nativeCredit, nativeSends)
    }

    constructor (value: nat, entry: Address)
      ensures Now() == NewBuffer(value, entry)
    {
      callStack, depth, nativeValue, nativeEscrow, nativeEntry := {}, 0, value, value, entry;
      nativeCredit, nativeSends := map[], [];
    }

    method PushCall(a: Address) returns (ok: bool)
      modifies this
      ensures ok == MayPush(old(Now()), a)
      ensures Now() == if ok then Push(old(Now()), a) else old(Now())
    {
      if depth >= MAX_DEPTH || a in callStack {
        return false;
      }
      callStack, depth := callStack + {a}, depth + 1;
      ok := true;
    }

    method PopCall(a: Address)
      modifies this
      ensures Now() == Pop(old(Now()), a)
    {
      callStack := callStack - {a};
      if depth > 0 {
        depth := depth - 1;
      }
    }

    method CreditContract(a: Address, amount: int)
      modifies this
      ensures Now() == CreditNative(old(Now()), a, amount)
    {
      if amount <= 0 || a == "" {
        return;
      }
      if a !in nativeCredit {
        nativeCredit := nativeCredit[a := 0];
      }
      nativeCredit := nativeCredit[a := nativeCredit[a] + amount];
    }

    /** false is the revert of the calling contract. */
    method ReceiveNative(self: Address, amount: int) returns (ok: bool)
      modifies this
      ensures ok == MayReceive(old(Now()), amount)
      ensures Now() == if ok then Receive(old(Now()), self, amount) else old(Now())
    {
      if amount <= 0 || nativeEscrow < amount {
        return false;
      }
      nativeEscrow := nativeEscrow - amount;
      CreditContract(self, amount);
      ok := true;
    }

    method Queue(from: Address, to: Address, amount: int) returns (ok: bool)
      modifies this
      ensures ok == MaySend(from, to, amount)
      ensures Now() == if ok then QueueSend(old(Now()), from, to, amount) else old(Now())
    {
      if amount <= 0 || from == "" || to == "" {
        return false;
      }
      nativeSends := nativeSends + [NativeSend(from, to, amount)];
      ok := true;
    }

    method NativeCreditsWithRemainder() returns (credits: map<Address, int>)
      ensures credits == WithRemainder(Now())
    {
      credits := nativeCredit;
      if nativeEscrow > 0 && nativeEntry != "" {
        if nativeEntry !in credits {
          credits := credits[nativeEntry := 0];
        }
        credits := credits[nativeEntry := credits[nativeEntry] + nativeEscrow];
      }
    }

    method GetAvailable(available: Balances, credits: map<Address, int>, accounts: Accounts, a: Address) returns (table: Balances)
      ensures table == Fetch(available, accounts.balances, credits, a)
    {
      table := available;
      if a in table {
        return;
      }
      var base := if a in accounts.balances then accounts.balances[a] else 0;
      if a in credits {
        base := base + credits[a];
      }
      table := table[a := base];
    }

    method CheckSend(available: Balances, credits: map<Address, int>, accounts: Accounts, send: NativeSend)
      returns (enough: bool, table: Balances)
      ensures enough == SendCheck(available, accounts.balances, credits, send).Some?
      ensures enough ==> table == SendCheck(available, accounts.balances, credits, send).value
    {
      table := GetAvailable(available, credits, accounts, send.from);
      if table[send.from] < send.amount {
        return false, table;
      }
      table := table[send.from := table[send.from] - send.amount];
      table := GetAvailable(table, credits, accounts, send.to);
      table := table[send.to := table[send.to] + send.amount];
      enough := true;
    }

    method PreflightNativeFlows(accounts: Accounts) returns (ok: bool)
      ensures ok == EnsureNativeFlows(Now(), accounts.balances)
    {
      var credits := NativeCreditsWithRemainder();
      var available: Balances := map[];
      ghost var b := accounts.balances;
      for i := 0 to |nativeSends|
        invariant SendsPass(map[], b, credits, nativeSends) == SendsPass(available, b, credits, nativeSends[i..])
      {
        var send := nativeSends[i];
        assert nativeSends[i..][1..] == nativeSends[i + 1..];
        var enough, next := CheckSend(available, credits, accounts, send);
        if !enough {
          return false;
        }
        available := next;
      }
      ok := true;
    }

    /** Credits in any order, then the sends in the order they were queued. */
    method CommitNativeFlows(accounts: Accounts) returns (ok: bool)
      modifies accounts
      ensures ok == ApplyNativeFlows(Now(), old(accounts.balances)).Some?
      ensures ok ==> accounts.balances == ApplyNativeFlows(Now(), old(accounts.balances)).value
    {
      var credits := NativeCreditsWithRemainder();
      PayCredits(credits, accounts);
      ghost var credited := accounts.balances;
      for i := 0 to |nativeSends|
        invariant ApplySends(credited, nativeSends) == ApplySends(accounts.balances, nativeSends[i..])
      {
        var send := nativeSends[i];
        assert nativeSends[i..][1..] == nativeSends[i + 1..];
        var paid := accounts.Sub(send.from, send.amount);
        if !paid {
          return false;
        }
        accounts.Add(send.to, send.amount);
      }
      ok := true;
    }

    static method PayCredits(credits: map<Address, int>, accounts: Accounts)
      modifies accounts
      ensures accounts.balances == AddCredits(old(accounts.balances), credits)
    {
      var todo := credits.Keys;
      ghost var b := accounts.balances;
      assert AddCredits(b, credits - todo) == b;
      while todo != {}
        invariant todo <= credits.Keys
        invariant accounts.balances == AddCredits(b, credits - todo)
      {
        var a :| a in todo;
        ghost var done := credits - (todo - {a});
        assert done - {a} == credits - todo;
        if credits[a] > 0 {
          AddOneCredit(b, done, a);
          accounts.Add(a, credits[a]);
        } else {
          SkipCredit(b, done, a);
        }
        todo := todo - {a};
      }
      assert credits - todo == credits;
    }

    static lemma SkipCredit(b: Balances, credits: map<Address, int>, k: Address)
      requires k in credits && credits[k] <= 0
      ensures AddCredits(b, credits) == AddCredits(b, credits - {k})
    {
      var paid, less := set a | a in credits && credits[a] > 0, set a | a in credits - {k} && (credits - {k})[a] > 0;
      assert paid == less;
    }
  }
}
