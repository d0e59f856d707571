/** The native-coin account table and its two updates. */
module Ledger {
  import opened Basics
  import opened Sums

  type Balances = map<Address, int>

  function BalanceOf(b: Balances, a: Address): int { Lookup(b, a) }

  function Credit(b: Balances, a: Address, amount: int): Balances {
    b[a := BalanceOf(b, a) + amount]
  }

  /** subAccountBalance succeeds only for a known account that holds the amount. */
  predicate CanDebit(b: Balances, a: Address, amount: int) {
    a in b && amount <= b[a]
  }

  function Debit(b: Balances, a: Address, amount: int): Balances {
    b[a := BalanceOf(b, a) - amount]
  }

  lemma CreditTotal(b: Balances, a: Address, amount: int)
    ensures Total(Credit(b, a, amount)) == Total(b) + amount
  {
    TotalUpdate(b, a, BalanceOf(b, a) + amount);
  }

  lemma DebitTotal(b: Balances, a: Address, amount: int)
    ensures Total(Debit(b, a, amount)) == Total(b) - amount
  {
    TotalUpdate(b, a, BalanceOf(b, a) - amount);
  }

  class Accounts {
    var balances: Balances

    constructor (balances: Balances)
      ensures this.balances == balances
    {
      this.balances := balances;
    }

    method Add(a: Address, amount: int)
      modifies this
      ensures balances == Credit(old(balances), a, amount)
    {
      var cur := if a in balances then balances[a] else 0;
      balances := balances[a := cur + amount];
    }

    method Sub(a: Address, amount: int) returns (ok: bool)
      modifies this
      ensures ok <==> CanDebit(old(balances), a, amount)
      ensures balances == if ok then Debit(old(balances), a, amount) else old(balances)
    {
      if a !in balances || balances[a] < amount {
        return false;
      }
      balances := balances[a := balances[a] - amount];
      return true;
    }
  }
}
