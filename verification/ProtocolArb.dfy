/** The arbitrage engine as it runs against the accounts and the pool storage. */
module ProtocolArbObject {
  import opened Basics
  import opened Ledger
  import opened ArbModel

  class ProtocolArb {
    const accounts: Accounts
    const treasury: Address
    const minProfitBPS: int
    var pools: Pools

    constructor (accounts: Accounts, treasury: Address, minProfitBPS: int, pools: Pools)
      ensures this.accounts == accounts && this.treasury == treasury && this.minProfitBPS == minProfitBPS
      ensures this.pools == pools
    {
      this.accounts, this.treasury, this.minProfitBPS, this.pools := accounts, treasury, minProfitBPS, pools;
    }

    ghost function Now(): Market
      reads this, accounts
    {
      Market(accounts.balances, pools)
    }

    method LiveReserves(leg: Leg) returns (reserveIn: nat, reserveOut: nat)
      ensures reserveIn == LiveIn(pools, leg) && reserveOut == LiveOut(pools, leg)
    {
      if leg.pair !in pools {
        return 0, 0;
      }
      var p := pools[leg.pair];
      reserveIn, reserveOut := p.reserve0, p.reserve1;
      if !leg.inIsReserve0 {
        reserveIn, reserveOut := p.reserve1, p.reserve0;
      }
    }

    /** The cycle on the reserves of now, not those of the simulation. */
    method Resimulate(path: Path) returns (amounts: (nat, nat, nat), covered: bool)
      ensures amounts == LiveCycle(pools, path) && covered == Covers(pools, path, amounts)
    {
      var r1In, r1Out := LiveReserves(path.leg1);
      var r2In, r2Out := LiveReserves(path.leg2);
      var r3In, r3Out := LiveReserves(path.leg3);
      amounts := Cycle(path.input, r1In, r1Out, r2In, r2Out, r3In, r3Out);
      covered := r1Out > amounts.0 && r2Out > amounts.1 && r3Out > amounts.2;
    }

    /** The treasury is debited first and refunded when a pool could not pay. */
    method ExecuteArb(path: Path) returns (ok: bool)
      modifies this, accounts
      ensures (Now(), ok) == ArbModel.ExecuteArb(old(Now()), treasury, path, minProfitBPS)
    {
      var amounts, covered := Resimulate(path);
      if amounts.2 - path.input < MinProfit(path.input, minProfitBPS) {
        return false;
      }
      ghost var before := accounts.balances;
      var debited := accounts.Sub(treasury, path.input);
      if !debited {
        return false;
      }
      if !covered {
        accounts.Add(treasury, path.input);
        assert accounts.balances == before;
        return false;
      }
      pools := WriteReserves(pools, path, amounts);
      accounts.Add(treasury, amounts.2);
      ok := true;
    }

    method ExecutePreparedPaths(paths: seq<Path>) returns (executed: nat)
      modifies this, accounts
      ensures (Now(), executed) == ExecuteArbs(old(Now()), treasury, paths, minProfitBPS, 0)
    {
      executed := 0;
      for i := 0 to |paths|
        invariant ExecuteArbs(old(Now()), treasury, paths, minProfitBPS, 0)
               == ExecuteArbs(Now(), treasury, paths[i..], minProfitBPS, executed)
      {
        if executed >= MAX_ARBS {
          return;
        }
        assert paths[i..][1..] == paths[i + 1..];
        var ok := ExecuteArb(paths[i]);
        if ok {
          executed := executed + 1;
        }
      }
    }
  }
}
