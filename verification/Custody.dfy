/** The custody object: bonds, auctions and revenue updated in place, each
    operation proved against the state machine. */
module Custody {
  import opened Basics
  import opened Ledger
  import opened CustodyModel
  import Sorting

  class ProtocolCustody {
    const env: Env
    const accounts: Accounts
    var reserves: int
    var bonds: map<Address, int>
    var unbondAt: map<Address, nat>
    var auctions: map<AuctionId, Auction>
    var arb: ArbPolicy
    var policy: EconomicPolicy
    var buckets: Buckets
    var revenue: map<RevenueId, Buckets>
    var burned: int

    function Now(): State
      reads this, accounts
    {
      State(accounts.balances, reserves, bonds, unbondAt, auctions, arb, policy, buckets, revenue, burned)
    }

    constructor (env: Env, balances: Balances, reserves: int, arb: ArbPolicy, policy: EconomicPolicy)
      ensures fresh(accounts) && this.env == env
      ensures Now() == State(balances, reserves, map[], map[], map[], arb, policy, Buckets(0, 0, 0, 0), map[], 0)
    {
      this.env := env;
      accounts := new Accounts(balances);
      this.reserves, bonds, unbondAt, auctions := reserves, map[], map[], map[];
      this.arb, this.policy := arb, policy;
      buckets, revenue, burned := Buckets(0, 0, 0, 0), map[], 0;
    }

    method BondKeeper(keeper: Address, amount: int) returns (ok: bool)
      modifies this`bonds, this`unbondAt, accounts
      ensures ok <==> ApplyBond(env, old(Now()), keeper, amount).Some?
      ensures Now() == if ok then ApplyBond(env, old(Now()), keeper, amount).value else old(Now())
    {
      if !env.validAddress(keeper) || amount <= 0 {
        return false;
      }
      ok := accounts.Sub(keeper, amount);
      if ok {
        accounts.Add(BOND_ESCROW, amount);
        bonds := bonds[keeper := (if keeper in bonds then bonds[keeper] else 0) + amount];
        unbondAt := unbondAt - {keeper};
      }
    }

    method RequestUnbond(keeper: Address, height: nat) returns (ok: bool)
      modifies this`unbondAt
      ensures ok <==> ApplyRequestUnbond(old(Now()), keeper, height).Some?
      ensures Now() == if ok then ApplyRequestUnbond(old(Now()), keeper, height).value else old(Now())
    {
      if keeper !in bonds || bonds[keeper] <= 0 {
        return false;
      }
      var todo := auctions.Keys;
      while todo != {}
        invariant todo <= auctions.Keys
        invariant forall id :: id in auctions && id !in todo ==>
                    !(auctions[id].status == Finalized && auctions[id].winner == keeper)
        decreases todo
      {
        var id :| id in todo;
        if auctions[id].status == Finalized && auctions[id].winner == keeper {
          return false;
        }
        todo := todo - {id};
      }
      unbondAt := unbondAt[keeper := height + arb.unbondDelay];
      return true;
    }

    method WithdrawBond(keeper: Address, height: nat) returns (paid: Option<int>)
      modifies this`bonds, this`unbondAt, accounts
      ensures paid.Some? <==> ApplyWithdraw(old(Now()), keeper, height).Some?
      ensures paid.Some? ==> paid.value == old(bonds)[keeper]
      ensures Now() == if paid.Some? then ApplyWithdraw(old(Now()), keeper, height).value else old(Now())
    {
      if keeper !in unbondAt || height < unbondAt[keeper] || keeper !in bonds || bonds[keeper] <= 0 {
        return None;
      }
      var amount := bonds[keeper];
      var ok := accounts.Sub(BOND_ESCROW, amount);
      if !ok {
        return None;
      }
      accounts.Add(keeper, amount);
      bonds := bonds[keeper := 0];
      unbondAt := unbondAt - {keeper};
      return Some(amount);
    }

    method OpenAuction(opportunity: string, height: nat, commitBlocks: nat, revealBlocks: nat) returns (ok: bool)
      modifies this`auctions
      ensures ok <==> ApplyOpen(old(Now()), opportunity, commitBlocks, revealBlocks, height).Some?
      ensures Now() == if ok then ApplyOpen(old(Now()), opportunity, commitBlocks, revealBlocks, height).value else old(Now())
    {
      ok := opportunity != "" && commitBlocks != 0 && revealBlocks != 0;
      if ok {
        var a := Auction(height + commitBlocks, height + commitBlocks + revealBlocks, Commit, "", 0, map[], [], [], 0);
        auctions := auctions[AuctionId(opportunity, height) := a];
      }
    }

    method CommitBid(id: AuctionId, keeper: Address, commitment: string, height: nat) returns (ok: bool)
      modifies this`auctions
      ensures ok <==> ApplyCommit(env, old(Now()), id, keeper, commitment, height).Some?
      ensures Now() == if ok then ApplyCommit(env, old(Now()), id, keeper, commitment, height).value else old(Now())
    {
      if id !in auctions || auctions[id].status != Commit || height > auctions[id].commitEnd
         || !env.validAddress(keeper) || |commitment| != 66 {
        return false;
      }
      if keeper !in bonds || bonds[keeper] < arb.minKeeperBond {
        return false;
      }
      var a := auctions[id];
      a := a.(bids := a.bids[keeper := Bid(keeper, commitment, 0, false)]);
      auctions := auctions[id := a];
      return true;
    }

    method RevealBid(id: AuctionId, keeper: Address, feeBPS: int, salt: string, height: nat) returns (ok: bool)
      modifies this`auctions
      ensures ok <==> ApplyReveal(env, old(Now()), id, keeper, feeBPS, salt, height).Some?
      ensures Now() == if ok then ApplyReveal(env, old(Now()), id, keeper, feeBPS, salt, height).value else old(Now())
    {
      if id !in auctions || height <= auctions[id].commitEnd || height > auctions[id].revealEnd || feeBPS < 0 || feeBPS > 2000 {
        return false;
      }
      var a := auctions[id];
      if keeper !in a.bids || a.bids[keeper].commitment != env.seal(id, keeper, feeBPS, salt) {
        return false;
      }
      var bid := a.bids[keeper].(feeBPS := feeBPS, revealed := true);
      a := a.(status := Reveal, bids := a.bids[keeper := bid]);
      auctions := auctions[id := a];
      return true;
    }

    /** The revealed bids in whatever order the map is visited. */
    method GatherRevealed(bids: map<Address, Bid>) returns (found: seq<Bid>)
      requires KeyedByKeeper(bids)
      ensures IsRanking(bids, Sorting.Sort(BidLeq, found))
    {
      found := [];
      var todo := bids.Keys;
      while todo != {}
        invariant todo <= bids.Keys
        invariant forall i, j :: 0 <= i < j < |found| ==> found[i].keeper != found[j].keeper
        invariant forall b :: b in found <==> b.keeper in bids && b.keeper !in todo && bids[b.keeper] == b && b.revealed
        decreases todo
      {
        var k :| k in todo;
        if bids[k].revealed {
          found := found + [bids[k]];
        }
        todo := todo - {k};
      }
      SortRanks(bids, found);
    }

    method FinalizeAuction(id: AuctionId, height: nat) returns (ok: bool)
      requires AuctionsKeyed(Now())
      modifies this`auctions
      ensures ok <==> CanFinalize(old(Now()), id, height)
      ensures Now() == Next(env, old(Now()), Finalize(id), height)
    {
      if id !in auctions || height <= auctions[id].revealEnd
         || (auctions[id].status != Commit && auctions[id].status != Reveal) {
        return false;
      }
      var a := auctions[id];
      var found := GatherRevealed(a.bids);
      var ranked := Sorting.Sort(BidLeq, found);
      RankingUnique(a.bids, ranked, Ranking(a.bids));
      if ranked == [] {
        auctions := auctions[id := a.(status := Failed)];
        return true;
      }
      a := a.(candidates := a.candidates + Keepers(ranked));
      a := a.(status := Finalized, winner := ranked[0].keeper, winningFee := ranked[0].feeBPS);
      a := a.(deadline := height + arb.executionTimeout);
      auctions := auctions[id := a];
      return true;
    }

    /** recordProtocolRevenueConsensus. */
    method RecordRevenue(source: string, amount: int, reference: string)
      modifies this`buckets, this`revenue
      ensures Now() == Record(old(Now()), source, amount, reference)
    {
      var id := RevenueId(source, reference, amount);
      if id in revenue {
        return;
      }
      var insurance := Bps(amount, policy.insuranceBPS);
      var lpYield := Bps(amount, policy.lpYieldBPS);
      var operations := Bps(amount, policy.operationsBPS);
      if source == "slashing" {
        insurance, lpYield, operations := amount, 0, 0;
      }
      var buyback := amount - (insurance + lpYield + operations);
      if !policy.buybackEnabled || buckets.insurance < policy.minInsurance {
        insurance, buyback := insurance + buyback, 0;
      }
      var a := Buckets(insurance, lpYield, operations, buyback);
      buckets := buckets.Plus(a);
      revenue := revenue[id := a];
    }

    /** The settlement half of ExecuteArbAuction; gain is what the trades earned. */
    method ExecuteAuction(id: AuctionId, keeper: Address, gain: int, height: nat) returns (ok: bool)
      requires Solvent(Now()) && 0 <= gain <= reserves
      modifies this, accounts
      ensures ok <==> CanExecute(old(Now()), id, keeper, height) && 0 < gain
      ensures ApplyExecute(old(Now()), id, keeper, gain, height).Some? ==>
                Now() == ApplyExecute(old(Now()), id, keeper, gain, height).value
      ensures ApplyExecute(old(Now()), id, keeper, gain, height).None? ==> Now() == old(Now())
    {
      if id !in auctions || auctions[id].status != Finalized || auctions[id].winner != keeper
         || height <= auctions[id].revealEnd || (auctions[id].deadline > 0 && height > auctions[id].deadline) {
        return false;
      }
      ghost var traded := Traded(Now(), gain);
      accounts.Add(LIQUIDITY_POOL, gain);
      reserves := reserves - gain;
      assert Now() == traded;
      if gain <= 0 {
        return false;
      }
      ok := accounts.Sub(LIQUIDITY_POOL, gain);
      accounts.Add(REVENUE_ESCROW, gain);
      assert Now() == MovedToEscrow(traded, gain);
      RecordRevenue("protocol_arb", gain, AuctionRef(id));
      auctions := auctions[id := auctions[id].(status := Executed)];
    }

    method SlashWinner(id: AuctionId, keeper: Address) returns (ok: bool)
      modifies this`bonds, this`buckets, this`revenue, accounts
      ensures ok <==> Slashed(old(Now()), id, keeper).Some?
      ensures ok ==> Now() == Slashed(old(Now()), id, keeper).value
    {
      if keeper !in bonds || bonds[keeper] <= 0 {
        return true;
      }
      var bond := bonds[keeper];
      var slash := (bond * arb.missedSlashBPS) / 10000;
      if slash == 0 {
        slash := 1;
      }
      if slash > bond {
        slash := bond;
      }
      assert slash == SlashAmount(bond, arb.missedSlashBPS);
      ghost var before := Now();
      bonds := bonds[keeper := bond - slash];
      ok := accounts.Sub(BOND_ESCROW, slash);
      if !ok {
        return;
      }
      accounts.Add(REVENUE_ESCROW, slash);
      assert Now() == BondForfeited(before, keeper, slash);
      RecordRevenue("slashing", slash, SlashRef(id, keeper));
    }

    /** The next candidate that has not failed and is still bonded. */
    method FindNext(candidates: seq<Address>, failed: seq<Address>) returns (n: nat)
      ensures n == NextCandidate(candidates, failed, bonds, arb.minKeeperBond, 0)
    {
      n := 0;
      while n < |candidates|
        invariant 0 <= n <= |candidates|
        invariant NextCandidate(candidates, failed, bonds, arb.minKeeperBond, 0)
               == NextCandidate(candidates, failed, bonds, arb.minKeeperBond, n)
      {
        var candidate := candidates[n];
        var alreadyFailed := false;
        var i := 0;
        while i < |failed|
          invariant 0 <= i <= |failed| && !alreadyFailed
          invariant candidate !in failed[..i]
        {
          if failed[i] == candidate {
            alreadyFailed := true;
            break;
          }
          i := i + 1;
        }
        assert alreadyFailed <==> candidate in failed;
        if !alreadyFailed && candidate in bonds && bonds[candidate] >= arb.minKeeperBond {
          return;
        }
        n := n + 1;
      }
    }

    method ExpireAuction(id: AuctionId, height: nat) returns (ok: bool)
      requires Solvent(Now())
      modifies this, accounts
      ensures ok <==> CanExpire(old(Now()), id, height)
      ensures Now() == match ApplyExpire(old(Now()), id, height) case Some(t) => t case None => old(Now())
    {
      if id !in auctions || auctions[id].status != Finalized || auctions[id].deadline == 0 || height <= auctions[id].deadline {
        return false;
      }
      var a := auctions[id];
      SlashKeeps(Now(), id, a.winner);
      ok := SlashWinner(id, a.winner);
      a := a.(failed := a.failed + [a.winner]);
      var n := FindNext(a.candidates, a.failed);
      if n == |a.candidates| {
        a := a.(status := Failed);
      } else {
        var next := a.candidates[n];
        a := a.(winner := next, winningFee := if next in a.bids then a.bids[next].feeBPS else 0,
                deadline := height + arb.executionTimeout);
      }
      auctions := auctions[id := a];
    }

    method CaptureRevenue(source: string, payer: Address, amount: int, reference: string) returns (ok: bool)
      modifies this`buckets, this`revenue, accounts
      ensures ok <==> ApplyCapture(env, old(Now()), source, payer, amount, reference).Some?
      ensures Now() == if ok then ApplyCapture(env, old(Now()), source, payer, amount, reference).value else old(Now())
    {
      if !env.validAddress(payer) || amount <= 0 {
        return false;
      }
      if RevenueId(source, reference, amount) in revenue {
        return true;
      }
      ok := accounts.Sub(payer, amount);
      if ok {
        accounts.Add(REVENUE_ESCROW, amount);
        RecordRevenue(source, amount, reference);
      }
    }

    method BuybackBurn(amount: int, reference: string) returns (ok: bool)
      modifies this`buckets, this`burned, accounts
      ensures ok <==> ApplyBurn(old(Now()), amount, reference).Some?
      ensures Now() == if ok then ApplyBurn(old(Now()), amount, reference).value else old(Now())
    {
      if amount <= 0 || reference == "" || !policy.buybackEnabled || buckets.buyback < amount {
        return false;
      }
      if buckets.insurance < policy.minInsurance {
        return false;
      }
      ok := accounts.Sub(REVENUE_ESCROW, amount);
      if ok {
        accounts.Add(BURN_ADDRESS, amount);
        buckets := buckets.(buyback := buckets.buyback - amount);
        burned := burned + amount;
      }
    }

    method DeployCapital(target: Address, amount: int, approved: bool) returns (ok: bool)
      modifies this`buckets, accounts
      ensures ok <==> ApplyDeploy(env, old(Now()), target, amount, approved).Some?
      ensures Now() == if ok then ApplyDeploy(env, old(Now()), target, amount, approved).value else old(Now())
    {
      if !env.validAddress(target) || amount <= 0 || !approved {
        return false;
      }
      var cap := Bps(buckets.operations, policy.deployCapBPS);
      if amount > cap || buckets.operations < amount {
        return false;
      }
      ok := accounts.Sub(REVENUE_ESCROW, amount);
      if ok {
        accounts.Add(target, amount);
        buckets := buckets.(operations := buckets.operations - amount);
      }
    }
  }
}
