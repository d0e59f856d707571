/** What each custody operation moves and when it is accepted, and that a sealed
    fee binds its bidder. */
module CustodyLaws {
  import opened Basics
  import opened Sums
  import opened Ledger
  import opened CustodyModel
  import opened AuctionRuns
  import Sorting

  /** amount went from one account to another, and nothing else moved. */
  ghost predicate Paid(before: Balances, after: Balances, from: Address, to: Address, amount: int) {
    forall a :: BalanceOf(after, a) == BalanceOf(before, a) - (if a == from then amount else 0) + (if a == to then amount else 0)
  }

  lemma MoveIsPaid(b: Balances, from: Address, to: Address, amount: int)
    ensures Paid(b, Credit(Debit(b, from, amount), to, amount), from, to, amount)
  {
  }

  // ---------------------------------------------------------------- bonding

  /** A bond is taken from the keeper's own balance into the bond escrow, added to
      its bond alone, and cancels a pending withdrawal. */
  lemma BondMoves(e: Env, s: State, keeper: Address, amount: int)
    ensures ApplyBond(e, s, keeper, amount).Some?
            <==> e.validAddress(keeper) && 0 < amount && keeper in s.balances && amount <= s.balances[keeper]
    ensures var r := ApplyBond(e, s, keeper, amount);
            r.Some? ==>
              && Paid(s.balances, r.value.balances, keeper, BOND_ESCROW, amount)
              && (forall k :: Lookup(r.value.bonds, k) == Lookup(s.bonds, k) + if k == keeper then amount else 0)
              && keeper !in r.value.unbondAt
              && r.value == s.(balances := r.value.balances, bonds := r.value.bonds, unbondAt := s.unbondAt - {keeper})
  {
  }

  lemma BondCounts(e: Env, s: State, keeper: Address, amount: int)
    requires ApplyBond(e, s, keeper, amount).Some? && keeper != BOND_ESCROW
    ensures var t := ApplyBond(e, s, keeper, amount).value;
            && Lookup(t.bonds, keeper) == Lookup(s.bonds, keeper) + amount
            && BalanceOf(t.balances, keeper) == BalanceOf(s.balances, keeper) - amount
            && t.auctions == s.auctions && t.arb == s.arb
  {
  }

  lemma UnbondStarts(s: State, keeper: Address, height: nat)
    requires 0 < Lookup(s.bonds, keeper) && !OnDuty(s, keeper)
    ensures var r := ApplyRequestUnbond(s, keeper, height);
            && r.Some? && r.value == s.(unbondAt := r.value.unbondAt)
            && keeper in r.value.unbondAt && r.value.unbondAt[keeper] == height + s.arb.unbondDelay
  {
  }

  /** Bonding and withdrawing give everything back: a keeper without an auction to
      execute can ask for its bond at any height, gets it from the unbonding delay
      on and not before, and ends with the coins it had before it bonded. */
  lemma BondRoundTrip(e: Env, s: State, keeper: Address, amount: int, asked: nat, height: nat)
    requires Solvent(s) && External(keeper) && !OnDuty(s, keeper) && Lookup(s.bonds, keeper) == 0
    requires ApplyBond(e, s, keeper, amount).Some?
    ensures var bonded := ApplyBond(e, s, keeper, amount).value;
            var r := ApplyRequestUnbond(bonded, keeper, asked);
            && r.Some?
            && (var back := ApplyWithdraw(r.value, keeper, height);
                && (back.Some? <==> asked + s.arb.unbondDelay <= height)
                && (back.Some? ==>
                      && BalanceOf(back.value.balances, keeper) == BalanceOf(s.balances, keeper)
                      && Lookup(back.value.bonds, keeper) == 0))
  {
    hide ApplyBond, Solvent, ApplyRequestUnbond, Lookup;
    BondMoves(e, s, keeper, amount);
    BondKeeps(e, s, keeper, amount);
    BondCounts(e, s, keeper, amount);
    var bonded := ApplyBond(e, s, keeper, amount).value;
    DutyUnchanged(s, bonded, keeper);
    UnbondStarts(bonded, keeper, asked);
    var waiting := ApplyRequestUnbond(bonded, keeper, asked).value;
    SameBooksSolvent(bonded, waiting);
    WithdrawKeeps(waiting, keeper, height);
    WithdrawMoves(waiting, keeper, height);
  }

  lemma DutyUnchanged(s: State, t: State, keeper: Address)
    requires t.auctions == s.auctions
    ensures OnDuty(t, keeper) <==> OnDuty(s, keeper)
  {
  }

  lemma SameBooksSolvent(s: State, t: State)
    requires Solvent(s) && t == s.(unbondAt := t.unbondAt)
    ensures Solvent(t)
  {
  }

  /** A withdrawal pays the keeper its whole bond out of the bond escrow. */
  lemma WithdrawMoves(s: State, keeper: Address, height: nat)
    ensures var r := ApplyWithdraw(s, keeper, height);
            r.Some? ==>
              && Paid(s.balances, r.value.balances, BOND_ESCROW, keeper, Lookup(s.bonds, keeper))
              && (forall k :: Lookup(r.value.bonds, k) == if k == keeper then 0 else Lookup(s.bonds, k))
              && r.value == s.(balances := r.value.balances, bonds := r.value.bonds, unbondAt := s.unbondAt - {keeper})
  {
  }

  // ---------------------------------------------------------------- revenue

  /** x is the floor of that many ten-thousandths of amount. */
  predicate ShareOf(amount: int, bps: int, x: int) { 10000 * x <= amount * bps < 10000 * (x + 1) }

  lemma BpsIsShare(amount: int, bps: int)
    ensures ShareOf(amount, bps, Bps(amount, bps))
  {
    FloorOfBps(amount * bps);
  }

  lemma FloorOfBps(n: int)
    ensures 10000 * (n / 10000) <= n < 10000 * (n / 10000 + 1)
  {
  }

  /** Revenue other than slashed bonds is shared by the policy, rounded down; what
      is left goes to buybacks, at most three units above their own share, or to
      insurance while that is short or buybacks are off. */
  lemma SplitShares(p: EconomicPolicy, held: int, source: string, amount: int)
    requires p.Valid() && 0 <= amount && source != "slashing"
    ensures var a := Split(p, held, source, amount);
            && ShareOf(amount, p.lpYieldBPS, a.lpYield) && ShareOf(amount, p.operationsBPS, a.operations)
            && a.insurance + a.buyback == amount - a.lpYield - a.operations
            && (if p.buybackEnabled && p.minInsurance <= held
                then ShareOf(amount, p.insuranceBPS, a.insurance)
                     && amount * p.buybackBPS <= 10000 * a.buyback < amount * p.buybackBPS + 30000
                else a.buyback == 0)
  {
    BpsIsShare(amount, p.lpYieldBPS);
    BpsIsShare(amount, p.operationsBPS);
    BpsIsShare(amount, p.insuranceBPS);
    assert amount * p.insuranceBPS + amount * p.lpYieldBPS + amount * p.operationsBPS + amount * p.buybackBPS == amount * 10000;
  }

  /** Every bucket with the split of one amount added, unless it is on record. */
  ghost predicate Recorded(s: State, t: State, source: string, amount: int, reference: string) {
    var id := RevenueId(source, reference, amount);
    if id in s.revenue then t.buckets == s.buckets && t.revenue == s.revenue
    else
      var a := Split(s.policy, s.buckets.insurance, source, amount);
      && id in t.revenue
      && t.buckets.insurance == s.buckets.insurance + a.insurance && t.buckets.lpYield == s.buckets.lpYield + a.lpYield
      && t.buckets.operations == s.buckets.operations + a.operations && t.buckets.buyback == s.buckets.buyback + a.buyback
      && forall x :: x != id ==> (x in t.revenue <==> x in s.revenue)
  }

  /** A capture takes the amount from the payer once: it goes to the revenue escrow
      and into the buckets, and the same capture again changes nothing. */
  lemma CaptureMoves(e: Env, s: State, source: string, payer: Address, amount: int, reference: string)
    ensures var known := RevenueId(source, reference, amount) in s.revenue;
            var r := ApplyCapture(e, s, source, payer, amount, reference);
            && (r.Some? <==> e.validAddress(payer) && 0 < amount
                             && (known || (payer in s.balances && amount <= s.balances[payer])))
            && (r.Some? ==>
                  && (if known then r.value == s else Paid(s.balances, r.value.balances, payer, REVENUE_ESCROW, amount))
                  && Recorded(s, r.value, source, amount, reference)
                  && ApplyCapture(e, r.value, source, payer, amount, reference) == r)
  {
    hide Split;
    MoveIsPaid(s.balances, payer, REVENUE_ESCROW, amount);
  }

  /** A burn sends coins of the buyback bucket to the burn address. */
  lemma BurnMoves(s: State, amount: int, reference: string)
    ensures var r := ApplyBurn(s, amount, reference);
            r.Some? ==>
              && Paid(s.balances, r.value.balances, REVENUE_ESCROW, BURN_ADDRESS, amount)
              && r.value.buckets.buyback == s.buckets.buyback - amount && r.value.burned == s.burned + amount
              && r.value == s.(balances := r.value.balances, burned := r.value.burned,
                               buckets := s.buckets.(buyback := r.value.buckets.buyback))
  {
    MoveIsPaid(s.balances, REVENUE_ESCROW, BURN_ADDRESS, amount);
  }

  /** A deployment sends coins of the operations bucket to its target. */
  lemma DeployMoves(e: Env, s: State, target: Address, amount: int, approved: bool)
    ensures var r := ApplyDeploy(e, s, target, amount, approved);
            r.Some? ==>
              && Paid(s.balances, r.value.balances, REVENUE_ESCROW, target, amount)
              && r.value.buckets.operations == s.buckets.operations - amount
              && r.value == s.(balances := r.value.balances, buckets := s.buckets.(operations := r.value.buckets.operations))
  {
    MoveIsPaid(s.balances, REVENUE_ESCROW, target, amount);
  }

  // --------------------------------------------------- executing and expiring

  /** Only the winner of a finalized auction executes, from the end of the reveal
      window to its deadline.  A gain moves from the pools to the revenue escrow,
      no account pays for it, and the auction is then settled; a trade without gain
      stands between pools and treasury account and settles nothing. */
  lemma ExecuteMoves(s: State, id: AuctionId, keeper: Address, gain: int, height: nat)
    ensures ApplyExecute(s, id, keeper, gain, height).Some?
            <==> && id in s.auctions && s.auctions[id].status == Finalized && s.auctions[id].winner == keeper
                 && s.auctions[id].revealEnd < height && (s.auctions[id].deadline == 0 || height <= s.auctions[id].deadline)
    ensures var r := ApplyExecute(s, id, keeper, gain, height);
            r.Some? ==>
              && r.value.reserves == s.reserves - gain && r.value.bonds == s.bonds
              && (forall a :: BalanceOf(r.value.balances, a)
                              == BalanceOf(s.balances, a) + if a == GainGoesTo(gain) then gain else 0)
              && (if gain > 0 then
                    && Recorded(s, r.value, "protocol_arb", gain, AuctionRef(id))
                    && r.value.auctions == s.auctions[id := s.auctions[id].(status := Executed)]
                  else
                    r.value.buckets == s.buckets && r.value.revenue == s.revenue && r.value.auctions == s.auctions)
  {
    hide Split, AuctionRef;
    DistinctAccounts();
    if CanExecute(s, id, keeper, height) {
      var t := Traded(s, gain);
      MoveIsPaid(t.balances, LIQUIDITY_POOL, REVENUE_ESCROW, gain);
    }
  }

  function GainGoesTo(gain: int): Address { if gain > 0 then REVENUE_ESCROW else LIQUIDITY_POOL }

  /** ks lists every keeper that revealed, cheapest first. */
  ghost predicate ListsRevealed(bids: map<Address, Bid>, ks: seq<Address>) {
    && (forall k :: k in ks <==> k in bids && bids[k].revealed)
    && forall i, j :: 0 <= i < j < |ks| ==> BidLeq(bids[ks[i]], bids[ks[j]])
  }

  lemma RankedBids(bids: map<Address, Bid>, ranked: seq<Bid>, i: nat)
    requires IsRanking(bids, ranked) && i < |ranked|
    ensures ranked[i].keeper in bids && bids[ranked[i].keeper] == ranked[i] && ranked[i].revealed
  {
    assert ranked[i] in ranked;
  }

  lemma RankingLists(bids: map<Address, Bid>, ranked: seq<Bid>)
    requires KeyedByKeeper(bids) && IsRanking(bids, ranked)
    ensures ListsRevealed(bids, Keepers(ranked))
  {
    hide BidLeq;
    var ks := Keepers(ranked);
    forall i | 0 <= i < |ks| ensures ks[i] in bids && bids[ks[i]] == ranked[i] && ranked[i].revealed {
      RankedBids(bids, ranked, i);
    }
    forall k | k in bids && bids[k].revealed ensures k in ks {
      assert bids[k] in ranked;
      var i :| 0 <= i < |ranked| && ranked[i] == bids[k];
      assert ks[i] == k;
    }
    RankedInOrder(ranked);
  }

  lemma RankedInOrder(ranked: seq<Bid>)
    requires Sorting.StrictlySortedBy(BidLeq, ranked)
    ensures forall i, j :: 0 <= i < j < |ranked| ==> BidLeq(ranked[i], ranked[j])
  {
  }

  /** Finalizing lists every keeper that revealed, cheapest first, and gives the
      first of them the time of the policy to execute. */
  lemma CandidatesAreRanked(s: State, id: AuctionId, height: nat)
    requires AuctionsOk(s, height) && CanFinalize(s, id, height)
    ensures AuctionsKeyed(s)
    ensures var a := s.auctions[id]; var b := ApplyFinalize(s, id, height).value.auctions[id];
            b.status == Finalized ==>
              && b.deadline == height + s.arb.executionTimeout && b.bids == a.bids
              && b.candidates != [] && b.winner == b.candidates[0] && ListsRevealed(a.bids, b.candidates)
  {
    hide ListsRevealed, IsRanking;
    OkIsKeyed(s, height);
    var a := s.auctions[id];
    assert AuctionOk(id, a, height);
    RankingLists(a.bids, Ranking(a.bids));
    assert a.candidates + Keepers(Ranking(a.bids)) == Keepers(Ranking(a.bids));
  }

  /** A slash is the policy's part of the bond rounded down, never less than one
      unit and never more than the bond. */
  lemma SlashIs(bond: int, bps: nat)
    requires 0 < bond
    ensures var x := SlashAmount(bond, bps);
            && 1 <= x <= bond
            && (if bond * bps < 10000 then x == 1 else if bps <= 10000 then ShareOf(bond, bps, x) else x == bond)
  {
    FloorOfBps(bond * bps);
    var raw := bond * bps / 10000;
    if bps <= 10000 {
      MulMonotone(bond, bps, 10000);
    } else {
      MulMonotone(bond, 10000, bps);
    }
  }

  /** The winner that missed its deadline pays the slash out of its bond to
      insurance, and no one else pays anything. */
  lemma SlashMoves(s: State, id: AuctionId, keeper: Address)
    requires Solvent(s)
    ensures var r := Slashed(s, id, keeper);
            && r.Some?
            && (Lookup(s.bonds, keeper) <= 0 ==> r.value == s)
            && (0 < Lookup(s.bonds, keeper) ==>
                  var x := SlashAmount(s.bonds[keeper], s.arb.missedSlashBPS);
                  && Paid(s.balances, r.value.balances, BOND_ESCROW, REVENUE_ESCROW, x)
                  && (forall k :: Lookup(r.value.bonds, k) == Lookup(s.bonds, k) - if k == keeper then x else 0)
                  && (RevenueId("slashing", SlashRef(id, keeper), x) !in s.revenue ==>
                        r.value.buckets == s.buckets.(insurance := s.buckets.insurance + x)))
  {
    hide SlashRef, SlashAmount;
    if 0 < Lookup(s.bonds, keeper) {
      var x := SlashAmount(s.bonds[keeper], s.arb.missedSlashBPS);
      SlashAmountBounds(s.bonds[keeper], s.arb.missedSlashBPS);
      ForfeitKeeps(s, keeper, x);
      MoveIsPaid(s.balances, BOND_ESCROW, REVENUE_ESCROW, x);
      SplitIsExact(s.policy, s.buckets.insurance, "slashing", x);
    }
  }

  /** Still able to execute: it has not failed and holds the least bond. */
  predicate Eligible(s: State, failed: seq<Address>, keeper: Address) {
    keeper !in failed && keeper in s.bonds && s.arb.minKeeperBond <= s.bonds[keeper]
  }

  /** b is a with its winner failed and the next candidate in its place. */
  ghost predicate Succeeded(s: State, a: Auction, b: Auction, height: nat) {
    && b.failed == a.failed + [a.winner] && b.candidates == a.candidates && b.bids == a.bids
    && (b.status == Failed <==> forall n :: 0 <= n < |a.candidates| ==> !Eligible(s, b.failed, a.candidates[n]))
    && (b.status != Failed ==>
          && b.status == Finalized && b.deadline == height + s.arb.executionTimeout
          && (b.winner in a.bids ==> b.winningFee == a.bids[b.winner].feeBPS)
          && exists n :: FirstEligible(s, a.candidates, b.failed, n) && a.candidates[n] == b.winner)
  }

  ghost predicate FirstEligible(s: State, candidates: seq<Address>, failed: seq<Address>, n: int) {
    && 0 <= n < |candidates| && Eligible(s, failed, candidates[n])
    && forall k :: 0 <= k < n ==> !Eligible(s, failed, candidates[k])
  }

  lemma PromotionSucceeds(s: State, a: Auction, height: nat)
    requires a.status == Finalized
    ensures Succeeded(s, a, Promoted(s, a, height), height)
  {
    var failed := a.failed + [a.winner];
    var n := NextCandidate(a.candidates, failed, s.bonds, s.arb.minKeeperBond, 0);
    if n < |a.candidates| {
      assert FirstEligible(s, a.candidates, failed, n);
    }
  }

  /** After an expiry the first candidate in ranking order that is still eligible,
      now that the winner has failed and paid, takes over at its own fee with a
      new deadline; without one the auction fails. */
  lemma ExpiryPromotes(s: State, id: AuctionId, height: nat)
    requires Solvent(s) && CanExpire(s, id, height)
    ensures var r := ApplyExpire(s, id, height);
            && r.Some? && Succeeded(Slashed(s, id, s.auctions[id].winner).value, s.auctions[id], r.value.auctions[id], height)
            && forall x :: x in s.auctions && x != id ==> r.value.auctions[x] == s.auctions[x]
  {
    hide Slashed, Promoted, Succeeded, Solvent;
    var a := s.auctions[id];
    SlashKeeps(s, id, a.winner);
    PromotionSucceeds(Slashed(s, id, a.winner).value, a, height);
  }

  // ------------------------------------------------------------- sealed bids

  /** Opening needs a name and two windows that are not empty, and starts without bids. */
  lemma OpenStarts(s: State, opportunity: string, commitBlocks: nat, revealBlocks: nat, height: nat)
    ensures var id := AuctionId(opportunity, height); var r := ApplyOpen(s, opportunity, commitBlocks, revealBlocks, height);
            && (r.Some? <==> opportunity != "" && 0 < commitBlocks && 0 < revealBlocks)
            && (r.Some? ==>
                  var a := r.value.auctions[id];
                  && a.commitEnd == height + commitBlocks && a.revealEnd == a.commitEnd + revealBlocks
                  && a.status == Commit && a.bids == map[] && a.candidates == [] && a.failed == []
                  && r.value == s.(auctions := s.auctions[id := a]))
  {
  }

  /** A bid is accepted exactly from a bonded keeper in the commit window, and says
      nothing but its commitment. */
  lemma CommitSeals(e: Env, s: State, id: AuctionId, keeper: Address, commitment: string, height: nat)
    ensures var r := ApplyCommit(e, s, id, keeper, commitment, height);
            && (r.Some? <==>
                  && id in s.auctions && s.auctions[id].status == Commit && height <= s.auctions[id].commitEnd
                  && e.validAddress(keeper) && |commitment| == 66
                  && keeper in s.bonds && s.arb.minKeeperBond <= s.bonds[keeper])
            && (r.Some? ==>
                  r.value == s.(auctions := s.auctions[id := s.auctions[id].(bids :=
                    s.auctions[id].bids[keeper := Bid(keeper, commitment, 0, false)])]))
  {
  }

  /** A reveal is accepted exactly in the reveal window, for a fee of at most 2000
      that with its salt hashes to the keeper's own commitment. */
  lemma RevealOpens(e: Env, s: State, id: AuctionId, keeper: Address, fee: int, salt: string, height: nat)
    ensures var r := ApplyReveal(e, s, id, keeper, fee, salt, height);
            && (r.Some? <==>
                  && id in s.auctions && s.auctions[id].commitEnd < height <= s.auctions[id].revealEnd
                  && 0 <= fee <= 2000 && keeper in s.auctions[id].bids
                  && e.seal(id, keeper, fee, salt) == s.auctions[id].bids[keeper].commitment)
            && (r.Some? ==>
                  && Unsealed(s.auctions[id].bids, r.value.auctions[id].bids, keeper, fee)
                  && r.value == s.(auctions := s.auctions[id := s.auctions[id].(status := Reveal, bids := r.value.auctions[id].bids)]))
  {
  }

  /** One bid is open now, the commitments are as they were. */
  ghost predicate Unsealed(before: map<Address, Bid>, after: map<Address, Bid>, keeper: Address, fee: int) {
    && after.Keys == before.Keys && keeper in before
    && after[keeper] == Bid(before[keeper].keeper, before[keeper].commitment, fee, true)
    && forall k :: k in before && k != keeper ==> after[k] == before[k]
  }

  ghost predicate Matches(e: Env, id: AuctionId, keeper: Address, bid: Bid) {
    exists salt :: e.seal(id, keeper, bid.feeBPS, salt) == bid.commitment
  }

  /** Every revealed fee hashes to the commitment it was sealed in. */
  ghost predicate Sealed(e: Env, auctions: map<AuctionId, Auction>) {
    forall id, k :: id in auctions && k in auctions[id].bids && auctions[id].bids[k].revealed ==>
      Matches(e, id, k, auctions[id].bids[k])
  }

  /** No bid came, left or changed its commitment. */
  ghost predicate SameCommitments(before: map<Address, Bid>, after: map<Address, Bid>) {
    after.Keys == before.Keys && forall k :: k in before ==> after[k].commitment == before[k].commitment
  }

  /** The same auctions, with the same bids and commit windows. */
  ghost predicate SameBids(before: map<AuctionId, Auction>, after: map<AuctionId, Auction>) {
    && after.Keys == before.Keys
    && forall id :: id in before ==> after[id].bids == before[id].bids && after[id].commitEnd == before[id].commitEnd
  }

  lemma ClosedKeepsBids(s: State, op: Op, height: nat)
    requires AuctionsKeyed(s) && (op.Finalize? || op.Execute? || op.Expire?) && op.id in s.auctions
    ensures SameBids(s.auctions, s.auctions[op.id := Closed(s, op, height)])
  {
    hide Slashed;
  }

  /** Bids change by opening an auction, committing and revealing alone. */
  lemma QuietStep(e: Env, s: State, op: Op, height: nat)
    requires AuctionsKeyed(s) && !op.Open? && !op.CommitBid? && !op.RevealBid?
    ensures SameBids(s.auctions, Next(e, s, op, height).auctions)
  {
    hide Next, Closed;
    if op.Finalize? || op.Execute? || op.Expire? {
      ClosedBy(e, s, op, height);
      if op.id in s.auctions {
        ClosedKeepsBids(s, op, height);
      }
    } else {
      OtherStepKeepsAuctions(e, s, op, height);
    }
  }

  lemma SealedSame(e: Env, before: map<AuctionId, Auction>, after: map<AuctionId, Auction>)
    requires Sealed(e, before) && SameBids(before, after)
    ensures Sealed(e, after)
  {
  }

  lemma RevealKeepsSealed(e: Env, s: State, op: Op, height: nat)
    requires Sealed(e, s.auctions) && op.RevealBid?
    requires ApplyReveal(e, s, op.id, op.keeper, op.feeBPS, op.salt, height).Some?
    ensures Sealed(e, ApplyReveal(e, s, op.id, op.keeper, op.feeBPS, op.salt, height).value.auctions)
  {
    var t := ApplyReveal(e, s, op.id, op.keeper, op.feeBPS, op.salt, height).value.auctions;
    forall id, k | id in t && k in t[id].bids && t[id].bids[k].revealed ensures Matches(e, id, k, t[id].bids[k]) {
      if op.id == id && op.keeper == k {
        assert e.seal(id, k, op.feeBPS, op.salt) == t[id].bids[k].commitment;
      }
    }
  }

  lemma StepKeepsSealed(e: Env, s: State, op: Op, height: nat)
    requires AuctionsKeyed(s) && Sealed(e, s.auctions)
    ensures Sealed(e, Next(e, s, op, height).auctions)
  {
    match op
    case Open(opportunity, c, r) =>
    case CommitBid(id, keeper, commitment) =>
    case RevealBid(id, keeper, fee, salt) =>
      if ApplyReveal(e, s, id, keeper, fee, salt, height).Some? {
        RevealKeepsSealed(e, s, op, height);
      }
    case _ =>
      QuietStep(e, s, op, height);
      SealedSame(e, s.auctions, Next(e, s, op, height).auctions);
  }

  /** The auction with no bid more or less, and no commitment changed. */
  ghost predicate Fixed(auctions: map<AuctionId, Auction>, id: AuctionId, before: Auction) {
    && id in auctions && SameCommitments(before.bids, auctions[id].bids) && auctions[id].commitEnd == before.commitEnd
  }

  lemma OpenKeepsCommitments(s: State, opportunity: string, c: nat, r: nat, height: nat, id: AuctionId)
    requires id in s.auctions && id.openedAt < height
    ensures var t := ApplyOpen(s, opportunity, c, r, height); t.Some? ==> Fixed(t.value.auctions, id, s.auctions[id])
  {
  }

  lemma CommitKeepsCommitments(e: Env, s: State, op: AuctionId, keeper: Address, commitment: string, height: nat, id: AuctionId)
    requires id in s.auctions && s.auctions[id].commitEnd < height
    ensures var t := ApplyCommit(e, s, op, keeper, commitment, height); t.Some? ==> Fixed(t.value.auctions, id, s.auctions[id])
  {
  }

  lemma RevealKeepsCommitments(e: Env, s: State, op: AuctionId, keeper: Address, fee: int, salt: string, height: nat, id: AuctionId)
    requires id in s.auctions
    ensures var t := ApplyReveal(e, s, op, keeper, fee, salt, height); t.Some? ==> Fixed(t.value.auctions, id, s.auctions[id])
  {
  }

  /** Past its commit window an auction takes no bid and changes no commitment. */
  lemma StepKeepsCommitments(e: Env, s: State, op: Op, height: nat, id: AuctionId)
    requires AuctionsKeyed(s) && id in s.auctions && id.openedAt < s.auctions[id].commitEnd < height
    ensures Fixed(Next(e, s, op, height).auctions, id, s.auctions[id])
  {
    hide Fixed, ApplyOpen, ApplyCommit, ApplyReveal;
    match op
    case Open(opportunity, c, r) =>
      OpenKeepsCommitments(s, opportunity, c, r, height, id);
      StaysFixed(s.auctions, s.auctions, id);
    case CommitBid(x, keeper, commitment) =>
      CommitKeepsCommitments(e, s, x, keeper, commitment, height, id);
      StaysFixed(s.auctions, s.auctions, id);
    case RevealBid(x, keeper, fee, salt) =>
      RevealKeepsCommitments(e, s, x, keeper, fee, salt, height, id);
      StaysFixed(s.auctions, s.auctions, id);
    case _ =>
      QuietStep(e, s, op, height);
      StaysFixed(s.auctions, Next(e, s, op, height).auctions, id);
  }

  lemma StaysFixed(before: map<AuctionId, Auction>, after: map<AuctionId, Auction>, id: AuctionId)
    requires SameBids(before, after) && id in before
    ensures Fixed(after, id, before[id])
  {
  }

  lemma OpenedBefore(s: State, id: AuctionId, height: nat)
    requires AuctionsOk(s, height) && id in s.auctions
    ensures id.openedAt < s.auctions[id].commitEnd
  {
    assert AuctionOk(id, s.auctions[id], height);
  }

  /** In every run, from no auctions on, each revealed fee hashes to the commitment
      it was sealed in. */
  lemma {:induction false} RunKeepsSealed(e: Env, s: State, h: nat, trace: seq<Event>)
    requires AuctionsOk(s, h) && Ordered(h, trace) && Sealed(e, s.auctions)
    ensures Sealed(e, Run(e, s, h, trace).auctions)
    decreases |trace|
  {
    hide Sealed, AuctionsOk;
    if trace != [] {
      var ev := trace[0];
      StepKeepsAuctions(e, s, ev.op, h, ev.height);
      StepKeepsSealed(e, s, ev.op, ev.height);
      RunKeepsSealed(e, Next(e, s, ev.op, ev.height), ev.height, trace[1..]);
    }
  }

  lemma {:induction false} RunKeepsCommitments(e: Env, s: State, h: nat, trace: seq<Event>, id: AuctionId)
    requires AuctionsOk(s, h) && Ordered(h, trace)
    requires id in s.auctions && s.auctions[id].commitEnd < h
    ensures var t := Run(e, s, h, trace);
            id in t.auctions && SameCommitments(s.auctions[id].bids, t.auctions[id].bids)
    decreases |trace|
  {
    hide AuctionsOk;
    if trace != [] {
      var ev := trace[0];
      StepKeepsAuctions(e, s, ev.op, h, ev.height);
      OpenedBefore(s, id, h);
      StepKeepsCommitments(e, s, ev.op, ev.height, id);
      RunKeepsCommitments(e, Next(e, s, ev.op, ev.height), ev.height, trace[1..], id);
    }
  }

  /** One commitment hides one fee. */
  ghost predicate Binding(e: Env) {
    forall id, keeper, fee1, salt1, fee2, salt2 ::
      e.seal(id, keeper, fee1, salt1) == e.seal(id, keeper, fee2, salt2) ==> fee1 == fee2
  }

  /** Sealed bids bind: whatever happens after the commit window, and whatever other
      keepers reveal first, a keeper that reveals can only reveal one fee. */
  lemma FeesAreBound(e: Env, s: State, h: nat, one: seq<Event>, other: seq<Event>, id: AuctionId, keeper: Address)
    requires AuctionsOk(s, h) && Ordered(h, one) && Ordered(h, other) && Sealed(e, s.auctions) && Binding(e)
    requires id in s.auctions && s.auctions[id].commitEnd < h
    ensures id in Run(e, s, h, one).auctions && id in Run(e, s, h, other).auctions
    ensures var a, b := Run(e, s, h, one).auctions[id].bids, Run(e, s, h, other).auctions[id].bids;
            && (keeper in a <==> keeper in b)
            && (keeper in a && a[keeper].revealed && b[keeper].revealed ==> a[keeper].feeBPS == b[keeper].feeBPS)
  {
    hide Run;
    RunKeepsSealed(e, s, h, one);
    RunKeepsSealed(e, s, h, other);
    RunKeepsCommitments(e, s, h, one, id);
    RunKeepsCommitments(e, s, h, other, id);
    var a, b := Run(e, s, h, one).auctions[id].bids, Run(e, s, h, other).auctions[id].bids;
    if keeper in a && a[keeper].revealed && b[keeper].revealed {
      assert Matches(e, id, keeper, a[keeper]) && Matches(e, id, keeper, b[keeper]);
      var x :| e.seal(id, keeper, a[keeper].feeBPS, x) == a[keeper].commitment;
      var y :| e.seal(id, keeper, b[keeper].feeBPS, y) == b[keeper].commitment;
    }
  }
}
