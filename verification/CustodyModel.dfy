/** Keeper bonds, arbitrage auctions and the protocol revenue escrow as one
    state machine over values: every operation, and what every run keeps. */
module CustodyModel {
  import opened Basics
  import opened Sums
  import opened Ledger
  import Sorting

  const BOND_ESCROW: Address := "0x0000000000000000000000000000000000000e03"
  const REVENUE_ESCROW: Address := "0x0000000000000000000000000000000000000e01"
  const BURN_ADDRESS: Address := "0x000000000000000000000000000000000000dead"
  const LIQUIDITY_POOL: Address := "0x1111111111111111111111111111111111111111"

  // ------------------------------------------------------------- entities

  datatype Status = Commit | Reveal | Finalized | Executed | Failed

  /** The auction id is a hash of the opportunity and the opening height. */
  datatype AuctionId = AuctionId(opportunity: string, openedAt: nat)

  datatype Bid = Bid(keeper: Address, commitment: string, feeBPS: int, revealed: bool)

  datatype Auction = Auction(commitEnd: nat, revealEnd: nat, status: Status, winner: Address, winningFee: int,
                             bids: map<Address, Bid>, candidates: seq<Address>, failed: seq<Address>,
                             deadline: nat)

  datatype ArbPolicy = ArbPolicy(minKeeperBond: int, executionTimeout: nat, missedSlashBPS: nat, unbondDelay: nat)

  datatype EconomicPolicy = EconomicPolicy(insuranceBPS: int, lpYieldBPS: int, operationsBPS: int, buybackBPS: int,
                                           minInsurance: int, buybackEnabled: bool, deployCapBPS: int)
  {
    predicate Valid() {
      && insuranceBPS >= 0 && lpYieldBPS >= 0 && operationsBPS >= 0 && buybackBPS >= 0
      && insuranceBPS + lpYieldBPS + operationsBPS + buybackBPS == 10000
      && 0 <= deployCapBPS <= 5000
    }
  }

  datatype Buckets = Buckets(insurance: int, lpYield: int, operations: int, buyback: int)
  {
    function Sum(): int { insurance + lpYield + operations + buyback }
    predicate NonNegative() { insurance >= 0 && lpYield >= 0 && operations >= 0 && buyback >= 0 }
    function Plus(b: Buckets): Buckets {
      Buckets(insurance + b.insurance, lpYield + b.lpYield, operations + b.operations, buyback + b.buyback)
    }
  }

  /** The revenue id is a hash of these three. */
  datatype RevenueId = RevenueId(source: string, reference: string, amount: int)

  /** The commitment hash and the address check, whatever they are. */
  datatype Env = Env(seal: (AuctionId, Address, int, string) -> string, validAddress: Address -> bool)

  datatype State = State(
    balances: Balances,
    reserves: int,                      // native coin held by the trading pools
    bonds: map<Address, int>,
    unbondAt: map<Address, nat>,
    auctions: map<AuctionId, Auction>,
    arb: ArbPolicy,
    policy: EconomicPolicy,
    buckets: Buckets,
    revenue: map<RevenueId, Buckets>,
    burned: int)

  datatype Op =
    | Bond(keeper: Address, amount: int)
    | RequestUnbond(keeper: Address)
    | WithdrawBond(keeper: Address)
    | Open(opportunity: string, commitBlocks: nat, revealBlocks: nat)
    | CommitBid(id: AuctionId, keeper: Address, commitment: string)
    | RevealBid(id: AuctionId, keeper: Address, feeBPS: int, salt: string)
    | Finalize(id: AuctionId)
    | Execute(id: AuctionId, keeper: Address, gain: int)
    | Expire(id: AuctionId)
    | Capture(source: string, payer: Address, amount: int, reference: string)
    | Burn(amount: int, reference: string)
    | Deploy(target: Address, amount: int, approved: bool)

  // ------------------------------------------------------ revenue records

  function Bps(amount: int, bps: int): int { (amount * bps) / 10000 }

  function Split(p: EconomicPolicy, insuranceHeld: int, source: string, amount: int): Buckets {
    var slashing := source == "slashing";
    var insurance := if slashing then amount else Bps(amount, p.insuranceBPS);
    var lpYield := if slashing then 0 else Bps(amount, p.lpYieldBPS);
    var operations := if slashing then 0 else Bps(amount, p.operationsBPS);
    var buyback := amount - (insurance + lpYield + operations);
    if !p.buybackEnabled || insuranceHeld < p.minInsurance
    then Buckets(insurance + buyback, lpYield, operations, 0)
    else Buckets(insurance, lpYield, operations, buyback)
  }

  function Record(s: State, source: string, amount: int, reference: string): State {
    var id := RevenueId(source, reference, amount);
    if id in s.revenue then s
    else
      var a := Split(s.policy, s.buckets.insurance, source, amount);
      s.(buckets := s.buckets.Plus(a), revenue := s.revenue[id := a])
  }

  lemma BpsBounds(amount: int, bps: int)
    requires 0 <= amount && 0 <= bps
    ensures 0 <= Bps(amount, bps) && 10000 * Bps(amount, bps) <= amount * bps
  {
  }

  /** Every record splits the amount exactly into buckets none of which is negative. */
  lemma SplitIsExact(p: EconomicPolicy, insuranceHeld: int, source: string, amount: int)
    requires p.Valid() && 0 <= amount
    ensures Split(p, insuranceHeld, source, amount).Sum() == amount
    ensures Split(p, insuranceHeld, source, amount).NonNegative()
    ensures source == "slashing" ==> Split(p, insuranceHeld, source, amount) == Buckets(amount, 0, 0, 0)
    ensures !p.buybackEnabled || insuranceHeld < p.minInsurance ==> Split(p, insuranceHeld, source, amount).buyback == 0
  {
    BpsBounds(amount, p.insuranceBPS);
    BpsBounds(amount, p.lpYieldBPS);
    BpsBounds(amount, p.operationsBPS);
    assert amount * p.insuranceBPS + amount * p.lpYieldBPS + amount * p.operationsBPS
        == amount * (p.insuranceBPS + p.lpYieldBPS + p.operationsBPS);
    assert amount * (10000 - p.buybackBPS) <= amount * 10000;
  }

  // ------------------------------------------------------------- auctions

  predicate BidLeq(a: Bid, b: Bid) {
    if a.feeBPS == b.feeBPS then Sorting.TextLeq(a.keeper, b.keeper) else a.feeBPS < b.feeBPS
  }

  lemma BidLeqIsOrder()
    ensures Sorting.TotalOrder(BidLeq)
  {
    Sorting.TextLeqIsOrder();
  }

  /** The revealed bids, cheapest first, ties by keeper address. */
  ghost predicate IsRanking(bids: map<Address, Bid>, ranked: seq<Bid>) {
    && Sorting.StrictlySortedBy(BidLeq, ranked)
    && forall b :: b in ranked <==> b.keeper in bids && bids[b.keeper] == b && b.revealed
  }

  /** Each bid is stored under its keeper. */
  ghost predicate KeyedByKeeper(bids: map<Address, Bid>) {
    forall k :: k in bids ==> bids[k].keeper == k
  }

  lemma RankingUnique(bids: map<Address, Bid>, a: seq<Bid>, b: seq<Bid>)
    requires IsRanking(bids, a) && IsRanking(bids, b)
    ensures a == b
  {
    BidLeqIsOrder();
    Sorting.StrictlySortedUnique(BidLeq, a, b);
  }

  /** Sorting the revealed bids in any order of arrival ranks them. */
  lemma SortRanks(bids: map<Address, Bid>, found: seq<Bid>)
    requires forall i, j :: 0 <= i < j < |found| ==> found[i].keeper != found[j].keeper
    requires forall b :: b in found <==> b.keeper in bids && bids[b.keeper] == b && b.revealed
    ensures IsRanking(bids, Sorting.Sort(BidLeq, found))
  {
    BidLeqIsOrder();
    Sorting.TextLeqIsOrder();
    Sorting.SortStrictly(BidLeq, found);
  }

  ghost function Ranking(bids: map<Address, Bid>): (ranked: seq<Bid>)
    requires KeyedByKeeper(bids)
    ensures IsRanking(bids, ranked)
  {
    RankingExists(bids);
    var ranked :| IsRanking(bids, ranked);
    ranked
  }

  lemma RankingExists(bids: map<Address, Bid>)
    requires KeyedByKeeper(bids)
    ensures exists ranked :: IsRanking(bids, ranked)
  {
    var found := AllRevealed(bids, bids.Keys);
    SortRanks(bids, found);
  }

  lemma {:induction false} AllRevealed(bids: map<Address, Bid>, keys: set<Address>) returns (found: seq<Bid>)
    requires KeyedByKeeper(bids) && keys <= bids.Keys
    ensures forall i, j :: 0 <= i < j < |found| ==> found[i].keeper != found[j].keeper
    ensures forall b :: b in found <==> b.keeper in keys && bids[b.keeper] == b && b.revealed
    decreases keys
  {
    found := [];
    if keys != {} {
      var k :| k in keys;
      found := AllRevealed(bids, keys - {k});
      if bids[k].revealed {
        found := found + [bids[k]];
      }
    }
  }

  function Keepers(ranked: seq<Bid>): (ks: seq<Address>)
    ensures |ks| == |ranked| && forall i :: 0 <= i < |ks| ==> ks[i] == ranked[i].keeper
  {
    seq(|ranked|, i requires 0 <= i < |ranked| => ranked[i].keeper)
  }

  /** The first candidate from index i on that has not failed and is still bonded. */
  function NextCandidate(candidates: seq<Address>, failed: seq<Address>, bonds: map<Address, int>, minBond: int, i: nat): (n: nat)
    requires i <= |candidates|
    ensures i <= n <= |candidates|
    ensures n < |candidates| ==> candidates[n] !in failed && candidates[n] in bonds && bonds[candidates[n]] >= minBond
    ensures forall k :: i <= k < n ==> candidates[k] in failed || candidates[k] !in bonds || bonds[candidates[k]] < minBond
    decreases |candidates| - i
  {
    if i == |candidates| then i
    else if candidates[i] !in failed && candidates[i] in bonds && bonds[candidates[i]] >= minBond then i
    else NextCandidate(candidates, failed, bonds, minBond, i + 1)
  }

  // ----------------------------------------------------------- operations

  function ApplyBond(e: Env, s: State, keeper: Address, amount: int): Option<State> {
    if !e.validAddress(keeper) || amount <= 0 || !CanDebit(s.balances, keeper, amount) then None
    else Some(s.(balances := Credit(Debit(s.balances, keeper, amount), BOND_ESCROW, amount),
                 bonds := s.bonds[keeper := Lookup(s.bonds, keeper) + amount],
                 unbondAt := s.unbondAt - {keeper}))
  }

  predicate OnDuty(s: State, keeper: Address) {
    exists id :: id in s.auctions && s.auctions[id].status == Finalized && s.auctions[id].winner == keeper
  }

  function ApplyRequestUnbond(s: State, keeper: Address, height: nat): Option<State> {
    if Lookup(s.bonds, keeper) <= 0 || OnDuty(s, keeper) then None
    else Some(s.(unbondAt := s.unbondAt[keeper := height + s.arb.unbondDelay]))
  }

  function ApplyWithdraw(s: State, keeper: Address, height: nat): Option<State> {
    if keeper !in s.unbondAt || height < s.unbondAt[keeper] || Lookup(s.bonds, keeper) <= 0
       || !CanDebit(s.balances, BOND_ESCROW, Lookup(s.bonds, keeper)) then None
    else
      var amount := Lookup(s.bonds, keeper);
      Some(s.(balances := Credit(Debit(s.balances, BOND_ESCROW, amount), keeper, amount),
              bonds := s.bonds[keeper := 0],
              unbondAt := s.unbondAt - {keeper}))
  }

  function ApplyOpen(s: State, opportunity: string, commitBlocks: nat, revealBlocks: nat, height: nat): Option<State> {
    if opportunity == "" || commitBlocks == 0 || revealBlocks == 0 then None
    else Some(s.(auctions := s.auctions[AuctionId(opportunity, height) :=
           Auction(height + commitBlocks, height + commitBlocks + revealBlocks, Commit, "", 0, map[], [], [], 0)]))
  }

  function ApplyCommit(e: Env, s: State, id: AuctionId, keeper: Address, commitment: string, height: nat): Option<State> {
    if id !in s.auctions || s.auctions[id].status != Commit || height > s.auctions[id].commitEnd
       || !e.validAddress(keeper) || |commitment| != 66
       || keeper !in s.bonds || s.bonds[keeper] < s.arb.minKeeperBond then None
    else
      var a := s.auctions[id];
      Some(s.(auctions := s.auctions[id := a.(bids := a.bids[keeper := Bid(keeper, commitment, 0, false)])]))
  }

  function ApplyReveal(e: Env, s: State, id: AuctionId, keeper: Address, feeBPS: int, salt: string, height: nat): Option<State> {
    if id !in s.auctions || height <= s.auctions[id].commitEnd || height > s.auctions[id].revealEnd
       || feeBPS < 0 || feeBPS > 2000 || keeper !in s.auctions[id].bids
       || s.auctions[id].bids[keeper].commitment != e.seal(id, keeper, feeBPS, salt) then None
    else
      var a := s.auctions[id];
      var bid := a.bids[keeper].(feeBPS := feeBPS, revealed := true);
      Some(s.(auctions := s.auctions[id := a.(status := Reveal, bids := a.bids[keeper := bid])]))
  }

  predicate CanFinalize(s: State, id: AuctionId, height: nat) {
    id in s.auctions && height > s.auctions[id].revealEnd
    && (s.auctions[id].status == Commit || s.auctions[id].status == Reveal)
  }

  ghost function Finalized0(s: State, a: Auction, height: nat): Auction
    requires KeyedByKeeper(a.bids)
  {
    var ranked := Ranking(a.bids);
    if ranked == [] then a.(status := Failed)
    else a.(status := Finalized, candidates := a.candidates + Keepers(ranked), winner := ranked[0].keeper,
            winningFee := ranked[0].feeBPS, deadline := height + s.arb.executionTimeout)
  }

  ghost function ApplyFinalize(s: State, id: AuctionId, height: nat): Option<State>
    requires AuctionsKeyed(s)
  {
    if !CanFinalize(s, id, height) then None
    else Some(s.(auctions := s.auctions[id := Finalized0(s, s.auctions[id], height)]))
  }

  predicate CanExecute(s: State, id: AuctionId, keeper: Address, height: nat) {
    && id in s.auctions
    && s.auctions[id].status == Finalized && s.auctions[id].winner == keeper
    && height > s.auctions[id].revealEnd
    && !(s.auctions[id].deadline > 0 && height > s.auctions[id].deadline)
  }

  function Traded(s: State, gain: int): State {
    s.(balances := Credit(s.balances, LIQUIDITY_POOL, gain), reserves := s.reserves - gain)
  }

  function MovedToEscrow(s: State, gain: int): State {
    s.(balances := Credit(Debit(s.balances, LIQUIDITY_POOL, gain), REVENUE_ESCROW, gain))
  }

  /** The trades move gain from the pools to the treasury account; a positive
      gain is then moved on to the revenue escrow and recorded. */
  function ApplyExecute(s: State, id: AuctionId, keeper: Address, gain: int, height: nat): Option<State> {
    if !CanExecute(s, id, keeper, height) then None
    else if gain <= 0 then Some(Traded(s, gain))
    else
      var recorded := Record(MovedToEscrow(Traded(s, gain), gain), "protocol_arb", gain, AuctionRef(id));
      Some(recorded.(auctions := s.auctions[id := s.auctions[id].(status := Executed)]))
  }

  function AuctionRef(id: AuctionId): string { "auction:" + id.opportunity + ":" + Digits(id.openedAt) }

  function Digits(n: nat): string {
    if n < 10 then [('0' as int + n) as char] else Digits(n / 10) + [('0' as int + n % 10) as char]
  }

  function SlashAmount(bond: int, bps: nat): int {
    var raw := (bond * bps) / 10000;
    var least := if raw == 0 then 1 else raw;
    if least > bond then bond else least
  }

  function BondForfeited(s: State, keeper: Address, slash: int): State {
    s.(bonds := s.bonds[keeper := Lookup(s.bonds, keeper) - slash],
       balances := Credit(Debit(s.balances, BOND_ESCROW, slash), REVENUE_ESCROW, slash))
  }

  function SlashRef(id: AuctionId, keeper: Address): string { "missed-arb:" + AuctionRef(id) + ":" + keeper }

  /** The winner that missed its deadline loses part of its bond to insurance. */
  function Slashed(s: State, id: AuctionId, keeper: Address): Option<State> {
    var bond := Lookup(s.bonds, keeper);
    if bond <= 0 then Some(s)
    else
      var slash := SlashAmount(bond, s.arb.missedSlashBPS);
      if !CanDebit(s.balances, BOND_ESCROW, slash) then None
      else
        Some(Record(BondForfeited(s, keeper, slash), "slashing", slash, SlashRef(id, keeper)))
  }

  predicate CanExpire(s: State, id: AuctionId, height: nat) {
    && id in s.auctions && s.auctions[id].status == Finalized
    && s.auctions[id].deadline != 0 && height > s.auctions[id].deadline
  }

  function Promoted(s: State, a: Auction, height: nat): Auction {
    var failed := a.failed + [a.winner];
    var n := NextCandidate(a.candidates, failed, s.bonds, s.arb.minKeeperBond, 0);
    if n == |a.candidates| then a.(failed := failed, status := Failed)
    else
      var next := a.candidates[n];
      a.(failed := failed, winner := next, winningFee := if next in a.bids then a.bids[next].feeBPS else 0,
         deadline := height + s.arb.executionTimeout)
  }

  function ApplyExpire(s: State, id: AuctionId, height: nat): Option<State> {
    if !CanExpire(s, id, height) then None
    else
      match Slashed(s, id, s.auctions[id].winner)
      case None => None
      case Some(t) => Some(t.(auctions := t.auctions[id := Promoted(t, s.auctions[id], height)]))
  }

  function ApplyCapture(e: Env, s: State, source: string, payer: Address, amount: int, reference: string): Option<State> {
    if !e.validAddress(payer) || amount <= 0 then None
    else if RevenueId(source, reference, amount) in s.revenue then Some(s)
    else if !CanDebit(s.balances, payer, amount) then None
    else Some(Record(s.(balances := Credit(Debit(s.balances, payer, amount), REVENUE_ESCROW, amount)),
                     source, amount, reference))
  }

  function ApplyBurn(s: State, amount: int, reference: string): Option<State> {
    if amount <= 0 || reference == "" || !s.policy.buybackEnabled || s.buckets.buyback < amount
       || s.buckets.insurance < s.policy.minInsurance || !CanDebit(s.balances, REVENUE_ESCROW, amount) then None
    else Some(s.(balances := Credit(Debit(s.balances, REVENUE_ESCROW, amount), BURN_ADDRESS, amount),
                 buckets := s.buckets.(buyback := s.buckets.buyback - amount),
                 burned := s.burned + amount))
  }

  function ApplyDeploy(e: Env, s: State, target: Address, amount: int, approved: bool): Option<State> {
    if !e.validAddress(target) || amount <= 0 || !approved
       || amount > Bps(s.buckets.operations, s.policy.deployCapBPS) || s.buckets.operations < amount
       || !CanDebit(s.balances, REVENUE_ESCROW, amount) then None
    else Some(s.(balances := Credit(Debit(s.balances, REVENUE_ESCROW, amount), target, amount),
                 buckets := s.buckets.(operations := s.buckets.operations - amount)))
  }

  ghost function Apply(e: Env, s: State, op: Op, height: nat): Option<State>
    requires AuctionsKeyed(s)
  {
    match op
    case Bond(keeper, amount) => ApplyBond(e, s, keeper, amount)
    case RequestUnbond(keeper) => ApplyRequestUnbond(s, keeper, height)
    case WithdrawBond(keeper) => ApplyWithdraw(s, keeper, height)
    case Open(opportunity, c, r) => ApplyOpen(s, opportunity, c, r, height)
    case CommitBid(id, keeper, commitment) => ApplyCommit(e, s, id, keeper, commitment, height)
    case RevealBid(id, keeper, fee, salt) => ApplyReveal(e, s, id, keeper, fee, salt, height)
    case Finalize(id) => ApplyFinalize(s, id, height)
    case Execute(id, keeper, gain) => ApplyExecute(s, id, keeper, gain, height)
    case Expire(id) => ApplyExpire(s, id, height)
    case Capture(source, payer, amount, reference) => ApplyCapture(e, s, source, payer, amount, reference)
    case Burn(amount, reference) => ApplyBurn(s, amount, reference)
    case Deploy(target, amount, approved) => ApplyDeploy(e, s, target, amount, approved)
  }

  /** A refused operation changes nothing. */
  ghost function Next(e: Env, s: State, op: Op, height: nat): State
    requires AuctionsKeyed(s)
  {
    match Apply(e, s, op, height) case Some(t) => t case None => s
  }

  // ------------------------------------------------------------ solvency

  ghost predicate AuctionsKeyed(s: State) {
    forall id :: id in s.auctions ==> KeyedByKeeper(s.auctions[id].bids)
  }

  /** Bonds are exactly covered by the bond escrow and the revenue buckets are
      covered by the revenue escrow. */
  ghost predicate Solvent(s: State) {
    && s.policy.Valid()
    && Sums.NonNegative(s.balances)
    && (forall k :: k in s.bonds ==> 0 <= s.bonds[k])
    && Total(s.bonds) == BalanceOf(s.balances, BOND_ESCROW)
    && s.buckets.NonNegative()
    && s.buckets.Sum() <= BalanceOf(s.balances, REVENUE_ESCROW)
    && 0 <= s.reserves
  }

  /** Accounts that take part are not the two escrows, which no one can sign
      for, and the trades of an execution cannot take more than the pools hold. */
  predicate Admissible(s: State, op: Op) {
    match op
    case Bond(keeper, _) => External(keeper)
    case WithdrawBond(keeper) => External(keeper)
    case Capture(_, payer, _, _) => External(payer)
    case Deploy(target, _, _) => target != BOND_ESCROW
    case Execute(_, _, gain) => 0 <= gain <= s.reserves
    case _ => true
  }

  predicate External(a: Address) { a != BOND_ESCROW && a != REVENUE_ESCROW }

  lemma DistinctAccounts()
    ensures BOND_ESCROW != REVENUE_ESCROW && BURN_ADDRESS != BOND_ESCROW && BURN_ADDRESS != REVENUE_ESCROW
    ensures External(LIQUIDITY_POOL)
  {
    assert BOND_ESCROW[41] == '3' && REVENUE_ESCROW[41] == '1' && BURN_ADDRESS[41] == 'd' && LIQUIDITY_POOL[2] == '1';
    assert BOND_ESCROW[2] == '0' && REVENUE_ESCROW[2] == '0';
  }

  ghost function Coins(s: State): int { Total(s.balances) + s.reserves }

  lemma MoveTotal(b: Balances, from: Address, to: Address, amount: int)
    ensures Total(Credit(Debit(b, from, amount), to, amount)) == Total(b)
  {
    DebitTotal(b, from, amount);
    CreditTotal(Debit(b, from, amount), to, amount);
  }

  /** What moving coins between two accounts does to the table. */
  lemma Moves(b: Balances, from: Address, to: Address, amount: int)
    requires Sums.NonNegative(b) && CanDebit(b, from, amount) && 0 <= amount && from != to
    ensures var m := Credit(Debit(b, from, amount), to, amount);
            && Sums.NonNegative(m) && Total(m) == Total(b)
            && BalanceOf(m, from) == BalanceOf(b, from) - amount && BalanceOf(m, to) == BalanceOf(b, to) + amount
            && forall a :: a != from && a != to ==> BalanceOf(m, a) == BalanceOf(b, a)
  {
    MoveTotal(b, from, to, amount);
  }

  lemma BondCovered(s: State, keeper: Address)
    requires Solvent(s) && keeper in s.bonds
    ensures s.bonds[keeper] <= BalanceOf(s.balances, BOND_ESCROW)
    ensures 0 < s.bonds[keeper] ==> BOND_ESCROW in s.balances
  {
    TotalNonNegative(s.bonds);
  }

  /** Bonds and bond escrow rising together. */
  lemma BondRises(s: State, t: State, keeper: Address, amount: int)
    requires Solvent(s) && 0 <= amount
    requires t.policy == s.policy && t.buckets == s.buckets && t.reserves == s.reserves
    requires t.bonds == s.bonds[keeper := Lookup(s.bonds, keeper) + amount]
    requires Sums.NonNegative(t.balances)
    requires BalanceOf(t.balances, BOND_ESCROW) == BalanceOf(s.balances, BOND_ESCROW) + amount
    requires BalanceOf(t.balances, REVENUE_ESCROW) == BalanceOf(s.balances, REVENUE_ESCROW)
    ensures Solvent(t)
  {
    hide Total, Sums.NonNegative, BalanceOf;
    TotalUpdate(s.bonds, keeper, Lookup(s.bonds, keeper) + amount);
  }

  lemma BondKeeps(e: Env, s: State, keeper: Address, amount: int)
    requires Solvent(s) && External(keeper)
    ensures var r := ApplyBond(e, s, keeper, amount); r.Some? ==> Solvent(r.value) && Coins(r.value) == Coins(s)
  {
    hide Total, Credit, Debit, CanDebit, Sums.NonNegative, BalanceOf;
    DistinctAccounts();
    var r := ApplyBond(e, s, keeper, amount);
    if r.Some? {
      Moves(s.balances, keeper, BOND_ESCROW, amount);
      BondRises(s, r.value, keeper, amount);
    }
  }

  /** A keeper past its unlock height always gets its whole bond back: the
      insolvent branch cannot be taken. */
  lemma WithdrawKeeps(s: State, keeper: Address, height: nat)
    requires Solvent(s) && External(keeper)
    ensures ApplyWithdraw(s, keeper, height).Some? <==>
              keeper in s.unbondAt && s.unbondAt[keeper] <= height && 0 < Lookup(s.bonds, keeper)
    ensures var r := ApplyWithdraw(s, keeper, height);
            r.Some? ==> Solvent(r.value) && Coins(r.value) == Coins(s)
                        && BalanceOf(r.value.balances, keeper) == BalanceOf(s.balances, keeper) + s.bonds[keeper]
  {
    DistinctAccounts();
    if 0 < Lookup(s.bonds, keeper) {
      BondCovered(s, keeper);
      MoveTotal(s.balances, BOND_ESCROW, keeper, s.bonds[keeper]);
      TotalUpdate(s.bonds, keeper, 0);
    }
  }

  /** Once its coins are in the escrow, an allocation keeps the buckets covered. */
  lemma AllocationKeeps(s: State, a: Buckets, id: RevenueId)
    requires a.NonNegative() && Solvent(s.(balances := Debit(s.balances, REVENUE_ESCROW, a.Sum())))
    ensures Solvent(s.(buckets := s.buckets.Plus(a), revenue := s.revenue[id := a])) && Solvent(s)
  {
    DistinctAccounts();
    var before := Debit(s.balances, REVENUE_ESCROW, a.Sum());
    forall k | k in s.balances ensures 0 <= s.balances[k] {
      assert before[k] <= s.balances[k];
    }
  }

  lemma RecordKeeps(s: State, source: string, amount: int, reference: string)
    requires 0 <= amount && Solvent(s.(balances := Debit(s.balances, REVENUE_ESCROW, amount)))
    ensures Solvent(Record(s, source, amount, reference))
    ensures Coins(Record(s, source, amount, reference)) == Coins(s)
  {
    SplitIsExact(s.policy, s.buckets.insurance, source, amount);
    AllocationKeeps(s, Split(s.policy, s.buckets.insurance, source, amount), RevenueId(source, reference, amount));
  }

  lemma CaptureKeeps(e: Env, s: State, source: string, payer: Address, amount: int, reference: string)
    requires Solvent(s) && External(payer)
    ensures var r := ApplyCapture(e, s, source, payer, amount, reference);
            r.Some? ==> Solvent(r.value) && Coins(r.value) == Coins(s)
  {
    DistinctAccounts();
    if 0 < amount && CanDebit(s.balances, payer, amount) {
      var paid := s.(balances := Credit(Debit(s.balances, payer, amount), REVENUE_ESCROW, amount));
      MoveTotal(s.balances, payer, REVENUE_ESCROW, amount);
      RecordKeeps(paid, source, amount, reference);
    }
  }

  /** Spending never fails for want of custody: the bucket check is enough. */
  lemma BurnKeeps(s: State, amount: int, reference: string)
    requires Solvent(s)
    ensures ApplyBurn(s, amount, reference).Some? <==>
              0 < amount <= s.buckets.buyback && reference != "" && s.policy.buybackEnabled
              && s.policy.minInsurance <= s.buckets.insurance
    ensures var r := ApplyBurn(s, amount, reference); r.Some? ==> Solvent(r.value) && Coins(r.value) == Coins(s)
  {
    DistinctAccounts();
    MoveTotal(s.balances, REVENUE_ESCROW, BURN_ADDRESS, amount);
  }

  lemma CapWithinBucket(held: int, bps: int)
    requires 0 <= held && 0 <= bps <= 5000
    ensures 0 <= Bps(held, bps) <= held
  {
    BpsBounds(held, bps);
    assert held * bps <= held * 10000;
  }

  lemma DeployKeeps(e: Env, s: State, target: Address, amount: int, approved: bool)
    requires Solvent(s) && target != BOND_ESCROW
    ensures ApplyDeploy(e, s, target, amount, approved).Some? <==>
              e.validAddress(target) && 0 < amount <= Bps(s.buckets.operations, s.policy.deployCapBPS) && approved
    ensures var r := ApplyDeploy(e, s, target, amount, approved); r.Some? ==> Solvent(r.value) && Coins(r.value) == Coins(s)
  {
    DistinctAccounts();
    CapWithinBucket(s.buckets.operations, s.policy.deployCapBPS);
    MoveTotal(s.balances, REVENUE_ESCROW, target, amount);
  }

  lemma TradeKeeps(s: State, gain: int)
    requires Solvent(s) && 0 <= gain <= s.reserves
    ensures Solvent(Traded(s, gain)) && Coins(Traded(s, gain)) == Coins(s)
  {
    DistinctAccounts();
    CreditTotal(s.balances, LIQUIDITY_POOL, gain);
  }

  lemma SettleKeeps(s: State, gain: int)
    requires Solvent(s) && 0 <= gain && CanDebit(s.balances, LIQUIDITY_POOL, gain)
    ensures var m := MovedToEscrow(s, gain);
            Solvent(m.(balances := Debit(m.balances, REVENUE_ESCROW, gain))) && Coins(m) == Coins(s)
  {
    DistinctAccounts();
    MoveTotal(s.balances, LIQUIDITY_POOL, REVENUE_ESCROW, gain);
  }

  lemma AuctionsDoNotMatter(s: State, auctions: map<AuctionId, Auction>)
    requires Solvent(s)
    ensures Solvent(s.(auctions := auctions)) && Coins(s.(auctions := auctions)) == Coins(s)
  {
  }

  lemma ExecuteKeeps(s: State, id: AuctionId, keeper: Address, gain: int, height: nat)
    requires Solvent(s) && 0 <= gain <= s.reserves
    ensures var r := ApplyExecute(s, id, keeper, gain, height); r.Some? ==> Solvent(r.value) && Coins(r.value) == Coins(s)
  {
    TradeKeeps(s, gain);
    if 0 < gain && id in s.auctions {
      var t := Traded(s, gain);
      SettleKeeps(t, gain);
      var m := MovedToEscrow(t, gain);
      RecordKeeps(m, "protocol_arb", gain, AuctionRef(id));
      var recorded := Record(m, "protocol_arb", gain, AuctionRef(id));
      AuctionsDoNotMatter(recorded, s.auctions[id := s.auctions[id].(status := Executed)]);
    }
  }

  lemma SlashAmountBounds(bond: int, bps: nat)
    requires 0 < bond
    ensures 0 < SlashAmount(bond, bps) <= bond
  {
    assert 0 <= bond * bps;
  }

  lemma ForfeitKeeps(s: State, keeper: Address, slash: int)
    requires Solvent(s) && keeper in s.bonds && 0 < slash <= s.bonds[keeper]
    ensures CanDebit(s.balances, BOND_ESCROW, slash)
    ensures var m := BondForfeited(s, keeper, slash);
            Solvent(m.(balances := Debit(m.balances, REVENUE_ESCROW, slash))) && Coins(m) == Coins(s)
  {
    DistinctAccounts();
    BondCovered(s, keeper);
    TotalUpdate(s.bonds, keeper, s.bonds[keeper] - slash);
    MoveTotal(s.balances, BOND_ESCROW, REVENUE_ESCROW, slash);
  }

  /** Slashing the winner of an expired auction cannot fail either. */
  lemma SlashKeeps(s: State, id: AuctionId, keeper: Address)
    requires Solvent(s)
    ensures Slashed(s, id, keeper).Some?
    ensures var t := Slashed(s, id, keeper).value;
            Solvent(t) && Coins(t) == Coins(s) && t.auctions == s.auctions
  {
    var bond := Lookup(s.bonds, keeper);
    DistinctAccounts();
    if 0 < bond {
      var slash := SlashAmount(bond, s.arb.missedSlashBPS);
      SlashAmountBounds(bond, s.arb.missedSlashBPS);
      ForfeitKeeps(s, keeper, slash);
      RecordKeeps(BondForfeited(s, keeper, slash), "slashing", slash, SlashRef(id, keeper));
    }
  }

  /** Every admissible operation keeps both escrows solvent and every coin. */
  lemma StepKeepsSolvency(e: Env, s: State, op: Op, height: nat)
    requires Solvent(s) && AuctionsKeyed(s) && Admissible(s, op)
    ensures Solvent(Next(e, s, op, height)) && Coins(Next(e, s, op, height)) == Coins(s)
  {
    match op
    case Bond(keeper, amount) => BondKeeps(e, s, keeper, amount);
    case WithdrawBond(keeper) => WithdrawKeeps(s, keeper, height);
    case Execute(id, keeper, gain) => ExecuteKeeps(s, id, keeper, gain, height);
    case Expire(id) => if id in s.auctions { SlashKeeps(s, id, s.auctions[id].winner); }
    case Capture(source, payer, amount, reference) => CaptureKeeps(e, s, source, payer, amount, reference);
    case Burn(amount, reference) => BurnKeeps(s, amount, reference);
    case Deploy(target, amount, approved) => DeployKeeps(e, s, target, amount, approved);
    case _ =>
  }
}
