/** Building a block and re-executing it, as functions: the proposer filters and
    executes verified transactions in whatever order its workers return them,
    every receiver executes the finished list again. */
module BlockExecution {
  import opened Basics
  import opened Sums
  import opened Ledger
  import opened Rewards
  import opened RewardSupply
  import opened Emission

  const ZERO_ADDRESS: Address := "0x0000000000000000000000000000000000000000"
  const MIN_GAS: int := 21000
  const GAS_PER_BYTE: int := 68

  datatype Kind = Transfer | Stake | Unstake | LpReward | ClaimReward | LiquidityClaim | Reward

  datatype Tx = Tx(from: Address, to: Address, value: nat, dataLength: nat, gasPrice: nat, nonce: nat,
                   kind: Kind, system: bool, hash: string, weight: Weight)
  {
    predicate IsSystem() { system || kind == Stake || kind == Unstake || kind == LpReward }

    /** Neither a reward entry nor internal bookkeeping. */
    predicate Charged() { kind != Reward && !IsSystem() }

    function Units(): nat { MIN_GAS + dataLength * GAS_PER_BYTE }

    /** The exact fee, before it is cut to 64 bits. */
    function Cost(): nat { Units() * gasPrice }

    /** The receiver's test, by division, for a fee past 64 bits. */
    predicate Overflows() { gasPrice > 0 && Units() > MAX_UINT64 / gasPrice }

    function Participant(): Participant {
      Rewards.Participant(hash, if (kind == LpReward || kind == ClaimReward || kind == LiquidityClaim) && to != "" then to else from, weight)
    }
  }

  /** What a verification worker reports about one pool transaction. */
  datatype Verified = Verified(tx: Tx, gasUsed: nat, fee: nat, valid: bool)

  /** Workers compute fees in 64-bit words.  A pooled transaction may be of any
      type, and its gas price 0 when base fee and tip wrap around together. */
  predicate WorkerResult(r: Verified) {
    r.valid && !r.tx.IsSystem() ==> r.gasUsed == r.tx.Units() && r.fee == r.tx.Cost() % TWO_64
  }

  // ------------------------------------------------------------- proposing

  datatype Mining = Mining(balances: Balances, kept: seq<Tx>, gasUsed: nat, gasFees: nat)

  predicate Keeps(m: Mining, r: Verified, gasLimit: nat) {
    r.tx.IsSystem() ||
    (r.valid && (m.gasUsed + r.gasUsed) % TWO_64 <= gasLimit && r.tx.value + r.fee <= BalanceOf(m.balances, r.tx.from))
  }

  /** The sender is charged if it can be; a refusal of the charge is ignored. */
  function Pay(b: Balances, tx: Tx, fee: nat): Balances {
    var charged := if CanDebit(b, tx.from, tx.value + fee) then Debit(b, tx.from, tx.value + fee) else b;
    Credit(charged, tx.to, tx.value)
  }

  function MineStep(m: Mining, r: Verified, gasLimit: nat): Mining {
    if !Keeps(m, r, gasLimit) then m
    else if r.tx.IsSystem() then m.(kept := m.kept + [r.tx])
    else Mining(Pay(m.balances, r.tx, r.fee), m.kept + [r.tx],
                (m.gasUsed + r.gasUsed) % TWO_64, (m.gasFees + r.fee) % TWO_64)
  }

  function Mine(b: Balances, results: seq<Verified>, gasLimit: nat): Mining {
    if results == [] then Mining(b, [], 0, 0)
    else MineStep(Mine(b, results[..|results| - 1], gasLimit), results[|results| - 1], gasLimit)
  }

  // ------------------------------------------------------------- replaying

  datatype Replaying = Replaying(balances: Balances, gasUsed: nat, gasFees: nat, seen: set<(Address, nat)>,
                                 executed: seq<Tx>, rewards: nat)

  datatype Block = Block(transactions: seq<Tx>, gasUsed: nat, validator: Address, breakdown: Breakdown,
                         height: nat, stateRoot: string)

  function ReplayStep(r: Replaying, tx: Tx, validator: Address, validatorReward: nat): Option<Replaying> {
    if tx.kind == Reward then
      if r.rewards != 0 || tx.to != validator || tx.value != validatorReward || tx.from != ZERO_ADDRESS then None
      else Some(r.(rewards := 1))
    else if tx.IsSystem() then Some(r.(executed := r.executed + [tx]))
    else if (tx.from, tx.nonce) in r.seen then None
    else if tx.Overflows() then None
    else
      var fee := tx.Cost() % TWO_64;
      if MAX_UINT64 - r.gasUsed < tx.Units() || MAX_UINT64 - r.gasFees < fee then None
      else if !CanDebit(r.balances, tx.from, tx.value + fee) then None
      else Some(Replaying(Pay(r.balances, tx, fee), r.gasUsed + tx.Units(), r.gasFees + fee,
                          r.seen + {(tx.from, tx.nonce)}, r.executed + [tx], r.rewards))
  }

  function Replay(b: Balances, txs: seq<Tx>, validator: Address, validatorReward: nat): Option<Replaying> {
    if txs == [] then Some(Replaying(b, 0, 0, {}, [], 0))
    else
      match Replay(b, txs[..|txs| - 1], validator, validatorReward)
      case None => None
      case Some(r) => ReplayStep(r, txs[|txs| - 1], validator, validatorReward)
  }

  function Participants(txs: seq<Tx>): (ps: seq<Participant>)
    ensures |ps| == |txs|
  {
    seq(|txs|, i requires 0 <= i < |txs| => txs[i].Participant())
  }

  /** The whole of ReplayIncomingBlock from the parent state. */
  function ReplayBlock(s: ChainState, book: Book, block: Block, root: ChainState -> string): Option<ChainState> {
    match Replay(s.balances, block.transactions, block.validator, block.breakdown.validatorReward)
    case None => None
    case Some(r) =>
      if r.rewards != 1 || r.gasUsed != block.gasUsed then None
      else
        var mid := s.(balances := r.balances);
        var ps := Participants(r.executed);
        var t := RewardState(mid, book, block.validator, ps, r.gasFees, block.height);
        if RewardBreakdown(mid, book, block.validator, ps, r.gasFees, block.height) != block.breakdown
           || root(t) != block.stateRoot then None
        else Some(t)
  }

  /** The whole of block production: the new state and the block. */
  function MineBlock(s: ChainState, book: Book, results: seq<Verified>, gasLimit: nat, validator: Address, height: nat,
                     root: ChainState -> string): (ChainState, Block)
  {
    var m := Mine(s.balances, results, gasLimit);
    var mid := s.(balances := m.balances);
    var ps := Participants(m.kept);
    var t := RewardState(mid, book, validator, ps, m.gasFees, height);
    var breakdown := RewardBreakdown(mid, book, validator, ps, m.gasFees, height);
    (t, Block(m.kept + [RewardTx(validator, breakdown.validatorReward)], m.gasUsed, validator, breakdown, height, root(t)))
  }

  function RewardTx(validator: Address, reward: nat): Tx {
    Tx(ZERO_ADDRESS, validator, reward, 0, 0, 0, Reward, false, "", 0.0)
  }

  // ------------------------------------------------------------- agreement

  predicate FeeFits(tx: Tx) { tx.Cost() <= MAX_UINT64 }

  /** The exact, unbounded gas and fee sums of the charged transfers in a list. */
  function UnitSum(txs: seq<Tx>): nat {
    if txs == [] then 0
    else UnitSum(txs[..|txs| - 1]) + (if txs[|txs| - 1].Charged() then txs[|txs| - 1].Units() else 0)
  }

  function FeeSum(txs: seq<Tx>): nat {
    if txs == [] then 0
    else FeeSum(txs[..|txs| - 1]) + (if txs[|txs| - 1].Charged() then txs[|txs| - 1].Cost() else 0)
  }

  predicate NonceUsed(txs: seq<Tx>, from: Address, nonce: nat) {
    exists i :: 0 <= i < |txs| && txs[i].Charged() && txs[i].from == from && txs[i].nonce == nonce
  }

  /** Has an account entry from the start, or was paid by an earlier transfer. */
  predicate Known(b: Balances, txs: seq<Tx>, who: Address) {
    who in b || exists i :: 0 <= i < |txs| && !txs[i].IsSystem() && txs[i].to == who
  }

  /** What a receiver asks of the next transaction of a list: no reward entry, no
      fee overflow, a fresh nonce, sums in 64 bits, and a sender that pays
      something or is known at its turn. */
  predicate Fits(b: Balances, txs: seq<Tx>, tx: Tx) {
    && tx.kind != Reward
    && (tx.IsSystem() ||
          (FeeFits(tx) && !NonceUsed(txs, tx.from, tx.nonce)
           && UnitSum(txs) + tx.Units() <= MAX_UINT64 && FeeSum(txs) + tx.Cost() <= MAX_UINT64
           && (tx.value + tx.Cost() > 0 || Known(b, txs, tx.from))))
  }

  predicate Replayable(b: Balances, txs: seq<Tx>) {
    txs == [] || (Replayable(b, txs[..|txs| - 1]) && Fits(b, txs[..|txs| - 1], txs[|txs| - 1]))
  }

  lemma OverflowGuard(units: nat, price: nat)
    ensures price > 0 && units > MAX_UINT64 / price <==> units * price > MAX_UINT64
  {
    if price > 0 {
      var q := MAX_UINT64 / price;
      assert q * price <= MAX_UINT64 < q * price + price;
      if units > q {
        assert units * price >= (q + 1) * price;
      } else {
        assert units * price <= q * price;
      }
    }
  }

  lemma OverflowIsExact(tx: Tx)
    ensures tx.Overflows() <==> !FeeFits(tx)
    ensures FeeFits(tx) ==> tx.Cost() % TWO_64 == tx.Cost()
  {
    OverflowGuard(tx.Units(), tx.gasPrice);
  }

  ghost predicate SeenBy(txs: seq<Tx>, seen: set<(Address, nat)>) {
    forall a: Address, n: nat :: (a, n) in seen <==> NonceUsed(txs, a, n)
  }

  lemma NonceUsedSnoc(txs: seq<Tx>, tx: Tx, a: Address, n: nat)
    ensures NonceUsed(txs + [tx], a, n) <==> NonceUsed(txs, a, n) || (tx.Charged() && tx.from == a && tx.nonce == n)
  {
    var all := txs + [tx];
    assert all[|txs|] == tx;
    assert forall i :: 0 <= i < |txs| ==> all[i] == txs[i];
  }

  lemma SeenSnoc(txs: seq<Tx>, tx: Tx, seen: set<(Address, nat)>)
    requires SeenBy(txs, seen)
    ensures SeenBy(txs + [tx], if tx.Charged() then seen + {(tx.from, tx.nonce)} else seen)
  {
    forall a: Address, n: nat ensures NonceUsed(txs + [tx], a, n) <==>
                          (a, n) in (if tx.Charged() then seen + {(tx.from, tx.nonce)} else seen) {
      NonceUsedSnoc(txs, tx, a, n);
    }
  }

  /** The accounts with an entry, after a list has run from b. */
  ghost predicate KnownBy(b: Balances, txs: seq<Tx>, now: Balances) {
    forall a: Address :: a in now <==> Known(b, txs, a)
  }

  lemma KnownSnoc(b: Balances, txs: seq<Tx>, tx: Tx, a: Address)
    ensures Known(b, txs + [tx], a) <==> Known(b, txs, a) || (!tx.IsSystem() && tx.to == a)
  {
    var all := txs + [tx];
    assert all[|txs|] == tx;
    assert forall i :: 0 <= i < |txs| ==> all[i] == txs[i];
  }

  lemma PayKnows(b: Balances, txs: seq<Tx>, now: Balances, tx: Tx, fee: nat)
    requires KnownBy(b, txs, now) && !tx.IsSystem()
    ensures KnownBy(b, txs + [tx], Pay(now, tx, fee))
  {
    forall a: Address ensures a in Pay(now, tx, fee) <==> Known(b, txs + [tx], a) {
      KnownSnoc(b, txs, tx, a);
    }
  }

  lemma SystemKnows(b: Balances, txs: seq<Tx>, now: Balances, tx: Tx)
    requires KnownBy(b, txs, now) && tx.IsSystem()
    ensures KnownBy(b, txs + [tx], now)
  {
    forall a: Address ensures a in now <==> Known(b, txs + [tx], a) {
      KnownSnoc(b, txs, tx, a);
    }
  }

  lemma SnocSums(txs: seq<Tx>, tx: Tx)
    ensures UnitSum(txs + [tx]) == UnitSum(txs) + (if tx.Charged() then tx.Units() else 0)
    ensures FeeSum(txs + [tx]) == FeeSum(txs) + (if tx.Charged() then tx.Cost() else 0)
  {
    assert (txs + [tx])[..|txs|] == txs;
  }

  lemma ReplayableSnoc(b: Balances, txs: seq<Tx>, tx: Tx)
    ensures Replayable(b, txs + [tx]) <==> Replayable(b, txs) && Fits(b, txs, tx)
  {
    assert (txs + [tx])[..|txs|] == txs;
  }

  lemma ReplaySnoc(b: Balances, txs: seq<Tx>, tx: Tx, validator: Address, reward: nat)
    ensures Replay(b, txs + [tx], validator, reward)
         == match Replay(b, txs, validator, reward)
            case None => None
            case Some(r) => ReplayStep(r, tx, validator, reward)
  {
    assert (txs + [tx])[..|txs|] == txs;
  }

  /** The receiver has run what the proposer kept, and met no reward entry yet. */
  predicate Clear(r: Option<Replaying>) { r.Some? && r.value.rewards == 0 }

  /** The same balances, counters and nonces on both sides. */
  ghost predicate Mirrors(m: Mining, r: Replaying) {
    && r.balances == m.balances
    && r.gasUsed == m.gasUsed == UnitSum(m.kept) <= MAX_UINT64
    && r.gasFees == m.gasFees == FeeSum(m.kept) <= MAX_UINT64
    && r.executed == m.kept && SeenBy(m.kept, r.seen)
  }

  /** The proposer's run and the receiver's run over what it kept. */
  ghost predicate InStep(b: Balances, m: Mining, validator: Address, reward: nat) {
    var r := Replay(b, m.kept, validator, reward);
    && (Clear(r) <==> Replayable(b, m.kept))
    && (Clear(r) ==> Mirrors(m, r.value))
    && KnownBy(b, m.kept, m.balances)
  }

  /** Once a reward entry was met the receiver stays past it. */
  lemma RewardsOnlyRise(r: Replaying, tx: Tx, validator: Address, reward: nat)
    ensures var t := ReplayStep(r, tx, validator, reward);
            Clear(t) ==> r.rewards == 0 && tx.kind != Reward
  {
  }

  lemma TransferStep(b: Balances, r: Replaying, m: Mining, v: Verified, gasLimit: nat, validator: Address, reward: nat)
    requires WorkerResult(v) && Keeps(m, v, gasLimit) && v.tx.Charged()
    requires Mirrors(m, r) && r.rewards == 0 && KnownBy(b, m.kept, m.balances)
    ensures var tx := v.tx;
            var t := ReplayStep(r, tx, validator, reward);
            && (Clear(t) <==> Fits(b, m.kept, tx))
            && (Clear(t) ==> && MineStep(m, v, gasLimit) == Mining(t.value.balances, m.kept + [tx], t.value.gasUsed, t.value.gasFees)
                             && t.value.gasUsed == m.gasUsed + tx.Units() <= MAX_UINT64
                             && t.value.gasFees == m.gasFees + tx.Cost() <= MAX_UINT64
                             && t.value.executed == m.kept + [tx] && t.value.seen == r.seen + {(tx.from, tx.nonce)})
  {
    hide NonceUsed, Known, UnitSum, FeeSum, Tx.Overflows, Tx.Cost, Tx.Units;
    var tx := v.tx;
    OverflowIsExact(tx);
    assert (tx.from, tx.nonce) in r.seen <==> NonceUsed(m.kept, tx.from, tx.nonce);
    assert tx.from in m.balances <==> Known(b, m.kept, tx.from);
  }

  /** A kept transfer is executed by the receiver exactly when it passes the
      receiver's checks, and then with the same effect. */
  lemma TransferInStep(b: Balances, m: Mining, v: Verified, gasLimit: nat, validator: Address, reward: nat)
    requires InStep(b, m, validator, reward) && WorkerResult(v)
    requires Keeps(m, v, gasLimit) && v.tx.Charged()
    ensures InStep(b, MineStep(m, v, gasLimit), validator, reward)
  {
    var tx := v.tx;
    SnocSums(m.kept, tx);
    ReplayableSnoc(b, m.kept, tx);
    ReplaySnoc(b, m.kept, tx, validator, reward);
    PayKnows(b, m.kept, m.balances, tx, v.fee);
    var r := Replay(b, m.kept, validator, reward);
    if Clear(r) {
      SeenSnoc(m.kept, tx, r.value.seen);
      TransferStep(b, r.value, m, v, gasLimit, validator, reward);
    } else if r.Some? {
      RewardsOnlyRise(r.value, tx, validator, reward);
    }
  }

  /** A kept reward entry: whatever it says, the receiver is past it or stuck. */
  lemma RewardInStep(b: Balances, m: Mining, v: Verified, gasLimit: nat, validator: Address, reward: nat)
    requires InStep(b, m, validator, reward) && WorkerResult(v) && Keeps(m, v, gasLimit) && v.tx.kind == Reward
    ensures InStep(b, MineStep(m, v, gasLimit), validator, reward)
  {
    ReplayableSnoc(b, m.kept, v.tx);
    ReplaySnoc(b, m.kept, v.tx, validator, reward);
    if v.tx.IsSystem() {
      SystemKnows(b, m.kept, m.balances, v.tx);
    } else {
      PayKnows(b, m.kept, m.balances, v.tx, v.fee);
    }
    var r := Replay(b, m.kept, validator, reward);
    if r.Some? {
      RewardsOnlyRise(r.value, v.tx, validator, reward);
    }
  }

  lemma SystemInStep(b: Balances, m: Mining, v: Verified, gasLimit: nat, validator: Address, reward: nat)
    requires InStep(b, m, validator, reward) && v.tx.IsSystem() && v.tx.kind != Reward
    ensures InStep(b, MineStep(m, v, gasLimit), validator, reward)
  {
    SnocSums(m.kept, v.tx);
    ReplayableSnoc(b, m.kept, v.tx);
    ReplaySnoc(b, m.kept, v.tx, validator, reward);
    SystemKnows(b, m.kept, m.balances, v.tx);
    var r := Replay(b, m.kept, validator, reward);
    if Clear(r) {
      SeenSnoc(m.kept, v.tx, r.value.seen);
    }
  }

  lemma {:induction false} MiningInStep(b: Balances, results: seq<Verified>, gasLimit: nat, validator: Address, reward: nat)
    requires forall v :: v in results ==> WorkerResult(v)
    ensures InStep(b, Mine(b, results, gasLimit), validator, reward)
    decreases |results|
  {
    if results == [] {
      assert SeenBy([], {});
      assert KnownBy(b, [], b);
    } else {
      var init, v := results[..|results| - 1], results[|results| - 1];
      assert v in results;
      assert forall u :: u in init ==> u in results;
      MiningInStep(b, init, gasLimit, validator, reward);
      var m := Mine(b, init, gasLimit);
      if Keeps(m, v, gasLimit) {
        if v.tx.kind == Reward {
          RewardInStep(b, m, v, gasLimit, validator, reward);
        } else if v.tx.IsSystem() {
          SystemInStep(b, m, v, gasLimit, validator, reward);
        } else {
          TransferInStep(b, m, v, gasLimit, validator, reward);
        }
      }
    }
  }

  /** Proposer and receiver agree: whatever order the workers answered in and
      whatever order each node visits its maps, the receiver accepts the
      proposed block exactly when its list is replayable and both visiting
      orders round to the same shares, and then reaches the proposer's state. */
  lemma MinedBlockReplays(s: ChainState, mine: Book, theirs: Book, results: seq<Verified>, gasLimit: nat,
                          validator: Address, height: nat, root: ChainState -> string)
    requires forall v :: v in results ==> WorkerResult(v)
    requires SameBook(mine, theirs)
    ensures var (t, block) := MineBlock(s, mine, results, gasLimit, validator, height, root);
            var m := Mine(s.balances, results, gasLimit);
            var accepted := Replayable(s.balances, m.kept) && SharesAgree(mine, theirs, RewardPool(s, mine, m.gasFees, height));
            && (ReplayBlock(s, theirs, block, root).Some? <==> accepted)
            && (accepted ==> ReplayBlock(s, theirs, block, root) == Some(t))
  {
    hide RewardState, RewardBreakdown, SharesAgree, SameBook, Capped, Mine, Replay, Replayable, Participants;
    var (t, block) := MineBlock(s, mine, results, gasLimit, validator, height, root);
    var m := Mine(s.balances, results, gasLimit);
    var reward := block.breakdown.validatorReward;
    MiningInStep(s.balances, results, gasLimit, validator, reward);
    ReplaySnoc(s.balances, m.kept, RewardTx(validator, reward), validator, reward);
    RewardsAgree(s.(balances := m.balances), mine, theirs, validator, Participants(m.kept), m.gasFees, height);
  }

  // ------------------------------------------------- what the pool promises

  /** The transactions of a pool. */
  function PoolTxs(results: seq<Verified>): (txs: seq<Tx>)
    ensures |txs| == |results|
  {
    seq(|results|, i requires 0 <= i < |results| => results[i].tx)
  }

  /** No pooled transaction can spoil a list, whatever is kept before it. */
  predicate Clean(b: Balances, txs: seq<Tx>) {
    txs == [] ||
    var init, tx := txs[..|txs| - 1], txs[|txs| - 1];
    && Clean(b, init) && Fits(b, init, tx) && (tx.IsSystem() || tx.value + tx.Cost() > 0 || tx.from in b)
  }

  ghost predicate DrawnFrom(b: Balances, kept: seq<Tx>, pool: seq<Tx>) {
    && Replayable(b, kept)
    && UnitSum(kept) <= UnitSum(pool) && FeeSum(kept) <= FeeSum(pool)
    && (forall a: Address, n: nat :: NonceUsed(kept, a, n) ==> NonceUsed(pool, a, n))
  }

  lemma DrawnSkip(b: Balances, kept: seq<Tx>, pool: seq<Tx>, tx: Tx)
    requires DrawnFrom(b, kept, pool)
    ensures DrawnFrom(b, kept, pool + [tx])
  {
    SnocSums(pool, tx);
    forall a: Address, n: nat | NonceUsed(kept, a, n) ensures NonceUsed(pool + [tx], a, n) {
      NonceUsedSnoc(pool, tx, a, n);
    }
  }

  lemma DrawnKeep(b: Balances, kept: seq<Tx>, pool: seq<Tx>, tx: Tx)
    requires DrawnFrom(b, kept, pool) && Fits(b, pool, tx)
    requires tx.IsSystem() || tx.value + tx.Cost() > 0 || tx.from in b
    ensures DrawnFrom(b, kept + [tx], pool + [tx])
  {
    SnocSums(pool, tx);
    SnocSums(kept, tx);
    ReplayableSnoc(b, kept, tx);
    forall a: Address, n: nat | NonceUsed(kept + [tx], a, n) ensures NonceUsed(pool + [tx], a, n) {
      NonceUsedSnoc(pool, tx, a, n);
      NonceUsedSnoc(kept, tx, a, n);
    }
  }

  lemma {:induction false} KeptFromPool(b: Balances, results: seq<Verified>, gasLimit: nat)
    requires Clean(b, PoolTxs(results))
    ensures DrawnFrom(b, Mine(b, results, gasLimit).kept, PoolTxs(results))
    decreases |results|
  {
    if results != [] {
      var init, v := results[..|results| - 1], results[|results| - 1];
      assert PoolTxs(results)[..|results| - 1] == PoolTxs(init);
      assert PoolTxs(results) == PoolTxs(init) + [v.tx];
      KeptFromPool(b, init, gasLimit);
      DrawnSkip(b, Mine(b, init, gasLimit).kept, PoolTxs(init), v.tx);
      DrawnKeep(b, Mine(b, init, gasLimit).kept, PoolTxs(init), v.tx);
    }
  }

  /** A clean pool always yields a block that a receiver with the same shares accepts. */
  lemma CleanPoolAlwaysReplays(s: ChainState, mine: Book, theirs: Book, results: seq<Verified>, gasLimit: nat,
                               validator: Address, height: nat, root: ChainState -> string)
    requires forall v :: v in results ==> WorkerResult(v)
    requires Clean(s.balances, PoolTxs(results)) && SameBook(mine, theirs)
    requires FloatSum(mine.curve) == FloatSum(theirs.curve) && FloatSum(mine.longLock) == FloatSum(theirs.longLock)
    requires multiset(Merged(mine.longLock)) == multiset(Merged(theirs.longLock))
    ensures var (t, block) := MineBlock(s, mine, results, gasLimit, validator, height, root);
            ReplayBlock(s, theirs, block, root) == Some(t)
  {
    KeptFromPool(s.balances, results, gasLimit);
    EqualTotalsAgree(mine, theirs, RewardPool(s, mine, Mine(s.balances, results, gasLimit).gasFees, height));
    MinedBlockReplays(s, mine, theirs, results, gasLimit, validator, height, root);
  }

  // ------------------------------------------------ what a worker lets through

  const GAS_LIMIT: nat := 500_000_000

  /** The transaction passes verification and is kept, and then every receiver
      refuses the block. */
  ghost predicate KeptThenRefused(b: Balances, v: Verified) {
    && WorkerResult(v) && Mine(b, [v], GAS_LIMIT).kept == [v.tx]
    && forall pending: map<string, int>, emitted: int, book: Book, validator: Address, height: nat ::
         EveryoneRefuses(ChainState(b, pending, emitted), book, v, validator, height)
  }

  ghost predicate EveryoneRefuses(s: ChainState, book: Book, v: Verified, validator: Address, height: nat) {
    forall root: ChainState -> string, theirs: Book | SameBook(book, theirs) ::
      ReplayBlock(s, theirs, MineBlock(s, book, [v], GAS_LIMIT, validator, height, root).1, root) == None
  }

  lemma KeptAlone(b: Balances, v: Verified)
    requires WorkerResult(v) && Keeps(Mining(b, [], 0, 0), v, GAS_LIMIT) && !Fits(b, [], v.tx)
    ensures KeptThenRefused(b, v)
  {
    assert [v][..0] == [];
    assert Mine(b, [v], GAS_LIMIT) == MineStep(Mining(b, [], 0, 0), v, GAS_LIMIT);
    ReplayableSnoc(b, [], v.tx);
    assert [] + [v.tx] == [v.tx];
    forall pending: map<string, int>, emitted: int, book: Book, validator: Address, height: nat
      ensures EveryoneRefuses(ChainState(b, pending, emitted), book, v, validator, height)
    {
      forall root: ChainState -> string, theirs: Book | SameBook(book, theirs)
        ensures ReplayBlock(ChainState(b, pending, emitted), theirs,
                            MineBlock(ChainState(b, pending, emitted), book, [v], GAS_LIMIT, validator, height, root).1, root) == None
      {
        MinedBlockReplays(ChainState(b, pending, emitted), book, theirs, [v], GAS_LIMIT, validator, height, root);
      }
    }
  }

  const WRAPPING: Tx := Tx("a", "b", 0, 0, 878_416_384_462_360, 0, Transfer, false, "t", 1.0)

  /** A gas price whose fee wraps around is charged as a small fee and kept. */
  lemma WrappedFeeIsRefused()
    ensures KeptThenRefused(map["a" := 8384], Verified(WRAPPING, 21000, 8384, true))
  {
    assert WRAPPING.Units() == 21000 && WRAPPING.Cost() == TWO_64 + 8384;
    assert WRAPPING.Cost() % TWO_64 == 8384;
    KeptAlone(map["a" := 8384], Verified(WRAPPING, 21000, 8384, true));
  }

  const POOLED_REWARD: Tx := Tx("a", "b", 5, 0, 10, 0, Reward, false, "t", 1.0)

  /** Anyone can pool an entry of the reward type: it is verified without a
      signature, kept and paid. */
  lemma PooledRewardIsRefused()
    ensures KeptThenRefused(map["a" := 1_000_000], Verified(POOLED_REWARD, 21000, 210_000, true))
  {
    assert POOLED_REWARD.Units() == 21000 && POOLED_REWARD.Cost() == 210_000;
    KeptAlone(map["a" := 1_000_000], Verified(POOLED_REWARD, 21000, 210_000, true));
  }

  const FREE_TRANSFER: Tx := Tx("a", "b", 0, 0, 0, 0, Transfer, false, "t", 1.0)

  /** A transfer of nothing at gas price 0, from an account nobody has heard of. */
  lemma FreeTransferIsRefused()
    ensures KeptThenRefused(map[], Verified(FREE_TRANSFER, 21000, 0, true))
  {
    assert FREE_TRANSFER.Units() == 21000 && FREE_TRANSFER.Cost() == 0;
    KeptAlone(map[], Verified(FREE_TRANSFER, 21000, 0, true));
  }

  // ----------------------------------------------------------------- supply

  lemma PayTotal(b: Balances, tx: Tx, fee: nat)
    requires CanDebit(b, tx.from, tx.value + fee)
    ensures Total(Pay(b, tx, fee)) == Total(b) - fee
  {
    DebitTotal(b, tx.from, tx.value + fee);
    CreditTotal(Debit(b, tx.from, tx.value + fee), tx.to, tx.value);
  }

  /** Executing a list burns exactly the fees it counts. */
  lemma {:induction false} ReplayTotal(b: Balances, txs: seq<Tx>, validator: Address, reward: nat)
    ensures var r := Replay(b, txs, validator, reward);
            r.Some? ==>
              && Total(r.value.balances) == Total(b) - r.value.gasFees
              && r.value.gasFees == FeeSum(txs) && |r.value.executed| <= |txs|
    decreases |txs|
  {
    if txs != [] {
      var tx := txs[|txs| - 1];
      ReplayTotal(b, txs[..|txs| - 1], validator, reward);
      var r := Replay(b, txs[..|txs| - 1], validator, reward);
      if r.Some? {
        ReplayStepTotal(r.value, tx, validator, reward);
      }
    }
  }

  lemma ReplayStepTotal(r: Replaying, tx: Tx, validator: Address, reward: nat)
    ensures var t := ReplayStep(r, tx, validator, reward);
            t.Some? ==>
              && Total(t.value.balances) - Total(r.balances) == r.gasFees - t.value.gasFees
              && t.value.gasFees - r.gasFees == (if tx.Charged() then tx.Cost() else 0)
              && |t.value.executed| <= |r.executed| + 1
  {
    hide Pay, Tx.Overflows, Tx.Cost, Tx.Units;
    if ReplayStep(r, tx, validator, reward).Some? && tx.Charged() {
      OverflowIsExact(tx);
      PayTotal(r.balances, tx, tx.Cost() % TWO_64);
    }
  }

  /** The reward pool of a block is small enough for the groups that share it. */
  predicate ModerateBlock(s: ChainState, book: Book, block: Block) {
    Moderate(book, |block.transactions|, RewardPool(s, book, FeeSum(block.transactions), block.height))
  }

  /** What an accepted block creates beyond its emission is exactly what its
      slices and rounded shares exceed its reward pool by. */
  lemma AcceptedBlockCreates(s: ChainState, book: Book, block: Block, root: ChainState -> string)
    ensures var t := ReplayBlock(s, book, block, root);
            t.Some? ==>
              var executed := Replay(s.balances, block.transactions, block.validator, block.breakdown.validatorReward).value.executed;
              var total := RewardPool(s, book, FeeSum(block.transactions), block.height);
              CoinsOf(t.value) - CoinsOf(s) - (t.value.emitted - s.emitted)
                == Pct(total, 40) + Pct(total, 11) + SharesSum(book, block.validator, Participants(executed), total) - total
  {
    hide SharesSum, Pct, RewardBreakdown, Participants, Replay, FeeSum, Total, Capped;
    ReplayTotal(s.balances, block.transactions, block.validator, block.breakdown.validatorReward);
    var r := Replay(s.balances, block.transactions, block.validator, block.breakdown.validatorReward);
    if r.Some? {
      RewardsCreate(s.(balances := r.value.balances), book, block.validator, Participants(r.value.executed),
                    r.value.gasFees, block.height);
    }
  }

  /** No accepted block of moderate size, however it was made, creates more coin
      than it emits, and emission never passes the cap. */
  lemma AcceptedBlockSupply(s: ChainState, book: Book, block: Block, root: ChainState -> string)
    requires s.emitted <= book.cap && ModerateBlock(s, book, block)
    ensures var t := ReplayBlock(s, book, block, root);
            t.Some? ==>
              && CoinsOf(t.value) - CoinsOf(s) <= t.value.emitted - s.emitted
              && s.emitted <= t.value.emitted <= book.cap
  {
    hide RewardState, RewardBreakdown, Participants, Replay, FeeSum, Total, Capped, Pct, Few;
    ReplayTotal(s.balances, block.transactions, block.validator, block.breakdown.validatorReward);
    var r := Replay(s.balances, block.transactions, block.validator, block.breakdown.validatorReward);
    if r.Some? {
      var slice := Pct(RewardPool(s, book, r.value.gasFees, block.height), 2);
      FewMonotone(|r.value.executed|, slice, |block.transactions|, slice);
      RewardsAreFunded(s.(balances := r.value.balances), book, block.validator, Participants(r.value.executed),
                       r.value.gasFees, block.height);
    }
  }

  /** A chain of accepted blocks, each replayed with the receiver's own books. */
  ghost predicate AcceptedChain(states: seq<ChainState>, books: seq<Book>, blocks: seq<Block>, root: ChainState -> string) {
    && |states| == |blocks| + 1 && |books| == |blocks|
    && forall i :: 0 <= i < |blocks| ==> ReplayBlock(states[i], books[i], blocks[i], root) == Some(states[i + 1])
  }

  /** Over every chain of accepted blocks of moderate size under a fixed cap, the
      coins in circulation grow by at most the coins emitted, and those never
      pass the cap. */
  lemma {:induction false} ChainSupply(states: seq<ChainState>, books: seq<Book>, blocks: seq<Block>, root: ChainState -> string, cap: int)
    requires AcceptedChain(states, books, blocks, root)
    requires forall i :: 0 <= i < |books| ==> books[i].cap == cap && ModerateBlock(states[i], books[i], blocks[i])
    requires states[0].emitted <= cap
    ensures var last := states[|blocks|];
            && CoinsOf(last) - CoinsOf(states[0]) <= last.emitted - states[0].emitted
            && states[0].emitted <= last.emitted <= cap
    decreases |blocks|
  {
    if blocks != [] {
      var n := |blocks| - 1;
      var ss, bs, ks := states[..n + 1], books[..n], blocks[..n];
      forall i | 0 <= i < n ensures ReplayBlock(ss[i], bs[i], ks[i], root) == Some(ss[i + 1])
                                 && ModerateBlock(ss[i], bs[i], ks[i]) {
        assert ReplayBlock(states[i], books[i], blocks[i], root) == Some(states[i + 1]);
      }
      ChainSupply(ss, bs, ks, root, cap);
      AcceptedBlockSupply(states[n], books[n], blocks[n], root);
    }
  }
}
