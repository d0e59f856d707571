/** What a block does to each account, and which lists are mined and accepted,
    told by sums over the list instead of by running it. */
module BlockLaws {
  import opened Basics
  import opened Sums
  import opened Ledger
  import opened Emission
  import opened Rewards
  import opened RewardSupply
  import opened BlockExecution

  // -------------------------------------------------- who pays, who receives

  /** Transfers the miner executes: it treats a pooled reward entry as one. */
  predicate Moves(tx: Tx, mined: bool) { if mined then !tx.IsSystem() else tx.Charged() }

  /** What a list pays to an account. */
  function Received(txs: seq<Tx>, who: Address, mined: bool): nat {
    if txs == [] then 0
    else
      var tx := txs[|txs| - 1];
      Received(txs[..|txs| - 1], who, mined) + if Moves(tx, mined) && tx.to == who then tx.value else 0
  }

  /** What a list takes from an account, fees as 64-bit words. */
  function Paid(txs: seq<Tx>, who: Address, mined: bool): nat {
    if txs == [] then 0
    else
      var tx := txs[|txs| - 1];
      Paid(txs[..|txs| - 1], who, mined) + if Moves(tx, mined) && tx.from == who then tx.value + tx.Cost() % TWO_64 else 0
  }

  /** The balance the sums give. */
  function Settled(b: Balances, txs: seq<Tx>, who: Address, mined: bool): int {
    BalanceOf(b, who) + Received(txs, who, mined) - Paid(txs, who, mined)
  }

  lemma SettledSnoc(b: Balances, txs: seq<Tx>, tx: Tx, who: Address, mined: bool)
    ensures Settled(b, txs + [tx], who, mined)
         == Settled(b, txs, who, mined)
            + (if Moves(tx, mined) && tx.to == who then tx.value else 0)
            - (if Moves(tx, mined) && tx.from == who then tx.value + tx.Cost() % TWO_64 else 0)
  {
    assert (txs + [tx])[..|txs|] == txs;
  }

  lemma PaySettles(b: Balances, tx: Tx, fee: nat, who: Address)
    requires CanDebit(b, tx.from, tx.value + fee) || (tx.from !in b && tx.value + fee == 0)
    ensures BalanceOf(Pay(b, tx, fee), who)
         == BalanceOf(b, who) + (if tx.to == who then tx.value else 0) - (if tx.from == who then tx.value + fee else 0)
  {
  }

  lemma MineStepSettles(b: Balances, m: Mining, v: Verified, gasLimit: nat, who: Address)
    requires WorkerResult(v) && BalanceOf(m.balances, who) == Settled(b, m.kept, who, true)
    ensures var n := MineStep(m, v, gasLimit); BalanceOf(n.balances, who) == Settled(b, n.kept, who, true)
  {
    hide Settled, Pay, Tx.Cost, Tx.Units;
    SettledSnoc(b, m.kept, v.tx, who, true);
    if Keeps(m, v, gasLimit) && !v.tx.IsSystem() {
      PaySettles(m.balances, v.tx, v.fee, who);
    }
  }

  /** After mining, each account holds what it had, plus what the kept transfers
      pay it, less what those it sends cost. */
  lemma {:induction false} MiningSettles(b: Balances, results: seq<Verified>, gasLimit: nat, who: Address)
    requires forall v :: v in results ==> WorkerResult(v)
    ensures BalanceOf(Mine(b, results, gasLimit).balances, who)
         == Settled(b, Mine(b, results, gasLimit).kept, who, true)
    decreases |results|
  {
    if results != [] {
      hide MineStep, WorkerResult, BalanceOf;
      var init, v := results[..|results| - 1], results[|results| - 1];
      assert v in results;
      assert forall u :: u in init ==> u in results;
      MiningSettles(b, init, gasLimit, who);
      MineStepSettles(b, Mine(b, init, gasLimit), v, gasLimit, who);
    }
  }

  /** The same of every list a receiver gets through. */
  lemma {:induction false} ReplaySettles(b: Balances, txs: seq<Tx>, validator: Address, reward: nat, who: Address)
    ensures var r := Replay(b, txs, validator, reward);
            r.Some? ==> BalanceOf(r.value.balances, who) == Settled(b, txs, who, false)
    decreases |txs|
  {
    if txs != [] {
      var init, tx := txs[..|txs| - 1], txs[|txs| - 1];
      ReplaySettles(b, init, validator, reward, who);
      assert init + [tx] == txs;
      SettledSnoc(b, init, tx, who, false);
      var r := Replay(b, init, validator, reward);
      if r.Some? && ReplayStep(r.value, tx, validator, reward).Some? && tx.Charged() {
        PaySettles(r.value.balances, tx, tx.Cost() % TWO_64, who);
      }
    }
  }

  // ---------------------------------------------------- which lists get mined

  /** The 64-bit gas counter over a kept list. */
  function GasSum(txs: seq<Tx>): nat {
    if txs == [] then 0
    else GasSum(txs[..|txs| - 1]) + if txs[|txs| - 1].IsSystem() then 0 else txs[|txs| - 1].Units()
  }

  lemma WordAdds(a: nat, b: nat)
    ensures (a % TWO_64 + b) % TWO_64 == (a + b) % TWO_64
  {
  }

  lemma {:induction false} MinedGas(b: Balances, results: seq<Verified>, gasLimit: nat)
    requires forall v :: v in results ==> WorkerResult(v)
    ensures Mine(b, results, gasLimit).gasUsed == GasSum(Mine(b, results, gasLimit).kept) % TWO_64
    decreases |results|
  {
    if results != [] {
      var init, v := results[..|results| - 1], results[|results| - 1];
      assert v in results;
      assert forall u :: u in init ==> u in results;
      MinedGas(b, init, gasLimit);
      var m := Mine(b, init, gasLimit);
      assert (m.kept + [v.tx])[..|m.kept|] == m.kept;
      if Keeps(m, v, gasLimit) && !v.tx.IsSystem() {
        WordAdds(GasSum(m.kept), v.tx.Units());
      }
    }
  }

  /** A verified transfer that fits the block's gas and whose sender, after the
      kept list, still holds value and fee. */
  predicate Affordable(b: Balances, kept: seq<Tx>, v: Verified, gasLimit: nat) {
    && v.valid && (GasSum(kept) + v.tx.Units()) % TWO_64 <= gasLimit
    && v.tx.value + v.tx.Cost() % TWO_64 <= Settled(b, kept, v.tx.from, true)
  }

  lemma KeepsAffordable(b: Balances, m: Mining, v: Verified, gasLimit: nat)
    requires WorkerResult(v) && !v.tx.IsSystem() && m.gasUsed == GasSum(m.kept) % TWO_64
    requires BalanceOf(m.balances, v.tx.from) == Settled(b, m.kept, v.tx.from, true)
    ensures Keeps(m, v, gasLimit) <==> Affordable(b, m.kept, v, gasLimit)
  {
    hide Settled, GasSum, Tx.Cost, Tx.Units, BalanceOf;
    if v.valid {
      WordAdds(GasSum(m.kept), v.tx.Units());
    }
  }

  /** The miner takes the next result exactly when it is a system entry, or it was
      verified, fits the block's gas, and its sender, after all transfers kept
      before, still holds value and fee. */
  lemma KeptExactly(b: Balances, results: seq<Verified>, v: Verified, gasLimit: nat)
    requires WorkerResult(v) && forall u :: u in results ==> WorkerResult(u)
    ensures var kept := Mine(b, results, gasLimit).kept;
            Mine(b, results + [v], gasLimit).kept
              == if v.tx.IsSystem() || Affordable(b, kept, v, gasLimit) then kept + [v.tx] else kept
  {
    hide Settled, GasSum, Affordable, Keeps, Pay, WorkerResult, BalanceOf;
    assert (results + [v])[..|results|] == results;
    MiningSettles(b, results, gasLimit, v.tx.from);
    MinedGas(b, results, gasLimit);
    if v.tx.IsSystem() {
      SystemKept(Mine(b, results, gasLimit), v, gasLimit);
    } else {
      KeepsAffordable(b, Mine(b, results, gasLimit), v, gasLimit);
    }
  }

  lemma SystemKept(m: Mining, v: Verified, gasLimit: nat)
    requires v.tx.IsSystem()
    ensures Keeps(m, v, gasLimit)
  {
  }

  // ------------------------------------------------ which lists are accepted

  predicate HasReward(txs: seq<Tx>) { exists i :: 0 <= i < |txs| && txs[i].kind == Reward }

  /** What a receiver asks of the next entry: a first, matching reward entry; or a
      system entry; or a transfer without overflow, with a fresh nonce, whose
      sender is known and holds value and fee after everything before it. */
  predicate Runs(b: Balances, txs: seq<Tx>, tx: Tx, validator: Address, reward: nat) {
    if tx.kind == Reward then
      !HasReward(txs) && tx.to == validator && tx.value == reward && tx.from == ZERO_ADDRESS
    else
      tx.IsSystem()
      || (FeeFits(tx) && !NonceUsed(txs, tx.from, tx.nonce)
          && UnitSum(txs) + tx.Units() <= MAX_UINT64 && FeeSum(txs) + tx.Cost() <= MAX_UINT64
          && KnownToReceiver(b, txs, tx.from) && tx.value + tx.Cost() <= Settled(b, txs, tx.from, false))
  }

  predicate KnownToReceiver(b: Balances, txs: seq<Tx>, who: Address) {
    who in b || exists i :: 0 <= i < |txs| && txs[i].Charged() && txs[i].to == who
  }

  predicate AllRun(b: Balances, txs: seq<Tx>, validator: Address, reward: nat) {
    txs == [] || (AllRun(b, txs[..|txs| - 1], validator, reward)
                  && Runs(b, txs[..|txs| - 1], txs[|txs| - 1], validator, reward))
  }

  function Executed(txs: seq<Tx>): seq<Tx> {
    if txs == [] then []
    else Executed(txs[..|txs| - 1]) + if txs[|txs| - 1].kind == Reward then [] else [txs[|txs| - 1]]
  }

  /** The receiver's counters, read off the list. */
  ghost predicate Reads(b: Balances, txs: seq<Tx>, r: Replaying) {
    && r.gasUsed == UnitSum(txs) <= MAX_UINT64 && r.gasFees == FeeSum(txs) <= MAX_UINT64
    && r.executed == Executed(txs) && r.rewards == (if HasReward(txs) then 1 else 0)
    && SeenBy(txs, r.seen)
    && (forall a: Address :: a in r.balances <==> KnownToReceiver(b, txs, a))
    && (forall a: Address :: BalanceOf(r.balances, a) == Settled(b, txs, a, false))
  }

  lemma HasRewardSnoc(txs: seq<Tx>, tx: Tx)
    ensures HasReward(txs + [tx]) <==> HasReward(txs) || tx.kind == Reward
  {
    var all := txs + [tx];
    assert all[|txs|] == tx;
    assert forall i :: 0 <= i < |txs| ==> all[i] == txs[i];
  }

  lemma KnownToReceiverSnoc(b: Balances, txs: seq<Tx>, tx: Tx, who: Address)
    ensures KnownToReceiver(b, txs + [tx], who) <==> KnownToReceiver(b, txs, who) || (tx.Charged() && tx.to == who)
  {
    var all := txs + [tx];
    assert all[|txs|] == tx;
    assert forall i :: 0 <= i < |txs| ==> all[i] == txs[i];
  }

  lemma ExecutedSnoc(txs: seq<Tx>, tx: Tx)
    ensures Executed(txs + [tx]) == Executed(txs) + if tx.kind == Reward then [] else [tx]
  {
    assert (txs + [tx])[..|txs|] == txs;
  }

  lemma ReadsNext(b: Balances, txs: seq<Tx>, r: Replaying, tx: Tx, validator: Address, reward: nat)
    requires Reads(b, txs, r)
    ensures ReplayStep(r, tx, validator, reward).Some? <==> Runs(b, txs, tx, validator, reward)
    ensures ReplayStep(r, tx, validator, reward).Some? ==> Reads(b, txs + [tx], ReplayStep(r, tx, validator, reward).value)
  {
    hide NonceUsed, UnitSum, FeeSum, Settled, HasReward, KnownToReceiver, Executed, SeenBy, Tx.Overflows, Tx.Cost, Tx.Units;
    OverflowIsExact(tx);
    SeenIs(txs, r.seen, tx.from, tx.nonce);
    var t := ReplayStep(r, tx, validator, reward);
    if t.Some? {
      SnocSums(txs, tx);
      HasRewardSnoc(txs, tx);
      ExecutedSnoc(txs, tx);
      SeenSnoc(txs, tx, r.seen);
      forall a: Address
        ensures a in t.value.balances <==> KnownToReceiver(b, txs + [tx], a)
        ensures BalanceOf(t.value.balances, a) == Settled(b, txs + [tx], a, false)
      {
        KnownToReceiverSnoc(b, txs, tx, a);
        SettledSnoc(b, txs, tx, a, false);
        if tx.Charged() {
          PaySettles(r.balances, tx, tx.Cost() % TWO_64, a);
        }
      }
    }
  }

  lemma SeenIs(txs: seq<Tx>, seen: set<(Address, nat)>, from: Address, nonce: nat)
    requires SeenBy(txs, seen)
    ensures (from, nonce) in seen <==> NonceUsed(txs, from, nonce)
  {
  }

  /** A receiver gets through a list exactly when every entry meets the conditions
      at its place, and its counters are then the sums over the list. */
  lemma {:induction false} ReplaysExactly(b: Balances, txs: seq<Tx>, validator: Address, reward: nat)
    ensures Replay(b, txs, validator, reward).Some? <==> AllRun(b, txs, validator, reward)
    ensures AllRun(b, txs, validator, reward) ==> Reads(b, txs, Replay(b, txs, validator, reward).value)
    decreases |txs|
  {
    if txs == [] {
      assert SeenBy([], {});
    } else {
      var init, tx := txs[..|txs| - 1], txs[|txs| - 1];
      assert init + [tx] == txs;
      ReplaysExactly(b, init, validator, reward);
      if AllRun(b, init, validator, reward) {
        ReadsNext(b, init, Replay(b, init, validator, reward).value, tx, validator, reward);
      }
    }
  }

  // ------------------------------------------------- rewards, account by account

  lemma PayOneIs(b: Balances, who: Address, amount: nat, a: Address)
    ensures BalanceOf(PayOne(b, who, amount), a) == BalanceOf(b, a) + if a == who then amount else 0
  {
  }

  /** What the rewards of a block give one account. */
  function RewardOf(book: Book, proposer: Address, ps: seq<Participant>, total: nat, who: Address): nat {
    (if who == proposer then Pct(total, 40) else 0) + (if who == TREASURY then Pct(total, 11) else 0)
    + Due(Plain(Others(book.validators, proposer)), Pct(total, 12), who) + Due(Plain(ByWho(ps)), Pct(total, 2), who)
  }

  /** The proposer gets 40%, the treasury 11%, other validators and participants
      their shares of 12% and 2%; liquidity shares become pending; nobody else
      gets anything. */
  lemma RewardsReach(s: ChainState, book: Book, proposer: Address, ps: seq<Participant>, gasFees: nat, height: nat, who: Address)
    ensures var t := RewardState(s, book, proposer, ps, gasFees, height);
            var total := RewardPool(s, book, gasFees, height);
            && BalanceOf(t.balances, who) == BalanceOf(s.balances, who) + RewardOf(book, proposer, ps, total, who)
            && Lookup(t.pending, who) == Lookup(s.pending, who) + LiquidityDue(book, total, who)
            && t.emitted == s.emitted + Capped(book.cap, s.emitted, height)
  {
    hide Pct, Due, PayGroup, Others, ByWho, Capped, LiquidityPaid, LiquidityDue;
    var total := RewardPool(s, book, gasFees, height);
    var b1 := PayOne(s.balances, proposer, Pct(total, 40));
    var b2 := ValidatorsPaid(b1, book, proposer, total, false);
    var b3 := PayGroup(b2, Plain(ByWho(ps)), Pct(total, 2), false);
    PayOneIs(s.balances, proposer, Pct(total, 40), who);
    GroupIs(b1, Plain(Others(book.validators, proposer)), Pct(total, 12), false, who);
    GroupIs(b2, Plain(ByWho(ps)), Pct(total, 2), false, who);
    PayOneIs(b3, TREASURY, Pct(total, 11), who);
    LiquidityIs(s.pending, book, total, false, who);
  }

  /** The reward pool is what the block emits plus its fees.  Each slice is its
      percentage rounded down, and the six slices are the whole pool but for at
      most five units. */
  lemma SlicesShareThePool(s: ChainState, book: Book, proposer: Address, ps: seq<Participant>, gasFees: nat, height: nat, pct: nat)
    ensures var total := RewardPool(s, book, gasFees, height);
            && total == gasFees + RewardState(s, book, proposer, ps, gasFees, height).emitted - s.emitted
            && 100 * Pct(total, pct) <= pct * total < 100 * (Pct(total, pct) + 1)
            && (var slices := Pct(total, 40) + Pct(total, 30) + Pct(total, 5) + Pct(total, 12) + Pct(total, 2) + Pct(total, 11);
                total - 5 <= slices <= total)
  {
    hide Capped;
    PctIsFloor(RewardPool(s, book, gasFees, height), pct);
  }

  lemma PctIsFloor(total: nat, pct: nat)
    ensures 100 * Pct(total, pct) <= pct * total < 100 * (Pct(total, pct) + 1)
  {
    assert total * pct == pct * total;
  }

  /** The weight one owner has gathered, each addition rounded. */
  function OwnWeight(ws: seq<Weighted>, who: string): Option<Weight> {
    if ws == [] then None
    else
      var w, before := ws[|ws| - 1], OwnWeight(ws[..|ws| - 1], who);
      if w.who != who then before
      else match before
        case None => Some(w.weight)
        case Some(sum) => Some(Plus(sum, w.weight))
  }

  ghost predicate OncePerOwner(ws: seq<Weighted>) { forall i, j :: 0 <= i < j < |ws| ==> ws[i].who != ws[j].who }

  lemma {:induction false} MergeInIs(ws: seq<Weighted>, w: Weighted, x: Weighted)
    requires OncePerOwner(ws)
    ensures OncePerOwner(MergeIn(ws, w))
    ensures forall y :: y in MergeIn(ws, w) ==> y.who == w.who || exists z :: z in ws && z.who == y.who
    ensures x in MergeIn(ws, w) <==>
              if x.who != w.who then x in ws
              else (x == w && forall z :: z in ws ==> z.who != w.who)
                   || exists z :: z in ws && z.who == w.who && x == Weighted(w.who, Plus(z.weight, w.weight))
  {
    if ws != [] {
      if ws[0].who == w.who {
        assert forall z :: z in ws && z.who == w.who ==> z == ws[0];
        assert ws[0] in ws;
      } else {
        MergeInIs(ws[1..], w, x);
        assert forall z :: z in ws[1..] ==> z in ws;
      }
    }
  }

  /** Merging locks by owner keeps one entry for each owner, with the weight of its
      own locks added up in the order they come. */
  lemma {:induction false} MergedIsOwnWeight(ws: seq<Weighted>, x: Weighted)
    ensures OncePerOwner(Merged(ws))
    ensures x in Merged(ws) <==> OwnWeight(ws, x.who) == Some(x.weight)
    decreases |ws|
  {
    if ws != [] {
      var front, w := ws[..|ws| - 1], ws[|ws| - 1];
      MergedIsOwnWeight(front, x);
      MergeInIs(Merged(front), w, x);
      if x.who == w.who {
        forall z: Weighted ensures z in Merged(front) <==> OwnWeight(front, z.who) == Some(z.weight) {
          MergedIsOwnWeight(front, z);
        }
        if OwnWeight(front, w.who).Some? {
          assert Weighted(w.who, OwnWeight(front, w.who).value) in Merged(front);
        }
      }
    }
  }

  /** The other validators are those of the list except the proposer, each as
      often as it is listed. */
  lemma {:induction false} OthersAre(ws: seq<Weighted>, proposer: Address, w: Weighted)
    ensures multiset(Others(ws, proposer))[w] == if w.who == proposer then 0 else multiset(ws)[w]
    decreases |ws|
  {
    if ws != [] {
      OthersAre(ws[..|ws| - 1], proposer, w);
      assert ws == ws[..|ws| - 1] + [ws[|ws| - 1]];
    }
  }

  /** The breakdown lists exactly what every account is given. */
  lemma ListingIsWhatIsPaid(s: ChainState, book: Book, proposer: Address, ps: seq<Participant>, gasFees: nat, height: nat, who: Address)
    ensures var b := RewardBreakdown(s, book, proposer, ps, gasFees, height);
            var t := RewardState(s, book, proposer, ps, gasFees, height);
            && b.validator == proposer
            && BalanceOf(t.balances, who) - BalanceOf(s.balances, who)
               == (if who == b.validator then b.validatorReward else 0) + (if who == TREASURY then b.treasury else 0)
                  + Lookup(b.validators, who) + Lookup(b.byParticipant, who)
            && Lookup(t.pending, who) - Lookup(s.pending, who) == Lookup(b.liquidity, who)
  {
    hide Pct, Due, PayGroup, Others, ByWho, ByHash, Capped, LiquidityPaid, LiquidityDue, RewardState;
    var total := RewardPool(s, book, gasFees, height);
    RewardsReach(s, book, proposer, ps, gasFees, height, who);
    GroupIs(map[], Plain(Others(book.validators, proposer)), Pct(total, 12), true, who);
    GroupIs(map[], Plain(ByWho(ps)), Pct(total, 2), true, who);
    LiquidityIs(map[], book, total, true, who);
  }

  /** A receiver accepts a block exactly when its list runs with one reward entry,
      its gas is the sum over the list, and its rewards and state root are those
      of its fees; the accounts are then settled by sums over the list, plus the
      rewards. */
  lemma AcceptedExactly(s: ChainState, book: Book, block: Block, root: ChainState -> string)
    ensures var txs, fees := block.transactions, FeeSum(block.transactions);
            var ps := Participants(Executed(txs));
            var ran := Replay(s.balances, txs, block.validator, block.breakdown.validatorReward);
            ReplayBlock(s, book, block, root).Some? <==>
              && AllRun(s.balances, txs, block.validator, block.breakdown.validatorReward) && HasReward(txs)
              && block.gasUsed == UnitSum(txs)
              && RewardBreakdown(s, book, block.validator, ps, fees, block.height) == block.breakdown
              && ran.Some?
              && root(RewardState(s.(balances := ran.value.balances), book, block.validator, ps, fees, block.height)) == block.stateRoot
  {
    hide RewardBreakdown, RewardState, AllRun, Replay, Executed, UnitSum, FeeSum, HasReward, Participants;
    ReplaysExactly(s.balances, block.transactions, block.validator, block.breakdown.validatorReward);
    if AllRun(s.balances, block.transactions, block.validator, block.breakdown.validatorReward) {
      var r := Replay(s.balances, block.transactions, block.validator, block.breakdown.validatorReward).value;
      SameListing(s, r.balances, book, block.validator, Participants(r.executed), r.gasFees, block.height);
    }
  }

  /** What is listed does not depend on the balances. */
  lemma SameListing(s: ChainState, b: Balances, book: Book, proposer: Address, ps: seq<Participant>, gasFees: nat, height: nat)
    ensures RewardBreakdown(s.(balances := b), book, proposer, ps, gasFees, height)
         == RewardBreakdown(s, book, proposer, ps, gasFees, height)
  {
    hide PayGroup, LiquidityPaid, ValidatorsPaid, Capped, Pct;
  }

  /** Every accepted block leaves each account with what it had, plus what the
      block's transfers pay it, less value and fee of those it sends, plus its
      rewards. */
  lemma AcceptedBlockSettles(s: ChainState, book: Book, block: Block, root: ChainState -> string, who: Address)
    ensures var t := ReplayBlock(s, book, block, root);
            var txs := block.transactions;
            var total := RewardPool(s, book, FeeSum(txs), block.height);
            t.Some? ==>
              && BalanceOf(t.value.balances, who)
                 == Settled(s.balances, txs, who, false)
                    + RewardOf(book, block.validator, Participants(Executed(txs)), total, who)
              && Lookup(t.value.pending, who) == Lookup(s.pending, who) + LiquidityDue(book, total, who)
  {
    hide RewardBreakdown, RewardState, AllRun, Replay, Executed, UnitSum, FeeSum, Settled, HasReward, Participants, RewardOf, LiquidityDue, Capped;
    var txs := block.transactions;
    ReplaysExactly(s.balances, txs, block.validator, block.breakdown.validatorReward);
    var r := Replay(s.balances, txs, block.validator, block.breakdown.validatorReward);
    if r.Some? {
      RewardsReach(s.(balances := r.value.balances), book, block.validator, Participants(r.value.executed),
                   r.value.gasFees, block.height, who);
    }
  }
}
