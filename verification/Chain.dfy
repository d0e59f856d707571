/** The chain state object: reward accounting, block production and replay as
    loops over it, each proved against its function. */
module Chain {
  import opened Basics
  import opened Sums
  import opened Ledger
  import opened Emission
  import opened Rewards
  import opened BlockExecution

  /** The total of a group, rounded after every addition. */
  method SumWeights(ws: seq<Weighted>) returns (total: Weight)
    ensures total == FloatSum(ws)
  {
    total := 0.0;
    for i := 0 to |ws|
      invariant total == FloatSum(ws[..i])
    {
      assert ws[..i + 1][..i] == ws[..i];
      total := Plus(total, ws[i].weight);
    }
    assert ws[..|ws|] == ws;
  }

  /** One loop merges the long locks by owner and adds up their raw weights. */
  method MergeWeights(ws: seq<Weighted>) returns (g: Group)
    ensures g == Merging(ws)
  {
    var paid, total := [], 0.0;
    for i := 0 to |ws|
      invariant paid == Merged(ws[..i]) && total == FloatSum(ws[..i])
    {
      assert ws[..i + 1][..i] == ws[..i];
      paid := MergeIn(paid, ws[i]);
      total := Plus(total, ws[i].weight);
    }
    assert ws[..|ws|] == ws;
    g := Group(paid, total);
  }

  lemma PayNext(m: map<string, int>, done: seq<Weighted>, w: Weighted, pool: nat, total: Weight, listing: bool)
    ensures PayInto(m, done + [w], pool, total, listing)
         == Post(PayInto(m, done, pool, total, listing), w.who, Portion(pool, w.weight, total), listing)
  {
    assert (done + [w])[..|done|] == done;
  }

  lemma PayNone(m: map<string, int>, pool: nat, total: Weight, listing: bool)
    ensures PayInto(m, [], pool, total, listing) == m
  {
  }

  lemma TakeOut<T>(done: seq<T>, todo: seq<T>, i: nat)
    requires i < |todo|
    ensures multiset(done + [todo[i]]) + multiset(Without(todo, i)) == multiset(done) + multiset(todo)
  {
    RemoveAtMultiset(todo, i);
  }

  /** Adds each entry's share to a table kept as a plain map.  The payments range
      over the maps again, in an order of their own. */
  method PayTable(m: map<string, int>, g: Group, pool: nat, listing: bool) returns (out: map<string, int>)
    ensures out == PayGroup(m, g, pool, listing)
  {
    hide Portion, PayInto;
    out := m;
    assert PayInto(m, [], pool, g.total, listing) == m by { PayNone(m, pool, g.total, listing); }
    if g.total > 0.0 && pool > 0 {
      var todo := g.paid;
      ghost var done := [];
      while todo != []
        invariant multiset(done) + multiset(todo) == multiset(g.paid)
        invariant out == PayInto(m, done, pool, g.total, listing)
        decreases |todo|
      {
        var i :| 0 <= i < |todo|;
        var w := todo[i];
        PayNext(m, done, w, pool, g.total, listing);
        TakeOut(done, todo, i);
        done, todo := done + [w], Without(todo, i);
        var share := Portion(pool, w.weight, g.total);
        if !listing || share != 0 {
          out := out[w.who := (if w.who in out then out[w.who] else 0) + share];
        }
      }
      assert multiset(done) == multiset(g.paid);
      PayOrder(m, done, g.paid, pool, g.total, listing);
    }
  }

  class ChainObject {
    const accounts: Accounts
    var pending: map<string, int>
    var emitted: int

    function Now(): ChainState
      reads this, accounts
    {
      ChainState(accounts.balances, pending, emitted)
    }

    /** Also the deep copy that replay and mining run on. */
    constructor (s: ChainState)
      ensures Now() == s && fresh(accounts)
    {
      accounts := new Accounts(s.balances);
      pending, emitted := s.pending, s.emitted;
    }

    method TakeCappedEmission(cap: int, height: nat) returns (reward: nat)
      modifies this`emitted
      ensures reward == Capped(cap, old(emitted), height) && emitted == old(emitted) + reward
    {
      CappedNonNegative(cap, emitted, height);
      var remaining := cap - emitted;
      if remaining <= 0 {
        return 0;
      }
      reward := EmissionReward(height);
      if reward > remaining {
        reward := remaining;
      }
      emitted := emitted + reward;
    }

    /** Validators and participants are lists, paid in their order. */
    method PayAccounts(ws: seq<Weighted>, pool: nat)
      modifies accounts
      ensures accounts.balances == PayGroup(old(accounts.balances), Plain(ws), pool, false)
    {
      var total := SumWeights(ws);
      if total > 0.0 && pool > 0 {
        for i := 0 to |ws|
          invariant accounts.balances == PayInto(old(accounts.balances), ws[..i], pool, total, false)
        {
          assert ws[..i + 1][..i] == ws[..i];
          accounts.Add(ws[i].who, Portion(pool, ws[i].weight, total));
        }
        assert ws[..|ws|] == ws;
      }
    }

    method CalculateBlockRewards(book: Book, proposer: Address, ps: seq<Participant>, gasFees: nat, height: nat)
      returns (b: Breakdown)
      modifies this, accounts
      ensures Now() == RewardState(old(Now()), book, proposer, ps, gasFees, height)
      ensures b == RewardBreakdown(old(Now()), book, proposer, ps, gasFees, height)
    {
      hide PayGroup, FloatSum, Merged, Capped, Others, ByWho;
      var emission := TakeCappedEmission(book.cap, height);
      var total := emission + gasFees;
      b := ListShares(book, proposer, ps, total);
      if Pct(total, 40) > 0 {
        b := b.(validatorReward := Pct(total, 40));
        accounts.Add(proposer, Pct(total, 40));
      }
      var curveTotal := SumWeights(book.curve);
      pending := PayTable(pending, Group(book.curve, curveTotal), Pct(total, 30), false);
      var locks := MergeWeights(book.longLock);
      pending := PayTable(pending, locks, Pct(total, 5), false);
      PayAccounts(Others(book.validators, proposer), Pct(total, 12));
      PayAccounts(ByWho(ps), Pct(total, 2));
      if Pct(total, 11) > 0 {
        b := b.(treasury := Pct(total, 11));
        accounts.Add(TREASURY, Pct(total, 11));
      }
    }

    /** The listing of the weighted shares in a block's breakdown. */
    method ListShares(book: Book, proposer: Address, ps: seq<Participant>, total: nat) returns (b: Breakdown)
      ensures b == Breakdown(proposer, 0,
                LiquidityPaid(map[], book, total, true),
                ValidatorsPaid(map[], book, proposer, total, true),
                PayGroup(map[], Plain(ByHash(ps)), Pct(total, 2), true),
                PayGroup(map[], Plain(ByWho(ps)), Pct(total, 2), true), 0)
    {
      var others, byHash, byWho := Others(book.validators, proposer), ByHash(ps), ByWho(ps);
      var curveTotal := SumWeights(book.curve);
      var liquidity := PayTable(map[], Group(book.curve, curveTotal), Pct(total, 30), true);
      var locks := MergeWeights(book.longLock);
      liquidity := PayTable(liquidity, locks, Pct(total, 5), true);
      var weight := SumWeights(others);
      var validators := PayTable(map[], Group(others, weight), Pct(total, 12), true);
      weight := SumWeights(byHash);
      var hashed := PayTable(map[], Group(byHash, weight), Pct(total, 2), true);
      weight := SumWeights(byWho);
      var addressed := PayTable(map[], Group(byWho, weight), Pct(total, 2), true);
      b := Breakdown(proposer, 0, liquidity, validators, hashed, addressed, 0);
    }

    /** The filter-and-execute loop over the workers' results. */
    method ExecutePool(results: seq<Verified>, gasLimit: nat) returns (kept: seq<Tx>, gasUsed: nat, gasFees: nat)
      requires forall v :: v in results ==> WorkerResult(v)
      modifies accounts
      ensures Mining(accounts.balances, kept, gasUsed, gasFees) == Mine(old(accounts.balances), results, gasLimit)
    {
      kept, gasUsed, gasFees := [], 0, 0;
      for i := 0 to |results|
        invariant Mining(accounts.balances, kept, gasUsed, gasFees) == Mine(old(accounts.balances), results[..i], gasLimit)
      {
        assert results[..i + 1][..i] == results[..i];
        var res := results[i];
        assert res in results;
        if res.tx.IsSystem() {
          kept := kept + [res.tx];
        } else if res.valid && (gasUsed + res.gasUsed) % TWO_64 <= gasLimit {
          var total := res.tx.value + res.fee;
          var have := if res.tx.from in accounts.balances then accounts.balances[res.tx.from] else 0;
          if total <= have {
            var charged := accounts.Sub(res.tx.from, total);
            accounts.Add(res.tx.to, res.tx.value);
            kept := kept + [res.tx];
            gasUsed := (gasUsed + res.gasUsed) % TWO_64;
            gasFees := (gasFees + res.fee) % TWO_64;
          }
        }
      }
      assert results[..|results|] == results;
    }

    /** mineNewBlockCandidate, from verified results to the finished block. */
    method MineCandidate(book: Book, results: seq<Verified>, gasLimit: nat, validator: Address, height: nat,
                         root: ChainState -> string) returns (block: Block)
      requires forall v :: v in results ==> WorkerResult(v)
      modifies this, accounts
      ensures (Now(), block) == MineBlock(old(Now()), book, results, gasLimit, validator, height, root)
    {
      var kept, gasUsed, gasFees := ExecutePool(results, gasLimit);
      var breakdown := CalculateBlockRewards(book, validator, Participants(kept), gasFees, height);
      var transactions := kept + [RewardTx(validator, breakdown.validatorReward)];
      block := Block(transactions, gasUsed, validator, breakdown, height, root(Now()));
    }

    /** One transaction of a received block: the reward entry is only compared, a
        system entry only listed, everything else charged and paid. */
    method ExecuteTx(r: Replaying, tx: Tx, validator: Address, reward: nat) returns (next: Option<Replaying>)
      requires r.balances == accounts.balances
      modifies accounts
      ensures next == ReplayStep(r, tx, validator, reward)
      ensures next.Some? ==> next.value.balances == accounts.balances
    {
      if tx.kind == Reward {
        if r.rewards != 0 || tx.to != validator || tx.value != reward || tx.from != ZERO_ADDRESS {
          return None;
        }
        return Some(r.(rewards := 1));
      }
      if tx.IsSystem() {
        return Some(r.(executed := r.executed + [tx]));
      }
      var units, fee := tx.Units(), tx.Cost() % TWO_64;
      if (tx.from, tx.nonce) in r.seen || (tx.gasPrice > 0 && units > MAX_UINT64 / tx.gasPrice)
         || MAX_UINT64 - r.gasUsed < units || MAX_UINT64 - r.gasFees < fee {
        return None;
      }
      var ok := accounts.Sub(tx.from, tx.value + fee);
      if !ok {
        return None;
      }
      accounts.Add(tx.to, tx.value);
      next := Some(Replaying(accounts.balances, r.gasUsed + units, r.gasFees + fee,
                             r.seen + {(tx.from, tx.nonce)}, r.executed + [tx], r.rewards));
    }

    /** The execution loop of a receiver. */
    method ExecuteBlock(block: Block) returns (r: Option<Replaying>)
      modifies accounts
      ensures r == Replay(old(accounts.balances), block.transactions, block.validator, block.breakdown.validatorReward)
      ensures r.Some? ==> r.value.balances == accounts.balances
    {
      var state := Replaying(accounts.balances, 0, 0, {}, [], 0);
      var txs := block.transactions;
      ghost var start := accounts.balances;
      for i := 0 to |txs|
        invariant state.balances == accounts.balances
        invariant Replay(start, txs[..i], block.validator, block.breakdown.validatorReward) == Some(state)
      {
        assert txs[..i + 1][..i] == txs[..i];
        var next := ExecuteTx(state, txs[i], block.validator, block.breakdown.validatorReward);
        if next.None? {
          RefusedBlock(start, txs, i, block.validator, block.breakdown.validatorReward);
          return None;
        }
        state := next.value;
      }
      assert txs[..|txs|] == txs;
      r := Some(state);
    }

    /** ReplayIncomingBlock: everything happens on a copy of the state. */
    method ReplayIncomingBlock(book: Book, block: Block, root: ChainState -> string) returns (t: Option<ChainState>)
      ensures t == ReplayBlock(Now(), book, block, root)
    {
      var shadow := new ChainObject(Now());
      var r := shadow.ExecuteBlock(block);
      if r.None? || r.value.rewards != 1 || r.value.gasUsed != block.gasUsed {
        return None;
      }
      var expected := shadow.CalculateBlockRewards(book, block.validator, Participants(r.value.executed),
                                                   r.value.gasFees, block.height);
      if expected != block.breakdown || root(shadow.Now()) != block.stateRoot {
        return None;
      }
      return Some(shadow.Now());
    }
  }

  /** Once one transaction is refused the rest of the list cannot help. */
  lemma {:induction false} RefusedBlock(b: Balances, txs: seq<Tx>, i: nat, validator: Address, reward: nat)
    requires i < |txs| && Replay(b, txs[..i + 1], validator, reward).None?
    ensures Replay(b, txs, validator, reward).None?
    decreases |txs|
  {
    if i + 1 < |txs| {
      assert txs[..|txs| - 1][..i + 1] == txs[..i + 1];
      RefusedBlock(b, txs[..|txs| - 1], i, validator, reward);
    } else {
      assert txs[..i + 1] == txs;
    }
  }
}
