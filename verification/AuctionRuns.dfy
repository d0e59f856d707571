/** Keeper auctions over whole runs at non-decreasing heights: who wins, that a
    settled auction never reopens, how often one can expire, and that the two
    escrows stay solvent throughout. */
module AuctionRuns {
  import opened Basics
  import opened Sums
  import opened CustodyModel
  import Sorting

  predicate Terminal(a: Auction) { a.status == Executed || a.status == Failed }

  predicate Bidding(a: Auction) { a.status == Commit || a.status == Reveal }

  ghost predicate AuctionOk(id: AuctionId, a: Auction, height: nat) {
    && KeyedByKeeper(a.bids)
    && id.openedAt < a.commitEnd < a.revealEnd
    && (!Bidding(a) ==> a.revealEnd < height)
    && (Bidding(a) ==> a.candidates == [] && a.failed == [])
    && Sorting.Distinct(a.candidates) && Sorting.Distinct(a.failed)
    && (forall f :: f in a.failed ==> f in a.candidates)
    && (a.status == Finalized ==> a.winner in a.candidates && a.winner !in a.failed)
  }

  ghost predicate AuctionsOk(s: State, height: nat) {
    forall id :: id in s.auctions ==> AuctionOk(id, s.auctions[id], height)
  }

  lemma OkIsKeyed(s: State, height: nat)
    requires AuctionsOk(s, height)
    ensures AuctionsKeyed(s)
  {
  }

  lemma OkLater(s: State, h0: nat, h1: nat)
    requires AuctionsOk(s, h0) && h0 <= h1
    ensures AuctionsOk(s, h1)
  {
  }

  // ------------------------------------------------------------ finalize

  lemma RankingKeepersDistinct(bids: map<Address, Bid>, ranked: seq<Bid>)
    requires KeyedByKeeper(bids) && IsRanking(bids, ranked)
    ensures Sorting.Distinct(Keepers(ranked))
  {
    var ks := Keepers(ranked);
    forall i, j | 0 <= i < j < |ks| ensures ks[i] != ks[j] {
      assert ranked[i] in ranked && ranked[j] in ranked;
      assert ranked[i] == bids[ks[i]] && ranked[j] == bids[ks[j]];
      assert BidLeq(ranked[i], ranked[j]) && !BidLeq(ranked[j], ranked[i]);
    }
  }

  /** Finalizing picks the lowest revealed fee, ties by the lower address, and
      fails exactly when nobody revealed. */
  lemma FinalizePicksCheapest(s: State, id: AuctionId, height: nat)
    requires AuctionsOk(s, height) && CanFinalize(s, id, height)
    ensures var a := s.auctions[id];
            var b := ApplyFinalize(s, id, height).value.auctions[id];
            && (b.status == Failed <==> forall k :: k in a.bids ==> !a.bids[k].revealed)
            && (b.status == Finalized ==>
                  && b.winner in a.bids && a.bids[b.winner].revealed && b.winningFee == a.bids[b.winner].feeBPS
                  && forall k :: k in a.bids && a.bids[k].revealed ==> BidLeq(a.bids[b.winner], a.bids[k]))
            && (b.status == Finalized || b.status == Failed)
  {
    var a := s.auctions[id];
    var ranked := Ranking(a.bids);
    BidLeqIsOrder();
    if ranked != [] {
      assert ranked[0] in ranked;
      forall k | k in a.bids && a.bids[k].revealed ensures BidLeq(ranked[0], a.bids[k]) {
        assert a.bids[k] in ranked;
        var i :| 0 <= i < |ranked| && ranked[i] == a.bids[k];
        assert i == 0 || BidLeq(ranked[0], ranked[i]);
      }
    } else {
      forall k | k in a.bids ensures !a.bids[k].revealed {
        assert a.bids[k] !in ranked;
      }
    }
  }

  lemma FinalizeKeepsOk(s: State, id: AuctionId, a: Auction, height: nat)
    requires AuctionOk(id, a, height) && Bidding(a) && a.revealEnd < height
    ensures AuctionOk(id, Finalized0(s, a, height), height)
  {
    var ranked := Ranking(a.bids);
    if ranked != [] {
      RankingKeepersDistinct(a.bids, ranked);
      FinalizedOk(id, a, Keepers(ranked), ranked[0].feeBPS, height + s.arb.executionTimeout, height);
    }
  }

  lemma FinalizedOk(id: AuctionId, a: Auction, ks: seq<Address>, fee: int, deadline: nat, height: nat)
    requires AuctionOk(id, a, height) && Bidding(a) && a.revealEnd < height
    requires ks != [] && Sorting.Distinct(ks)
    ensures AuctionOk(id, a.(status := Finalized, candidates := a.candidates + ks, winner := ks[0],
                             winningFee := fee, deadline := deadline), height)
  {
    assert a.candidates + ks == ks;
  }

  // -------------------------------------------------------------- expire

  lemma PromotedOk(s: State, id: AuctionId, a: Auction, height: nat)
    requires AuctionOk(id, a, height) && a.status == Finalized
    ensures AuctionOk(id, Promoted(s, a, height), height)
    ensures Promoted(s, a, height).candidates == a.candidates
    ensures Promoted(s, a, height).failed == a.failed + [a.winner]
    ensures Promoted(s, a, height).status == Finalized || Promoted(s, a, height).status == Failed
  {
    var failed := a.failed + [a.winner];
    assert Sorting.Distinct(failed);
    forall f | f in failed ensures f in a.candidates {
    }
  }

  lemma DistinctSubsetLength(small: seq<Address>, big: seq<Address>)
    requires Sorting.Distinct(small) && forall x :: x in small ==> x in big
    ensures |small| <= |big|
  {
    var a := set x | x in small;
    var b := set x | x in big;
    DistinctCardinality(small);
    SetOfSeqSmall(big);
    assert a <= b;
    Cardinality(a, b);
  }

  lemma Cardinality(a: set<Address>, b: set<Address>)
    requires a <= b
    ensures |a| <= |b|
  {
    assert b == a + (b - a);
  }

  lemma {:induction false} DistinctCardinality(s: seq<Address>)
    requires Sorting.Distinct(s)
    ensures |set x | x in s| == |s|
  {
    if s != [] {
      DistinctCardinality(s[1..]);
      assert (set x | x in s) == {s[0]} + set x | x in s[1..];
    } else {
      assert (set x | x in s) == {};
    }
  }

  lemma {:induction false} SetOfSeqSmall(s: seq<Address>)
    ensures |set x | x in s| <= |s|
  {
    if s != [] {
      SetOfSeqSmall(s[1..]);
      assert (set x | x in s) == {s[0]} + set x | x in s[1..];
    } else {
      assert (set x | x in s) == {};
    }
  }

  /** An expiry of a solvent state always succeeds, fails one more candidate and
      leaves the candidates as they are. */
  lemma ExpirySucceeds(s: State, id: AuctionId, height: nat)
    requires AuctionsOk(s, height) && Solvent(s) && CanExpire(s, id, height)
    ensures var a := s.auctions[id];
            var r := ApplyExpire(s, id, height);
            && r.Some?
            && r.value.auctions[id].candidates == a.candidates
            && |r.value.auctions[id].failed| == |a.failed| + 1 <= |a.candidates|
  {
    var a := s.auctions[id];
    SlashKeeps(s, id, a.winner);
    PromotedOk(Slashed(s, id, a.winner).value, id, a, height);
    DistinctSubsetLength(a.failed + [a.winner], a.candidates);
  }

  // ---------------------------------------------------------------- steps

  lemma OpenIsNew(s: State, opportunity: string, h0: nat, height: nat)
    requires AuctionsOk(s, h0) && h0 <= height
    requires AuctionId(opportunity, height) in s.auctions
    ensures Bidding(s.auctions[AuctionId(opportunity, height)])
  {
    assert AuctionOk(AuctionId(opportunity, height), s.auctions[AuctionId(opportunity, height)], h0);
  }

  /** Replacing one auction by a well-formed one. */
  lemma ReplaceKeepsOk(s: State, t: State, id: AuctionId, a: Auction, height: nat)
    requires AuctionsOk(s, height) && AuctionOk(id, a, height) && t.auctions == s.auctions[id := a]
    ensures AuctionsOk(t, height)
  {
  }

  lemma BidStepKeepsOk(e: Env, s: State, op: Op, height: nat)
    requires AuctionsOk(s, height) && (op.CommitBid? || op.RevealBid?)
    requires Apply(e, s, op, height).Some?
    ensures AuctionsOk(Next(e, s, op, height), height)
    ensures op.id in s.auctions && Bidding(s.auctions[op.id])
    ensures var t := Next(e, s, op, height).auctions; op.id in t && t == s.auctions[op.id := t[op.id]]
  {
    var id := op.id;
    var t := Next(e, s, op, height);
    assert AuctionOk(id, s.auctions[id], height);
    ReplaceKeepsOk(s, t, id, t.auctions[id], height);
  }

  lemma OpenStepKeepsOk(s: State, opportunity: string, c: nat, r: nat, height: nat)
    requires AuctionsOk(s, height) && ApplyOpen(s, opportunity, c, r, height).Some?
    ensures AuctionsOk(ApplyOpen(s, opportunity, c, r, height).value, height)
  {
    var id := AuctionId(opportunity, height);
    var t := ApplyOpen(s, opportunity, c, r, height).value;
    ReplaceKeepsOk(s, t, id, t.auctions[id], height);
  }

  lemma CloseStepKeepsOk(s: State, op: Op, height: nat)
    requires AuctionsOk(s, height)
    requires (op.Finalize? && CanFinalize(s, op.id, height))
          || (op.Execute? && CanExecute(s, op.id, op.keeper, height) && 0 < op.gain)
          || (op.Expire? && CanExpire(s, op.id, height))
    ensures var a := s.auctions[op.id];
            AuctionOk(op.id, Closed(s, op, height), height) && !Terminal(a)
  {
    var a := s.auctions[op.id];
    assert AuctionOk(op.id, a, height);
    match op
    case Finalize(id) => FinalizeKeepsOk(s, id, a, height);
    case Execute(id, keeper, gain) =>
    case Expire(id) => PromotedOk(AfterSlash(s, id), id, a, height);
  }

  function AfterSlash(s: State, id: AuctionId): State
    requires id in s.auctions
  {
    match Slashed(s, id, s.auctions[id].winner) case Some(t) => t case None => s
  }

  /** The auction as a closing operation leaves it. */
  ghost function Closed(s: State, op: Op, height: nat): Auction
    requires AuctionsKeyed(s) && (op.Finalize? || op.Execute? || op.Expire?) && op.id in s.auctions
  {
    var a := s.auctions[op.id];
    match op
    case Finalize(id) => Finalized0(s, a, height)
    case Execute(id, keeper, gain) => a.(status := Executed)
    case Expire(id) => Promoted(AfterSlash(s, id), a, height)
  }

  lemma RecordKeepsAuctions(s: State, source: string, amount: int, reference: string)
    ensures Record(s, source, amount, reference).auctions == s.auctions
  {
  }

  lemma ClosedBy(e: Env, s: State, op: Op, height: nat)
    requires AuctionsKeyed(s)
    requires op.Finalize? || op.Execute? || op.Expire?
    ensures Next(e, s, op, height).auctions == s.auctions
         || (op.id in s.auctions && Next(e, s, op, height).auctions == s.auctions[op.id := Closed(s, op, height)]
             && ((op.Finalize? && CanFinalize(s, op.id, height))
                 || (op.Execute? && CanExecute(s, op.id, op.keeper, height) && 0 < op.gain)
                 || (op.Expire? && CanExpire(s, op.id, height))))
  {
    match op
    case Finalize(id) =>
    case Execute(id, keeper, gain) =>
      RecordKeepsAuctions(MovedToEscrow(Traded(s, gain), gain), "protocol_arb", gain, AuctionRef(id));
    case Expire(id) =>
      if CanExpire(s, id, height) {
        var w := s.auctions[id].winner;
        var slash := SlashAmount(Lookup(s.bonds, w), s.arb.missedSlashBPS);
        RecordKeepsAuctions(BondForfeited(s, w, slash), "slashing", slash, SlashRef(id, w));
      }
  }

  /** Every operation keeps all auctions well formed, and a settled or failed
      auction is never touched again. */
  lemma StepKeepsAuctions(e: Env, s: State, op: Op, h0: nat, height: nat)
    requires AuctionsOk(s, h0) && h0 <= height
    ensures AuctionsKeyed(s) && AuctionsOk(Next(e, s, op, height), height)
    ensures forall id :: id in s.auctions && Terminal(s.auctions[id]) ==>
              id in Next(e, s, op, height).auctions && Next(e, s, op, height).auctions[id] == s.auctions[id]
  {
    OkLater(s, h0, height);
    OkIsKeyed(s, height);
    var t := Next(e, s, op, height);
    if op.Finalize? || op.Execute? || op.Expire? {
      ClosedBy(e, s, op, height);
      if t.auctions != s.auctions {
        CloseStepKeepsOk(s, op, height);
        ReplaceKeepsOk(s, t, op.id, Closed(s, op, height), height);
      }
    } else if op.CommitBid? || op.RevealBid? {
      if Apply(e, s, op, height).Some? {
        BidStepKeepsOk(e, s, op, height);
      }
    } else if op.Open? {
      if Apply(e, s, op, height).Some? {
        OpenStepKeepsOk(s, op.opportunity, op.commitBlocks, op.revealBlocks, height);
        if AuctionId(op.opportunity, height) in s.auctions {
          OpenIsNew(s, op.opportunity, h0, height);
        }
      }
    } else {
      OtherStepKeepsAuctions(e, s, op, height);
    }
  }

  lemma OtherStepKeepsAuctions(e: Env, s: State, op: Op, height: nat)
    requires AuctionsKeyed(s)
    requires op.Bond? || op.RequestUnbond? || op.WithdrawBond? || op.Capture? || op.Burn? || op.Deploy?
    ensures Next(e, s, op, height).auctions == s.auctions
  {
  }

  // ----------------------------------------------------------------- runs

  datatype Event = Event(height: nat, op: Op)

  predicate Ordered(h: nat, trace: seq<Event>)
    decreases |trace|
  {
    trace != [] ==> h <= trace[0].height && Ordered(trace[0].height, trace[1..])
  }

  ghost function Run(e: Env, s: State, h: nat, trace: seq<Event>): State
    requires AuctionsOk(s, h) && Ordered(h, trace)
    decreases |trace|
  {
    if trace == [] then s
    else
      StepKeepsAuctions(e, s, trace[0].op, h, trace[0].height);
      Run(e, Next(e, s, trace[0].op, trace[0].height), trace[0].height, trace[1..])
  }

  ghost predicate AdmissibleRun(e: Env, s: State, h: nat, trace: seq<Event>)
    requires AuctionsOk(s, h) && Ordered(h, trace)
    decreases |trace|
  {
    if trace == [] then true
    else
      StepKeepsAuctions(e, s, trace[0].op, h, trace[0].height);
      Admissible(s, trace[0].op)
      && AdmissibleRun(e, Next(e, s, trace[0].op, trace[0].height), trace[0].height, trace[1..])
  }

  /** Over every run: bonds stay exactly covered, revenue buckets stay covered,
      no coin appears or disappears, and no settled auction reopens. */
  lemma {:induction false} RunIsSafe(e: Env, s: State, h: nat, trace: seq<Event>)
    requires Solvent(s) && AuctionsOk(s, h) && Ordered(h, trace) && AdmissibleRun(e, s, h, trace)
    ensures Solvent(Run(e, s, h, trace))
    ensures Coins(Run(e, s, h, trace)) == Coins(s)
    ensures forall id :: id in s.auctions && Terminal(s.auctions[id]) ==>
              id in Run(e, s, h, trace).auctions && Run(e, s, h, trace).auctions[id] == s.auctions[id]
    decreases |trace|
  {
    if trace != [] {
      var ev := trace[0];
      StepKeepsAuctions(e, s, ev.op, h, ev.height);
      StepKeepsSolvency(e, s, ev.op, ev.height);
      RunIsSafe(e, Next(e, s, ev.op, ev.height), ev.height, trace[1..]);
    }
  }

  // ------------------------------------------- how often an auction expires

  ghost function FailedCount(s: State, id: AuctionId): nat {
    if id in s.auctions then |s.auctions[id].failed| else 0
  }

  ghost predicate Expires(e: Env, s: State, op: Op, height: nat, id: AuctionId)
    requires AuctionsKeyed(s)
  {
    op == Op.Expire(id) && Apply(e, s, op, height).Some?
  }

  lemma SlashedKeepsAuctions(s: State, id: AuctionId, keeper: Address)
    ensures var r := Slashed(s, id, keeper); r.Some? ==> r.value.auctions == s.auctions
  {
    if Lookup(s.bonds, keeper) > 0 {
      var slash := SlashAmount(Lookup(s.bonds, keeper), s.arb.missedSlashBPS);
      RecordKeepsAuctions(BondForfeited(s, keeper, slash), "slashing", slash, SlashRef(id, keeper));
    }
  }

  lemma ExpireCounts(s: State, id: AuctionId, height: nat, x: AuctionId)
    ensures var r := ApplyExpire(s, id, height);
            r.Some? ==> FailedCount(r.value, x) == FailedCount(s, x) + if x == id then 1 else 0
  {
    hide Slashed;
    if CanExpire(s, id, height) {
      SlashedKeepsAuctions(s, id, s.auctions[id].winner);
    }
  }

  lemma CloseKeepsCount(e: Env, s: State, op: Op, height: nat, x: AuctionId)
    requires AuctionsKeyed(s) && (op.Finalize? || op.Execute?)
    ensures FailedCount(Next(e, s, op, height), x) == FailedCount(s, x)
  {
    hide Next;
    ClosedBy(e, s, op, height);
  }

  /** A step fails one more candidate of exactly the auction it expires. */
  lemma StepCountsExpiries(e: Env, s: State, op: Op, h0: nat, height: nat, id: AuctionId)
    requires AuctionsOk(s, h0) && h0 <= height
    ensures AuctionsKeyed(s)
    ensures FailedCount(Next(e, s, op, height), id) == FailedCount(s, id) + if Expires(e, s, op, height, id) then 1 else 0
  {
    OkLater(s, h0, height);
    OkIsKeyed(s, height);
    if op.Expire? {
      ExpireCounts(s, op.id, height, id);
    } else if op.Finalize? || op.Execute? {
      CloseKeepsCount(e, s, op, height, id);
    } else if op.Open? {
      if AuctionId(op.opportunity, height) in s.auctions {
        OpenIsNew(s, op.opportunity, h0, height);
        assert AuctionOk(AuctionId(op.opportunity, height), s.auctions[AuctionId(op.opportunity, height)], h0);
      }
    } else if !op.CommitBid? && !op.RevealBid? {
      OtherStepKeepsAuctions(e, s, op, height);
    }
  }

  /** The successful expiries of one auction in a run. */
  ghost function Expiries(e: Env, s: State, h: nat, trace: seq<Event>, id: AuctionId): nat
    requires AuctionsOk(s, h) && Ordered(h, trace)
    decreases |trace|
  {
    if trace == [] then 0
    else
      StepKeepsAuctions(e, s, trace[0].op, h, trace[0].height);
      (if Expires(e, s, trace[0].op, trace[0].height, id) then 1 else 0)
      + Expiries(e, Next(e, s, trace[0].op, trace[0].height), trace[0].height, trace[1..], id)
  }

  function LastHeight(h: nat, trace: seq<Event>): nat {
    if trace == [] then h else trace[|trace| - 1].height
  }

  /** Over every run each expiry fails another candidate, and an auction expires
      at most as often as it has candidates. */
  lemma {:induction false} RunExpiries(e: Env, s: State, h: nat, trace: seq<Event>, id: AuctionId)
    requires AuctionsOk(s, h) && Ordered(h, trace)
    ensures var t := Run(e, s, h, trace);
            && AuctionsOk(t, LastHeight(h, trace))
            && FailedCount(t, id) == FailedCount(s, id) + Expiries(e, s, h, trace, id)
            && (id in t.auctions ==> Expiries(e, s, h, trace, id) <= |t.auctions[id].candidates|)
            && (id !in t.auctions ==> Expiries(e, s, h, trace, id) == 0)
    decreases |trace|
  {
    if trace != [] {
      var ev := trace[0];
      StepKeepsAuctions(e, s, ev.op, h, ev.height);
      StepCountsExpiries(e, s, ev.op, h, ev.height, id);
      RunExpiries(e, Next(e, s, ev.op, ev.height), ev.height, trace[1..], id);
      assert LastHeight(ev.height, trace[1..]) == LastHeight(h, trace);
    }
    FailedWithinCandidates(Run(e, s, h, trace), LastHeight(h, trace), id);
  }

  lemma FailedWithinCandidates(s: State, height: nat, id: AuctionId)
    requires AuctionsOk(s, height)
    ensures id in s.auctions ==> FailedCount(s, id) <= |s.auctions[id].candidates|
  {
    if id in s.auctions {
      assert AuctionOk(id, s.auctions[id], height);
      DistinctSubsetLength(s.auctions[id].failed, s.auctions[id].candidates);
    }
  }
}
