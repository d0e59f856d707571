/** Concrete inputs on which rounded reward shares disagree or overpay. */
module RewardWitness {
  import opened Basics
  import opened Sums
  import opened Ledger
  import opened Emission
  import opened Floats
  import opened Rewards
  import opened RewardSupply
  import opened BlockExecution

  lemma SmallPowers()
    ensures PowerBelow(0.5) == 0.5 && PowerBelow(0.125) == 0.125 && PowerBelow(0.0625) == 0.0625
    ensures PowerBelow(1.0) == 1.0 && PowerBelow(4.0) == 4.0 && PowerBelow(8.0) == 8.0
  {
    PowerDoubles(0.5);
    PowerDoubles(0.25);
    PowerDoubles(0.125);
    PowerDoubles(0.0625);
    PowerDoubles(1.0);
    PowerDoubles(2.0);
    PowerDoubles(4.0);
  }

  lemma PowerTimes64(s: real)
    requires 0.0 < s && PowerBelow(s) == s
    ensures PowerBelow(64.0 * s) == 64.0 * s
  {
    hide PowerBelow;
    PowerDoubles(s);
    PowerDoubles(2.0 * s);
    PowerDoubles(4.0 * s);
    PowerDoubles(8.0 * s);
    PowerDoubles(16.0 * s);
    PowerDoubles(32.0 * s);
  }

  /** 2^26, and the four powers from 2^56 to 2^59. */
  lemma LargePowers()
    ensures PowerBelow(67108864.0) == 67108864.0
    ensures PowerBelow(72057594037927936.0) == 72057594037927936.0
    ensures PowerBelow(144115188075855872.0) == 144115188075855872.0
    ensures PowerBelow(288230376151711744.0) == 288230376151711744.0
    ensures PowerBelow(576460752303423488.0) == 576460752303423488.0
  {
    hide PowerBelow;
    SmallPowers();
    PowerTimes64(4.0);
    PowerTimes64(256.0);
    PowerTimes64(16384.0);
    PowerTimes64(1048576.0);
    PowerTimes64(67108864.0);
    PowerTimes64(4294967296.0);
    PowerTimes64(274877906944.0);
    PowerTimes64(17592186044416.0);
    PowerTimes64(1125899906842624.0);
    PowerDoubles(72057594037927936.0);
    PowerDoubles(144115188075855872.0);
    PowerDoubles(288230376151711744.0);
  }

  lemma ScaledIs(pool: nat, r: Weight, s: real, n: int)
    requires 0.0 < s && PowerBelow(s) == s && Nearest(pool as real * r, EXTENDED, s, n)
    ensures Scaled(pool, r) == (n as real * (s / EXTENDED)).Floor
  {
    hide Round, PowerBelow, Nearest;
    RoundsTo(pool as real * r, EXTENDED, s, n);
  }

  lemma PortionByRatio(pool: nat, weight: Weight, total: Weight, r: Weight)
    requires 0 < pool && 0.0 < weight && 0.0 < total && r == Round(weight / total, DOUBLE)
    ensures Portion(pool, weight, total) == Scaled(pool, r)
  {
    hide Scaled, Round;
    RoundError(weight / total, DOUBLE);
  }

  /** A portion from its rounded ratio r and its rounded product. */
  lemma PortionIs(pool: nat, weight: Weight, total: Weight, r: Weight, s: real, n: int, s': real, n': int)
    requires 0 < pool && 0.0 < weight && 0.0 < total
    requires 0.0 < s && PowerBelow(s) == s && Nearest(weight / total, DOUBLE, s, n) && r == n as real * (s / DOUBLE)
    requires 0.0 < s' && PowerBelow(s') == s' && Nearest(pool as real * r, EXTENDED, s', n')
    ensures Portion(pool, weight, total) == (n' as real * (s' / EXTENDED)).Floor
  {
    hide PowerBelow, OnGrid, Nearest, Portion, Scaled, Round;
    RoundsTo(weight / total, DOUBLE, s, n);
    PortionByRatio(pool, weight, total, r);
    ScaledIs(pool, r, s', n');
  }

  // ----------------------------------------------- the visiting order matters

  /** The double square roots of stakes of 2, 8 and 18. */
  const ROOT_2: Weight := 6369051672525773.0 / 4503599627370496.0
  const ROOT_8: Weight := 6369051672525773.0 / 2251799813685248.0
  const ROOT_18: Weight := 4776788754394329.0 / 1125899906842624.0

  /** m units of 1/scale are the double nearest to the square root of n. */
  predicate NearestRoot(n: nat, m: nat, scale: nat) {
    (2 * m - 1) * (2 * m - 1) < 4 * n * scale * scale < (2 * m + 1) * (2 * m + 1)
  }

  lemma RootsAreRounded()
    ensures NearestRoot(2, 6369051672525773, 4503599627370496) && NearestRoot(8, 6369051672525773, 2251799813685248)
    ensures NearestRoot(18, 4776788754394329, 1125899906842624)
  {
  }

  const P2: Weighted := Weighted("lp2", ROOT_2)
  const P8: Weighted := Weighted("lp8", ROOT_8)
  const P18: Weighted := Weighted("lp18", ROOT_18)

  const UPWARD: Book := Book([P2, P8, P18], [], [], 2_000_000_000)
  const SWAPPED: Book := Book([P2, P18, P8], [], [], 2_000_000_000)

  lemma FirstSum()
    ensures Plus(0.0, ROOT_2) == ROOT_2
  {
    SmallPowers();
    RoundsTo(0.0 + ROOT_2, DOUBLE, 1.0, 6369051672525773);
  }

  lemma UpwardSum()
    ensures FloatSum([P2, P8, P18]) == 2388394377197165.0 / 281474976710656.0
  {
    hide Round, PowerBelow;
    FirstSum();
    SmallPowers();
    RoundsTo(ROOT_2 + ROOT_8, DOUBLE, 4.0, 4776788754394330);
    RoundsTo(2388394377197165.0 / 562949953421312.0 + ROOT_18, DOUBLE, 8.0, 4776788754394330);
    ThreeSum(P2, P8, P18);
  }

  lemma SwappedSum()
    ensures FloatSum([P2, P18, P8]) == 4776788754394329.0 / 562949953421312.0
  {
    hide Round, PowerBelow;
    FirstSum();
    SmallPowers();
    RoundsTo(ROOT_2 + ROOT_18, DOUBLE, 4.0, 6369051672525772);
    RoundsTo(1592262918131443.0 / 281474976710656.0 + ROOT_8, DOUBLE, 8.0, 4776788754394329);
    ThreeSum(P2, P18, P8);
  }

  lemma ThreeSum(a: Weighted, b: Weighted, c: Weighted)
    ensures FloatSum([a, b, c]) == Plus(Plus(Plus(0.0, a.weight), b.weight), c.weight)
  {
    hide Plus;
    var abc, ab := [a, b, c], [a, b];
    assert abc[..|abc| - 1] == ab && ab[..|ab| - 1] == [a] && [a][..0] == [];
    assert FloatSum([a]) == Plus(0.0, a.weight);
    assert FloatSum(ab) == Plus(FloatSum([a]), b.weight);
  }

  /** A slice of 600000000 pays the smallest of three positions a coin less when
      the positions are visited in increasing order. */
  lemma SmallestShare()
    ensures Due(Plain(UPWARD.curve), 600_000_000, "lp2") == 99_999_999
    ensures Due(Plain(SWAPPED.curve), 600_000_000, "lp2") == 100_000_000
  {
    hide Round, PowerBelow, Portion, FloatSum;
    UpwardSum();
    SwappedSum();
    UpwardPortion();
    SwappedPortion();
    OneOfThree(P2, P8, P18, 600_000_000, 2388394377197165.0 / 281474976710656.0);
    OneOfThree(P2, P18, P8, 600_000_000, 4776788754394329.0 / 562949953421312.0);
  }

  lemma UpwardPortion()
    ensures Portion(600_000_000, ROOT_2, 2388394377197165.0 / 281474976710656.0) == 99_999_999
  {
    hide Round, PowerBelow;
    SmallPowers();
    LargePowers();
    PortionIs(600_000_000, ROOT_2, 2388394377197165.0 / 281474976710656.0,
              6004799503160661.0 / 36028797018963968.0, 0.125, 6004799503160661, 67108864.0, 13743895347199999237);
  }

  lemma SwappedPortion()
    ensures Portion(600_000_000, ROOT_2, 4776788754394329.0 / 562949953421312.0) == 100_000_000
  {
    hide Round, PowerBelow;
    SmallPowers();
    LargePowers();
    PortionIs(600_000_000, ROOT_2, 4776788754394329.0 / 562949953421312.0,
              6004799503160662.0 / 36028797018963968.0, 0.125, 6004799503160662, 67108864.0, 13743895347200001526);
  }

  lemma OneOfThree(a: Weighted, b: Weighted, c: Weighted, pool: nat, total: Weight)
    requires a.who != b.who && a.who != c.who
    ensures DueSum([a, b, c], pool, total, a.who) == Portion(pool, a.weight, total)
  {
    hide Portion;
    var abc, ab := [a, b, c], [a, b];
    assert abc[..|abc| - 1] == ab && ab[..|ab| - 1] == [a] && [a][..0] == [];
    assert DueSum([a], pool, total, a.who) == Portion(pool, a.weight, total);
    assert DueSum(ab, pool, total, a.who) == DueSum([a], pool, total, a.who);
  }

  lemma LonelyCurve(book: Book, total: nat, who: string)
    requires book.longLock == []
    ensures LiquidityDue(book, total, who) == Due(Plain(book.curve), Pct(total, 30), who)
  {
    hide DueSum, Pct;
    assert Merging(book.longLock).total == 0.0;
  }

  /** Two nodes with the same positions, on stakes of 2, 8 and 18, can round to
      different shares. */
  lemma VisitingOrderMatters()
    ensures NearestRoot(2, 6369051672525773, 4503599627370496)
         && NearestRoot(8, 6369051672525773, 2251799813685248)
         && NearestRoot(18, 4776788754394329, 1125899906842624)
    ensures SameBook(UPWARD, SWAPPED) && !SharesAgree(UPWARD, SWAPPED, 2_000_000_000)
  {
    hide Due;
    RootsAreRounded();
    assert multiset([P2, P8, P18]) == multiset([P2, P18, P8]);
    SmallestShare();
    LonelyCurve(UPWARD, 2_000_000_000, "lp2");
    LonelyCurve(SWAPPED, 2_000_000_000, "lp2");
    assert Pct(2_000_000_000, 30) == 600_000_000;
    assert LiquidityDue(UPWARD, 2_000_000_000, "lp2") != LiquidityDue(SWAPPED, 2_000_000_000, "lp2");
  }

  /** So a block mined from an empty pool is refused by a node that visits its
      positions in the other order. */
  lemma OrderAloneRefuses(balances: Balances, pending: map<string, int>, validator: Address, height: nat, root: ChainState -> string)
    requires height < BLOCKS_PER_HALVING
    ensures var s := ChainState(balances, pending, 0);
            ReplayBlock(s, SWAPPED, MineBlock(s, UPWARD, [], GAS_LIMIT, validator, height, root).1, root) == None
  {
    hide SharesAgree, SameBook, RewardState, RewardBreakdown, ReplayBlock, MineBlock;
    var s := ChainState(balances, pending, 0);
    VisitingOrderMatters();
    assert EmissionReward(height) == 2_000_000_000 by { assert Pow2(0) == 1; }
    assert RewardPool(s, UPWARD, 0, height) == 2_000_000_000;
    MinedBlockReplays(s, UPWARD, SWAPPED, [], GAS_LIMIT, validator, height, root);
  }

  // ---------------------------------------------------- shares can overpay

  const FEES: nat := 3_999_999_999_999_990_000
  const POOL: nat := 4_000_000_001_999_990_000

  /** A transfer of nothing that burns FEES. */
  const COSTLY: Tx := Tx("a", "b", 0, 0, 190_476_190_476_190, 0, Transfer, false, "t", 1.0)

  const SMALL: Weighted := Weighted("small", 1.0)
  const LARGE: Weighted := Weighted("large", 9.0)
  const ALONE: Weighted := Weighted("alone", 1.0)

  /** Two positions in the proportion 1 to 9, one long lock, one other validator. */
  const RICH: Book := Book([SMALL, LARGE], [ALONE], [ALONE], 2_000_000_000)

  lemma TenthAndNine()
    ensures Portion(1_200_000_000_599_997_000, 1.0, 10.0) == 120_000_000_059_999_706
    ensures Portion(1_200_000_000_599_997_000, 9.0, 10.0) == 1_080_000_000_539_997_326
  {
    hide Portion, PowerBelow;
    SmallPowers();
    LargePowers();
    PortionIs(1_200_000_000_599_997_000, 1.0, 10.0, 7205759403792794.0 / 72057594037927936.0,
              0.0625, 7205759403792794, 72057594037927936.0, 15360000007679962453);
    PortionIs(1_200_000_000_599_997_000, 9.0, 10.0, 8106479329266893.0 / 9007199254740992.0,
              0.5, 8106479329266893, 576460752303423488.0, 17280000008639957226);
  }

  lemma WholeSlices()
    ensures Portion(200_000_000_099_999_500, 1.0, 1.0) == 200_000_000_099_999_500
    ensures Portion(480_000_000_239_998_800, 1.0, 1.0) == 480_000_000_239_998_800
    ensures Portion(80_000_000_039_999_800, 1.0, 1.0) == 80_000_000_039_999_800
  {
    hide Portion, PowerBelow;
    SmallPowers();
    LargePowers();
    PortionIs(200_000_000_099_999_500, 1.0, 1.0, 1.0, 1.0, 4503599627370496, 144115188075855872.0, 12800000006399968000);
    PortionIs(480_000_000_239_998_800, 1.0, 1.0, 1.0, 1.0, 4503599627370496, 288230376151711744.0, 15360000007679961600);
    PortionIs(80_000_000_039_999_800, 1.0, 1.0, 1.0, 1.0, 4503599627370496, 72057594037927936.0, 10240000005119974400);
  }

  lemma ExactSums()
    ensures Plus(0.0, 1.0) == 1.0 && Plus(1.0, 9.0) == 10.0
  {
    hide PowerBelow;
    SmallPowers();
    RoundsTo(0.0 + 1.0, DOUBLE, 1.0, 4503599627370496);
    RoundsTo(1.0 + 9.0, DOUBLE, 8.0, 5629499534213120);
  }

  lemma AloneGroup(w: Weighted, pool: nat)
    requires w.weight == 1.0 && 0 < pool && Portion(pool, 1.0, 1.0) == pool
    ensures GroupSum(Plain([w]), pool) == pool && GroupSum(Merging([w]), pool) == pool
  {
    hide Plus, Portion;
    ExactSums();
    assert [w][..0] == [];
    assert FloatSum([w]) == 1.0;
    assert Merged([w]) == [w];
    assert PortionSum([w], pool, 1.0) == Portion(pool, 1.0, 1.0);
  }

  lemma PairGroup(pool: nat)
    requires 0 < pool
    ensures GroupSum(Plain([SMALL, LARGE]), pool) == Portion(pool, 1.0, 10.0) + Portion(pool, 9.0, 10.0)
  {
    hide Plus, Portion;
    ExactSums();
    var ws := [SMALL, LARGE];
    assert ws[..|ws| - 1] == [SMALL] && [SMALL][..0] == [];
    assert FloatSum([SMALL]) == 1.0;
    assert FloatSum(ws) == 10.0;
    assert PortionSum([SMALL], pool, 10.0) == Portion(pool, 1.0, 10.0);
  }

  lemma RichSlices()
    ensures Pct(POOL, 30) == 1_200_000_000_599_997_000 && Pct(POOL, 5) == 200_000_000_099_999_500
    ensures Pct(POOL, 12) == 480_000_000_239_998_800 && Pct(POOL, 2) == 80_000_000_039_999_800
    ensures Pct(POOL, 40) + Pct(POOL, 11) == 2_040_000_001_019_994_900
  {
  }

  lemma RichShares(ps: seq<Participant>)
    requires |ps| == 1 && ps[0].weight == 1.0
    ensures Pct(POOL, 40) + Pct(POOL, 11) + SharesSum(RICH, "v", ps, POOL) == POOL + 32
  {
    hide GroupSum, Portion, Pct;
    RichSlices();
    TenthAndNine();
    WholeSlices();
    PairGroup(Pct(POOL, 30));
    AloneGroup(ALONE, Pct(POOL, 5));
    AloneGroup(ALONE, Pct(POOL, 12));
    AloneGroup(ByWho(ps)[0], Pct(POOL, 2));
    assert ByWho(ps) == [ByWho(ps)[0]];
    assert [ALONE][..0] == [];
    assert Others([ALONE], "v") == [ALONE];
  }

  lemma CostlyIsKept()
    ensures var v := Verified(COSTLY, 21000, FEES, true);
            var m := Mine(map["a" := FEES], [v], GAS_LIMIT);
            WorkerResult(v) && m == Mining(Pay(map["a" := FEES], COSTLY, FEES), [COSTLY], 21000, FEES)
  {
    hide Pay;
    var b, v := map["a" := FEES], Verified(COSTLY, 21000, FEES, true);
    assert COSTLY.Units() == 21000 && COSTLY.Cost() == FEES;
    assert [v][..0] == [];
    assert Mine(b, [v], GAS_LIMIT) == MineStep(Mining(b, [], 0, 0), v, GAS_LIMIT);
  }

  lemma CostlyIsReplayable()
    ensures Replayable(map["a" := FEES], [COSTLY])
    ensures Total(Pay(map["a" := FEES], COSTLY, FEES)) == Total(map["a" := FEES]) - FEES
  {
    hide Total;
    var b := map["a" := FEES];
    ReplayableSnoc(b, [], COSTLY);
    assert [] + [COSTLY] == [COSTLY];
    PayTotal(b, COSTLY, FEES);
  }

  /** With slices this large an accepted block can create more than it emits. */
  lemma AcceptedBlockCanOverpay(height: nat, root: ChainState -> string)
    requires height < BLOCKS_PER_HALVING
    ensures var s := ChainState(map["a" := FEES], map[], 0);
            var (t, block) := MineBlock(s, RICH, [Verified(COSTLY, 21000, FEES, true)], GAS_LIMIT, "v", height, root);
            && ReplayBlock(s, RICH, block, root) == Some(t)
            && CoinsOf(t) - CoinsOf(s) == (t.emitted - s.emitted) + 32
  {
    hide RewardBreakdown, ReplayBlock, Mine, Pay, Total, Replayable, SharesSum, LiquidityDue;
    var s, v := ChainState(map["a" := FEES], map[], 0), Verified(COSTLY, 21000, FEES, true);
    CostlyIsKept();
    CostlyIsReplayable();
    var m := Mine(s.balances, [v], GAS_LIMIT);
    assert EmissionReward(height) == 2_000_000_000 by { assert Pow2(0) == 1; }
    assert Capped(RICH.cap, 0, height) == 2_000_000_000;
    assert RewardPool(s, RICH, m.gasFees, height) == POOL;
    MinedBlockReplays(s, RICH, RICH, [v], GAS_LIMIT, "v", height, root);
    RichShares(Participants(m.kept));
    RewardsCreate(s.(balances := m.balances), RICH, "v", Participants(m.kept), m.gasFees, height);
  }
}
