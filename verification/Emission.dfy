/** The issuance schedule, its epoch-by-epoch totals and the supply cap. */
module Emission {
  import opened Basics
  import opened Sums

  const BLOCKS_PER_HALVING: int := 63_115_200
  const GENESIS_REWARD: int := 2_000_000_000
  const TWO_64: int := MAX_UINT64 + 1

  function Pow2(n: nat): (p: int)
    ensures p > 0
  {
    if n == 0 then 1 else 2 * Pow2(n - 1)
  }

  /** The block reward: the genesis reward shifted right once an epoch, at least 1. */
  function EmissionReward(block: nat): int {
    var halvings := block / BLOCKS_PER_HALVING;
    if halvings >= 64 then 1
    else
      var reward := GENESIS_REWARD / Pow2(halvings);
      if reward == 0 then 1 else reward
  }

  lemma RewardPositive(block: nat)
    ensures EmissionReward(block) >= 1
  {
    var h := block / BLOCKS_PER_HALVING;
    if h < 64 {
      assert GENESIS_REWARD / Pow2(h) >= 0 by { QuotientNonNegative(GENESIS_REWARD, Pow2(h)); }
    }
  }

  lemma QuotientNonNegative(a: int, d: int)
    requires 0 <= a && 0 < d
    ensures 0 <= a / d
  {
  }

  /** The reward starts at 20 coins, is halved, rounded down, with every epoch, and
      never falls below one unit. */
  lemma EmissionHalves(block: nat)
    ensures block < BLOCKS_PER_HALVING ==> EmissionReward(block) == GENESIS_REWARD
    ensures EmissionReward(block + BLOCKS_PER_HALVING) == Max(1, EmissionReward(block) / 2)
  {
    var h := block / BLOCKS_PER_HALVING;
    NextEpoch(block);
    if block < BLOCKS_PER_HALVING {
      assert h == 0 && Pow2(0) == 1;
    }
    if h == 63 {
      LastHalvings();
    } else if h < 63 {
      HalveQuotient(GENESIS_REWARD, Pow2(h));
      assert Pow2(h + 1) == 2 * Pow2(h);
      QuotientNonNegative(GENESIS_REWARD, Pow2(h));
    }
  }

  lemma NextEpoch(block: nat)
    ensures (block + BLOCKS_PER_HALVING) / BLOCKS_PER_HALVING == block / BLOCKS_PER_HALVING + 1
  {
  }

  lemma HalveQuotient(a: nat, d: nat)
    requires 0 < d
    ensures a / (2 * d) == (a / d) / 2
  {
    var q := a / d;
    assert d * q <= a < d * q + d;
    var e := q / 2;
    assert 2 * e <= q <= 2 * e + 1;
    assert d * (2 * e) <= d * q <= d * (2 * e + 1) by {
      MulMonotone(d, 2 * e, q);
      MulMonotone(d, q, 2 * e + 1);
    }
    assert (2 * d) * e <= a < (2 * d) * (e + 1);
    QuotientIs(a, 2 * d, e);
  }

  lemma QuotientIs(a: int, d: int, e: int)
    requires 0 < d && d * e <= a < d * (e + 1)
    ensures a / d == e
  {
    var q := a / d;
    assert d * q <= a < d * (q + 1);
    CancelLt(d, q, e + 1);
    CancelLt(d, e, q + 1);
  }

  lemma LastHalvings()
    ensures EmissionReward(63 * BLOCKS_PER_HALVING) == 1 && GENESIS_REWARD / Pow2(63) == 0
  {
    assert Pow2(4) == 16;
    PowAdds(4, 4);
    PowAdds(8, 8);
    PowAdds(16, 16);
    PowGrows(32, 63);
    QuotientIs(GENESIS_REWARD, Pow2(63), 0);
  }

  lemma {:induction false} PowAdds(a: nat, b: nat)
    ensures Pow2(a + b) == Pow2(a) * Pow2(b)
  {
    if a > 0 {
      PowAdds(a - 1, b);
      assert 2 * (Pow2(a - 1) * Pow2(b)) == (2 * Pow2(a - 1)) * Pow2(b);
    }
  }

  lemma {:induction false} PowGrows(a: nat, b: nat)
    requires a <= b
    ensures Pow2(a) <= Pow2(b)
  {
    if a < b {
      PowGrows(a, b - 1);
    }
  }

  /** The plain sum of the rewards of blocks from..to-1. */
  function Scheduled(from: nat, to: nat): int
    decreases if from < to then to - from else 0
  {
    if from >= to then 0 else EmissionReward(from) + Scheduled(from + 1, to)
  }

  lemma {:induction false} ScheduledSplit(from: nat, mid: nat, to: nat)
    requires from <= mid <= to
    ensures Scheduled(from, to) == Scheduled(from, mid) + Scheduled(mid, to)
    decreases if from < mid then mid - from else 0
  {
    if from < mid {
      ScheduledSplit(from + 1, mid, to);
    }
  }

  lemma SameEpochReward(block: nat, epoch: nat)
    requires epoch * BLOCKS_PER_HALVING <= block < (epoch + 1) * BLOCKS_PER_HALVING
    ensures block / BLOCKS_PER_HALVING == epoch && EmissionReward(block) == EmissionReward(epoch * BLOCKS_PER_HALVING)
  {
    assert block / BLOCKS_PER_HALVING == epoch;
    assert (epoch * BLOCKS_PER_HALVING) / BLOCKS_PER_HALVING == epoch;
  }

  /** Inside one epoch the reward is constant. */
  lemma {:induction false} ScheduledInEpoch(from: nat, to: nat)
    requires from <= to <= (from / BLOCKS_PER_HALVING + 1) * BLOCKS_PER_HALVING
    ensures Scheduled(from, to) == EmissionReward(from) * (to - from)
    decreases if from < to then to - from else 0
  {
    hide EmissionReward;
    if from < to {
      if from + 1 < to {
        var epoch := from / BLOCKS_PER_HALVING;
        SameEpochReward(from, epoch);
        SameEpochReward(from + 1, epoch);
        ScheduledInEpoch(from + 1, to);
        OneMore(EmissionReward(from), to - from);
      }
    }
  }

  lemma OneMore(reward: int, n: int)
    ensures reward * n == reward + reward * (n - 1)
  {
  }

  lemma {:induction false} ScheduledPositive(from: nat, to: nat)
    ensures Scheduled(from, to) >= 0
    ensures from < to ==> Scheduled(from, to) > 0
    decreases if from < to then to - from else 0
  {
    if from < to {
      RewardPositive(from);
      ScheduledPositive(from + 1, to);
    }
  }

  function EpochEnd(block: nat): nat { (block / BLOCKS_PER_HALVING + 1) * BLOCKS_PER_HALVING }

  /** Where the epoch loop really stops: past the end of the last epoch that
      64-bit heights can hold, its end marker wraps around. */
  function LoopEnd(height: nat): nat {
    if EpochEnd(height) <= MAX_UINT64 then height + 1 else EpochEnd(height)
  }

  lemma EpochEndMonotone(a: nat, b: nat)
    requires a <= b
    ensures EpochEnd(a) <= EpochEnd(b)
    ensures a < EpochEnd(a)
  {
    assert a / BLOCKS_PER_HALVING <= b / BLOCKS_PER_HALVING;
  }

  /** ScheduledEmissionThrough, in 64-bit arithmetic. */
  method ScheduledEmissionThrough(height: nat) returns (total: int)
    requires height <= MAX_UINT64
    ensures total == Scheduled(0, LoopEnd(height))
  {
    total := 0;
    var start := 0;
    while start <= height
      invariant 0 <= start <= height && total == Scheduled(0, start)
      decreases height - start
    {
      EpochEndMonotone(start, start);
      ghost var exactEnd := EpochEnd(start);
      var epochEnd := ((start / BLOCKS_PER_HALVING + 1) * BLOCKS_PER_HALVING) % TWO_64;
      var end := epochEnd;
      if height != MAX_UINT64 && end > height + 1 {
        end := height + 1;
      }
      var count := (end - start) % TWO_64;
      ghost var trueEnd := TrueEnd(exactEnd, height);
      WordArithmetic(start, height, end);
      ScheduledInEpoch(start, trueEnd);
      ScheduledSplit(0, start, trueEnd);
      total := total + EmissionReward(start) * count;
      if end <= start || end > height {
        SameEpoch(start, height);
        return;
      }
      start := end;
    }
  }

  function TrueEnd(exactEnd: nat, height: nat): nat {
    if exactEnd <= MAX_UINT64 && exactEnd > height + 1 then height + 1 else exactEnd
  }

  /** What the 64-bit end marker and block count of one pass stand for. */
  lemma WordArithmetic(start: nat, height: nat, end: nat)
    requires start <= height <= MAX_UINT64
    requires var w := EpochEnd(start) % TWO_64;
             end == if height != MAX_UINT64 && w > height + 1 then height + 1 else w
    ensures start < TrueEnd(EpochEnd(start), height) <= EpochEnd(start)
    ensures (end - start) % TWO_64 == TrueEnd(EpochEnd(start), height) - start
    ensures end <= start || end > height <==> height < EpochEnd(start)
    ensures !(end <= start || end > height) ==> end == EpochEnd(start) == TrueEnd(EpochEnd(start), height)
  {
    var e := EpochEnd(start);
    EpochEndMonotone(start, start);
    assert e - BLOCKS_PER_HALVING <= start;
    if e > MAX_UINT64 {
      assert e % TWO_64 == e - TWO_64;
      assert end == e - TWO_64;
    } else {
      assert e % TWO_64 == e;
    }
  }

  lemma SameEpoch(start: nat, height: nat)
    requires start <= height < EpochEnd(start)
    ensures EpochEnd(height) == EpochEnd(start)
  {
    assert height / BLOCKS_PER_HALVING == start / BLOCKS_PER_HALVING;
  }

  lemma EpochNeverEndsOnWord(k: int)
    ensures k * BLOCKS_PER_HALVING != TWO_64
  {
  }

  /** The epoch loop gives the plain per-block sum exactly when the epoch of the
      height ends within 64 bits; from then on it pays the whole last epoch. */
  lemma EpochTotalsExact(height: nat)
    requires height <= MAX_UINT64
    ensures Scheduled(0, LoopEnd(height)) == Scheduled(0, height + 1) <==> EpochEnd(height) <= MAX_UINT64
  {
    if EpochEnd(height) > MAX_UINT64 {
      EpochNeverEndsOnWord(height / BLOCKS_PER_HALVING + 1);
      ScheduledSplit(0, height + 1, EpochEnd(height));
      ScheduledPositive(height + 1, EpochEnd(height));
    }
  }

  /** How many basis points of the issuance the revenue replaces, 0 past 64 bits. */
  function ReplacementBps(revenue: int, issuance: int): int {
    if issuance <= 0 then 0
    else
      var v := revenue * 10000 / issuance;
      if -0x8000_0000_0000_0000 <= v <= 0x7FFF_FFFF_FFFF_FFFF then v else 0
  }

  method TotalRevenue(entries: seq<int>) returns (revenue: int)
    ensures revenue == SumSeq(entries)
  {
    revenue := 0;
    for i := 0 to |entries|
      invariant revenue == SumSeq(entries[..i])
    {
      SumSeqConcat(entries[..i], [entries[i]]);
      assert entries[..i] + [entries[i]] == entries[..i + 1];
      revenue := revenue + entries[i];
    }
    assert entries[..|entries|] == entries;
  }

  /** ProjectSupply: the loop over the projected blocks, the cap, and the share of
      the capped issuance that recorded revenue replaces. */
  method ProjectSupply(latest: nat, years: int, blockTimeSeconds: nat, cap: int, emitted: int, entries: seq<int>)
    returns (blocks: nat, issuance: int, scheduled: int, exceeded: bool, replacement: int)
    requires latest <= MAX_UINT64 - 2_000_000_000
    ensures blocks == (Clamp(years) * 365 * 24 * 3600) / (if blockTimeSeconds == 0 then 2 else blockTimeSeconds)
    ensures scheduled == Scheduled(latest + 1, latest + 1 + blocks)
    ensures issuance == Min(scheduled, Max(cap - emitted, 0))
    ensures exceeded <==> scheduled > Max(cap - emitted, 0)
    ensures replacement == ReplacementBps(SumSeq(entries), issuance)
  {
    var seconds := if blockTimeSeconds == 0 then 2 else blockTimeSeconds;
    var span := Clamp(years) * 365 * 24 * 3600;
    QuotientNonNegative(span, seconds);
    blocks := span / seconds;
    issuance := 0;
    var start := latest + 1;
    var height := start;
    while height < start + blocks
      invariant start <= height <= start + blocks && issuance == Scheduled(start, height)
    {
      EpochEndMonotone(height, height);
      var epochEnd := (height / BLOCKS_PER_HALVING + 1) * BLOCKS_PER_HALVING;
      if epochEnd > start + blocks {
        epochEnd := start + blocks;
      }
      ScheduledInEpoch(height, epochEnd);
      ScheduledSplit(start, height, epochEnd);
      issuance := issuance + EmissionReward(height) * (epochEnd - height);
      height := epochEnd;
    }
    var remainingCap := cap - emitted;
    if remainingCap < 0 {
      remainingCap := 0;
    }
    scheduled := issuance;
    exceeded := issuance > remainingCap;
    if exceeded {
      issuance := remainingCap;
    }
    var revenue := TotalRevenue(entries);
    replacement := 0;
    if issuance > 0 {
      var v := revenue * 10000 / issuance;
      if -0x8000_0000_0000_0000 <= v <= 0x7FFF_FFFF_FFFF_FFFF {
        replacement := v;
      }
    }
  }

  function Clamp(years: int): nat { if years < 1 then 1 else if years > 50 then 50 else years }
  function Min(a: int, b: int): int { if a < b then a else b }
  function Max(a: int, b: int): int { if a < b then b else a }

  // ------------------------------------------------------- the supply cap

  /** takeCappedEmission: what block takes once emitted is already out. */
  function Capped(cap: int, emitted: int, block: nat): int {
    if cap - emitted <= 0 then 0 else Min(EmissionReward(block), cap - emitted)
  }

  /** Cumulative emission after a run of blocks. */
  function EmittedAfter(cap: int, emitted: int, blocks: seq<nat>): int
    decreases |blocks|
  {
    if blocks == [] then emitted
    else EmittedAfter(cap, emitted + Capped(cap, emitted, blocks[0]), blocks[1..])
  }

  function RewardSum(blocks: seq<nat>): int {
    if blocks == [] then 0 else EmissionReward(blocks[0]) + RewardSum(blocks[1..])
  }

  /** Over any run of blocks starting at or under a fixed cap, emission is the
      schedule until the cap is reached and nothing after. */
  lemma {:induction false} CappedRun(cap: int, emitted: int, blocks: seq<nat>)
    requires emitted <= cap
    ensures EmittedAfter(cap, emitted, blocks) == Min(cap, emitted + RewardSum(blocks))
    decreases |blocks|
  {
    RewardSumNonNegative(blocks);
    if blocks != [] {
      RewardPositive(blocks[0]);
      RewardSumNonNegative(blocks[1..]);
      CappedRun(cap, emitted + Capped(cap, emitted, blocks[0]), blocks[1..]);
    }
  }

  lemma {:induction false} RewardSumNonNegative(blocks: seq<nat>)
    ensures 0 <= RewardSum(blocks)
  {
    if blocks != [] {
      RewardPositive(blocks[0]);
      RewardSumNonNegative(blocks[1..]);
    }
  }
}
