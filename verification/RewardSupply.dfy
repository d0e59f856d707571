/** How many coins a block's rewards hand out: rounded shares can add up to more
    than their slice, but not while slice and group are of moderate size. */
module RewardSupply {
  import opened Basics
  import opened Sums
  import opened Ledger
  import opened Floats
  import opened Rewards

  /** The exact sum of the weights. */
  function RealSum(ws: seq<Weighted>): Weight {
    if ws == [] then 0.0 else RealSum(ws[..|ws| - 1]) + ws[|ws| - 1].weight
  }

  function PortionSum(ws: seq<Weighted>, pool: nat, total: Weight): nat {
    if ws == [] then 0 else PortionSum(ws[..|ws| - 1], pool, total) + Portion(pool, ws[|ws| - 1].weight, total)
  }

  /** What a group is paid in all. */
  function GroupSum(g: Group, pool: nat): nat {
    if g.total > 0.0 && pool > 0 then PortionSum(g.paid, pool, g.total) else 0
  }

  lemma {:induction false} PaidTotal(m: map<string, int>, ws: seq<Weighted>, pool: nat, total: Weight)
    ensures Total(PayInto(m, ws, pool, total, false)) == Total(m) + PortionSum(ws, pool, total)
    decreases |ws|
  {
    if ws != [] {
      var w := ws[|ws| - 1];
      PaidTotal(m, ws[..|ws| - 1], pool, total);
      CreditTotal(PayInto(m, ws[..|ws| - 1], pool, total, false), w.who, Portion(pool, w.weight, total));
    }
  }

  lemma PayGroupTotal(m: map<string, int>, g: Group, pool: nat)
    ensures Total(PayGroup(m, g, pool, false)) == Total(m) + GroupSum(g, pool)
  {
    PaidTotal(m, g.paid, pool, g.total);
  }

  lemma PayOneTotal(b: Balances, who: Address, amount: nat)
    ensures Total(PayOne(b, who, amount)) == Total(b) + amount
  {
    CreditTotal(b, who, amount);
  }

  // --------------------------------------------------- what rounding can add

  /** Small enough for the rounding errors of the group to stay below one coin. */
  predicate Few(entries: nat, pool: nat) { Slight(entries as real, pool as real) }

  predicate Slight(n: real, pool: real) { 2.0 * (n + 1.0) * (pool + 1.0) <= ROUNDS }

  /** What is left of a pool once every error is counted. */
  predicate Within(paid: real, n: real, pool: real) {
    paid * ((ROUNDS - n) * (ROUNDS - n)) <= (ROUNDS + 1.0) * (ROUNDS + 1.0) * pool
  }

  lemma NonNegativeProduct(x: real, y: real)
    requires 0.0 <= x && 0.0 <= y
    ensures 0.0 <= x * y
  {
  }

  /** f has lost at most n parts in 2^53 of sum. */
  predicate Low(f: real, n: real, sum: real) {
    ROUNDS * f >= (ROUNDS - n) * sum
  }

  /** x is at most one rounding above y. */
  predicate Gains(x: real, y: real) {
    ROUNDS * x <= (ROUNDS + 1.0) * y
  }

  lemma LowStep(n: real, f: real, w: real, sum: real, next: real)
    requires 0.0 <= n && 0.0 <= w && 0.0 <= sum && 0.0 <= f
    requires Low(f, n, sum) && Low(next, 1.0, f + w)
    ensures Low(next, n + 1.0, sum + w)
  {
    NonNegativeProduct(n, sum);
    NonNegativeProduct(n, w);
    assert (ROUNDS - n) * sum == ROUNDS * sum - n * sum;
    assert (ROUNDS - (n + 1.0)) * (sum + w) == (ROUNDS - 1.0) * sum + (ROUNDS - 1.0) * w - n * sum - n * w;
  }

  /** Each rounding can lose at most one part in 2^53 of the total. */
  lemma {:induction false} FloatSumLow(ws: seq<Weighted>)
    ensures Low(FloatSum(ws), |ws| as real, RealSum(ws))
    decreases |ws|
  {
    if ws == [] {
      assert Low(0.0, 0.0, 0.0);
    } else {
      var front, w := ws[..|ws| - 1], ws[|ws| - 1].weight;
      FloatSumLow(front);
      LowNext(|front| as real, FloatSum(front), w, RealSum(front));
    }
  }

  lemma LowNext(n: real, f: Weight, w: Weight, sum: Weight)
    requires 0.0 <= n && Low(f, n, sum)
    ensures Low(Plus(f, w), n + 1.0, sum + w)
  {
    PlusError(f, w);
    LowStep(n, f, w, sum, Plus(f, w));
  }

  lemma PlusError(x: Weight, y: Weight)
    ensures Low(Plus(x, y), 1.0, x + y) && Gains(Plus(x, y), x + y)
  {
    RoundError(x + y, DOUBLE);
  }

  lemma {:induction false} RealSumCons(ws: seq<Weighted>)
    requires ws != []
    ensures RealSum(ws) == ws[0].weight + RealSum(ws[1..])
    decreases |ws|
  {
    if |ws| > 1 {
      var front := ws[..|ws| - 1];
      RealSumCons(front);
      assert ws[1..][..|ws| - 2] == front[1..];
    }
  }

  lemma {:induction false} MergeInHigh(ws: seq<Weighted>, w: Weighted)
    ensures Gains(RealSum(MergeIn(ws, w)), RealSum(ws) + w.weight)
    decreases |ws|
  {
    var all := MergeIn(ws, w);
    RealSumCons(all);
    if ws == [] {
      assert all[1..] == [];
    } else {
      RealSumCons(ws);
      assert all[1..] == if ws[0].who == w.who then ws[1..] else MergeIn(ws[1..], w);
      if ws[0].who == w.who {
        PlusError(ws[0].weight, w.weight);
      } else {
        MergeInHigh(ws[1..], w);
      }
    }
  }

  /** x has gained at most n parts in 2^53 over sum. */
  predicate High(x: real, n: real, sum: real) {
    (ROUNDS - n) * x <= ROUNDS * sum
  }

  lemma HighStep(k: real, m: real, w: real, sum: real, next: real)
    requires 0.0 <= k <= ROUNDS - 1.0 && 0.0 <= w && 0.0 <= m
    requires k * m + m <= ROUNDS * sum
    requires Gains(next, m + w)
    ensures k * next <= ROUNDS * (sum + w)
  {
    MulReal(ROUNDS * next, (ROUNDS + 1.0) * (m + w), k);
    assert (ROUNDS * next) * k == ROUNDS * (k * next);
    assert ((ROUNDS + 1.0) * (m + w)) * k == (ROUNDS + 1.0) * (k * m) + (ROUNDS + 1.0) * (k * w);
    MulReal(k, ROUNDS - 1.0, m);
    MulReal(k, ROUNDS - 1.0, w);
    HighParts(k * next, k * m, k * w, m, w, sum);
  }

  lemma HighParts(next: real, km: real, kw: real, m: real, w: real, sum: real)
    requires ROUNDS * next <= (ROUNDS + 1.0) * km + (ROUNDS + 1.0) * kw
    requires km + m <= ROUNDS * sum && km <= (ROUNDS - 1.0) * m && kw <= (ROUNDS - 1.0) * w && 0.0 <= m && 0.0 <= w
    ensures next <= ROUNDS * (sum + w)
  {
  }

  lemma HighNext(n: real, m: real, w: real, sum: real, next: real)
    requires 0.0 <= n && n + 1.0 <= ROUNDS && 0.0 <= w && 0.0 <= m
    requires High(m, n, sum) && Gains(next, m + w)
    ensures High(next, n + 1.0, sum + w)
  {
    var k := ROUNDS - (n + 1.0);
    assert (ROUNDS - n) * m == k * m + m;
    HighStep(k, m, w, sum, next);
  }

  /** Merging entries can add at most one part in 2^53 for each. */
  lemma {:induction false} MergedHigh(ws: seq<Weighted>)
    requires |ws| as real <= ROUNDS
    ensures High(RealSum(Merged(ws)), |ws| as real, RealSum(ws))
    decreases |ws|
  {
    if ws == [] {
      assert High(0.0, 0.0, 0.0);
    } else {
      var front, w := ws[..|ws| - 1], ws[|ws| - 1];
      MergedHigh(front);
      MergeInHigh(Merged(front), w);
      HighNext(|front| as real, RealSum(Merged(front)), w.weight, RealSum(front), RealSum(MergeIn(Merged(front), w)));
    }
  }

  /** What is paid against a total, and the exact shares, two roundings apart. */
  predicate Over(paid: real, total: real, pool: real, weight: real) {
    ROUNDS * ROUNDS * (paid * total) <= (ROUNDS + 1.0) * (ROUNDS + 1.0) * (pool * weight)
  }

  /** A portion exceeds the exact share by at most two roundings. */
  lemma PortionHigh(pool: nat, weight: Weight, total: Weight)
    requires 0.0 < total
    ensures Over(Portion(pool, weight, total) as real, total, pool as real, weight)
  {
    if pool == 0 || weight <= 0.0 {
      NonNegativeProduct(pool as real, weight);
    } else {
      DivideBack(weight, total);
      RatioHigh(pool, weight, total, weight / total);
    }
  }

  lemma RatioHigh(pool: nat, weight: Weight, total: Weight, q: Weight)
    requires 0.0 < total && q * total == weight
    ensures 0.0 <= Round(q, DOUBLE) && Over(Scaled(pool, Round(q, DOUBLE)) as real, total, pool as real, weight)
  {
    hide Scaled, Round;
    RatioError(q);
    ScaledHigh(pool, weight, total, q, Round(q, DOUBLE));
  }

  lemma ScaledHigh(pool: nat, weight: Weight, total: Weight, q: Weight, r: Weight)
    requires 0.0 < total && q * total == weight && Gains(r, q)
    ensures Over(Scaled(pool, r) as real, total, pool as real, weight)
  {
    hide Scaled;
    ScaledError(pool, r);
    PortionScale(pool as real, weight, total, q, r, Scaled(pool, r) as real);
  }

  lemma ScaledError(pool: nat, r: Weight)
    ensures Gains(Scaled(pool, r) as real, pool as real * r)
  {
    hide Round;
    var x := pool as real * r;
    RoundError(x, EXTENDED);
    ExtendedGains(x, Round(x, EXTENDED), Scaled(pool, r) as real);
  }

  lemma RatioError(q: real)
    requires 0.0 <= q
    ensures 0.0 <= Round(q, DOUBLE) && Gains(Round(q, DOUBLE), q)
  {
    RoundError(q, DOUBLE);
  }

  lemma ExtendedGains(x: real, rounded: real, p: real)
    requires 0.0 <= x && p <= rounded
    requires 2.0 * EXTENDED * rounded <= 2.0 * EXTENDED * x + x
    ensures Gains(p, x)
  {
  }

  lemma PortionScale(pool: real, weight: real, total: real, q: real, r: real, p: real)
    requires 0.0 < total && 0.0 <= pool && q * total == weight
    requires Gains(r, q) && Gains(p, pool * r)
    ensures Over(p, total, pool, weight)
  {
    MulReal(ROUNDS * p, (ROUNDS + 1.0) * (pool * r), total);
    assert (ROUNDS * p) * total == ROUNDS * (p * total);
    assert ((ROUNDS + 1.0) * (pool * r)) * total == (ROUNDS + 1.0) * (pool * (r * total));
    MulReal(ROUNDS * r, (ROUNDS + 1.0) * q, total);
    assert (ROUNDS * r) * total == ROUNDS * (r * total);
    assert ((ROUNDS + 1.0) * q) * total == (ROUNDS + 1.0) * weight;
    MulReal(ROUNDS * (r * total), (ROUNDS + 1.0) * weight, pool);
    assert (ROUNDS * (r * total)) * pool == ROUNDS * (pool * (r * total));
    assert ((ROUNDS + 1.0) * weight) * pool == (ROUNDS + 1.0) * (pool * weight);
  }

  /** The pool's exact share is at most a unit and two roundings above what is paid. */
  predicate Under(paid: real, total: real, pool: real, weight: real) {
    (ROUNDS - 1.0) * (ROUNDS - 1.0) * (pool * weight) <= ROUNDS * ROUNDS * (paid * total)
  }

  /** A portion is the exact share pool * weight / total, rounded down, up to two
      roundings either way. */
  lemma PortionIsNear(pool: nat, weight: Weight, total: Weight)
    requires 0.0 < total && 0.0 < weight && 0 < pool
    ensures Over(Portion(pool, weight, total) as real, total, pool as real, weight)
    ensures Under(Portion(pool, weight, total) as real + 1.0, total, pool as real, weight)
  {
    hide Portion, Over, Under;
    PortionHigh(pool, weight, total);
    PortionLow(pool, weight, total);
  }

  lemma PortionLow(pool: nat, weight: Weight, total: Weight)
    requires 0.0 < total && 0.0 < weight && 0 < pool
    ensures Under(Portion(pool, weight, total) as real + 1.0, total, pool as real, weight)
  {
    hide Scaled, Round;
    DivideBack(weight, total);
    RatioLow(pool, weight, total, weight / total);
  }

  lemma RatioLow(pool: nat, weight: Weight, total: Weight, q: Weight)
    requires 0.0 < total && q * total == weight
    ensures 0.0 <= Round(q, DOUBLE)
    ensures Under(Scaled(pool, Round(q, DOUBLE)) as real + 1.0, total, pool as real, weight)
  {
    hide Scaled, Round;
    RatioLowError(q);
    ScaledLow(pool, Round(q, DOUBLE));
    PortionScaleLow(pool as real, weight, total, q, Round(q, DOUBLE), Scaled(pool, Round(q, DOUBLE)) as real + 1.0);
  }

  lemma RatioLowError(q: real)
    requires 0.0 <= q
    ensures 0.0 <= Round(q, DOUBLE) && Low(Round(q, DOUBLE), 1.0, q)
  {
    hide Round;
    RoundError(q, DOUBLE);
  }

  lemma ScaledLow(pool: nat, r: Weight)
    ensures Low(Scaled(pool, r) as real + 1.0, 1.0, pool as real * r)
  {
    hide Round;
    var x := pool as real * r;
    RoundError(x, EXTENDED);
    ExtendedLow(x, Round(x, EXTENDED), Scaled(pool, r) as real + 1.0);
  }

  lemma ExtendedLow(x: real, rounded: real, p: real)
    requires 0.0 <= x && rounded <= p
    requires 2.0 * EXTENDED * rounded >= 2.0 * EXTENDED * x - x
    ensures Low(p, 1.0, x)
  {
  }

  lemma PortionScaleLow(pool: real, weight: real, total: real, q: real, r: real, p: real)
    requires 0.0 < total && 0.0 <= pool && q * total == weight
    requires Low(r, 1.0, q) && Low(p, 1.0, pool * r)
    ensures Under(p, total, pool, weight)
  {
    MulReal((ROUNDS - 1.0) * (pool * r), ROUNDS * p, total);
    assert (ROUNDS * p) * total == ROUNDS * (p * total);
    assert ((ROUNDS - 1.0) * (pool * r)) * total == (ROUNDS - 1.0) * (pool * (r * total));
    MulReal((ROUNDS - 1.0) * q, ROUNDS * r, total);
    assert (ROUNDS * r) * total == ROUNDS * (r * total);
    assert ((ROUNDS - 1.0) * q) * total == (ROUNDS - 1.0) * weight;
    MulReal((ROUNDS - 1.0) * weight, ROUNDS * (r * total), pool);
    assert (ROUNDS * (r * total)) * pool == ROUNDS * (pool * (r * total));
    assert ((ROUNDS - 1.0) * weight) * pool == (ROUNDS - 1.0) * (pool * weight);
  }

  lemma {:induction false} PortionsHigh(ws: seq<Weighted>, pool: nat, total: Weight)
    requires 0.0 < total
    ensures Over(PortionSum(ws, pool, total) as real, total, pool as real, RealSum(ws))
    decreases |ws|
  {
    if ws == [] {
      assert Over(0.0, total, pool as real, 0.0);
    } else {
      var front, w := ws[..|ws| - 1], ws[|ws| - 1].weight;
      PortionsHigh(front, pool, total);
      PortionHigh(pool, w, total);
      OverAdds(PortionSum(front, pool, total) as real, Portion(pool, w, total) as real, total, pool as real, RealSum(front), w);
    }
  }

  lemma OverAdds(s: real, p: real, total: real, pool: real, sum: real, w: real)
    requires Over(s, total, pool, sum) && Over(p, total, pool, w)
    ensures Over(s + p, total, pool, sum + w)
  {
    assert (s + p) * total == s * total + p * total;
    assert pool * (sum + w) == pool * sum + pool * w;
  }

  /** One coin too many would need a larger slice or a larger group. */
  lemma NoRoomForOneMore(n: real, pool: real)
    requires 0.0 <= n && 0.0 <= pool && Slight(n, pool)
    ensures (pool + 1.0) * ((ROUNDS - n) * (ROUNDS - n)) > (ROUNDS + 1.0) * (ROUNDS + 1.0) * pool
  {
    NonNegativeProduct(n, pool);
    var c := n * (pool + 1.0);
    assert 2.0 * (n + 1.0) * (pool + 1.0) == 2.0 * c + 2.0 * pool + 2.0;
    assert (ROUNDS - n) * (ROUNDS - n) == ROUNDS * ROUNDS - 2.0 * ROUNDS * n + n * n;
    NonNegativeProduct(n, n);
    NonNegativeProduct(pool + 1.0, n * n);
    assert (pool + 1.0) * ((ROUNDS - n) * (ROUNDS - n))
        == ROUNDS * ROUNDS * (pool + 1.0) - 2.0 * ROUNDS * c + (pool + 1.0) * (n * n) by {
      assert (pool + 1.0) * (2.0 * ROUNDS * n) == 2.0 * ROUNDS * c;
    }
  }

  /** Two bounds on the same product, one through each factor. */
  lemma Through(paid: real, total: real, k: real, sum: real)
    requires 0.0 <= paid && 0.0 <= k && k * sum <= ROUNDS * total
    ensures (paid * (k * k)) * sum <= ROUNDS * ((paid * total) * k)
  {
    NonNegativeProduct(paid, k);
    MulReal(k * sum, ROUNDS * total, paid * k);
    assert (k * sum) * (paid * k) == (paid * (k * k)) * sum;
    assert (ROUNDS * total) * (paid * k) == ROUNDS * ((paid * total) * k);
  }

  lemma Scale(c: real, x: real, d: real, y: real, k: real)
    requires 0.0 <= k && c * x <= d * y
    ensures c * (x * k) <= d * (y * k)
  {
    MulReal(c * x, d * y, k);
  }

  lemma PoolShare(pool: real, merged: real, k: real, sum: real)
    requires 0.0 <= pool && k * merged <= ROUNDS * sum
    ensures (pool * merged) * k <= ROUNDS * (pool * sum)
  {
    MulReal(k * merged, ROUNDS * sum, pool);
  }

  lemma Combine(paidK: real, sum: real, paidTotal: real, poolSum: real, poolMerged: real)
    requires paidK * sum <= ROUNDS * paidTotal
    requires ROUNDS * ROUNDS * paidTotal <= (ROUNDS + 1.0) * (ROUNDS + 1.0) * poolMerged
    requires poolMerged <= ROUNDS * poolSum
    ensures paidK * sum <= (ROUNDS + 1.0) * (ROUNDS + 1.0) * poolSum
  {
  }

  /** The rounding errors of the total, the merged entries and the portions together. */
  lemma ErrorsTogether(n: real, pool: real, paid: real, total: real, merged: real, sum: real)
    requires 0.0 <= n < ROUNDS && 0.0 <= pool && 0.0 <= paid && 0.0 < sum
    requires Over(paid, total, pool, merged) && Low(total, n, sum) && High(merged, n, sum)
    ensures Within(paid, n, pool)
  {
    KeptWithin(ROUNDS - n, pool, paid, total, merged, sum);
  }

  lemma KeptWithin(k: real, pool: real, paid: real, total: real, merged: real, sum: real)
    requires 0.0 <= k && 0.0 <= pool && 0.0 <= paid && 0.0 < sum
    requires Over(paid, total, pool, merged) && k * sum <= ROUNDS * total && k * merged <= ROUNDS * sum
    ensures paid * (k * k) <= (ROUNDS + 1.0) * (ROUNDS + 1.0) * pool
  {
    Through(paid, total, k, sum);
    Scale(ROUNDS * ROUNDS, paid * total, (ROUNDS + 1.0) * (ROUNDS + 1.0), pool * merged, k);
    PoolShare(pool, merged, k, sum);
    Combine(paid * (k * k), sum, (paid * total) * k, pool * sum, (pool * merged) * k);
    Regroup((ROUNDS + 1.0) * (ROUNDS + 1.0), pool, sum);
    CancelReal(sum, paid * (k * k), (ROUNDS + 1.0) * (ROUNDS + 1.0) * pool);
  }

  lemma Regroup(c: real, pool: real, sum: real)
    ensures c * (pool * sum) == (c * pool) * sum
  {
  }

  /** How a group comes about: entries as they are, or merged by owner. */
  predicate Built(g: Group, ws: seq<Weighted>) { g == Plain(ws) || g == Merging(ws) }

  lemma GroupFits(g: Group, ws: seq<Weighted>, pool: nat)
    requires Built(g, ws) && Few(|ws|, pool)
    ensures GroupSum(g, pool) <= pool
  {
    if g.total > 0.0 && pool > 0 {
      var n, paid := |ws|, PortionSum(g.paid, pool, g.total);
      FewMeans(n, pool);
      GroupErrors(g, ws);
      PortionsHigh(g.paid, pool, g.total);
      ErrorsTogether(n as real, pool as real, paid as real, g.total, RealSum(g.paid), RealSum(ws));
      BelowOneCoin(n as real, pool as real, paid as real);
    }
  }

  lemma GroupErrors(g: Group, ws: seq<Weighted>)
    requires Built(g, ws) && |ws| as real <= ROUNDS
    ensures Low(g.total, |ws| as real, RealSum(ws)) && High(RealSum(g.paid), |ws| as real, RealSum(ws))
    ensures g.total > 0.0 ==> RealSum(ws) > 0.0
  {
    FloatSumLow(ws);
    SumPositive(ws);
    if g == Plain(ws) {
      PlainHigh(|ws| as real, RealSum(ws));
    } else {
      MergedHigh(ws);
    }
  }

  lemma BelowOneCoin(n: real, pool: real, paid: real)
    requires 0.0 <= n && 0.0 <= pool && Slight(n, pool) && Within(paid, n, pool)
    ensures paid < pool + 1.0
  {
    NoRoomForOneMore(n, pool);
    SquareNonNegative(ROUNDS - n);
    LessThanOneMore((ROUNDS - n) * (ROUNDS - n), pool, paid, (ROUNDS + 1.0) * (ROUNDS + 1.0) * pool);
  }

  lemma SquareNonNegative(x: real)
    ensures 0.0 <= x * x
  {
  }

  lemma LessThanOneMore(k: real, pool: real, paid: real, most: real)
    requires 0.0 <= k && paid * k <= most < (pool + 1.0) * k
    ensures paid < pool + 1.0
  {
    if paid >= pool + 1.0 {
      MulReal(pool + 1.0, paid, k);
    }
  }

  lemma FewMeans(n: nat, pool: nat)
    requires Few(n, pool)
    ensures n as real < ROUNDS
  {
    var a, b := n as real + 1.0, pool as real;
    NonNegativeProduct(a, b);
    assert 2.0 * a * (b + 1.0) == 2.0 * a + 2.0 * (a * b);
  }

  lemma PlainHigh(n: real, sum: real)
    requires 0.0 <= n && 0.0 <= sum
    ensures High(sum, n, sum)
  {
    MulReal(ROUNDS - n, ROUNDS, sum);
  }

  lemma {:induction false} SumPositive(ws: seq<Weighted>)
    ensures FloatSum(ws) > 0.0 ==> RealSum(ws) > 0.0
    decreases |ws|
  {
    if ws != [] {
      SumPositive(ws[..|ws| - 1]);
      PlusPositive(FloatSum(ws[..|ws| - 1]), ws[|ws| - 1].weight);
    }
  }

  // --------------------------------------------------------- a whole block

  ghost function CoinsOf(s: ChainState): int { Total(s.balances) + Total(s.pending) }

  /** What all the weighted groups are paid. */
  function SharesSum(book: Book, proposer: Address, ps: seq<Participant>, total: nat): nat {
    GroupSum(Plain(book.curve), Pct(total, 30)) + GroupSum(Merging(book.longLock), Pct(total, 5))
    + GroupSum(Plain(Others(book.validators, proposer)), Pct(total, 12)) + GroupSum(Plain(ByWho(ps)), Pct(total, 2))
  }

  /** Rewards create exactly the fixed slices and the rounded shares. */
  lemma RewardsCreate(s: ChainState, book: Book, proposer: Address, ps: seq<Participant>, gasFees: nat, height: nat)
    ensures var t := RewardState(s, book, proposer, ps, gasFees, height);
            var total := RewardPool(s, book, gasFees, height);
            CoinsOf(t) - CoinsOf(s) == Pct(total, 40) + Pct(total, 11) + SharesSum(book, proposer, ps, total)
  {
    var total := RewardPool(s, book, gasFees, height);
    var b1 := PayOne(s.balances, proposer, Pct(total, 40));
    var b2 := ValidatorsPaid(b1, book, proposer, total, false);
    var b3 := PayGroup(b2, Plain(ByWho(ps)), Pct(total, 2), false);
    PayOneTotal(s.balances, proposer, Pct(total, 40));
    PayGroupTotal(b1, Plain(Others(book.validators, proposer)), Pct(total, 12));
    PayGroupTotal(b2, Plain(ByWho(ps)), Pct(total, 2));
    PayOneTotal(b3, TREASURY, Pct(total, 11));
    PayGroupTotal(s.pending, Plain(book.curve), Pct(total, 30));
    PayGroupTotal(PayGroup(s.pending, Plain(book.curve), Pct(total, 30), false), Merging(book.longLock), Pct(total, 5));
  }

  /** Every group is small enough for its slice of the total. */
  predicate Moderate(book: Book, participants: nat, total: nat) {
    && Few(|book.curve|, Pct(total, 30)) && Few(|book.longLock|, Pct(total, 5))
    && Few(|book.validators|, Pct(total, 12)) && Few(participants, Pct(total, 2))
  }

  lemma FewMonotone(n: nat, pool: nat, n': nat, pool': nat)
    requires n <= n' && pool <= pool' && Few(n', pool')
    ensures Few(n, pool)
  {
    var a, b := 2.0 * (n as real + 1.0), 2.0 * (n' as real + 1.0);
    var p, q := pool as real + 1.0, pool' as real + 1.0;
    MulReal(a, b, p);
    MulReal(p, q, b);
    assert p * b == b * p && q * b == b * q;
  }

  lemma PctFits(total: nat)
    ensures Pct(total, 40) + Pct(total, 30) + Pct(total, 5) + Pct(total, 12) + Pct(total, 2) + Pct(total, 11) <= total
  {
  }

  /** Rewards hand out at most the emission of the block and its fees. */
  lemma RewardsAreFunded(s: ChainState, book: Book, proposer: Address, ps: seq<Participant>, gasFees: nat, height: nat)
    requires Moderate(book, |ps|, RewardPool(s, book, gasFees, height))
    ensures var t := RewardState(s, book, proposer, ps, gasFees, height);
            && CoinsOf(t) <= CoinsOf(s) + (t.emitted - s.emitted) + gasFees
            && s.emitted <= t.emitted
            && (s.emitted <= book.cap ==> t.emitted <= book.cap)
  {
    var total := RewardPool(s, book, gasFees, height);
    var others := Others(book.validators, proposer);
    CappedNonNegative(book.cap, s.emitted, height);
    PctFits(total);
    RewardsCreate(s, book, proposer, ps, gasFees, height);
    FewMonotone(|others|, Pct(total, 12), |book.validators|, Pct(total, 12));
    GroupFits(Plain(book.curve), book.curve, Pct(total, 30));
    GroupFits(Merging(book.longLock), book.longLock, Pct(total, 5));
    GroupFits(Plain(others), others, Pct(total, 12));
    GroupFits(Plain(ByWho(ps)), ByWho(ps), Pct(total, 2));
  }
}
