/** Splitting the coins of one block among its reward groups.  Weights are
    doubles: a group's total is rounded after every addition, so it can depend on
    the order in which the weights are visited. */
module Rewards {
  import opened Basics
  import opened Sums
  import opened Ledger
  import opened Emission
  import opened Floats

  const TREASURY: Address := "0x1111111111111111111111111111111111111111"

  /** Twice the significand bound of a double: 2^53. */
  const ROUNDS: real := 9007199254740992.0

  type Weight = w: real | 0.0 <= w

  datatype Weighted = Weighted(who: string, weight: Weight)

  function Plus(x: Weight, y: Weight): Weight {
    RoundError(x + y, DOUBLE);
    Round(x + y, DOUBLE)
  }

  /** The ratio is a double, its product with the slice an extended float, which
      is then cut to an integer. */
  function Portion(pool: nat, weight: Weight, total: Weight): nat {
    if pool == 0 || total <= 0.0 || weight <= 0.0 then 0
    else
      RoundError(weight / total, DOUBLE);
      Scaled(pool, Round(weight / total, DOUBLE))
  }

  function Scaled(pool: nat, ratio: Weight): nat {
    RoundError(pool as real * ratio, EXTENDED);
    Round(pool as real * ratio, EXTENDED).Floor
  }

  function Pct(amount: nat, pct: nat): nat { (amount * pct) / 100 }

  /** The total as the loop accumulates it. */
  function FloatSum(ws: seq<Weighted>): Weight {
    if ws == [] then 0.0 else Plus(FloatSum(ws[..|ws| - 1]), ws[|ws| - 1].weight)
  }

  /** One payment.  A listing skips zero shares, an account table does not. */
  function Post(m: map<string, int>, who: string, share: int, listing: bool): map<string, int> {
    if listing && share == 0 then m else Credit(m, who, share)
  }

  /** Paying every entry of ws its share of pool, in the order of the list. */
  function PayInto(m: map<string, int>, ws: seq<Weighted>, pool: nat, total: Weight, listing: bool): map<string, int> {
    if ws == [] then m
    else
      var w := ws[|ws| - 1];
      Post(PayInto(m, ws[..|ws| - 1], pool, total, listing), w.who, Portion(pool, w.weight, total), listing)
  }

  /** Adds a weight to its owner's entry, or opens one. */
  function MergeIn(ws: seq<Weighted>, w: Weighted): seq<Weighted> {
    if ws == [] then [w]
    else if ws[0].who == w.who then [Weighted(w.who, Plus(ws[0].weight, w.weight))] + ws[1..]
    else [ws[0]] + MergeIn(ws[1..], w)
  }

  /** One entry for each owner, weights added as they come. */
  function Merged(ws: seq<Weighted>): seq<Weighted> {
    if ws == [] then [] else MergeIn(Merged(ws[..|ws| - 1]), ws[|ws| - 1])
  }

  /** Who is paid, and the total the shares are taken of. */
  datatype Group = Group(paid: seq<Weighted>, total: Weight)

  function Plain(ws: seq<Weighted>): Group { Group(ws, FloatSum(ws)) }

  function Merging(ws: seq<Weighted>): Group { Group(Merged(ws), FloatSum(ws)) }

  /** A group is paid only when it has weight and the slice is not empty. */
  function PayGroup(m: map<string, int>, g: Group, pool: nat, listing: bool): map<string, int> {
    if g.total > 0.0 && pool > 0 then PayInto(m, g.paid, pool, g.total, listing) else m
  }

  // ------------------------------------------------------- what each one gets

  function DueSum(ws: seq<Weighted>, pool: nat, total: Weight, who: string): nat {
    if ws == [] then 0
    else
      DueSum(ws[..|ws| - 1], pool, total, who)
      + if ws[|ws| - 1].who == who then Portion(pool, ws[|ws| - 1].weight, total) else 0
  }

  /** The sum of a group's portions for one owner. */
  function Due(g: Group, pool: nat, who: string): nat {
    if g.total > 0.0 && pool > 0 then DueSum(g.paid, pool, g.total, who) else 0
  }

  predicate Names(ws: seq<Weighted>, who: string) {
    exists i :: 0 <= i < |ws| && ws[i].who == who
  }

  lemma NamesSnoc(ws: seq<Weighted>, who: string)
    requires ws != []
    ensures Names(ws, who) <==> Names(ws[..|ws| - 1], who) || ws[|ws| - 1].who == who
  {
    var front := ws[..|ws| - 1];
    assert forall i :: 0 <= i < |front| ==> front[i] == ws[i];
  }

  /** A payment adds exactly what is due; a listing names those with a share, a
      table everyone paid. */
  lemma {:induction false} PaidIs(m: map<string, int>, ws: seq<Weighted>, pool: nat, total: Weight, listing: bool, who: string)
    ensures var t := PayInto(m, ws, pool, total, listing);
            && Lookup(t, who) == Lookup(m, who) + DueSum(ws, pool, total, who)
            && (who in t <==> who in m || (if listing then DueSum(ws, pool, total, who) > 0 else Names(ws, who)))
    decreases |ws|
  {
    if ws != [] {
      PaidIs(m, ws[..|ws| - 1], pool, total, listing, who);
      NamesSnoc(ws, who);
    }
  }

  /** The owners a paid group names. */
  predicate Pays(g: Group, pool: nat, who: string) {
    g.total > 0.0 && pool > 0 && Names(g.paid, who)
  }

  lemma GroupIs(m: map<string, int>, g: Group, pool: nat, listing: bool, who: string)
    ensures var t := PayGroup(m, g, pool, listing);
            && Lookup(t, who) == Lookup(m, who) + Due(g, pool, who)
            && (who in t <==> who in m || (if listing then Due(g, pool, who) > 0 else Pays(g, pool, who)))
  {
    PaidIs(m, g.paid, pool, g.total, listing, who);
  }

  // --------------------------------------------------- the order of payments

  lemma PostCommutes(m: map<string, int>, a: string, x: int, b: string, y: int, listing: bool)
    ensures Post(Post(m, a, x, listing), b, y, listing) == Post(Post(m, b, y, listing), a, x, listing)
  {
    if a == b {
      assert Post(Post(m, a, x, listing), a, y, listing) == Post(Post(m, a, y, listing), a, x, listing);
    }
  }

  function Without<T>(s: seq<T>, i: nat): seq<T>
    requires i < |s|
  {
    s[..i] + s[i + 1..]
  }

  lemma WithoutBack<T>(s: seq<T>, i: nat)
    requires i < |s| - 1
    ensures var n := |s| - 1; var rest := Without(s, i);
            |rest| == n && rest[..n - 1] == Without(s[..n], i) && rest[n - 1] == s[n]
  {
  }

  lemma {:induction false} PayLast(m: map<string, int>, ws: seq<Weighted>, i: nat, pool: nat, total: Weight, listing: bool)
    requires i < |ws|
    ensures PayInto(m, ws, pool, total, listing)
         == Post(PayInto(m, Without(ws, i), pool, total, listing), ws[i].who, Portion(pool, ws[i].weight, total), listing)
    decreases |ws|
  {
    var n := |ws| - 1;
    if i == n {
      assert Without(ws, i) == ws[..n];
    } else {
      var rest := Without(ws, i);
      WithoutBack(ws, i);
      assert PayInto(m, rest, pool, total, listing)
          == Post(PayInto(m, Without(ws[..n], i), pool, total, listing), ws[n].who, Portion(pool, ws[n].weight, total), listing);
      PayLast(m, ws[..n], i, pool, total, listing);
      PostCommutes(PayInto(m, Without(ws[..n], i), pool, total, listing),
                   ws[i].who, Portion(pool, ws[i].weight, total), ws[n].who, Portion(pool, ws[n].weight, total), listing);
    }
  }

  /** Against one total, the same entries in another order leave the same table. */
  lemma {:induction false} PayOrder(m: map<string, int>, a: seq<Weighted>, b: seq<Weighted>, pool: nat, total: Weight, listing: bool)
    requires multiset(a) == multiset(b)
    ensures PayInto(m, a, pool, total, listing) == PayInto(m, b, pool, total, listing)
    decreases |a|
  {
    assert |multiset(a)| == |multiset(b)|;
    if a != [] {
      var n := |a| - 1;
      assert a[n] in multiset(b);
      var i :| 0 <= i < |b| && b[i] == a[n];
      RemoveAtMultiset(a, n);
      RemoveAtMultiset(b, i);
      assert Without(a, n) == a[..n];
      PayOrder(m, a[..n], Without(b, i), pool, total, listing);
      PayLast(m, b, i, pool, total, listing);
    }
  }

  lemma DueOrder(a: seq<Weighted>, b: seq<Weighted>, pool: nat, total: Weight, who: string)
    requires multiset(a) == multiset(b)
    ensures DueSum(a, pool, total, who) == DueSum(b, pool, total, who)
  {
    PayOrder(map[], a, b, pool, total, false);
    PaidIs(map[], a, pool, total, false, who);
    PaidIs(map[], b, pool, total, false, who);
  }

  // --------------------------------------- what every visiting order agrees on

  predicate Weighs(ws: seq<Weighted>) {
    exists i :: 0 <= i < |ws| && ws[i].weight > 0.0
  }

  lemma WeighsSnoc(ws: seq<Weighted>)
    requires ws != []
    ensures Weighs(ws) <==> Weighs(ws[..|ws| - 1]) || ws[|ws| - 1].weight > 0.0
  {
    var front := ws[..|ws| - 1];
    assert forall i :: 0 <= i < |front| ==> front[i] == ws[i];
  }

  lemma PlusPositive(x: Weight, y: Weight)
    ensures Plus(x, y) > 0.0 <==> x > 0.0 || y > 0.0
  {
    RoundError(x + y, DOUBLE);
  }

  /** Whether a group has any weight does not depend on the order. */
  lemma {:induction false} FloatSumPositive(ws: seq<Weighted>)
    ensures FloatSum(ws) > 0.0 <==> Weighs(ws)
    decreases |ws|
  {
    if ws != [] {
      FloatSumPositive(ws[..|ws| - 1]);
      WeighsSnoc(ws);
      PlusPositive(FloatSum(ws[..|ws| - 1]), ws[|ws| - 1].weight);
    }
  }

  lemma {:induction false} MergeInNames(ws: seq<Weighted>, w: Weighted, who: string)
    ensures Names(MergeIn(ws, w), who) <==> Names(ws, who) || w.who == who
    decreases |ws|
  {
    var all := MergeIn(ws, w);
    if ws == [] {
      assert all[0] == w;
    } else if ws[0].who == w.who {
      assert forall i :: 0 < i < |ws| ==> all[i] == ws[i];
      assert all[0].who == w.who;
    } else {
      MergeInNames(ws[1..], w, who);
      NamesCons(ws, who);
      NamesCons(all, who);
      assert all[1..] == MergeIn(ws[1..], w);
    }
  }

  lemma NamesCons(ws: seq<Weighted>, who: string)
    requires ws != []
    ensures Names(ws, who) <==> ws[0].who == who || Names(ws[1..], who)
  {
    var rest := ws[1..];
    assert forall i :: 0 <= i < |rest| ==> rest[i] == ws[i + 1];
    assert forall i :: 0 < i < |ws| ==> ws[i] == rest[i - 1];
  }

  lemma {:induction false} MergedNames(ws: seq<Weighted>, who: string)
    ensures Names(Merged(ws), who) <==> Names(ws, who)
    decreases |ws|
  {
    if ws != [] {
      MergedNames(ws[..|ws| - 1], who);
      NamesSnoc(ws, who);
      MergeInNames(Merged(ws[..|ws| - 1]), ws[|ws| - 1], who);
    }
  }

  lemma SameEntries(a: seq<Weighted>, b: seq<Weighted>, who: string)
    requires multiset(a) == multiset(b)
    ensures Names(a, who) <==> Names(b, who)
    ensures Weighs(a) <==> Weighs(b)
  {
    EntriesWithin(a, b, who);
    EntriesWithin(b, a, who);
  }

  lemma EntriesWithin(a: seq<Weighted>, b: seq<Weighted>, who: string)
    requires multiset(a) <= multiset(b)
    ensures Names(a, who) ==> Names(b, who)
    ensures Weighs(a) ==> Weighs(b)
  {
    forall i | 0 <= i < |a| ensures exists j :: 0 <= j < |b| && b[j] == a[i] {
      assert a[i] in multiset(a);
      assert a[i] in b;
    }
  }

  // ---------------------------------------------------------- block rewards

  /** What a node reads from its state to share out a block: liquidity positions
      and long locks in the order its maps happen to be visited, the list of
      eligible validators, and the supply cap. */
  datatype Book = Book(curve: seq<Weighted>, longLock: seq<Weighted>, validators: seq<Weighted>, cap: int)

  /** Equal states: the maps hold the same entries, visited in any order. */
  ghost predicate SameBook(a: Book, b: Book) {
    && multiset(a.curve) == multiset(b.curve)
    && multiset(a.longLock) == multiset(b.longLock)
    && a.validators == b.validators
    && a.cap == b.cap
  }

  datatype Breakdown = Breakdown(validator: Address, validatorReward: nat, liquidity: map<string, int>,
                                 validators: map<string, int>, byTransaction: map<string, int>,
                                 byParticipant: map<string, int>, treasury: nat)

  /** Accounts, pending liquidity rewards and coins emitted so far. */
  datatype ChainState = ChainState(balances: Balances, pending: map<string, int>, emitted: int)

  /** The part of an included transaction the participant share looks at. */
  datatype Participant = Participant(hash: string, who: Address, weight: Weight)

  function Others(ws: seq<Weighted>, proposer: Address): (others: seq<Weighted>)
    ensures |others| <= |ws|
  {
    if ws == [] then []
    else
      var init := Others(ws[..|ws| - 1], proposer);
      if ws[|ws| - 1].who == proposer then init else init + [ws[|ws| - 1]]
  }

  function ByHash(ps: seq<Participant>): (ws: seq<Weighted>)
    ensures |ws| == |ps|
  {
    seq(|ps|, i requires 0 <= i < |ps| => Weighted(ps[i].hash, ps[i].weight))
  }

  function ByWho(ps: seq<Participant>): (ws: seq<Weighted>)
    ensures |ws| == |ps|
  {
    seq(|ps|, i requires 0 <= i < |ps| => Weighted(ps[i].who, ps[i].weight))
  }

  /** A fixed slice to one account, skipped when empty. */
  function PayOne(b: Balances, who: Address, amount: nat): Balances {
    if amount > 0 then Credit(b, who, amount) else b
  }

  function RewardPool(s: ChainState, book: Book, gasFees: nat, height: nat): nat {
    CappedNonNegative(book.cap, s.emitted, height);
    Capped(book.cap, s.emitted, height) + gasFees
  }

  /** 30% to the liquidity positions and 5% to the long locks among them. */
  function LiquidityPaid(m: map<string, int>, book: Book, total: nat, listing: bool): map<string, int> {
    PayGroup(PayGroup(m, Plain(book.curve), Pct(total, 30), listing), Merging(book.longLock), Pct(total, 5), listing)
  }

  /** 12% to the validators other than the proposer. */
  function ValidatorsPaid(m: map<string, int>, book: Book, proposer: Address, total: nat, listing: bool): map<string, int> {
    PayGroup(m, Plain(Others(book.validators, proposer)), Pct(total, 12), listing)
  }

  function RewardState(s: ChainState, book: Book, proposer: Address, ps: seq<Participant>, gasFees: nat, height: nat): ChainState {
    var total := RewardPool(s, book, gasFees, height);
    var b1 := PayOne(s.balances, proposer, Pct(total, 40));
    var b2 := ValidatorsPaid(b1, book, proposer, total, false);
    var b3 := PayGroup(b2, Plain(ByWho(ps)), Pct(total, 2), false);
    var b4 := PayOne(b3, TREASURY, Pct(total, 11));
    ChainState(b4, LiquidityPaid(s.pending, book, total, false), s.emitted + Capped(book.cap, s.emitted, height))
  }

  function RewardBreakdown(s: ChainState, book: Book, proposer: Address, ps: seq<Participant>, gasFees: nat, height: nat): Breakdown {
    var total := RewardPool(s, book, gasFees, height);
    Breakdown(proposer, Pct(total, 40),
              LiquidityPaid(map[], book, total, true),
              ValidatorsPaid(map[], book, proposer, total, true),
              PayGroup(map[], Plain(ByHash(ps)), Pct(total, 2), true),
              PayGroup(map[], Plain(ByWho(ps)), Pct(total, 2), true),
              Pct(total, 11))
  }

  /** What a book gives one liquidity provider out of a total. */
  function LiquidityDue(book: Book, total: nat, who: string): nat {
    Due(Plain(book.curve), Pct(total, 30), who) + Due(Merging(book.longLock), Pct(total, 5), who)
  }

  /** Two visiting orders come to the same rounded shares. */
  ghost predicate SharesAgree(a: Book, b: Book, total: nat) {
    forall who: string :: LiquidityDue(a, total, who) == LiquidityDue(b, total, who)
  }

  predicate LiquidityPays(book: Book, total: nat, who: string) {
    Pays(Plain(book.curve), Pct(total, 30), who) || Pays(Merging(book.longLock), Pct(total, 5), who)
  }

  lemma LiquidityIs(m: map<string, int>, book: Book, total: nat, listing: bool, who: string)
    ensures var t := LiquidityPaid(m, book, total, listing);
            && Lookup(t, who) == Lookup(m, who) + LiquidityDue(book, total, who)
            && (who in t <==> who in m || (if listing then LiquidityDue(book, total, who) > 0 else LiquidityPays(book, total, who)))
  {
    GroupIs(m, Plain(book.curve), Pct(total, 30), listing, who);
    GroupIs(PayGroup(m, Plain(book.curve), Pct(total, 30), listing), Merging(book.longLock), Pct(total, 5), listing, who);
  }

  /** Who is entered does not depend on the order. */
  lemma SamePays(a: Book, b: Book, total: nat, who: string)
    requires SameBook(a, b)
    ensures LiquidityPays(a, total, who) <==> LiquidityPays(b, total, who)
  {
    SameEntries(a.curve, b.curve, who);
    SameEntries(a.longLock, b.longLock, who);
    FloatSumPositive(a.curve);
    FloatSumPositive(b.curve);
    FloatSumPositive(a.longLock);
    FloatSumPositive(b.longLock);
    MergedNames(a.longLock, who);
    MergedNames(b.longLock, who);
  }

  lemma TablesAgree(m: map<string, int>, a: Book, b: Book, total: nat)
    requires SameBook(a, b) && SharesAgree(a, b, total)
    ensures LiquidityPaid(m, a, total, false) == LiquidityPaid(m, b, total, false)
  {
    var t, u := LiquidityPaid(m, a, total, false), LiquidityPaid(m, b, total, false);
    forall who: string ensures (who in t <==> who in u) && Lookup(t, who) == Lookup(u, who) {
      LiquidityIs(m, a, total, false, who);
      LiquidityIs(m, b, total, false, who);
      SamePays(a, b, total, who);
    }
    assert forall who :: who in t ==> t[who] == Lookup(t, who);
    assert forall who :: who in u ==> u[who] == Lookup(u, who);
  }

  lemma ListingsAgree(a: Book, b: Book, total: nat)
    ensures LiquidityPaid(map[], a, total, true) == LiquidityPaid(map[], b, total, true) <==> SharesAgree(a, b, total)
  {
    var t, u := LiquidityPaid(map[], a, total, true), LiquidityPaid(map[], b, total, true);
    forall who: string
      ensures Lookup(t, who) == LiquidityDue(a, total, who) && (who in t <==> LiquidityDue(a, total, who) > 0)
      ensures Lookup(u, who) == LiquidityDue(b, total, who) && (who in u <==> LiquidityDue(b, total, who) > 0)
    {
      LiquidityIs(map[], a, total, true, who);
      LiquidityIs(map[], b, total, true, who);
    }
    if SharesAgree(a, b, total) {
      assert forall who :: who in t ==> t[who] == Lookup(t, who);
      assert forall who :: who in u ==> u[who] == Lookup(u, who);
    } else {
      var who :| LiquidityDue(a, total, who) != LiquidityDue(b, total, who);
      assert Lookup(t, who) != Lookup(u, who);
    }
  }

  /** Two nodes with equal states list the same rewards exactly when their
      visiting orders round to the same shares, and then reach the same state. */
  lemma RewardsAgree(s: ChainState, a: Book, b: Book, proposer: Address, ps: seq<Participant>, gasFees: nat, height: nat)
    requires SameBook(a, b)
    ensures RewardBreakdown(s, a, proposer, ps, gasFees, height) == RewardBreakdown(s, b, proposer, ps, gasFees, height)
       <==> SharesAgree(a, b, RewardPool(s, a, gasFees, height))
    ensures SharesAgree(a, b, RewardPool(s, a, gasFees, height))
        ==> RewardState(s, a, proposer, ps, gasFees, height) == RewardState(s, b, proposer, ps, gasFees, height)
  {
    var total := RewardPool(s, a, gasFees, height);
    ListingsAgree(a, b, total);
    if SharesAgree(a, b, total) {
      TablesAgree(s.pending, a, b, total);
    }
  }

  /** Orders that round to the same totals and merged entries round to the same
      shares; in particular the same order does. */
  lemma EqualTotalsAgree(a: Book, b: Book, total: nat)
    requires SameBook(a, b)
    requires FloatSum(a.curve) == FloatSum(b.curve) && FloatSum(a.longLock) == FloatSum(b.longLock)
    requires multiset(Merged(a.longLock)) == multiset(Merged(b.longLock))
    ensures SharesAgree(a, b, total)
  {
    forall who: string ensures LiquidityDue(a, total, who) == LiquidityDue(b, total, who) {
      DueOrder(a.curve, b.curve, Pct(total, 30), FloatSum(a.curve), who);
      DueOrder(Merged(a.longLock), Merged(b.longLock), Pct(total, 5), FloatSum(a.longLock), who);
    }
  }

  lemma CappedNonNegative(cap: int, emitted: int, height: nat)
    ensures 0 <= Capped(cap, emitted, height)
    ensures emitted <= cap ==> emitted + Capped(cap, emitted, height) <= cap
  {
    RewardPositive(height);
  }
}
