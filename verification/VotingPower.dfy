/** Weighted voting: the power of a set of voters and how two quorums overlap. */
module VotingPower {
  import opened Basics
  import opened Sums

  datatype ValidatorPower = ValidatorPower(address: Address, power: int)

  type PowerSet = seq<ValidatorPower>

  ghost predicate ValidSet(set_: PowerSet) {
    forall i :: 0 <= i < |set_| ==> 0 < set_[i].power
  }

  function SetPower(set_: PowerSet): int {
    if set_ == [] then 0 else set_[0].power + SetPower(set_[1..])
  }

  /** The power of the first entry for the address, 0 when there is none. */
  function PowerFor(set_: PowerSet, address: Address): int {
    if set_ == [] then 0
    else if set_[0].address == address then set_[0].power
    else PowerFor(set_[1..], address)
  }

  /** Strictly more than two thirds of the total. */
  predicate IsQuorum(power: int, total: int) { 3 * power > 2 * total }

  ghost function Weights(voters: set<Address>, set_: PowerSet): map<Address, int> {
    map a | a in voters :: PowerFor(set_, a)
  }

  ghost function Weight(voters: set<Address>, set_: PowerSet): int {
    Total(Weights(voters, set_))
  }

  lemma {:induction false} PowerForNonNegative(set_: PowerSet, a: Address)
    requires ValidSet(set_)
    ensures 0 <= PowerFor(set_, a)
  {
    if set_ != [] && set_[0].address != a {
      PowerForNonNegative(set_[1..], a);
    }
  }

  lemma WeightNonNegative(voters: set<Address>, set_: PowerSet)
    requires ValidSet(set_)
    ensures 0 <= Weight(voters, set_)
  {
    forall a | a in voters ensures 0 <= Weights(voters, set_)[a] {
      PowerForNonNegative(set_, a);
    }
    TotalNonNegative(Weights(voters, set_));
  }

  lemma WeightPick(voters: set<Address>, a: Address, set_: PowerSet)
    requires a in voters
    ensures Weight(voters, set_) == PowerFor(set_, a) + Weight(voters - {a}, set_)
  {
    TotalPick(Weights(voters, set_), a);
    assert Weights(voters, set_) - {a} == Weights(voters - {a}, set_);
  }

  lemma {:induction false} WeightSplit(a: set<Address>, b: set<Address>, set_: PowerSet)
    requires a !! b
    ensures Weight(a + b, set_) == Weight(a, set_) + Weight(b, set_)
    decreases a
  {
    if a == {} {
      assert a + b == b;
      assert Weights(a, set_) == map[];
    } else {
      var x :| x in a;
      WeightPick(a, x, set_);
      WeightPick(a + b, x, set_);
      assert a + b - {x} == (a - {x}) + b;
      WeightSplit(a - {x}, b, set_);
    }
  }

  /** No set of voters outweighs the whole validator set. */
  lemma {:induction false} WeightBounded(voters: set<Address>, set_: PowerSet)
    requires ValidSet(set_)
    ensures Weight(voters, set_) <= SetPower(set_)
  {
    if set_ == [] {
      ZeroWeight(voters, set_);
    } else {
      var head, rest := set_[0], set_[1..];
      var others := voters - {head.address};
      WeightBounded(others, rest);
      assert Weights(others, set_) == Weights(others, rest);
      if head.address in voters {
        WeightPick(voters, head.address, set_);
      } else {
        assert others == voters;
      }
    }
  }

  lemma {:induction false} ZeroWeight(voters: set<Address>, set_: PowerSet)
    requires set_ == []
    ensures Weight(voters, set_) == 0
    decreases voters
  {
    if voters == {} {
      assert Weights(voters, set_) == map[];
    } else {
      var x :| x in voters;
      WeightPick(voters, x, set_);
      ZeroWeight(voters - {x}, set_);
    }
  }

  /** Two quorums of one validator set share more than a third of its power. */
  lemma QuorumsOverlap(a: set<Address>, b: set<Address>, set_: PowerSet)
    requires ValidSet(set_)
    requires IsQuorum(Weight(a, set_), SetPower(set_)) && IsQuorum(Weight(b, set_), SetPower(set_))
    ensures 3 * Weight(a * b, set_) > SetPower(set_)
  {
    WeightBounded(a + b, set_);
    WeightSplit(a - b, a * b, set_);
    WeightSplit(a - b, b, set_);
    assert (a - b) + (a * b) == a;
    assert (a - b) + b == a + b;
  }

  /** Disjoint voters cannot both be quorums. */
  lemma NoDisjointQuorums(a: set<Address>, b: set<Address>, set_: PowerSet)
    requires ValidSet(set_) && a !! b
    ensures !(IsQuorum(Weight(a, set_), SetPower(set_)) && IsQuorum(Weight(b, set_), SetPower(set_)))
  {
    if IsQuorum(Weight(a, set_), SetPower(set_)) && IsQuorum(Weight(b, set_), SetPower(set_)) {
      QuorumsOverlap(a, b, set_);
      assert a * b == {};
      assert Weights({}, set_) == map[];
      WeightNonNegative(a, set_);
      WeightBounded(a, set_);
    }
  }
}
