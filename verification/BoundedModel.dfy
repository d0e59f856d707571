/** The finite safety checker for equal-power validator sets, and the unbounded
    statement that makes its verdict the same for every size. */
module BoundedModel {

  datatype Violation =
    | TooFewHonest(n: int, honest: int, quorum: int)
    | TwoQuorums(n: int, faults: int, honestA: int, honestB: int, quorum: int)
    | JointBypass(n: int, oldVotes: int, newVotes: int)

  datatype Report = Report(
    minValidators: int,
    maxValidators: int,
    configurations: int,
    statesExplored: int,
    safetyViolations: seq<Violation>,
    livenessViolations: seq<Violation>,
    jointQuorumChecked: bool,
    strictQuorumChecked: bool)
  {
    predicate Valid() {
      && configurations > 0 && statesExplored > 0
      && |safetyViolations| == 0 && |livenessViolations| == 0
      && jointQuorumChecked && strictQuorumChecked
    }
  }

  function StrictQuorum(n: int): int { (2 * n) / 3 + 1 }

  function Faults(n: int): int { (n - 1) / 3 }

  // ------------------------------------------------- the unbounded theorem

  /** The quorum is the least number of equal votes above two thirds. */
  lemma StrictQuorumIsLeast(n: nat, votes: int)
    ensures votes >= StrictQuorum(n) <==> 3 * votes > 2 * n
  {
  }

  lemma {:induction false} SubsetSize<T>(a: set<T>, b: set<T>)
    requires a <= b
    ensures |a| <= |b|
    decreases a
  {
    if a != {} {
      var x :| x in a;
      SubsetSize(a - {x}, b - {x});
    }
  }

  /** Whoever the validators are and however they vote: when at most a third of n
      validators, rounded down from n - 1, sign for both blocks, the blocks
      cannot both reach the quorum; and the honest ones alone can reach it. */
  lemma EqualVotesAreSafeAndLive<T>(validators: set<T>, faulty: set<T>, forA: set<T>, forB: set<T>)
    requires faulty <= validators && forA <= validators && forB <= validators
    requires |faulty| <= Faults(|validators|)
    requires forA * forB <= faulty
    ensures !(|forA| >= StrictQuorum(|validators|) && |forB| >= StrictQuorum(|validators|))
    ensures validators != {} ==> |validators - faulty| >= StrictQuorum(|validators|)
  {
    SubsetSize(forA + forB, validators);
    SubsetSize(forA * forB, faulty);
    assert |forA + forB| == |forA| + |forB| - |forA * forB|;
    assert |validators| == |validators - faulty| + |faulty| by {
      assert validators == (validators - faulty) + faulty;
    }
  }

  /** How many faulty validators it takes for two blocks to be certified, exactly. */
  lemma ExactTolerance(n: nat, faults: nat)
    requires faults <= n
    ensures (exists a, b :: TwoBlocksPossible(n, faults, a, b)) <==> faults >= 2 * StrictQuorum(n) - n
    ensures n > 0 ==> Faults(n) < 2 * StrictQuorum(n) - n
  {
    if faults >= 2 * StrictQuorum(n) - n {
      var a := if StrictQuorum(n) >= faults then StrictQuorum(n) - faults else 0;
      assert TwoBlocksPossible(n, faults, a, a);
    }
  }

  predicate TwoBlocksPossible(n: int, faults: int, honestA: int, honestB: int) {
    && 0 <= honestA && 0 <= honestB && honestA + honestB <= n - faults
    && honestA + faults >= StrictQuorum(n) && honestB + faults >= StrictQuorum(n)
  }

  // ------------------------------------------------------------ the checker

  /** Pairs (a, b) with a + b at most the number of honest validators, of which
      a runs below the bound. */
  function HonestPairs(honest: int, below: int): int
    decreases if below > 0 then below else 0
  {
    if below <= 0 then 0 else HonestPairs(honest, below - 1) + (honest - (below - 1) + 1)
  }

  function StatesFor(n: int): int {
    var honest := n - Faults(n);
    HonestPairs(honest, honest + 1) + (n + 1) * (n + 1)
  }

  function StatesBetween(from: int, to: int): int
    decreases if from < to then to - from else 0
  {
    if from >= to then 0 else StatesBetween(from, to - 1) + StatesFor(to - 1)
  }

  /** Closed form of the vote distributions of one size. */
  lemma {:induction false} HonestPairsClosed(honest: nat, below: nat)
    requires below <= honest + 1
    ensures 2 * HonestPairs(honest, below) == below * (2 * honest + 3 - below)
  {
    if below > 0 {
      HonestPairsClosed(honest, below - 1);
      assert (below - 1) * (2 * honest + 4 - below) + 2 * (honest - below + 2)
          == below * (2 * honest + 3 - below);
    }
  }

  method CheckHonestVotes(n: int, faults: int, quorum: int, honest: int)
    returns (states: int, violations: seq<Violation>)
    requires 4 <= n && faults == Faults(n) && quorum == StrictQuorum(n) && honest == n - faults
    ensures states == HonestPairs(honest, honest + 1) && violations == []
  {
    states, violations := 0, [];
    for honestA := 0 to honest + 1
      invariant states == HonestPairs(honest, honestA) && violations == []
    {
      ghost var before := states;
      for honestB := 0 to honest - honestA + 1
        invariant states == before + honestB && violations == []
      {
        states := states + 1;
        if honestA + faults >= quorum && honestB + faults >= quorum {
          violations := violations + [TwoQuorums(n, faults, honestA, honestB, quorum)];
        }
      }
    }
  }

  method CheckJointVotes(n: int, quorum: int) returns (states: int, violations: seq<Violation>)
    requires 4 <= n
    ensures states == (n + 1) * (n + 1) && violations == []
  {
    states, violations := 0, [];
    for oldVotes := 0 to n + 1
      invariant states == oldVotes * (n + 1) && violations == []
    {
      ghost var before := states;
      for newVotes := 0 to n + 1
        invariant states == before + newVotes && violations == []
      {
        states := states + 1;
        var joint := oldVotes >= quorum && newVotes >= quorum;
        if joint && (oldVotes < quorum || newVotes < quorum) {
          violations := violations + [JointBypass(n, oldVotes, newVotes)];
        }
      }
      assert (oldVotes + 1) * (n + 1) == oldVotes * (n + 1) + (n + 1);
    }
  }

  function Clamp(minValidators: int, maxValidators: int): (int, int) {
    var lo := if minValidators < 4 then 4 else minValidators;
    (lo, if maxValidators < lo then lo else maxValidators)
  }

  lemma StatesPositive(n: int)
    requires 4 <= n
    ensures StatesFor(n) > 0
  {
    var honest: nat := n - Faults(n);
    HonestPairsClosed(honest, honest + 1);
    assert (honest + 1) * (honest + 2) >= 0 && (n + 1) * (n + 1) > 0;
  }

  method CheckSize(n: int) returns (states: int, safety: seq<Violation>, liveness: seq<Violation>)
    requires 4 <= n
    ensures states == StatesFor(n) && safety == [] && liveness == []
  {
    safety, liveness := [], [];
    var faults, quorum := (n - 1) / 3, StrictQuorum(n);
    var honest := n - faults;
    if honest < quorum {
      liveness := liveness + [TooFewHonest(n, honest, quorum)];
    }
    var honestStates, honestViolations := CheckHonestVotes(n, faults, quorum, honest);
    var jointStates, jointViolations := CheckJointVotes(n, quorum);
    states := honestStates + jointStates;
    safety := safety + honestViolations + jointViolations;
  }

  /** For every minimum and maximum the checker visits exactly every vote
      distribution of every size between them and reports no violation. */
  method CheckBoundedBFTModel(minValidators: int, maxValidators: int) returns (report: Report)
    ensures report.Valid()
    ensures (report.minValidators, report.maxValidators) == Clamp(minValidators, maxValidators)
    ensures report.configurations == report.maxValidators - report.minValidators + 1
    ensures report.statesExplored == StatesBetween(report.minValidators, report.maxValidators + 1)
  {
    var (lo, hi) := Clamp(minValidators, maxValidators);
    var configurations, states := 0, 0;
    var safety: seq<Violation>, liveness: seq<Violation> := [], [];
    for n := lo to hi + 1
      invariant configurations == n - lo && 0 <= states
      invariant n > lo ==> 0 < states
      invariant states == StatesBetween(lo, n)
      invariant safety == [] && liveness == []
    {
      configurations := configurations + 1;
      var sizeStates, sizeSafety, sizeLiveness := CheckSize(n);
      StatesPositive(n);
      states := states + sizeStates;
      safety, liveness := safety + sizeSafety, liveness + sizeLiveness;
    }
    report := Report(lo, hi, configurations, states, safety, liveness, true, true);
  }
}
