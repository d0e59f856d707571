/** The governance state of the chain, updated in place. */
module GovernanceObject {
  import opened Basics
  import opened Sums
  import opened Grouping
  import opened Delegation
  import opened GovernanceModel

  class Governance {
    const rules: Rules
    var delegations: Graph
    var proposals: map<string, Proposal>
    var nonce: nat

    constructor (rules: Rules)
      ensures this.rules == rules && Now() == Gov(map[], map[], 0)
    {
      this.rules, delegations, proposals, nonce := rules, map[], map[], 0;
    }

    ghost function Now(): Gov
      reads this
    {
      Gov(delegations, proposals, nonce)
    }

    ghost predicate Does(before: Gov, op: Op, ok: bool)
      reads this
    {
      var after := Apply(rules, before, op);
      ok == after.Some? && Now() == if ok then after.value else before
    }

    /** Walks the delegatee's chain before entering the delegation. */
    method DelegateTo(actor: Address, delegatee: Address) returns (ok: bool)
      modifies this`delegations
      ensures Does(old(Now()), Delegate(actor, delegatee), ok)
    {
      if !rules.validAddress(delegatee) || delegatee == actor {
        return false;
      }
      var cursor := delegatee;
      for i := 0 to MAX_HOPS
        invariant i < MAX_HOPS
        invariant ChainAvoids(delegations, delegatee, actor, MAX_HOPS - 1)
               == ChainAvoids(delegations, cursor, actor, MAX_HOPS - 1 - i)
      {
        if cursor == actor {
          return false;
        }
        if cursor !in delegations {
          break;
        }
        cursor := delegations[cursor];
        if i == MAX_HOPS - 1 {
          return false;
        }
      }
      delegations := delegations[actor := delegatee];
      ok := true;
    }

    method Withdraw(actor: Address)
      modifies this`delegations
      ensures Does(old(Now()), Undelegate(actor), true)
    {
      delegations := delegations - {actor};
    }

    method FindDestination(owner: Address) returns (destination: Address)
      ensures destination == Destination(delegations, owner)
    {
      destination := owner;
      var seen := {owner};
      for i := 0 to MAX_HOPS
        invariant Destination(delegations, owner) == Walk(delegations, destination, seen, MAX_HOPS - i)
      {
        if destination !in delegations || delegations[destination] in seen {
          return;
        }
        destination := delegations[destination];
        seen := seen + {destination};
      }
    }

    /** Adds each owner's power at the end of its chain, owners in any order. */
    method PowerSnapshot(power: map<Address, int>) returns (delegated: map<Address, int>)
      ensures delegated == Snapshot(delegations, power)
    {
      if delegations == map[] {
        return power;
      }
      ghost var dest := DestinationIn(delegations);
      delegated := map[];
      var todo := power.Keys;
      assert power - todo == map[];
      assert Group(dest, map[]) == map[];
      while todo != {}
        invariant todo <= power.Keys
        invariant delegated == Group(dest, power - todo)
      {
        var owner :| owner in todo;
        GroupStep(dest, power, todo, owner);
        var destination := FindDestination(owner);
        assert destination == dest(owner);
        delegated := AddTo(delegated, destination, power[owner]);
        todo := todo - {owner};
      }
      assert power - todo == power;
    }

    method CreateProposal(actor: Address, title: string, power: map<Address, int>, height: nat) returns (ok: bool)
      modifies this
      ensures Does(old(Now()), Create(actor, title, power, height), ok)
    {
      var snapshot := PowerSnapshot(power);
      if actor !in snapshot || snapshot[actor] <= 0 {
        return false;
      }
      nonce := nonce + 1;
      var id := rules.proposalId(actor, title, nonce);
      proposals := proposals[id := NewProposal(actor, height + rules.votingPeriod, snapshot)];
      ok := true;
    }

    method CastVote(actor: Address, id: string, choice: Choice, height: nat) returns (ok: bool)
      modifies this
      ensures Does(old(Now()), Vote(actor, id, choice, height), ok)
    {
      if id !in proposals || proposals[id].status != Voting || height > proposals[id].endHeight {
        return false;
      }
      var p := proposals[id];
      var power := if actor in p.snapshot then p.snapshot[actor] else 0;
      if power <= 0 || actor in p.votes {
        return false;
      }
      p := p.(votes := p.votes[actor := Ballot(choice, power)]);
      match choice {
        case For => p := p.(forPower := p.forPower + power);
        case Against => p := p.(againstPower := p.againstPower + power);
        case Abstain => p := p.(abstainPower := p.abstainPower + power);
      }
      proposals := proposals[id := p];
      ok := true;
    }

    method TotalPower(power: map<Address, int>) returns (total: int)
      ensures total == Total(power)
    {
      total := 0;
      var todo := power.Keys;
      assert power - todo == map[];
      while todo != {}
        invariant todo <= power.Keys && total == Total(power - todo)
      {
        var a :| a in todo;
        TotalStep(power, todo, a);
        total := total + power[a];
        todo := todo - {a};
      }
      assert power - todo == power;
    }

    method QueueProposal(id: string, height: nat) returns (ok: bool)
      modifies this`proposals
      ensures Does(old(Now()), Queue(id, height), ok)
    {
      if id !in proposals || proposals[id].status != Voting || height <= proposals[id].endHeight {
        return false;
      }
      var p := proposals[id];
      var total := TotalPower(p.snapshot);
      var participating := p.forPower + p.againstPower + p.abstainPower;
      var counted := p.forPower + p.againstPower;
      if total <= 0 || participating * 10000 < total * rules.quorumBps || counted <= 0
         || p.forPower * 10000 < counted * rules.approvalBps
      {
        p := p.(status := Rejected);
      } else {
        p := p.(status := Timelocked, executeHeight := height + rules.timelock);
      }
      proposals := proposals[id := p];
      ok := true;
    }
  }
}
