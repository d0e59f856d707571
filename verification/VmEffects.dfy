/** What bytecode computes: the effect of each instruction on the variables, and
    a loop whose result, steps and gas are known exactly. */
module VmEffects {
  import opened Basics
  import opened HardenedVm

  // ------------------------------------------------------------ instructions

  /** One variable reads value now, the others what they read before. */
  ghost predicate Reads(w: World, before: Vm, after: Vm, key: string, value: string) {
    && Load(w, after, key) == value
    && forall k :: k != key ==> Load(w, after, k) == Load(w, before, k)
  }

  /** On to the next instruction, with so much gas used. */
  predicate MovesOn(before: Vm, after: Vm, cost: nat) {
    after.pc == before.pc + 1 && after.steps == before.steps && after.gasUsed == before.gasUsed + cost
  }

  /** The write succeeds exactly when its gas fits, and changes one variable. */
  ghost predicate Assigns(w: World, vm: Vm, r: Progress, key: string, value: string, limit: nat) {
    && (r.Running? <==> vm.gasUsed + SET_GAS <= limit)
    && (r.Running? ==> MovesOn(vm, r.vm, SET_GAS) && r.vm.calls == vm.calls && Reads(w, vm, r.vm, key, value))
  }

  predicate JumpsTo(vm: Vm, r: Progress, place: int) {
    r.Running? && r.vm == vm.(pc := place)
  }

  lemma StoreAssigns(w: World, vm: Vm, key: string, value: string, limit: nat)
    requires vm.gasUsed + SET_GAS < WORD
    ensures Assigns(w, vm, Next(Store(vm, key, value, limit)), key, value, limit)
  {
    ConsumeMeters(vm, SET_GAS, limit);
  }

  /** SET writes a literal, GET the output; ADD and SUB write sum and difference,
      and a negative difference fails; EQ and NEQ write opposite flags, and JMPIF
      jumps exactly when the flag is "1"; CALL costs 10000 gas and needs a valid
      target and a function name; REVERT fails. */
  lemma InstructionEffects(w: World, vm: Vm, i: Instruction, limit: nat)
    requires HasOperands(i) && vm.gasUsed + CALL_GAS < WORD
    ensures var r := Perform(w, vm, i, limit);
            match i.op
            case Set => Assigns(w, vm, r, i.args[0], i.args[1], limit)
            case Get => Assigns(w, vm, r, "output", Load(w, vm, i.args[0]), limit)
            case Add =>
              Assigns(w, vm, r, i.args[0], w.format(w.parse(Load(w, vm, i.args[0])) + ValueOf(w, vm, i.args[1])), limit)
            case Sub =>
              var a, b := w.parse(Load(w, vm, i.args[0])), ValueOf(w, vm, i.args[1]);
              if b <= a then Assigns(w, vm, r, i.args[0], w.format(a - b), limit) else r.Failed?
            case Eq | Neq =>
              var same := Load(w, vm, i.args[0]) == Load(w, vm, i.args[1]);
              Assigns(w, vm, r, "__cmp", if same == (i.op == Eq) then "1" else "0", limit)
            case Jmp => Atoi(i.args[0]).Some? ==> JumpsTo(vm, r, Atoi(i.args[0]).value)
            case JmpIf =>
              Atoi(i.args[0]).Some? ==> JumpsTo(vm, r, if Load(w, vm, "__cmp") == "1" then Atoi(i.args[0]).value else vm.pc + 1)
            case Call =>
              && (r.Running? <==>
                    && w.validTarget(w.lower(i.args[0])) && !w.blank(i.args[1])
                    && vm.gasUsed + CALL_GAS <= limit && w.answers(vm.calls, w.lower(i.args[0]), i.args[1]))
              && (r.Running? ==> MovesOn(vm, r.vm, CALL_GAS) && r.vm.calls == vm.calls + 1 && r.vm.temp == vm.temp)
            case Revert => r.Failed?
  {
    hide Store, Load, Atoi, Assigns, Reads;
    match i.op
    case Set => StoreAssigns(w, vm, i.args[0], i.args[1], limit);
    case Get => StoreAssigns(w, vm, "output", Load(w, vm, i.args[0]), limit);
    case Add =>
      StoreAssigns(w, vm, i.args[0], w.format(w.parse(Load(w, vm, i.args[0])) + ValueOf(w, vm, i.args[1])), limit);
    case Sub =>
      StoreAssigns(w, vm, i.args[0], w.format(w.parse(Load(w, vm, i.args[0])) - ValueOf(w, vm, i.args[1])), limit);
    case Eq =>
      StoreAssigns(w, vm, "__cmp", if Load(w, vm, i.args[0]) == Load(w, vm, i.args[1]) then "1" else "0", limit);
    case Neq =>
      StoreAssigns(w, vm, "__cmp", if Load(w, vm, i.args[0]) != Load(w, vm, i.args[1]) then "1" else "0", limit);
    case Jmp =>
    case JmpIf =>
    case Call => ConsumeMeters(vm, CALL_GAS, limit);
    case Revert =>
  }

  // ------------------------------------------------------ a loop, step by step

  /** Numbers are written so that they are read back. */
  ghost predicate Numerals(w: World) {
    forall n: int :: w.number(w.format(n)) == Some(n) && w.parse(w.format(n)) == n
  }

  /** Adds m to acc, n times. */
  function Multiply(w: World, n: nat, m: int): Program {
    [Instruction(Set, ["zero", w.format(0)]),
     Instruction(Set, ["acc", w.format(0)]),
     Instruction(Set, ["left", w.format(n)]),
     Instruction(Eq, ["left", "zero"]),
     Instruction(JmpIf, ["8"]),
     Instruction(Add, ["acc", w.format(m)]),
     Instruction(Sub, ["left", w.format(1)]),
     Instruction(Jmp, ["3"]),
     Instruction(Get, ["acc"])]
  }

  /** One step at this cost, if steps and gas allow. */
  ghost predicate Took(vm: Vm, r: Progress, cost: nat, limit: nat) {
    && (r.Running? <==> vm.steps + 1 <= MAX_STEPS && vm.gasUsed + cost <= limit)
    && (r.Running? ==> r.vm.steps == vm.steps + 1 && r.vm.gasUsed == vm.gasUsed + cost && FarFromWrapping(r.vm))
  }

  predicate AtInstruction(p: Program, vm: Vm) {
    vm.gasUsed <= STEP_MOST * vm.steps && vm.steps <= MAX_STEPS && 0 <= vm.pc < |p| && HasOperands(p[vm.pc])
  }

  /** The machine once a step's own gas is taken. */
  function Begun(vm: Vm): Vm { vm.(steps := vm.steps + 1, gasUsed := vm.gasUsed + STEP_GAS) }

  /** A step is its own gas and its instruction. */
  lemma StepPerforms(w: World, p: Program, vm: Vm, limit: nat)
    requires AtInstruction(p, vm)
    ensures Begun(vm).gasUsed + CALL_GAS < WORD
    ensures Step(w, p, vm, limit)
         == if vm.steps + 1 <= MAX_STEPS && Begun(vm).gasUsed <= limit then Perform(w, Begun(vm), p[vm.pc], limit) else Failed
  {
    hide Perform;
    if vm.steps + 1 <= MAX_STEPS {
      ConsumeMeters(vm.(steps := vm.steps + 1), STEP_GAS, limit);
    }
  }

  lemma StepAssigns(w: World, p: Program, vm: Vm, limit: nat, key: string, value: string)
    requires AtInstruction(p, vm)
    requires Assigns(w, Begun(vm), Perform(w, Begun(vm), p[vm.pc], limit), key, value, limit)
    ensures var r := Step(w, p, vm, limit);
            Took(vm, r, STEP_GAS + SET_GAS, limit) && (r.Running? ==> r.vm.pc == vm.pc + 1 && Reads(w, vm, r.vm, key, value))
  {
    hide Step, Perform;
    StepPerforms(w, p, vm, limit);
  }

  lemma StepJumps(w: World, p: Program, vm: Vm, limit: nat, place: nat)
    requires AtInstruction(p, vm) && IsJump(p[vm.pc]) && Atoi(p[vm.pc].args[0]) == Some(place)
    ensures var r := Step(w, p, vm, limit);
            && Took(vm, r, STEP_GAS, limit)
            && (r.Running? ==>
                  && r.vm.pc == (if p[vm.pc].op == Jmp || Load(w, vm, "__cmp") == "1" then place else vm.pc + 1)
                  && forall k :: Load(w, r.vm, k) == Load(w, vm, k))
  {
    hide Step, Perform;
    StepPerforms(w, p, vm, limit);
    InstructionEffects(w, Begun(vm), p[vm.pc], limit);
  }

  // -------------------------------------------------------- the whole program

  /** In the loop, with k rounds to go. */
  ghost predicate Counting(w: World, vm: Vm, k: nat, acc: int) {
    && vm.steps <= MAX_STEPS && FarFromWrapping(vm)
    && Load(w, vm, "zero") == w.format(0) && Load(w, vm, "acc") == w.format(acc) && Load(w, vm, "left") == w.format(k)
  }

  ghost predicate AtHead(w: World, vm: Vm, k: nat, acc: int) { vm.pc == 3 && Counting(w, vm, k, acc) }

  /** r is the end of a run from vm that takes these steps and this gas. */
  ghost predicate Finishes(w: World, vm: Vm, r: Progress, steps: nat, gas: nat, limit: nat, output: string) {
    && (r.Running? <==> vm.steps + steps <= MAX_STEPS && vm.gasUsed + gas <= limit)
    && (r.Running? ==>
          r.vm.steps == vm.steps + steps && r.vm.gasUsed == vm.gasUsed + gas && Load(w, r.vm, "output") == output)
  }

  lemma Tested(w: World, n: nat, m: int, vm: Vm, k: nat, acc: int, limit: nat)
    requires Numerals(w) && AtHead(w, vm, k, acc)
    ensures var p := Multiply(w, n, m); var r := Step(w, p, vm, limit);
            && Took(vm, r, 250, limit)
            && (r.Running? ==>
                  var r2 := Step(w, p, r.vm, limit);
                  && r.vm.pc == 4 && Took(r.vm, r2, 50, limit)
                  && (r2.Running? ==>
                        r2.vm.pc == (if k == 0 then 8 else 5) && Counting(w, r2.vm, k, acc)))
  {
    hide Step, Perform, Load;
    var p := Multiply(w, n, m);
    InstructionEffects(w, Begun(vm), p[3], limit);
    assert w.format(k) == w.format(0) <==> k == 0 by {
      assert w.parse(w.format(k)) == k && w.parse(w.format(0)) == 0;
    }
    SameLoads(w, vm, Begun(vm));
    StepAssigns(w, p, vm, limit, "__cmp", if k == 0 then "1" else "0");
    var r := Step(w, p, vm, limit);
    if r.Running? {
      assert Atoi("8") == Some(8) by {
        assert "8"[..0] == "";
        assert Digits("8") == Some(8);
      }
      StepJumps(w, p, r.vm, limit, 8);
    }
  }

  lemma SameLoads(w: World, a: Vm, b: Vm)
    requires a.temp == b.temp && a.calls == b.calls
    ensures forall k :: Load(w, a, k) == Load(w, b, k)
  {
  }

  lemma NamesDiffer()
    ensures "acc" != "left" && "acc" != "zero" && "left" != "zero"
  {
    assert "left"[0] != "zero"[0];
  }

  /** The addition of a round. */
  lemma Added(w: World, n: nat, m: int, vm: Vm, k: nat, acc: int, limit: nat)
    requires Numerals(w) && vm.pc == 5 && Counting(w, vm, k, acc)
    ensures var r := Step(w, Multiply(w, n, m), vm, limit);
            Took(vm, r, 250, limit) && (r.Running? ==> r.vm.pc == 6 && Counting(w, r.vm, k, acc + m))
  {
    hide Step, Perform, Load;
    var p := Multiply(w, n, m);
    SameLoads(w, vm, Begun(vm));
    InstructionEffects(w, Begun(vm), p[5], limit);
    StepAssigns(w, p, vm, limit, "acc", w.format(acc + m));
    NamesDiffer();
  }

  /** The countdown of a round, and the way back. */
  lemma CountedDown(w: World, n: nat, m: int, vm: Vm, k: nat, acc: int, limit: nat)
    requires Numerals(w) && 0 < k && vm.pc == 6 && Counting(w, vm, k, acc)
    ensures var p := Multiply(w, n, m); var r := Step(w, p, vm, limit);
            && Took(vm, r, 250, limit)
            && (r.Running? ==>
                  var r2 := Step(w, p, r.vm, limit);
                  r.vm.pc == 7 && Took(r.vm, r2, 50, limit) && (r2.Running? ==> AtHead(w, r2.vm, k - 1, acc)))
  {
    hide Step, Perform, Load;
    var p := Multiply(w, n, m);
    SameLoads(w, vm, Begun(vm));
    InstructionEffects(w, Begun(vm), p[6], limit);
    assert ValueOf(w, Begun(vm), w.format(1)) == 1;
    assert w.parse(Load(w, Begun(vm), "left")) == k;
    StepAssigns(w, p, vm, limit, "left", w.format(k - 1));
    NamesDiffer();
    var r := Step(w, p, vm, limit);
    if r.Running? {
      assert Atoi("3") == Some(3) by {
        assert "3"[..0] == "";
        assert Digits("3") == Some(3);
      }
      StepJumps(w, p, r.vm, limit, 3);
    }
  }

  /** A run takes its first step and goes on from there. */
  lemma RunSteps(w: World, p: Program, vm: Vm, limit: nat)
    requires vm.pc < |p|
    ensures var r := Step(w, p, vm, limit); Run(w, p, vm, limit) == if r.Running? then Run(w, p, r.vm, limit) else r
  {
  }

  /** The loop and the last instruction. */
  lemma {:induction false} LoopFinishes(w: World, n: nat, m: int, vm: Vm, k: nat, acc: int, limit: nat)
    requires Numerals(w) && AtHead(w, vm, k, acc)
    ensures Finishes(w, vm, Run(w, Multiply(w, n, m), vm, limit), 5 * k + 3, 850 * k + 550, limit, w.format(acc + k * m))
    decreases k, 1
  {
    hide Step, Load, Numerals, Run, Counting;
    var p := Multiply(w, n, m);
    Tested(w, n, m, vm, k, acc, limit);
    RunSteps(w, p, vm, limit);
    var r := Step(w, p, vm, limit);
    if r.Running? {
      RunSteps(w, p, r.vm, limit);
      var r2 := Step(w, p, r.vm, limit);
      if r2.Running? {
        if k == 0 {
          Fetched(w, n, m, r2.vm, acc, limit);
        } else {
          RoundFinishes(w, n, m, r2.vm, k, acc, limit);
        }
      }
    }
  }

  lemma RoundFinishes(w: World, n: nat, m: int, vm: Vm, k: nat, acc: int, limit: nat)
    requires Numerals(w) && 0 < k && vm.pc == 5 && Counting(w, vm, k, acc)
    ensures Finishes(w, vm, Run(w, Multiply(w, n, m), vm, limit), 5 * k + 1, 850 * k + 250, limit, w.format(acc + k * m))
    decreases k, 0
  {
    hide Step, Load, Numerals, Run, Counting;
    var p := Multiply(w, n, m);
    Added(w, n, m, vm, k, acc, limit);
    RunSteps(w, p, vm, limit);
    var a := Step(w, p, vm, limit);
    if a.Running? {
      CountedDown(w, n, m, a.vm, k, acc + m, limit);
      RunSteps(w, p, a.vm, limit);
      var b := Step(w, p, a.vm, limit);
      if b.Running? {
        RunSteps(w, p, b.vm, limit);
        var c := Step(w, p, b.vm, limit);
        if c.Running? {
          LoopFinishes(w, n, m, c.vm, k - 1, acc + m, limit);
          assert acc + m + (k - 1) * m == acc + k * m;
        }
      }
    }
  }

  lemma Fetched(w: World, n: nat, m: int, vm: Vm, acc: int, limit: nat)
    requires vm.pc == 8 && Counting(w, vm, 0, acc)
    ensures Finishes(w, vm, Run(w, Multiply(w, n, m), vm, limit), 1, 250, limit, w.format(acc))
  {
    hide Step, Perform, Load;
    var p := Multiply(w, n, m);
    SameLoads(w, vm, Begun(vm));
    InstructionEffects(w, Begun(vm), p[8], limit);
    StepAssigns(w, p, vm, limit, "output", w.format(acc));
    var r := Step(w, p, vm, limit);
    RunSteps(w, p, vm, limit);
    if r.Running? {
      assert Run(w, p, r.vm, limit) == r;
    }
  }

  lemma Prepared(w: World, n: nat, m: int, limit: nat)
    ensures var p := Multiply(w, n, m); var r := Step(w, p, START, limit);
            && Took(START, r, 250, limit)
            && (r.Running? ==>
                  var r2 := Step(w, p, r.vm, limit);
                  && r.vm.pc == 1 && Took(r.vm, r2, 250, limit)
                  && (r2.Running? ==>
                        var r3 := Step(w, p, r2.vm, limit);
                        r2.vm.pc == 2 && Took(r2.vm, r3, 250, limit) && (r3.Running? ==> AtHead(w, r3.vm, n, 0))))
  {
    hide Step, Perform, Load;
    var p := Multiply(w, n, m);
    InstructionEffects(w, Begun(START), p[0], limit);
    SameLoads(w, START, Begun(START));
    StepAssigns(w, p, START, limit, "zero", w.format(0));
    var r := Step(w, p, START, limit);
    if r.Running? {
      InstructionEffects(w, Begun(r.vm), p[1], limit);
      SameLoads(w, r.vm, Begun(r.vm));
      StepAssigns(w, p, r.vm, limit, "acc", w.format(0));
      var r2 := Step(w, p, r.vm, limit);
      if r2.Running? {
        InstructionEffects(w, Begun(r2.vm), p[2], limit);
        SameLoads(w, r2.vm, Begun(r2.vm));
        StepAssigns(w, p, r2.vm, limit, "left", w.format(n));
        NamesDiffer();
      }
    }
  }

  /** The loop computes the product: for every n and m it ends exactly when its
      5n + 6 steps are within 100000 and its 850n + 1300 gas within the limit, and
      then the output is n times m. */
  lemma MultiplyMultiplies(w: World, n: nat, m: int, limit: nat)
    requires Numerals(w)
    ensures Finishes(w, START, Execute(w, Multiply(w, n, m), limit), 5 * n + 6, 850 * n + 1300, limit, w.format(n * m))
  {
    hide Step, Load, Numerals, Run, Counting;
    var p := Multiply(w, n, m);
    Prepared(w, n, m, limit);
    RunSteps(w, p, START, limit);
    var r := Step(w, p, START, limit);
    if r.Running? {
      RunSteps(w, p, r.vm, limit);
      var r2 := Step(w, p, r.vm, limit);
      if r2.Running? {
        RunSteps(w, p, r2.vm, limit);
        var r3 := Step(w, p, r2.vm, limit);
        if r3.Running? {
          LoopFinishes(w, n, m, r3.vm, n, 0, limit);
        }
      }
    }
  }
}
