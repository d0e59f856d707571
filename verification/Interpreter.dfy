/** The compiler and the bytecode loop as they run, over a context that meters
    gas and buffers writes. */
module Interpreter {
  import opened Basics
  import opened HardenedVm

  method ParseLines(lines: seq<string>) returns (parsed: Option<Program>)
    ensures parsed == CompileLines(lines)
  {
    var instructions: Program := [];
    for n := 0 to |lines|
      invariant CompileLines(lines[..n]) == Some(instructions)
    {
      assert lines[..n + 1][..n] == lines[..n];
      var fields := Fields(lines[n], IsSpace);
      if fields != [] {
        var instruction := CompileLine(fields);
        if instruction.None? {
          PrefixFails(lines, n + 1);
          return None;
        }
        instructions := instructions + [instruction.value];
      }
    }
    assert lines[..|lines|] == lines;
    parsed := Some(instructions);
  }

  method CheckJumps(instructions: Program) returns (ok: bool)
    ensures ok == JumpsOk(instructions, |instructions|)
  {
    for pc := 0 to |instructions|
      invariant forall k :: 0 <= k < pc && IsJump(instructions[k]) ==> TargetOk(instructions[k], |instructions|)
    {
      if IsJump(instructions[pc]) && !TargetOk(instructions[pc], |instructions|) {
        return false;
      }
    }
    ok := true;
  }

  method CompileGoSubset(source: string) returns (program: Option<Program>)
    ensures program == Compile(source)
  {
    var lines := Fields(source, EndsLine);
    if lines == [] || |lines| > MAX_LINES {
      return None;
    }
    program := ParseLines(lines);
    if program.Some? {
      var jumpsOk := CheckJumps(program.value);
      if program.value == [] || !jumpsOk {
        program := None;
      }
    }
  }

  lemma {:induction false} PrefixFails(lines: seq<string>, n: nat)
    requires n <= |lines| && CompileLines(lines[..n]).None?
    ensures CompileLines(lines).None?
    decreases |lines|
  {
    if n < |lines| {
      var front := lines[..|lines| - 1];
      assert front[..n] == lines[..n];
      PrefixFails(front, n);
    } else {
      assert lines[..n] == lines;
    }
  }

  class Context {
    const world: World
    const gasLimit: nat
    var gasUsed: nat
    var tempStorage: map<string, string>
    var calls: nat

    constructor (world: World, gasLimit: nat)
      ensures this.world == world && this.gasLimit == gasLimit
      ensures gasUsed == 0 && tempStorage == map[] && calls == 0
    {
      this.world, this.gasLimit, gasUsed, tempStorage, calls := world, gasLimit, 0, map[], 0;
    }

    ghost function At(pc: int, steps: nat): Vm
      reads this
    {
      Vm(pc, steps, gasUsed, tempStorage, calls)
    }

    /** ok is false when the context reverts; the caller then abandons it. */
    method ConsumeGas(n: nat) returns (ok: bool)
      modifies this`gasUsed
      ensures gasUsed == (old(gasUsed) + n) % WORD && ok == (gasUsed <= gasLimit)
    {
      gasUsed := (gasUsed + n) % WORD;
      ok := gasUsed <= gasLimit;
    }

    method Lookup(key: string) returns (value: string)
      ensures value == Visible(world, tempStorage, calls, key)
    {
      value := if key in tempStorage then tempStorage[key] else world.stored(calls, key);
    }

    /** Writes on behalf of the machine vm, which shares this context. */
    method Put(key: string, value: string, ghost vm: Vm) returns (ok: bool)
      requires vm == At(vm.pc, vm.steps)
      modifies this`gasUsed, this`tempStorage
      ensures Store(vm, key, value, gasLimit) == if ok then Running(At(vm.pc, vm.steps)) else Failed
    {
      ok := ConsumeGas(SET_GAS);
      if ok {
        tempStorage := tempStorage[key := value];
      }
    }

    method Number(operand: string) returns (value: int)
      ensures value == Meaning(world, tempStorage, calls, operand)
    {
      if world.number(operand).Some? {
        return world.number(operand).value;
      }
      var raw := Lookup(operand);
      value := world.parse(raw);
    }

    /** The instructions that only read and write variables. */
    method Compute(i: Instruction, ghost pc: int, ghost steps: nat) returns (ok: bool)
      requires HasOperands(i) && i.op in {Set, Get, Add, Sub, Eq, Neq}
      modifies this`gasUsed, this`tempStorage
      ensures Perform(world, old(At(pc, steps)), i, gasLimit) == if ok then Running(At(pc + 1, steps)) else Failed
    {
      hide Store, Visible, Meaning;
      ghost var vm := At(pc, steps);
      match i.op {
        case Set => ok := Put(i.args[0], i.args[1], vm);
        case Get =>
          var value := Lookup(i.args[0]);
          ok := Put("output", value, vm);
        case Add =>
          var a := Lookup(i.args[0]);
          var b := Number(i.args[1]);
          ok := Put(i.args[0], world.format(world.parse(a) + b), vm);
        case Sub =>
          var a := Lookup(i.args[0]);
          var b := Number(i.args[1]);
          if world.parse(a) < b {
            return false;
          }
          ok := Put(i.args[0], world.format(world.parse(a) - b), vm);
        case Eq =>
          var a := Lookup(i.args[0]);
          var b := Lookup(i.args[1]);
          ok := Put("__cmp", if a == b then "1" else "0", vm);
        case Neq =>
          var a := Lookup(i.args[0]);
          var b := Lookup(i.args[1]);
          ok := Put("__cmp", if a != b then "1" else "0", vm);
      }
    }

    /** One instruction; next is the place to go on from. */
    method Dispatch(i: Instruction, pc: int, ghost steps: nat) returns (ok: bool, next: int)
      requires HasOperands(i)
      modifies this
      ensures Perform(world, old(At(pc, steps)), i, gasLimit) == if ok then Running(At(next, steps)) else Failed
    {
      next := pc + 1;
      match i.op {
        case Jmp =>
          ok, next := true, Target(i.args[0]);
        case JmpIf =>
          var flag := Lookup("__cmp");
          ok := true;
          if flag == "1" {
            next := Target(i.args[0]);
          }
        case Call =>
          var target := world.lower(i.args[0]);
          if !world.validTarget(target) || world.blank(i.args[1]) {
            return false, next;
          }
          ok := ConsumeGas(CALL_GAS);
          if !ok || !world.answers(calls, target, i.args[1]) {
            return false, next;
          }
          calls := calls + 1;
        case Revert => ok := false;
        case _ => ok := Compute(i, pc, steps);
      }
    }

    static function Target(operand: string): int {
      match Atoi(operand)
      case Some(t) => t
      case None => 0
    }

    /** One turn of the loop: the step's gas, then its instruction. */
    method StepOnce(program: Program, pc: int, ghost steps: nat) returns (ok: bool, next: int)
      requires WellFormed(program) && 0 <= pc < |program| && steps < MAX_STEPS
      modifies this
      ensures Step(world, program, old(At(pc, steps)), gasLimit) == if ok then Running(At(next, steps + 1)) else Failed
    {
      hide Perform, HasOperands, WellFormed;
      OperandsAreThere(program, pc);
      ok := ConsumeGas(STEP_GAS);
      if !ok {
        return false, pc;
      }
      ok, next := Dispatch(program[pc], pc, steps + 1);
    }

    /** A turn that keeps the machine good and its final outcome the same. */
    method Turn(program: Program, pc: int, ghost steps: nat) returns (ok: bool, next: int)
      requires WellFormed(program)
      requires Good(program, At(pc, steps), gasLimit) && pc < |program| && steps < MAX_STEPS
      modifies this
      ensures ok ==> Good(program, At(next, steps + 1), gasLimit)
      ensures Run(world, program, old(At(pc, steps)), gasLimit)
           == if ok then Run(world, program, At(next, steps + 1), gasLimit) else Failed
    {
      StepIsGood(world, program, At(pc, steps), gasLimit);
      ok, next := StepOnce(program, pc, steps);
    }

    /** The bytecode loop of a compiled program: no operand check, because
        compiled programs never need one. */
    method ExecuteBytecode(program: Program) returns (ok: bool, steps: nat)
      requires WellFormed(program)
      requires gasUsed == 0 && tempStorage == map[] && calls == 0
      modifies this
      ensures Execute(world, program, gasLimit) == if ok then Running(At(|program|, steps)) else Failed
      ensures ok ==> STEP_GAS * steps + CALL_GAS * calls <= gasUsed <= gasLimit
    {
      hide Perform, Consume, WellFormed;
      var pc: int := 0;
      steps := 0;
      StartIsGood(program, gasLimit);
      assert At(0, 0) == START;
      while pc < |program|
        invariant Good(program, At(pc, steps), gasLimit)
        invariant Execute(world, program, gasLimit) == Run(world, program, At(pc, steps), gasLimit)
        decreases MAX_STEPS - steps
      {
        if steps + 1 > MAX_STEPS {
          return false, steps;
        }
        ok, pc := Turn(program, pc, steps);
        steps := steps + 1;
        if !ok {
          return false, steps;
        }
      }
      ok := true;
    }
  }
}
