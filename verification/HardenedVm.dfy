/** The line-oriented contract language: its compiler and its machine. */
module HardenedVm {
  import opened Basics

  const MAX_LINES: nat := 1024
  const MAX_OPERAND: nat := 512
  const MAX_STEPS: nat := 100_000
  const STEP_GAS: nat := 50
  const SET_GAS: nat := 200
  const CALL_GAS: nat := 10_000
  const WORD: nat := 0x1_0000_0000_0000_0000

  datatype OpCode = Set | Get | Add | Sub | Eq | Neq | Jmp | JmpIf | Call | Revert

  datatype Instruction = Instruction(op: OpCode, args: seq<string>)

  type Program = seq<Instruction>

  // ------------------------------------------------------------ source text

  /** The non-empty pieces between separators. */
  function Fields(s: string, isSeparator: char -> bool): seq<string>
    decreases |s|
  {
    if s == [] then []
    else if isSeparator(s[0]) then Fields(s[1..], isSeparator)
    else
      var n := Piece(s, isSeparator);
      [s[..n]] + Fields(s[n..], isSeparator)
  }

  /** The length of the piece s starts with. */
  function Piece(s: string, isSeparator: char -> bool): (n: nat)
    ensures n <= |s| && (s != [] && !isSeparator(s[0]) ==> n > 0)
  {
    if s == [] || isSeparator(s[0]) then 0 else 1 + Piece(s[1..], isSeparator)
  }

  predicate EndsLine(c: char) { c == '\n' || c == ';' }

  predicate IsSpace(c: char) { c == ' ' || '\t' <= c <= '\r' }

  function Upper(s: string): string {
    seq(|s|, i requires 0 <= i < |s| => if 'a' <= s[i] <= 'z' then (s[i] as int - 32) as char else s[i])
  }

  function Join(words: seq<string>, separator: char): string {
    if words == [] then ""
    else if |words| == 1 then words[0]
    else words[0] + [separator] + Join(words[1..], separator)
  }

  function Digits(s: string): Option<nat>
    decreases |s|
  {
    if s == [] then Some(0)
    else if !('0' <= s[|s| - 1] <= '9') then None
    else match Digits(s[..|s| - 1])
      case None => None
      case Some(high) => Some(10 * high + (s[|s| - 1] as int - '0' as int))
  }

  /** A decimal integer with an optional sign. */
  function Atoi(s: string): Option<int> {
    var body := if s != [] && (s[0] == '+' || s[0] == '-') then s[1..] else s;
    if body == [] || Digits(body).None? then None
    else if s[0] == '-' then Some(0 - Digits(body).value) else Some(Digits(body).value)
  }

  // --------------------------------------------------------------- compiler

  function OpOf(word: string): Option<OpCode> {
    if word == "SET" then Some(Set)
    else if word == "GET" then Some(Get)
    else if word == "ADD" then Some(Add)
    else if word == "SUB" then Some(Sub)
    else if word == "EQ" then Some(Eq)
    else if word == "NEQ" then Some(Neq)
    else if word == "JMP" then Some(Jmp)
    else if word == "JMPIF" then Some(JmpIf)
    else if word == "CALL" then Some(Call)
    else if word == "REVERT" then Some(Revert)
    else None
  }

  /** The fewest and the most operands of a source line. */
  function Operands(op: OpCode): (nat, nat) {
    match op
    case Get | Jmp | JmpIf => (1, 1)
    case Revert => (1, 32)
    case _ => (2, 2)
  }

  predicate OperandsFit(args: seq<string>) {
    forall i :: 0 <= i < |args| ==> 0 < |args[i]| <= MAX_OPERAND
  }

  function CompileLine(fields: seq<string>): Option<Instruction>
    requires fields != []
  {
    match OpOf(Upper(fields[0]))
    case None => None
    case Some(op) =>
      var args := fields[1..];
      if !(Operands(op).0 <= |args| <= Operands(op).1) then None
      else
        var kept := if op == Revert then [Join(args, ' ')] else args;
        if OperandsFit(kept) then Some(Instruction(op, kept)) else None
  }

  /** The instructions of the lines, blank lines skipped. */
  function CompileLines(lines: seq<string>): Option<Program>
    decreases |lines|
  {
    if lines == [] then Some([])
    else
      var last := Fields(lines[|lines| - 1], IsSpace);
      match CompileLines(lines[..|lines| - 1])
      case None => None
      case Some(p) =>
        if last == [] then Some(p)
        else match CompileLine(last)
          case None => None
          case Some(i) => Some(p + [i])
  }

  predicate IsJump(i: Instruction) { i.op == Jmp || i.op == JmpIf }

  predicate TargetOk(i: Instruction, n: nat) {
    |i.args| > 0 && Atoi(i.args[0]).Some? && 0 <= Atoi(i.args[0]).value < n
  }

  predicate JumpsOk(p: Program, n: nat) {
    forall k :: 0 <= k < |p| && IsJump(p[k]) ==> TargetOk(p[k], n)
  }

  function Compile(source: string): Option<Program> {
    var lines := Fields(source, EndsLine);
    if lines == [] || |lines| > MAX_LINES then None
    else match CompileLines(lines)
      case None => None
      case Some(p) => if p != [] && JumpsOk(p, |p|) then Some(p) else None
  }

  // ---------------------------------------------------------------- machine

  /** Everything outside the machine: what storage holds below this frame after a
      number of calls, how called contracts answer, and number formatting. */
  datatype World = World(
    stored: (nat, string) -> string,
    answers: (nat, string, string) -> bool,
    validTarget: string -> bool,
    lower: string -> string,
    blank: string -> bool,
    number: string -> Option<int>,
    parse: string -> int,
    format: int -> string)

  datatype Vm = Vm(pc: int, steps: nat, gasUsed: nat, temp: map<string, string>, calls: nat)

  /** Fault is an operand that is not there or a place outside the program. */
  datatype Progress = Running(vm: Vm) | Failed | Fault

  /** consumeGas: the 64-bit counter, and the revert once it passes the limit. */
  function Consume(vm: Vm, n: nat, limit: nat): Progress {
    var used := (vm.gasUsed + n) % WORD;
    if used > limit then Failed else Running(vm.(gasUsed := used))
  }

  /** A write of this frame, or what lies below it. */
  function Visible(w: World, temp: map<string, string>, calls: nat, key: string): string {
    if key in temp then temp[key] else w.stored(calls, key)
  }

  function Load(w: World, vm: Vm, key: string): string { Visible(w, vm.temp, vm.calls, key) }

  function Store(vm: Vm, key: string, value: string, limit: nat): Progress {
    match Consume(vm, SET_GAS, limit)
    case Running(t) => Running(t.(temp := t.temp[key := value]))
    case other => other
  }

  /** A literal, or the number a variable holds. */
  function Meaning(w: World, temp: map<string, string>, calls: nat, operand: string): int {
    match w.number(operand)
    case Some(n) => n
    case None => w.parse(Visible(w, temp, calls, operand))
  }

  function ValueOf(w: World, vm: Vm, operand: string): int { Meaning(w, vm.temp, vm.calls, operand) }

  function Next(p: Progress): Progress {
    match p
    case Running(vm) => Running(vm.(pc := vm.pc + 1))
    case other => other
  }

  function JumpTo(vm: Vm, target: string): Progress {
    match Atoi(target)
    case Some(t) => Running(vm.(pc := t))
    case None => Running(vm.(pc := 0))
  }

  predicate HasOperands(i: Instruction) {
    |i.args| >= if i.op == Revert then 1 else Operands(i.op).0
  }

  /** One instruction whose operands are there. */
  function Perform(w: World, vm: Vm, i: Instruction, limit: nat): Progress
    requires HasOperands(i)
  {
    match i.op
    case Set => Next(Store(vm, i.args[0], i.args[1], limit))
    case Get => Next(Store(vm, "output", Load(w, vm, i.args[0]), limit))
    case Add =>
      Next(Store(vm, i.args[0], w.format(w.parse(Load(w, vm, i.args[0])) + ValueOf(w, vm, i.args[1])), limit))
    case Sub =>
      var a, b := w.parse(Load(w, vm, i.args[0])), ValueOf(w, vm, i.args[1]);
      if a < b then Failed else Next(Store(vm, i.args[0], w.format(a - b), limit))
    case Eq => Next(Store(vm, "__cmp", if Load(w, vm, i.args[0]) == Load(w, vm, i.args[1]) then "1" else "0", limit))
    case Neq => Next(Store(vm, "__cmp", if Load(w, vm, i.args[0]) != Load(w, vm, i.args[1]) then "1" else "0", limit))
    case Jmp => JumpTo(vm, i.args[0])
    case JmpIf => if Load(w, vm, "__cmp") == "1" then JumpTo(vm, i.args[0]) else Next(Running(vm))
    case Call =>
      if !w.validTarget(w.lower(i.args[0])) || w.blank(i.args[1]) then Failed
      else (match Consume(vm, CALL_GAS, limit)
        case Running(t) =>
          if w.answers(t.calls, w.lower(i.args[0]), i.args[1]) then Next(Running(t.(calls := t.calls + 1))) else Failed
        case other => other)
    case Revert => Failed
  }

  function Step(w: World, p: Program, vm: Vm, limit: nat): Progress {
    if vm.steps + 1 > MAX_STEPS then Failed
    else match Consume(vm.(steps := vm.steps + 1), STEP_GAS, limit)
      case Running(t) =>
        if !(0 <= t.pc < |p|) || !HasOperands(p[t.pc]) then Fault else Perform(w, t, p[t.pc], limit)
      case other => other
  }

  lemma StepCounts(w: World, p: Program, vm: Vm, limit: nat)
    requires Step(w, p, vm, limit).Running?
    ensures Step(w, p, vm, limit).vm.steps == vm.steps + 1 <= MAX_STEPS
  {
  }

  /** Runs until the place leaves the program at its end. */
  function Run(w: World, p: Program, vm: Vm, limit: nat): Progress
    decreases MAX_STEPS - vm.steps
  {
    if vm.pc >= |p| then Running(vm)
    else match Step(w, p, vm, limit)
      case Running(next) =>
        StepCounts(w, p, vm, limit);
        Run(w, p, next, limit)
      case other => other
  }

  const START: Vm := Vm(0, 0, 0, map[], 0)

  predicate Runnable(p: Program) { 0 < |p| <= MAX_LINES }

  function Execute(w: World, p: Program, limit: nat): Progress {
    if Runnable(p) then Run(w, p, START, limit) else Failed
  }

  // ------------------------------------------------- compiled programs are safe

  ghost predicate WellFormed(p: Program) {
    && 0 < |p| <= MAX_LINES && JumpsOk(p, |p|)
    && forall k :: 0 <= k < |p| ==> InstructionOk(p[k])
  }

  ghost predicate InstructionOk(i: Instruction) {
    && OperandsFit(i.args)
    && |i.args| == if i.op == Revert then 1 else Operands(i.op).0
  }

  lemma LineIsOk(fields: seq<string>)
    requires fields != [] && CompileLine(fields).Some?
    ensures InstructionOk(CompileLine(fields).value)
  {
  }

  lemma {:induction false} LinesAreOk(lines: seq<string>)
    requires CompileLines(lines).Some?
    ensures var p := CompileLines(lines).value;
            |p| <= |lines| && forall k :: 0 <= k < |p| ==> InstructionOk(p[k])
    decreases |lines|
  {
    if lines != [] {
      LinesAreOk(lines[..|lines| - 1]);
      var last := Fields(lines[|lines| - 1], IsSpace);
      if last != [] {
        LineIsOk(last);
      }
    }
  }

  /** Every program the compiler accepts has the operands its instructions read
      and only jumps to its own instructions. */
  lemma CompiledIsWellFormed(source: string)
    requires Compile(source).Some?
    ensures WellFormed(Compile(source).value)
  {
    LinesAreOk(Fields(source, EndsLine));
  }

  /** The most one step can cost. */
  const STEP_MOST: nat := STEP_GAS + CALL_GAS

  /** Gas and steps of a running machine. */
  ghost predicate Metered(vm: Vm, limit: nat) {
    && vm.steps <= MAX_STEPS
    && STEP_GAS * vm.steps + CALL_GAS * vm.calls <= vm.gasUsed <= limit
  }

  /** 100000 steps cannot bring the gas counter near 2^64, whatever the limit. */
  ghost predicate FarFromWrapping(vm: Vm) { vm.gasUsed <= STEP_MOST * vm.steps }

  /** In the middle of a step, after its own gas was taken. */
  ghost predicate MidStep(vm: Vm, limit: nat) {
    Metered(vm, limit) && vm.gasUsed + CALL_GAS <= STEP_MOST * vm.steps
  }

  /** The meter adds exactly what is consumed, or stops a machine that would pass
      its limit, as long as the counter cannot wrap. */
  lemma ConsumeMeters(vm: Vm, n: nat, limit: nat)
    requires vm.gasUsed + n < WORD
    ensures Consume(vm, n, limit) == if vm.gasUsed + n <= limit then Running(vm.(gasUsed := vm.gasUsed + n)) else Failed
  {
  }

  lemma StoreMeters(vm: Vm, key: string, value: string, limit: nat)
    requires MidStep(vm, limit)
    ensures var r := Store(vm, key, value, limit);
            !r.Fault? && (r.Running? ==> Metered(r.vm, limit) && FarFromWrapping(r.vm) && r.vm.pc == vm.pc)
  {
    ConsumeMeters(vm, SET_GAS, limit);
  }

  /** The machine stays inside [0, n] and pays for what it does. */
  ghost predicate Good(p: Program, vm: Vm, limit: nat) {
    0 <= vm.pc <= |p| && Metered(vm, limit) && FarFromWrapping(vm)
  }

  ghost predicate GoodProgress(p: Program, r: Progress, limit: nat) {
    !r.Fault? && (r.Running? ==> Good(p, r.vm, limit))
  }

  lemma PerformIsGood(w: World, p: Program, vm: Vm, limit: nat)
    requires WellFormed(p) && 0 <= vm.pc < |p| && MidStep(vm, limit)
    ensures GoodProgress(p, Perform(w, vm, p[vm.pc], limit), limit)
  {
    hide Store, Load, Atoi;
    var i := p[vm.pc];
    assert InstructionOk(i);
    match i.op
    case Set => StoreMeters(vm, i.args[0], i.args[1], limit);
    case Get => StoreMeters(vm, "output", Load(w, vm, i.args[0]), limit);
    case Add =>
      StoreMeters(vm, i.args[0], w.format(w.parse(Load(w, vm, i.args[0])) + ValueOf(w, vm, i.args[1])), limit);
    case Sub =>
      StoreMeters(vm, i.args[0], w.format(w.parse(Load(w, vm, i.args[0])) - ValueOf(w, vm, i.args[1])), limit);
    case Eq => StoreMeters(vm, "__cmp", if Load(w, vm, i.args[0]) == Load(w, vm, i.args[1]) then "1" else "0", limit);
    case Neq => StoreMeters(vm, "__cmp", if Load(w, vm, i.args[0]) != Load(w, vm, i.args[1]) then "1" else "0", limit);
    case Jmp => assert IsJump(i) && TargetOk(i, |p|);
    case JmpIf => assert IsJump(i) && TargetOk(i, |p|);
    case Call => ConsumeMeters(vm, CALL_GAS, limit);
    case Revert =>
  }

  /** The gas of a step itself. */
  lemma StepGasMeters(p: Program, vm: Vm, limit: nat)
    requires Good(p, vm, limit) && vm.steps + 1 <= MAX_STEPS
    ensures var t := Consume(vm.(steps := vm.steps + 1), STEP_GAS, limit);
            !t.Fault? && (t.Running? ==> t.vm.pc == vm.pc && MidStep(t.vm, limit))
  {
    ConsumeMeters(vm.(steps := vm.steps + 1), STEP_GAS, limit);
  }

  lemma StartIsGood(p: Program, limit: nat)
    requires WellFormed(p)
    ensures Good(p, START, limit) && Runnable(p)
  {
  }

  lemma OperandsAreThere(p: Program, pc: int)
    requires WellFormed(p) && 0 <= pc < |p|
    ensures HasOperands(p[pc])
  {
    assert InstructionOk(p[pc]);
  }

  lemma StepIsGood(w: World, p: Program, vm: Vm, limit: nat)
    requires WellFormed(p) && Good(p, vm, limit) && vm.pc < |p|
    ensures GoodProgress(p, Step(w, p, vm, limit), limit)
  {
    hide Consume, Perform, HasOperands, WellFormed, Metered;
    if vm.steps + 1 <= MAX_STEPS {
      StepGasMeters(p, vm, limit);
      OperandsAreThere(p, vm.pc);
      var t := Consume(vm.(steps := vm.steps + 1), STEP_GAS, limit);
      if t.Running? {
        PerformIsGood(w, p, t.vm, limit);
      }
    }
  }

  lemma {:induction false} RunIsGood(w: World, p: Program, vm: Vm, limit: nat)
    requires WellFormed(p) && Good(p, vm, limit)
    ensures var r := Run(w, p, vm, limit);
            !r.Fault? && (r.Running? ==> r.vm.pc == |p| && Metered(r.vm, limit))
    decreases MAX_STEPS - vm.steps
  {
    hide Step, WellFormed;
    if vm.pc < |p| {
      StepIsGood(w, p, vm, limit);
      var r := Step(w, p, vm, limit);
      if r.Running? {
        StepCounts(w, p, vm, limit);
        RunIsGood(w, p, r.vm, limit);
      }
    }
  }

  /** Compiled programs are safe to run: whatever storage holds and however called
      contracts answer, execution never reads a missing operand or leaves the
      program; it ends; and a successful run of s steps has s <= 100000 and paid at
      least 50 gas a step and 10000 a call, within the limit. */
  lemma CompiledProgramsAreSafe(w: World, source: string, limit: nat)
    requires Compile(source).Some?
    ensures var p := Compile(source).value; var r := Execute(w, p, limit);
            && !r.Fault?
            && (r.Running? ==>
                  && r.vm.pc == |p| && r.vm.steps <= MAX_STEPS
                  && STEP_GAS * r.vm.steps + CALL_GAS * r.vm.calls <= r.vm.gasUsed <= limit)
  {
    CompiledIsWellFormed(source);
    RunIsGood(w, Compile(source).value, START, limit);
  }

  /** Every jump of a compiled program lands on an instruction, so a program
      without one that reaches its end runs out of steps or gas: with a self-jump
      as its only instruction it always fails. */
  lemma {:induction false} SelfJumpFails(w: World, vm: Vm, limit: nat)
    requires vm.pc == 0
    ensures !Run(w, [Instruction(Jmp, ["0"])], vm, limit).Running?
    decreases MAX_STEPS - vm.steps
  {
    var p := [Instruction(Jmp, ["0"])];
    ZeroTarget();
    var r := Step(w, p, vm, limit);
    if r.Running? {
      StepCounts(w, p, vm, limit);
      assert r.vm.pc == 0;
      SelfJumpFails(w, r.vm, limit);
    }
  }

  lemma ZeroTarget()
    ensures Atoi("0") == Some(0)
  {
    assert "0"[..0] == "";
    assert Digits("0") == Some(0);
  }
}
