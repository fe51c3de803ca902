/** The instructions that the generator emits and a machine that runs them: sixteen
    registers, a memory of 8-byte cells, flags and a program counter. An operand
    combination that x86-64 cannot encode, an access to unmapped memory or a jump to a
    lbl that is not defined leaves the machine stuck. */
module Machine {
  import opened Words
  import opened Lir

  datatype Register =
    | RAX | RCX | RDX | RBX | RSP | RBP | RSI | RDI
    | R8 | R9 | R10 | R11 | R12 | R13 | R14 | R15

  /** Registers that the generator may hand out: neither stack nor frame pointer. */
  type Usable = r: Register | !r.RSP? && !r.RBP? witness RAX

  const USABLE_REGS: set<Register> :=
    {RAX, RCX, RDX, RBX, RSI, RDI, R8, R9, R10, R11, R12, R13, R14, R15}

  const ARG_REGS: seq<Register> := [RDI, RSI, RDX, RCX, R8, R9]

  datatype Label =
    | FuncLabel(name: Ident)
    | JmpIf(at: nat)
    | MergeIf(at: nat)
    | UncondWhile(at: nat)
    | JmpWhile(at: nat)
    | MatchArm(at: nat, variant: nat)
    | MatchMerge(at: nat)

  datatype Location =
    | RegLoc(reg: Register)
    | Const(val: Val)
    | NumberedOffset(offset: nat, base: Register)
    | NamedOffset(name: string)
    | LabelLoc(lbl: Label)
  {
    predicate IsStackOffset() {
      NumberedOffset? || NamedOffset?
    }
  }

  const ZERO := Const(IntVal(0))
  const ONE := Const(IntVal(1))

  /** The static preamble defines a quad with the value 1 under this name. */
  const BOOL_TEST := ".bool_test"

  datatype CondFlag = IfEq | IfNotEq | IfGreater | IfGreaterEq | IfLess | IfLessEq

  datatype JmpCond = JmpEq | JmpNotEq

  datatype Instruction =
    | LabelDef(lbl: Label)
    | Meta(name: Ident)
    | Push(loc: Location, size: nat)
    | Jmp(target: Label)
    | CondJmp(target: Label, jmpCond: JmpCond)
    | Leave
    | Return
    | Mov(src: Location, dst: Location)
    | SizedMov(src: Location, dst: Location, size: nat)
    | CondMov(src: Location, dst: Location, cond: CondFlag)
    | Load(src: Location, dst: Location, size: nat)
    | Math(src: Location, dst: Location, op: BinOp)
    | Cmp(src: Location, dst: Location)

  /** What a comparison leaves in the flags: zero, sign and overflow of `dst - src`.
      Other arithmetic leaves them undefined here. */
  datatype Flags = Undefined | Flags(zero: bool, sign: bool, overflow: bool)

  datatype Core = Core(regs: map<Register, word>, mem: map<int, word>, flags: Flags) {
    function Reg(r: Register): word {
      if r in regs then regs[r] else 0
    }
  }

  datatype State = Running(pc: nat, core: Core) | Halted(core: Core)

  function Encode(v: Val): word {
    match v
    case IntVal(i) => i
    case BoolVal(b) => if b then 1 else 0
  }

  // ---------- operands ----------

  /** An 8-byte cell is mapped at this address. */
  predicate Mapped(core: Core, addr: int) {
    addr in core.mem && addr % 8 == 0
  }

  function Read(core: Core, loc: Location): Option<word> {
    match loc
    case RegLoc(r) => Some(core.Reg(r))
    case Const(v) => Some(Encode(v))
    case NumberedOffset(offset, base) =>
      var addr := core.Reg(base) - offset;
      if Mapped(core, addr) then Some(core.mem[addr]) else None
    case NamedOffset(name) => if name == BOOL_TEST then Some(1) else None
    case LabelLoc(_) => None
  }

  function Write(core: Core, loc: Location, w: word): Option<Core> {
    match loc
    case RegLoc(r) => Some(core.(regs := core.regs[r := w]))
    case NumberedOffset(offset, base) =>
      var addr := core.Reg(base) - offset;
      if Mapped(core, addr) then Some(core.(mem := core.mem[addr := w])) else None
    case Const(_) | NamedOffset(_) | LabelLoc(_) => None
  }

  const IMM_MIN: int := -0x8000_0000
  const IMM_MAX: int := 0x7fff_ffff

  /** A constant that an instruction can hold: a signed number of 32 bits. */
  predicate Immediate(v: Val) {
    IMM_MIN <= Encode(v) <= IMM_MAX
  }

  /** Not a constant that is too wide for an instruction. */
  predicate Small(loc: Location) {
    loc.Const? ==> Immediate(loc.val)
  }

  /** The count of a shift instruction: a constant of 8 bits. */
  predicate IsCount(loc: Location) {
    loc.Const? && 0 <= Encode(loc.val) < 256
  }

  /** `src` and `dst` of a two-operand instruction that writes or compares `dst`. */
  predicate Encodable(src: Location, dst: Location) {
    !dst.Const? && !(src.IsStackOffset() && dst.IsStackOffset())
  }

  // ---------- single instructions ----------

  /** The operation of an arithmetic instruction: `dst := dst op src`. A shift takes its count modulo 64, and to
      the right, as `shr`, it fills with zeros. */
  function Alu(op: BinOp, dst: word, src: word): Option<word> {
    match op
    case Add => Some(Wrap(dst + src))
    case Sub => Some(Wrap(dst - src))
    case Mul => Some(Wrap(dst * src))
    case And | BitAnd => Some(Bitwise(AndBits, dst, src))
    case Or | BitOr => Some(Bitwise(OrBits, dst, src))
    case BitXor => Some(Bitwise(XorBits, dst, src))
    case LeftShift => Some(Wrap(dst * Pow2(src % 64)))
    case RightShift => Some(Wrap(Unsigned(dst) / Pow2(src % 64)))
    case _ => None
  }

  function Compare(dst: word, src: word): Flags {
    var difference := Wrap(dst - src);
    Flags(difference == 0, difference < 0, difference != dst - src)
  }

  predicate Holds(cond: CondFlag, f: Flags)
    requires f.Flags?
  {
    match cond
    case IfEq => f.zero
    case IfNotEq => !f.zero
    case IfGreater => !f.zero && f.sign == f.overflow
    case IfGreaterEq => f.sign == f.overflow
    case IfLess => f.sign != f.overflow
    case IfLessEq => f.zero || f.sign != f.overflow
  }

  /** Only a move to a register takes a constant of 64 bits. */
  function MoveWord(core: Core, src: Location, dst: Location): Option<Core> {
    if !Encodable(src, dst) || !(Small(src) || dst.RegLoc?) then None
    else
      var w :- Read(core, src);
      Write(core, dst, w)
  }

  function PushWord(core: Core, w: word): Option<Core> {
    var top := core.Reg(RSP) - 8;
    if top < 0 || top % 8 != 0 then None
    else Some(core.(regs := core.regs[RSP := top], mem := core.mem[top := w]))
  }

  /** The instructions that only change registers, memory and flags. */
  function StepCore(inst: Instruction, core: Core): Option<Core> {
    match inst
    case Mov(src, dst) => MoveWord(core, src, dst)
    case SizedMov(src, dst, size) => if size == 8 then MoveWord(core, src, dst) else None
    case CondMov(src, dst, cond) =>
      if src.Const? || !dst.RegLoc? || core.flags.Undefined? then None
      else
        var w :- Read(core, src);
        if Holds(cond, core.flags) then Write(core, dst, w) else Some(core)
    case Load(src, dst, _) =>
      if src.NumberedOffset? && dst.RegLoc? then Write(core, dst, Wrap(core.Reg(src.base) - src.offset)) else None
    case Math(src, dst, op) =>
      if !Encodable(src, dst) || !Small(src) || (op.Mul? && !dst.RegLoc?) || (op.IsShift() && !IsCount(src)) then None
      else
        var a :- Read(core, dst);
        var b :- Read(core, src);
        var w :- Alu(op, a, b);
        Write(core.(flags := Undefined), dst, w)
    case Cmp(src, dst) =>
      if !Encodable(src, dst) || !Small(src) then None
      else
        var a :- Read(core, dst);
        var b :- Read(core, src);
        Some(core.(flags := Compare(a, b)))
    case Push(loc, size) =>
      if size != 8 then None
      else
        var w :- Read(core, loc);
        PushWord(core, w)
    case Leave =>
      var base := core.Reg(RBP);
      if Mapped(core, base) && base + 8 <= WORD_MAX
      then Some(core.(regs := core.regs[RBP := core.mem[base]][RSP := base + 8]))
      else None
    case LabelDef(_) | Meta(_) => Some(core)
    case Jmp(_) | CondJmp(_, _) | Return => None
  }

  // ---------- programs ----------

  function FindLabel(program: seq<Instruction>, lbl: Label, from: nat): Option<nat>
    requires from <= |program|
    decreases |program| - from
  {
    if from == |program| then None
    else if program[from] == LabelDef(lbl) then Some(from)
    else FindLabel(program, lbl, from + 1)
  }

  function JumpTo(program: seq<Instruction>, lbl: Label, core: Core): Option<State> {
    var target :- FindLabel(program, lbl, 0);
    Some(Running(target, core))
  }

  /** One machine step. `Return` pops the return address and ends the run of the function. */
  function Step(program: seq<Instruction>, state: State): Option<State> {
    if state.Halted? || state.pc >= |program| then None
    else
      var core := state.core;
      match program[state.pc]
      case Jmp(target) => JumpTo(program, target, core)
      case CondJmp(target, cond) =>
        if core.flags.Undefined? then None
        else if core.flags.zero == cond.JmpEq? then JumpTo(program, target, core)
        else Some(Running(state.pc + 1, core))
      case Return =>
        var top := core.Reg(RSP);
        if Mapped(core, top) && top + 8 <= WORD_MAX
        then Some(Halted(core.(regs := core.regs[RSP := top + 8])))
        else None
      case inst =>
        var next :- StepCore(inst, core);
        Some(Running(state.pc + 1, next))
  }

  function Run(program: seq<Instruction>, state: State, steps: nat): Option<State>
    decreases steps
  {
    if steps == 0 then Some(state)
    else
      var next :- Step(program, state);
      Run(program, next, steps - 1)
  }

  /** Straight-line execution of a piece of code. */
  function RunStraight(code: seq<Instruction>, core: Core): Option<Core> {
    if code == [] then Some(core)
    else
      var next :- StepCore(code[0], core);
      RunStraight(code[1..], next)
  }

  ghost predicate UniqueLabels(program: seq<Instruction>) {
    forall i, j :: 0 <= i < j < |program| && program[i].LabelDef? && program[j].LabelDef? ==>
                     program[i].lbl != program[j].lbl
  }

  // ---------- facts about runs ----------

  lemma {:induction false} RunAppend(program: seq<Instruction>, state: State, n: nat, m: nat)
    requires Run(program, state, n).Some?
    ensures Run(program, state, n + m) == Run(program, Run(program, state, n).value, m)
    decreases n
  {
    if n != 0 {
      RunAppend(program, Step(program, state).value, n - 1, m);
    }
  }

  lemma {:induction false} StraightAppend(a: seq<Instruction>, b: seq<Instruction>, core: Core)
    ensures RunStraight(a + b, core) ==
            (match RunStraight(a, core) case Some(mid) => RunStraight(b, mid) case None => None)
    decreases |a|
  {
    if a == [] {
      assert a + b == b;
    } else {
      assert (a + b)[1..] == a[1..] + b;
      if StepCore(a[0], core).Some? {
        StraightAppend(a[1..], b, StepCore(a[0], core).value);
      }
    }
  }

  /** Straight-line code inside a program runs from its start to its end. */
  lemma {:induction false} StraightRuns(program: seq<Instruction>, at: nat, code: seq<Instruction>, core: Core)
    requires at + |code| <= |program| && program[at..at + |code|] == code
    requires RunStraight(code, core).Some?
    ensures Run(program, Running(at, core), |code|) ==
            Some(Running(at + |code|, RunStraight(code, core).value))
    decreases |code|
  {
    if code != [] {
      assert program[at] == code[0];
      assert program[at + 1..at + 1 + |code[1..]|] == code[1..];
      StraightRuns(program, at + 1, code[1..], StepCore(code[0], core).value);
    }
  }

  lemma {:induction false} FindLabelSkips(program: seq<Instruction>, lbl: Label, from: nat, at: nat)
    requires from <= at < |program| && program[at] == LabelDef(lbl)
    requires forall i :: from <= i < at ==> program[i] != LabelDef(lbl)
    ensures FindLabel(program, lbl, from) == Some(at)
    decreases at - from
  {
    if from != at {
      FindLabelSkips(program, lbl, from + 1, at);
    }
  }

  /** With unique labels a jump reaches the one definition of its label. */
  lemma JumpReaches(program: seq<Instruction>, lbl: Label, at: nat, core: Core)
    requires UniqueLabels(program) && at < |program| && program[at] == LabelDef(lbl)
    ensures JumpTo(program, lbl, core) == Some(Running(at, core))
  {
    FindLabelSkips(program, lbl, 0, at);
  }

  /** A run cannot be continued after it has halted, so the final state is unique. */
  lemma {:induction false} HaltsOnce(program: seq<Instruction>, state: State, n: nat, m: nat)
    requires Run(program, state, n).Some? && Run(program, state, n).value.Halted?
    requires m > n
    ensures Run(program, state, m).None?
  {
    RunAppend(program, state, n, m - n);
    assert Step(program, Run(program, state, n).value).None?;
  }

  /** Sign and overflow of a difference decide the signed order. */
  lemma CompareIsOrder(dst: word, src: word)
    ensures Holds(IfEq, Compare(dst, src)) <==> dst == src
    ensures Holds(IfNotEq, Compare(dst, src)) <==> dst != src
    ensures Holds(IfLess, Compare(dst, src)) <==> dst < src
    ensures Holds(IfLessEq, Compare(dst, src)) <==> dst <= src
    ensures Holds(IfGreater, Compare(dst, src)) <==> dst > src
    ensures Holds(IfGreaterEq, Compare(dst, src)) <==> dst >= src
  {
    var d := dst - src;
    if d > WORD_MAX {
      assert Wrap(d) == d - TWO_64;
    } else if d < WORD_MIN {
      assert Wrap(d) == d + TWO_64;
    }
  }
}
