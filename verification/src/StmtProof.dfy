/** The code of statements simulates their execution: every outcome of the source run is
    matched by the machine, and a source run that goes on keeps the machine running. */
module StmtProof {
  import opened Words
  import opened Lir
  import opened Machine
  import opened AsmSpec
  import opened ExprProof

  // ---------- the statements covered ----------

  predicate ExprOk(e: Expr, types: map<Ident, Ty>) {
    WellTyped(e, types) && Compilable(e) && NoLiteralFirst(e)
  }

  predicate CondOk(e: Expr, types: map<Ident, Ty>) {
    ExprOk(e, types) && e.TypeOf() == Bool && !e.IsLiteral()
  }

  /** A statement without declarations. A loop's condition may also be the literal `true`. */
  predicate StmtOk(s: Stmt, types: map<Ident, Ty>)
    decreases s, 0
  {
    match s
    case Assign(x, t, e, isLet) => !isLet && x in types && types[x] == t && ExprOk(e, types) && e.TypeOf() == t && SmallLiteral(e)
    case If(cond, blk, els) => CondOk(cond, types) && BlockOk(blk, types) && BlockOk(els, types)
    case While(cond, blk) => (CondOk(cond, types) || cond == Value(BoolVal(true))) && BlockOk(blk, types)
    case Ret(e) => ExprOk(e, types)
    case Exit => true
    case _ => false
  }

  predicate BlockOk(stmts: seq<Stmt>, types: map<Ident, Ty>)
    decreases stmts, 1
  {
    stmts == [] || (StmtOk(stmts[0], types) && BlockOk(stmts[1..], types))
  }

  // ---------- code inside a program ----------

  predicate At(program: seq<Instruction>, at: nat, code: seq<Instruction>) {
    at + |code| <= |program| && program[at..at + |code|] == code
  }

  lemma AtSplit(program: seq<Instruction>, at: nat, a: seq<Instruction>, b: seq<Instruction>)
    requires At(program, at, a + b)
    ensures At(program, at, a) && At(program, at + |a|, b)
  {
    var whole := program[at..at + |a + b|];
    assert whole[..|a|] == a && whole[|a|..] == b;
    assert program[at..at + |a|] == whole[..|a|];
    assert program[at + |a|..at + |a| + |b|] == whole[|a|..];
  }

  lemma AtOne(program: seq<Instruction>, at: nat, inst: Instruction)
    requires At(program, at, [inst])
    ensures at < |program| && program[at] == inst
  {
    assert program[at..at + 1][0] == inst;
  }

  lemma CodeRuns(program: seq<Instruction>, at: nat, code: seq<Instruction>, core: Core, after: Core)
    requires At(program, at, code) && RunStraight(code, core) == Some(after)
    ensures Run(program, Running(at, core), |code|) == Some(Running(at + |code|, after))
  {
    StraightRuns(program, at, code, core);
  }

  lemma Chain(program: seq<Instruction>, s: State, n: nat, t: State, m: nat, u: State)
    requires Run(program, s, n) == Some(t) && Run(program, t, m) == Some(u)
    ensures Run(program, s, n + m) == Some(u)
  {
    RunAppend(program, s, n, m);
  }

  lemma NoStep(program: seq<Instruction>, s: State)
    ensures Run(program, s, 0) == Some(s)
  {
  }

  lemma ThenStep(program: seq<Instruction>, s: State, n: nat, t: State, u: State)
    requires Run(program, s, n) == Some(t) && Step(program, t) == Some(u)
    ensures Run(program, s, n + 1) == Some(u)
  {
    assert Run(program, t, 1) == Some(u) by {
      assert Run(program, u, 0) == Some(u);
    }
    Chain(program, s, n, t, 1, u);
  }

  lemma StepLabel(program: seq<Instruction>, at: nat, core: Core)
    requires at < |program| && program[at].LabelDef?
    ensures Run(program, Running(at, core), 1) == Some(Running(at + 1, core))
  {
    ThenStep(program, Running(at, core), 0, Running(at, core), Running(at + 1, core));
  }

  lemma StepJump(program: seq<Instruction>, at: nat, target: nat, core: Core)
    requires UniqueLabels(program) && at < |program| && target < |program|
    requires program[at].Jmp? && program[target] == LabelDef(program[at].target)
    ensures Run(program, Running(at, core), 1) == Some(Running(target, core))
  {
    JumpReaches(program, program[at].target, target, core);
    ThenStep(program, Running(at, core), 0, Running(at, core), Running(target, core));
  }

  /** Jump to a label and past it. */
  lemma JumpPast(program: seq<Instruction>, at: nat, target: nat, core: Core)
    requires UniqueLabels(program) && at < |program| && target < |program|
    requires program[at].Jmp? && program[target] == LabelDef(program[at].target)
    ensures Run(program, Running(at, core), 2) == Some(Running(target + 1, core))
  {
    StepJump(program, at, target, core);
    StepLabel(program, target, core);
    Chain(program, Running(at, core), 1, Running(target, core), 1, Running(target + 1, core));
  }

  lemma BranchTaken(program: seq<Instruction>, at: nat, target: nat, core: Core)
    requires UniqueLabels(program) && at < |program| && target < |program|
    requires program[at].CondJmp? && program[target] == LabelDef(program[at].target)
    requires core.flags.Flags? && core.flags.zero == program[at].jmpCond.JmpEq?
    ensures Run(program, Running(at, core), 2) == Some(Running(target + 1, core))
  {
    JumpReaches(program, program[at].target, target, core);
    ThenStep(program, Running(at, core), 0, Running(at, core), Running(target, core));
    StepLabel(program, target, core);
    Chain(program, Running(at, core), 1, Running(target, core), 1, Running(target + 1, core));
  }

  lemma BranchPassed(program: seq<Instruction>, at: nat, core: Core)
    requires at < |program| && program[at].CondJmp?
    requires core.flags.Flags? && core.flags.zero != program[at].jmpCond.JmpEq?
    ensures Run(program, Running(at, core), 1) == Some(Running(at + 1, core))
  {
    ThenStep(program, Running(at, core), 0, Running(at, core), Running(at + 1, core));
  }

  lemma AtTwo(program: seq<Instruction>, at: nat, first: Instruction, second: Instruction)
    requires At(program, at, [first, second])
    ensures at + 1 < |program| && program[at] == first && program[at + 1] == second
  {
    assert program[at..at + 2][0] == first && program[at..at + 2][1] == second;
  }

  lemma PieceRuns(program: seq<Instruction>, at: nat, code: seq<Instruction>, core: Core)
    requires At(program, at, code) && RunStraight(code, core).Some?
    ensures Run(program, Running(at, core), |code|) == Some(Running(at + |code|, RunStraight(code, core).value))
  {
    StraightRuns(program, at, code, core);
  }

  // ---------- the frame ----------

  /** Where the variables live: in distinct 8-byte slots of the frame. */
  ghost predicate Slots(vars: map<Ident, Location>, names: set<Ident>, size: nat) {
    && (forall x :: x in names ==>
          x in vars && vars[x].NumberedOffset? && vars[x].base == RBP
          && 8 <= vars[x].offset <= size && vars[x].offset % 8 == 0)
    && (forall x, y :: x in names && y in names && x != y ==> vars[x] != vars[y])
  }

  /** The relation between the source environment and the machine inside a function whose
      frame starts at `base`: the caller's frame pointer is at `base`, the return address above. */
  ghost predicate Related(vars: map<Ident, Location>, size: nat, types: map<Ident, Ty>, env: Env, core: Core, base: int) {
    && EnvTyped(env, types) && Slots(vars, types.Keys, size) && Holding(vars, env, core)
    && core.Reg(RBP) == base && core.Reg(RSP) == base - size
    && base - size >= 0 && base + 16 <= WORD_MAX
    && Mapped(core, base) && Mapped(core, base + 8) && size % 8 == 0
  }

  /** Memory from `base` upwards, the caller's part of the stack, is as it was. */
  ghost predicate CallerKept(before: Core, after: Core, base: int) {
    forall a :: a >= base && a in before.mem ==> a in after.mem && after.mem[a] == before.mem[a]
  }

  /** The function has returned to its caller: both stack registers are restored. */
  ghost predicate Left(before: Core, state: State, base: int)
    requires Mapped(before, base)
  {
    && state.Halted?
    && state.core.Reg(RSP) == base + 16
    && state.core.Reg(RBP) == before.mem[base]
    && CallerKept(before, state.core, base)
  }

  lemma FrameMapped(vars: map<Ident, Location>, size: nat, types: map<Ident, Ty>, env: Env, core: Core, base: int)
    requires Related(vars, size, types, env, core, base)
    ensures Mapped(core, base)
  {
  }

  /** How a machine state matches the outcome of the source statements. */
  ghost predicate Matches(outcome: Outcome, vars: map<Ident, Location>, size: nat, types: map<Ident, Ty>,
                          before: Core, state: State, next: nat, base: int, steps: nat, fuel: nat)
    requires Mapped(before, base)
  {
    match outcome
    case Normal(env) =>
      && state.Running? && state.pc == next
      && Related(vars, size, types, env, state.core, base)
      && CallerKept(before, state.core, base)
    case Returned(v) => Left(before, state, base) && state.core.Reg(RAX) == Encode(v)
    case Exited => Left(before, state, base)
    case OutOfFuel => state.Running? && steps >= fuel
    case Wrong => false
  }

  lemma CallerKeptSame(core: Core, base: int)
    ensures CallerKept(core, core, base)
  {
  }

  lemma RelatedKept(vars: map<Ident, Location>, size: nat, types: map<Ident, Ty>, env: Env,
                    before: Core, after: Core, base: int)
    requires Related(vars, size, types, env, before, base) && SameFrame(before, after)
    ensures Related(vars, size, types, env, after, base) && CallerKept(before, after, base)
  {
    HoldingKept(vars, env, before, after);
  }

  /** Storing into the slot of `x` changes exactly `x`. */
  lemma StoreUpdates(vars: map<Ident, Location>, size: nat, types: map<Ident, Ty>, env: Env,
                     x: Ident, v: Val, before: Core, base: int) returns (after: Core)
    requires Related(vars, size, types, env, before, base)
    requires x in types && v.TypeOf() == types[x]
    ensures Write(before, vars[x], Encode(v)) == Some(after)
    ensures after.regs == before.regs
    ensures Related(vars, size, types, env[x := v], after, base) && CallerKept(before, after, base)
  {
    assert Read(before, vars[x]) == Some(Encode(env[x]));
    after := Write(before, vars[x], Encode(v)).value;
    HoldingStore(vars, size, types, env, x, v, before, after);
    hide Holding, Slots;
  }

  lemma HoldingStore(vars: map<Ident, Location>, size: nat, types: map<Ident, Ty>, env: Env, x: Ident, v: Val,
                     before: Core, after: Core)
    requires EnvTyped(env, types) && Slots(vars, types.Keys, size) && Holding(vars, env, before) && x in types
    requires Write(before, vars[x], Encode(v)) == Some(after)
    ensures Holding(vars, env[x := v], after)
  {
    forall y | y in env ensures Read(after, vars[y]) == Some(Encode(env[x := v][y])) {
      hide Read, Write;
      assert vars[x].base == RBP && vars[y].base == RBP;
      StoreReads(vars[x], vars[y], Encode(v), before, after);
    }
  }

  /** A store to one slot of the frame changes what is read there and nothing in another slot. */
  lemma StoreReads(to: Location, from: Location, w: word, before: Core, after: Core)
    requires to.NumberedOffset? && from.NumberedOffset? && to.base == from.base && Write(before, to, w) == Some(after)
    requires Read(before, from).Some?
    ensures Read(after, from) == if from == to then Some(w) else Read(before, from)
  {
  }

  // ---------- simple statements ----------

  lemma ExprRuns(order: Order, vars: map<Ident, Location>, used: set<Register>, e: Expr,
                 types: map<Ident, Ty>, env: Env, core: Core) returns (v: Val, after: Core)
    requires ExprOk(e, types) && EnvTyped(env, types) && Holding(vars, env, core)
    requires BuildValue(order, vars, used, e, Yes).Ok?
    ensures Eval(false, e, env) == Some(v) && v.TypeOf() == e.TypeOf()
    ensures Computes(BuildValue(order, vars, used, e, Yes).value, used, Yes, e.IsLiteral(), v, core, after)
  {
    v, after := BuildValueComputes(order, vars, used, e, Yes, types, env, core);
    NothingFlipped(e);
  }

  lemma SizedMovRuns(core: Core, src: Location, dst: Location, w: word, after: Core)
    requires Read(core, src) == Some(w) && Write(core, dst, w) == Some(after) && Encodable(src, dst)
    requires Small(src) || dst.RegLoc?
    ensures RunStraight([SizedMov(src, dst, 8)], core) == Some(after)
  {
    StraightOne(SizedMov(src, dst, 8), core);
  }

  lemma RegWritten(core: Core, reg: Usable, w: word)
    ensures var after := core.(regs := core.regs[reg := w]);
            Write(core, RegLoc(reg), w) == Some(after) && Read(after, RegLoc(reg)) == Some(w)
  {
  }

  /** A value in a stack slot reaches another slot through a register. */
  lemma SlotToSlotRuns(core: Core, src: Location, reg: Usable, dst: Location, w: word, after: Core)
    requires Read(core, src) == Some(w) && dst.NumberedOffset?
    requires Write(core.(regs := core.regs[reg := w]), dst, w) == Some(after)
    ensures RunStraight([SizedMov(src, RegLoc(reg), 8), SizedMov(RegLoc(reg), dst, 8)], core) == Some(after)
  {
    hide RunStraight, Write, Read;
    var mid := core.(regs := core.regs[reg := w]);
    RegWritten(core, reg, w);
    SizedMovRuns(core, src, RegLoc(reg), w, mid);
    SizedMovRuns(mid, RegLoc(reg), dst, w, after);
    StraightAppend([SizedMov(src, RegLoc(reg), 8)], [SizedMov(RegLoc(reg), dst, 8)], core);
    assert [SizedMov(src, RegLoc(reg), 8)] + [SizedMov(RegLoc(reg), dst, 8)]
        == [SizedMov(src, RegLoc(reg), 8), SizedMov(RegLoc(reg), dst, 8)];
  }

  lemma EncodeInjective(a: Val, b: Val)
    requires a.TypeOf() == b.TypeOf() && Encode(a) == Encode(b)
    ensures a == b
  {
  }

  /** The move that ends an assignment stores the value. */
  lemma StoreRuns(order: Order, frame: Frame, types: map<Ident, Ty>, env: Env, x: Ident, rloc: Location, v: Val,
                  core: Core, base: int) returns (after: Core)
    requires Related(frame.vars, frame.currentStack, types, env, core, base)
    requires x in types && v.TypeOf() == types[x]
    requires Operand(rloc, frame.used) && Read(core, rloc) == Some(Encode(v)) && Small(rloc)
    requires StoreTo(order, frame, frame.vars[x], rloc).Ok?
    ensures RunStraight(StoreTo(order, frame, frame.vars[x], rloc).value.code, core) == Some(after)
    ensures Related(frame.vars, frame.currentStack, types, env[x := v], after, base) && CallerKept(core, after, base)
  {
    var lloc := frame.vars[x];
    SlotOf(frame.vars, frame.currentStack, types, env, x, core, base);
    hide Related, RunStraight, FreeReg, Write, Read;
    if lloc == rloc {
      EncodeInjective(env[x], v);
      assert env[x := v] == env;
      after := core;
      StraightNone(core);
      CallerKeptSame(core, base);
    } else if rloc.IsStackOffset() {
      var reg := FreeReg(order, frame.used).value;
      var mid := core.(regs := core.regs[reg := Encode(v)]);
      RelatedKept(frame.vars, frame.currentStack, types, env, core, mid, base);
      after := StoreUpdates(frame.vars, frame.currentStack, types, env, x, v, mid, base);
      SlotToSlotRuns(core, rloc, reg, lloc, Encode(v), after);
    } else {
      after := StoreUpdates(frame.vars, frame.currentStack, types, env, x, v, core, base);
      SizedMovRuns(core, rloc, lloc, Encode(v), after);
    }
  }

  lemma SlotOf(vars: map<Ident, Location>, size: nat, types: map<Ident, Ty>, env: Env, x: Ident, core: Core, base: int)
    requires Related(vars, size, types, env, core, base) && x in types
    ensures x in env && env[x].TypeOf() == types[x]
    ensures x in vars && vars[x].NumberedOffset? && Read(core, vars[x]) == Some(Encode(env[x]))
  {
  }

  lemma AssignRuns(order: Order, frame: Frame, x: Ident, e: Expr, types: map<Ident, Ty>, env: Env, core: Core, base: int)
    returns (after: Core)
    requires x in types && ExprOk(e, types) && e.TypeOf() == types[x] && SmallLiteral(e)
    requires Related(frame.vars, frame.currentStack, types, env, core, base)
    requires AssignCode(order, frame, x, e, false).Ok?
    ensures RunStraight(AssignCode(order, frame, x, e, false).value.code, core) == Some(after)
    ensures Eval(false, e, env).Some?
    ensures Related(frame.vars, frame.currentStack, types, env[x := Eval(false, e, env).value], after, base)
    ensures CallerKept(core, after, base)
  {
    hide BuildValue, StoreTo, RunStraight, Slots, ExprOk, StepCore, Eval;
    var built := BuildValue(order, frame.vars, frame.used, e, Yes).value;
    var v, mid := ExprRuns(order, frame.vars, frame.used, e, types, env, core);
    RelatedKept(frame.vars, frame.currentStack, types, env, core, mid, base);
    var next := frame.(used := built.used);
    SmallBuilt(order, frame.vars, frame.used, e, Yes);
    after := StoreRuns(order, next, types, env, x, built.loc, v, mid, base);
    var store := StoreTo(order, next, frame.vars[x], built.loc).value;
    StraightAppend(built.code, store.code, core);
    assert [] + built.code + store.code == built.code + store.code;
  }

  /** `leave; ret` gives control and both stack registers back to the caller. */
  lemma LeaveRuns(program: seq<Instruction>, at: nat, vars: map<Ident, Location>, size: nat, types: map<Ident, Ty>,
                  env: Env, core: Core, base: int) returns (state: State)
    requires At(program, at, [Leave, Return])
    requires Related(vars, size, types, env, core, base)
    ensures Run(program, Running(at, core), 2) == Some(state)
    ensures Left(core, state, base) && state.core.Reg(RAX) == core.Reg(RAX)
  {
    AtSplit(program, at, [Leave], [Return]);
    AtOne(program, at, Leave);
    AtOne(program, at + 1, Return);
    var mid := core.(regs := core.regs[RBP := core.mem[base]][RSP := base + 8]);
    assert Step(program, Running(at, core)) == Some(Running(at + 1, mid));
    state := Halted(mid.(regs := mid.regs[RSP := base + 16]));
    assert Step(program, Running(at + 1, mid)) == Some(state);
    ThenStep(program, Running(at, core), 0, Running(at, core), Running(at + 1, mid));
    ThenStep(program, Running(at, core), 1, Running(at + 1, mid), state);
  }

  /** The value of a returned expression arrives in RAX. */
  lemma RetValueRuns(order: Order, frame: Frame, e: Expr, types: map<Ident, Ty>, env: Env, core: Core, base: int)
    returns (v: Val, after: Core)
    requires ExprOk(e, types) && Related(frame.vars, frame.currentStack, types, env, core, base)
    requires BuildValue(order, frame.vars, frame.used, e, Yes).Ok?
    ensures Eval(false, e, env) == Some(v)
    ensures var built := BuildValue(order, frame.vars, frame.used, e, Yes).value;
            RunStraight(built.code + (if built.loc == RegLoc(RAX) then [] else [Mov(built.loc, RegLoc(RAX))]), core) == Some(after)
    ensures Related(frame.vars, frame.currentStack, types, env, after, base) && CallerKept(core, after, base)
    ensures after.Reg(RAX) == Encode(v)
  {
    var built := BuildValue(order, frame.vars, frame.used, e, Yes).value;
    var mid;
    v, mid := ExprRuns(order, frame.vars, frame.used, e, types, env, core);
    if built.loc == RegLoc(RAX) {
      after := mid;
      assert built.code + [] == built.code;
    } else {
      MoveToRegRuns(mid, built.loc, RAX);
      StraightOne(Mov(built.loc, RegLoc(RAX)), mid);
      after := mid.(regs := mid.regs[RAX := Encode(v)]);
      StraightAppend(built.code, [Mov(built.loc, RegLoc(RAX))], core);
    }
    RelatedKept(frame.vars, frame.currentStack, types, env, core, after, base);
  }

  lemma RetRuns(order: Order, frame: Frame, e: Expr, program: seq<Instruction>, at: nat,
                types: map<Ident, Ty>, env: Env, core: Core, base: int) returns (n: nat, state: State)
    requires ExprOk(e, types) && Related(frame.vars, frame.currentStack, types, env, core, base)
    requires RetCode(order, frame, e).Ok? && At(program, at, RetCode(order, frame, e).value.code)
    ensures Run(program, Running(at, core), n) == Some(state)
    ensures Eval(false, e, env).Some?
    ensures Left(core, state, base) && state.core.Reg(RAX) == Encode(Eval(false, e, env).value)
  {
    hide Run, RunStraight, BuildValue, StepCore, ExprOk, Eval;
    var v, done := RetValueRuns(order, frame, e, types, env, core, base);
    var built := BuildValue(order, frame.vars, frame.used, e, Yes).value;
    var code := built.code + (if built.loc == RegLoc(RAX) then [] else [Mov(built.loc, RegLoc(RAX))]);
    AtSplit(program, at, code, [Leave, Return]);
    StraightRuns(program, at, code, core);
    state := LeaveRuns(program, at + |code|, frame.vars, frame.currentStack, types, env, done, base);
    Chain(program, Running(at, core), |code|, Running(at + |code|, done), 2, state);
    n := |code| + 2;
  }

  /** Building a condition and comparing it with one leaves its truth in the zero flag. */
  lemma CondRuns(order: Order, frame: Frame, cond: Expr, types: map<Ident, Ty>, env: Env, core: Core, base: int)
    returns (b: bool, after: Core)
    requires CondOk(cond, types) && Related(frame.vars, frame.currentStack, types, env, core, base)
    requires CondCode(order, frame, cond).Ok?
    ensures Eval(false, cond, env) == Some(BoolVal(b))
    ensures RunStraight(CondCode(order, frame, cond).value.code, core) == Some(after)
    ensures var f := CondCode(order, frame, cond).value.frame;
            f.vars == frame.vars && f.currentStack == frame.currentStack
    ensures after.flags.Flags? && after.flags.zero == b
    ensures Mapped(core, base) && Mapped(after, base)
    ensures Related(frame.vars, frame.currentStack, types, env, after, base) && CallerKept(core, after, base)
  {
    hide RunStraight, BuildValue, Eval, Related, StepCore, CallerKept, ExprOk;
    var built := BuildValue(order, frame.vars, frame.used, cond, Yes).value;
    HoldingIn(frame.vars, frame.currentStack, types, env, core, base);
    var v, mid := ExprRuns(order, frame.vars, frame.used, cond, types, env, core);
    b := v.b;
    after := mid.(flags := Compare(Encode(v), 1));
    TruthCompared(built.loc, b, mid);
    StraightAppend(built.code, [Cmp(ONE, built.loc)], core);
    RelatedKept(frame.vars, frame.currentStack, types, env, core, after, base);
    FrameMapped(frame.vars, frame.currentStack, types, env, core, base);
    FrameMapped(frame.vars, frame.currentStack, types, env, after, base);
  }

  lemma HoldingIn(vars: map<Ident, Location>, size: nat, types: map<Ident, Ty>, env: Env, core: Core, base: int)
    requires Related(vars, size, types, env, core, base)
    ensures EnvTyped(env, types) && Holding(vars, env, core)
  {
  }

  /** Comparing the encoding of a truth value with one. */
  lemma TruthCompared(loc: Location, b: bool, core: Core)
    requires Read(core, loc) == Some(Encode(BoolVal(b))) && !loc.Const?
    ensures var after := core.(flags := Compare(Encode(BoolVal(b)), 1));
            RunStraight([Cmp(ONE, loc)], core) == Some(after) && after.flags.zero == b
  {
    CompareIsOrder(Encode(BoolVal(b)), 1);
    StraightOne(Cmp(ONE, loc), core);
  }

  /** No declaration and no pattern, at any depth. */
  predicate DeclaresNothing(s: Stmt)
    decreases s, 0
  {
    match s
    case Assign(_, _, _, isLet) => !isLet
    case If(_, blk, els) => NothingIn(blk) && NothingIn(els)
    case While(_, blk) => NothingIn(blk)
    case Ret(_) | Exit | SetItem(_, _, _) | SetField(_, _, _, _) => true
    case _ => false
  }

  predicate NothingIn(stmts: seq<Stmt>)
    decreases stmts, 1
  {
    stmts == [] || (DeclaresNothing(stmts[0]) && NothingIn(stmts[1..]))
  }

  lemma {:induction false} CoveredDeclaresNothing(s: Stmt, types: map<Ident, Ty>)
    requires StmtOk(s, types)
    ensures DeclaresNothing(s)
    decreases s, 0
  {
    hide CondOk, ExprOk;
    match s
    case If(_, blk, els) =>
      CoveredBlock(blk, types);
      CoveredBlock(els, types);
    case While(_, blk) => CoveredBlock(blk, types);
    case _ =>
  }

  lemma {:induction false} CoveredBlock(stmts: seq<Stmt>, types: map<Ident, Ty>)
    requires BlockOk(stmts, types)
    ensures NothingIn(stmts)
    decreases stmts, 1
  {
    if stmts != [] {
      CoveredDeclaresNothing(stmts[0], types);
      CoveredBlock(stmts[1..], types);
    }
  }

  /** Statements that declare nothing change only the used registers of the generator's frame. */
  lemma {:induction false} FrameStays(order: Order, frame: Frame, at: nat, stmt: Stmt)
    requires DeclaresNothing(stmt) && StmtCode(order, frame, at, stmt).Ok?
    ensures var f := StmtCode(order, frame, at, stmt).value.frame; f == frame.(used := f.used)
    decreases stmt, 0
  {
    hide BuildValue, BlockCode, NothingIn, IndexArr, FieldAddress;
    match stmt
    case If(cond, blk, els) =>
      var test := CondCode(order, frame, cond).value;
      var elseAt := at + |test.code|;
      BlockFrameStays(order, test.frame, elseAt + 1, blk);
      var thn := BlockCode(order, test.frame, elseAt + 1, blk).value;
      BlockFrameStays(order, thn.frame, elseAt + 1 + |thn.code| + 2, els);
    case While(cond, blk) =>
      BlockFrameStays(order, frame, at + 2, blk);
    case _ =>
  }

  lemma {:induction false} BlockFrameStays(order: Order, frame: Frame, at: nat, stmts: seq<Stmt>)
    requires NothingIn(stmts) && BlockCode(order, frame, at, stmts).Ok?
    ensures var f := BlockCode(order, frame, at, stmts).value.frame; f == frame.(used := f.used)
    decreases stmts, 1
  {
    hide StmtCode, DeclaresNothing;
    if stmts != [] {
      FrameStays(order, frame, at, stmts[0]);
      var first := StmtCode(order, frame, at, stmts[0]).value;
      BlockFrameStays(order, first.frame, at + |first.code|, stmts[1..]);
    }
  }

  // ---------- the simulation ----------

  // In what follows `at` is the number from which the generator counts labels and `pos` the place of the
  // code in the program. They differ for the blocks of a `match`, which get buffers of their own.

  /** A caller's view composes: first `before` to `mid`, then `mid` to the final state. */
  lemma MatchesLater(outcome: Outcome, vars: map<Ident, Location>, size: nat, types: map<Ident, Ty>, before: Core,
                     mid: Core, state: State, next: nat, base: int, steps: nat, more: nat, fuel: nat, moreFuel: nat)
    requires Mapped(before, base) && Mapped(mid, base)
    requires CallerKept(before, mid, base)
    requires Matches(outcome, vars, size, types, mid, state, next, base, steps, fuel)
    requires moreFuel <= fuel + more
    ensures Matches(outcome, vars, size, types, before, state, next, base, steps + more, moreFuel)
  {
  }

  lemma {:induction false} StmtRuns(
      order: Order, frame: Frame, at: nat, pos: nat, stmt: Stmt, program: seq<Instruction>,
      types: map<Ident, Ty>, env: Env, core: Core, base: int, fuel: nat) returns (n: nat, state: State)
    requires StmtOk(stmt, types) && StmtCode(order, frame, at, stmt).Ok?
    requires At(program, pos, StmtCode(order, frame, at, stmt).value.code) && UniqueLabels(program)
    requires Related(frame.vars, frame.currentStack, types, env, core, base)
    ensures Run(program, Running(pos, core), n) == Some(state)
    ensures Matches(Exec(stmt, env, fuel), frame.vars, frame.currentStack, types, core, state,
                    pos + |StmtCode(order, frame, at, stmt).value.code|, base, n, fuel)
    decreases fuel, stmt, 2
  {
    hide Run, RunStraight, BuildValue, Related, CallerKept, UniqueLabels, BlockOk, BlockCode, StepCore, Eval, ExprOk, ExecBlock;
    FrameMapped(frame.vars, frame.currentStack, types, env, core, base);
    match stmt
    case Assign(x, _, e, _) =>
      var code := StmtCode(order, frame, at, stmt).value.code;
      var after := AssignRuns(order, frame, x, e, types, env, core, base);
      StraightRuns(program, pos, code, core);
      n, state := |code|, Running(pos + |code|, after);
    case If(cond, blk, els) =>
      n, state := IfRuns(order, frame, at, pos, cond, blk, els, program, types, env, core, base, fuel);
    case While(cond, blk) =>
      n, state := WhileRuns(order, frame, at, pos, cond, blk, program, types, env, core, base, fuel);
    case Ret(e) =>
      n, state := RetRuns(order, frame, e, program, pos, types, env, core, base);
    case Exit =>
      state := LeaveRuns(program, pos, frame.vars, frame.currentStack, types, env, core, base);
      n := 2;
  }

  lemma {:induction false} BlockRuns(
      order: Order, frame: Frame, at: nat, pos: nat, stmts: seq<Stmt>, program: seq<Instruction>,
      types: map<Ident, Ty>, env: Env, core: Core, base: int, fuel: nat) returns (n: nat, state: State)
    requires BlockOk(stmts, types) && BlockCode(order, frame, at, stmts).Ok?
    requires At(program, pos, BlockCode(order, frame, at, stmts).value.code) && UniqueLabels(program)
    requires Related(frame.vars, frame.currentStack, types, env, core, base)
    ensures Run(program, Running(pos, core), n) == Some(state)
    ensures Matches(ExecBlock(stmts, env, fuel), frame.vars, frame.currentStack, types, core, state,
                    pos + |BlockCode(order, frame, at, stmts).value.code|, base, n, fuel)
    decreases fuel, stmts, 3
  {
    hide Run, StmtCode, StmtOk, Related, CallerKept, UniqueLabels, At, Left, Exec;
    FrameMapped(frame.vars, frame.currentStack, types, env, core, base);
    if stmts == [] {
      n, state := 0, Running(pos, core);
      NoStep(program, state);
      CallerKeptSame(core, base);
    } else {
      var first := StmtCode(order, frame, at, stmts[0]).value;
      var rest := BlockCode(order, first.frame, at + |first.code|, stmts[1..]).value;
      AtSplit(program, pos, first.code, rest.code);
      CoveredDeclaresNothing(stmts[0], types);
      FrameStays(order, frame, at, stmts[0]);
      n, state := StmtRuns(order, frame, at, pos, stmts[0], program, types, env, core, base, fuel);
      var outcome := Exec(stmts[0], env, fuel);
      if outcome.Normal? {
        var m, final := BlockRuns(order, first.frame, at + |first.code|, pos + |first.code|, stmts[1..], program, types, outcome.env,
                                  state.core, base, fuel);
        Chain(program, Running(pos, core), n, state, m, final);
        FrameMapped(frame.vars, frame.currentStack, types, outcome.env, state.core, base);
        MatchesLater(ExecBlock(stmts[1..], outcome.env, fuel), frame.vars, frame.currentStack, types, core, state.core,
                     final, pos + |first.code| + |rest.code|, base, m, n, fuel, fuel);
        n, state := n + m, final;
      }
    }
  }

  lemma {:induction false} IfRuns(
      order: Order, frame: Frame, at: nat, pos: nat, cond: Expr, blk: seq<Stmt>, els: seq<Stmt>, program: seq<Instruction>,
      types: map<Ident, Ty>, env: Env, core: Core, base: int, fuel: nat) returns (n: nat, state: State)
    requires StmtOk(If(cond, blk, els), types) && StmtCode(order, frame, at, If(cond, blk, els)).Ok?
    requires At(program, pos, StmtCode(order, frame, at, If(cond, blk, els)).value.code) && UniqueLabels(program)
    requires Related(frame.vars, frame.currentStack, types, env, core, base)
    ensures Run(program, Running(pos, core), n) == Some(state)
    ensures Matches(Exec(If(cond, blk, els), env, fuel), frame.vars, frame.currentStack, types, core, state,
                    pos + |StmtCode(order, frame, at, If(cond, blk, els)).value.code|, base, n, fuel)
    decreases fuel, If(cond, blk, els), 1
  {
    hide Run, RunStraight, BuildValue, StepCore, ExprOk, Eval, Related, CondCode, BlockCode, UniqueLabels, At, Matches, BlockOk,
         CondOk, CallerKept;
    var test := CondCode(order, frame, cond).value;
    var elseAt, elsePos := at + |test.code|, pos + |test.code|;
    var thn := BlockCode(order, test.frame, elseAt + 1, blk).value;
    var mergeAt, mergePos := elseAt + 1 + |thn.code|, elsePos + 1 + |thn.code|;
    var otherwise := BlockCode(order, thn.frame, mergeAt + 2, els).value;
    var endPos := mergePos + 2 + |otherwise.code|;
    IfLayout(program, at, pos, test.code, thn.code, otherwise.code);
    CoveredBlock(blk, types);
    BlockFrameStays(order, test.frame, elseAt + 1, blk);
    var b, tested := CondRuns(order, frame, cond, types, env, core, base);
    PieceRuns(program, pos, test.code, core);
    var k := Enters(program, pos, core, |test.code|, elsePos, mergePos + 1, tested, b);
    var m, outcome, mid;
    if b {
      m, mid := BlockRuns(order, test.frame, elseAt + 1, elsePos + 1, blk, program, types, env, tested, base, fuel);
      outcome := ExecBlock(blk, env, fuel);
    } else {
      m, mid := BlockRuns(order, thn.frame, mergeAt + 2, mergePos + 2, els, program, types, env, tested, base, fuel);
      outcome := ExecBlock(els, env, fuel);
    }
    var entered := Running(if b then elsePos + 1 else mergePos + 2, tested);
    var leaving := if b then mergePos else endPos;
    Chain(program, Running(pos, core), k, entered, m, mid);
    MatchesLater(outcome, frame.vars, frame.currentStack, types, core, tested, mid, leaving, base, m, k, fuel, fuel);
    var j;
    j, state := JoinRuns(program, leaving, endPos, b, outcome, frame.vars, frame.currentStack, types, core, mid, base, m + k, fuel);
    Chain(program, Running(pos, core), k + m, mid, j, state);
    n := k + m + j;
  }

  /** After the test control falls into the first branch or jumps to the label of the second. */
  lemma Enters(program: seq<Instruction>, pos: nat, core: Core, length: nat, elsePos: nat, lbl: nat, tested: Core, b: bool)
    returns (k: nat)
    requires UniqueLabels(program) && elsePos < |program| && lbl < |program|
    requires Run(program, Running(pos, core), length) == Some(Running(elsePos, tested))
    requires program[elsePos].CondJmp? && program[lbl] == LabelDef(program[elsePos].target)
    requires tested.flags.Flags? && b == (tested.flags.zero != program[elsePos].jmpCond.JmpEq?)
    ensures Run(program, Running(pos, core), k) == Some(Running(if b then elsePos + 1 else lbl + 1, tested))
  {
    hide Run, UniqueLabels;
    if b {
      k := length + 1;
      BranchPassed(program, elsePos, tested);
      Chain(program, Running(pos, core), length, Running(elsePos, tested), 1, Running(elsePos + 1, tested));
    } else {
      k := length + 2;
      BranchTaken(program, elsePos, lbl, tested);
      Chain(program, Running(pos, core), length, Running(elsePos, tested), 2, Running(lbl + 1, tested));
    }
  }

  /** The end of a conditional: the first branch jumps over the second, both meet after the label. */
  lemma JoinRuns(program: seq<Instruction>, leaving: nat, endAt: nat, jumps: bool, outcome: Outcome,
                 vars: map<Ident, Location>, size: nat, types: map<Ident, Ty>, before: Core, mid: State,
                 base: int, steps: nat, fuel: nat) returns (j: nat, state: State)
    requires Mapped(before, base) && UniqueLabels(program)
    requires Matches(outcome, vars, size, types, before, mid, leaving, base, steps, fuel)
    requires endAt < |program| && program[endAt].LabelDef?
    requires if jumps then leaving < |program| && program[leaving] == Jmp(program[endAt].lbl) else leaving == endAt
    ensures Run(program, mid, j) == Some(state)
    ensures Matches(outcome, vars, size, types, before, state, endAt + 1, base, steps + j, fuel)
  {
    if !outcome.Normal? {
      j, state := 0, mid;
    } else {
      state := Running(endAt + 1, mid.core);
      if jumps {
        j := 2;
        JumpPast(program, leaving, endAt, mid.core);
      } else {
        j := 1;
        StepLabel(program, endAt, mid.core);
      }
    }
  }

  /** Where the pieces of a conditional are. */
  lemma IfLayout(program: seq<Instruction>, at: nat, pos: nat, test: seq<Instruction>, thn: seq<Instruction>,
                 otherwise: seq<Instruction>)
    requires var elseAt := at + |test|; var mergeAt := elseAt + 1 + |thn|;
             At(program, pos, test + [CondJmp(JmpIf(elseAt), JmpNotEq)] + thn
                              + [Jmp(MergeIf(mergeAt)), LabelDef(JmpIf(elseAt))] + otherwise + [LabelDef(MergeIf(mergeAt))])
    ensures var elseAt, elsePos := at + |test|, pos + |test|;
            var mergeAt, mergePos := elseAt + 1 + |thn|, elsePos + 1 + |thn|;
            var endPos := mergePos + 2 + |otherwise|;
            && At(program, pos, test) && At(program, elsePos + 1, thn) && At(program, mergePos + 2, otherwise)
            && endPos < |program|
            && program[elsePos] == CondJmp(JmpIf(elseAt), JmpNotEq)
            && program[mergePos] == Jmp(MergeIf(mergeAt)) && program[mergePos + 1] == LabelDef(JmpIf(elseAt))
            && program[endPos] == LabelDef(MergeIf(mergeAt))
  {
    var elseAt, elsePos := at + |test|, pos + |test|;
    var mergeAt, mergePos := elseAt + 1 + |thn|, elsePos + 1 + |thn|;
    var jump, join, last := CondJmp(JmpIf(elseAt), JmpNotEq), [Jmp(MergeIf(mergeAt)), LabelDef(JmpIf(elseAt))], LabelDef(MergeIf(mergeAt));
    hide At;
    SixPieces(program, pos, test, [jump], thn, join, otherwise, [last]);
    AtOne(program, elsePos, jump);
    AtTwo(program, mergePos, Jmp(MergeIf(mergeAt)), LabelDef(JmpIf(elseAt)));
    AtOne(program, mergePos + 2 + |otherwise|, last);
  }

  lemma SixPieces(program: seq<Instruction>, pos: nat, a: seq<Instruction>, b: seq<Instruction>, c: seq<Instruction>,
                  d: seq<Instruction>, e: seq<Instruction>, f: seq<Instruction>)
    requires At(program, pos, a + b + c + d + e + f)
    ensures At(program, pos, a) && At(program, pos + |a|, b) && At(program, pos + |a| + |b|, c)
    ensures At(program, pos + |a| + |b| + |c|, d) && At(program, pos + |a| + |b| + |c| + |d|, e)
    ensures At(program, pos + |a| + |b| + |c| + |d| + |e|, f)
  {
    AtSplit(program, pos, a + b + c + d + e, f);
    AtSplit(program, pos, a + b + c + d, e);
    AtSplit(program, pos, a + b + c, d);
    AtSplit(program, pos, a + b, c);
    AtSplit(program, pos, a, b);
  }

  /** Where the pieces of a loop are. */
  lemma WhileLayout(program: seq<Instruction>, at: nat, pos: nat, body: seq<Instruction>, test: seq<Instruction>)
    requires At(program, pos, [Jmp(UncondWhile(at)), LabelDef(JmpWhile(at + 1))] + body + [LabelDef(UncondWhile(at))] + test)
    ensures var testPos := pos + 2 + |body|;
            && testPos < |program|
            && program[pos] == Jmp(UncondWhile(at)) && program[pos + 1] == LabelDef(JmpWhile(at + 1))
            && program[testPos] == LabelDef(UncondWhile(at))
            && At(program, pos + 2, body) && At(program, testPos + 1, test)
  {
    var head, mid := [Jmp(UncondWhile(at)), LabelDef(JmpWhile(at + 1))], LabelDef(UncondWhile(at));
    AtSplit(program, pos, head + body + [mid], test);
    AtSplit(program, pos, head + body, [mid]);
    AtSplit(program, pos, head, body);
    AtOne(program, pos + 2 + |body|, mid);
    assert head == [head[0]] + [head[1]];
    AtSplit(program, pos, [head[0]], [head[1]]);
    AtOne(program, pos, head[0]);
    AtOne(program, pos + 1, head[1]);
  }

  lemma {:induction false} WhileRuns(
      order: Order, frame: Frame, at: nat, pos: nat, cond: Expr, blk: seq<Stmt>, program: seq<Instruction>,
      types: map<Ident, Ty>, env: Env, core: Core, base: int, fuel: nat) returns (n: nat, state: State)
    requires StmtOk(While(cond, blk), types) && StmtCode(order, frame, at, While(cond, blk)).Ok?
    requires At(program, pos, StmtCode(order, frame, at, While(cond, blk)).value.code) && UniqueLabels(program)
    requires Related(frame.vars, frame.currentStack, types, env, core, base)
    ensures Run(program, Running(pos, core), n) == Some(state)
    ensures Matches(Exec(While(cond, blk), env, fuel), frame.vars, frame.currentStack, types, core, state,
                    pos + |StmtCode(order, frame, at, While(cond, blk)).value.code|, base, n, fuel)
    decreases fuel, While(cond, blk), 1
  {
    hide Run, BlockCode, LoopTest, StmtOk, Holding, Slots, UniqueLabels, At, Exec, Left;
    var body := BlockCode(order, frame, at + 2, blk).value;
    var test := LoopTest(order, body.frame, cond, JmpWhile(at + 1)).value;
    WhileLayout(program, at, pos, body.code, test.code);
    var testPos := pos + 2 + |body.code|;
    StepJump(program, pos, testPos, core);
    var m;
    m, state := LoopRuns(order, frame, at, pos, cond, blk, body, test, program, types, env, core, base, fuel);
    Chain(program, Running(pos, core), 1, Running(testPos, core), m, state);
    n := 1 + m;
    MatchesLater(Exec(While(cond, blk), env, fuel), frame.vars, frame.currentStack, types, core, core, state,
                 testPos + 1 + |test.code|, base, m, 1, fuel, fuel);
  }

  /** The loop that `gen_statement` lays out: its body and its test. */
  ghost predicate LoopAt(order: Order, frame: Frame, at: nat, pos: nat, cond: Expr, blk: seq<Stmt>, body: Emitted, test: Emitted,
                         program: seq<Instruction>, types: map<Ident, Ty>) {
    && StmtOk(While(cond, blk), types) && UniqueLabels(program)
    && BlockCode(order, frame, at + 2, blk) == Ok(body)
    && LoopTest(order, body.frame, cond, JmpWhile(at + 1)) == Ok(test)
    && At(program, pos, [Jmp(UncondWhile(at)), LabelDef(JmpWhile(at + 1))] + body.code + [LabelDef(UncondWhile(at))] + test.code)
  }

  /** From the label at the bottom of the loop: evaluate the condition, then leave the loop or
      run the body and come back. */
  lemma {:induction false} LoopRuns(
      order: Order, frame: Frame, at: nat, pos: nat, cond: Expr, blk: seq<Stmt>, body: Emitted, test: Emitted,
      program: seq<Instruction>, types: map<Ident, Ty>, env: Env, core: Core, base: int, fuel: nat)
    returns (n: nat, state: State)
    requires LoopAt(order, frame, at, pos, cond, blk, body, test, program, types)
    requires Related(frame.vars, frame.currentStack, types, env, core, base)
    ensures Run(program, Running(pos + 2 + |body.code|, core), n) == Some(state)
    ensures Matches(Exec(While(cond, blk), env, fuel), frame.vars, frame.currentStack, types, core, state,
                    pos + 2 + |body.code| + 1 + |test.code|, base, n, fuel)
    decreases fuel, While(cond, blk), 0
  {
    hide Run, BlockCode, LoopTest, Related, CallerKept, UniqueLabels, At, Left, Eval, CondOk, BlockOk;
    FrameMapped(frame.vars, frame.currentStack, types, env, core, base);
    var testPos := pos + 2 + |body.code|;
    var endAt := testPos + 1 + |test.code|;
    if fuel == 0 {
      n, state := 0, Running(testPos, core);
      NoStep(program, state);
      return;
    }
    var m, b, tested := TestRuns(order, frame, at, pos, cond, blk, body, test, program, types, env, core, base);
    if !b {
      n, state := m, Running(endAt, tested);
    } else {
      FrameMapped(frame.vars, frame.currentStack, types, env, tested, base);
      WhileLayout(program, at, pos, body.code, test.code);
      var k, mid := BlockRuns(order, frame, at + 2, pos + 2, blk, program, types, env, tested, base, fuel - 1);
      var round := ExecBlock(blk, env, fuel - 1);
      Chain(program, Running(testPos, core), m, Running(pos + 2, tested), k, mid);
      MatchesLater(round, frame.vars, frame.currentStack, types, core, tested, mid, testPos, base, k, m, fuel - 1, fuel);
      n, state := m + k, mid;
      if round.Normal? {
        FrameMapped(frame.vars, frame.currentStack, types, round.env, mid.core, base);
        var j, final := LoopRuns(order, frame, at, pos, cond, blk, body, test, program, types, round.env, mid.core, base, fuel - 1);
        Chain(program, Running(testPos, core), n, mid, j, final);
        MatchesLater(Exec(While(cond, blk), round.env, fuel - 1), frame.vars, frame.currentStack, types, core, mid.core,
                     final, endAt, base, j, n, fuel - 1, fuel);
        n, state := n + j, final;
      }
    }
  }

  /** The test of a loop takes at least one step and goes to the body or past the loop. */
  lemma TestRuns(
      order: Order, frame: Frame, at: nat, pos: nat, cond: Expr, blk: seq<Stmt>, body: Emitted, test: Emitted,
      program: seq<Instruction>, types: map<Ident, Ty>, env: Env, core: Core, base: int)
    returns (n: nat, b: bool, after: Core)
    requires LoopAt(order, frame, at, pos, cond, blk, body, test, program, types)
    requires Related(frame.vars, frame.currentStack, types, env, core, base)
    ensures Eval(false, cond, env) == Some(BoolVal(b))
    ensures n >= 1
    ensures var testPos := pos + 2 + |body.code|;
            Run(program, Running(testPos, core), n) == Some(Running(if b then pos + 2 else testPos + 1 + |test.code|, after))
    ensures Related(frame.vars, frame.currentStack, types, env, after, base) && CallerKept(core, after, base)
  {
    hide Run, BlockCode, CondCode, Related, CallerKept, UniqueLabels, At, BlockOk, ExprOk, RunStraight, StepCore;
    WhileLayout(program, at, pos, body.code, test.code);
    CoveredBlock(blk, types);
    BlockFrameStays(order, frame, at + 2, blk);
    var testPos := pos + 2 + |body.code|;
    StepLabel(program, testPos, core);
    if IsConstTrue(cond) {
      b, after, n := true, core, 3;
      CallerKeptSame(core, base);
      AtOne(program, testPos + 1, Jmp(JmpWhile(at + 1)));
      JumpPast(program, testPos + 1, pos + 1, core);
      Chain(program, Running(testPos, core), 1, Running(testPos + 1, core), 2, Running(pos + 2, core));
    } else {
      var k;
      b, k, after := BranchRuns(order, body.frame, cond, program, testPos + 1, pos + 1, types, env, core, base);
      Chain(program, Running(testPos, core), 1, Running(testPos + 1, core), k,
            Running(if b then pos + 2 else testPos + 1 + |test.code|, after));
      n := 1 + k;
    }
  }

  /** Evaluate a condition and jump past the label at `target` when it is true. */
  lemma BranchRuns(order: Order, frame: Frame, cond: Expr, program: seq<Instruction>, at: nat, target: nat,
                   types: map<Ident, Ty>, env: Env, core: Core, base: int) returns (b: bool, n: nat, after: Core)
    requires CondOk(cond, types) && Related(frame.vars, frame.currentStack, types, env, core, base)
    requires UniqueLabels(program) && CondCode(order, frame, cond).Ok?
    requires target < |program| && program[target].LabelDef?
    requires At(program, at, CondCode(order, frame, cond).value.code + [CondJmp(program[target].lbl, JmpEq)])
    ensures Eval(false, cond, env) == Some(BoolVal(b))
    ensures Run(program, Running(at, core), n)
         == Some(Running(if b then target + 1 else at + |CondCode(order, frame, cond).value.code| + 1, after))
    ensures Related(frame.vars, frame.currentStack, types, env, after, base) && CallerKept(core, after, base)
  {
    hide Run, CondCode, Related, At, UniqueLabels, CondOk, RunStraight, StepCore;
    var code := CondCode(order, frame, cond).value.code;
    var jumpAt := at + |code|;
    AtSplit(program, at, code, [CondJmp(program[target].lbl, JmpEq)]);
    AtOne(program, jumpAt, CondJmp(program[target].lbl, JmpEq));
    b, after := CondRuns(order, frame, cond, types, env, core, base);
    StraightRuns(program, at, code, core);
    if b {
      BranchTaken(program, jumpAt, target, after);
      n := |code| + 2;
      Chain(program, Running(at, core), |code|, Running(jumpAt, after), 2, Running(target + 1, after));
    } else {
      BranchPassed(program, jumpAt, after);
      n := |code| + 1;
      Chain(program, Running(at, core), |code|, Running(jumpAt, after), 1, Running(jumpAt + 1, after));
    }
  }
}
