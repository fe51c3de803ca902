/** Where the generated code does not follow the source: exactly which comparisons with a literal on the left
    come out wrong, which literals an instruction can hold, and a program in which a declaration in a branch
    goes wrong. */
module KnownLimits {
  import opened Words
  import opened Lir
  import opened Machine
  import opened AsmSpec
  import opened ExprProof
  import opened StmtProof
  import opened FuncProof

  // ---------- a comparison with a literal on the left ----------

  function LiteralOf(e: Expr): Val
    requires e.IsLiteral()
  {
    if e.Value? then e.val else LiteralOf(e.expr)
  }

  lemma {:induction false} LiteralEval(e: Expr, env: Env)
    requires e.IsLiteral()
    ensures Eval(false, e, env) == Some(LiteralOf(e)) && Flipped(e) == e
  {
    if e.Parens? {
      LiteralEval(e.expr, env);
    }
  }

  /** Comparing the same two values in both directions. */
  lemma MirrorExactly(op: BinOp, a: Val, b: Val)
    requires op.IsCmp() && a.TypeOf() == b.TypeOf()
    ensures Evaluate(false, op, a, b).Some? && Evaluate(false, op, b, a).Some?
    ensures Evaluate(false, op, a, b) == Evaluate(false, op, b, a) <==> !op.IsOrdering() || a == b
  {
  }

  /** Run the code of a comparison whose left operand is a literal: the result location holds the value that
      the source gives the comparison if and only if the operator is no ordering or the right operand has the
      very value of the literal. */
  lemma ComparisonRightExactly(order: Order, vars: map<Ident, Location>, used: set<Register>, op: BinOp, l: Expr, r: Expr,
                               canClear: CanClearRegs, types: map<Ident, Ty>, env: Env, core: Core) returns (after: Core)
    requires op.IsCmp() && l.IsLiteral() && NoLiteralFirst(r)
    requires WellTyped(Binary(op, l, r, Bool), types) && Compilable(Binary(op, l, r, Bool))
    requires EnvTyped(env, types) && Holding(vars, env, core)
    requires BuildValue(order, vars, used, Binary(op, l, r, Bool), canClear).Ok?
    ensures var b := BuildValue(order, vars, used, Binary(op, l, r, Bool), canClear).value;
            var source := Eval(false, Binary(op, l, r, Bool), env);
            && RunStraight(b.code, core) == Some(after) && SameFrame(core, after)
            && source.Some? && Eval(false, r, env).Some?
            && (Read(after, b.loc) == Some(Encode(source.value))
                <==> !op.IsOrdering() || Eval(false, r, env) == Some(LiteralOf(l)))
  {
    var e := Binary(op, l, r, Bool);
    var v;
    v, after := BuildValueComputes(order, vars, used, e, canClear, types, env, core);
    hide BuildValue, RunStraight, Compilable, Holding, Read;
    var w := ValueTyped(r, types, env);
    LiteralEval(l, env);
    NothingFlipped(r);
    LiteralTyped(l, types);
    MirrorExactly(op, LiteralOf(l), w);
    assert Eval(false, e, env) == Evaluate(false, op, LiteralOf(l), w);
    var source := Eval(false, e, env).value;
    if op.IsOrdering() {
      assert Flipped(e) == Binary(op, r, l, Bool);
      assert Eval(false, Flipped(e), env) == Evaluate(false, op, w, LiteralOf(l));
    } else {
      assert Flipped(e) == e;
    }
    BoolsApart(op, LiteralOf(l), w);
    BoolsApart(op, w, LiteralOf(l));
    if Encode(v) == Encode(source) {
      EncodeInjective(v, source);
    }
  }

  lemma BoolsApart(op: BinOp, a: Val, b: Val)
    requires op.IsCmp() && a.TypeOf() == b.TypeOf()
    ensures Evaluate(false, op, a, b).Some? && Evaluate(false, op, a, b).value.BoolVal?
  {
  }

  lemma {:induction false} LiteralTyped(e: Expr, types: map<Ident, Ty>)
    requires e.IsLiteral()
    ensures LiteralOf(e).TypeOf() == e.TypeOf()
  {
    if e.Parens? {
      LiteralTyped(e.expr, types);
    }
  }

  /** A covered expression always has a value, of its type. */
  lemma {:induction false} ValueTyped(e: Expr, types: map<Ident, Ty>, env: Env) returns (v: Val)
    requires WellTyped(e, types) && Compilable(e) && EnvTyped(env, types)
    ensures Eval(false, e, env) == Some(v) && v.TypeOf() == e.TypeOf()
  {
    match e
    case Var(x, _) => v := env[x];
    case Unary(op, inner, _) =>
      var a := ValueTyped(inner, types, env);
      v := EvaluateUnary(op, a);
    case Binary(op, l, r, _) =>
      var a := ValueTyped(l, types, env);
      var b := ValueTyped(r, types, env);
      EvaluateTyped(false, op, a, b);
      v := Evaluate(false, op, a, b).value;
    case Parens(inner) => v := ValueTyped(inner, types, env);
    case Value(w) => v := w;
  }

  /** Expressions of integer type hold no comparison, so for them nothing more has to be asked. */
  lemma {:induction false} IntegersCompareNothing(e: Expr, types: map<Ident, Ty>)
    requires WellTyped(e, types) && Compilable(e) && e.TypeOf() == Int
    ensures NoLiteralFirst(e)
  {
    match e
    case Binary(op, l, r, _) =>
      IntegersCompareNothing(l, types);
      IntegersCompareNothing(r, types);
    case Parens(inner) => IntegersCompareNothing(inner, types);
    case _ =>
  }

  // ---------- wide literals ----------

  /** Storing a literal in a variable: the one instruction that is emitted can be run if and only if it can hold
      the literal. */
  lemma LiteralStoredExactly(order: Order, frame: Frame, x: Ident, k: Val, types: map<Ident, Ty>, env: Env, core: Core,
                             base: int)
    requires Related(frame.vars, frame.currentStack, types, env, core, base) && x in types
    requires AssignCode(order, frame, x, Value(k), false).Ok?
    ensures RunStraight(AssignCode(order, frame, x, Value(k), false).value.code, core).Some? <==> Immediate(k)
  {
    SlotOf(frame.vars, frame.currentStack, types, env, x, core, base);
    hide Related;
    var move := SizedMov(Const(k), frame.vars[x], 8);
    assert BuildValue(order, frame.vars, frame.used, Value(k), Yes) == Ok(Built([], frame.used, Const(k)));
    assert [] + [] + [move] == [move];
    StraightOne(move, core);
  }

  // ---------- a declaration in a branch that is not taken ----------

  /** `if (p) { let a = 1; } let z = c; let w = d; return z;` */
  function LetInBranch(p: Ident, a: Ident, z: Ident, w: Ident, c: word, d: word): seq<Stmt> {
    [If(Var(p, Bool), [Assign(a, Int, Value(IntVal(1)), true)], []),
     Assign(z, Int, Value(IntVal(c)), true),
     Assign(w, Int, Value(IntVal(d)), true),
     Ret(Var(z, Int))]
  }

  function Slot(offset: nat): Location {
    NumberedOffset(offset, RBP)
  }

  /** What is emitted for the part after the conditional, when `a` took the slot at 16. */
  function TailCode(c: word, d: word): seq<Instruction> {
    [Push(ZERO, 8), SizedMov(Const(IntVal(c)), Slot(24), 8)]
    + ([Push(ZERO, 8), SizedMov(Const(IntVal(d)), Slot(32), 8)]
       + [Mov(Slot(24), RegLoc(RAX))])
  }

  lemma LetLiteralCode(order: Order, frame: Frame, x: Ident, c: word)
    ensures AssignCode(order, frame, x, Value(IntVal(c)), true)
         == Ok(Emitted([Push(ZERO, 8), SizedMov(Const(IntVal(c)), Slot(frame.currentStack + 8), 8)],
                       AllocStack(frame, x).frame.(used := {})))
  {
    var alloc := AllocStack(frame, x);
    var lloc := alloc.frame.vars[x];
    assert [Push(ZERO, 8)] + [] + [SizedMov(Const(IntVal(c)), lloc, 8)]
        == [Push(ZERO, 8), SizedMov(Const(IntVal(c)), lloc, 8)];
  }

  /** The tail declares `z` and `w` and returns `z`. */
  lemma TailIs(order: Order, frame: Frame, at: nat, z: Ident, w: Ident, c: word, d: word)
    requires frame.currentStack == 16 && z != w
    ensures var tail := [Assign(z, Int, Value(IntVal(c)), true), Assign(w, Int, Value(IntVal(d)), true), Ret(Var(z, Int))];
            var built := BlockCode(order, frame, at, tail);
            built.Ok? && built.value.code == TailCode(c, d) + [Leave, Return]
  {
    var last := [Ret(Var(z, Int))];
    var second := Assign(w, Int, Value(IntVal(d)), true);
    var first := Assign(z, Int, Value(IntVal(c)), true);
    var f1 := AllocStack(frame, z).frame.(used := {});
    var f2 := AllocStack(f1, w).frame.(used := {});
    LetLiteralCode(order, frame, z, c);
    LetLiteralCode(order, f1, w, d);
    var retCode := [] + [Mov(Slot(24), RegLoc(RAX))] + [Leave, Return];
    assert RetCode(order, f2, Var(z, Int)) == Ok(Emitted(retCode, f2));
    assert StmtCode(order, frame, at, first).Ok? && StmtCode(order, f1, at + 2, second).Ok?;
    BlockOfOne(order, f2, at + 4, last[0]);
    var pair := [second] + last;
    assert pair[0] == second && pair[1..] == last;
    var whole := [first] + pair;
    assert whole[0] == first && whole[1..] == pair;
    assert whole == [first, second, last[0]];
  }

  lemma BlockOfOne(order: Order, frame: Frame, at: nat, stmt: Stmt)
    requires StmtCode(order, frame, at, stmt).Ok?
    ensures var one := StmtCode(order, frame, at, stmt).value;
            BlockCode(order, frame, at, [stmt]) == Ok(Emitted(one.code + [], one.frame))
  {
    var one := StmtCode(order, frame, at, stmt).value;
    assert [stmt][1..] == [];
    assert BlockCode(order, one.frame, at + |one.code|, []) == Ok(Emitted([], one.frame));
  }

  /** What is emitted for the conditional. */
  function HeadCode(at: nat): seq<Instruction> {
    [Cmp(ONE, Slot(8))] + [CondJmp(JmpIf(at + 1), JmpNotEq)]
    + [Push(ZERO, 8), SizedMov(Const(IntVal(1)), Slot(16), 8)]
    + [Jmp(MergeIf(at + 4)), LabelDef(JmpIf(at + 1))] + [] + [LabelDef(MergeIf(at + 4))]
  }

  lemma HeadIs(order: Order, frame: Frame, at: nat, p: Ident, a: Ident)
    requires frame.currentStack == 8 && p in frame.vars && frame.vars[p] == Slot(8)
    ensures var built := StmtCode(order, frame, at, If(Var(p, Bool), [Assign(a, Int, Value(IntVal(1)), true)], []));
            built.Ok? && built.value.code == HeadCode(at) && built.value.frame.currentStack == 16
  {
    var decl := Assign(a, Int, Value(IntVal(1)), true);
    var test := Emitted([] + [Cmp(ONE, Slot(8))], frame);
    assert CondCode(order, frame, Var(p, Bool)) == Ok(test);
    LetLiteralCode(order, frame, a, 1);
    var inner := AllocStack(frame, a).frame.(used := {});
    var let := [Push(ZERO, 8), SizedMov(Const(IntVal(1)), Slot(16), 8)];
    assert StmtCode(order, frame, at + 2, decl) == Ok(Emitted(let, inner));
    BlockOfOne(order, frame, at + 2, decl);
    assert let + [] == let && [] + [Cmp(ONE, Slot(8))] == [Cmp(ONE, Slot(8))];
    assert BlockCode(order, inner, at + 6, []) == Ok(Emitted([], inner));
  }

  /** The second push lands on the slot of `z`, because the skipped declaration did not push. */
  lemma TailRuns(core: Core, base: int, c: word, d: word) returns (after: Core)
    requires core.Reg(RBP) == base && core.Reg(RSP) == base - 8 && base % 8 == 0 && base - 32 >= 0
    requires Mapped(core, base - 24) && Mapped(core, base - 32) && Immediate(IntVal(c)) && Immediate(IntVal(d))
    ensures RunStraight(TailCode(c, d), core) == Some(after)
    ensures after.Reg(RAX) == 0
  {
    hide RunStraight;
    var c1 := PushRuns(core, ZERO, 0);
    var c2 := c1.(mem := c1.mem[base - 24 := c]);
    SizedMovRuns(c1, Const(IntVal(c)), Slot(24), c, c2);
    var c3 := PushRuns(c2, ZERO, 0);
    assert c3.mem[base - 24] == 0;
    var c4 := c3.(mem := c3.mem[base - 32 := d]);
    SizedMovRuns(c3, Const(IntVal(d)), Slot(32), d, c4);
    MoveToRegRuns(c4, Slot(24), RAX);
    StraightOne(Mov(Slot(24), RegLoc(RAX)), c4);
    after := c4.(regs := c4.regs[RAX := 0]);
    TwoSteps(Push(ZERO, 8), SizedMov(Const(IntVal(c)), Slot(24), 8), core, c1, c2);
    TwoSteps(Push(ZERO, 8), SizedMov(Const(IntVal(d)), Slot(32), 8), c2, c3, c4);
    var pushD := [Push(ZERO, 8), SizedMov(Const(IntVal(d)), Slot(32), 8)];
    StraightAppend(pushD, [Mov(Slot(24), RegLoc(RAX))], c2);
    StraightAppend([Push(ZERO, 8), SizedMov(Const(IntVal(c)), Slot(24), 8)], pushD + [Mov(Slot(24), RegLoc(RAX))], core);
  }

  lemma TwoSteps(i: Instruction, j: Instruction, s0: Core, s1: Core, s2: Core)
    requires RunStraight([i], s0) == Some(s1) && RunStraight([j], s1) == Some(s2)
    ensures RunStraight([i, j], s0) == Some(s2)
  {
    StraightAppend([i], [j], s0);
    assert [i] + [j] == [i, j];
  }

  /** Called with `p` false, the source returns `c`; the machine arrives at the final `leave; ret` with
      0 in RAX. Any non-zero `c` is lost. */
  lemma LetInBranchLosesValue(order: Order, frame: Frame, at: nat, program: seq<Instruction>, core: Core, base: int,
                              p: Ident, a: Ident, z: Ident, w: Ident, c: word, d: word, fuel: nat)
    returns (n: nat, after: Core)
    requires z != w
    requires frame.currentStack == 8 && p in frame.vars && frame.vars[p] == Slot(8)
    requires BlockCode(order, frame, at, LetInBranch(p, a, z, w, c, d)).Ok? && UniqueLabels(program)
    requires At(program, at, BlockCode(order, frame, at, LetInBranch(p, a, z, w, c, d)).value.code)
    requires core.Reg(RBP) == base && core.Reg(RSP) == base - 8 && base % 8 == 0 && base - 32 >= 0
    requires Read(core, Slot(8)) == Some(0) && Mapped(core, base - 24) && Mapped(core, base - 32)
    requires Immediate(IntVal(c)) && Immediate(IntVal(d))
    ensures ExecBlock(LetInBranch(p, a, z, w, c, d), map[p := BoolVal(false)], fuel) == Returned(IntVal(c))
    ensures Run(program, Running(at, core), n) == Some(Running(at + 12, after))
    ensures At(program, at + 12, [Leave, Return]) && after.Reg(RAX) == 0
  {
    hide Run, BlockCode, StmtCode, At, UniqueLabels, HeadCode, TailCode, ExecBlock;
    SourceReturns(p, a, z, w, c, d, fuel);
    WholeIs(order, frame, at, p, a, z, w, c, d);
    var tail := TailCode(c, d) + [Leave, Return];
    AtSplit(program, at, HeadCode(at), tail);
    AtSplit(program, at + 7, TailCode(c, d), [Leave, Return]);
    after := HeadAndTailRun(program, at, core, base, c, d);
    n := 9;
  }

  lemma WholeIs(order: Order, frame: Frame, at: nat, p: Ident, a: Ident, z: Ident, w: Ident, c: word, d: word)
    requires z != w && frame.currentStack == 8 && p in frame.vars && frame.vars[p] == Slot(8)
    requires BlockCode(order, frame, at, LetInBranch(p, a, z, w, c, d)).Ok?
    ensures BlockCode(order, frame, at, LetInBranch(p, a, z, w, c, d)).value.code
         == HeadCode(at) + (TailCode(c, d) + [Leave, Return])
    ensures |HeadCode(at)| == 7 && |TailCode(c, d)| == 5
  {
    var stmts := LetInBranch(p, a, z, w, c, d);
    HeadIs(order, frame, at, p, a);
    var head := StmtCode(order, frame, at, stmts[0]).value;
    TailIs(order, head.frame, at + 7, z, w, c, d);
    hide StmtCode;
    assert stmts[1..] == [Assign(z, Int, Value(IntVal(c)), true), Assign(w, Int, Value(IntVal(d)), true), Ret(Var(z, Int))];
  }

  lemma SourceReturns(p: Ident, a: Ident, z: Ident, w: Ident, c: word, d: word, fuel: nat)
    requires z != w
    ensures ExecBlock(LetInBranch(p, a, z, w, c, d), map[p := BoolVal(false)], fuel) == Returned(IntVal(c))
  {
    var stmts := LetInBranch(p, a, z, w, c, d);
    var env: Env := map[p := BoolVal(false)];
    assert Exec(stmts[0], env, fuel) == ExecBlock([], env, fuel) == Normal(env);
    var env1 := env[z := IntVal(c)];
    var env2 := env1[w := IntVal(d)];
    assert stmts[1..][0] == stmts[1] && stmts[1..][1..] == stmts[2..];
    assert stmts[2..][0] == stmts[2] && stmts[2..][1..] == stmts[3..];
    assert stmts[3..][0] == stmts[3];
    assert ExecBlock(stmts[3..], env2, fuel) == Returned(IntVal(c));
    assert ExecBlock(stmts[2..], env1, fuel) == Returned(IntVal(c));
    assert ExecBlock(stmts[1..], env, fuel) == Returned(IntVal(c));
  }

  lemma HeadAndTailRun(program: seq<Instruction>, at: nat, core: Core, base: int, c: word, d: word) returns (after: Core)
    requires At(program, at, HeadCode(at)) && At(program, at + 7, TailCode(c, d)) && UniqueLabels(program)
    requires core.Reg(RBP) == base && core.Reg(RSP) == base - 8 && base % 8 == 0 && base - 32 >= 0
    requires Read(core, Slot(8)) == Some(0) && Mapped(core, base - 24) && Mapped(core, base - 32)
    requires Immediate(IntVal(c)) && Immediate(IntVal(d))
    ensures Run(program, Running(at, core), 9) == Some(Running(at + 12, after)) && after.Reg(RAX) == 0
  {
    hide Run, RunStraight;
    var thn := [Push(ZERO, 8), SizedMov(Const(IntVal(1)), Slot(16), 8)];
    IfLayout(program, at, at, [Cmp(ONE, Slot(8))], thn, []);
    var tested := core.(flags := Compare(0, 1));
    assert StepCore(Cmp(ONE, Slot(8)), core) == Some(tested);
    StraightOne(Cmp(ONE, Slot(8)), core);
    StraightRuns(program, at, [Cmp(ONE, Slot(8))], core);
    CompareIsOrder(0, 1);
    BranchTaken(program, at + 1, at + 5, tested);
    Chain(program, Running(at, core), 1, Running(at + 1, tested), 2, Running(at + 6, tested));
    StepLabel(program, at + 6, tested);
    Chain(program, Running(at, core), 3, Running(at + 6, tested), 1, Running(at + 7, tested));
    after := TailRuns(tested, base, c, d);
    StraightRuns(program, at + 7, TailCode(c, d), tested);
    Chain(program, Running(at, core), 4, Running(at + 7, tested), 5, Running(at + 12, after));
  }
}
