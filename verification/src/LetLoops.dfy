/** Loops whose body declares variables. Every round pushes the variables again, below those of the round before,
    but their slots stay where the generator put them. So the loop computes what the source computes, and the
    stack pointer ends as many frames of the body too low as there were rounds after the first. */
module LetLoops {
  import opened Words
  import opened Lir
  import opened Machine
  import opened AsmSpec
  import opened ExprProof
  import opened StmtProof
  import opened FuncProof
  import opened FrameRuns
  import opened Lagging

  // ---------- the same code with more names in scope ----------

  /** Both scopes have the names of `types` in the same places. */
  predicate Agree(vars: map<Ident, Location>, wide: map<Ident, Location>, types: map<Ident, Ty>) {
    forall x :: x in types ==> x in vars && x in wide && vars[x] == wide[x]
  }

  predicate Within(types: map<Ident, Ty>, wide: map<Ident, Ty>) {
    forall x :: x in types ==> x in wide && wide[x] == types[x]
  }

  lemma {:induction false} ExprWider(order: Order, vars: map<Ident, Location>, wide: map<Ident, Location>, used: set<Register>,
                                     e: Expr, canClear: CanClearRegs, types: map<Ident, Ty>)
    requires WellTyped(e, types) && Agree(vars, wide, types)
    ensures BuildValue(order, wide, used, e, canClear) == BuildValue(order, vars, used, e, canClear)
    decreases e
  {
    hide Combine, Negate;
    match e
    case Unary(_, inner, _) => ExprWider(order, vars, wide, used, inner, canClear, types);
    case Binary(_, l, r, _) =>
      ExprWider(order, vars, wide, used, l, No, types);
      var left := BuildValue(order, vars, used, l, No);
      if left.Ok? {
        ExprWider(order, vars, wide, left.value.used, r, No, types);
      }
    case Parens(inner) => ExprWider(order, vars, wide, used, inner, canClear, types);
    case _ =>
  }

  lemma {:induction false} TypedWithin(e: Expr, types: map<Ident, Ty>, wide: map<Ident, Ty>)
    requires WellTyped(e, types) && Within(types, wide)
    ensures WellTyped(e, wide)
  {
    match e
    case Unary(_, inner, _) => TypedWithin(inner, types, wide);
    case Binary(_, l, r, _) =>
      TypedWithin(l, types, wide);
      TypedWithin(r, types, wide);
    case Parens(inner) => TypedWithin(inner, types, wide);
    case _ =>
  }

  lemma {:induction false} StmtWithin(s: Stmt, types: map<Ident, Ty>, wide: map<Ident, Ty>)
    requires StmtOk(s, types) && Within(types, wide)
    ensures StmtOk(s, wide)
    decreases s, 0
  {
    hide WellTyped, Compilable, NoLiteralFirst;
    match s
    case Assign(_, _, e, _) => TypedWithin(e, types, wide);
    case If(cond, blk, els) =>
      TypedWithin(cond, types, wide);
      BlockWithin(blk, types, wide);
      BlockWithin(els, types, wide);
    case While(cond, blk) =>
      if CondOk(cond, types) {
        TypedWithin(cond, types, wide);
      }
      BlockWithin(blk, types, wide);
    case Ret(e) => TypedWithin(e, types, wide);
    case _ =>
  }

  lemma {:induction false} BlockWithin(stmts: seq<Stmt>, types: map<Ident, Ty>, wide: map<Ident, Ty>)
    requires BlockOk(stmts, types) && Within(types, wide)
    ensures BlockOk(stmts, wide)
    decreases stmts, 1
  {
    hide StmtOk;
    if stmts != [] {
      StmtWithin(stmts[0], types, wide);
      BlockWithin(stmts[1..], types, wide);
    }
  }

  /** The same code, and the same registers in use after it. */
  predicate Alike(a: Result<Emitted>, b: Result<Emitted>) {
    a.Ok? ==> b.Ok? && b.value.code == a.value.code && b.value.frame.used == a.value.frame.used
  }

  /** A frame with more names, in which RSP may be anywhere. */
  predicate Widens(frame: Frame, wide: Frame, types: map<Ident, Ty>) {
    wide.used == frame.used && Agree(frame.vars, wide.vars, types)
  }

  lemma CondWider(order: Order, frame: Frame, wide: Frame, cond: Expr, types: map<Ident, Ty>)
    requires WellTyped(cond, types) && Widens(frame, wide, types)
    ensures Alike(CondCode(order, frame, cond), CondCode(order, wide, cond))
  {
    hide BuildValue;
    ExprWider(order, frame.vars, wide.vars, frame.used, cond, Yes, types);
  }

  lemma {:induction false} StmtWider(order: Order, frame: Frame, wide: Frame, at: nat, stmt: Stmt, types: map<Ident, Ty>)
    requires StmtOk(stmt, types) && Widens(frame, wide, types)
    ensures Alike(StmtCode(order, frame, at, stmt), StmtCode(order, wide, at, stmt))
    decreases stmt, 1
  {
    hide BuildValue, BlockCode, BlockOk, WellTyped, Compilable, NoLiteralFirst;
    match stmt
    case Assign(_, _, e, _) =>
      ExprWider(order, frame.vars, wide.vars, frame.used, e, Yes, types);
    case If(cond, blk, els) => IfWider(order, frame, wide, at, cond, blk, els, types);
    case While(cond, blk) => WhileWider(order, frame, wide, at, cond, blk, types);
    case Ret(e) =>
      ExprWider(order, frame.vars, wide.vars, frame.used, e, Yes, types);
    case _ =>
  }

  lemma {:induction false} IfWider(order: Order, frame: Frame, wide: Frame, at: nat, cond: Expr, blk: seq<Stmt>, els: seq<Stmt>,
                                   types: map<Ident, Ty>)
    requires CondOk(cond, types) && BlockOk(blk, types) && BlockOk(els, types) && Widens(frame, wide, types)
    ensures Alike(StmtCode(order, frame, at, If(cond, blk, els)), StmtCode(order, wide, at, If(cond, blk, els)))
    decreases If(cond, blk, els), 0
  {
    hide BlockCode, BlockOk, WellTyped, Compilable, NoLiteralFirst, CondCode, Agree;
    var stmt := If(cond, blk, els);
    CondWider(order, frame, wide, cond, types);
    if StmtCode(order, frame, at, stmt).Ok? {
      var test, more := CondCode(order, frame, cond).value, CondCode(order, wide, cond).value;
      var elseAt := at + |test.code|;
      CondScope(order, frame, cond);
      CondScope(order, wide, cond);
      BlockWider(order, test.frame, more.frame, elseAt + 1, blk, types);
      var thn := BlockCode(order, test.frame, elseAt + 1, blk).value;
      var wider := BlockCode(order, more.frame, elseAt + 1, blk).value;
      BlockScope(order, test.frame, elseAt + 1, blk, types);
      BlockScope(order, more.frame, elseAt + 1, blk, types);
      BlockWider(order, thn.frame, wider.frame, elseAt + 1 + |thn.code| + 2, els, types);
    }
  }

  lemma {:induction false} WhileWider(order: Order, frame: Frame, wide: Frame, at: nat, cond: Expr, blk: seq<Stmt>,
                                      types: map<Ident, Ty>)
    requires StmtOk(While(cond, blk), types) && Widens(frame, wide, types)
    ensures Alike(StmtCode(order, frame, at, While(cond, blk)), StmtCode(order, wide, at, While(cond, blk)))
    decreases While(cond, blk), 0
  {
    hide BlockCode, BlockOk, WellTyped, Compilable, NoLiteralFirst, CondCode, Agree;
    var stmt := While(cond, blk);
    if StmtCode(order, frame, at, stmt).Ok? {
      BlockWider(order, frame, wide, at + 2, blk, types);
      var body, wider := BlockCode(order, frame, at + 2, blk).value, BlockCode(order, wide, at + 2, blk).value;
      BlockScope(order, frame, at + 2, blk, types);
      BlockScope(order, wide, at + 2, blk, types);
      if CondOk(cond, types) {
        CondWider(order, body.frame, wider.frame, cond, types);
      }
    }
  }

  lemma CondScope(order: Order, frame: Frame, cond: Expr)
    requires CondCode(order, frame, cond).Ok?
    ensures CondCode(order, frame, cond).value.frame.vars == frame.vars
  {
    hide BuildValue;
  }

  lemma BlockScope(order: Order, frame: Frame, at: nat, stmts: seq<Stmt>, types: map<Ident, Ty>)
    requires BlockOk(stmts, types) && BlockCode(order, frame, at, stmts).Ok?
    ensures BlockCode(order, frame, at, stmts).value.frame.vars == frame.vars
  {
    hide BlockCode, BlockOk;
    CoveredBlock(stmts, types);
    BlockFrameStays(order, frame, at, stmts);
  }

  lemma {:induction false} BlockWider(order: Order, frame: Frame, wide: Frame, at: nat, stmts: seq<Stmt>, types: map<Ident, Ty>)
    requires BlockOk(stmts, types) && Widens(frame, wide, types)
    ensures Alike(BlockCode(order, frame, at, stmts), BlockCode(order, wide, at, stmts))
    decreases stmts, 2
  {
    hide StmtCode, StmtOk, Agree;
    if stmts != [] && BlockCode(order, frame, at, stmts).Ok? {
      StmtWider(order, frame, wide, at, stmts[0], types);
      var first, more := StmtCode(order, frame, at, stmts[0]).value, StmtCode(order, wide, at, stmts[0]).value;
      CoveredDeclaresNothing(stmts[0], types);
      FrameStays(order, frame, at, stmts[0]);
      FrameStays(order, wide, at, stmts[0]);
      BlockWider(order, first.frame, more.frame, at + |first.code|, stmts[1..], types);
    }
  }

  // ---------- a round after the first ----------

  /** A push below the frame changes no variable. */
  lemma PushKeeps(vars: map<Ident, Location>, size: nat, types: map<Ident, Ty>, env: Env, core: Core, base: int)
    returns (after: Core)
    requires Related(vars, size, types, env, core, base) && base - (size + 8) >= 0
    ensures RunStraight([Push(ZERO, 8)], core) == Some(after)
    ensures Related(vars, size + 8, types, env, after, base) && CallerKept(core, after, base)
  {
    ZeroReads(core);
    hide RunStraight, Encode;
    after := PushRuns(core, ZERO, 0);
    forall y | y in env ensures Read(after, vars[y]) == Some(Encode(env[y])) {
      assert Read(core, vars[y]) == Some(Encode(env[y]));
      SlotAbove(vars, types.Keys, size, y);
    }
  }

  /** `let x = e;` once more: its slot is there already, and the new push is of no use. */
  lemma LetOnceMore(order: Order, frame: Frame, wide: map<Ident, Location>, size: nat, x: Ident, e: Expr, types: map<Ident, Ty>,
                    all: map<Ident, Ty>, env: Env, core: Core, base: int) returns (after: Core)
    requires ExprOk(e, types) && SmallLiteral(e) && Within(types, all) && x in all && e.TypeOf() == all[x]
    requires Agree(AllocStack(frame, x).frame.vars, wide, types) && x in wide && wide[x] == AllocStack(frame, x).frame.vars[x]
    requires Related(wide, size, all, env, core, base) && base - (size + 8) >= 0
    requires AssignCode(order, frame, x, e, true).Ok?
    ensures RunStraight(AssignCode(order, frame, x, e, true).value.code, core) == Some(after)
    ensures Eval(false, e, env).Some?
    ensures Related(wide, size + 8, all, env[x := Eval(false, e, env).value], after, base) && CallerKept(core, after, base)
  {
    hide Related, RunStraight, BuildValue, FreeReg, WellTyped, Compilable, NoLiteralFirst, Eval;
    var alloc := AllocStack(frame, x);
    var mid := PushKeeps(wide, size, all, env, core, base);
    LetCode(order, frame, x, e);
    TypedWithin(e, types, all);
    ExprWider(order, alloc.frame.vars, wide, alloc.frame.used, e, Yes, types);
    var again := alloc.frame.(vars := wide, currentStack := size + 8);
    after := AssignRuns(order, again, x, e, all, env, mid, base);
    StraightAppend([Push(ZERO, 8)], AssignCode(order, alloc.frame, x, e, false).value.code, core);
  }

  /** The names of a body are new, so they stay where they are put, and those before it too. */
  lemma {:induction false} NamesStay(order: Order, frame: Frame, at: nat, stmts: seq<Stmt>, types: map<Ident, Ty>)
    requires BodyOk(stmts, types) && BlockCode(order, frame, at, stmts).Ok? && types.Keys <= frame.vars.Keys
    ensures Agree(frame.vars, BlockCode(order, frame, at, stmts).value.frame.vars, types)
    ensures Within(types, TypesAfter(stmts, types))
    decreases |stmts|
  {
    hide StmtOk, ExprOk, AssignCode;
    if stmts != [] {
      var first := StmtCode(order, frame, at, stmts[0]).value;
      if IsLet(stmts[0]) {
        LetScope(order, frame, stmts[0].ident, stmts[0].rval);
        NamesStay(order, first.frame, at + |first.code|, stmts[1..], types[stmts[0].ident := stmts[0].ty]);
      } else {
        hide StmtCode;
        CoveredDeclaresNothing(stmts[0], types);
        FrameStays(order, frame, at, stmts[0]);
        NamesStay(order, first.frame, at + |first.code|, stmts[1..], types);
      }
    }
  }

  lemma LetScope(order: Order, frame: Frame, x: Ident, e: Expr)
    requires AssignCode(order, frame, x, e, true).Ok?
    ensures AssignCode(order, frame, x, e, true).value.frame.vars == AllocStack(frame, x).frame.vars
  {
    hide BuildValue;
  }

  lemma OneStmt(stmt: Stmt, types: map<Ident, Ty>)
    ensures TypesAfter([stmt], types) == if IsLet(stmt) then types[stmt.ident := stmt.ty] else types
    ensures LetCount([stmt]) == if IsLet(stmt) then 1 else 0
    ensures BodyOk([stmt], types) <==> if IsLet(stmt) then stmt.ident !in types && ExprOk(stmt.rval, types)
                                                           && stmt.rval.TypeOf() == stmt.ty && SmallLiteral(stmt.rval)
                                       else StmtOk(stmt, types)
  {
    hide ExprOk, StmtOk;
    assert [stmt][1..] == [];
  }

  lemma EndsNormally(outcome: Outcome, vars: map<Ident, Location>, size: nat, types: map<Ident, Ty>, before: Core, after: Core,
                     next: nat, base: int, steps: nat, fuel: nat)
    requires Mapped(before, base) && outcome.Normal? && Related(vars, size, types, outcome.env, after, base)
    requires CallerKept(before, after, base)
    ensures Matches(outcome, vars, size, types, before, Running(next, after), next, base, steps, fuel)
  {
  }

  /** One statement of a body in a later round. */
  lemma TopOnceMore(order: Order, frame: Frame, wide: map<Ident, Location>, size: nat, at: nat, stmt: Stmt,
                    program: seq<Instruction>, types: map<Ident, Ty>, all: map<Ident, Ty>, env: Env, core: Core, base: int,
                    fuel: nat) returns (n: nat, state: State)
    requires BodyOk([stmt], types) && StmtCode(order, frame, at, stmt).Ok? && Within(TypesAfter([stmt], types), all)
    requires At(program, at, StmtCode(order, frame, at, stmt).value.code) && UniqueLabels(program)
    requires Agree(StmtCode(order, frame, at, stmt).value.frame.vars, wide, TypesAfter([stmt], types))
    requires Agree(frame.vars, wide, types)
    requires Related(wide, size, all, env, core, base) && base - (size + 8 * LetCount([stmt])) >= 0
    ensures Mapped(core, base) && Run(program, Running(at, core), n) == Some(state)
    ensures Matches(Exec(stmt, env, fuel), wide, size + 8 * LetCount([stmt]), all, core, state,
                    at + |StmtCode(order, frame, at, stmt).value.code|, base, n, fuel)
  {
    hide Run, Related, CallerKept, UniqueLabels, RunStraight, ExprOk, StmtOk, BuildValue, Matches;
    FrameMapped(wide, size, all, env, core, base);
    OneStmt(stmt, types);
    if IsLet(stmt) {
      LetScope(order, frame, stmt.ident, stmt.rval);
      var code := StmtCode(order, frame, at, stmt).value.code;
      var after := LetOnceMore(order, frame, wide, size, stmt.ident, stmt.rval, types, all, env, core, base);
      StraightRuns(program, at, code, core);
      n, state := |code|, Running(at + |code|, after);
      EndsNormally(Exec(stmt, env, fuel), wide, size + 8, all, core, after, at + |code|, base, n, fuel);
    } else {
      hide Exec, StmtCode, At, Agree, Within;
      StmtWithin(stmt, types, all);
      var again := frame.(vars := wide, currentStack := size);
      StmtWider(order, frame, again, at, stmt, types);
      n, state := StmtRuns(order, again, at, at, stmt, program, all, env, core, base, fuel);
    }
  }

  /** A body in a later round. */
  lemma {:induction false} BodyOnceMore(
      order: Order, frame: Frame, size: nat, at: nat, stmts: seq<Stmt>, body: Emitted, program: seq<Instruction>,
      types: map<Ident, Ty>, all: map<Ident, Ty>, env: Env, core: Core, base: int, fuel: nat) returns (n: nat, state: State)
    requires BodyOk(stmts, types) && BlockCode(order, frame, at, stmts) == Ok(body) && all == TypesAfter(stmts, types)
    requires At(program, at, body.code) && UniqueLabels(program) && types.Keys <= frame.vars.Keys
    requires Related(body.frame.vars, size, all, env, core, base) && base - (size + 8 * LetCount(stmts)) >= 0
    ensures Mapped(core, base) && Run(program, Running(at, core), n) == Some(state)
    ensures Matches(ExecBlock(stmts, env, fuel), body.frame.vars, size + 8 * LetCount(stmts), all, core, state,
                    at + |body.code|, base, n, fuel)
    decreases |stmts|
  {
    hide Run, StmtCode, StmtOk, Related, CallerKept, UniqueLabels, At, Left, Exec, ExprOk, Agree, Within, SmallLiteral;
    var wide := body.frame.vars;
    FrameMapped(wide, size, all, env, core, base);
    if stmts == [] {
      n, state := 0, Running(at, core);
      NoStep(program, state);
      CallerKeptSame(core, base);
    } else {
      var first := StmtCode(order, frame, at, stmts[0]).value;
      var rest := BlockCode(order, first.frame, at + |first.code|, stmts[1..]).value;
      AtSplit(program, at, first.code, rest.code);
      var types' := TypesAfter([stmts[0]], types);
      OneStmt(stmts[0], types);
      NamesStay(order, frame, at, stmts, types);
      FirstScope(order, frame, at, stmts[0], types);
      NamesStay(order, first.frame, at + |first.code|, stmts[1..], types');
      var next := size + 8 * LetCount([stmts[0]]);
      n, state := TopOnceMore(order, frame, wide, size, at, stmts[0], program, types, all, env, core, base, fuel);
      var outcome := Exec(stmts[0], env, fuel);
      if outcome.Normal? {
        FrameMapped(wide, next, all, outcome.env, state.core, base);
        var m, final := BodyOnceMore(order, first.frame, next, at + |first.code|, stmts[1..], rest, program, types', all,
                                     outcome.env, state.core, base, fuel);
        Chain(program, Running(at, core), n, state, m, final);
        MatchesLater(ExecBlock(stmts[1..], outcome.env, fuel), wide, size + 8 * LetCount(stmts), all, core, state.core, final,
                     at + |body.code|, base, m, n, fuel, fuel);
        n, state := n + m, final;
      }
    }
  }

  lemma FirstScope(order: Order, frame: Frame, at: nat, stmt: Stmt, types: map<Ident, Ty>)
    requires BodyOk([stmt], types) && StmtCode(order, frame, at, stmt).Ok? && types.Keys <= frame.vars.Keys
    ensures TypesAfter([stmt], types).Keys <= StmtCode(order, frame, at, stmt).value.frame.vars.Keys
  {
    hide StmtOk, ExprOk;
    OneStmt(stmt, types);
    if IsLet(stmt) {
      LetScope(order, frame, stmt.ident, stmt.rval);
    } else {
      hide StmtCode;
      CoveredDeclaresNothing(stmt, types);
      FrameStays(order, frame, at, stmt);
    }
  }

  // ---------- the loop ----------

  /** The code of a loop, at the place that its labels are numbered by. */
  ghost predicate LetLoopAt(order: Order, frame: Frame, at: nat, cond: Expr, blk: seq<Stmt>, body: Emitted, test: Emitted,
                            program: seq<Instruction>, types: map<Ident, Ty>) {
    && (CondOk(cond, types) || cond == Value(BoolVal(true))) && BodyOk(blk, types) && UniqueLabels(program)
    && BlockCode(order, frame, at + 2, blk) == Ok(body)
    && LoopTest(order, body.frame, cond, JmpWhile(at + 1)) == Ok(test)
    && At(program, at, [Jmp(UncondWhile(at)), LabelDef(JmpWhile(at + 1))] + body.code + [LabelDef(UncondWhile(at))] + test.code)
  }

  lemma CondWithin(cond: Expr, types: map<Ident, Ty>, all: map<Ident, Ty>)
    requires CondOk(cond, types) && Within(types, all)
    ensures CondOk(cond, all)
  {
    TypedWithin(cond, types, all);
  }

  lemma CondAnywhere(order: Order, frame: Frame, size: nat, cond: Expr)
    ensures Alike(CondCode(order, frame, cond), CondCode(order, frame.(currentStack := size), cond))
  {
    hide BuildValue;
  }

  /** The test of the loop, before any round or after it: out of the loop, or past the label of the body. */
  lemma LetTestRuns(
      order: Order, frame: Frame, at: nat, cond: Expr, blk: seq<Stmt>, body: Emitted, test: Emitted, program: seq<Instruction>,
      types: map<Ident, Ty>, scope: map<Ident, Ty>, size: nat, env: Env, core: Core, base: int)
    returns (n: nat, b: bool, after: Core)
    requires LetLoopAt(order, frame, at, cond, blk, body, test, program, types) && Within(types, scope)
    requires Related(body.frame.vars, size, scope, env, core, base)
    ensures Eval(false, cond, env) == Some(BoolVal(b)) && n >= 1
    ensures var testPos := at + 2 + |body.code|;
            Run(program, Running(testPos, core), n) == Some(Running(if b then at + 2 else testPos + 1 + |test.code|, after))
    ensures Related(body.frame.vars, size, scope, env, after, base) && CallerKept(core, after, base)
  {
    hide Run, BlockCode, CondCode, Related, CallerKept, UniqueLabels, At, BodyOk, CondOk, ExprOk, RunStraight, StepCore;
    WhileLayout(program, at, at, body.code, test.code);
    var testPos := at + 2 + |body.code|;
    StepLabel(program, testPos, core);
    if IsConstTrue(cond) {
      b, after, n := true, core, 3;
      ConstTrueIs(cond, types, env);
      CallerKeptSame(core, base);
      AtOne(program, testPos + 1, Jmp(JmpWhile(at + 1)));
      JumpPast(program, testPos + 1, at + 1, core);
      Chain(program, Running(testPos, core), 1, Running(testPos + 1, core), 2, Running(at + 2, core));
    } else {
      var k;
      CondWithin(cond, types, scope);
      CondAnywhere(order, body.frame, size, cond);
      b, k, after := BranchRuns(order, body.frame.(currentStack := size), cond, program, testPos + 1, at + 1, scope, env, core, base);
      Chain(program, Running(testPos, core), 1, Running(testPos + 1, core), k,
            Running(if b then at + 2 else testPos + 1 + |test.code|, after));
      n := 1 + k;
    }
  }

  lemma ConstTrueIs(cond: Expr, types: map<Ident, Ty>, env: Env)
    requires (CondOk(cond, types) || cond == Value(BoolVal(true))) && IsConstTrue(cond)
    ensures Eval(false, cond, env) == Some(BoolVal(true))
  {
  }

  /** The rounds that the source run starts. */
  function Rounds(cond: Expr, blk: seq<Stmt>, env: Env, fuel: nat): nat
    decreases fuel
  {
    if fuel == 0 || Eval(false, cond, env) != Some(BoolVal(true)) then 0
    else
      var round := ExecBlock(blk, env, fuel - 1);
      1 + if round.Normal? then Rounds(cond, blk, round.env, fuel - 1) else 0
  }

  /** The bytes that the rounds of a source run push. */
  function Pushed(cond: Expr, blk: seq<Stmt>, env: Env, fuel: nat): nat {
    Rounds(cond, blk, env, fuel) * (8 * LetCount(blk))
  }

  lemma PushedOnce(cond: Expr, blk: seq<Stmt>, env: Env, fuel: nat)
    requires fuel > 0 && Eval(false, cond, env) == Some(BoolVal(true))
    ensures var round := ExecBlock(blk, env, fuel - 1);
            var later := if round.Normal? then Pushed(cond, blk, round.env, fuel - 1) else 0;
            Pushed(cond, blk, env, fuel) == 8 * LetCount(blk) + later
  {
  }

  /** From the test of the loop on, after at least one round. */
  lemma {:induction false} LaterRounds(
      order: Order, frame: Frame, at: nat, cond: Expr, blk: seq<Stmt>, body: Emitted, test: Emitted, program: seq<Instruction>,
      types: map<Ident, Ty>, size: nat, env: Env, core: Core, base: int, fuel: nat) returns (n: nat, state: State)
    requires LetLoopAt(order, frame, at, cond, blk, body, test, program, types) && types.Keys <= frame.vars.Keys
    requires Related(body.frame.vars, size, TypesAfter(blk, types), env, core, base)
    requires base - (size + Pushed(cond, blk, env, fuel)) >= 0
    ensures Mapped(core, base) && Run(program, Running(at + 2 + |body.code|, core), n) == Some(state)
    ensures Matches(Exec(While(cond, blk), env, fuel), body.frame.vars, size + Pushed(cond, blk, env, fuel),
                    TypesAfter(blk, types), core, state, at + 2 + |body.code| + 1 + |test.code|, base, n, fuel)
    decreases fuel
  {
    hide Run, BlockCode, LoopTest, Related, CallerKept, UniqueLabels, At, Left, Eval, CondOk, BodyOk, Pushed;
    var wide, all := body.frame.vars, TypesAfter(blk, types);
    FrameMapped(wide, size, all, env, core, base);
    var testPos := at + 2 + |body.code|;
    if fuel == 0 {
      n, state := 0, Running(testPos, core);
      NoStep(program, state);
      return;
    }
    NamesStay(order, frame, at + 2, blk, types);
    var m, b, tested := LetTestRuns(order, frame, at, cond, blk, body, test, program, types, all, size, env, core, base);
    if !b {
      NothingPushed(cond, blk, env, fuel);
      n, state := m, Running(testPos + 1 + |test.code|, tested);
    } else {
      PushedOnce(cond, blk, env, fuel);
      FrameMapped(wide, size, all, env, tested, base);
      WhileLayout(program, at, at, body.code, test.code);
      var k, mid := BodyOnceMore(order, frame, size, at + 2, blk, body, program, types, all, env, tested, base, fuel - 1);
      n, state := LoopGoesOn(order, frame, at, cond, blk, body, test, program, types, size + 8 * LetCount(blk), env, core, tested,
                             base, fuel, m, k, mid);
    }
  }

  /** After a round: the rounds that follow, if it ended normally. */
  lemma {:induction false} LoopGoesOn(
      order: Order, frame: Frame, at: nat, cond: Expr, blk: seq<Stmt>, body: Emitted, test: Emitted, program: seq<Instruction>,
      types: map<Ident, Ty>, size: nat, env: Env, core: Core, tested: Core, base: int, fuel: nat, m: nat, k: nat, mid: State)
    returns (n: nat, state: State)
    requires LetLoopAt(order, frame, at, cond, blk, body, test, program, types) && types.Keys <= frame.vars.Keys
    requires fuel > 0 && m >= 1 && Eval(false, cond, env) == Some(BoolVal(true))
    requires Mapped(core, base) && Mapped(tested, base) && CallerKept(core, tested, base)
    requires Run(program, Running(at + 2 + |body.code|, core), m) == Some(Running(at + 2, tested))
    requires Run(program, Running(at + 2, tested), k) == Some(mid)
    requires Matches(ExecBlock(blk, env, fuel - 1), body.frame.vars, size, TypesAfter(blk, types), tested, mid,
                     at + 2 + |body.code|, base, k, fuel - 1)
    requires var round := ExecBlock(blk, env, fuel - 1);
             round.Normal? ==> base - (size + Pushed(cond, blk, round.env, fuel - 1)) >= 0
    ensures Run(program, Running(at + 2 + |body.code|, core), n) == Some(state)
    ensures var round := ExecBlock(blk, env, fuel - 1);
            var more := if round.Normal? then Pushed(cond, blk, round.env, fuel - 1) else 0;
            Matches(Exec(While(cond, blk), env, fuel), body.frame.vars, size + more, TypesAfter(blk, types), core, state,
                    at + 2 + |body.code| + 1 + |test.code|, base, n, fuel)
    decreases fuel, 1
  {
    hide Run, BlockCode, LoopTest, Related, CallerKept, UniqueLabels, At, Left, Eval, CondOk, BodyOk, Pushed;
    var wide, all := body.frame.vars, TypesAfter(blk, types);
    var testPos := at + 2 + |body.code|;
    var round := ExecBlock(blk, env, fuel - 1);
    Chain(program, Running(testPos, core), m, Running(at + 2, tested), k, mid);
    MatchesLater(round, wide, size, all, core, tested, mid, testPos, base, k, m, fuel - 1, fuel);
    n, state := m + k, mid;
    if round.Normal? {
      FrameMapped(wide, size, all, round.env, mid.core, base);
      var j, final := LaterRounds(order, frame, at, cond, blk, body, test, program, types, size, round.env, mid.core, base, fuel - 1);
      Chain(program, Running(testPos, core), n, mid, j, final);
      MatchesLater(Exec(While(cond, blk), round.env, fuel - 1), wide, size + Pushed(cond, blk, round.env, fuel - 1), all, core,
                   mid.core, final, testPos + 1 + |test.code|, base, j, n, fuel - 1, fuel);
      n, state := n + j, final;
    }
  }

  lemma NothingPushed(cond: Expr, blk: seq<Stmt>, env: Env, fuel: nat)
    requires Eval(false, cond, env) != Some(BoolVal(true))
    ensures Pushed(cond, blk, env, fuel) == 0 && Rounds(cond, blk, env, fuel) == 0
  {
  }

  lemma RelatedWider(vars: map<Ident, Location>, wide: map<Ident, Location>, size: nat, types: map<Ident, Ty>, env: Env,
                     core: Core, base: int)
    requires Related(vars, size, types, env, core, base) && Agree(vars, wide, types)
    ensures Related(wide, size, types, env, core, base)
  {
    hide Read;
  }

  /** The names in scope behind a loop: those of the body are there once a round has run. */
  function TypesBehind(cond: Expr, blk: seq<Stmt>, types: map<Ident, Ty>, env: Env, fuel: nat): map<Ident, Ty> {
    if Rounds(cond, blk, env, fuel) == 0 then types else TypesAfter(blk, types)
  }

  /** From the test of the loop on, before any round. */
  lemma FirstRound(
      order: Order, frame: Frame, at: nat, cond: Expr, blk: seq<Stmt>, body: Emitted, test: Emitted, program: seq<Instruction>,
      types: map<Ident, Ty>, env: Env, core: Core, base: int, fuel: nat) returns (n: nat, state: State)
    requires LetLoopAt(order, frame, at, cond, blk, body, test, program, types) && types.Keys <= frame.vars.Keys
    requires Related(frame.vars, frame.currentStack, types, env, core, base)
    requires base - (frame.currentStack + Pushed(cond, blk, env, fuel)) >= 0
    ensures Mapped(core, base) && Run(program, Running(at + 2 + |body.code|, core), n) == Some(state)
    ensures Matches(Exec(While(cond, blk), env, fuel), body.frame.vars, frame.currentStack + Pushed(cond, blk, env, fuel),
                    TypesBehind(cond, blk, types, env, fuel), core, state, at + 2 + |body.code| + 1 + |test.code|, base, n, fuel)
  {
    hide Run, BlockCode, LoopTest, Related, CallerKept, UniqueLabels, At, Left, Eval, CondOk, BodyOk, Pushed;
    var wide, size := body.frame.vars, frame.currentStack;
    FrameMapped(frame.vars, size, types, env, core, base);
    var testPos := at + 2 + |body.code|;
    if fuel == 0 {
      n, state := 0, Running(testPos, core);
      NoStep(program, state);
      return;
    }
    NamesStay(order, frame, at + 2, blk, types);
    RelatedWider(frame.vars, wide, size, types, env, core, base);
    var m, b, tested := LetTestRuns(order, frame, at, cond, blk, body, test, program, types, types, size, env, core, base);
    if !b {
      NothingPushed(cond, blk, env, fuel);
      n, state := m, Running(testPos + 1 + |test.code|, tested);
    } else {
      PushedOnce(cond, blk, env, fuel);
      FrameMapped(wide, size, types, env, tested, base);
      WhileLayout(program, at, at, body.code, test.code);
      StackGrows(order, frame, at + 2, blk, types);
      SymmetricAgree(frame.vars, wide, types);
      RelatedWider(wide, frame.vars, size, types, env, tested, base);
      var k, mid := BodyRuns(order, frame, at + 2, blk, program, types, env, tested, base, fuel - 1);
      n, state := LoopGoesOn(order, frame, at, cond, blk, body, test, program, types, size + 8 * LetCount(blk), env, core, tested,
                             base, fuel, m, k, mid);
    }
  }

  lemma SymmetricAgree(vars: map<Ident, Location>, wide: map<Ident, Location>, types: map<Ident, Ty>)
    requires Agree(vars, wide, types)
    ensures Agree(wide, vars, types)
  {
  }

  /** The loop in a program, from its start. */
  lemma LetLoopMatches(order: Order, frame: Frame, at: nat, cond: Expr, blk: seq<Stmt>, body: Emitted, test: Emitted,
                       program: seq<Instruction>, types: map<Ident, Ty>, env: Env, core: Core, base: int, fuel: nat)
    returns (n: nat, state: State)
    requires LetLoopAt(order, frame, at, cond, blk, body, test, program, types)
    requires Related(frame.vars, frame.currentStack, types, env, core, base)
    requires base - (frame.currentStack + Pushed(cond, blk, env, fuel)) >= 0
    ensures Mapped(core, base) && Run(program, Running(at, core), n) == Some(state)
    ensures Matches(Exec(While(cond, blk), env, fuel), body.frame.vars, frame.currentStack + Pushed(cond, blk, env, fuel),
                    TypesBehind(cond, blk, types, env, fuel), core, state, at + 2 + |body.code| + 1 + |test.code|, base, n, fuel)
  {
    hide Run, BlockCode, LoopTest, Related, CallerKept, UniqueLabels, At, Exec, Left, CondOk, BodyOk, Pushed, TypesBehind, Matches;
    NamesKnown(frame.vars, frame.currentStack, types, env, core, base);
    FrameMapped(frame.vars, frame.currentStack, types, env, core, base);
    WhileLayout(program, at, at, body.code, test.code);
    var testPos := at + 2 + |body.code|;
    StepJump(program, at, testPos, core);
    var m;
    m, state := FirstRound(order, frame, at, cond, blk, body, test, program, types, env, core, base, fuel);
    Chain(program, Running(at, core), 1, Running(testPos, core), m, state);
    n := 1 + m;
    CallerKeptSame(core, base);
    MatchesLater(Exec(While(cond, blk), env, fuel), body.frame.vars, frame.currentStack + Pushed(cond, blk, env, fuel),
                 TypesBehind(cond, blk, types, env, fuel), core, core, state, testPos + 1 + |test.code|, base, m, 1, fuel, fuel);
  }

  lemma BehindLoop(order: Order, frame: Frame, at: nat, cond: Expr, blk: seq<Stmt>, body: Emitted, test: Emitted)
    requires BlockCode(order, frame, at + 2, blk) == Ok(body) && LoopTest(order, body.frame, cond, JmpWhile(at + 1)) == Ok(test)
    ensures var next := StmtCode(order, frame, at, While(cond, blk)).value.frame;
            StmtCode(order, frame, at, While(cond, blk)).Ok? && next.vars == body.frame.vars
            && next.currentStack == body.frame.currentStack
  {
    hide BlockCode, BuildValue;
  }

  lemma LagOfRounds(rounds: nat, bytes: nat)
    ensures bytes - rounds * bytes == 0 <==> bytes == 0 || rounds == 1
    ensures bytes - rounds * bytes > 0 <==> bytes > 0 && rounds == 0
  {
    OneMore(rounds, bytes);
    if rounds > 0 {
      OneMore(rounds - 1, bytes);
    }
  }

  /** A loop whose body declares variables at its top level matches its source run, for any number of rounds: every
      variable has its value. Behind it RSP lags by the bytes that the body declares, less what each round of the
      source pushed. So it is where the generator takes it to be if and only if the body declares nothing or the
      source ran exactly one round; it is above that place, where the next push erases a variable, if and only if
      the source ran none of a body that declares something. */
  lemma LetLoopRuns(order: Order, frame: Frame, at: nat, cond: Expr, blk: seq<Stmt>, program: seq<Instruction>,
                    types: map<Ident, Ty>, env: Env, core: Core, base: int, fuel: nat) returns (n: nat, state: State)
    requires (CondOk(cond, types) || cond == Value(BoolVal(true))) && BodyOk(blk, types)
    requires StmtCode(order, frame, at, While(cond, blk)).Ok? && UniqueLabels(program)
    requires At(program, at, StmtCode(order, frame, at, While(cond, blk)).value.code)
    requires Related(frame.vars, frame.currentStack, types, env, core, base)
    requires base - (frame.currentStack + Pushed(cond, blk, env, fuel)) >= 0
    ensures Mapped(core, base) && Run(program, Running(at, core), n) == Some(state)
    ensures var built := StmtCode(order, frame, at, While(cond, blk)).value;
            Matches(Exec(While(cond, blk), env, fuel), built.frame.vars, frame.currentStack + Pushed(cond, blk, env, fuel),
                    TypesBehind(cond, blk, types, env, fuel), core, state, at + |built.code|, base, n, fuel)
    ensures Exec(While(cond, blk), env, fuel).Normal? ==>
              var lag := Lag(state.core, StmtCode(order, frame, at, While(cond, blk)).value.frame);
              var bytes, rounds := 8 * LetCount(blk), Rounds(cond, blk, env, fuel);
              && lag == bytes - rounds * bytes
              && (lag == 0 <==> bytes == 0 || rounds == 1)
              && (lag > 0 <==> bytes > 0 && rounds == 0)
  {
    hide Run, BlockCode, Related, CallerKept, UniqueLabels, At, Exec, Left, CondOk, BodyOk, Rounds, CondCode, TypesBehind;
    var body := BlockCode(order, frame, at + 2, blk).value;
    var test := LoopTest(order, body.frame, cond, JmpWhile(at + 1)).value;
    n, state := LetLoopMatches(order, frame, at, cond, blk, body, test, program, types, env, core, base, fuel);
    var outcome := Exec(While(cond, blk), env, fuel);
    if outcome.Normal? {
      StackPlace(body.frame.vars, frame.currentStack + Pushed(cond, blk, env, fuel), TypesBehind(cond, blk, types, env, fuel),
                 outcome.env, state.core, base);
      StackGrows(order, frame, at + 2, blk, types);
      LagOfRounds(Rounds(cond, blk, env, fuel), 8 * LetCount(blk));
      BehindLoop(order, frame, at, cond, blk, body, test);
    }
  }

  lemma NamesKnown(vars: map<Ident, Location>, size: nat, types: map<Ident, Ty>, env: Env, core: Core, base: int)
    requires Related(vars, size, types, env, core, base)
    ensures types.Keys <= vars.Keys
  {
  }

  lemma StackPlace(vars: map<Ident, Location>, size: nat, types: map<Ident, Ty>, env: Env, core: Core, base: int)
    requires Related(vars, size, types, env, core, base)
    ensures core.Reg(RBP) == base && core.Reg(RSP) == base - size
  {
  }
}
