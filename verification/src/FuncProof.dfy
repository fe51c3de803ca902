/** Compiler correctness for whole functions and whole programs: a call of a compiled
    function returns exactly when the source function does, with the same value, and gives the
    stack back to its caller. */
module FuncProof {
  import opened Words
  import opened Lir
  import opened Machine
  import opened AsmSpec
  import opened ExprProof
  import opened StmtProof
  import ProgramMarks

  // ---------- the functions covered ----------

  predicate IsLet(s: Stmt) {
    s.Assign? && s.isLet
  }

  /** A function body: `let` declares a new name, and only stands at the top level. */
  predicate BodyOk(stmts: seq<Stmt>, types: map<Ident, Ty>)
    decreases |stmts|
  {
    if stmts == [] then true
    else if IsLet(stmts[0]) then
      var s := stmts[0];
      s.ident !in types && ExprOk(s.rval, types) && s.rval.TypeOf() == s.ty && SmallLiteral(s.rval)
      && BodyOk(stmts[1..], types[s.ident := s.ty])
    else StmtOk(stmts[0], types) && BodyOk(stmts[1..], types)
  }

  /** The names in scope after the whole body. */
  function TypesAfter(stmts: seq<Stmt>, types: map<Ident, Ty>): map<Ident, Ty>
    decreases |stmts|
  {
    if stmts == [] then types
    else if IsLet(stmts[0]) then TypesAfter(stmts[1..], types[stmts[0].ident := stmts[0].ty])
    else TypesAfter(stmts[1..], types)
  }

  function ParamTypes(params: seq<Param>): map<Ident, Ty> {
    if params == [] then map[]
    else ParamTypes(params[..|params| - 1])[params[|params| - 1].ident := params[|params| - 1].ty]
  }

  ghost predicate FuncOk(f: Func) {
    && f.stmts != [] && |f.params| <= |ARG_REGS|
    && (forall i, j :: 0 <= i < j < |f.params| ==> f.params[i].ident != f.params[j].ident)
    && BodyOk(f.stmts, ParamTypes(f.params))
  }

  // ---------- declarations ----------

  lemma {:induction false} EvalIgnores(checked: bool, e: Expr, types: map<Ident, Ty>, env: Env, x: Ident, v: Val)
    requires WellTyped(e, types) && x !in types
    ensures Eval(checked, e, env[x := v]) == Eval(checked, e, env)
  {
    match e
    case Var(_, _) =>
    case Unary(_, inner, _) => EvalIgnores(checked, inner, types, env, x, v);
    case Binary(_, l, r, _) =>
      EvalIgnores(checked, l, types, env, x, v);
      EvalIgnores(checked, r, types, env, x, v);
    case Parens(inner) => EvalIgnores(checked, inner, types, env, x, v);
    case Value(_) =>
  }

  lemma {:induction false} TypedWider(e: Expr, types: map<Ident, Ty>, x: Ident, t: Ty)
    requires WellTyped(e, types) && x !in types
    ensures WellTyped(e, types[x := t])
  {
    match e
    case Var(_, _) =>
    case Unary(_, inner, _) => TypedWider(inner, types, x, t);
    case Binary(_, l, r, _) =>
      TypedWider(l, types, x, t);
      TypedWider(r, types, x, t);
    case Parens(inner) => TypedWider(inner, types, x, t);
    case Value(_) =>
  }

  function NullVal(t: Ty): Val {
    if t == Int then IntVal(0) else BoolVal(false)
  }

  lemma PushRuns(core: Core, src: Location, w: word) returns (after: Core)
    requires Read(core, src) == Some(w) && core.Reg(RSP) - 8 >= 0 && core.Reg(RSP) % 8 == 0
    ensures RunStraight([Push(src, 8)], core) == Some(after)
    ensures after.regs == core.regs[RSP := core.Reg(RSP) - 8] && after.mem == core.mem[core.Reg(RSP) - 8 := w]
  {
    StraightOne(Push(src, 8), core);
    after := core.(regs := core.regs[RSP := core.Reg(RSP) - 8], mem := core.mem[core.Reg(RSP) - 8 := w]);
  }

  /** Pushing the slot of a new variable makes it a variable with the pushed value. */
  lemma PushDeclares(vars: map<Ident, Location>, size: nat, types: map<Ident, Ty>, env: Env, core: Core, base: int,
                     x: Ident, t: Ty, src: Location, v: Val) returns (after: Core)
    requires Related(vars, size, types, env, core, base) && x !in types && base - (size + 8) >= 0 && base % 8 == 0
    requires v.TypeOf() == t && Read(core, src) == Some(Encode(v))
    ensures RunStraight([Push(src, 8)], core) == Some(after)
    ensures Related(vars[x := NumberedOffset(size + 8, RBP)], size + 8, types[x := t], env[x := v], after, base)
    ensures CallerKept(core, after, base)
    ensures forall r :: r != RSP ==> after.Reg(r) == core.Reg(r)
  {
    hide RunStraight, Slots, Encode;
    after := PushRuns(core, src, Encode(v));
    SlotsGrow(vars, types.Keys, size, x);
    assert types[x := t].Keys == types.Keys + {x};
    var vars', env' := vars[x := NumberedOffset(size + 8, RBP)], env[x := v];
    forall y | y in env' ensures vars'[y].NumberedOffset? && vars'[y].base == RBP && Read(after, vars'[y]) == Some(Encode(env'[y])) {
      if y != x {
        assert Read(core, vars[y]) == Some(Encode(env[y]));
        SlotAbove(vars, types.Keys, size, y);
      }
    }
  }

  lemma SlotsGrow(vars: map<Ident, Location>, names: set<Ident>, size: nat, x: Ident)
    requires Slots(vars, names, size) && size % 8 == 0 && x !in names
    ensures Slots(vars[x := NumberedOffset(size + 8, RBP)], names + {x}, size + 8)
  {
  }

  lemma SlotAbove(vars: map<Ident, Location>, names: set<Ident>, size: nat, y: Ident)
    requires Slots(vars, names, size) && y in names
    ensures vars[y].NumberedOffset? && vars[y].base == RBP && vars[y].offset <= size
  {
  }

  /** A declaration runs like an assignment to a variable that was pushed as null. */
  lemma LetRuns(order: Order, frame: Frame, x: Ident, t: Ty, e: Expr, types: map<Ident, Ty>, env: Env, core: Core, base: int)
    returns (after: Core)
    requires x !in types && ExprOk(e, types) && e.TypeOf() == t && SmallLiteral(e)
    requires Related(frame.vars, frame.currentStack, types, env, core, base)
    requires base - (frame.currentStack + 8) >= 0
    requires AssignCode(order, frame, x, e, true).Ok?
    ensures var built := AssignCode(order, frame, x, e, true).value;
            && RunStraight(built.code, core) == Some(after)
            && Eval(false, e, env).Some?
            && Related(built.frame.vars, built.frame.currentStack, types[x := t], env[x := Eval(false, e, env).value], after, base)
            && CallerKept(core, after, base)
  {
    hide Related, RunStraight, BuildValue, FreeReg, WellTyped, Compilable, NoLiteralFirst, Eval;
    var alloc := AllocStack(frame, x);
    var zero := NullVal(t);
    FrameMapped(frame.vars, frame.currentStack, types, env, core, base);
    var mid := PushDeclares(frame.vars, frame.currentStack, types, env, core, base, x, t, ZERO, zero);
    TypedWider(e, types, x, t);
    EvalIgnores(false, e, types, env, x, zero);
    after := AssignRuns(order, alloc.frame, x, e, types[x := t], env[x := zero], mid, base);
    var rest := AssignCode(order, alloc.frame, x, e, false).value;
    LetCode(order, frame, x, e);
    StraightAppend([Push(ZERO, 8)], rest.code, core);
    assert env[x := zero][x := Eval(false, e, env).value] == env[x := Eval(false, e, env).value];
  }

  lemma LetCode(order: Order, frame: Frame, x: Ident, e: Expr)
    requires AssignCode(order, frame, x, e, true).Ok?
    ensures var alloc := AllocStack(frame, x);
            var rest := AssignCode(order, alloc.frame, x, e, false);
            rest.Ok? && AssignCode(order, frame, x, e, true).value == Emitted([Push(ZERO, 8)] + rest.value.code, rest.value.frame)
  {
    var alloc := AllocStack(frame, x);
    var built := BuildValue(order, alloc.frame.vars, alloc.frame.used, e, Yes).value;
    var store := StoreTo(order, alloc.frame.(used := built.used), alloc.frame.vars[x], built.loc).value;
    assert [Push(ZERO, 8)] + built.code + store.code == [Push(ZERO, 8)] + ([] + built.code + store.code);
  }

  function LetCount(stmts: seq<Stmt>): nat {
    if stmts == [] then 0 else (if IsLet(stmts[0]) then 1 else 0) + LetCount(stmts[1..])
  }

  /** The frame grows by one 8-byte slot for each declaration. */
  lemma {:induction false} StackGrows(order: Order, frame: Frame, at: nat, stmts: seq<Stmt>, types: map<Ident, Ty>)
    requires BodyOk(stmts, types) && BlockCode(order, frame, at, stmts).Ok?
    ensures BlockCode(order, frame, at, stmts).value.frame.currentStack == frame.currentStack + 8 * LetCount(stmts)
    decreases |stmts|
  {
    hide BuildValue, ExprOk, StmtOk, FreeReg;
    if stmts != [] {
      var first := StmtCode(order, frame, at, stmts[0]).value;
      if IsLet(stmts[0]) {
        StackGrows(order, first.frame, at + |first.code|, stmts[1..], types[stmts[0].ident := stmts[0].ty]);
      } else {
        CoveredDeclaresNothing(stmts[0], types);
        FrameStays(order, frame, at, stmts[0]);
        StackGrows(order, first.frame, at + |first.code|, stmts[1..], types);
      }
    }
  }

  /** The simulation of a function body with its top-level declarations. */
  lemma {:induction false} BodyRuns(
      order: Order, frame: Frame, at: nat, stmts: seq<Stmt>, program: seq<Instruction>,
      types: map<Ident, Ty>, env: Env, core: Core, base: int, fuel: nat) returns (n: nat, state: State)
    requires BodyOk(stmts, types) && BlockCode(order, frame, at, stmts).Ok?
    requires At(program, at, BlockCode(order, frame, at, stmts).value.code) && UniqueLabels(program)
    requires Related(frame.vars, frame.currentStack, types, env, core, base)
    requires base - BlockCode(order, frame, at, stmts).value.frame.currentStack >= 0
    ensures Mapped(core, base) && Run(program, Running(at, core), n) == Some(state)
    ensures var built := BlockCode(order, frame, at, stmts).value;
            Matches(ExecBlock(stmts, env, fuel), built.frame.vars, built.frame.currentStack, TypesAfter(stmts, types), core, state,
                    at + |built.code|, base, n, fuel)
    decreases |stmts|
  {
    hide Run, StmtCode, StmtOk, Related, CallerKept, UniqueLabels, At, Left, Exec;
    FrameMapped(frame.vars, frame.currentStack, types, env, core, base);
    if stmts == [] {
      n, state := 0, Running(at, core);
      NoStep(program, state);
      CallerKeptSame(core, base);
    } else {
      var first := StmtCode(order, frame, at, stmts[0]).value;
      var rest := BlockCode(order, first.frame, at + |first.code|, stmts[1..]).value;
      AtSplit(program, at, first.code, rest.code);
      var types' := if IsLet(stmts[0]) then types[stmts[0].ident := stmts[0].ty] else types;
      StackGrows(order, first.frame, at + |first.code|, stmts[1..], types');
      n, state := TopStmtRuns(order, frame, at, stmts[0], program, types, env, core, base, fuel);
      var outcome := Exec(stmts[0], env, fuel);
      if outcome.Normal? {
        FrameMapped(first.frame.vars, first.frame.currentStack, types', outcome.env, state.core, base);
        var m, final := BodyRuns(order, first.frame, at + |first.code|, stmts[1..], program, types', outcome.env,
                                 state.core, base, fuel);
        Chain(program, Running(at, core), n, state, m, final);
        MatchesLater(ExecBlock(stmts[1..], outcome.env, fuel), rest.frame.vars, rest.frame.currentStack, TypesAfter(stmts, types),
                     core, state.core, final, at + |first.code| + |rest.code|, base, m, n, fuel, fuel);
        n, state := n + m, final;
      }
    }
  }

  lemma TopStmtRuns(
      order: Order, frame: Frame, at: nat, stmt: Stmt, program: seq<Instruction>,
      types: map<Ident, Ty>, env: Env, core: Core, base: int, fuel: nat) returns (n: nat, state: State)
    requires BodyOk([stmt], types) && StmtCode(order, frame, at, stmt).Ok?
    requires At(program, at, StmtCode(order, frame, at, stmt).value.code) && UniqueLabels(program)
    requires Related(frame.vars, frame.currentStack, types, env, core, base)
    requires base - StmtCode(order, frame, at, stmt).value.frame.currentStack >= 0
    ensures Mapped(core, base) && Run(program, Running(at, core), n) == Some(state)
    ensures var built := StmtCode(order, frame, at, stmt).value;
            Matches(Exec(stmt, env, fuel), built.frame.vars, built.frame.currentStack,
                    if IsLet(stmt) then types[stmt.ident := stmt.ty] else types, core, state,
                    at + |built.code|, base, n, fuel)
  {
    hide Run, Related, CallerKept, UniqueLabels, RunStraight, ExprOk, StmtOk, BuildValue;
    FrameMapped(frame.vars, frame.currentStack, types, env, core, base);
    if IsLet(stmt) {
      LetCode(order, frame, stmt.ident, stmt.rval);
      var code := StmtCode(order, frame, at, stmt).value.code;
      var after := LetRuns(order, frame, stmt.ident, stmt.ty, stmt.rval, types, env, core, base);
      StraightRuns(program, at, code, core);
      n, state := |code|, Running(at + |code|, after);
    } else {
      hide Exec, Matches, At, StmtCode;
      CoveredDeclaresNothing(stmt, types);
      FrameStays(order, frame, at, stmt);
      n, state := StmtRuns(order, frame, at, at, stmt, program, types, env, core, base, fuel);
    }
  }

  // ---------- calls ----------

  function ArgsEnv(params: seq<Param>, args: seq<Val>): Env
    requires |params| == |args|
  {
    if params == [] then map[]
    else
      var last := |params| - 1;
      ArgsEnv(params[..last], args[..last])[params[last].ident := args[last]]
  }

  lemma {:induction false} ParamNames(params: seq<Param>, x: Ident)
    requires x in ParamTypes(params)
    ensures exists i :: 0 <= i < |params| && params[i].ident == x
  {
    if params != [] {
      var last := |params| - 1;
      if params[last].ident != x {
        ParamNames(params[..last], x);
      }
    }
  }

  /** One parameter: its slot is pushed and holds the argument. */
  lemma ParamRuns(frame: Frame, params: seq<Param>, i: nat, args: seq<Val>, core: Core, base: int) returns (after: Core)
    requires i < |params| == |args| && i < |ARG_REGS|
    requires forall j, k :: 0 <= j < k < |params| ==> params[j].ident != params[k].ident
    requires args[i].TypeOf() == params[i].ty && core.Reg(ARG_REGS[i]) == Encode(args[i])
    requires Related(frame.vars, frame.currentStack, ParamTypes(params[..i]), ArgsEnv(params[..i], args[..i]), core, base)
    requires base - (frame.currentStack + 8) >= 0
    ensures RunStraight([Push(RegLoc(ARG_REGS[i]), 8)], core) == Some(after)
    ensures Related(frame.vars[params[i].ident := NumberedOffset(frame.currentStack + 8, RBP)], frame.currentStack + 8,
                    ParamTypes(params[..i + 1]), ArgsEnv(params[..i + 1], args[..i + 1]), after, base)
    ensures CallerKept(core, after, base)
    ensures forall r :: r != RSP ==> after.Reg(r) == core.Reg(r)
  {
    hide RunStraight, Related;
    FrameMapped(frame.vars, frame.currentStack, ParamTypes(params[..i]), ArgsEnv(params[..i], args[..i]), core, base);
    if params[i].ident in ParamTypes(params[..i]) {
      ParamNames(params[..i], params[i].ident);
      assert false;
    }
    assert params[..i + 1][..i] == params[..i] && args[..i + 1][..i] == args[..i];
    after := PushDeclares(frame.vars, frame.currentStack, ParamTypes(params[..i]), ArgsEnv(params[..i], args[..i]),
                          core, base, params[i].ident, params[i].ty, RegLoc(ARG_REGS[i]), args[i]);
  }

  lemma CallerKeptBoth(before: Core, mid: Core, after: Core, base: int)
    requires CallerKept(before, mid, base) && CallerKept(mid, after, base)
    ensures CallerKept(before, after, base)
  {
  }

  /** The arguments fit the parameters and are in the argument registers. */
  ghost predicate ArgsIn(core: Core, params: seq<Param>, args: seq<Val>) {
    && |params| == |args|
    && (forall j, k :: 0 <= j < k < |params| ==> params[j].ident != params[k].ident)
    && (forall j :: 0 <= j < |args| ==> args[j].TypeOf() == params[j].ty)
    && (forall j :: 0 <= j < |args| && j < |ARG_REGS| ==> core.Reg(ARG_REGS[j]) == Encode(args[j]))
  }

  lemma ArgsStay(before: Core, after: Core, params: seq<Param>, args: seq<Val>)
    requires ArgsIn(before, params, args) && forall r :: r != RSP ==> after.Reg(r) == before.Reg(r)
    ensures ArgsIn(after, params, args)
  {
  }

  lemma ParamsStep(frame: Frame, params: seq<Param>, i: nat)
    requires i < |params| && ParamsCode(frame, params, i).Ok?
    ensures i < |ARG_REGS|
    ensures var top := frame.currentStack + 8;
            var next := frame.(currentStack := top, totalStack := frame.totalStack + 8,
                               vars := frame.vars[params[i].ident := NumberedOffset(top, RBP)]);
            && ParamsCode(next, params, i + 1).Ok?
            && var rest := ParamsCode(next, params, i + 1).value;
               ParamsCode(frame, params, i).value == Emitted([Push(RegLoc(ARG_REGS[i]), 8)] + rest.code, rest.frame)
  {
  }

  lemma {:induction false} ParamsRun(frame: Frame, params: seq<Param>, i: nat, args: seq<Val>, core: Core, base: int)
    returns (after: Core)
    requires i <= |params| == |args| && ParamsCode(frame, params, i).Ok? && ArgsIn(core, params, args)
    requires Related(frame.vars, frame.currentStack, ParamTypes(params[..i]), ArgsEnv(params[..i], args[..i]), core, base)
    requires base - (frame.currentStack + 8 * (|params| - i)) >= 0
    ensures var built := ParamsCode(frame, params, i).value;
            && RunStraight(built.code, core) == Some(after)
            && built.frame.currentStack == frame.currentStack + 8 * (|params| - i)
            && Related(built.frame.vars, built.frame.currentStack, ParamTypes(params), ArgsEnv(params, args), after, base)
            && CallerKept(core, after, base)
    decreases |params| - i
  {
    hide RunStraight, Related, ParamTypes, ArgsEnv, CallerKept;
    if i == |params| {
      assert params[..i] == params && args[..i] == args;
      after := core;
      StraightNone(core);
      CallerKeptSame(core, base);
    } else {
      ParamsStep(frame, params, i);
      var top := frame.currentStack + 8;
      var next := frame.(currentStack := top, totalStack := frame.totalStack + 8,
                         vars := frame.vars[params[i].ident := NumberedOffset(top, RBP)]);
      hide ParamsCode;
      var mid := ParamRuns(frame, params, i, args, core, base);
      ArgsStay(core, mid, params, args);
      hide ArgsIn;
      after := ParamsRun(next, params, i + 1, args, mid, base);
      CallerKeptBoth(core, mid, after, base);
      StraightAppend([Push(RegLoc(ARG_REGS[i]), 8)], ParamsCode(next, params, i + 1).value.code, core);
    }
  }

  /** A call with these arguments: they are in the argument registers, the return address is on
      top of the stack, and there is room below it for the function's frame. */
  ghost predicate Called(f: Func, args: seq<Val>, core: Core) {
    && |args| == |f.params|
    && (forall j :: 0 <= j < |args| ==> args[j].TypeOf() == f.params[j].ty)
    && (forall j :: 0 <= j < |args| && j < |ARG_REGS| ==> core.Reg(ARG_REGS[j]) == Encode(args[j]))
    && Mapped(core, core.Reg(RSP)) && core.Reg(RSP) + 8 <= WORD_MAX
    && core.Reg(RSP) >= 8 + 8 * (|f.params| + LetCount(f.stmts))
  }

  /** The call is over: the return address is popped, the caller's frame pointer is restored and
      its part of the stack is unchanged. */
  ghost predicate GaveBack(before: Core, state: State) {
    && state.Halted?
    && state.core.Reg(RSP) == before.Reg(RSP) + 8
    && state.core.Reg(RBP) == before.Reg(RBP)
    && CallerKept(before, state.core, before.Reg(RSP))
  }

  ghost predicate CallMatches(f: Func, outcome: Outcome, before: Core, state: State, steps: nat, fuel: nat) {
    match outcome
    case Returned(v) => GaveBack(before, state) && state.core.Reg(RAX) == Encode(v)
    case Normal(_) => GaveBack(before, state) && (f.ident == MAIN ==> state.core.Reg(RAX) == 0)
    case Exited => GaveBack(before, state)
    case OutOfFuel => state.Running? && steps >= fuel
    case Wrong => false
  }

  /** `pushq %rbp; mov %rsp, %rbp` opens a frame with no variables yet. */
  lemma PrologueRuns(program: seq<Instruction>, at: nat, f: Func, args: seq<Val>, core: Core, vars: map<Ident, Location>)
    returns (after: Core, base: int)
    requires Called(f, args, core) && |f.params| <= |ARG_REGS|
    requires At(program, at, Prologue(f.ident))
    ensures Run(program, Running(at + 1, core), 3) == Some(Running(at + 4, after))
    ensures base == core.Reg(RSP) - 8 && Mapped(after, base) && after.mem[base] == core.Reg(RBP)
    ensures Related(vars, 0, map[], map[], after, base) && CallerKept(core, after, core.Reg(RSP))
    ensures forall j :: 0 <= j < |args| ==> after.Reg(ARG_REGS[j]) == Encode(args[j])
  {
    var code := Prologue(f.ident);
    assert code == [Meta(f.ident)] + ([LabelDef(FuncLabel(f.ident))] + ([Push(RegLoc(RBP), 8)] + [Mov(RegLoc(RSP), RegLoc(RBP))]));
    AtSplit(program, at, [code[0]], [code[1]] + ([code[2]] + [code[3]]));
    AtSplit(program, at + 1, [code[1]], [code[2]] + [code[3]]);
    AtOne(program, at + 1, code[1]);
    hide Run, RunStraight;
    StepLabel(program, at + 1, core);
    var mid := PushRuns(core, RegLoc(RBP), core.Reg(RBP));
    base := core.Reg(RSP) - 8;
    after := mid.(regs := mid.regs[RBP := base]);
    MoveToRegRuns(mid, RegLoc(RSP), RBP);
    StraightOne(code[3], mid);
    StraightAppend([code[2]], [code[3]], core);
    StraightRuns(program, at + 2, [code[2]] + [code[3]], core);
    Chain(program, Running(at + 1, core), 1, Running(at + 2, core), 2, Running(at + 4, after));
  }

  lemma EpilogueRuns(program: seq<Instruction>, at: nat, f: Func, vars: map<Ident, Location>, size: nat,
                     types: map<Ident, Ty>, env: Env, core: Core, base: int) returns (n: nat, state: State)
    requires At(program, at, Epilogue(f.ident)) && Related(vars, size, types, env, core, base)
    ensures Mapped(core, base) && Run(program, Running(at, core), n) == Some(state)
    ensures Left(core, state, base) && (f.ident == MAIN ==> state.core.Reg(RAX) == 0)
  {
    hide Run, RunStraight, Related;
    FrameMapped(vars, size, types, env, core, base);
    if f.ident == MAIN {
      var set0 := SizedMov(ZERO, RegLoc(RAX), 8);
      AtSplit(program, at, [set0], [Leave, Return]);
      StraightOne(set0, core);
      MoveToRegRuns(core, ZERO, RAX);
      var mid := core.(regs := core.regs[RAX := 0]);
      StraightRuns(program, at, [set0], core);
      RelatedKept(vars, size, types, env, core, mid, base);
      state := LeaveRuns(program, at + 1, vars, size, types, env, mid, base);
      Chain(program, Running(at, core), 1, Running(at + 1, mid), 2, state);
      n := 3;
    } else {
      assert Epilogue(f.ident) == [Leave, Return];
      state := LeaveRuns(program, at, vars, size, types, env, core, base);
      n := 2;
    }
  }

  lemma FuncLayout(program: seq<Instruction>, at: nat, head: seq<Instruction>, params: seq<Instruction>,
                   body: seq<Instruction>, tail: seq<Instruction>)
    requires At(program, at, head + params + body + tail)
    ensures At(program, at, head) && At(program, at + |head|, params)
    ensures At(program, at + |head| + |params|, body) && At(program, at + |head| + |params| + |body|, tail)
  {
    AtSplit(program, at, head + params + body, tail);
    AtSplit(program, at, head + params, body);
    AtSplit(program, at, head, params);
  }

  /** From the frame of the body back to the caller. */
  lemma FrameGivesBack(core: Core, entered: Core, state: State, base: int)
    requires base == core.Reg(RSP) - 8 && Mapped(entered, base) && entered.mem[base] == core.Reg(RBP)
    requires CallerKept(core, entered, core.Reg(RSP)) && Left(entered, state, base)
    ensures GaveBack(core, state)
  {
  }

  /** Compiler correctness for one function, placed anywhere in a program with unique labels. */
  lemma FuncRuns(order: Order, frame: Frame, at: nat, f: Func, program: seq<Instruction>, args: seq<Val>, core: Core, fuel: nat)
    returns (n: nat, state: State)
    requires FuncOk(f) && Called(f, args, core) && frame.currentStack == 0
    requires FuncCode(order, frame, at, f).Ok? && At(program, at, FuncCode(order, frame, at, f).value.code)
    requires UniqueLabels(program)
    ensures Run(program, Running(at + 1, core), n) == Some(state)
    ensures CallMatches(f, ExecBlock(f.stmts, ArgsEnv(f.params, args), fuel), core, state, n, fuel)
  {
    hide Run, RunStraight, BlockCode, ParamsCode, Prologue, Epilogue, Related, UniqueLabels, At, BodyOk, ExecBlock, CallerKept, Left;
    var named := frame.(vars := frame.vars[f.ident := LabelLoc(FuncLabel(f.ident))]);
    var params := ParamsCode(named, f.params, 0).value;
    PrologueLength(f.ident);
    var start := at + 4 + |params.code|;
    var body := BlockCode(order, params.frame, start, f.stmts).value;
    FuncLayout(program, at, Prologue(f.ident), params.code, body.code, Epilogue(f.ident));
    var entered, base := PrologueRuns(program, at, f, args, core, named.vars);
    assert f.params[..0] == [] && args[..0] == [];
    var ready := ParamsRun(named, f.params, 0, args, entered, base);
    var types, env := ParamTypes(f.params), ArgsEnv(f.params, args);
    CodeRuns(program, at + 4, params.code, entered, ready);
    StackGrows(order, params.frame, start, f.stmts, types);
    var m, mid := BodyRuns(order, params.frame, start, f.stmts, program, types, env, ready, base, fuel);
    var outcome := ExecBlock(f.stmts, env, fuel);
    Chain(program, Running(at + 1, core), 3, Running(at + 4, entered), |params.code|, Running(start, ready));
    Chain(program, Running(at + 1, core), 3 + |params.code|, Running(start, ready), m, mid);
    MatchesLater(outcome, body.frame.vars, body.frame.currentStack, TypesAfter(f.stmts, types), entered, ready, mid,
                 start + |body.code|, base, m, 3 + |params.code|, fuel, fuel);
    n, state := 3 + |params.code| + m, mid;
    if outcome.Normal? {
      var k;
      k, state := EpilogueRuns(program, start + |body.code|, f, body.frame.vars, body.frame.currentStack,
                               TypesAfter(f.stmts, types), outcome.env, mid.core, base);
      Chain(program, Running(at + 1, core), n, mid, k, state);
      LeftLater(entered, mid.core, state, base);
      n := n + k;
    }
    if !outcome.OutOfFuel? {
      FrameGivesBack(core, entered, state, base);
    }
  }

  lemma PrologueLength(name: Ident)
    ensures |Prologue(name)| == 4
  {
  }

  lemma LeftLater(before: Core, mid: Core, state: State, base: int)
    requires Mapped(before, base) && CallerKept(before, mid, base) && Mapped(mid, base) && Left(mid, state, base)
    ensures Left(before, state, base)
  {
  }

  // ---------- programs ----------

  /** The place of a function's code in the buffer, and the generator's state when it got there. */
  lemma {:induction false} FuncPlace(order: Order, frame: Frame, at: nat, funcs: seq<Func>, program: seq<Instruction>, i: nat)
    returns (frameI: Frame, atI: nat)
    requires i < |funcs| && ProgramCode(order, frame, at, funcs).Ok? && frame.currentStack == 0
    requires At(program, at, ProgramCode(order, frame, at, funcs).value.code)
    ensures frameI.currentStack == 0 && FuncCode(order, frameI, atI, funcs[i]).Ok?
    ensures At(program, atI, FuncCode(order, frameI, atI, funcs[i]).value.code)
    decreases i
  {
    var first := FuncCode(order, frame, at, funcs[0]).value;
    var rest := ProgramCode(order, first.frame, at + |first.code|, funcs[1..]).value;
    AtSplit(program, at, first.code, rest.code);
    if i == 0 {
      frameI, atI := frame, at;
    } else {
      hide BlockCode, ParamsCode, Prologue, Epilogue, At;
      frameI, atI := FuncPlace(order, first.frame, at + |first.code|, funcs[1..], program, i - 1);
    }
  }

  /** The address of a function: where its label is. */
  function Entry(program: seq<Instruction>, name: Ident): Option<nat> {
    FindLabel(program, FuncLabel(name), 0)
  }

  lemma EntryIs(order: Order, frame: Frame, at: nat, f: Func, program: seq<Instruction>)
    requires f.stmts != [] && FuncCode(order, frame, at, f).Ok? && UniqueLabels(program)
    requires At(program, at, FuncCode(order, frame, at, f).value.code)
    ensures Entry(program, f.ident) == Some(at + 1)
  {
    var code := FuncCode(order, frame, at, f).value.code;
    assert code[1] == LabelDef(FuncLabel(f.ident));
    assert program[at + 1] == program[at..at + |code|][1];
    FindLabelSkips(program, FuncLabel(f.ident), 0, at + 1);
  }

  /** The program is the code of these functions, and the labels read off their source are different. Any of
      them may hold statements that are not covered. */
  ghost predicate Compiled(order: Order, funcs: seq<Func>, program: seq<Instruction>) {
    && ProgramCode(order, EMPTY_FRAME, 0, funcs).Ok? && ProgramMarks.UniqueMarks(order, funcs)
    && program == ProgramCode(order, EMPTY_FRAME, 0, funcs).value.code
  }

  /** Compiler correctness: in the code of a whole program, calling any covered function with any
      arguments runs in step with the source function, for every amount of fuel. */
  lemma CompilerCorrect(order: Order, funcs: seq<Func>, program: seq<Instruction>, i: nat, args: seq<Val>, core: Core, fuel: nat)
    returns (n: nat, state: State)
    requires Compiled(order, funcs, program)
    requires i < |funcs| && FuncOk(funcs[i]) && Called(funcs[i], args, core)
    ensures Entry(program, funcs[i].ident).Some?
    ensures Run(program, Running(Entry(program, funcs[i].ident).value, core), n) == Some(state)
    ensures CallMatches(funcs[i], ExecBlock(funcs[i].stmts, ArgsEnv(funcs[i].params, args), fuel), core, state, n, fuel)
  {
    hide Run, FuncCode, ExecBlock, BodyOk, ProgramCode, ProgramMarks.UniqueMarks;
    ProgramMarks.UniqueByMarks(order, funcs);
    assert program[0..|program|] == program;
    var frameI, atI := FuncPlace(order, EMPTY_FRAME, 0, funcs, program, i);
    EntryIs(order, frameI, atI, funcs[i], program);
    n, state := FuncRuns(order, frameI, atI, funcs[i], program, args, core, fuel);
  }

  ghost predicate SourceEnds(f: Func, args: seq<Val>)
    requires |args| == |f.params|
  {
    exists fuel: nat :: !ExecBlock(f.stmts, ArgsEnv(f.params, args), fuel).OutOfFuel?
  }

  ghost predicate MachineEnds(program: seq<Instruction>, start: State) {
    exists n: nat :: Run(program, start, n).Some? && Run(program, start, n).value.Halted?
  }

  /** The compiled call returns if and only if the source call ends. */
  lemma EndsTogether(order: Order, funcs: seq<Func>, program: seq<Instruction>, i: nat, args: seq<Val>, core: Core)
    requires Compiled(order, funcs, program)
    requires i < |funcs| && FuncOk(funcs[i]) && Called(funcs[i], args, core)
    ensures Entry(program, funcs[i].ident).Some?
    ensures SourceEnds(funcs[i], args) <==> MachineEnds(program, Running(Entry(program, funcs[i].ident).value, core))
  {
    hide Run, ExecBlock, FuncOk, Compiled;
    var f := funcs[i];
    var _, _ := CompilerCorrect(order, funcs, program, i, args, core, 0);
    var start := Running(Entry(program, f.ident).value, core);
    if SourceEnds(f, args) {
      var fuel: nat :| !ExecBlock(f.stmts, ArgsEnv(f.params, args), fuel).OutOfFuel?;
      var n, state := CompilerCorrect(order, funcs, program, i, args, core, fuel);
      assert Run(program, start, n).Some? && Run(program, start, n).value.Halted?;
    }
    if MachineEnds(program, start) {
      var n: nat :| Run(program, start, n).Some? && Run(program, start, n).value.Halted?;
      var m, state := CompilerCorrect(order, funcs, program, i, args, core, n + 1);
      if ExecBlock(f.stmts, ArgsEnv(f.params, args), n + 1).OutOfFuel? {
        HaltsOnce(program, start, n, m);
      }
    }
  }

  /** Whatever halted state a compiled call reaches, it is the one the source outcome demands:
      in particular a returned value is in RAX. */
  lemma ReturnsSourceValue(order: Order, funcs: seq<Func>, program: seq<Instruction>, i: nat, args: seq<Val>, core: Core,
                           n: nat, fuel: nat)
    requires Compiled(order, funcs, program)
    requires i < |funcs| && FuncOk(funcs[i]) && Called(funcs[i], args, core)
    requires Entry(program, funcs[i].ident).Some?
    requires var run := Run(program, Running(Entry(program, funcs[i].ident).value, core), n); run.Some? && run.value.Halted?
    requires !ExecBlock(funcs[i].stmts, ArgsEnv(funcs[i].params, args), fuel).OutOfFuel?
    ensures CallMatches(funcs[i], ExecBlock(funcs[i].stmts, ArgsEnv(funcs[i].params, args), fuel), core,
                        Run(program, Running(Entry(program, funcs[i].ident).value, core), n).value, n, fuel)
  {
    hide Run, ExecBlock, FuncOk, Compiled;
    var start := Running(Entry(program, funcs[i].ident).value, core);
    var m, state := CompilerCorrect(order, funcs, program, i, args, core, fuel);
    if m < n {
      HaltsOnce(program, start, m, n);
    } else if n < m {
      HaltsOnce(program, start, n, m);
    }
  }
}
