/** Lowering and code generation together: constant folding before code generation does not
    change what the compiled program does. */
module EndToEnd {
  import opened Words
  import opened Lir
  import opened ConstFold
  import opened Machine
  import opened AsmSpec
  import opened ExprProof
  import opened StmtProof
  import opened FuncProof
  import WideLiterals

  function LowerAll(checked: bool, es: seq<Expr>): Option<seq<Expr>> {
    if es == [] then Some([])
    else
      var first :- Lower(checked, es[0]);
      var rest :- LowerAll(checked, es[1..]);
      Some([first] + rest)
  }

  function LowerInits(checked: bool, inits: seq<FieldInit>): Option<seq<FieldInit>>
    decreases inits, 1
  {
    if inits == [] then Some([])
    else
      var first :- LowerInit(checked, inits[0]);
      var rest :- LowerInits(checked, inits[1..]);
      Some([first] + rest)
  }

  function LowerInit(checked: bool, init: FieldInit): Option<FieldInit>
    decreases init, 0
  {
    match init.init
    case One(e) =>
      var low :- Lower(checked, e);
      Some(init.(init := One(low)))
    case Many(items) =>
      var low :- LowerAll(checked, items);
      Some(init.(init := Many(low)))
    case Nested(inits) =>
      var low :- LowerInits(checked, inits);
      Some(init.(init := Nested(low)))
  }

  function LowerItems(checked: bool, items: seq<PayloadItem>): Option<seq<PayloadItem>> {
    if items == [] then Some([])
    else
      var first :- if items[0].Single? then (var low :- Lower(checked, items[0].value); Some(Single(low))) else Some(items[0]);
      var rest :- LowerItems(checked, items[1..]);
      Some([first] + rest)
  }

  function LowerAccess(checked: bool, access: Access): Option<Access>
    decreases access
  {
    match access
    case Whole(_) => Some(access)
    case Element(name, index) =>
      var low :- Lower(checked, index);
      Some(Element(name, low))
    case Inner(name, rest, fields) =>
      var low :- LowerAccess(checked, rest);
      Some(Inner(name, low, fields))
  }

  function LowerStmt(checked: bool, s: Stmt): Option<Stmt>
    decreases s, 0
  {
    match s
    case Assign(x, t, e, isLet) =>
      var low :- Lower(checked, e);
      Some(Assign(x, t, low, isLet))
    case If(cond, blk, els) =>
      var c :- Lower(checked, cond);
      var b :- LowerBlock(checked, blk);
      var e :- LowerBlock(checked, els);
      Some(If(c, b, e))
    case While(cond, blk) =>
      var c :- Lower(checked, cond);
      var b :- LowerBlock(checked, blk);
      Some(While(c, b))
    case Ret(e) =>
      var low :- Lower(checked, e);
      Some(Ret(low))
    case Exit => Some(Exit)
    case Declare(_, _) => Some(s)
    case LetStruct(x, fields, inits) =>
      var low :- LowerInits(checked, inits);
      Some(LetStruct(x, fields, low))
    case LetEnum(x, variants, variant, items) =>
      var low :- LowerItems(checked, items);
      Some(LetEnum(x, variants, variant, low))
    case SetItem(x, index, e) =>
      var i :- Lower(checked, index);
      var low :- Lower(checked, e);
      Some(SetItem(x, i, low))
    case SetField(x, fields, access, e) =>
      var to :- LowerAccess(checked, access);
      var low :- Lower(checked, e);
      Some(SetField(x, fields, to, low))
    case Match(x, variants, arms) =>
      var low :- LowerArms(checked, arms);
      Some(Match(x, variants, low))
  }

  function LowerArms(checked: bool, arms: seq<Arm>): Option<seq<Arm>>
    decreases arms, 1
  {
    if arms == [] then Some([])
    else
      assert arms decreases to arms[0];
      var body :- LowerBlock(checked, arms[0].body);
      var rest :- LowerArms(checked, arms[1..]);
      Some([arms[0].(body := body)] + rest)
  }

  function LowerBlock(checked: bool, stmts: seq<Stmt>): Option<seq<Stmt>>
    decreases stmts, 1
  {
    if stmts == [] then Some([])
    else
      var first :- LowerStmt(checked, stmts[0]);
      var rest :- LowerBlock(checked, stmts[1..]);
      Some([first] + rest)
  }

  /** `x op= e;` becomes an assignment of a binary operation, which is not folded itself. */
  function LowerAssignOp(checked: bool, x: Ident, t: Ty, op: BinOp, e: Expr): Option<Stmt> {
    var low :- Lower(checked, e);
    Some(Assign(x, t, Binary(op, Var(x, t), low, t), false))
  }

  function LowerFuncs(checked: bool, funcs: seq<Func>): Option<seq<Func>>
    decreases |funcs|
  {
    if funcs == [] then Some([])
    else
      var stmts :- LowerBlock(checked, funcs[0].stmts);
      var rest :- LowerFuncs(checked, funcs[1..]);
      Some([funcs[0].(stmts := stmts)] + rest)
  }

  // ---------- builds with and without overflow checks ----------

  lemma EvaluateAgrees(op: BinOp, l: Val, r: Val)
    requires Evaluate(true, op, l, r).Some?
    ensures Evaluate(false, op, l, r) == Evaluate(true, op, l, r)
  {
  }

  lemma {:induction false} FoldAgrees(e: Expr)
    requires Fold(true, e).Some?
    ensures Fold(false, e) == Fold(true, e)
  {
    match e
    case Var(_, _) =>
    case Parens(inner) => FoldAgrees(inner);
    case Unary(_, _, _) =>
    case Binary(op, l, r, _) =>
      FoldAgrees(l);
      FoldAgrees(r);
      if Fold(true, l).value.Value? && Fold(true, r).value.Value? {
        EvaluateAgrees(op, Fold(true, l).value.val, Fold(true, r).value.val);
      }
    case Value(_) =>
  }

  /** A compiler built with overflow checks either panics or folds exactly as one built without. */
  lemma {:induction false} LowerAgrees(e: Expr)
    requires Lower(true, e).Some?
    ensures Lower(false, e) == Lower(true, e)
  {
    match e
    case Var(_, _) =>
    case Parens(inner) =>
      LowerAgrees(inner);
      FoldAgrees(Parens(Lower(true, inner).value));
    case Unary(op, inner, t) =>
      LowerAgrees(inner);
      FoldAgrees(Unary(op, Lower(true, inner).value, t));
    case Binary(op, l, r, t) =>
      LowerAgrees(l);
      LowerAgrees(r);
      FoldAgrees(Binary(op, Lower(true, l).value, Lower(true, r).value, t));
    case Value(_) =>
  }

  /** The lowered expression has the wrap-around meaning of the original, in either build. */
  lemma LoweredValue(checked: bool, e: Expr, env: Env)
    requires Lower(checked, e).Some?
    ensures Eval(false, Lower(checked, e).value, env) == Eval(false, e, env)
  {
    if checked {
      LowerAgrees(e);
    }
    LowerPreservesMeaning(false, e, env);
  }

  // ---------- statements ----------

  lemma {:induction false} LowerStmtPreserves(checked: bool, s: Stmt, env: Env, fuel: nat)
    requires LowerStmt(checked, s).Some?
    ensures Exec(LowerStmt(checked, s).value, env, fuel) == Exec(s, env, fuel)
    decreases fuel, s, 0
  {
    hide Lower, Eval;
    match s
    case Assign(_, _, e, _) => LoweredValue(checked, e, env);
    case If(cond, blk, els) =>
      LoweredValue(checked, cond, env);
      LowerBlockPreserves(checked, blk, env, fuel);
      LowerBlockPreserves(checked, els, env, fuel);
    case While(cond, blk) =>
      if fuel != 0 {
        LoweredValue(checked, cond, env);
        LowerBlockPreserves(checked, blk, env, fuel - 1);
        var round := ExecBlock(blk, env, fuel - 1);
        if round.Normal? {
          LowerStmtPreserves(checked, s, round.env, fuel - 1);
        }
      }
    case Ret(e) => LoweredValue(checked, e, env);
    case _ =>
  }

  lemma {:induction false} LowerBlockPreserves(checked: bool, stmts: seq<Stmt>, env: Env, fuel: nat)
    requires LowerBlock(checked, stmts).Some?
    ensures ExecBlock(LowerBlock(checked, stmts).value, env, fuel) == ExecBlock(stmts, env, fuel)
    decreases fuel, stmts, 1
  {
    if stmts != [] {
      var low := LowerBlock(checked, stmts).value;
      assert low[0] == LowerStmt(checked, stmts[0]).value && low[1..] == LowerBlock(checked, stmts[1..]).value;
      LowerStmtPreserves(checked, stmts[0], env, fuel);
      var first := Exec(stmts[0], env, fuel);
      if first.Normal? {
        LowerBlockPreserves(checked, stmts[1..], first.env, fuel);
      }
    }
  }

  /** A compound assignment reads the variable, evaluates the right side and stores what the operator makes of
      the two; it has no outcome exactly when one of the three has no value. */
  lemma AssignOpRuns(checked: bool, x: Ident, t: Ty, op: BinOp, e: Expr, env: Env, fuel: nat)
    requires LowerAssignOp(checked, x, t, op, e).Some?
    ensures Exec(LowerAssignOp(checked, x, t, op, e).value, env, fuel)
         == if x !in env || Eval(false, e, env).None? then Wrong
            else match Evaluate(false, op, env[x], Eval(false, e, env).value)
                 case Some(v) => Normal(env[x := v])
                 case None => Wrong
  {
    LoweredValue(checked, e, env);
    var low := Lower(checked, e).value;
    assert Eval(false, Var(x, t), env) == if x in env then Some(env[x]) else None;
    assert Eval(false, Binary(op, Var(x, t), low, t), env)
        == if x !in env || Eval(false, low, env).None? then None
           else Evaluate(false, op, env[x], Eval(false, low, env).value);
  }

  // ---------- what is covered, in terms of the source ----------

  /** If the expression has no variables, its value fits an instruction. */
  predicate FitsInstruction(checked: bool, e: Expr) {
    Closed(e) ==> Eval(checked, e, map[]).Some? && Immediate(Eval(checked, e, map[]).value)
  }

  /** Its value, known when code is generated, can be the count of a shift. */
  predicate CountFits(checked: bool, e: Expr) {
    Closed(e) && Eval(checked, e, map[]).Some? && 0 <= Encode(Eval(checked, e, map[]).value) < 256
  }

  lemma CountExactly(checked: bool, e: Expr)
    requires Lower(checked, e).Some?
    ensures CountLiteral(Lower(checked, e).value) <==> CountFits(checked, e)
  {
    LiteralExactly(checked, e);
    if Closed(e) {
      ClosedLowersToLiteral(checked, e);
    } else if CountLiteral(Lower(checked, e).value) {
      CountIsLiteral(Lower(checked, e).value);
    }
  }

  /** What the source has to avoid so that its lowered form is covered. Parts without variables are literals by
      the time code is generated, so nothing in them matters. */
  predicate Supported(checked: bool, e: Expr) {
    Closed(e) ||
    match e
    case Var(_, _) => true
    case Unary(op, inner, t) => op.Not? && t == Bool && inner.TypeOf() == Bool && Supported(checked, inner)
    case Binary(op, l, r, _) =>
      && Supported(checked, l) && Supported(checked, r)
      && !op.Div? && !op.Rem? && !op.RightShift? && (op.LeftShift? ==> CountFits(checked, r))
      && (op.And? || op.Or? ==> l.TypeOf() == Bool)
      && !(op.IsOrdering() && Closed(l))
      && (op.Sub? || FitsInstruction(checked, l)) && FitsInstruction(checked, r)
    case Parens(inner) => Supported(checked, inner)
    case Value(_) => true
  }

  predicate SourceExprOk(checked: bool, e: Expr, types: map<Ident, Ty>) {
    WellTyped(e, types) && Supported(checked, e)
  }

  /** A lowered expression is a literal exactly when the source expression has no variables. */
  lemma LiteralExactly(checked: bool, e: Expr)
    requires Lower(checked, e).Some?
    ensures Lower(checked, e).value.IsLiteral() <==> Closed(e)
    ensures Lower(checked, e).value.Value? <==> Closed(e)
  {
    LowerReachesNormalForm(checked, e);
    NormalLiteral(Lower(checked, e).value);
    if Closed(e) {
      ClosedLowersToLiteral(checked, e);
    }
    if Lower(checked, e).value.Value? {
      LiteralsComeFromClosed(checked, e);
    }
  }

  lemma {:induction false} NormalLiteral(e: Expr)
    requires NormalForm(e)
    ensures e.IsLiteral() ==> e.Value?
  {
    if e.Parens? {
      NormalLiteral(e.expr);
    }
  }

  /** The shape of a lowered node that has variables: its children lowered, under the same operator. */
  lemma LoweredNode(checked: bool, e: Expr)
    requires Lower(checked, e).Some? && !Closed(e)
    ensures e.Var? ==> Lower(checked, e).value == e
    ensures e.Parens? ==> Lower(checked, e.expr).Some? && Lower(checked, e).value == Parens(Lower(checked, e.expr).value)
    ensures e.Unary? ==>
              Lower(checked, e.expr).Some? && Lower(checked, e).value == Unary(e.uop, Lower(checked, e.expr).value, e.ty)
    ensures e.Binary? ==>
              Lower(checked, e.lhs).Some? && Lower(checked, e.rhs).Some?
              && Lower(checked, e).value == Binary(e.op, Lower(checked, e.lhs).value, Lower(checked, e.rhs).value, e.ty)
  {
    LiteralExactly(checked, e);
    match e
    case Parens(inner) =>
      LowerReachesNormalForm(checked, inner);
    case Unary(_, inner, _) => LiteralExactly(checked, inner);
    case Binary(op, l, r, t) =>
      LowerReachesNormalForm(checked, l);
      LowerReachesNormalForm(checked, r);
    case _ =>
  }

  /** A lowered expression is not too wide a literal exactly when the value of the source fits an instruction. */
  lemma SmallExactly(checked: bool, e: Expr)
    requires Lower(checked, e).Some?
    ensures SmallLiteral(Lower(checked, e).value) <==> FitsInstruction(checked, e)
  {
    LiteralExactly(checked, e);
    if Closed(e) {
      ClosedLowersToLiteral(checked, e);
    } else {
      WideLiterals.LiteralIsSmall(Lower(checked, e).value);
    }
  }

  /** A well-typed source expression is covered after lowering if and only if it is supported. */
  lemma {:induction false} SupportedExactly(checked: bool, e: Expr, types: map<Ident, Ty>)
    requires WellTyped(e, types) && Lower(checked, e).Some?
    ensures ExprOk(Lower(checked, e).value, types) <==> Supported(checked, e)
    ensures Lower(checked, e).value.TypeOf() == e.TypeOf()
  {
    LowerKeepsTypes(checked, e, types);
    if Closed(e) {
      LiteralExactly(checked, e);
    } else {
      LoweredNode(checked, e);
      match e
      case Var(_, _) =>
      case Parens(inner) => SupportedExactly(checked, inner, types);
      case Unary(_, inner, _) =>
        SupportedExactly(checked, inner, types);
        LiteralExactly(checked, inner);
      case Binary(_, l, r, _) =>
        SupportedExactly(checked, l, types);
        SupportedExactly(checked, r, types);
        LiteralExactly(checked, l);
        LiteralExactly(checked, r);
        SmallExactly(checked, l);
        SmallExactly(checked, r);
        CountExactly(checked, r);
      case Value(_) =>
    }
  }

  predicate SourceCondOk(checked: bool, e: Expr, types: map<Ident, Ty>) {
    SourceExprOk(checked, e, types) && e.TypeOf() == Bool && !Closed(e)
  }

  /** A condition without variables that is true. */
  predicate AlwaysTrue(checked: bool, e: Expr) {
    Closed(e) && Eval(checked, e, map[]) == Some(BoolVal(true))
  }

  /** A value that is stored in a variable. */
  predicate SourceStored(checked: bool, e: Expr, types: map<Ident, Ty>, t: Ty) {
    SourceExprOk(checked, e, types) && e.TypeOf() == t && FitsInstruction(checked, e)
  }

  predicate SourceStmtOk(checked: bool, s: Stmt, types: map<Ident, Ty>)
    decreases s, 0
  {
    match s
    case Assign(x, t, e, isLet) => !isLet && x in types && types[x] == t && SourceStored(checked, e, types, t)
    case If(cond, blk, els) =>
      SourceCondOk(checked, cond, types) && SourceBlockOk(checked, blk, types) && SourceBlockOk(checked, els, types)
    case While(cond, blk) =>
      (SourceCondOk(checked, cond, types) || AlwaysTrue(checked, cond)) && SourceBlockOk(checked, blk, types)
    case Ret(e) => SourceExprOk(checked, e, types)
    case Exit => true
    case _ => false
  }

  predicate SourceBlockOk(checked: bool, stmts: seq<Stmt>, types: map<Ident, Ty>)
    decreases stmts, 1
  {
    stmts == [] || (SourceStmtOk(checked, stmts[0], types) && SourceBlockOk(checked, stmts[1..], types))
  }

  predicate SourceBodyOk(checked: bool, stmts: seq<Stmt>, types: map<Ident, Ty>)
    decreases |stmts|
  {
    if stmts == [] then true
    else if IsLet(stmts[0]) then
      var s := stmts[0];
      s.ident !in types && SourceStored(checked, s.rval, types, s.ty)
      && SourceBodyOk(checked, stmts[1..], types[s.ident := s.ty])
    else SourceStmtOk(checked, stmts[0], types) && SourceBodyOk(checked, stmts[1..], types)
  }

  /** The functions of the source to which compiler correctness applies. */
  ghost predicate SourceFuncOk(checked: bool, f: Func) {
    && f.stmts != [] && |f.params| <= |ARG_REGS|
    && (forall i, j :: 0 <= i < j < |f.params| ==> f.params[i].ident != f.params[j].ident)
    && SourceBodyOk(checked, f.stmts, ParamTypes(f.params))
  }

  lemma CondCovered(checked: bool, e: Expr, types: map<Ident, Ty>)
    requires Lower(checked, e).Some?
    ensures SourceCondOk(checked, e, types) ==> CondOk(Lower(checked, e).value, types)
    ensures AlwaysTrue(checked, e) ==> Lower(checked, e).value == Value(BoolVal(true))
  {
    if SourceCondOk(checked, e, types) {
      SupportedExactly(checked, e, types);
      LiteralExactly(checked, e);
    }
    if Closed(e) {
      ClosedLowersToLiteral(checked, e);
    }
  }

  lemma {:induction false} StmtCovered(checked: bool, s: Stmt, types: map<Ident, Ty>)
    requires SourceStmtOk(checked, s, types) && LowerStmt(checked, s).Some?
    ensures StmtOk(LowerStmt(checked, s).value, types)
    decreases s, 0
  {
    hide ExprOk, CondOk, Supported, BlockOk, SourceBlockOk;
    match s
    case Assign(_, _, e, _) =>
      SupportedExactly(checked, e, types);
      SmallExactly(checked, e);
    case If(cond, blk, els) =>
      CondCovered(checked, cond, types);
      BlockCovered(checked, blk, types);
      BlockCovered(checked, els, types);
    case While(cond, blk) =>
      CondCovered(checked, cond, types);
      BlockCovered(checked, blk, types);
    case Ret(e) => SupportedExactly(checked, e, types);
    case _ =>
  }

  lemma {:induction false} BlockCovered(checked: bool, stmts: seq<Stmt>, types: map<Ident, Ty>)
    requires SourceBlockOk(checked, stmts, types) && LowerBlock(checked, stmts).Some?
    ensures BlockOk(LowerBlock(checked, stmts).value, types)
    decreases stmts, 1
  {
    hide StmtOk, SourceStmtOk, LowerStmt;
    if stmts != [] {
      StmtCovered(checked, stmts[0], types);
      BlockCovered(checked, stmts[1..], types);
      var low := LowerBlock(checked, stmts).value;
      assert low[0] == LowerStmt(checked, stmts[0]).value && low[1..] == LowerBlock(checked, stmts[1..]).value;
    }
  }

  lemma {:induction false} BodyCovered(checked: bool, stmts: seq<Stmt>, types: map<Ident, Ty>)
    requires SourceBodyOk(checked, stmts, types) && LowerBlock(checked, stmts).Some?
    ensures BodyOk(LowerBlock(checked, stmts).value, types)
    decreases |stmts|
  {
    hide ExprOk, Supported, StmtOk, SourceStmtOk;
    if stmts != [] {
      var low := LowerBlock(checked, stmts).value;
      assert low[0] == LowerStmt(checked, stmts[0]).value && low[1..] == LowerBlock(checked, stmts[1..]).value;
      if IsLet(stmts[0]) {
        SupportedExactly(checked, stmts[0].rval, types);
        SmallExactly(checked, stmts[0].rval);
        BodyCovered(checked, stmts[1..], types[stmts[0].ident := stmts[0].ty]);
      } else {
        StmtCovered(checked, stmts[0], types);
        OkIsNoLet(low[0], types);
        BodyCovered(checked, stmts[1..], types);
      }
    }
  }

  lemma OkIsNoLet(s: Stmt, types: map<Ident, Ty>)
    requires StmtOk(s, types)
    ensures !IsLet(s)
  {
  }

  lemma {:induction false} LowerFuncsAt(checked: bool, funcs: seq<Func>, i: nat)
    requires LowerFuncs(checked, funcs).Some? && i < |funcs|
    ensures var low := LowerFuncs(checked, funcs).value;
            |low| == |funcs| && low[i].ident == funcs[i].ident && low[i].params == funcs[i].params
            && LowerBlock(checked, funcs[i].stmts) == Some(low[i].stmts)
    decreases |funcs|
  {
    if i == 0 {
      if |funcs| > 1 {
        LowerFuncsAt(checked, funcs[1..], 0);
      }
    } else {
      LowerFuncsAt(checked, funcs[1..], i - 1);
    }
  }

  /** From the source program before folding to the machine: a call of any covered function runs in step with
      the source function as it was written. */
  lemma LoweredAndCompiled(checked: bool, order: Order, source: seq<Func>, funcs: seq<Func>, program: seq<Instruction>,
                           i: nat, args: seq<Val>, core: Core, fuel: nat) returns (n: nat, state: State)
    requires LowerFuncs(checked, source) == Some(funcs) && Compiled(order, funcs, program)
    requires i < |source| == |funcs| && SourceFuncOk(checked, source[i]) && Called(source[i], args, core)
    ensures Entry(program, source[i].ident).Some?
    ensures Run(program, Running(Entry(program, source[i].ident).value, core), n) == Some(state)
    ensures CallMatches(source[i], ExecBlock(source[i].stmts, ArgsEnv(source[i].params, args), fuel), core, state, n, fuel)
  {
    hide Run, Compiled, BodyOk, SourceBodyOk;
    LowerFuncsAt(checked, source, i);
    BodyCovered(checked, source[i].stmts, ParamTypes(source[i].params));
    LowerKeepsLets(checked, source[i].stmts);
    n, state := CompilerCorrect(order, funcs, program, i, args, core, fuel);
    LowerBlockPreserves(checked, source[i].stmts, ArgsEnv(source[i].params, args), fuel);
  }

  lemma {:induction false} LowerKeepsLets(checked: bool, stmts: seq<Stmt>)
    requires LowerBlock(checked, stmts).Some?
    ensures var low := LowerBlock(checked, stmts).value; |low| == |stmts| && LetCount(low) == LetCount(stmts)
    decreases |stmts|
  {
    if stmts != [] {
      LowerKeepsLets(checked, stmts[1..]);
      var low := LowerBlock(checked, stmts).value;
      assert low[0] == LowerStmt(checked, stmts[0]).value && low[1..] == LowerBlock(checked, stmts[1..]).value;
    }
  }
}
