/** A second `let` of a name, which the type checker accepts for names that start with `_`. The slot is made and
    the name bound to it before the initialiser is generated, so an initialiser that mentions the name reads
    the new slot, which is null. */
module Redeclared {
  import opened Words
  import opened Lir
  import opened Machine
  import opened AsmSpec
  import opened ExprProof
  import opened StmtProof
  import opened FuncProof
  import opened ElementProof
  import opened Lagging

  predicate Mentions(e: Expr, x: Ident) {
    match e
    case Var(y, _) => y == x
    case Unary(_, inner, _) => Mentions(inner, x)
    case Binary(_, l, r, _) => Mentions(l, x) || Mentions(r, x)
    case Parens(inner) => Mentions(inner, x)
    case Value(_) => false
  }

  lemma {:induction false} EvalUnmentioned(e: Expr, env: Env, x: Ident, v: Val)
    requires !Mentions(e, x)
    ensures Eval(false, e, env[x := v]) == Eval(false, e, env)
  {
    match e
    case Var(_, _) =>
    case Unary(_, inner, _) => EvalUnmentioned(inner, env, x, v);
    case Binary(_, l, r, _) =>
      EvalUnmentioned(l, env, x, v);
      EvalUnmentioned(r, env, x, v);
    case Parens(inner) => EvalUnmentioned(inner, env, x, v);
    case Value(_) =>
  }

  /** The new slot hides the old one. */
  lemma HoldingHidden(vars: map<Ident, Location>, env: Env, core: Core, mid: Core, x: Ident, offset: nat, t: Ty)
    requires Holding(vars, env, core) && mid.Reg(RBP) == core.Reg(RBP) && (core.Reg(RBP) - offset) % 8 == 0
    requires mid.mem == core.mem[core.Reg(RBP) - offset := 0] && forall y :: y in env ==> vars[y].offset != offset
    ensures Holding(vars[x := NumberedOffset(offset, RBP)], env[x := NullVal(t)], mid)
  {
    forall y | y in env && y != x ensures Read(mid, vars[y]) == Some(Encode(env[y])) {
      assert Read(core, vars[y]) == Some(Encode(env[y]));
    }
  }

  /** The slot of the new variable is stored to; the old slot of the name does not matter any more. */
  lemma HoldingAgain(vars: map<Ident, Location>, env: Env, core: Core, after: Core, x: Ident, offset: nat, v: Val)
    requires Holding(vars, env, core) && x in vars && vars[x] == NumberedOffset(offset, RBP) && Mapped(core, core.Reg(RBP) - offset)
    requires forall y :: y in env && y != x ==> vars[y].offset != offset
    requires after.mem == core.mem[core.Reg(RBP) - offset := Encode(v)] && after.Reg(RBP) == core.Reg(RBP)
    ensures Holding(vars, env[x := v], after)
  {
    forall y | y in env && y != x ensures Read(after, vars[y]) == Some(Encode(env[y])) {
      assert Read(core, vars[y]) == Some(Encode(env[y]));
    }
  }

  /** `let x = e;` when `x` is in scope already: the new variable gets the value of the initialiser with the name
      read as null, which is the value of the source when the initialiser does not mention the name. Other
      variables keep theirs. */
  lemma LetAgainRuns(order: Order, frame: Frame, x: Ident, t: Ty, e: Expr, types: map<Ident, Ty>, env: Env, core: Core,
                     base: int) returns (v: Val, after: Core)
    requires x in types && ExprOk(e, types[x := t]) && e.TypeOf() == t && SmallLiteral(e)
    requires Related(frame.vars, frame.currentStack, types, env, core, base) && base % 8 == 0
    requires base - (frame.currentStack + 8) >= 0 && AssignCode(order, frame, x, e, true).Ok?
    ensures var built := AssignCode(order, frame, x, e, true).value;
            && Eval(false, e, env[x := NullVal(t)]) == Some(v) && RunStraight(built.code, core) == Some(after)
            && Holding(built.frame.vars, env[x := v], after)
            && (Read(after, built.frame.vars[x]) == Some(Encode(v)))
    ensures !Mentions(e, x) ==> Some(v) == Eval(false, e, env)
  {
    hide Read, RunStraight, StoreThrough, AssignCode, ExprOk, Eval, Holding, EnvTyped, Slots;
    var alloc := AllocStack(frame, x);
    var top := frame.currentStack + 8;
    var shadow := env[x := NullVal(t)];
    ZeroReads(core);
    var mid := PushRuns(core, ZERO, 0);
    BelowTop(frame.vars, types, frame.currentStack, env);
    HoldingHidden(frame.vars, env, core, mid, x, top, t);
    ShadowTyped(env, types, x, t);
    LetCode(order, frame, x, e);
    AssignIsStore(order, alloc.frame, x, e);
    var target := Built([], alloc.frame.used, NumberedOffset(top, RBP));
    v, after := StoreThroughRuns(order, alloc.frame, target, e, types[x := t], shadow, mid, base - top);
    var store := StoreThrough(order, alloc.frame, target, e).value.code;
    assert store[|target.code|..] == store;
    StraightAppend([Push(ZERO, 8)], store, core);
    FrameOfLet(order, alloc.frame, x, e);
    HoldingAgain(alloc.frame.vars, shadow, mid, after, x, top, v);
    assert shadow[x := v] == env[x := v];
    ReadsOwn(alloc.frame.vars, env, x, v, after);
    if !Mentions(e, x) {
      EvalUnmentioned(e, env, x, NullVal(t));
    }
  }

  lemma ReadsOwn(vars: map<Ident, Location>, env: Env, x: Ident, v: Val, core: Core)
    requires Holding(vars, env[x := v], core)
    ensures x in vars && Read(core, vars[x]) == Some(Encode(v))
  {
    assert x in env[x := v];
  }

  lemma BelowTop(vars: map<Ident, Location>, types: map<Ident, Ty>, size: nat, env: Env)
    requires Slots(vars, types.Keys, size) && EnvTyped(env, types)
    ensures forall y :: y in env ==> y in vars && vars[y].NumberedOffset? && vars[y].offset != size + 8
  {
  }

  lemma ShadowTyped(env: Env, types: map<Ident, Ty>, x: Ident, t: Ty)
    requires EnvTyped(env, types)
    ensures EnvTyped(env[x := NullVal(t)], types[x := t])
  {
  }
}
