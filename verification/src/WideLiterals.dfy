/** Literals that need more than 32 bits. Arithmetic instructions and comparisons cannot hold them, moves to
    registers can: whether the code of an expression can be run depends on where its literals stand. */
module WideLiterals {
  import opened Lir
  import opened Machine
  import opened AsmSpec
  import opened ExprProof

  /** The scalar expressions that the generator handles, literals of any size included. */
  predicate Emittable(e: Expr) {
    match e
    case Var(_, _) => true
    case Unary(op, inner, t) =>
      op.Not? && t == Bool && inner.TypeOf() == Bool && Emittable(inner) && !inner.IsLiteral()
    case Binary(op, l, r, _) =>
      && Emittable(l) && Emittable(r)
      && !op.Div? && !op.Rem? && !op.RightShift? && (op.LeftShift? ==> r.IsLiteral())
      && (op.And? || op.Or? ==> l.TypeOf() == Bool)
      && (l.IsLiteral() && r.IsLiteral() ==> op.Sub?)
    case Parens(inner) => Emittable(inner)
    case Value(_) => true
  }

  /** No literal operand is too wide for its instruction. The one from which something is subtracted may be; the
      count of a shift has 8 bits. */
  predicate LiteralsFit(e: Expr) {
    match e
    case Unary(_, inner, _) => LiteralsFit(inner)
    case Binary(op, l, r, _) => LiteralsFit(l) && LiteralsFit(r) && (op.Sub? || SmallLiteral(l)) && SmallLiteral(r)
                              && (op.LeftShift? ==> CountLiteral(r))
    case Parens(inner) => LiteralsFit(inner)
    case _ => true
  }

  lemma {:induction false} CompilableExactly(e: Expr)
    ensures Compilable(e) <==> Emittable(e) && LiteralsFit(e)
  {
    match e
    case Unary(_, inner, _) => CompilableExactly(inner);
    case Binary(_, l, r, _) =>
      CompilableExactly(l);
      CompilableExactly(r);
      if CountLiteral(r) {
        CountIsLiteral(r);
      }
    case Parens(inner) => CompilableExactly(inner);
    case _ =>
  }

  // ---------- code that cannot be run ----------

  /** An instruction with a literal that it cannot hold. */
  predicate TooWide(inst: Instruction) {
    ((inst.Math? || inst.Cmp?) && !Small(inst.src)) || (inst.Math? && inst.op.IsShift() && !IsCount(inst.src))
  }

  ghost predicate HoldsWide(code: seq<Instruction>) {
    exists i :: 0 <= i < |code| && TooWide(code[i])
  }

  lemma {:induction false} WideIsStuck(code: seq<Instruction>, core: Core)
    requires HoldsWide(code)
    ensures RunStraight(code, core).None?
    decreases |code|
  {
    var i :| 0 <= i < |code| && TooWide(code[i]);
    if i > 0 {
      var next := StepCore(code[0], core);
      if next.Some? {
        assert TooWide(code[1..][i - 1]);
        WideIsStuck(code[1..], next.value);
      }
    }
  }

  lemma WideInFront(a: seq<Instruction>, b: seq<Instruction>)
    requires HoldsWide(a)
    ensures HoldsWide(a + b)
  {
    var i :| 0 <= i < |a| && TooWide(a[i]);
    assert TooWide((a + b)[i]);
  }

  lemma WideBehind(a: seq<Instruction>, b: seq<Instruction>)
    requires HoldsWide(b)
    ensures HoldsWide(a + b)
  {
    var i :| 0 <= i < |b| && TooWide(b[i]);
    assert TooWide((a + b)[|a| + i]);
  }

  lemma WideHere(code: seq<Instruction>, i: nat)
    requires i < |code| && TooWide(code[i])
    ensures HoldsWide(code)
  {
  }

  /** The literal operand of an operation, if there is one, is the source of its instruction. */
  lemma OperateWide(order: Order, used: set<Register>, left: Location, right: Location, op: BinOp)
    requires (left.Const? && !Small(left)) || (op.IsShift() && !IsCount(left))
    requires !right.NumberedOffset? && !right.NamedOffset? && Operate(order, used, left, right, op).Ok?
    ensures HoldsWide(Operate(order, used, left, right, op).value.code)
  {
    hide FreeReg, FlagOf;
    var code := Operate(order, used, left, right, op).value.code;
    WideHere(code, if op.IsCmp() then 1 else 0);
  }

  lemma CombineWide(order: Order, used: set<Register>, lloc: Location, rloc: Location, op: BinOp, canClear: CanClearRegs)
    requires Combine(order, used, lloc, rloc, op, canClear).Ok? && !op.Div? && !op.Rem?
    requires !lloc.NamedOffset? && !rloc.NamedOffset?
    requires || !HasCount(op, lloc, rloc)
             || if rloc.Const? then !Small(rloc) && (lloc.Const? ==> op.Sub?) else lloc.Const? && !Small(lloc) && !op.Sub?
    ensures HoldsWide(Combine(order, used, lloc, rloc, op, canClear).value.code)
  {
    hide FreeReg, Operate, HoldsWide;
    var o := OrderOperands(order, used, lloc, rloc, op).value;
    var b := LoadRight(order, o.used, o.right).value;
    var d := Operate(order, b.used, o.left, b.loc, op).value;
    OperateWide(order, b.used, o.left, b.loc, op);
    WideBehind(o.code + b.code, d.code);
    if !d.loc.RegLoc? {
      WideInFront(o.code + b.code + d.code, [Mov(d.loc, RegLoc(FreeReg(order, d.used).value))]);
    }
  }

  /** Where the value of an expression is: a literal stays one, anything else is a slot or a register. */
  lemma {:induction false} PlaceOf(order: Order, vars: map<Ident, Location>, used: set<Register>, e: Expr,
                                   canClear: CanClearRegs, types: map<Ident, Ty>, env: Env, core: Core)
    requires WellTyped(e, types) && EnvTyped(env, types) && Holding(vars, env, core)
    requires BuildValue(order, vars, used, e, canClear).Ok?
    ensures var loc := BuildValue(order, vars, used, e, canClear).value.loc;
            && (loc.Const? <==> e.IsLiteral()) && !loc.NamedOffset?
            && (e.IsLiteral() ==> (Small(loc) <==> SmallLiteral(e)) && (IsCount(loc) <==> CountLiteral(e)))
    decreases e
  {
    hide Combine, Negate, FreeReg, Read;
    match e
    case Parens(inner) => PlaceOf(order, vars, used, inner, canClear, types, env, core);
    case Unary(op, inner, t) =>
      var operand := BuildValue(order, vars, used, inner, canClear).value;
      NegateInReg(order, operand.used, operand.loc, op, t);
    case Binary(op, l, r, _) =>
      var left := BuildValue(order, vars, used, l, No).value;
      var right := BuildValue(order, vars, left.used, r, No).value;
      CombineInReg(order, right.used, left.loc, right.loc, op, canClear);
    case _ =>
  }

  lemma NegateInReg(order: Order, used: set<Register>, operand: Location, op: UnOp, ty: Ty)
    requires Negate(order, used, operand, op, ty).Ok?
    ensures Negate(order, used, operand, op, ty).value.loc.RegLoc?
  {
    hide FreeReg;
  }

  lemma CombineInReg(order: Order, used: set<Register>, lloc: Location, rloc: Location, op: BinOp, canClear: CanClearRegs)
    requires Combine(order, used, lloc, rloc, op, canClear).Ok?
    ensures Combine(order, used, lloc, rloc, op, canClear).value.loc.RegLoc?
  {
    hide FreeReg, OrderOperands, LoadRight, Operate;
  }

  /** A literal that does not fit ends up in an instruction. */
  lemma {:induction false} WideIsEmitted(order: Order, vars: map<Ident, Location>, used: set<Register>, e: Expr,
                                         canClear: CanClearRegs, types: map<Ident, Ty>, env: Env, core: Core)
    requires WellTyped(e, types) && EnvTyped(env, types) && Holding(vars, env, core)
    requires Emittable(e) && !LiteralsFit(e) && BuildValue(order, vars, used, e, canClear).Ok?
    ensures HoldsWide(BuildValue(order, vars, used, e, canClear).value.code)
    decreases e
  {
    hide Combine, Negate, Holding, HoldsWide, RunStraight;
    match e
    case Parens(inner) => WideIsEmitted(order, vars, used, inner, canClear, types, env, core);
    case Unary(op, inner, t) =>
      var operand := BuildValue(order, vars, used, inner, canClear).value;
      WideIsEmitted(order, vars, used, inner, canClear, types, env, core);
      WideInFront(operand.code, Negate(order, operand.used, operand.loc, op, t).value.code);
    case Binary(op, l, r, _) =>
      var left := BuildValue(order, vars, used, l, No).value;
      var right := BuildValue(order, vars, left.used, r, No).value;
      var done := Combine(order, right.used, left.loc, right.loc, op, canClear).value;
      if !LiteralsFit(l) {
        WideIsEmitted(order, vars, used, l, No, types, env, core);
        WideInFront(left.code, right.code);
        WideInFront(left.code + right.code, done.code);
      } else if !LiteralsFit(r) {
        WideIsEmitted(order, vars, left.used, r, No, types, env, core);
        WideBehind(left.code, right.code);
        WideInFront(left.code + right.code, done.code);
      } else {
        PlaceOf(order, vars, used, l, No, types, env, core);
        PlaceOf(order, vars, left.used, r, No, types, env, core);
        LiteralIsSmall(l);
        LiteralIsSmall(r);
        CombineWide(order, right.used, left.loc, right.loc, op, canClear);
        WideBehind(left.code + right.code, done.code);
      }
  }

  lemma {:induction false} LiteralIsSmall(e: Expr)
    ensures e.IsLiteral() || SmallLiteral(e)
  {
    if e.Parens? {
      LiteralIsSmall(e.expr);
    }
  }

  /** The code of an expression can be run, for any order of the registers and any of them in use, if and only if
      no literal is too wide for the instruction that holds it. */
  lemma LiteralsRunExactly(order: Order, vars: map<Ident, Location>, used: set<Register>, e: Expr, canClear: CanClearRegs,
                           types: map<Ident, Ty>, env: Env, core: Core)
    requires WellTyped(e, types) && EnvTyped(env, types) && Holding(vars, env, core)
    requires Emittable(e) && BuildValue(order, vars, used, e, canClear).Ok?
    ensures RunStraight(BuildValue(order, vars, used, e, canClear).value.code, core).Some? <==> LiteralsFit(e)
  {
    hide BuildValue, RunStraight, Holding, HoldsWide, Emittable, LiteralsFit, Compilable;
    CompilableExactly(e);
    if LiteralsFit(e) {
      var _, _ := BuildValueComputes(order, vars, used, e, canClear, types, env, core);
    } else {
      WideIsEmitted(order, vars, used, e, canClear, types, env, core);
      WideIsStuck(BuildValue(order, vars, used, e, canClear).value.code, core);
    }
  }
}
