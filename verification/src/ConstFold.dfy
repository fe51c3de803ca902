/** Constant folding of lowered expressions. `None` stands for a panic of the
    compiler, for example on a constant division by zero. */
module ConstFold {
  import opened Words
  import opened Lir

  function EvalBinop(checked: bool, op: BinOp, lhs: Expr, rhs: Expr, ty: Ty): Option<Expr> {
    if lhs.Value? && rhs.Value? then
      var v :- Evaluate(checked, op, lhs.val, rhs.val);
      Some(Value(v))
    else
      Some(Binary(op, lhs, rhs, ty))
  }

  /** `Expr::const_fold`. It does not look below a unary operator whose operand is
      not a literal: it relies on being run on every node after its children. */
  function Fold(checked: bool, e: Expr): Option<Expr> {
    match e
    case Var(_, _) => Some(e)
    case Parens(inner) =>
      var folded :- Fold(checked, inner);
      Some(if folded.Value? then folded else Parens(folded))
    case Unary(op, inner, _) =>
      Some(if inner.Value? then Value(EvaluateUnary(op, inner.val)) else e)
    case Binary(op, l, r, t) =>
      var left :- Fold(checked, l);
      var right :- Fold(checked, r);
      EvalBinop(checked, op, left, right, t)
    case Value(_) => Some(e)
  }

  /** The lowering of an expression: children first, then the node itself is folded. */
  function Lower(checked: bool, e: Expr): Option<Expr> {
    match e
    case Var(_, _) => Fold(checked, e)
    case Parens(inner) =>
      var lowered :- Lower(checked, inner);
      Fold(checked, Parens(lowered))
    case Unary(op, inner, t) =>
      var lowered :- Lower(checked, inner);
      Fold(checked, Unary(op, lowered, t))
    case Binary(op, l, r, t) =>
      var left :- Lower(checked, l);
      var right :- Lower(checked, r);
      Fold(checked, Binary(op, left, right, t))
    case Value(_) => Fold(checked, e)
  }

  /** No parenthesised literal, no operator on literals only. */
  predicate NormalForm(e: Expr) {
    match e
    case Var(_, _) => true
    case Parens(inner) => NormalForm(inner) && !inner.Value?
    case Unary(_, inner, _) => NormalForm(inner) && !inner.Value?
    case Binary(_, l, r, _) => NormalForm(l) && NormalForm(r) && !(l.Value? && r.Value?)
    case Value(_) => true
  }

  /** Folding keeps the value in every environment, and when it panics the
      expression has no value in any environment. */
  lemma {:induction false} FoldPreservesMeaning(checked: bool, e: Expr, env: Env)
    ensures Eval(checked, e, env) ==
            (match Fold(checked, e) case Some(folded) => Eval(checked, folded, env) case None => None)
  {
    match e
    case Var(_, _) =>
    case Parens(inner) => FoldPreservesMeaning(checked, inner, env);
    case Unary(_, _, _) =>
    case Binary(_, l, r, _) =>
      FoldPreservesMeaning(checked, l, env);
      FoldPreservesMeaning(checked, r, env);
    case Value(_) =>
  }

  lemma {:induction false} LowerPreservesMeaning(checked: bool, e: Expr, env: Env)
    ensures Eval(checked, e, env) ==
            (match Lower(checked, e) case Some(low) => Eval(checked, low, env) case None => None)
  {
    match e
    case Var(_, _) =>
    case Parens(inner) =>
      LowerPreservesMeaning(checked, inner, env);
      if Lower(checked, inner).Some? {
        FoldPreservesMeaning(checked, Parens(Lower(checked, inner).value), env);
      }
    case Unary(op, inner, t) =>
      LowerPreservesMeaning(checked, inner, env);
      if Lower(checked, inner).Some? {
        FoldPreservesMeaning(checked, Unary(op, Lower(checked, inner).value, t), env);
      }
    case Binary(op, l, r, t) =>
      LowerPreservesMeaning(checked, l, env);
      LowerPreservesMeaning(checked, r, env);
      if Lower(checked, l).Some? && Lower(checked, r).Some? {
        FoldPreservesMeaning(checked, Binary(op, Lower(checked, l).value, Lower(checked, r).value, t), env);
      }
    case Value(_) =>
  }

  /** A tree in normal form is a fixed point of folding. */
  lemma {:induction false} NormalFormIsFixed(checked: bool, e: Expr)
    requires NormalForm(e)
    ensures Fold(checked, e) == Some(e)
  {
    match e
    case Var(_, _) =>
    case Parens(inner) => NormalFormIsFixed(checked, inner);
    case Unary(_, _, _) =>
    case Binary(_, l, r, _) =>
      NormalFormIsFixed(checked, l);
      NormalFormIsFixed(checked, r);
    case Value(_) =>
  }

  /** Folding bottom-up reaches the normal form, and folding the result again changes nothing. */
  lemma {:induction false} LowerReachesNormalForm(checked: bool, e: Expr)
    requires Lower(checked, e).Some?
    ensures NormalForm(Lower(checked, e).value)
    ensures Fold(checked, Lower(checked, e).value) == Lower(checked, e)
  {
    match e
    case Var(_, _) =>
    case Parens(inner) =>
      LowerReachesNormalForm(checked, inner);
    case Unary(_, inner, _) =>
      LowerReachesNormalForm(checked, inner);
    case Binary(_, l, r, _) =>
      LowerReachesNormalForm(checked, l);
      LowerReachesNormalForm(checked, r);
    case Value(_) =>
  }

  lemma {:induction false} LowerKeepsTypes(checked: bool, e: Expr, types: map<Ident, Ty>)
    requires WellTyped(e, types) && Lower(checked, e).Some?
    ensures WellTyped(Lower(checked, e).value, types)
    ensures Lower(checked, e).value.TypeOf() == e.TypeOf()
  {
    match e
    case Var(_, _) =>
    case Parens(inner) =>
      LowerKeepsTypes(checked, inner, types);
      LowerReachesNormalForm(checked, inner);
    case Unary(_, inner, _) =>
      LowerKeepsTypes(checked, inner, types);
      LowerReachesNormalForm(checked, inner);
    case Binary(op, l, r, t) =>
      LowerKeepsTypes(checked, l, types);
      LowerKeepsTypes(checked, r, types);
      LowerReachesNormalForm(checked, l);
      LowerReachesNormalForm(checked, r);
      var left, right := Lower(checked, l).value, Lower(checked, r).value;
      if left.Value? && right.Value? {
        EvaluateTyped(checked, op, left.val, right.val);
      }
    case Value(_) =>
  }

  // ---------- exactly when folding panics ----------

  predicate Closed(e: Expr) {
    match e
    case Var(_, _) => false
    case Parens(inner) => Closed(inner)
    case Unary(_, inner, _) => Closed(inner)
    case Binary(_, l, r, _) => Closed(l) && Closed(r)
    case Value(_) => true
  }

  /** Some subexpression without variables has no value. */
  predicate HasUndefinedConstant(checked: bool, e: Expr) {
    || (Closed(e) && Eval(checked, e, map[]).None?)
    || (match e
        case Var(_, _) | Value(_) => false
        case Parens(inner) => HasUndefinedConstant(checked, inner)
        case Unary(_, inner, _) => HasUndefinedConstant(checked, inner)
        case Binary(_, l, r, _) => HasUndefinedConstant(checked, l) || HasUndefinedConstant(checked, r))
  }

  /** An expression without variables is lowered to the literal of its value. */
  lemma {:induction false} ClosedLowersToLiteral(checked: bool, e: Expr)
    requires Closed(e)
    ensures Lower(checked, e) == (match Eval(checked, e, map[]) case Some(v) => Some(Value(v)) case None => None)
  {
    match e
    case Parens(inner) =>
      ClosedLowersToLiteral(checked, inner);
      if Lower(checked, inner).Some? {
        NormalFormIsFixed(checked, Lower(checked, inner).value);
      }
    case Unary(_, inner, _) => ClosedLowersToLiteral(checked, inner);
    case Binary(_, l, r, _) =>
      ClosedLowersToLiteral(checked, l);
      ClosedLowersToLiteral(checked, r);
      if Lower(checked, l).Some? && Lower(checked, r).Some? {
        NormalFormIsFixed(checked, Lower(checked, l).value);
        NormalFormIsFixed(checked, Lower(checked, r).value);
      }
    case Value(_) =>
  }

  lemma {:induction false} LiteralsComeFromClosed(checked: bool, e: Expr)
    requires Lower(checked, e).Some? && Lower(checked, e).value.Value?
    ensures Closed(e)
  {
    match e
    case Var(_, _) =>
    case Parens(inner) =>
      LowerReachesNormalForm(checked, inner);
      LiteralsComeFromClosed(checked, inner);
    case Unary(_, inner, _) => LiteralsComeFromClosed(checked, inner);
    case Binary(_, l, r, _) =>
      LowerReachesNormalForm(checked, l);
      LowerReachesNormalForm(checked, r);
      LiteralsComeFromClosed(checked, l);
      LiteralsComeFromClosed(checked, r);
    case Value(_) =>
  }

  /** The compiler panics while folding exactly when some variable-free subexpression is undefined. */
  lemma {:induction false} LowerPanicsExactly(checked: bool, e: Expr)
    ensures Lower(checked, e).None? <==> HasUndefinedConstant(checked, e)
  {
    if Closed(e) {
      ClosedLowersToLiteral(checked, e);
    }
    match e
    case Var(_, _) =>
    case Parens(inner) =>
      LowerPanicsExactly(checked, inner);
      if Lower(checked, inner).Some? {
        LowerReachesNormalForm(checked, inner);
      }
    case Unary(_, inner, _) => LowerPanicsExactly(checked, inner);
    case Binary(_, l, r, _) =>
      LowerPanicsExactly(checked, l);
      LowerPanicsExactly(checked, r);
      if Lower(checked, l).Some? && Lower(checked, r).Some? {
        LowerReachesNormalForm(checked, l);
        LowerReachesNormalForm(checked, r);
        if Lower(checked, l).value.Value? && Lower(checked, r).value.Value? {
          LiteralsComeFromClosed(checked, l);
          LiteralsComeFromClosed(checked, r);
        }
      }
    case Value(_) =>
  }
}
