/** The lowered intermediate representation: expressions and statements over
    scalar locals, with the meaning the source language gives them. */
module Lir {
  import opened Words

  datatype Option<+T> = None | Some(value: T) {
    predicate IsFailure() {
      None?
    }

    function PropagateFailure<U>(): Option<U>
      requires None?
    {
      None
    }

    function Extract(): T
      requires Some?
    {
      value
    }
  }

  /** An interned name; two names are equal when their tokens are. */
  type Ident = nat

  datatype Ty = Int | Bool

  datatype Val = IntVal(i: word) | BoolVal(b: bool) {
    function TypeOf(): Ty {
      if IntVal? then Int else Bool
    }
  }

  datatype UnOp = Not | OnesComp

  datatype BinOp =
    | Mul | Div | Rem | Add | Sub
    | LeftShift | RightShift
    | Lt | Le | Ge | Gt | Eq | Ne
    | BitAnd | BitXor | BitOr
    | And | Or
  {
    predicate IsCmp() {
      Lt? || Le? || Ge? || Gt? || Eq? || Ne?
    }

    predicate IsOrdering() {
      Lt? || Le? || Ge? || Gt?
    }

    predicate IsShift() {
      LeftShift? || RightShift?
    }
  }

  datatype Expr =
    | Var(ident: Ident, ty: Ty)
    | Unary(uop: UnOp, expr: Expr, ty: Ty)
    | Binary(op: BinOp, lhs: Expr, rhs: Expr, ty: Ty)
    | Parens(expr: Expr)
    | Value(val: Val)
  {
    function TypeOf(): Ty {
      match this
      case Var(_, t) => t
      case Unary(_, _, t) => t
      case Binary(_, _, _, t) => t
      case Parens(e) => e.TypeOf()
      case Value(v) => v.TypeOf()
    }

    /** Whether the expression is a literal, possibly in parentheses. */
    predicate IsLiteral() {
      Value? || (Parens? && expr.IsLiteral())
    }
  }

  // ---------- aggregates ----------

  /** The shape of a type in memory. `Scalar` stands for every type of 8 bytes: numbers, characters,
      booleans and pointers. */
  datatype Shape =
    | Scalar
    | Array(len: nat, elem: Shape)
    | Struct(fields: seq<Field>)
    | Enum(variants: seq<Variant>)

  datatype Field = Field(name: Ident, shape: Shape)

  datatype Variant = Variant(name: Ident, types: seq<Shape>)

  /** A field's initialiser: a scalar, the elements of an array, or the fields of a struct, in the order
      they are written. */
  datatype Init = One(value: Expr) | Many(items: seq<Expr>) | Nested(inits: seq<FieldInit>)

  datatype FieldInit = FieldInit(name: Ident, init: Init)

  /** An item in the payload of an enum initialiser: a scalar expression, or a variable of any type. */
  datatype PayloadItem = Single(value: Expr) | Copied(name: Ident, shape: Shape)

  /** The part of an assignment target after the first dot; each step carries the struct it steps into. */
  datatype Access =
    | Whole(name: Ident)
    | Element(name: Ident, index: Expr)
    | Inner(name: Ident, rest: Access, fields: seq<Field>)
  {
    /** The target is an element of an array field. */
    predicate EndsInElement() {
      Element? || (Inner? && rest.EndsInElement())
    }
  }

  /** A flat pattern: the number of a variant and a name for each item of its payload; and the block. */
  datatype Arm = Arm(variant: nat, binds: seq<Ident>, body: seq<Stmt>)

  /** An absent `else` block generates what an empty one does, so `els` is a plain block. */
  datatype Stmt =
    | Assign(ident: Ident, ty: Ty, rval: Expr, isLet: bool)
    | If(cond: Expr, blk: seq<Stmt>, els: seq<Stmt>)
    | While(cond: Expr, blk: seq<Stmt>)
    | Ret(expr: Expr)
    | Exit
    | Declare(ident: Ident, shape: Shape)
    | LetStruct(ident: Ident, fields: seq<Field>, inits: seq<FieldInit>)
    | LetEnum(ident: Ident, variants: seq<Variant>, variant: Ident, items: seq<PayloadItem>)
    | SetItem(ident: Ident, index: Expr, rval: Expr)
    | SetField(ident: Ident, fields: seq<Field>, access: Access, rval: Expr)
    | Match(ident: Ident, variants: seq<Variant>, arms: seq<Arm>)

  datatype Param = Param(ident: Ident, ty: Ty)

  datatype Func = Func(ident: Ident, params: seq<Param>, stmts: seq<Stmt>)

  // ---------- types ----------

  function UnaryTy(op: UnOp, t: Ty): Option<Ty> {
    match op
    case Not => Some(Bool)
    case OnesComp => if t == Int then Some(Int) else None
  }

  /** The type of a binary operation; every operation that `Evaluate` defines is allowed. */
  function BinaryTy(op: BinOp, l: Ty, r: Ty): Option<Ty> {
    if l != r then None
    else if op.IsCmp() || op.And? || op.Or? then Some(Bool)
    else if l == Int then Some(Int)
    else if op.BitAnd? || op.BitXor? || op.BitOr? then Some(Bool)
    else None
  }

  predicate WellTyped(e: Expr, types: map<Ident, Ty>) {
    match e
    case Var(x, t) => x in types && types[x] == t
    case Unary(op, inner, t) => WellTyped(inner, types) && UnaryTy(op, inner.TypeOf()) == Some(t)
    case Binary(op, l, r, t) =>
      WellTyped(l, types) && WellTyped(r, types) && BinaryTy(op, l.TypeOf(), r.TypeOf()) == Some(t)
    case Parens(inner) => WellTyped(inner, types)
    case Value(_) => true
  }

  // ---------- values ----------

  /** `int_op`. With `checked` (a build with overflow checks) arithmetic overflow
      and out-of-range shift amounts panic; without it they wrap around. */
  function IntOp(checked: bool, op: BinOp, a: word, b: word): Option<Val> {
    match op
    case Mul => Arith(checked, a * b)
    case Add => Arith(checked, a + b)
    case Sub => Arith(checked, a - b)
    case Div => if b == 0 || (a == WORD_MIN && b == -1) then None else Some(IntVal(Wrap(TruncDiv(a, b))))
    case Rem => if b == 0 || (a == WORD_MIN && b == -1) then None else Some(IntVal(Wrap(TruncRem(a, b))))
    case LeftShift => if checked && !(0 <= b < 64) then None else Some(IntVal(Wrap(a * Pow2(b % 64))))
    case RightShift => if checked && !(0 <= b < 64) then None else Some(IntVal(Wrap(a / Pow2(b % 64))))
    case Lt => Some(BoolVal(a < b))
    case Le => Some(BoolVal(a <= b))
    case Ge => Some(BoolVal(a >= b))
    case Gt => Some(BoolVal(a > b))
    case Eq => Some(BoolVal(a == b))
    case Ne => Some(BoolVal(a != b))
    case BitAnd => Some(IntVal(Bitwise(AndBits, a, b)))
    case BitXor => Some(IntVal(Bitwise(XorBits, a, b)))
    case BitOr => Some(IntVal(Bitwise(OrBits, a, b)))
    case And => Some(BoolVal(a != 0 && b != 0))
    case Or => Some(BoolVal(a != 0 || b != 0))
  }

  function Arith(checked: bool, exact: int): Option<Val> {
    if checked && !(WORD_MIN <= exact <= WORD_MAX) then None else Some(IntVal(Wrap(exact)))
  }

  /** `bool_op`; the arithmetic operators and shifts are unreachable there. */
  function BoolOp(op: BinOp, a: bool, b: bool): Option<Val> {
    match op
    case Lt => Some(BoolVal(!a && b))
    case Le => Some(BoolVal(a ==> b))
    case Ge => Some(BoolVal(b ==> a))
    case Gt => Some(BoolVal(a && !b))
    case Eq => Some(BoolVal(a == b))
    case Ne => Some(BoolVal(a != b))
    case BitAnd | And => Some(BoolVal(a && b))
    case BitXor => Some(BoolVal(a != b))
    case BitOr | Or => Some(BoolVal(a || b))
    case _ => None
  }

  /** `Val::evaluate`; mixed operand types are not defined. */
  function Evaluate(checked: bool, op: BinOp, l: Val, r: Val): Option<Val> {
    match (l, r)
    case (IntVal(a), IntVal(b)) => IntOp(checked, op, a, b)
    case (BoolVal(a), BoolVal(b)) => BoolOp(op, a, b)
    case _ => None
  }

  function EvaluateUnary(op: UnOp, v: Val): Val {
    match (op, v)
    case (Not, IntVal(i)) => BoolVal(i == 0)
    case (Not, BoolVal(b)) => BoolVal(!b)
    case (OnesComp, IntVal(i)) => IntVal(-1 - i)
    case (OnesComp, BoolVal(b)) => BoolVal(!b)
  }

  // ---------- meaning ----------

  type Env = map<Ident, Val>

  predicate EnvTyped(env: Env, types: map<Ident, Ty>) {
    env.Keys == types.Keys && forall x :: x in env ==> env[x].TypeOf() == types[x]
  }

  /** Strict evaluation: both operands of every operator are always evaluated. */
  function Eval(checked: bool, e: Expr, env: Env): Option<Val> {
    match e
    case Var(x, _) => if x in env then Some(env[x]) else None
    case Unary(op, inner, _) =>
      var v :- Eval(checked, inner, env);
      Some(EvaluateUnary(op, v))
    case Binary(op, l, r, _) =>
      var a :- Eval(checked, l, env);
      var b :- Eval(checked, r, env);
      Evaluate(checked, op, a, b)
    case Parens(inner) => Eval(checked, inner, env)
    case Value(v) => Some(v)
  }

  /** How running statements ends. `OutOfFuel` means that more loop rounds were
      needed than the fuel allows; `Wrong` that an expression had no value. */
  datatype Outcome =
    | Normal(env: Env)
    | Returned(val: Val)
    | Exited
    | OutOfFuel
    | Wrong

  /** The meaning of statements over scalars. An environment has no aggregates, so the statements that
      work on them have no meaning here. */
  function Exec(stmt: Stmt, env: Env, fuel: nat): Outcome
    decreases fuel, stmt, 0
  {
    match stmt
    case Assign(x, _, e, _) =>
      (match Eval(false, e, env)
       case Some(v) => Normal(env[x := v])
       case None => Wrong)
    case If(cond, blk, els) =>
      (match Eval(false, cond, env)
       case Some(BoolVal(b)) => ExecBlock(if b then blk else els, env, fuel)
       case _ => Wrong)
    case While(cond, blk) =>
      if fuel == 0 then OutOfFuel
      else
        (match Eval(false, cond, env)
         case Some(BoolVal(b)) =>
           if !b then Normal(env)
           else
             var round := ExecBlock(blk, env, fuel - 1);
             if round.Normal? then Exec(stmt, round.env, fuel - 1) else round
         case _ => Wrong)
    case Ret(e) =>
      (match Eval(false, e, env)
       case Some(v) => Returned(v)
       case None => Wrong)
    case Exit => Exited
    case _ => Wrong
  }

  function ExecBlock(stmts: seq<Stmt>, env: Env, fuel: nat): Outcome
    decreases fuel, stmts, 1
  {
    if stmts == [] then Normal(env)
    else
      var first := Exec(stmts[0], env, fuel);
      if first.Normal? then ExecBlock(stmts[1..], first.env, fuel) else first
  }

  // ---------- facts about evaluation ----------

  lemma EvaluateTyped(checked: bool, op: BinOp, l: Val, r: Val)
    requires BinaryTy(op, l.TypeOf(), r.TypeOf()).Some?
    ensures Evaluate(checked, op, l, r).Some? ==>
              Evaluate(checked, op, l, r).value.TypeOf() == BinaryTy(op, l.TypeOf(), r.TypeOf()).value
    ensures !checked && !op.Div? && !op.Rem? ==> Evaluate(checked, op, l, r).Some?
  {
  }
}
