/** `!`, `&&` and `||` on integers, which the type checker accepts. The source takes every integer but zero for true;
    the code compares with one, and combines the bits. */
module Truthiness {
  import opened Words
  import opened Lir
  import opened Machine
  import opened AsmSpec
  import opened ExprProof
  import opened ValueLaws

  /** `!x` on an integer: the code leaves the value of the source if and only if the integer is zero or one. */
  lemma NotIntegerExactly(order: Order, vars: map<Ident, Location>, used: set<Register>, e: Expr, canClear: CanClearRegs,
                          types: map<Ident, Ty>, env: Env, core: Core) returns (x: Val, after: Core)
    requires WellTyped(e, types) && e.TypeOf() == Int && Compilable(e) && NoLiteralFirst(e) && !e.IsLiteral()
    requires EnvTyped(env, types) && Holding(vars, env, core)
    requires BuildValue(order, vars, used, Unary(Not, e, Bool), canClear).Ok?
    ensures Eval(false, e, env) == Some(x) && x.IntVal?
    ensures var b := BuildValue(order, vars, used, Unary(Not, e, Bool), canClear).value;
            var source := Eval(false, Unary(Not, e, Bool), env);
            && RunStraight(b.code, core) == Some(after) && SameFrame(core, after) && source.Some?
            && (Read(after, b.loc) == Some(Encode(source.value)) <==> x.i == 0 || x.i == 1)
  {
    hide RunStraight, Negate, Holding, Compilable, Read, EnvTyped;
    var b := BuildValue(order, vars, used, e, canClear).value;
    var mid;
    x, mid := BuildValueComputes(order, vars, used, e, canClear, types, env, core);
    NothingFlipped(e);
    var n := Negate(order, b.used, b.loc, Not, Bool).value;
    after := NegateRuns(order, b.used, b.loc, mid, Encode(x));
    StraightAppend(b.code, n.code, core);
  }

  /** Had the negation another type than bool, the code would ask whether the operand is positive. */
  lemma NegateElse(order: Order, used: set<Register>, operand: Location, ty: Ty, core: Core, x: word) returns (after: Core)
    requires ty != Bool && Negate(order, used, operand, Not, ty).Ok?
    requires Operand(operand, used) && operand.RegLoc? && Read(core, operand) == Some(x)
    ensures var b := Negate(order, used, operand, Not, ty).value;
            && RunStraight(b.code, core) == Some(after) && SameFrame(core, after)
            && Read(after, b.loc) == Some(Truth(x > 0))
  {
    hide FreeReg, RunStraight, SetOnFlag;
    var reg := FreeReg(order, used).value;
    var condReg := FreeReg(order, used + {reg}).value;
    after := SetOnFlagRuns(ZERO, operand, condReg, Gt, core, 0, x);
    assert [] + SetOnFlag(ZERO, operand, condReg, IfGreater) == SetOnFlag(ZERO, operand, condReg, IfGreater);
  }

  /** A loop is taken to be endless when its condition is a literal that is stored as a positive number. */
  lemma EndlessExactly(e: Expr)
    ensures IsConstTrue(e) <==> e.Value? && Encode(e.val) > 0
  {
  }

  /** The code of `&&` or `||` on integers combines them bit by bit. */
  lemma LogicRuns(order: Order, vars: map<Ident, Location>, used: set<Register>, op: BinOp, l: Expr, r: Expr, canClear: CanClearRegs,
                  types: map<Ident, Ty>, env: Env, core: Core) returns (x: Val, y: Val, after: Core)
    requires (op.And? || op.Or?) && WellTyped(Binary(op, l, r, Bool), types) && l.TypeOf() == Int
    requires Compilable(l) && Compilable(r) && NoLiteralFirst(l) && NoLiteralFirst(r) && !(l.IsLiteral() && r.IsLiteral())
    requires SmallLiteral(l) && SmallLiteral(r) && EnvTyped(env, types) && Holding(vars, env, core)
    requires BuildValue(order, vars, used, Binary(op, l, r, Bool), canClear).Ok?
    ensures Eval(false, l, env) == Some(x) && Eval(false, r, env) == Some(y) && x.IntVal? && y.IntVal?
    ensures var b := BuildValue(order, vars, used, Binary(op, l, r, Bool), canClear).value;
            && RunStraight(b.code, core) == Some(after) && SameFrame(core, after)
            && Read(after, b.loc) == Some(Bitwise(if op.And? then AndBits else OrBits, x.i, y.i))
  {
    hide RunStraight, Combine, Holding, Compilable, Bitwise, Read, EnvTyped, NoLiteralFirst, Flipped;
    assert WellTyped(l, types) && WellTyped(r, types) && r.TypeOf() == Int;
    BinaryParts(order, vars, used, op, l, r, Bool, canClear);
    hide WellTyped, BuildValue;
    var bl := BuildValue(order, vars, used, l, No).value;
    var c1, c2;
    x, c1 := BuildValueComputes(order, vars, used, l, No, types, env, core);
    HoldingKept(vars, env, core, c1);
    var br := BuildValue(order, vars, bl.used, r, No).value;
    y, c2 := BuildValueComputes(order, vars, bl.used, r, No, types, env, c1);
    NothingFlipped(l);
    NothingFlipped(r);
    SmallBuilt(order, vars, used, l, No);
    SmallBuilt(order, vars, bl.used, r, No);
    var v := IntVal(BinWord(op, Encode(x), Encode(y), l.IsLiteral()));
    after := CombinedComputes(order, bl, br, used, op, canClear, x, y, v, l.IsLiteral(), r.IsLiteral(), core, c1, c2);
  }

  lemma {:induction false} BitsOfZeroAndOne(k: nat)
    ensures !BitOf(0, k) && (BitOf(1, k) <==> k == 0)
  {
    if k > 0 {
      BitsOfZeroAndOne(k - 1);
      assert 1 / 2 == 0;
    }
  }

  /** Bits like those of the number one. */
  ghost predicate LowestOnly(w: word) {
    forall k: nat :: k < 64 ==> BitOf(Unsigned(w), k) == (k == 0)
  }

  /** A word is one when its lowest bit is its only one. */
  lemma OneByBits(w: word)
    ensures w == 1 <==> LowestOnly(w)
  {
    hide BitOf;
    forall k: nat ensures BitOf(1, k) == (k == 0) {
      BitsOfZeroAndOne(k);
    }
    Pow2Of64();
    assert Unsigned(1) == 1;
    if LowestOnly(w) {
      BitsDetermine(Unsigned(w), 1, 64);
    }
  }

  /** Both integers have only the lowest bit in common. */
  ghost predicate ShareLowestOnly(a: word, b: word) {
    forall k: nat :: k < 64 ==> (BitOf(Unsigned(a), k) && BitOf(Unsigned(b), k)) == (k == 0)
  }

  lemma AndByBits(a: word, b: word)
    ensures Bitwise(AndBits, a, b) == 1 <==> ShareLowestOnly(a, b)
  {
    hide Bitwise, BitOf;
    OneByBits(Bitwise(AndBits, a, b));
    if Bitwise(AndBits, a, b) == 1 {
      forall k: nat | k < 64 ensures (BitOf(Unsigned(a), k) && BitOf(Unsigned(b), k)) == (k == 0) {
        BitwiseBits(AndBits, a, b, k);
      }
    }
    if ShareLowestOnly(a, b) {
      forall k: nat | k < 64 ensures BitOf(Unsigned(Bitwise(AndBits, a, b)), k) == (k == 0) {
        BitwiseBits(AndBits, a, b, k);
      }
    }
  }

  lemma {:induction false} ZeroAnds(n: nat, b: nat)
    ensures Bits(AndBits, 0, b, n) == 0 && Bits(AndBits, b, 0, n) == 0
    decreases n
  {
    if n > 0 {
      ZeroAnds(n - 1, b / 2);
    }
  }

  /** `a && b` on integers: the code leaves the value of the source if and only if one of them is zero or they share
      the lowest bit and no other. */
  lemma AndIntegersExactly(order: Order, vars: map<Ident, Location>, used: set<Register>, l: Expr, r: Expr, canClear: CanClearRegs,
                           types: map<Ident, Ty>, env: Env, core: Core) returns (x: Val, y: Val, after: Core)
    requires WellTyped(Binary(And, l, r, Bool), types) && l.TypeOf() == Int
    requires Compilable(l) && Compilable(r) && NoLiteralFirst(l) && NoLiteralFirst(r) && !(l.IsLiteral() && r.IsLiteral())
    requires SmallLiteral(l) && SmallLiteral(r) && EnvTyped(env, types) && Holding(vars, env, core)
    requires BuildValue(order, vars, used, Binary(And, l, r, Bool), canClear).Ok?
    ensures Eval(false, l, env) == Some(x) && Eval(false, r, env) == Some(y) && x.IntVal? && y.IntVal?
    ensures var b := BuildValue(order, vars, used, Binary(And, l, r, Bool), canClear).value;
            var source := Eval(false, Binary(And, l, r, Bool), env);
            && RunStraight(b.code, core) == Some(after) && SameFrame(core, after) && source.Some?
            && (Read(after, b.loc) == Some(Encode(source.value)) <==> x.i == 0 || y.i == 0 || ShareLowestOnly(x.i, y.i))
  {
    hide BuildValue, RunStraight, Holding, Compilable, Read, EnvTyped, ShareLowestOnly;
    x, y, after := LogicRuns(order, vars, used, And, l, r, canClear, types, env, core);
    AndByBits(x.i, y.i);
    ZeroAnds(64, Unsigned(x.i));
    ZeroAnds(64, Unsigned(y.i));
  }

  /** An integer whose bits are all zero, but perhaps the lowest, is zero or one. */
  lemma LowOnly(w: word)
    requires forall k: nat :: 0 < k < 64 ==> !BitOf(Unsigned(w), k)
    ensures w == 0 || w == 1
  {
    Pow2Of64();
    forall k: nat ensures !BitOf(0, k) && (BitOf(1, k) <==> k == 0) {
      BitsOfZeroAndOne(k);
    }
    BitsDetermine(Unsigned(w), if BitOf(Unsigned(w), 0) then 1 else 0, 64);
  }

  lemma OrIsTruth(a: word, b: word)
    ensures Bitwise(OrBits, a, b) == Truth(a != 0 || b != 0) <==> 0 <= a <= 1 && 0 <= b <= 1
  {
    hide Bitwise, BitOf, Unsigned;
    if 0 <= a <= 1 && 0 <= b <= 1 {
      BitwiseOnBooleans(OrBits, a, b);
    } else if Bitwise(OrBits, a, b) == 1 {
      OneByBits(1);
      forall k: nat | 0 < k < 64 ensures !BitOf(Unsigned(a), k) && !BitOf(Unsigned(b), k) {
        BitwiseBits(OrBits, a, b, k);
      }
      LowOnly(a);
      LowOnly(b);
    }
  }

  /** `a || b` on integers: the code leaves the value of the source if and only if both are zero or one. */
  lemma OrIntegersExactly(order: Order, vars: map<Ident, Location>, used: set<Register>, l: Expr, r: Expr, canClear: CanClearRegs,
                          types: map<Ident, Ty>, env: Env, core: Core) returns (x: Val, y: Val, after: Core)
    requires WellTyped(Binary(Or, l, r, Bool), types) && l.TypeOf() == Int
    requires Compilable(l) && Compilable(r) && NoLiteralFirst(l) && NoLiteralFirst(r) && !(l.IsLiteral() && r.IsLiteral())
    requires SmallLiteral(l) && SmallLiteral(r) && EnvTyped(env, types) && Holding(vars, env, core)
    requires BuildValue(order, vars, used, Binary(Or, l, r, Bool), canClear).Ok?
    ensures Eval(false, l, env) == Some(x) && Eval(false, r, env) == Some(y) && x.IntVal? && y.IntVal?
    ensures var b := BuildValue(order, vars, used, Binary(Or, l, r, Bool), canClear).value;
            var source := Eval(false, Binary(Or, l, r, Bool), env);
            && RunStraight(b.code, core) == Some(after) && SameFrame(core, after) && source.Some?
            && (Read(after, b.loc) == Some(Encode(source.value)) <==> 0 <= x.i <= 1 && 0 <= y.i <= 1)
  {
    hide BuildValue, RunStraight, Holding, Compilable, Read, EnvTyped, Bitwise;
    x, y, after := LogicRuns(order, vars, used, Or, l, r, canClear, types, env, core);
    OrIsTruth(x.i, y.i);
  }
}
