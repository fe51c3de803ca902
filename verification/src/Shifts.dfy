/** Shifts in generated code. The count of a shift instruction is a constant, the source's can be any integer; and to
    the right the instruction fills with zeros while the source keeps the sign. */
module Shifts {
  import opened Words
  import opened Lir
  import opened Machine
  import opened AsmSpec
  import opened ExprProof
  import opened WideLiterals
  import opened KnownLimits
  import opened ValueLaws

  /** The operand that is not the count: the literal is taken as the count whichever side it stands on. */
  function ShiftedSide(l: Expr, r: Expr): Expr {
    if r.IsLiteral() then l else r
  }

  function CountSide(l: Expr, r: Expr): Expr {
    if r.IsLiteral() then r else l
  }

  /** A shift of covered operands, one of them a literal that can be a count: the code leaves the other operand
      shifted by the literal. */
  lemma ShiftRuns(order: Order, vars: map<Ident, Location>, used: set<Register>, op: BinOp, l: Expr, r: Expr,
                  canClear: CanClearRegs, types: map<Ident, Ty>, env: Env, core: Core) returns (x: Val, after: Core)
    requires op.IsShift() && WellTyped(Binary(op, l, r, Int), types) && Compilable(l) && Compilable(r)
    requires NoLiteralFirst(l) && NoLiteralFirst(r) && !(l.IsLiteral() && r.IsLiteral()) && CountLiteral(CountSide(l, r))
    requires EnvTyped(env, types) && Holding(vars, env, core)
    requires BuildValue(order, vars, used, Binary(op, l, r, Int), canClear).Ok?
    ensures Eval(false, ShiftedSide(l, r), env) == Some(x) && x.IntVal? && CountSide(l, r).IsLiteral()
    ensures var b := BuildValue(order, vars, used, Binary(op, l, r, Int), canClear).value;
            && RunStraight(b.code, core) == Some(after) && SameFrame(core, after)
            && Read(after, b.loc) == Alu(op, x.i, Encode(LiteralOf(CountSide(l, r))))
  {
    hide RunStraight, Combine, Holding, Compilable, Alu, Read, EnvTyped, Flipped;
    var bl := BuildValue(order, vars, used, l, No).value;
    var a, c1 := BuildValueComputes(order, vars, used, l, No, types, env, core);
    HoldingKept(vars, env, core, c1);
    var br := BuildValue(order, vars, bl.used, r, No).value;
    var b, c2 := BuildValueComputes(order, vars, bl.used, r, No, types, env, c1);
    NothingFlipped(l);
    NothingFlipped(r);
    CountIsLiteral(CountSide(l, r));
    LiteralEval(CountSide(l, r), env);
    x := if r.IsLiteral() then a else b;
    if r.IsLiteral() {
      CountBuilt(order, vars, bl.used, r, No);
    } else {
      CountBuilt(order, vars, used, l, No);
    }
    var v := IntVal(BinWord(op, Encode(a), Encode(b), l.IsLiteral()));
    after := CombinedComputes(order, bl, br, used, op, canClear, a, b, v, l.IsLiteral(), r.IsLiteral(), core, c1, c2);
    hide BuildValue;
    AluTotal(op, Encode(a), Encode(b));
    AluTotal(op, Encode(b), Encode(a));
  }

  lemma AluTotal(op: BinOp, x: word, y: word)
    requires op.IsShift()
    ensures Alu(op, x, y).Some?
  {
  }

  /** The code of such a shift can be run if and only if one operand is a literal that can be a count, the right
      one if both sides are open. */
  lemma ShiftRunsExactly(order: Order, vars: map<Ident, Location>, used: set<Register>, op: BinOp, l: Expr, r: Expr,
                         canClear: CanClearRegs, types: map<Ident, Ty>, env: Env, core: Core)
    requires op.IsShift() && WellTyped(Binary(op, l, r, Int), types) && Compilable(l) && Compilable(r)
    requires NoLiteralFirst(l) && NoLiteralFirst(r) && !(l.IsLiteral() && r.IsLiteral())
    requires EnvTyped(env, types) && Holding(vars, env, core)
    requires BuildValue(order, vars, used, Binary(op, l, r, Int), canClear).Ok?
    ensures RunStraight(BuildValue(order, vars, used, Binary(op, l, r, Int), canClear).value.code, core).Some?
       <==> CountLiteral(CountSide(l, r))
  {
    hide RunStraight, Combine, Holding, Compilable, HoldsWide, WellTyped, Read, IsCount;
    if CountLiteral(CountSide(l, r)) {
      var _, _ := ShiftRuns(order, vars, used, op, l, r, canClear, types, env, core);
    } else {
      var left := BuildValue(order, vars, used, l, No).value;
      var right := BuildValue(order, vars, left.used, r, No).value;
      var done := Combine(order, right.used, left.loc, right.loc, op, canClear).value;
      SidesTyped(op, l, r, types);
      PlaceOf(order, vars, used, l, No, types, env, core);
      PlaceOf(order, vars, left.used, r, No, types, env, core);
      NoCount(left.loc, l);
      NoCount(right.loc, r);
      CombineWide(order, right.used, left.loc, right.loc, op, canClear);
      WideBehind(left.code + right.code, done.code);
      WideIsStuck(left.code + right.code + done.code, core);
    }
  }

  lemma SidesTyped(op: BinOp, l: Expr, r: Expr, types: map<Ident, Ty>)
    requires WellTyped(Binary(op, l, r, Int), types)
    ensures WellTyped(l, types) && WellTyped(r, types)
  {
  }

  lemma NoCount(loc: Location, e: Expr)
    requires (loc.Const? <==> e.IsLiteral()) && (e.IsLiteral() ==> (IsCount(loc) <==> CountLiteral(e)))
    ensures IsCount(loc) <==> CountLiteral(e)
  {
    if CountLiteral(e) {
      CountIsLiteral(e);
    }
  }

  // ---------- to the right ----------

  lemma QuotientShifted(x: int, p: nat, m: nat)
    requires p > 0
    ensures (x + m * p) / p == x / p + m
  {
    var q, q' := x / p, (x + m * p) / p;
    assert x == p * q + x % p && x + m * p == p * q' + (x + m * p) % p;
    assert p * (q' - q - m) == x % p - (x + m * p) % p;
    if q' != q + m {
      Larger(p, q' - q - m);
    }
  }

  /** A shift that fills with zeros and one that keeps the sign agree on numbers that are not negative, and when
      nothing is shifted. */
  lemma ShrExactly(x: word, n: nat)
    requires n < 64
    ensures Wrap(Unsigned(x) / Pow2(n)) == Wrap(x / Pow2(n)) <==> x >= 0 || n == 0
  {
    if x < 0 && n > 0 {
      Pow2Of64();
      PowersMultiply(64 - n, n);
      var m := Pow2(64 - n);
      QuotientShifted(x, Pow2(n), m);
      assert Unsigned(x) / Pow2(n) == x / Pow2(n) + m;
      Halved(n);
      ShrunkFits(x, Pow2(n));
      ShrunkStaysNegative(x, Pow2(n));
      PastTheSign(x / Pow2(n), m);
    }
  }

  lemma Halved(n: nat)
    requires 0 < n < 64
    ensures Pow2(64 - n) < TWO_64
  {
    Pow2Of64();
    PowersMultiply(64 - n, n);
    assert Pow2(n) == 2 * Pow2(n - 1);
    Grows(Pow2(n) - 1, Pow2(64 - n));
  }

  lemma ShrunkStaysNegative(x: int, p: nat)
    requires x < 0 && p > 0
    ensures x / p < 0
  {
  }

  /** Adding less than the number of words to a word changes it, wrapped or not. */
  lemma PastTheSign(x: word, m: nat)
    requires 0 < m < TWO_64
    ensures Wrap(x + m) != Wrap(x)
  {
  }

  /** `x >> k` with a literal count: the code leaves the value of the source if and only if the value of `x` is not
      negative, or the count, modulo 64, is zero. */
  lemma RightShiftExactly(order: Order, vars: map<Ident, Location>, used: set<Register>, l: Expr, r: Expr,
                          canClear: CanClearRegs, types: map<Ident, Ty>, env: Env, core: Core) returns (x: Val, after: Core)
    requires WellTyped(Binary(RightShift, l, r, Int), types) && Compilable(l) && NoLiteralFirst(l) && !l.IsLiteral()
    requires CountLiteral(r) && EnvTyped(env, types) && Holding(vars, env, core)
    requires BuildValue(order, vars, used, Binary(RightShift, l, r, Int), canClear).Ok?
    ensures Eval(false, l, env) == Some(x) && x.IntVal? && r.IsLiteral()
    ensures var b := BuildValue(order, vars, used, Binary(RightShift, l, r, Int), canClear).value;
            var source := Eval(false, Binary(RightShift, l, r, Int), env);
            && RunStraight(b.code, core) == Some(after) && SameFrame(core, after) && source.Some?
            && (Read(after, b.loc) == Some(Encode(source.value)) <==> x.i >= 0 || Encode(LiteralOf(r)) % 64 == 0)
  {
    hide BuildValue, RunStraight, Compilable, Holding, Read, NoLiteralFirst, Pow2;
    CountIsLiteral(r);
    LiteralCovered(r);
    x, after := ShiftRuns(order, vars, used, RightShift, l, r, canClear, types, env, core);
    LiteralEval(r, env);
    LiteralTyped(r, types);
    ShrExactly(x.i, Encode(LiteralOf(r)) % 64);
  }

  lemma {:induction false} LiteralCovered(e: Expr)
    requires e.IsLiteral()
    ensures Compilable(e) && NoLiteralFirst(e)
  {
    if e.Parens? {
      LiteralCovered(e.expr);
    }
  }

  // ---------- a literal on the left ----------

  lemma CountedMod64(v: word, n: nat)
    requires n == v % 64 && Wrap(2 * v) == Wrap(Pow2(n))
    ensures n == 1 || n == 2
  {
    if n >= 7 {
      PowersMultiply(7, n - 7);
      Multiples(v, Pow2(n - 7));
    } else {
      SmallPowers(n);
    }
  }

  lemma SmallPowers(n: nat)
    requires n < 7
    ensures Pow2(n) == [1, 2, 4, 8, 16, 32, 64][n]
  {
    assert Pow2(3) == 8;
  }

  lemma Multiples(v: word, c: nat)
    requires Wrap(2 * v) == Wrap(128 * c)
    ensures v % 64 == 0
  {
    var k := (2 * v - WORD_MIN) / TWO_64 - (128 * c - WORD_MIN) / TWO_64;
    assert 2 * v - 128 * c == TWO_64 * k;
    assert v == 64 * (c + 0x200_0000_0000_0000 * k);
  }

  /** Doubling a word and taking the power of two with that exponent give the same for 1 and 2 only, apart from
      the highest bit of the word. */
  lemma DoubleIsPower(v: word)
    ensures Wrap(2 * v) == Wrap(Pow2(v % 64)) <==> v in {1, 2, WORD_MIN + 1, WORD_MIN + 2}
  {
    SmallPowers(1);
    SmallPowers(2);
    if Wrap(2 * v) == Wrap(Pow2(v % 64)) {
      CountedMod64(v, v % 64);
    }
  }

  /** `k << x` with a literal `k` is emitted as if it were `x << k`. For the literal 1 that doubles `x`, and is right
      if and only if the value of `x`, apart from its highest bit, is 1 or 2. */
  lemma OneShiftedExactly(order: Order, vars: map<Ident, Location>, used: set<Register>, x: Expr, canClear: CanClearRegs,
                          types: map<Ident, Ty>, env: Env, core: Core) returns (v: Val, after: Core)
    requires WellTyped(x, types) && x.TypeOf() == Int && Compilable(x) && NoLiteralFirst(x) && !x.IsLiteral()
    requires EnvTyped(env, types) && Holding(vars, env, core)
    requires BuildValue(order, vars, used, Binary(LeftShift, Value(IntVal(1)), x, Int), canClear).Ok?
    ensures Eval(false, x, env) == Some(v) && v.IntVal?
    ensures var b := BuildValue(order, vars, used, Binary(LeftShift, Value(IntVal(1)), x, Int), canClear).value;
            var source := Eval(false, Binary(LeftShift, Value(IntVal(1)), x, Int), env);
            && RunStraight(b.code, core) == Some(after) && SameFrame(core, after)
            && Read(after, b.loc) == Some(Wrap(2 * v.i)) && source.Some?
            && (Read(after, b.loc) == Some(Encode(source.value)) <==> v.i in {1, 2, WORD_MIN + 1, WORD_MIN + 2})
  {
    hide BuildValue, RunStraight, Compilable, Holding, Read, NoLiteralFirst;
    LiteralCovered(Value(IntVal(1)));
    v, after := ShiftRuns(order, vars, used, LeftShift, Value(IntVal(1)), x, canClear, types, env, core);
    assert Pow2(1 % 64) == 2;
    DoubleIsPower(v.i);
  }
}
