/** The laws of the arithmetic that the folder and the meaning of expressions share, stated without its
    definitions: division by its remainder, shifts by powers of two, bitwise operations bit by bit. */
module ValueLaws {
  import opened Words
  import opened Lir
  import opened ConstFold

  // ---------- division ----------

  function Abs(x: int): (n: int)
    ensures n >= 0
  {
    if x < 0 then -x else x
  }

  /** `q` and `r` are quotient and remainder of a division that truncates toward zero. */
  predicate Divides(a: int, b: int, q: int, r: int) {
    && a == b * q + r
    && -Abs(b) < r < Abs(b)
    && (r == 0 || (r > 0 <==> a > 0))
  }

  lemma Larger(b: int, d: int)
    requires d != 0
    ensures Abs(b * d) >= Abs(b)
    ensures Abs(d) > 1 ==> Abs(b * d) >= 2 * Abs(b)
  {
    var n := Abs(d) - 1;
    assert Abs(b) * n >= 0;
    assert Abs(b) * (n + 1) == Abs(b) * n + Abs(b);
    assert n > 0 ==> Abs(b) * n == Abs(b) * (n - 1) + Abs(b) && Abs(b) * (n - 1) >= 0;
    Product(b, d);
  }

  lemma Product(b: int, d: int)
    ensures Abs(b * d) == Abs(b) * Abs(d)
  {
  }

  /** There is only one quotient and one remainder. */
  lemma DivisionIsUnique(a: int, b: int, q: int, r: int, q': int, r': int)
    requires Divides(a, b, q, r) && Divides(a, b, q', r')
    ensures q == q' && r == r'
  {
    assert b * (q - q') == r' - r;
    if q != q' {
      Larger(b, q - q');
    }
  }

  lemma Negated(b: int, q: int)
    ensures b * -q == -(b * q)
  {
  }

  lemma EuclidDivides(a: int, b: int, q: int, r: int)
    requires a >= 0 && a == b * q + r && 0 <= r < Abs(b)
    ensures Divides(a, b, q, r) && Divides(-a, b, -q, -r)
  {
    Negated(b, q);
    var p := b * q;
    if a == 0 && q != 0 {
      Larger(b, q);
    }
    assert a == 0 ==> r == 0 by {
      if q == 0 {
        assert p == 0;
      }
    }
  }

  lemma TruncDivides(a: int, b: int)
    requires b != 0
    ensures Divides(a, b, TruncDiv(a, b), TruncRem(a, b))
  {
    hide Divides;
    var m := Abs(a);
    EuclidDivides(m, b, m / b, m % b);
    if a < 0 {
      Negated(b, m / b);
    }
  }

  lemma ProductFits(a: word, q: int, r: int, p: int)
    requires a == p + r && (r == 0 || (r > 0 <==> a > 0)) && Abs(r) <= WORD_MAX && (Abs(p) <= Abs(a))
    requires p == q || Abs(p) >= 2 * Abs(q) || (p == -q && a != WORD_MIN)
    ensures WORD_MIN <= q <= WORD_MAX
  {
  }

  /** The part of a division that is no remainder is no larger than what is divided. */
  lemma ProductWithin(a: int, b: int, r: int, p: int)
    requires a == p + r && (r == 0 || (r > 0 <==> a > 0)) && Abs(r) < Abs(b) && (p == 0 || Abs(p) >= Abs(b))
    ensures Abs(p) <= Abs(a)
  {
  }

  lemma QuotientFits(a: word, b: word, q: int, r: int)
    requires Divides(a, b, q, r) && !(a == WORD_MIN && b == -1)
    ensures WORD_MIN <= q <= WORD_MAX && WORD_MIN <= r <= WORD_MAX
  {
    var p := b * q;
    Commutes(b, q);
    if q == 0 {
      return;
    }
    Larger(b, q);
    ProductWithin(a, b, r, p);
    if b == 1 || b == -1 {
      Negated(q, 1);
      assert p == q || p == -q;
    } else {
      Larger(q, b);
    }
    ProductFits(a, q, r, p);
  }

  lemma Commutes(b: int, q: int)
    ensures b * q == q * b
  {
  }

  /** Literals are divided, and their remainder taken, exactly when quotient and remainder are words; and these
      are then the results. */
  lemma DivisionFolds(checked: bool, a: word, b: word)
    ensures var q, r := IntOp(checked, Div, a, b), IntOp(checked, Rem, a, b);
            && (q.Some? <==> exists i: word, j: word :: Divides(a, b, i, j))
            && (r.Some? <==> q.Some?)
            && (q.Some? ==> q.value.IntVal? && r.value.IntVal? && Divides(a, b, q.value.i, r.value.i))
  {
    if b != 0 {
      TruncDivides(a, b);
      var i, j := TruncDiv(a, b), TruncRem(a, b);
      if a == WORD_MIN && b == -1 {
        forall k: word, l: word | Divides(a, b, k, l) ensures false {
          DivisionIsUnique(a, b, i, j, k, l);
        }
      } else {
        QuotientFits(a, b, i, j);
      }
    }
  }

  // ---------- shifts ----------

  lemma Pow2Of64()
    ensures Pow2(64) == TWO_64
  {
    assert Pow2(4) == 16;
    hide Pow2;
    PowersMultiply(4, 4);
    PowersMultiply(8, 8);
    PowersMultiply(16, 16);
    PowersMultiply(32, 32);
  }

  lemma {:induction false} PowersMultiply(m: nat, n: nat)
    ensures Pow2(m + n) == Pow2(m) * Pow2(n)
  {
    if m > 0 {
      PowersMultiply(m - 1, n);
    }
  }

  /** A literal is shifted by the count taken modulo 64, and only a build with overflow checks refuses other
      counts. To the left that is a multiplication by a power of two, in 64 bits; to the right a division that
      rounds down. */
  lemma ShiftFolds(checked: bool, a: word, b: word) returns (n: nat)
    ensures n < 64 && (b - n) % 64 == 0
    ensures var l, r := IntOp(checked, LeftShift, a, b), IntOp(checked, RightShift, a, b);
            && (l.None? <==> checked && b != n) && (r.None? <==> l.None?)
            && (l.Some? ==> l.value.IntVal? && (l.value.i - a * Pow2(n)) % Pow2(64) == 0)
            && (r.Some? ==> r.value.IntVal? && r.value.i * Pow2(n) <= a < (r.value.i + 1) * Pow2(n))
  {
    n := b % 64;
    Pow2Of64();
    hide Pow2;
    WrapCongruent(a * Pow2(n));
    ShrunkFits(a, Pow2(n));
    RoundsDown(a, Pow2(n));
  }

  lemma RoundsDown(a: int, p: nat)
    requires p > 0
    ensures a / p * p <= a < (a / p + 1) * p
  {
    assert a == p * (a / p) + a % p;
  }

  lemma WrapCongruent(x: int)
    ensures (Wrap(x) - x) % TWO_64 == 0
  {
  }

  lemma Grows(p: nat, q: int)
    requires p > 0
    ensures q >= 0 ==> p * q >= q
    ensures q <= 0 ==> p * q <= q
  {
    var more := (p - 1) * q;
    assert p * q == more + q;
    assert q >= 0 ==> more >= 0;
    assert q <= 0 ==> more <= 0;
  }

  lemma ShrunkFits(a: word, p: nat)
    requires p > 0
    ensures WORD_MIN <= a / p <= WORD_MAX
  {
    var q := a / p;
    assert p * q <= a < p * (q + 1);
    Grows(p, q);
    Grows(p, q + 1);
  }

  // ---------- bits ----------

  /** Binary digit number `k` of a natural number. */
  predicate BitOf(x: nat, k: nat) {
    if k == 0 then x % 2 == 1 else BitOf(x / 2, k - 1)
  }

  /** Numbers with the same binary digits are the same. */
  lemma {:induction false} BitsDetermine(x: nat, y: nat, n: nat)
    requires x < Pow2(n) && y < Pow2(n) && forall k: nat :: k < n ==> BitOf(x, k) == BitOf(y, k)
    ensures x == y
    decreases n
  {
    if n > 0 {
      assert BitOf(x, 0) == BitOf(y, 0);
      forall k: nat | k < n - 1 ensures BitOf(x / 2, k) == BitOf(y / 2, k) {
        assert BitOf(x, k + 1) == BitOf(y, k + 1);
      }
      BitsDetermine(x / 2, y / 2, n - 1);
    }
  }

  /** What a bitwise operation makes of two bits. */
  predicate BitResult(kind: BitKind, p: bool, q: bool) {
    match kind
    case AndBits => p && q
    case OrBits => p || q
    case XorBits => p != q
  }

  lemma {:induction false} BitsOfBits(kind: BitKind, a: nat, b: nat, n: nat, k: nat)
    requires k < n
    ensures BitOf(Bits(kind, a, b, n), k) == BitResult(kind, BitOf(a, k), BitOf(b, k))
    decreases n
  {
    var d := Digit(kind, a % 2, b % 2);
    var rest := Bits(kind, a / 2, b / 2, n - 1);
    assert (d + 2 * rest) / 2 == rest && (d + 2 * rest) % 2 == d;
    if k > 0 {
      BitsOfBits(kind, a / 2, b / 2, n - 1, k - 1);
    }
  }

  lemma {:induction false} BitsBelow(kind: BitKind, a: nat, b: nat, n: nat)
    ensures Bits(kind, a, b, n) < Pow2(n)
    decreases n
  {
    if n > 0 {
      BitsBelow(kind, a / 2, b / 2, n - 1);
    }
  }

  lemma UnsignedOfWrap(x: nat)
    requires x < TWO_64
    ensures Unsigned(Wrap(x)) == x
  {
  }

  /** Each bit of a bitwise result comes from the two bits at its place. */
  lemma BitwiseBits(kind: BitKind, a: word, b: word, k: nat)
    requires k < 64
    ensures BitOf(Unsigned(Bitwise(kind, a, b)), k) == BitResult(kind, BitOf(Unsigned(a), k), BitOf(Unsigned(b), k))
  {
    Pow2Of64();
    BitsBelow(kind, Unsigned(a), Unsigned(b), 64);
    UnsignedOfWrap(Bits(kind, Unsigned(a), Unsigned(b), 64));
    BitsOfBits(kind, Unsigned(a), Unsigned(b), 64, k);
  }

  lemma {:induction false} FlippedBits(x: nat, n: nat, k: nat)
    requires x < Pow2(n) && k < n
    ensures BitOf(Pow2(n) - 1 - x, k) == !BitOf(x, k)
    decreases n
  {
    var y := Pow2(n) - 1 - x;
    assert Pow2(n) == 2 * Pow2(n - 1);
    assert y % 2 == 1 - x % 2 && y / 2 == Pow2(n - 1) - 1 - x / 2;
    if k > 0 {
      FlippedBits(x / 2, n - 1, k - 1);
    }
  }

  /** A bit of an integer result. */
  function ResultBit(v: Option<Val>, k: nat): Option<bool> {
    if v.Some? && v.value.IntVal? then Some(BitOf(Unsigned(v.value.i), k)) else None
  }

  /** `&`, `|` and `^` of literals are taken bit by bit, and `~` flips every bit. */
  lemma BitwiseFolds(checked: bool, a: word, b: word, k: nat)
    requires k < 64
    ensures var p, q := BitOf(Unsigned(a), k), BitOf(Unsigned(b), k);
            && ResultBit(IntOp(checked, BitAnd, a, b), k) == Some(p && q)
            && ResultBit(IntOp(checked, BitOr, a, b), k) == Some(p || q)
            && ResultBit(IntOp(checked, BitXor, a, b), k) == Some(p != q)
            && ResultBit(Some(EvaluateUnary(OnesComp, IntVal(a))), k) == Some(!p)
  {
    hide Bitwise, BitOf, Pow2, Unsigned;
    BitwiseBits(AndBits, a, b, k);
    BitwiseBits(OrBits, a, b, k);
    BitwiseBits(XorBits, a, b, k);
    ComplementBits(a, k);
  }

  lemma ComplementBits(a: word, k: nat)
    requires k < 64
    ensures BitOf(Unsigned(-1 - a), k) == !BitOf(Unsigned(a), k)
  {
    hide BitOf, Pow2;
    Pow2Of64();
    FlippedBits(Unsigned(a), 64, k);
    assert Unsigned(-1 - a) == TWO_64 - 1 - Unsigned(a);
  }

  // ---------- truth ----------

  /** What `!!v` says of a value. */
  function Truthy(v: Val): bool {
    EvaluateUnary(Not, EvaluateUnary(Not, v)) == BoolVal(true)
  }

  /** `&&` and `||` on integers are those of their truth, and only zero is false. */
  lemma LogicFolds(checked: bool, a: word, b: word)
    ensures Truthy(IntVal(a)) <==> a != 0
    ensures IntOp(checked, And, a, b) == BoolOp(And, Truthy(IntVal(a)), Truthy(IntVal(b)))
    ensures IntOp(checked, Or, a, b) == BoolOp(Or, Truthy(IntVal(a)), Truthy(IntVal(b)))
    ensures EvaluateUnary(Not, IntVal(a)) == EvaluateUnary(Not, BoolVal(Truthy(IntVal(a))))
    ensures forall b :: EvaluateUnary(OnesComp, BoolVal(b)) == EvaluateUnary(Not, BoolVal(b))
  {
  }

  // ---------- overflow ----------

  /** The exact result of an arithmetic operator. */
  function ExactResult(op: BinOp, a: int, b: int): int
    requires op.Add? || op.Sub? || op.Mul?
  {
    match op
    case Add => a + b
    case Sub => a - b
    case Mul => a * b
  }

  /** A build with overflow checks refuses an operation exactly when its result is no word; without them it is
      taken modulo 2 to the power of 64. */
  lemma OverflowExactly(op: BinOp, a: word, b: word)
    requires op.Add? || op.Sub? || op.Mul?
    ensures var exact := ExactResult(op, a, b);
            && (IntOp(true, op, a, b).None? <==> !(WORD_MIN <= exact <= WORD_MAX))
            && IntOp(false, op, a, b).Some? && IntOp(false, op, a, b).value.IntVal?
            && (IntOp(false, op, a, b).value.i - exact) % Pow2(64) == 0
            && (IntOp(true, op, a, b).Some? ==> IntOp(true, op, a, b) == Some(IntVal(exact)))
  {
    Pow2Of64();
    hide Pow2;
    WrapCongruent(ExactResult(op, a, b));
  }
}
