/** 64-bit machine words, read as signed integers, with the wrap-around and the
    bitwise operations that the source language, the constant folder and the
    generated instructions share. */
module Words {

  const WORD_MIN: int := -0x8000_0000_0000_0000
  const WORD_MAX: int := 0x7fff_ffff_ffff_ffff
  const TWO_64: int := 0x1_0000_0000_0000_0000

  /** A signed 64-bit word: the source's `isize`, and the content of a register. */
  type word = x: int | WORD_MIN <= x <= WORD_MAX

  /** Two's complement wrap-around into 64 bits. */
  function Wrap(x: int): (w: word)
    ensures WORD_MIN <= x <= WORD_MAX ==> w == x
    ensures (x - w) % TWO_64 == 0
  {
    (x - WORD_MIN) % TWO_64 + WORD_MIN
  }

  /** The word's bit pattern as a natural number. */
  function Unsigned(x: word): nat {
    if x < 0 then x + TWO_64 else x
  }

  datatype BitKind = AndBits | OrBits | XorBits

  function Digit(kind: BitKind, a: nat, b: nat): (d: nat)
    requires a < 2 && b < 2
    ensures d < 2
  {
    match kind
    case AndBits => if a == 1 && b == 1 then 1 else 0
    case OrBits => if a == 1 || b == 1 then 1 else 0
    case XorBits => if a != b then 1 else 0
  }

  /** The low `n` bits of `a` and `b` combined bit by bit. */
  function Bits(kind: BitKind, a: nat, b: nat, n: nat): nat {
    if n == 0 then 0 else Digit(kind, a % 2, b % 2) + 2 * Bits(kind, a / 2, b / 2, n - 1)
  }

  function Bitwise(kind: BitKind, a: word, b: word): word {
    Wrap(Bits(kind, Unsigned(a), Unsigned(b), 64))
  }

  lemma {:induction false} BitsCommute(kind: BitKind, a: nat, b: nat, n: nat)
    ensures Bits(kind, a, b, n) == Bits(kind, b, a, n)
    decreases n
  {
    if n != 0 {
      BitsCommute(kind, a / 2, b / 2, n - 1);
    }
  }

  lemma {:induction false} BitsOfZero(kind: BitKind, n: nat)
    ensures Bits(kind, 0, 0, n) == 0
    decreases n
  {
    if n != 0 {
      BitsOfZero(kind, n - 1);
    }
  }

  lemma BitsOnBooleans(kind: BitKind, a: nat, b: nat, n: nat)
    requires a < 2 && b < 2 && n > 0
    ensures Bits(kind, a, b, n) == Digit(kind, a, b)
  {
    BitsOfZero(kind, n - 1);
  }

  /** On the encodings of booleans the bitwise operations are the logical ones. */
  lemma BitwiseOnBooleans(kind: BitKind, a: word, b: word)
    requires 0 <= a <= 1 && 0 <= b <= 1
    ensures Bitwise(kind, a, b) == Digit(kind, a, b)
  {
    BitsOnBooleans(kind, a, b, 64);
  }

  lemma BitwiseCommutes(kind: BitKind, a: word, b: word)
    ensures Bitwise(kind, a, b) == Bitwise(kind, b, a)
  {
    BitsCommute(kind, Unsigned(a), Unsigned(b), 64);
  }

  function Pow2(n: nat): (p: nat)
    ensures p > 0
  {
    if n == 0 then 1 else 2 * Pow2(n - 1)
  }

  /** Division that truncates toward zero, as Rust's `/` does. */
  function TruncDiv(a: int, b: int): int
    requires b != 0
  {
    if a >= 0 then a / b else -((-a) / b)
  }

  /** The remainder that goes with truncating division. */
  function TruncRem(a: int, b: int): int
    requires b != 0
  {
    a - b * TruncDiv(a, b)
  }
}
