/** Number literals: which text a number takes, what its base is and which parts of it are missing, said by the
    longest runs of digits in it. */
module Numbers {

  datatype Base = Binary | Octal | Hexadecimal | Decimal

  predicate IsDigit(c: char) {
    '0' <= c <= '9'
  }

  predicate IsHexDigit(c: char) {
    '0' <= c <= '9' || 'a' <= c <= 'f' || 'A' <= c <= 'F'
  }

  /** Digits of the other bases are not told apart. */
  predicate DigitOf(base: Base, c: char) {
    if base.Hexadecimal? then IsHexDigit(c) else IsDigit(c)
  }

  /** The first character of an identifier; the Unicode tables are a parameter. */
  predicate IdStart(xidStart: char -> bool, c: char) {
    'a' <= c <= 'z' || 'A' <= c <= 'Z' || c == '_' || (c > '\U{7F}' && xidStart(c))
  }

  /** The longest run of digits and underscores from `from` on ends at `to`. */
  ghost predicate Run(s: string, base: Base, from: nat, to: nat) {
    && from <= to <= |s|
    && (forall k :: from <= k < to ==> s[k] == '_' || DigitOf(base, s[k]))
    && (to < |s| ==> s[to] != '_' && !DigitOf(base, s[to]))
  }

  /** Underscores alone are no number. */
  ghost predicate HasDigit(s: string, from: nat, to: nat)
    requires to <= |s|
  {
    exists k :: from <= k < to && s[k] != '_'
  }

  /** The base that a prefix says. */
  function PrefixBase(s: string): Base {
    if |s| < 2 || s[0] != '0' then Decimal
    else
      match s[1]
      case 'b' => Binary
      case 'o' => Octal
      case 'x' => Hexadecimal
      case _ => Decimal
  }

  /** Where the digits start. */
  function DigitsStart(s: string): (n: nat)
    ensures n <= |s|
  {
    if PrefixBase(s).Decimal? then 0 else 2
  }

  /** A dot that belongs to the number: not the start of a range, and no field or method behind it. */
  predicate Dotted(s: string, xidStart: char -> bool, m: nat) {
    && m < |s| && s[m] == '.'
    && !(m + 1 < |s| && (s[m + 1] == '.' || IdStart(xidStart, s[m + 1])))
  }

  predicate Exponential(s: string, m: nat) {
    m < |s| && (s[m] == 'e' || s[m] == 'E')
  }

  function AfterSign(s: string, m: nat): nat {
    if m < |s| && (s[m] == '-' || s[m] == '+') then m + 1 else m
  }

  /** An exponent whose mark is at `m`: a sign, perhaps, and the longest run of digits. */
  ghost predicate ExponentAt(s: string, m: nat, empty: bool, end: nat) {
    Exponential(s, m) && Run(s, Decimal, AfterSign(s, m + 1), end) && empty == !HasDigit(s, AfterSign(s, m + 1), end)
  }

  /** What stands behind a dot: nothing, or the longest run of digits and perhaps an exponent. */
  ghost predicate FractionAt(s: string, from: nat, emptyExponent: bool, end: nat) {
    if from < |s| && IsDigit(s[from])
    then exists n: nat :: Run(s, Decimal, from, n)
                     && if Exponential(s, n) then ExponentAt(s, n, emptyExponent, end) else !emptyExponent && end == n
    else !emptyExponent && end == from
  }

  /** An integer at the start of the text ends at `end`. It is empty when a prefix has no digits behind it. */
  ghost predicate IntegerAt(s: string, xidStart: char -> bool, base: Base, empty: bool, end: nat) {
    && base == PrefixBase(s) && Run(s, base, DigitsStart(s), end)
    && empty == !HasDigit(s, DigitsStart(s), end)
    && (!empty ==> !Dotted(s, xidStart, end) && !Exponential(s, end))
  }

  /** The digits of a float before its dot or exponent end at `m`. */
  ghost predicate FloatFrom(s: string, xidStart: char -> bool, base: Base, m: nat, emptyExponent: bool, end: nat) {
    && base == PrefixBase(s) && Run(s, base, DigitsStart(s), m) && HasDigit(s, DigitsStart(s), m)
    && if Dotted(s, xidStart, m) then FractionAt(s, m + 1, emptyExponent, end) else ExponentAt(s, m, emptyExponent, end)
  }

  /** A number with a dot or an exponent. */
  ghost predicate FloatAt(s: string, xidStart: char -> bool, base: Base, emptyExponent: bool, end: nat) {
    exists m: nat :: FloatFrom(s, xidStart, base, m, emptyExponent, end)
  }

  // ---------- uniqueness ----------

  lemma RunIsUnique(s: string, base: Base, from: nat, a: nat, b: nat)
    requires Run(s, base, from, a) && Run(s, base, from, b)
    ensures a == b
  {
  }

  lemma ExponentIsUnique(s: string, m: nat, p: bool, a: nat, q: bool, b: nat)
    requires ExponentAt(s, m, p, a) && ExponentAt(s, m, q, b)
    ensures p == q && a == b
  {
    RunIsUnique(s, Decimal, AfterSign(s, m + 1), a, b);
  }

  lemma FractionIsUnique(s: string, from: nat, p: bool, a: nat, q: bool, b: nat)
    requires FractionAt(s, from, p, a) && FractionAt(s, from, q, b)
    ensures p == q && a == b
  {
    if from < |s| && IsDigit(s[from]) {
      var m: nat :| Run(s, Decimal, from, m) && if Exponential(s, m) then ExponentAt(s, m, p, a) else !p && a == m;
      var n: nat :| Run(s, Decimal, from, n) && if Exponential(s, n) then ExponentAt(s, n, q, b) else !q && b == n;
      RunIsUnique(s, Decimal, from, m, n);
      if Exponential(s, m) {
        ExponentIsUnique(s, m, p, a, q, b);
      }
    }
  }

  /** Text has at most one number at its start, an integer or a float. */
  lemma IntegerIsUnique(s: string, xidStart: char -> bool, p: Base, a: bool, m: nat, q: Base, b: bool, n: nat)
    requires IntegerAt(s, xidStart, p, a, m) && IntegerAt(s, xidStart, q, b, n)
    ensures p == q && a == b && m == n
  {
    RunIsUnique(s, p, DigitsStart(s), m, n);
  }

  lemma FloatIsUnique(s: string, xidStart: char -> bool, p: Base, a: bool, m: nat, q: Base, b: bool, n: nat)
    requires FloatAt(s, xidStart, p, a, m) && FloatAt(s, xidStart, q, b, n)
    ensures p == q && a == b && m == n
  {
    hide FractionAt, ExponentAt;
    var i: nat :| FloatFrom(s, xidStart, p, i, a, m);
    var j: nat :| FloatFrom(s, xidStart, q, j, b, n);
    RunIsUnique(s, p, DigitsStart(s), i, j);
    if Dotted(s, xidStart, i) {
      FractionIsUnique(s, i + 1, a, m, b, n);
    } else {
      ExponentIsUnique(s, i, a, m, b, n);
    }
  }

  lemma IntegerIsNoFloat(s: string, xidStart: char -> bool, p: Base, a: bool, m: nat, q: Base, b: bool, n: nat)
    requires IntegerAt(s, xidStart, p, a, m)
    ensures !FloatAt(s, xidStart, q, b, n)
  {
    forall i: nat ensures !FloatFrom(s, xidStart, q, i, b, n) {
      if Run(s, p, DigitsStart(s), i) {
        RunIsUnique(s, p, DigitsStart(s), m, i);
      }
    }
  }

  // ---------- reading back ----------

  /** Nothing that would make a number longer. */
  predicate EndsNumber(rest: string) {
    rest == [] || !(IsDigit(rest[0]) || rest[0] in "_.eEbox")
  }

  /** Digits and underscores that start with a digit are read back whole as a decimal integer. */
  lemma DecimalReadsBack(digits: string, rest: string, xidStart: char -> bool)
    requires digits != [] && IsDigit(digits[0]) && EndsNumber(rest)
    requires forall k :: 0 <= k < |digits| ==> digits[k] == '_' || IsDigit(digits[k])
    ensures IntegerAt(digits + rest, xidStart, Decimal, false, |digits|)
  {
    var s := digits + rest;
    assert s[0] == digits[0];
    assert |digits| > 1 ==> s[1] == digits[1];
    assert rest != [] ==> s[|digits|] == rest[0];
    assert PrefixBase(s) == Decimal;
    assert forall k :: 0 <= k < |digits| ==> s[k] == digits[k];
  }

  /** And with a dot and more digits as a float. */
  lemma FloatReadsBack(whole: string, fraction: string, rest: string, xidStart: char -> bool)
    requires whole != [] && IsDigit(whole[0]) && fraction != [] && IsDigit(fraction[0]) && EndsNumber(rest)
    requires forall k :: 0 <= k < |whole| ==> whole[k] == '_' || IsDigit(whole[k])
    requires forall k :: 0 <= k < |fraction| ==> fraction[k] == '_' || IsDigit(fraction[k])
    ensures FloatAt(whole + "." + fraction + rest, xidStart, Decimal, false, |whole| + 1 + |fraction|)
  {
    var s := whole + "." + fraction + rest;
    var m, n := |whole|, |whole| + 1 + |fraction|;
    assert s[0] == whole[0] && s[m] == '.' && s[m + 1] == fraction[0];
    assert |whole| > 1 ==> s[1] == whole[1];
    assert rest != [] ==> s[n] == rest[0];
    assert forall k :: 0 <= k < m ==> s[k] == whole[k];
    assert forall k :: m + 1 <= k < n ==> s[k] == fraction[k - m - 1];
    assert PrefixBase(s) == Decimal;
    assert Run(s, Decimal, 0, m) && Run(s, Decimal, m + 1, n);
    assert HasDigit(s, 0, m);
    assert FractionAt(s, m + 1, false, n);
    assert FloatFrom(s, xidStart, Decimal, m, false, n);
  }
}
