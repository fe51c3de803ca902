/** The lexer: a cursor over the input whose methods eat one token, and the loop that cuts the whole input
    into tokens. */
module Lexer {
  import opened RawStrings
  import opened Comments
  import opened Numbers
  import opened TokenShapes
  import Lir

  class Cursor {
    const input: string
    /** The Unicode tables for identifiers, beyond ASCII. */
    const xidStart: char -> bool
    const xidContinue: char -> bool
    /** How much of the input is consumed. */
    var pos: nat

    ghost predicate Valid()
      reads this
    {
      pos <= |input|
    }

    constructor (input: string, xidStart: char -> bool, xidContinue: char -> bool)
      ensures Valid() && Here() == Source(input, xidStart, xidContinue) && pos == 0
    {
      this.input, this.xidStart, this.xidContinue, pos := input, xidStart, xidContinue, 0;
    }

    /** The input with the tables. */
    function Here(): Source {
      Source(input, xidStart, xidContinue)
    }

    predicate IsIdStart(c: char) {
      Here().IsIdStart(c)
    }

    predicate IsIdContinue(c: char) {
      Here().IsIdContinue(c)
    }

    function NthChar(n: nat): char
      reads this
    {
      if pos + n < |input| then input[pos + n] else EOF_CHAR
    }

    predicate IsEof()
      reads this
    {
      pos >= |input|
    }

    /** The cursor has moved forward, or stayed. */
    twostate predicate Moved()
      reads this
    {
      old(pos) <= pos <= |input|
    }

    method Bump() returns (c: Lir.Option<char>)
      requires Valid()
      modifies this
      ensures Valid() && Moved()
      ensures if old(pos) < |input| then c == Lir.Some(input[old(pos)]) && pos == old(pos) + 1
              else c == Lir.None && pos == old(pos)
    {
      if pos == |input| {
        return Lir.None;
      }
      pos := pos + 1;
      return Lir.Some(input[pos - 1]);
    }

    /** Eats the longest run of characters with the property. */
    method EatWhile(p: char -> bool)
      requires Valid()
      modifies this
      ensures Valid() && Moved()
      ensures forall k :: old(pos) <= k < pos ==> p(input[k])
      ensures pos < |input| ==> !p(input[pos])
    {
      while p(NthChar(0)) && !IsEof()
        invariant Valid() && Moved()
        invariant forall k :: old(pos) <= k < pos ==> p(input[k])
        decreases |input| - pos
      {
        var _ := Bump();
      }
    }

    /** The rest of an identifier whose first character has been eaten. */
    method EatWord() returns (kind: TokenKind)
      requires Valid() && pos > 0 && IsIdStart(input[pos - 1])
      modifies this
      ensures Valid() && Moved() && Here().Word(old(pos) - 1, pos) && kind.Ident?
    {
      EatWhile(c => IsIdContinue(c));
      kind := Ident;
    }

    method EatIdentifier()
      requires Valid()
      modifies this
      ensures Valid() && Moved() && Here().Word(old(pos), pos)
    {
      if IsIdStart(NthChar(0)) {
        var _ := Bump();
        EatWhile(c => IsIdContinue(c));
      }
    }

    /** Eats digits and underscores, as many as there are, and tells whether there was a digit. */
    method EatDigits(base: Base) returns (hasDigits: bool)
      requires Valid()
      modifies this
      ensures Valid() && Moved() && Run(input, base, old(pos), pos) && hasDigits == HasDigit(input, old(pos), pos)
    {
      hasDigits := false;
      while NthChar(0) == '_' || DigitOf(base, NthChar(0))
        invariant Valid() && Moved()
        invariant forall k :: old(pos) <= k < pos ==> input[k] == '_' || DigitOf(base, input[k])
        invariant hasDigits <==> exists k :: old(pos) <= k < pos && input[k] != '_'
        decreases |input| - pos
      {
        ghost var at := pos;
        if NthChar(0) != '_' {
          hasDigits := true;
        }
        var _ := Bump();
        assert input[at] != '_' ==> hasDigits;
      }
    }

    /** The exponent behind its mark: a sign, perhaps, and the longest run of digits. */
    method EatFloatExponent() returns (hasDigits: bool)
      requires Valid() && pos > 0
      modifies this
      ensures Valid() && Moved()
      ensures Run(input, Decimal, AfterSign(input, old(pos)), pos)
      ensures hasDigits == HasDigit(input, AfterSign(input, old(pos)), pos)
    {
      if NthChar(0) == '-' || NthChar(0) == '+' {
        var _ := Bump();
      }
      hasDigits := EatDigits(Decimal);
    }

    method EatLineComment() returns (kind: TokenKind)
      requires Valid() && pos == 1 && Here().Starts('/', '/')
      modifies this
      ensures Valid() && Moved() && kind == LineComment(Here().LineDoc())
      ensures forall k :: old(pos) < k < pos ==> input[k] != '\n'
      ensures pos < |input| ==> input[pos] == '\n'
    {
      var _ := Bump();
      var style := if NthChar(0) == '!' then Lir.Some(Inner)
                   else if NthChar(0) == '/' && NthChar(1) != '/' then Lir.Some(Outer)
                   else Lir.None;
      EatWhile(c => c != '\n');
      kind := LineComment(style);
    }

    method BlockStyle() returns (style: Lir.Option<DocStyle>)
      requires Valid() && pos == 2 && Here().Starts('/', '*')
      ensures style == Here().BlockDoc()
    {
      style := if NthChar(0) == '!' then Lir.Some(Inner)
               else if NthChar(0) == '*' && NthChar(1) != '*' && NthChar(1) != '/' then Lir.Some(Outer)
               else Lir.None;
    }

    /** Ends exactly where the nesting depth returns to zero for the first time, or at the end of the input
        when it never does. */
    method EatBlockComment() returns (kind: TokenKind)
      requires Valid() && pos == 1 && Here().Starts('/', '*')
      modifies this
      ensures Valid() && Moved() && kind.BlockComment? && kind.docStyle == Here().BlockDoc()
      ensures kind.terminated ==> ClosedAt(input, old(pos) + 1, pos)
      ensures !kind.terminated ==> pos == |input| && NeverClosed(input, old(pos) + 1)
    {
      var _ := Bump();
      var style := BlockStyle();
      hide Source.BlockDoc;
      var depth := 1;
      ghost var from := pos;
      var c := Bump();
      ghost var at := from;
      while c.Some?
        invariant Valid() && from <= at <= |input| && depth >= 1
        invariant Depth(input, from, 1, at) == Lir.Some(depth) && Inside(input, from, at)
        invariant if c.Some? then at < |input| && c.value == input[at] && pos == at + 1 else at == |input| == pos
        decreases |input| - at
      {
        DepthStep(input, from, at, depth);
        if c.value == '/' && NthChar(0) == '*' {
          var _ := Bump();
          depth := depth + 1;
        } else if c.value == '*' && NthChar(0) == '/' {
          var _ := Bump();
          depth := depth - 1;
          if depth == 0 {
            return BlockComment(style, true);
          }
        }
        at := pos;
        c := Bump();
      }
      kind := BlockComment(style, false);
    }

    /** The fraction behind its dot. */
    method EatFraction() returns (emptyExponent: bool)
      requires Valid() && pos > 0
      modifies this
      ensures Valid() && Moved() && FractionAt(input, old(pos), emptyExponent, pos)
    {
      emptyExponent := false;
      if IsDigit(NthChar(0)) {
        var _ := EatDigits(Decimal);
        ghost var n := pos;
        if NthChar(0) in "eE" {
          var _ := Bump();
          var digits := EatFloatExponent();
          emptyExponent := !digits;
        }
        assert Run(input, Decimal, old(pos), n);
      }
    }

    /** What stands behind the digits of a number. */
    method EatNumberRest(base: Base) returns (kind: LiteralKind)
      requires Valid() && 0 < pos && base == PrefixBase(input) && Run(input, base, DigitsStart(input), pos)
      requires HasDigit(input, DigitsStart(input), pos)
      modifies this
      ensures Valid() && Moved()
      ensures match kind
              case Int(b, empty) => IntegerAt(input, xidStart, b, empty, pos)
              case Float(b, empty) => FloatAt(input, xidStart, b, empty, pos)
              case _ => false
    {
      ghost var m := pos;
      if NthChar(0) == '.' && NthChar(1) != '.' && !IsIdStart(NthChar(1)) {
        var _ := Bump();
        var emptyExponent := EatFraction();
        assert FloatFrom(input, xidStart, base, m, emptyExponent, pos);
        return Float(base, emptyExponent);
      }
      if NthChar(0) in "eE" {
        var _ := Bump();
        var digits := EatFloatExponent();
        assert FloatFrom(input, xidStart, base, m, !digits, pos);
        return Float(base, !digits);
      }
      return Int(base, false);
    }

    /** A number whose first digit has been eaten: its base is the one that the prefix says, its runs of digits are
        as long as they can be, and what is missing behind a prefix or in an exponent is reported. */
    method EatNumber(firstDigit: char) returns (kind: LiteralKind)
      requires Valid() && pos == 1 && input[0] == firstDigit && IsDigit(firstDigit)
      modifies this
      ensures Valid() && Moved()
      ensures match kind
              case Int(b, empty) => IntegerAt(input, xidStart, b, empty, pos)
              case Float(b, empty) => FloatAt(input, xidStart, b, empty, pos)
              case _ => false
    {
      var base := Decimal;
      if firstDigit == '0' {
        var hasDigits := true;
        var c := NthChar(0);
        if c == 'b' {
          base := Binary;
          var _ := Bump();
          hasDigits := EatDigits(base);
        } else if c == 'o' {
          base := Octal;
          var _ := Bump();
          hasDigits := EatDigits(base);
        } else if c == 'x' {
          base := Hexadecimal;
          var _ := Bump();
          hasDigits := EatDigits(base);
        } else if IsDigit(c) || c in "_.eE" {
          var _ := EatDigits(Decimal);
        } else {
          assert input[0] != '_';
          return Int(base, false);
        }
        if !hasDigits {
          return Int(base, true);
        }
      } else {
        var _ := EatDigits(Decimal);
      }
      assert input[0] != '_';
      kind := EatNumberRest(base);
    }

    /** A character literal behind its opening quote. */
    method EatSingleQuoted() returns (terminated: bool)
      requires Valid()
      modifies this
      ensures Valid() && Moved() && Here().CharAt(old(pos), terminated, pos)
    {
      if NthChar(1) == '\'' && NthChar(0) != '\\' {
        var _ := Bump();
        var _ := Bump();
        return true;
      }
      while true
        invariant Valid() && Moved()
        invariant CharRead(input, old(pos)) == ScanChar(input, pos)
        decreases |input| - pos
      {
        var c := NthChar(0);
        if c == '\'' {
          var _ := Bump();
          return true;
        } else if c == '/' || (c == '\n' && NthChar(1) != '\'') || IsEof() {
          return false;
        } else if c == '\\' {
          var _ := Bump();
          var _ := Bump();
        } else {
          var _ := Bump();
        }
      }
    }

    /** Ends behind the first quote that is not escaped. */
    method EatDoubleQuoted() returns (terminated: bool)
      requires Valid()
      modifies this
      ensures Valid() && Moved()
      ensures if terminated then StringEnd(input, old(pos)) == Lir.Some(pos)
              else StringEnd(input, old(pos)) == Lir.None && pos == |input|
    {
      var c := Bump();
      while c.Some?
        invariant Valid() && Moved()
        invariant c.Some? ==> pos > old(pos) && c.value == input[pos - 1] && StringEnd(input, old(pos)) == StringEnd(input, pos - 1)
        invariant c.None? ==> pos == |input| && StringEnd(input, old(pos)) == Lir.None
        decreases |input| - pos, c.Some?
      {
        if c.value == '"' {
          return true;
        }
        if c.value == '\\' && (NthChar(0) == '\\' || NthChar(0) == '"') {
          var _ := Bump();
        }
        c := Bump();
      }
      return false;
    }

    /** Eats hashes, at most `limit` of them. */
    method EatHashes(limit: Lir.Option<nat>) returns (eaten: nat)
      requires Valid()
      modifies this
      ensures Valid() && pos == old(pos) + eaten
      ensures eaten == match limit
                       case None => HashRun(input, old(pos))
                       case Some(n) => if HashRun(input, old(pos)) < n then HashRun(input, old(pos)) else n
    {
      eaten := 0;
      while NthChar(0) == '#' && (limit.None? || eaten < limit.value)
        invariant Valid() && pos == old(pos) + eaten
        invariant HashRun(input, old(pos)) == eaten + HashRun(input, pos)
        invariant limit.Some? ==> eaten <= limit.value
        decreases |input| - pos
      {
        eaten := eaten + 1;
        var _ := Bump();
      }
    }

    /** The loop over the contents, which start at the cursor. */
    method FindEnd(hashes: nat, startPos: nat, prefixLen: nat) returns (err: Lir.Option<RawStrError>)
      requires Valid() && startPos <= pos
      modifies this
      ensures Valid() && Moved()
      ensures err == Lir.None ==> EndsAt(input, old(pos), hashes, pos)
      ensures err != Lir.None ==> pos == |input| && NotEnded(input, old(pos), hashes, startPos, prefixLen, err.value)
    {
      hide HashRun, Searched, EndsAt, NotEnded;
      ghost var from, at: Lir.Option<nat> := pos, Lir.None;
      var possible: Lir.Option<nat> := Lir.None;
      var maxHashes := 0;
      SearchedNone(input, pos, hashes);
      while true
        invariant from <= pos <= |input| && from == old(pos)
        invariant Searched(input, from, pos, hashes, maxHashes, at)
        invariant at.Some? ==> at.value > startPos
        invariant possible == match at case None => Lir.None case Some(a) => Lir.Some(a - startPos + prefixLen)
        decreases |input| - pos
      {
        ghost var before := pos;
        EatWhile(c => c != '"');
        NoQuotes(input, from, before, pos, hashes, maxHashes, at);
        if IsEof() {
          SearchedAll(input, from, hashes, maxHashes, at, startPos, prefixLen);
          return Lir.Some(NoTerminator(hashes, maxHashes, possible));
        }
        ghost var q := pos;
        var _ := Bump();
        var n := EatHashes(Lir.Some(hashes));
        if n == hashes {
          SearchEnds(input, from, q, hashes, maxHashes, at);
          return Lir.None;
        }
        OneQuote(input, from, q, hashes, maxHashes, at);
        if n > maxHashes {
          possible := Lir.Some(pos - startPos - n + prefixLen);
          maxHashes := n;
          at := Lir.Some(q + 1);
        }
      }
    }

    /** `raw_string_unvalidated`, with the cursor behind the `r`. With the right start it succeeds exactly
        when some quote is followed by enough hashes, and stops behind the first such place. Otherwise it
        eats everything and reports the longest run of hashes behind a quote and the first place where it
        occurs, counted from the start of the literal. */
    method RawStringUnvalidated(prefixLen: nat) returns (hashes: nat, err: Lir.Option<RawStrError>)
      requires Valid()
      modifies this
      ensures Valid() && Moved() && hashes == HashRun(input, old(pos))
      ensures var quote := old(pos) + hashes;
              if quote == |input| then err == Lir.Some(InvalidStarter(EOF_CHAR)) && pos == quote
              else if input[quote] != '"' then err == Lir.Some(InvalidStarter(input[quote])) && pos == quote + 1
              else
                && (err == Lir.None ==> EndsAt(input, quote + 1, hashes, pos))
                && (err != Lir.None ==>
                      pos == |input| && NotEnded(input, quote + 1, hashes, old(pos), prefixLen, err.value))
    {
      hide HashRun, EndsAt, NotEnded;
      var startPos := pos;
      hashes := EatHashes(Lir.None);
      var c := Bump();
      if c != Lir.Some('"') {
        return hashes, Lir.Some(InvalidStarter(if c.Some? then c.value else EOF_CHAR));
      }
      err := FindEnd(hashes, startPos, prefixLen);
    }

    /** More opening hashes than 16 bits can count are an error, after the whole string has been eaten. */
    method RawDoubleQuotedString(prefixLen: nat) returns (hashes: nat, err: Lir.Option<RawStrError>)
      requires Valid()
      modifies this
      ensures Valid() && Moved() && Here().RawRead(old(pos), prefixLen, hashes, err, pos)
    {
      hide HashRun;
      hashes, err := RawStringUnvalidated(prefixLen);
      if hashes > 65535 {
        hashes, err := 0, Lir.Some(TooManyDelimiters(hashes));
      }
    }

    /** The literal behind its prefix, and its suffix unless it is broken. */
    method EatRaw(prefixLen: nat) returns (hashes: nat, err: Lir.Option<RawStrError>, suffixStart: nat)
      requires Valid()
      modifies this
      ensures Valid() && Moved() && Here().RawRead(old(pos), prefixLen, hashes, err, suffixStart)
      ensures old(pos) <= suffixStart <= pos
      ensures if err == Lir.None then Here().Word(suffixStart, pos) else suffixStart == pos
    {
      hashes, err := RawDoubleQuotedString(prefixLen);
      suffixStart := pos;
      if err.None? {
        EatIdentifier();
      }
    }

    method EatSuffix(terminated: bool) returns (suffixStart: nat)
      requires Valid()
      modifies this
      ensures Valid() && Moved() && suffixStart == old(pos)
      ensures if terminated then Here().Word(old(pos), pos) else pos == old(pos)
    {
      suffixStart := pos;
      if terminated {
        EatIdentifier();
      }
    }

    /** A literal with a prefix, behind its first character. */
    method EatPrefixed() returns (kind: TokenKind)
      requires Valid() && pos == 1 && Here().Prefixed() && !IsWhitespace(input[0])
      modifies this
      ensures Valid() && pos > 0 && Here().Shape(kind, pos)
    {
      hide StringEnd, Source.RawRead, Source.Word, Source.CharAt;
      if input[0] == 'r' {
        if NthChar(0) == '#' && IsIdStart(NthChar(1)) {
          kind := Unknown;
        } else {
          var hashes, err, start := EatRaw(1);
          kind := Literal(RawStr(hashes, err), start);
        }
      } else if NthChar(0) == '\'' {
        var _ := Bump();
        var terminated := EatSingleQuoted();
        var start := EatSuffix(terminated);
        kind := Literal(Byte(terminated), start);
      } else if NthChar(0) == '"' {
        var _ := Bump();
        var terminated := EatDoubleQuoted();
        var start := EatSuffix(terminated);
        kind := Literal(ByteStr(terminated), start);
      } else {
        var _ := Bump();
        var hashes, err, start := EatRaw(2);
        kind := Literal(RawByteStr(hashes, err), start);
      }
    }

    /** The next token: at least one character, never past the end, and of the shape that its kind says. */
    method AdvanceToken() returns (token: Token)
      requires Valid() && pos == 0 && input != []
      modifies this
      ensures Valid() && token.len == pos > 0
      ensures Here().Shape(token.kind, token.len)
    {
      hide ClosedAt, NeverClosed, StringEnd, Source.Word, IsWhitespace, IsDigit, IdStart, IsPunct, Source.CharAt, IntegerAt, FloatAt,
           Source.LineDoc, Source.BlockDoc;
      CharSorts(Here(), input[0]);
      var first := Bump();
      var c := first.value;
      var kind;
      if c == '/' {
        if NthChar(0) == '/' {
          kind := EatLineComment();
        } else if NthChar(0) == '*' {
          kind := EatBlockComment();
        } else {
          kind := Punct('/');
        }
      } else if IsWhitespace(c) {
        EatWhile(IsWhitespace);
        kind := Whitespace;
      } else if Here().Prefixed() {
        kind := EatPrefixed();
      } else if IsIdStart(c) {
        kind := EatWord();
      } else if IsDigit(c) {
        var number := EatNumber(c);
        var start := EatSuffix(true);
        kind := Literal(number, start);
      } else if IsPunct(c) {
        kind := Punct(c);
      } else if c == '\'' {
        var terminated := EatSingleQuoted();
        var start := EatSuffix(terminated);
        kind := Literal(Char(terminated), start);
      } else if c == '"' {
        var terminated := EatDoubleQuoted();
        var start := EatSuffix(terminated);
        kind := Literal(Str(terminated), start);
      } else {
        kind := Unknown;
      }
      return Token(kind, pos);
    }
  }

  // ---------- the whole input ----------

  function TotalLen(tokens: seq<Token>): nat {
    if tokens == [] then 0 else tokens[0].len + TotalLen(tokens[1..])
  }

  /** The texts of the tokens, cut from the input one after the other. */
  function Texts(input: string, tokens: seq<Token>): seq<string>
    requires TotalLen(tokens) <= |input|
    decreases |tokens|
  {
    if tokens == [] then [] else [input[..tokens[0].len]] + Texts(input[tokens[0].len..], tokens[1..])
  }

  function Join(texts: seq<string>): string {
    if texts == [] then "" else texts[0] + Join(texts[1..])
  }

  lemma {:induction false} TextsJoin(input: string, tokens: seq<Token>)
    requires TotalLen(tokens) == |input|
    ensures Join(Texts(input, tokens)) == input
    decreases |tokens|
  {
    if tokens != [] {
      var n := tokens[0].len;
      assert n <= |input|;
      TextsJoin(input[n..], tokens[1..]);
      assert input[..n] + input[n..] == input;
    }
  }

  lemma {:induction false} TotalLenAppend(a: seq<Token>, b: seq<Token>)
    ensures TotalLen(a + b) == TotalLen(a) + TotalLen(b)
    decreases |a|
  {
    if a == [] {
      assert a + b == b;
    } else {
      assert (a + b)[1..] == a[1..] + b;
      TotalLenAppend(a[1..], b);
    }
  }

  /** Cutting off the tokens, each of its shape at the place where it stands, leaves `rest`. */
  ghost predicate Cut(s: Source, tokens: seq<Token>, rest: string)
    decreases |tokens|
  {
    if tokens == [] then rest == s.input
    else
      var t := tokens[0];
      s.Shape(t.kind, t.len) && Cut(s.(input := s.input[t.len..]), tokens[1..], rest)
  }

  lemma {:induction false} CutOneMore(s: Source, tokens: seq<Token>, rest: string, t: Token)
    requires Cut(s, tokens, rest) && s.(input := rest).Shape(t.kind, t.len)
    ensures Cut(s, tokens + [t], rest[t.len..])
    decreases |tokens|
  {
    hide Source.Shape;
    if tokens == [] {
      assert ([t])[1..] == [];
      assert tokens + [t] == [t] && s.(input := rest) == s;
      ShapeFits(s, t);
    } else {
      ShapeFits(s, tokens[0]);
      var tail := s.(input := s.input[tokens[0].len..]);
      assert tail.(input := rest) == s.(input := rest);
      ShapeFits(s.(input := rest), t);
      CutOneMore(tail, tokens[1..], rest, t);
      assert (tokens + [t])[1..] == tokens[1..] + [t];
    }
  }

  lemma ShapeFits(s: Source, t: Token)
    requires s.Shape(t.kind, t.len)
    ensures 0 < t.len <= |s.input| && !t.kind.Eof?
  {
  }

  /** There is only one way to cut a whole input into tokens. */
  lemma {:induction false} CutIsUnique(s: Source, a: seq<Token>, b: seq<Token>)
    requires Cut(s, a, "") && Cut(s, b, "")
    ensures a == b
    decreases |a|
  {
    hide Source.Shape;
    if a != [] && b != [] {
      ShapeIsUnique(s, a[0].kind, a[0].len, b[0].kind, b[0].len);
      ShapeFits(s, a[0]);
      CutIsUnique(s.(input := s.input[a[0].len..]), a[1..], b[1..]);
      assert a == [a[0]] + a[1..] && b == [b[0]] + b[1..];
    } else if a != [] {
      ShapeFits(s, a[0]);
    } else if b != [] {
      ShapeFits(s, b[0]);
    }
  }

  lemma Uncut(s: Source)
    ensures Cut(s, [], s.input) && TotalLen([]) == 0
  {
  }

  lemma OneLen(t: Token)
    ensures TotalLen([t]) == t.len
  {
  }

  /** Nothing is lost: each token has its shape at the place where it stands, no token is empty, and the texts of
      the tokens joined together are the input. */
  method Tokenize(input: string, xidStart: char -> bool, xidContinue: char -> bool) returns (tokens: seq<Token>)
    ensures forall t :: t in tokens ==> t.len > 0 && !t.kind.Eof?
    ensures TotalLen(tokens) == |input| && Join(Texts(input, tokens)) == input
    ensures Cut(Source(input, xidStart, xidContinue), tokens, "")
  {
    hide Source.Shape, Cut, TotalLen, Texts, Join;
    ghost var source := Source(input, xidStart, xidContinue);
    Uncut(source);
    tokens := [];
    var rest := input;
    while rest != []
      invariant forall t :: t in tokens ==> t.len > 0 && !t.kind.Eof?
      invariant TotalLen(tokens) + |rest| == |input| && Cut(source, tokens, rest)
      decreases |rest|
    {
      var cursor := new Cursor(rest, xidStart, xidContinue);
      var token := cursor.AdvanceToken();
      assert cursor.Here() == source.(input := rest);
      ShapeFits(cursor.Here(), token);
      TotalLenAppend(tokens, [token]);
      CutOneMore(source, tokens, rest, token);
      OneLen(token);
      tokens := tokens + [token];
      rest := rest[token.len..];
    }
    TextsJoin(input, tokens);
  }
}
