/** What the token at the start of an input is: its kind with all details, and how long it is. */
module TokenShapes {
  import opened RawStrings
  import opened Comments
  import opened Numbers
  import Lir

  datatype DocStyle = Outer | Inner

  datatype LiteralKind =
    | Int(base: Base, emptyInt: bool)
    | Float(base: Base, emptyExponent: bool)
    | Char(terminated: bool)
    | Byte(terminated: bool)
    | Str(terminated: bool)
    | ByteStr(terminated: bool)
    | RawStr(hashes: nat, err: Lir.Option<RawStrError>)
    | RawByteStr(hashes: nat, err: Lir.Option<RawStrError>)
  {
    /** The literal is closed, so it may have a suffix. */
    predicate Complete() {
      match this
      case Char(terminated) => terminated
      case Byte(terminated) => terminated
      case Str(terminated) => terminated
      case ByteStr(terminated) => terminated
      case RawStr(_, err) => err.None?
      case RawByteStr(_, err) => err.None?
      case _ => true
    }
  }

  /** `Punct` stands for the kinds of one character each. */
  datatype TokenKind =
    | LineComment(docStyle: Lir.Option<DocStyle>)
    | BlockComment(docStyle: Lir.Option<DocStyle>, terminated: bool)
    | Whitespace
    | Ident
    | Literal(kind: LiteralKind, suffixStart: nat)
    | Punct(c: char)
    | Eof
    | Unknown

  datatype Token = Token(kind: TokenKind, len: nat)

  const PUNCT: string := ";,.(){}[]@#~?:$=!<>-&|+*^%"

  predicate IsPunct(c: char) {
    c in PUNCT
  }

  predicate IsWhitespace(c: char) {
    c in "\t\n\U{0B}\U{0C}\r \U{85}\U{200E}\U{200F}\U{2028}\U{2029}"
  }

  /** Whitespace by code points: the ASCII controls from tab to carriage return, the space, and those beyond ASCII. */
  lemma WhitespacePoints(c: char)
    ensures IsWhitespace(c) <==>
              0x09 <= c as int <= 0x0D || c as int in {0x20, 0x85, 0x200E, 0x200F, 0x2028, 0x2029}
  {
  }

  /** The marks are the punctuation of ASCII but quotes, slashes, the underscore and the backtick. */
  lemma PunctPoints(c: char)
    ensures var n := c as int;
            IsPunct(c) <==>
              && (0x21 <= n <= 0x2F || 0x3A <= n <= 0x40 || 0x5B <= n <= 0x60 || 0x7B <= n <= 0x7E)
              && c != '"' && c != '\'' && c != '/' && c != '\\' && c != '_' && c != '`'
  {
  }

  /** An input, and the Unicode tables for identifiers beyond ASCII. */
  datatype Source = Source(input: string, xidStart: char -> bool, xidContinue: char -> bool) {

    predicate IsIdStart(c: char) {
      IdStart(xidStart, c)
    }

    predicate IsIdContinue(c: char) {
      'a' <= c <= 'z' || 'A' <= c <= 'Z' || '0' <= c <= '9' || c == '_' || (c > '\U{7F}' && xidContinue(c))
    }

    /** From `from` to `to` is a whole identifier, or nothing when none starts there. */
    ghost predicate Word(from: nat, to: nat) {
      && from <= to <= |input|
      && if from < |input| && IsIdStart(input[from])
         then from < to && (forall k :: from < k < to ==> IsIdContinue(input[k])) && (to < |input| ==> !IsIdContinue(input[to]))
         else to == from
    }

    predicate Starts(a: char, b: char) {
      |input| > 1 && input[0] == a && input[1] == b
    }

    /** The input starts with a prefix of a raw or byte literal, or with an attempt at a raw identifier. */
    predicate Prefixed() {
      || Starts('r', '#') || Starts('r', '"') || Starts('b', '\'') || Starts('b', '"')
      || (Starts('b', 'r') && |input| > 2 && (input[2] == '#' || input[2] == '"'))
    }

    // A `!` behind the mark of a comment documents what the comment stands in; one more slash or star what comes
    // next, if that is all there is of slashes or stars.

    function LineDoc(): Lir.Option<DocStyle> {
      if "//!" <= input then Lir.Some(Inner)
      else if "///" <= input && !("////" <= input) then Lir.Some(Outer)
      else Lir.None
    }

    function BlockDoc(): Lir.Option<DocStyle> {
      if "/*!" <= input then Lir.Some(Inner)
      else if "/**" <= input && !("/***" <= input) && !("/**/" <= input) then Lir.Some(Outer)
      else Lir.None
    }

    /** Where what is read as a raw string from behind its prefix ends. */
    ghost predicate RawEnd(from: nat, opening: nat, end: nat) {
      && from + opening <= |input|
      && var quote := from + opening;
         if quote == |input| then end == quote
         else if input[quote] != '"' then end == quote + 1
         else if NeverCloses(input, quote + 1, opening) then end == |input|
         else EndsAt(input, quote + 1, opening, end)
    }

    /** What is wrong with it. */
    ghost predicate RawFault(from: nat, prefixLen: nat, opening: nat, err: Lir.Option<RawStrError>) {
      && from + opening <= |input|
      && var quote := from + opening;
         if quote == |input| then err == Lir.Some(InvalidStarter(EOF_CHAR))
         else if input[quote] != '"' then err == Lir.Some(InvalidStarter(input[quote]))
         else if NeverCloses(input, quote + 1, opening)
         then err.Some? && NotEnded(input, quote + 1, opening, from, prefixLen, err.value)
         else err.None?
    }

    /** What is read behind the prefix of a raw string. Too many opening hashes are reported after it has been read
        like any other. */
    ghost predicate RawRead(from: nat, prefixLen: nat, hashes: nat, err: Lir.Option<RawStrError>, end: nat) {
      && from <= |input|
      && var opening := HashRun(input, from);
         && RawEnd(from, opening, end)
         && if opening > 65535 then hashes == 0 && err == Lir.Some(TooManyDelimiters(opening))
            else hashes == opening && RawFault(from, prefixLen, opening, err)
    }

    ghost predicate StringRead(from: nat, terminated: bool, end: nat) {
      && from <= |input|
      && if terminated then StringEnd(input, from) == Lir.Some(end) else StringEnd(input, from) == Lir.None && end == |input|
    }

    predicate CharAt(from: nat, terminated: bool, end: nat) {
      CharRead(input, from) == if terminated then Closed(end) else Open(end)
    }

    /** What a literal of this kind looks like that ends, without its suffix, at `end`. */
    ghost predicate LiteralShape(kind: LiteralKind, end: nat)
      requires input != []
    {
      match kind
      case Int(base, empty) => IsDigit(input[0]) && IntegerAt(input, xidStart, base, empty, end)
      case Float(base, empty) => IsDigit(input[0]) && FloatAt(input, xidStart, base, empty, end)
      case Char(terminated) => input[0] == '\'' && CharAt(1, terminated, end)
      case Byte(terminated) => Starts('b', '\'') && CharAt(2, terminated, end)
      case Str(terminated) => input[0] == '"' && StringRead(1, terminated, end)
      case ByteStr(terminated) => Starts('b', '"') && StringRead(2, terminated, end)
      case RawStr(hashes, err) => input[0] == 'r' && Prefixed() && RawRead(1, 1, hashes, err, end) && !RawWord()
      case RawByteStr(hashes, err) => Starts('b', 'r') && Prefixed() && RawRead(2, 2, hashes, err, end)
    }

    /** What would be a raw identifier is not known. */
    predicate RawWord() {
      Starts('r', '#') && |input| > 2 && IsIdStart(input[2])
    }

    /** What a token of this kind and length at the start of the input looks like: runs are as long as they can be,
        strings and comments end where they are closed, and only a complete literal has a suffix. */
    ghost predicate Shape(kind: TokenKind, len: nat) {
      && 0 < len <= |input|
      && match kind
         case LineComment(doc) =>
           && Starts('/', '/') && doc == LineDoc()
           && (forall k :: 0 <= k < len ==> input[k] != '\n') && (len < |input| ==> input[len] == '\n')
         case BlockComment(doc, terminated) =>
           && Starts('/', '*') && doc == BlockDoc()
           && if terminated then ClosedAt(input, 2, len) else len == |input| && NeverClosed(input, 2)
         case Whitespace =>
           (forall k :: 0 <= k < len ==> IsWhitespace(input[k])) && (len < |input| ==> !IsWhitespace(input[len]))
         case Ident => IsIdStart(input[0]) && !IsWhitespace(input[0]) && !Prefixed() && Word(0, len)
         case Literal(lit, suffixStart) =>
           && 0 < suffixStart <= len && LiteralShape(lit, suffixStart)
           && if lit.Complete() then Word(suffixStart, len) else suffixStart == len
         case Punct(c) => len == 1 && input[0] == c && (IsPunct(c) || (c == '/' && !Starts('/', '/') && !Starts('/', '*')))
         case Unknown => len == 1 && (RawWord() || Foreign(input[0]))
         case Eof => false
    }

    /** A character that starts nothing. */
    predicate Foreign(c: char) {
      !IsIdStart(c) && !IsDigit(c) && !IsWhitespace(c) && !IsPunct(c) && c != '/' && c != '\'' && c != '"'
    }
  }

  // ---------- an input has one first token ----------

  lemma RawIsUnique(s: Source, from: nat, prefixLen: nat, m: nat, p: Lir.Option<RawStrError>, a: nat,
                    n: nat, q: Lir.Option<RawStrError>, b: nat)
    requires s.RawRead(from, prefixLen, m, p, a) && s.RawRead(from, prefixLen, n, q, b)
    ensures m == n && p == q && a == b
  {
  }

  lemma WordIsUnique(s: Source, from: nat, a: nat, b: nat)
    requires s.Word(from, a) && s.Word(from, b)
    ensures a == b
  {
  }

  /** The sort of a token, which the first characters decide. */
  datatype Sort =
    | LineSort | BlockSort | BlankSort | WordSort | NumberSort | CharSort | StrSort | ByteSort | ByteStrSort | RawSort
    | RawByteSort | PunctSort | UnknownSort | NoSort

  function SortOf(kind: TokenKind): Sort {
    match kind
    case LineComment(_) => LineSort
    case BlockComment(_, _) => BlockSort
    case Whitespace => BlankSort
    case Ident => WordSort
    case Punct(_) => PunctSort
    case Unknown => UnknownSort
    case Eof => NoSort
    case Literal(lit, _) =>
      match lit
      case Int(_, _) | Float(_, _) => NumberSort
      case Char(_) => CharSort
      case Byte(_) => ByteSort
      case Str(_) => StrSort
      case ByteStr(_) => ByteStrSort
      case RawStr(_, _) => RawSort
      case RawByteStr(_, _) => RawByteSort
  }

  function FirstSort(s: Source): Sort
    requires s.input != []
  {
    var c := s.input[0];
    if s.Starts('/', '/') then LineSort
    else if s.Starts('/', '*') then BlockSort
    else if IsWhitespace(c) then BlankSort
    else if s.RawWord() then UnknownSort
    else if s.Prefixed() then
      if c == 'r' then RawSort
      else if s.Starts('b', 'r') then RawByteSort
      else if s.Starts('b', '"') then ByteStrSort
      else ByteSort
    else if s.IsIdStart(c) then WordSort
    else if IsDigit(c) then NumberSort
    else if c == '\'' then CharSort
    else if c == '"' then StrSort
    else if IsPunct(c) || c == '/' then PunctSort
    else UnknownSort
  }

  lemma SortIsFirst(s: Source, kind: TokenKind, len: nat)
    requires s.Shape(kind, len)
    ensures SortOf(kind) == FirstSort(s)
  {
    hide Source.RawRead, Source.StringRead, IntegerAt, FloatAt, Source.Word, Source.CharAt, ClosedAt, NeverClosed,
         IsPunct, IsWhitespace, IsDigit, IdStart, Source.LineDoc, Source.BlockDoc;
    CharSorts(s, s.input[0]);
    CharSorts(s, '/');
    CharSorts(s, 'r');
    CharSorts(s, 'b');
    CharSorts(s, '\'');
    CharSorts(s, '"');
  }

  /** Most characters start one sort of token only. */
  lemma CharSorts(s: Source, c: char)
    ensures IsPunct(c) ==> !s.IsIdStart(c) && !IsDigit(c) && !IsWhitespace(c)
    ensures IsDigit(c) ==> !s.IsIdStart(c) && !IsWhitespace(c)
    ensures c in "/'\"" ==> !IsPunct(c) && !s.IsIdStart(c) && !IsDigit(c) && !IsWhitespace(c)
    ensures c in "rb" ==> !IsPunct(c) && s.IsIdStart(c) && !IsDigit(c) && !IsWhitespace(c)
  {
  }

  lemma LiteralTokenIsUnique(s: Source, kind: TokenKind, len: nat, other: TokenKind, length: nat)
    requires s.Shape(kind, len) && s.Shape(other, length) && SortOf(kind) == SortOf(other) && kind.Literal?
    ensures kind == other && len == length
  {
    hide Source.Word, Source.LiteralShape;
    LiteralIsUnique(s, kind.kind, kind.suffixStart, other.kind, other.suffixStart);
    if kind.kind.Complete() {
      WordIsUnique(s, kind.suffixStart, len, length);
    }
  }

  lemma BlankIsUnique(input: string, m: nat, n: nat)
    requires 0 < m <= |input| && (forall k :: 0 <= k < m ==> IsWhitespace(input[k])) && (m < |input| ==> !IsWhitespace(input[m]))
    requires 0 < n <= |input| && (forall k :: 0 <= k < n ==> IsWhitespace(input[k])) && (n < |input| ==> !IsWhitespace(input[n]))
    ensures m == n
  {
    hide IsWhitespace;
  }

  lemma LineIsUnique(input: string, m: nat, n: nat)
    requires 0 < m <= |input| && (forall k :: 0 <= k < m ==> input[k] != '\n') && (m < |input| ==> input[m] == '\n')
    requires 0 < n <= |input| && (forall k :: 0 <= k < n ==> input[k] != '\n') && (n < |input| ==> input[n] == '\n')
    ensures m == n
  {
  }

  lemma SameSort(s: Source, kind: TokenKind, len: nat, other: TokenKind, length: nat)
    requires s.Shape(kind, len) && s.Shape(other, length)
    ensures SortOf(kind) == SortOf(other) && !kind.Eof?
  {
    SortIsFirst(s, kind, len);
    SortIsFirst(s, other, length);
    hide FirstSort, Source.LiteralShape, Source.Word, Source.LineDoc, Source.BlockDoc, IsPunct, IsWhitespace;
  }

  /** An input has at most one token at its start: kind, details and length are determined. */
  lemma ShapeIsUnique(s: Source, kind: TokenKind, len: nat, other: TokenKind, length: nat)
    requires s.Shape(kind, len) && s.Shape(other, length)
    ensures kind == other && len == length
  {
    hide Source.Shape;
    SameSort(s, kind, len, other, length);
    if kind.Literal? {
      LiteralTokenIsUnique(s, kind, len, other, length);
    } else {
      match kind
      case LineComment(doc) => LineTokenIsUnique(s, doc, len, other.docStyle, length);
      case BlockComment(doc, terminated) => BlockTokenIsUnique(s, doc, terminated, len, other.docStyle, other.terminated, length);
      case Whitespace => BlankTokenIsUnique(s, len, length);
      case Ident => WordTokenIsUnique(s, len, length);
      case Punct(c) => PunctTokenIsUnique(s, c, len, other.c, length);
      case _ => UnknownTokenIsUnique(s, len, length);
    }
  }

  lemma LineTokenIsUnique(s: Source, p: Lir.Option<DocStyle>, m: nat, q: Lir.Option<DocStyle>, n: nat)
    requires s.Shape(LineComment(p), m) && s.Shape(LineComment(q), n)
    ensures p == q && m == n
  {
    hide Source.LineDoc;
    LineIsUnique(s.input, m, n);
  }

  lemma BlockTokenIsUnique(s: Source, p: Lir.Option<DocStyle>, t: bool, m: nat, q: Lir.Option<DocStyle>, u: bool, n: nat)
    requires s.Shape(BlockComment(p, t), m) && s.Shape(BlockComment(q, u), n)
    ensures p == q && t == u && m == n
  {
    hide Source.BlockDoc, ClosedAt, NeverClosed;
    CommentIsUnique(s.input, t, m, u, n);
  }

  lemma BlankTokenIsUnique(s: Source, m: nat, n: nat)
    requires s.Shape(Whitespace, m) && s.Shape(Whitespace, n)
    ensures m == n
  {
    hide IsWhitespace;
    BlankIsUnique(s.input, m, n);
  }

  lemma WordTokenIsUnique(s: Source, m: nat, n: nat)
    requires s.Shape(Ident, m) && s.Shape(Ident, n)
    ensures m == n
  {
    hide Source.Word, Source.Prefixed;
    WordIsUnique(s, 0, m, n);
  }

  lemma PunctTokenIsUnique(s: Source, c: char, m: nat, d: char, n: nat)
    requires s.Shape(Punct(c), m) && s.Shape(Punct(d), n)
    ensures c == d && m == n
  {
    hide IsPunct;
  }

  lemma UnknownTokenIsUnique(s: Source, m: nat, n: nat)
    requires s.Shape(Unknown, m) && s.Shape(Unknown, n)
    ensures m == n
  {
    hide Source.RawWord, Source.Foreign;
  }

  lemma CommentIsUnique(input: string, p: bool, a: nat, q: bool, b: nat)
    requires |input| > 1
    requires if p then ClosedAt(input, 2, a) else a == |input| && NeverClosed(input, 2)
    requires if q then ClosedAt(input, 2, b) else b == |input| && NeverClosed(input, 2)
    ensures p == q && a == b
  {
    if p && q {
      CloseIsUnique(input, 2, a, b);
    }
  }

  lemma LiteralIsUnique(s: Source, kind: LiteralKind, end: nat, other: LiteralKind, end': nat)
    requires s.input != [] && s.LiteralShape(kind, end) && s.LiteralShape(other, end')
    requires SortOf(Literal(kind, end)) == SortOf(Literal(other, end'))
    ensures kind == other && end == end'
  {
    hide Source.RawRead, Source.StringRead, IntegerAt, FloatAt;
    match kind
    case Int(base, empty) =>
      if other.Float? {
        IntegerIsNoFloat(s.input, s.xidStart, base, empty, end, other.base, other.emptyExponent, end');
      } else {
        IntegerIsUnique(s.input, s.xidStart, base, empty, end, other.base, other.emptyInt, end');
      }
    case Float(base, empty) =>
      if other.Int? {
        IntegerIsNoFloat(s.input, s.xidStart, other.base, other.emptyInt, end', base, empty, end);
      } else {
        FloatIsUnique(s.input, s.xidStart, base, empty, end, other.base, other.emptyExponent, end');
      }
    case RawStr(hashes, err) => RawIsUnique(s, 1, 1, hashes, err, end, other.hashes, other.err, end');
    case RawByteStr(hashes, err) => RawIsUnique(s, 2, 2, hashes, err, end, other.hashes, other.err, end');
    case Str(terminated) => StringIsUnique(s, 1, terminated, end, other.terminated, end');
    case ByteStr(terminated) => StringIsUnique(s, 2, terminated, end, other.terminated, end');
    case _ =>
  }

  lemma StringIsUnique(s: Source, from: nat, p: bool, a: nat, q: bool, b: nat)
    requires s.StringRead(from, p, a) && s.StringRead(from, q, b)
    ensures p == q && a == b
  {
  }
}
