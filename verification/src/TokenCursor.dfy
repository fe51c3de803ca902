/** The parser's place in the token stream: the token it looks at, the tokens behind it and the position of
    the token's text in the input. */
module TokenCursor {
  import opened Lexer
  import opened TokenShapes
  import opened Precedence

  /** What a token is compared with: its kind without details. Nothing matches the end mark. */
  datatype TokenMatch = LineComments | BlockComments | Blank | Identifier | Literals | Mark(c: char) | Other

  predicate Matches(pat: TokenMatch, kind: TokenKind) {
    match (pat, kind)
    case (LineComments, LineComment(_)) => true
    case (BlockComments, BlockComment(_, _)) => true
    case (Blank, Whitespace) => true
    case (Identifier, Ident) => true
    case (Literals, Literal(_, _)) => true
    case (Mark(c), Punct(d)) => c == d
    case (Other, Unknown) => true
    case _ => false
  }

  /** What matches is read off the text: the pattern says what the token starts with. */
  lemma MatchesText(s: Source, pat: TokenMatch, kind: TokenKind, len: nat)
    requires s.Shape(kind, len)
    ensures Matches(pat, kind) <==>
            match pat
            case LineComments => FirstSort(s) == LineSort
            case BlockComments => FirstSort(s) == BlockSort
            case Blank => FirstSort(s) == BlankSort
            case Identifier => FirstSort(s) == WordSort
            case Literals => FirstSort(s) !in {LineSort, BlockSort, BlankSort, WordSort, PunctSort, UnknownSort}
            case Mark(c) => FirstSort(s) == PunctSort && s.input[0] == c
            case Other => FirstSort(s) == UnknownSort
  {
    SortIsFirst(s, kind, len);
    hide FirstSort, Source.LiteralShape, Source.Word, Source.LineDoc, Source.BlockDoc, IsPunct, IsWhitespace;
  }

  /** The kinds in order, with at most one blank token before each. */
  ghost predicate Follows(tokens: seq<Token>, kinds: seq<TokenMatch>)
    decreases |kinds|
  {
    if kinds == [] then tokens == []
    else
      var skip := if tokens != [] && IsBlank(tokens[0].kind) then 1 else 0;
      skip < |tokens| && Matches(kinds[0], tokens[skip].kind) && Follows(tokens[skip + 1..], kinds[1..])
  }

  ghost predicate FollowsTo(stream: seq<Token>, at: nat, n: nat, kinds: seq<TokenMatch>) {
    at <= n <= |stream| && Follows(stream[at..n], kinds)
  }

  lemma OneKind(stream: seq<Token>, at: nat, kinds: seq<TokenMatch>)
    requires at < |stream| && kinds != []
    ensures var skip := if IsBlank(stream[at].kind) then 1 else 0;
            && forall n: nat :: FollowsTo(stream, at, n, kinds)
                           <==> at + skip < |stream| && Matches(kinds[0], stream[at + skip].kind)
                                && FollowsTo(stream, at + skip + 1, n, kinds[1..])
  {
    var skip := if IsBlank(stream[at].kind) then 1 else 0;
    forall n: nat
      ensures FollowsTo(stream, at, n, kinds)
              <==> at + skip < |stream| && Matches(kinds[0], stream[at + skip].kind) && FollowsTo(stream, at + skip + 1, n, kinds[1..])
    {
      if at + skip < n <= |stream| {
        assert stream[at..n][skip + 1..] == stream[at + skip + 1..n];
      }
    }
  }

  /** The marks of one character each, as they stand in the text. */
  function MarksOf(tokens: seq<Token>): string {
    if tokens == [] then ""
    else (if tokens[0].kind.Punct? then [tokens[0].kind.c] else []) + MarksOf(tokens[1..])
  }

  lemma MarksAt(stream: seq<Token>, at: nat)
    requires at < |stream| && stream[at].kind.Punct?
    ensures MarksOf(stream[at..at + 1]) == [stream[at].kind.c]
    ensures at + 1 < |stream| && stream[at + 1].kind.Punct? ==>
              MarksOf(stream[at..at + 2]) == [stream[at].kind.c, stream[at + 1].kind.c]
  {
    assert stream[at..at + 1] == [stream[at]];
    if at + 1 < |stream| {
      var two := stream[at..at + 2];
      assert two[0] == stream[at] && two[1..] == [stream[at + 1]];
      assert two[1..][1..] == [];
    }
  }

  /** What was read for an operator: one, none, or something that the parser cannot go on from. */
  datatype OpRead = Op(op: AssocOp) | NoOp | Stuck

  /** An operator of trees was read for the text: it is written like that, and with the mark that follows no operator
      of trees is. */
  ghost predicate WholeOp(op: AssocOp, text: string, next: TokenKind) {
    && op.ToAstBinop().Some? && op.Spelling() == text
    && (next.Punct? ==> forall o: AssocOp :: o.ToAstBinop().Some? ==> o.Spelling() != text + [next.c])
  }

  /** The operators of two marks. */
  predicate IsPair(a: char, b: char) {
    || (a == '&' && b == '&') || (a == '|' && b == '|')
    || (a == '<' && (b == '<' || b == '=')) || (a == '>' && (b == '>' || b == '='))
    || (a == '=' && b == '=') || (a == '!' && b == '=')
  }

  lemma AtMostTwo(op: AssocOp)
    requires op.ToAstBinop().Some?
    ensures |op.Spelling()| == 1 || (|op.Spelling()| == 2 && IsPair(op.Spelling()[0], op.Spelling()[1]))
  {
  }

  lemma IsWhole(op: AssocOp, next: TokenKind)
    requires op.ToAstBinop().Some?
    requires |op.Spelling()| == 1 && next.Punct? ==> !IsPair(op.Spelling()[0], next.c)
    ensures WholeOp(op, op.Spelling(), next)
  {
    AtMostTwo(op);
    if next.Punct? {
      forall o: AssocOp | o.ToAstBinop().Some? ensures o.Spelling() != op.Spelling() + [next.c] {
        AtMostTwo(o);
        hide AssocOp.Spelling, AssocOp.ToAstBinop;
      }
    }
  }

  /** What may stand behind `<` or `>`. */
  predicate EndsAngle(kind: TokenKind) {
    kind.Ident? || kind.Literal? || kind.Whitespace?
  }

  /** The marks that operators start with. */
  predicate IsOpMark(c: char) {
    c == '=' || c == '!' || c == '<' || c == '>' || c == '+' || c == '-' || c == '*' || c == '/' || c == '%' || c == '&'
    || c == '|' || c == '^'
  }

  /** The marks that end an expression. */
  predicate IsStop(c: char) {
    c == ')' || c == ']' || c == '}' || c == '{' || c == ',' || c == ';'
  }

  /** The parser cannot go on from these two kinds where an operator may stand. */
  predicate NoOperator(first: TokenKind, second: TokenKind) {
    || !first.Punct? || !(IsOpMark(first.c) || IsStop(first.c))
    || (first.c == '!' && second != Punct('='))
    || ((first.c == '<' || first.c == '>') && second != Punct('=') && second != first && !EndsAngle(second))
  }

  predicate IsBlank(kind: TokenKind) {
    kind.Whitespace? || kind.LineComment? || kind.BlockComment?
  }

  class AstBuilder {
    const input: string
    var inputIdx: nat
    var curr: Token
    var tokens: seq<Token>
    /** The whole stream, the mark of its end included, and how many tokens have been eaten. */
    ghost const stream: seq<Token>
    ghost var eaten: nat

    /** Nothing has been lost or read twice: the current token and the ones behind it are the rest of the
        stream, and the position is where the current token's text starts. */
    ghost predicate Valid()
      reads this
    {
      && eaten < |stream| && curr == stream[eaten] && tokens == stream[eaten + 1..]
      && inputIdx == TotalLen(stream[..eaten]) && TotalLen(stream) == |input|
      && (forall i :: 0 <= i < |stream| ==> (stream[i].kind.Eof? <==> i == |stream| - 1))
    }

    constructor (input: string, xidStart: char -> bool, xidContinue: char -> bool)
      ensures Valid() && this.input == input && inputIdx == 0 && eaten == 0
      ensures Cut(Source(input, xidStart, xidContinue), stream[..|stream| - 1], "")
    {
      hide Cut;
      var all := Tokenize(input, xidStart, xidContinue);
      assert (all + [Token(Eof, 0)])[..|all|] == all;
      TotalLenAppend(all, [Token(Eof, 0)]);
      all := all + [Token(Eof, 0)];
      this.input, stream, eaten, inputIdx := input, all, 0, 0;
      curr, tokens := all[0], all[1..];
    }

    /** The position, the current token and the tokens behind it account for the whole input. */
    lemma CoversInput()
      requires Valid()
      ensures inputIdx + curr.len + TotalLen(tokens) == |input|
    {
      TotalLenAppend(stream[..eaten], stream[eaten..]);
      assert stream[..eaten] + stream[eaten..] == stream;
      assert stream[eaten..][0] == curr && stream[eaten..][1..] == tokens;
    }

    /** The text of the current token is the one that the lexer cut for it. */
    method InputCurr() returns (text: string)
      requires Valid()
      ensures TotalLen(stream) == |input| && eaten < |Texts(input, stream)| && text == Texts(input, stream)[eaten]
    {
      CoversInput();
      TextAt(input, stream, eaten);
      return input[inputIdx..inputIdx + curr.len];
    }

    /** Moves to the next token; behind the last one that is a panic. */
    method EatTkn() returns (ok: bool)
      requires Valid()
      modifies this
      ensures Valid() && (ok <==> !old(curr).kind.Eof?)
      ensures eaten == old(eaten) + (if ok then 1 else 0)
    {
      if tokens == [] {
        return false;
      }
      TotalLenAppend(stream[..eaten], [curr]);
      assert stream[..eaten + 1] == stream[..eaten] + [curr];
      inputIdx := inputIdx + curr.len;
      eaten := eaten + 1;
      curr, tokens := tokens[0], tokens[1..];
      return true;
    }

    method EatIf(pat: TokenMatch) returns (matched: bool)
      requires Valid()
      modifies this
      ensures Valid() && (matched <==> Matches(pat, old(curr).kind))
      ensures eaten == old(eaten) + (if matched then 1 else 0)
    {
      matched := Matches(pat, curr.kind);
      if matched {
        var _ := EatTkn();
      }
    }

    /** Stops at the first token that matches, or panics behind the end of the stream. */
    method EatUntil(pat: TokenMatch) returns (ok: bool)
      requires Valid()
      modifies this
      ensures Valid() && old(eaten) <= eaten
      ensures forall i :: old(eaten) <= i < eaten ==> !Matches(pat, stream[i].kind)
      ensures if ok then Matches(pat, curr.kind) else curr.kind.Eof?
    {
      while !Matches(pat, curr.kind)
        invariant Valid() && old(eaten) <= eaten
        invariant forall i :: old(eaten) <= i < eaten ==> !Matches(pat, stream[i].kind)
        decreases |stream| - eaten
      {
        var more := EatTkn();
        if !more {
          return false;
        }
      }
      return true;
    }

    /** Eats the longest run of matching tokens and counts it. */
    method CountEatenSeq(pat: TokenMatch) returns (count: nat)
      requires Valid()
      modifies this
      ensures Valid() && eaten == old(eaten) + count
      ensures forall i :: old(eaten) <= i < eaten ==> Matches(pat, stream[i].kind)
      ensures !Matches(pat, curr.kind)
    {
      count := 0;
      while Matches(pat, curr.kind)
        invariant Valid() && eaten == old(eaten) + count
        invariant forall i :: old(eaten) <= i < eaten ==> Matches(pat, stream[i].kind)
        decreases |stream| - eaten
      {
        count := count + 1;
        var _ := EatTkn();
      }
    }

    /** Eats the given kinds in order, with at most one blank token before each. It succeeds exactly when they are
        there, and has eaten them then. */
    method EatSeqIgnoreWs(kinds: seq<TokenMatch>) returns (all: bool)
      requires Valid()
      modifies this
      ensures Valid() && old(eaten) <= eaten <= old(eaten) + 2 * |kinds|
      ensures all ==> Follows(stream[old(eaten)..eaten], kinds)
      ensures !all ==> forall n :: old(eaten) <= n <= |stream| ==> !Follows(stream[old(eaten)..n], kinds)
    {
      ghost var from := eaten;
      for i := 0 to |kinds|
        invariant Valid() && from <= eaten <= from + 2 * i
        invariant forall n :: from <= n <= |stream| ==> (Follows(stream[from..n], kinds) <==> FollowsTo(stream, eaten, n, kinds[i..]))
      {
        hide Follows, Matches, IsBlank;
        ghost var at := eaten;
        OneKind(stream, at, kinds[i..]);
        if IsBlank(curr.kind) {
          var _ := EatTkn();
        }
        var matched := EatIf(kinds[i]);
        if !matched {
          return false;
        }
        assert kinds[i..][1..] == kinds[i + 1..];
      }
      assert kinds[|kinds|..] == [] && FollowsTo(stream, eaten, eaten, []);
      return true;
    }

    /** Behind `<` or `>`: a shift, a comparison or neither. */
    method AngleOp(c: char, shift: AssocOp, orEqual: AssocOp, alone: AssocOp) returns (r: OpRead)
      requires Valid() && c != '='
      modifies this
      ensures Valid()
      ensures r == if old(curr).kind == Punct(c) then Op(shift) else if old(curr).kind == Punct('=') then Op(orEqual)
                   else if EndsAngle(old(curr).kind) then Op(alone) else Stuck
      ensures eaten == old(eaten) + if old(curr).kind == Punct(c) || old(curr).kind == Punct('=') then 1 else 0
    {
      var second := curr.kind;
      var twice := EatIf(Mark(c));
      if twice {
        return Op(shift);
      }
      var more := EatIf(Mark('='));
      return if more then Op(orEqual) else if EndsAngle(second) then Op(alone) else Stuck;
    }

    /** The operator at the cursor; a single `=` is eaten although it is none. */
    method MakeOp() returns (r: OpRead)
      requires Valid()
      modifies this
      ensures Valid()
      ensures var (read, count) := OpHere(old(curr).kind, if old(tokens) == [] then Eof else old(tokens)[0].kind);
              r == read && eaten == old(eaten) + count
    {
      if !curr.kind.Punct? {
        return Stuck;
      }
      var c := curr.kind.c;
      if IsStop(c) {
        return NoOp;
      }
      if !IsOpMark(c) {
        return Stuck;
      }
      var _ := EatIf(Mark(c));
      match c {
        case '=' =>
          var more := EatIf(Mark('='));
          r := if more then Op(Equal) else NoOp;
        case '!' =>
          var more := EatIf(Mark('='));
          r := if more then Op(NotEqual) else Stuck;
        case '<' => r := AngleOp('<', ShiftLeft, LessEqual, Less);
        case '>' => r := AngleOp('>', ShiftRight, GreaterEqual, Greater);
        case '&' =>
          var more := EatIf(Mark('&'));
          r := Op(if more then LAnd else BitAnd);
        case '|' =>
          var more := EatIf(Mark('|'));
          r := Op(if more then LOr else BitOr);
        case '+' => r := Op(Add);
        case '-' => r := Op(Subtract);
        case '*' => r := Op(Multiply);
        case '/' => r := Op(Divide);
        case '%' => r := Op(Modulus);
        case '^' => r := Op(BitXor);
      }
    }
  }

  /** What stands for an operator at two kinds, and how many tokens it takes. */
  function OpHere(first: TokenKind, second: TokenKind): (OpRead, nat) {
    if !first.Punct? || !IsOpMark(first.c) then (if first.Punct? && IsStop(first.c) then NoOp else Stuck, 0)
    else
      var c := first.c;
      if second == Punct('=') && (c == '=' || c == '!') then (Op(if c == '=' then Equal else NotEqual), 2)
      else if c == '=' then (NoOp, 1)
      else if c == '!' then (Stuck, 1)
      else if c == '<' || c == '>' then
        if second == first then (Op(if c == '<' then ShiftLeft else ShiftRight), 2)
        else if second == Punct('=') then (Op(if c == '<' then LessEqual else GreaterEqual), 2)
        else (if EndsAngle(second) then Op(if c == '<' then Less else Greater) else Stuck, 1)
      else if c == '&' then (if second == first then (Op(LAnd), 2) else (Op(BitAnd), 1))
      else if c == '|' then (if second == first then (Op(LOr), 2) else (Op(BitOr), 1))
      else
        (Op(match c case '+' => Add case '-' => Subtract case '*' => Multiply case '/' => Divide case '%' => Modulus
                   case _ => BitXor), 1)
  }

  /** What is eaten for an operator is how the operator is written, and no longer one was there. There is none at a
      mark that ends an expression and at a single `=`; in all other cases the parser cannot go on. */
  lemma OpIsWhole(stream: seq<Token>, at: nat)
    requires at + 1 < |stream|
    ensures var (r, count) := OpHere(stream[at].kind, stream[at + 1].kind);
            && at + count <= |stream|
            && (r.Op? ==> WholeOp(r.op, MarksOf(stream[at..at + count]), if at + count < |stream| then stream[at + count].kind else Eof))
            && (r.Stuck? <==> NoOperator(stream[at].kind, stream[at + 1].kind))
            && (r.NoOp? ==>
                  || (count == 0 && stream[at].kind.Punct? && IsStop(stream[at].kind.c))
                  || (count == 1 && stream[at].kind == Punct('=') && stream[at + 1].kind != Punct('=')))
  {
    hide WholeOp, MarksOf;
    var (r, count) := OpHere(stream[at].kind, stream[at + 1].kind);
    if r.Op? {
      MarksAt(stream, at);
      IsWhole(r.op, if at + count < |stream| then stream[at + count].kind else Eof);
    }
  }

  /** The marks of operators and at the ends of expressions are tokens of their own, and what is read for a mark is
      its character. */
  lemma {:induction false} MarkIsText(s: Source, tokens: seq<Token>, i: nat)
    requires Cut(s, tokens, "") && i < |tokens| && tokens[i].kind.Punct?
    ensures TotalLen(tokens) == |s.input| && i < |Texts(s.input, tokens)| && Texts(s.input, tokens)[i] == [tokens[i].kind.c]
    decreases |tokens|
  {
    hide Source.Shape;
    CutLen(s, tokens, "");
    var rest := s.(input := s.input[tokens[0].len..]);
    assert Texts(s.input, tokens) == [s.input[..tokens[0].len]] + Texts(rest.input, tokens[1..]);
    if i > 0 {
      MarkIsText(rest, tokens[1..], i - 1);
    } else {
      PunctText(s, tokens[0]);
    }
  }

  lemma PunctText(s: Source, t: Token)
    requires s.Shape(t.kind, t.len) && t.kind.Punct?
    ensures s.input[..t.len] == [t.kind.c]
  {
  }

  lemma {:induction false} CutLen(s: Source, tokens: seq<Token>, rest: string)
    requires Cut(s, tokens, rest)
    ensures TotalLen(tokens) + |rest| == |s.input|
    decreases |tokens|
  {
    hide Source.Shape;
    if tokens != [] {
      ShapeFits(s, tokens[0]);
      CutLen(s.(input := s.input[tokens[0].len..]), tokens[1..], rest);
    }
  }

  lemma MarksAreTokens(c: char)
    requires IsOpMark(c) || IsStop(c)
    ensures IsPunct(c) || c == '/'
  {
  }

  lemma {:induction false} TextAt(input: string, tokens: seq<Token>, i: nat)
    requires TotalLen(tokens) <= |input| && i < |tokens|
    ensures |Texts(input, tokens)| == |tokens|
    ensures var start := TotalLen(tokens[..i]);
            start + tokens[i].len <= |input| && Texts(input, tokens)[i] == input[start..start + tokens[i].len]
    decreases |tokens|
  {
    var n := tokens[0].len;
    if |tokens| > 1 {
      TextAt(input[n..], tokens[1..], if i > 0 then i - 1 else 0);
    }
    assert Texts(input, tokens) == [input[..n]] + Texts(input[n..], tokens[1..]);
    hide Texts;
    if i > 0 {
      var start := TotalLen(tokens[1..][..i - 1]);
      assert tokens[..i][1..] == tokens[1..][..i - 1];
      assert TotalLen(tokens[..i]) == n + start && tokens[1..][i - 1] == tokens[i];
      hide TotalLen;
      SliceOfRest(input, n, start, tokens[i].len);
    }
  }

  lemma SliceOfRest(input: string, n: nat, start: nat, len: nat)
    requires n + start + len <= |input|
    ensures input[n..][start..start + len] == input[n + start..n + start + len]
  {
  }
}
