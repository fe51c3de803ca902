/** The keywords: the words that the parser compares with, their numbers and the texts that are interned for
    them before anything else. */
module Keywords {
  import opened InternerModel
  import Lir

  datatype Keyword =
    KwEmpty | KwUnderscore | KwSizeOf | KwBottom | KwAs | KwAsm | KwBreak | KwConst | KwContinue | KwElse |
    KwEnum | KwFalse | KwFn | KwFor | KwIf | KwImpl | KwIn | KwLet | KwLinked | KwLoop | KwMatch | KwMod | KwMove |
    KwMut | KwPub | KwRef | KwReturn | KwExit | KwStruct | KwTrait | KwTrue | KwImport | KwWhile
  {
    function Text(): string {
      match this
      case KwEmpty => ""
      case KwUnderscore => "_"
      case KwSizeOf => "size_of"
      case KwBottom => "bottom"
      case KwAs => "as"
      case KwAsm => "asm"
      case KwBreak => "break"
      case KwConst => "const"
      case KwContinue => "continue"
      case KwElse => "else"
      case KwEnum => "enum"
      case KwFalse => "false"
      case KwFn => "fn"
      case KwFor => "for"
      case KwIf => "if"
      case KwImpl => "impl"
      case KwIn => "in"
      case KwLet => "let"
      case KwLinked => "linked"
      case KwLoop => "loop"
      case KwMatch => "match"
      case KwMod => "mod"
      case KwMove => "move"
      case KwMut => "mut"
      case KwPub => "pub"
      case KwRef => "ref"
      case KwReturn => "return"
      case KwExit => "exit"
      case KwStruct => "struct"
      case KwTrait => "trait"
      case KwTrue => "true"
      case KwImport => "import"
      case KwWhile => "while"
    }

    /** The place in the declaration, which is the number that the text is interned with. */
    function Number(): nat {
      match this
      case KwEmpty => 0
      case KwUnderscore => 1
      case KwSizeOf => 2
      case KwBottom => 3
      case KwAs => 4
      case KwAsm => 5
      case KwBreak => 6
      case KwConst => 7
      case KwContinue => 8
      case KwElse => 9
      case KwEnum => 10
      case KwFalse => 11
      case KwFn => 12
      case KwFor => 13
      case KwIf => 14
      case KwImpl => 15
      case KwIn => 16
      case KwLet => 17
      case KwLinked => 18
      case KwLoop => 19
      case KwMatch => 20
      case KwMod => 21
      case KwMove => 22
      case KwMut => 23
      case KwPub => 24
      case KwRef => 25
      case KwReturn => 26
      case KwExit => 27
      case KwStruct => 28
      case KwTrait => 29
      case KwTrue => 30
      case KwImport => 31
      case KwWhile => 32
    }
  }

  /** The keyword with a text. */
  ghost predicate Reads(s: string, k: Lir.Option<Keyword>) {
    match k
    case Some(w) => w.Text() == s
    case None => forall w: Keyword :: w.Text() != s
  }

  lemma ReservedWords()
    ensures KEYWORDS[0] == "" && KEYWORDS[1] == "_" && KEYWORDS[2] == "size_of"
    ensures KEYWORDS[3] == "bottom"
  {
  }

  lemma FirstKeywords()
    ensures KEYWORDS[4] == "as" && KEYWORDS[5] == "asm" && KEYWORDS[6] == "break"
    ensures KEYWORDS[7] == "const" && KEYWORDS[8] == "continue" && KEYWORDS[9] == "else"
    ensures KEYWORDS[10] == "enum"
  {
  }

  lemma SecondKeywords()
    ensures KEYWORDS[11] == "false" && KEYWORDS[12] == "fn" && KEYWORDS[13] == "for"
    ensures KEYWORDS[14] == "if" && KEYWORDS[15] == "impl" && KEYWORDS[16] == "in"
    ensures KEYWORDS[17] == "let" && KEYWORDS[18] == "linked" && KEYWORDS[19] == "loop"
    ensures KEYWORDS[20] == "match" && KEYWORDS[21] == "mod"
  {
  }

  lemma ThirdKeywords()
    ensures KEYWORDS[22] == "move" && KEYWORDS[23] == "mut" && KEYWORDS[24] == "pub"
    ensures KEYWORDS[25] == "ref" && KEYWORDS[26] == "return" && KEYWORDS[27] == "exit"
    ensures KEYWORDS[28] == "struct" && KEYWORDS[29] == "trait" && KEYWORDS[30] == "true"
    ensures KEYWORDS[31] == "import" && KEYWORDS[32] == "while"
  {
  }

  lemma EarlyText(k: Keyword)
    requires k.Number() < 11
    ensures k.Number() < |KEYWORDS| && KEYWORDS[k.Number()] == k.Text()
  {
    assert |KEYWORDS| == 33;
    hide KEYWORDS;
    ReservedWords();
    FirstKeywords();
  }

  lemma MiddleText(k: Keyword)
    requires 11 <= k.Number() < 22
    ensures k.Number() < |KEYWORDS| && KEYWORDS[k.Number()] == k.Text()
  {
    assert |KEYWORDS| == 33;
    hide KEYWORDS;
    SecondKeywords();
  }

  lemma LateText(k: Keyword)
    requires 22 <= k.Number()
    ensures k.Number() < |KEYWORDS| && KEYWORDS[k.Number()] == k.Text()
  {
    assert |KEYWORDS| == 33;
    hide KEYWORDS;
    ThirdKeywords();
  }

  /** Each keyword's text is preloaded with its number. */
  lemma TextHasNumber(k: Keyword)
    ensures k.Number() < |KEYWORDS| && KEYWORDS[k.Number()] == k.Text()
  {
    assert |KEYWORDS| == 33;
    hide KEYWORDS;
    if k.Number() < 11 {
      EarlyText(k);
    } else if k.Number() < 22 {
      MiddleText(k);
    } else {
      LateText(k);
    }
  }

  lemma NumbersDiffer(a: Keyword, b: Keyword)
    requires a.Number() == b.Number()
    ensures a == b
  {
  }

  /** So no text is read as two keywords. */
  lemma ReadIsUnique(s: string, a: Lir.Option<Keyword>, b: Lir.Option<Keyword>)
    requires Reads(s, a) && Reads(s, b)
    ensures a == b
  {
    hide Keyword.Text, Keyword.Number, KEYWORDS;
    if a.Some? && b.Some? {
      TextHasNumber(a.value);
      TextHasNumber(b.value);
      KeywordsDiffer();
      NumbersDiffer(a.value, b.value);
    }
  }

  /** In the preloaded table a keyword's text has the keyword's number, and the number reads back as the text. */
  lemma KeywordInterned(k: Keyword)
    ensures var numbers := Preloaded(KEYWORDS);
            k.Text() in numbers && numbers[k.Text()] == k.Number()
  {
    hide Keyword.Text, Keyword.Number, KEYWORDS, Preloaded;
    TextHasNumber(k);
    KeywordsPreloaded();
  }
}
