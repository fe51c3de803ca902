/** Block comments and quoted strings: where they end, said without the loops that look for it. */
module Comments {
  import Lir

  // ---------- nested comments ----------

  /** Opening marks go one level down, closing marks one level up. */
  function Mark(s: string, i: nat): int
    requires i < |s|
  {
    if i + 1 < |s| && s[i] == '/' && s[i + 1] == '*' then 1
    else if i + 1 < |s| && s[i] == '*' && s[i + 1] == '/' then -1
    else 0
  }

  /** Marks take two characters and do not overlap. */
  function After(s: string, i: nat): (j: nat)
    requires i < |s|
    ensures i < j <= |s|
  {
    if Mark(s, i) != 0 then i + 2 else i + 1
  }

  /** The nesting depth at `i`, when it is `d` at `a`; nothing inside a mark. */
  function Depth(s: string, a: nat, d: int, i: nat): Lir.Option<int>
    requires a <= |s|
    decreases |s| - a
  {
    if a == i then Lir.Some(d)
    else if a > i || a == |s| then Lir.None
    else Depth(s, After(s, a), d + Mark(s, a), i)
  }

  /** From `from` on, one level deep, the depth is never zero before `end`. */
  ghost predicate Inside(s: string, from: nat, end: nat)
    requires from <= end <= |s|
  {
    forall i :: from <= i < end && Depth(s, from, 1, i).Some? ==> Depth(s, from, 1, i).value >= 1
  }

  /** A comment whose contents start at `from` is closed exactly at `end`: there the depth is zero for the
      first time. */
  ghost predicate ClosedAt(s: string, from: nat, end: nat) {
    from <= end <= |s| && Depth(s, from, 1, end) == Lir.Some(0) && Inside(s, from, end)
  }

  ghost predicate NeverClosed(s: string, from: nat) {
    && from <= |s| && Inside(s, from, |s|)
    && (Depth(s, from, 1, |s|).Some? ==> Depth(s, from, 1, |s|).value >= 1)
  }

  /** The depth is counted the same from any mark boundary on the way. */
  lemma {:induction false} DepthFrom(s: string, a: nat, d: int, b: nat, e: int, i: nat)
    requires a <= b <= i && b <= |s| && Depth(s, a, d, b) == Lir.Some(e)
    ensures Depth(s, a, d, i) == Depth(s, b, e, i)
    decreases |s| - a
  {
    if a < b {
      DepthFrom(s, After(s, a), d + Mark(s, a), b, e, i);
    }
  }

  /** One step of the scan. */
  lemma DepthStep(s: string, from: nat, at: nat, depth: int)
    requires from <= at < |s| && Depth(s, from, 1, at) == Lir.Some(depth) && depth >= 1 && Inside(s, from, at)
    ensures Depth(s, from, 1, After(s, at)) == Lir.Some(depth + Mark(s, at)) && Inside(s, from, After(s, at))
  {
    DepthFrom(s, from, 1, at, depth, After(s, at));
    forall i | from <= i < After(s, at) && Depth(s, from, 1, i).Some? ensures Depth(s, from, 1, i).value >= 1 {
      if i >= at {
        DepthFrom(s, from, 1, at, depth, i);
      }
    }
  }

  /** A comment has at most one end. */
  lemma CloseIsUnique(s: string, from: nat, a: nat, b: nat)
    requires ClosedAt(s, from, a) && ClosedAt(s, from, b)
    ensures a == b
  {
  }

  // ---------- quoted strings ----------

  /** Where a string ends whose contents start at `i`; a backslash before a quote or a backslash takes the
      next character with it. */
  function StringEnd(s: string, i: nat): Lir.Option<nat>
    requires i <= |s|
    decreases |s| - i
  {
    if i == |s| then Lir.None
    else if s[i] == '"' then Lir.Some(i + 1)
    else if s[i] == '\\' && i + 1 < |s| && (s[i + 1] == '\\' || s[i + 1] == '"') then StringEnd(s, i + 2)
    else StringEnd(s, i + 1)
  }

  function Escape(text: string): string {
    if text == [] then []
    else (if text[0] == '\\' || text[0] == '"' then ['\\', text[0]] else [text[0]]) + Escape(text[1..])
  }

  /** An escaped text, whatever it holds, is closed by the quote behind it and by no earlier one. */
  lemma {:induction false} EscapedReadsBack(before: string, text: string, rest: string)
    ensures StringEnd(before + Escape(text) + "\"" + rest, |before|) == Lir.Some(|before| + |Escape(text)| + 1)
    decreases |text|
  {
    var s := before + Escape(text) + "\"" + rest;
    if text == [] {
      assert s[|before|] == '"';
    } else {
      var first := if text[0] == '\\' || text[0] == '"' then ['\\', text[0]] else [text[0]];
      assert s == (before + first) + Escape(text[1..]) + "\"" + rest;
      EscapedReadsBack(before + first, text[1..], rest);
      assert s[|before|] == first[0];
      assert |first| == 2 ==> s[|before| + 1] == first[1];
    }
  }

  // ---------- characters ----------

  /** How the text behind an opening single quote ends, and where: with a quote, or without one before a slash,
      at a line end that no quote follows, or at the end of the input. A backslash takes the next character
      with it. */
  datatype CharEnd = Closed(end: nat) | Open(end: nat)

  function ScanChar(s: string, i: nat): CharEnd
    decreases |s| - i
  {
    if i >= |s| then Open(|s|)
    else if s[i] == '\'' then Closed(i + 1)
    else if s[i] == '/' || (s[i] == '\n' && !(i + 1 < |s| && s[i + 1] == '\'')) then Open(i)
    else ScanChar(s, if s[i] == '\\' then i + 2 else i + 1)
  }

  /** One character between quotes is read as it is, even if it is a quote or a slash. */
  predicate OneChar(s: string, i: nat) {
    i + 1 < |s| && s[i + 1] == '\'' && s[i] != '\\'
  }

  function CharRead(s: string, i: nat): CharEnd {
    if OneChar(s, i) then Closed(i + 2) else ScanChar(s, i)
  }

  /** Any character can be written between quotes, a quote or a backslash behind a backslash. */
  function QuoteChar(c: char): string {
    if c == '\\' then "\\\\'" else [c, '\'']
  }

  lemma CharReadsBack(before: string, c: char, rest: string)
    ensures CharRead(before + QuoteChar(c) + rest, |before|) == Closed(|before| + |QuoteChar(c)|)
  {
    var s, i := before + QuoteChar(c) + rest, |before|;
    assert s[i] == QuoteChar(c)[0] && s[i + 1] == QuoteChar(c)[1];
    if c == '\\' {
      assert s[i + 2] == '\'';
      assert ScanChar(s, i) == ScanChar(s, i + 2);
    }
  }

  /** A longer text is closed by the first quote, when nothing in it breaks it off. */
  lemma {:induction false} CharsReadBack(before: string, text: string, rest: string)
    requires forall k :: 0 <= k < |text| ==> text[k] !in "'/\\\n"
    ensures ScanChar(before + text + "'" + rest, |before|) == Closed(|before| + |text| + 1)
    decreases |text|
  {
    var s := before + text + "'" + rest;
    if text == [] {
      assert s[|before|] == '\'';
    } else {
      assert s[|before|] == text[0];
      assert s == (before + [text[0]]) + text[1..] + "'" + rest;
      CharsReadBack(before + [text[0]], text[1..], rest);
    }
  }

  /** And broken off before a slash. */
  lemma {:induction false} SlashBreaksOff(before: string, text: string, rest: string)
    requires forall k :: 0 <= k < |text| ==> text[k] !in "'/\\\n"
    ensures ScanChar(before + text + "/" + rest, |before|) == Open(|before| + |text|)
    decreases |text|
  {
    var s := before + text + "/" + rest;
    if text == [] {
      assert s[|before|] == '/';
    } else {
      assert s[|before|] == text[0];
      assert s == (before + [text[0]]) + text[1..] + "/" + rest;
      SlashBreaksOff(before + [text[0]], text[1..], rest);
    }
  }
}
