/** The string interner: names get numbers, and the texts are slices of buffers that are never moved. A
    buffer that has no room for the next name is put aside and replaced by a larger one. */
module InternerModel {
  import Lir
  import RawVecModel

  /** A text handed out earlier: one of the preloaded names, or a part of a buffer. */
  datatype Slice = Static(text: string) | Part(buffer: nat, start: nat, len: nat)

  /** A buffer's text and how much it has room for. */
  datatype Buf = Buf(text: string, cap: nat)

  predicate InBounds(s: Slice, buffers: seq<Buf>) {
    s.Static? || (s.buffer < |buffers| && s.start + s.len <= |buffers[s.buffer].text|)
  }

  /** What is found when a slice is read. */
  function TextOf(s: Slice, buffers: seq<Buf>): string
    requires InBounds(s, buffers)
  {
    match s
    case Static(text) => text
    case Part(b, start, len) => buffers[b].text[start..start + len]
  }

  /** Names preloaded in a table that is not checked for repetitions: the last number of a name counts. */
  function Preloaded(names: seq<string>): map<string, nat> {
    if names == [] then map[] else Preloaded(names[..|names| - 1])[names[|names| - 1] := |names| - 1]
  }

  /** Numbers and texts are inverse to each other. */
  ghost predicate Inverse(numbers: map<string, nat>, texts: seq<string>) {
    && (forall i :: 0 <= i < |texts| ==> texts[i] in numbers && numbers[texts[i]] == i)
    && (forall t :: t in numbers ==> numbers[t] < |texts| && texts[numbers[t]] == t)
  }

  lemma InverseGrows(numbers: map<string, nat>, texts: seq<string>, name: string)
    requires Inverse(numbers, texts) && name !in numbers
    ensures Inverse(numbers[name := |texts|], texts + [name]) && name !in texts
  {
  }

  lemma InverseDiffers(numbers: map<string, nat>, texts: seq<string>, i: nat, j: nat)
    requires Inverse(numbers, texts) && i < |texts| && j < |texts| && texts[i] == texts[j]
    ensures i == j
  {
    assert numbers[texts[i]] == i && numbers[texts[j]] == j;
  }

  predicate AllDifferent(names: seq<string>) {
    forall i, j :: 0 <= i < j < |names| ==> names[i] != names[j]
  }

  lemma {:induction false} PreloadedNumbers(names: seq<string>)
    ensures forall t :: t in Preloaded(names) ==> Preloaded(names)[t] < |names| && names[Preloaded(names)[t]] == t
    ensures forall i :: 0 <= i < |names| ==> names[i] in Preloaded(names) && i <= Preloaded(names)[names[i]]
  {
    if names != [] {
      PreloadedNumbers(names[..|names| - 1]);
    }
  }

  /** The preloaded table is consistent exactly when no name occurs twice in it. */
  lemma PreloadIsInverse(names: seq<string>)
    ensures Inverse(Preloaded(names), names) <==> AllDifferent(names)
  {
    PreloadedNumbers(names);
    if Inverse(Preloaded(names), names) {
      forall i, j | 0 <= i < j < |names| ensures names[i] != names[j] {
        assert Preloaded(names)[names[i]] == i && Preloaded(names)[names[j]] == j;
      }
    }
  }

  /** The keywords, in the order in which they are preloaded. */
  const KEYWORDS: seq<string> := [
    "", "_", "size_of", "bottom", "as", "asm", "break", "const", "continue", "else", "enum", "false", "fn", "for", "if",
    "impl", "in", "let", "linked", "loop", "match", "mod", "move", "mut", "pub", "ref", "return", "exit", "struct", "trait",
    "true", "import", "while"]

  lemma FirstKeywordsDiffer()
    ensures forall i, j :: 0 <= i < j < 17 ==> KEYWORDS[i] != KEYWORDS[j]
  {
  }

  lemma LastKeywordsDiffer()
    ensures forall i, j :: 17 <= i < j < |KEYWORDS| ==> KEYWORDS[i] != KEYWORDS[j]
  {
  }

  lemma HalvesDiffer()
    ensures forall i, j :: 0 <= i < 17 <= j < |KEYWORDS| ==> KEYWORDS[i] != KEYWORDS[j]
  {
  }

  lemma KeywordsDiffer()
    ensures AllDifferent(KEYWORDS)
  {
    hide KEYWORDS;
    FirstKeywordsDiffer();
    LastKeywordsDiffer();
    HalvesDiffer();
  }

  /** The table that is preloaded is consistent: every keyword has its number and reads back as itself. */
  lemma KeywordsPreloaded()
    ensures Inverse(Preloaded(KEYWORDS), KEYWORDS)
  {
    hide AllDifferent, Inverse, Preloaded;
    KeywordsDiffer();
    PreloadIsInverse(KEYWORDS);
  }

  ghost predicate SlicesRead(slices: seq<Slice>, buffers: seq<Buf>, texts: seq<string>) {
    |slices| == |texts| && forall i :: 0 <= i < |slices| ==> InBounds(slices[i], buffers) && TextOf(slices[i], buffers) == texts[i]
  }

  /** Slices keep their texts when buffers only grow at the end and are only added to. */
  lemma SlicesGrow(slices: seq<Slice>, before: seq<Buf>, after: seq<Buf>, texts: seq<string>, s: Slice, name: string)
    requires SlicesRead(slices, before, texts) && |before| <= |after|
    requires forall i :: 0 <= i < |before| ==> before[i].text <= after[i].text
    requires InBounds(s, after) && TextOf(s, after) == name
    ensures SlicesRead(slices + [s], after, texts + [name])
  {
    forall i | 0 <= i < |slices| ensures InBounds(slices[i], after) && TextOf(slices[i], after) == texts[i] {
    }
  }

  class Interner {
    var numbers: map<string, nat>
    var slices: seq<Slice>
    /** The buffers put aside, and behind them the one in use. */
    var full: seq<Buf>
    var buf: Buf

    function Buffers(): seq<Buf>
      reads this
    {
      full + [buf]
    }

    /** The texts in the order of their numbers. */
    ghost var texts: seq<string>

    /** Every slice, read in its buffer, gives the text of its number. */
    ghost predicate Valid()
      reads this
    {
      && (forall b :: b in Buffers() ==> |b.text| <= b.cap)
      && |slices| == |texts| == |numbers| && Inverse(numbers, texts)
      && SlicesRead(slices, Buffers(), texts)
    }

    lemma ValidIsInverse()
      requires Valid()
      ensures Inverse(numbers, texts)
    {
    }

    constructor PreLoad(names: seq<string>)
      requires AllDifferent(names)
      ensures Valid() && texts == names
    {
      numbers, texts := Preloaded(names), names;
      slices := seq(|names|, i requires 0 <= i < |names| => Static(names[i]));
      full := [];
      var cap :| cap >= |names| / 2;
      buf := Buf("", cap);
      new;
      PreloadIsInverse(names);
      PreloadedSize(names);
    }

    lemma {:induction false} PreloadedSize(names: seq<string>)
      requires AllDifferent(names)
      ensures |Preloaded(names)| == |names|
      decreases |names|
    {
      if names != [] {
        var before := names[..|names| - 1];
        PreloadedSize(before);
        PreloadedNumbers(before);
        assert names[|names| - 1] !in Preloaded(before);
      }
    }

    /** Room for the text, at the end of the buffer in use or in a new one; nothing written before is
        touched and no buffer outgrows its capacity. */
    method Alloc(name: string) returns (s: Slice)
      requires forall b :: b in Buffers() ==> |b.text| <= b.cap
      modifies this`full, this`buf
      ensures forall b :: b in Buffers() ==> |b.text| <= b.cap
      ensures |old(Buffers())| <= |Buffers()|
      ensures forall i :: 0 <= i < |old(Buffers())| ==> old(Buffers())[i].text <= Buffers()[i].text
      ensures InBounds(s, Buffers()) && TextOf(s, Buffers()) == name
    {
      if buf.cap < |buf.text| + |name| {
        var newCap := RawVecModel.NextPow2((if buf.cap > |name| then buf.cap else |name|) + 1);
        var cap :| cap >= newCap;
        full := full + [buf];
        buf := Buf("", cap);
      }
      var start := |buf.text|;
      buf := buf.(text := buf.text + name);
      s := Part(|full|, start, |name|);
    }

    /** The number of a name: its old one, or a new one. Every number given out earlier still stands for
        the same text. */
    method Intern(name: string) returns (id: nat)
      requires Valid()
      modifies this
      ensures Valid()
      ensures id < |texts| && texts[id] == name
      ensures texts == if name in old(texts) then old(texts) else old(texts) + [name]
    {
      if name in numbers {
        id := numbers[name];
        assert texts[id] in texts;
        return;
      }
      InverseGrows(numbers, texts, name);
      ghost var before := Buffers();
      var s := Alloc(name);
      SlicesGrow(slices, before, Buffers(), texts, s, name);
      hide Inverse, SlicesRead;
      id := |numbers|;
      numbers, slices, texts := numbers[name := id], slices + [s], texts + [name];
    }

    method LookupToken(text: string) returns (id: Lir.Option<nat>)
      requires Valid()
      ensures id == Lir.None <==> text !in texts
      ensures id.Some? ==> id.value < |texts| && texts[id.value] == text
    {
      if text in numbers {
        assert texts[numbers[text]] in texts;
        return Lir.Some(numbers[text]);
      }
      return Lir.None;
    }
  }

  /** Any run of interning: numbers given out early keep their meaning to the end, and a name always gets
      the same number. */
  method InternAll(names: seq<string>, inputs: seq<string>) returns (table: Interner, ids: seq<nat>)
    requires AllDifferent(names)
    ensures table.Valid() && names <= table.texts
    ensures Stands(ids, inputs, table.texts)
    ensures forall i, j :: 0 <= i < |inputs| && 0 <= j < |inputs| ==> (ids[i] == ids[j] <==> inputs[i] == inputs[j])
  {
    hide AllDifferent, Inverse, SlicesRead, Interner.Valid;
    table := new Interner.PreLoad(names);
    ids := [];
    NothingStands(table.texts);
    hide Stands;
    ghost var texts := table.texts;
    var k := 0;
    while k < |inputs|
      invariant 0 <= k <= |inputs| && fresh(table) && table.Valid() && texts == table.texts && names <= texts
      invariant Stands(ids, inputs[..k], texts)
    {
      var id := table.Intern(inputs[k]);
      StandsLonger(ids, inputs[..k], texts, table.texts, id, inputs[k]);
      assert inputs[..k + 1] == inputs[..k] + [inputs[k]];
      texts, ids, k := table.texts, ids + [id], k + 1;
    }
    assert inputs[..k] == inputs;
    table.ValidIsInverse();
    SameNumbers(ids, inputs, table.numbers, texts);
  }

  /** Every number stands for its text. */
  ghost predicate Stands(ids: seq<nat>, inputs: seq<string>, texts: seq<string>) {
    |ids| == |inputs| && forall i :: 0 <= i < |ids| ==> ids[i] < |texts| && texts[ids[i]] == inputs[i]
  }

  lemma NothingStands(texts: seq<string>)
    ensures Stands([], [], texts)
  {
  }

  lemma StandsLonger(ids: seq<nat>, inputs: seq<string>, texts: seq<string>, more: seq<string>, id: nat, input: string)
    requires Stands(ids, inputs, texts) && texts <= more && id < |more| && more[id] == input
    ensures Stands(ids + [id], inputs + [input], more)
  {
  }

  lemma SameNumbers(ids: seq<nat>, inputs: seq<string>, numbers: map<string, nat>, texts: seq<string>)
    requires Stands(ids, inputs, texts) && Inverse(numbers, texts)
    ensures forall i, j :: 0 <= i < |inputs| && 0 <= j < |inputs| ==> (ids[i] == ids[j] <==> inputs[i] == inputs[j])
  {
    forall i, j | 0 <= i < |inputs| && 0 <= j < |inputs| ensures ids[i] == ids[j] <==> inputs[i] == inputs[j] {
      if inputs[i] == inputs[j] {
        InverseDiffers(numbers, texts, ids[i], ids[j]);
      }
    }
  }
}
