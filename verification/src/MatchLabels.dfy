/** The labels of a `match`: unique, and the targets of all its jumps, as long as no arm holds a
    conditional, a loop or another `match`. */
module MatchLabels {
  import opened Words
  import opened Lir
  import opened Machine
  import opened AsmSpec
  import opened Labels

  /** Where the block of an arm starts, counted from the first block, the state of the generator when the
      block is generated, and the code. */
  datatype Spot = Spot(start: nat, frame: Frame, body: seq<Instruction>)

  function SpotOf(order: Order, frame: Frame, at: nat, tag: Location, variants: seq<Variant>, arms: seq<Arm>,
                  merge: Label, j: nat): Spot
    requires tag.NumberedOffset? && j < |arms|
    requires ArmsCode(order, frame, at, tag, variants, arms, merge).Ok?
    decreases j
  {
    assert ArmCode(order, frame, at, tag, variants, arms[0], merge).Ok?;
    if j == 0 then
      var bound := frame.(vars := Bind(frame.vars, arms[0].binds, tag.offset, tag.base).value);
      Spot(1, bound, BlockCode(order, bound, 1, arms[0].body).value.code)
    else
      var first := ArmCode(order, frame, at, tag, variants, arms[0], merge).value;
      var later := SpotOf(order, first.frame, at + |first.chain|, tag, variants, arms[1..], merge, j - 1);
      later.(start := |first.blocks| + later.start)
  }

  /** The first arm and the rest. */
  lemma ArmsParts(order: Order, frame: Frame, at: nat, tag: Location, variants: seq<Variant>, arms: seq<Arm>,
                  merge: Label)
    requires tag.NumberedOffset? && ArmsCode(order, frame, at, tag, variants, arms, merge).Ok? && arms != []
    ensures ArmCode(order, frame, at, tag, variants, arms[0], merge).Ok?
    ensures var first := ArmCode(order, frame, at, tag, variants, arms[0], merge).value;
            var lbl := MatchArm(at, arms[0].variant);
            && ArmsCode(order, first.frame, at + |first.chain|, tag, variants, arms[1..], merge).Ok?
            && var rest := ArmsCode(order, first.frame, at + |first.chain|, tag, variants, arms[1..], merge).value;
               var split := ArmsCode(order, frame, at, tag, variants, arms, merge).value;
               && split.chain == first.chain + rest.chain && split.blocks == first.blocks + rest.blocks
               && split.frame == rest.frame
               && first.chain == Test(arms[0].variant, tag, lbl) && |first.chain| == 2
               && first.blocks != [] && first.blocks[0] == LabelDef(lbl)
  {
    hide Bind, BlockCode;
  }

  /** Labels of arms, numbered by the positions of their comparisons. */
  ghost predicate OfArms(labels: set<Label>, lo: nat, hi: nat) {
    forall lbl :: lbl in labels ==> lbl.MatchArm? && Numbered(lbl, lo, hi)
  }

  /** The comparisons hold no label and jump to the blocks; the blocks jump to the end of the match. */
  ghost predicate SplitSound(split: Split, lo: nat, hi: nat, merge: Label) {
    && LabelsOf(split.chain) == {} && UniqueLabels(split.chain)
    && JumpsInside(split.chain, LabelsOf(split.blocks))
    && UniqueLabels(split.blocks) && OfArms(LabelsOf(split.blocks), lo, hi)
    && JumpsInside(split.blocks, {merge})
  }

  lemma OneArmSound(variant: nat, loc: Location, lbl: Label, body: seq<Instruction>, merge: Label, frame: Frame, at: nat)
    requires PlainCode(body) && lbl == MatchArm(at, variant)
    ensures SplitSound(Split(Test(variant, loc, lbl), Block(lbl, body, merge), frame), at, at + 2, merge)
    ensures LabelsOf(Block(lbl, body, merge)) == {lbl}
  {
    var chain := Test(variant, loc, lbl);
    assert LabelsOf(chain) == {};
    LabelsOfOne(lbl);
    PlainHasNoLabels(body);
    NoLabel(Jmp(merge));
    UniqueAppend([LabelDef(lbl)], body);
    UniqueAppend([LabelDef(lbl)] + body, [Jmp(merge)]);
    JumpsAppend([LabelDef(lbl)], body, {merge});
    JumpsAppend([LabelDef(lbl)] + body, [Jmp(merge)], {merge});
  }

  lemma SplitSoundAppend(a: Split, b: Split, lo: nat, mid: nat, hi: nat, merge: Label, frame: Frame)
    requires lo <= mid <= hi && SplitSound(a, lo, mid, merge) && SplitSound(b, mid, hi, merge)
    ensures SplitSound(Split(a.chain + b.chain, a.blocks + b.blocks, frame), lo, hi, merge)
  {
    hide LabelsOf, UniqueLabels, JumpsInside;
    LabelsDiffer(LabelsOf(a.blocks), LabelsOf(b.blocks), lo, mid, hi);
    UniqueAppend(a.chain, b.chain);
    UniqueAppend(a.blocks, b.blocks);
    JumpsWiden(a.chain, LabelsOf(a.blocks), LabelsOf(a.blocks + b.blocks));
    JumpsWiden(b.chain, LabelsOf(b.blocks), LabelsOf(a.blocks + b.blocks));
    JumpsAppend(a.chain, b.chain, LabelsOf(a.blocks + b.blocks));
    JumpsAppend(a.blocks, b.blocks, {merge});
  }

  lemma LabelsDiffer(a: set<Label>, b: set<Label>, lo: nat, mid: nat, hi: nat)
    requires OfArms(a, lo, mid) && OfArms(b, mid, hi) && lo <= mid <= hi
    ensures a !! b && OfArms(a + b, lo, hi)
  {
  }

  lemma JumpsWiden(code: seq<Instruction>, labels: set<Label>, more: set<Label>)
    requires JumpsInside(code, labels) && labels <= more
    ensures JumpsInside(code, more)
  {
  }

  ghost predicate AllStraight(arms: seq<Arm>) {
    forall i :: 0 <= i < |arms| ==> Straight(arms[i].body)
  }

  lemma {:induction false} ArmsSound(order: Order, frame: Frame, at: nat, tag: Location, variants: seq<Variant>,
                                     arms: seq<Arm>, merge: Label)
    requires tag.NumberedOffset? && AllStraight(arms) && ArmsCode(order, frame, at, tag, variants, arms, merge).Ok?
    ensures var split := ArmsCode(order, frame, at, tag, variants, arms, merge).value;
            |split.chain| == 2 * |arms| && SplitSound(split, at, at + |split.chain|, merge)
    decreases |arms|
  {
    hide BlockCode, Bind, SplitSound;
    if arms == [] {
      NothingSound(at, merge, frame);
    } else {
      var first := ArmCode(order, frame, at, tag, variants, arms[0], merge).value;
      var rest := ArmsCode(order, first.frame, at + |first.chain|, tag, variants, arms[1..], merge).value;
      var bound := frame.(vars := Bind(frame.vars, arms[0].binds, tag.offset, tag.base).value);
      StraightPlain(order, bound, 1, arms[0].body);
      OneArmSound(arms[0].variant, tag, MatchArm(at, arms[0].variant), BlockCode(order, bound, 1, arms[0].body).value.code,
                  merge, first.frame, at);
      ArmsSound(order, first.frame, at + |first.chain|, tag, variants, arms[1..], merge);
      SplitSoundAppend(first, rest, at, at + 2, at + 2 + |rest.chain|, merge, rest.frame);
    }
  }

  lemma NothingSound(at: nat, merge: Label, frame: Frame)
    ensures SplitSound(Split([], [], frame), at, at, merge)
  {
  }

  /** A match without conditionals in its arms is sound like any other statement: it can stand in a
      program whose labels are unique. */
  lemma MatchSound(order: Order, frame: Frame, at: nat, name: Ident, variants: seq<Variant>, arms: seq<Arm>)
    requires AllStraight(arms) && MatchCode(order, frame, at, name, variants, arms).Ok?
    ensures var code := MatchCode(order, frame, at, name, variants, arms).value.code; Sound(code, at, at + |code|)
  {
    var merge := MatchMerge(at);
    ArmsSound(order, frame, at, frame.vars[name], variants, arms, merge);
    var split := ArmsCode(order, frame, at, frame.vars[name], variants, arms, merge).value;
    hide ArmsCode, LabelsOf, UniqueLabels, JumpsInside;
    LabelsOfOne(merge);
    assert UniqueLabels([LabelDef(merge)]) && JumpsInside([LabelDef(merge)], {merge}) by {
      LastLabel(merge);
    }
    UniqueAppend(split.chain, split.blocks);
    UniqueAppend(split.chain + split.blocks, [LabelDef(merge)]);
    var labels := LabelsOf(split.chain + split.blocks + [LabelDef(merge)]);
    JumpsWiden(split.chain, LabelsOf(split.blocks), labels);
    JumpsWiden(split.blocks, {merge}, labels);
    JumpsWiden([LabelDef(merge)], {merge}, labels);
    JumpsAppend(split.chain, split.blocks, labels);
    JumpsAppend(split.chain + split.blocks, [LabelDef(merge)], labels);
  }

  lemma LastLabel(merge: Label)
    ensures UniqueLabels([LabelDef(merge)]) && JumpsInside([LabelDef(merge)], {merge})
  {
  }
}
