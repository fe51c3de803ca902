/** The labels that code defines are those of its plan, for all statements, whatever stands in the arms of a
    `match`. So whether labels are unique can be read off the source. */
module LabelMarks {
  import opened Lir
  import opened Machine
  import opened AsmSpec
  import opened Labels
  import opened MatchLabels
  import opened Writes
  import opened CodePlan
  import opened PlanProof

  // ---------- the labels of code, in order ----------

  function DefinedBy(inst: Instruction): seq<Label> {
    if inst.LabelDef? then [inst.lbl] else []
  }

  function Defined(code: seq<Instruction>): seq<Label> {
    if code == [] then [] else DefinedBy(code[0]) + Defined(code[1..])
  }

  predicate Distinct(labels: seq<Label>) {
    forall i, j :: 0 <= i < j < |labels| ==> labels[i] != labels[j]
  }

  lemma {:induction false} DefinedAppend(a: seq<Instruction>, b: seq<Instruction>)
    ensures Defined(a + b) == Defined(a) + Defined(b)
    decreases |a|
  {
    if a == [] {
      assert a + b == b;
    } else {
      assert (a + b)[0] == a[0] && (a + b)[1..] == a[1..] + b;
      DefinedAppend(a[1..], b);
      hide DefinedBy;
      assert Defined(a + b) == DefinedBy(a[0]) + (Defined(a[1..]) + Defined(b));
    }
  }

  lemma {:induction false} PlainDefines(code: seq<Instruction>)
    requires PlainCode(code)
    ensures Defined(code) == []
    decreases |code|
  {
    if code != [] {
      assert Plain(code[0]);
      assert PlainCode(code[1..]);
      PlainDefines(code[1..]);
    }
  }

  lemma DefinesOne(inst: Instruction)
    ensures Defined([inst]) == DefinedBy(inst)
  {
    assert Defined([inst][1..]) == [];
  }

  lemma DefinesSecond(inst: Instruction, lbl: Label)
    requires !inst.LabelDef?
    ensures Defined([inst, LabelDef(lbl)]) == [lbl]
  {
    DefinesOne(inst);
    DefinesOne(LabelDef(lbl));
    DefinedAppend([inst], [LabelDef(lbl)]);
    assert [inst, LabelDef(lbl)] == [inst] + [LabelDef(lbl)];
  }

  lemma {:induction false} DefinedAreLabels(code: seq<Instruction>)
    ensures forall lbl :: lbl in Defined(code) <==> lbl in LabelsOf(code)
    decreases |code|
  {
    if code != [] {
      DefinedAreLabels(code[1..]);
      assert code == [code[0]] + code[1..];
      LabelsOfAppend([code[0]], code[1..]);
      if code[0].LabelDef? {
        LabelsOfOne(code[0].lbl);
      } else {
        NoLabel(code[0]);
      }
    }
  }

  /** Unique labels are labels that are different one by one. */
  lemma {:induction false} UniqueIsDistinct(code: seq<Instruction>)
    ensures UniqueLabels(code) <==> Distinct(Defined(code))
    decreases |code|
  {
    if code != [] {
      var rest := code[1..];
      UniqueIsDistinct(rest);
      DefinedAreLabels(rest);
      UniqueFirst(code);
      if code[0].LabelDef? {
        DistinctFirst(code[0].lbl, Defined(rest));
      } else {
        assert [] + Defined(rest) == Defined(rest);
      }
    }
  }

  lemma UniqueFirst(code: seq<Instruction>)
    requires code != []
    ensures UniqueLabels(code) <==> UniqueLabels(code[1..]) && (code[0].LabelDef? ==> code[0].lbl !in LabelsOf(code[1..]))
  {
    var rest := code[1..];
    if UniqueLabels(code) {
      forall i, j | 0 <= i < j < |rest| && rest[i].LabelDef? && rest[j].LabelDef? ensures rest[i].lbl != rest[j].lbl {
        assert code[i + 1] == rest[i] && code[j + 1] == rest[j];
      }
      forall j | 0 <= j < |rest| && rest[j].LabelDef? && code[0].LabelDef? ensures rest[j].lbl != code[0].lbl {
        assert code[j + 1] == rest[j];
      }
    }
    if UniqueLabels(rest) && (code[0].LabelDef? ==> code[0].lbl !in LabelsOf(rest)) {
      forall i, j | 0 <= i < j < |code| && code[i].LabelDef? && code[j].LabelDef? ensures code[i].lbl != code[j].lbl {
        assert code[j] == rest[j - 1] && rest[j - 1].lbl in LabelsOf(rest);
        if i > 0 {
          assert code[i] == rest[i - 1];
        }
      }
    }
  }

  lemma DistinctFirst(lbl: Label, rest: seq<Label>)
    ensures Distinct([lbl] + rest) <==> lbl !in rest && Distinct(rest)
  {
    var all := [lbl] + rest;
    assert all[0] == lbl && forall i :: 0 <= i < |rest| ==> all[i + 1] == rest[i];
    if lbl !in rest && Distinct(rest) {
      forall i, j | 0 <= i < j < |all| ensures all[i] != all[j] {
        assert all[j] == rest[j - 1];
        if i > 0 {
          assert all[i] == rest[i - 1];
        }
      }
    }
    if Distinct(all) {
      forall i, j | 0 <= i < j < |rest| ensures rest[i] != rest[j] {
        assert all[i + 1] == rest[i] && all[j + 1] == rest[j];
      }
    }
  }

  // ---------- the decisions of registers ----------

  lemma MatchParts(order: Order, frame: Frame, at: nat, x: Ident, variants: seq<Variant>, arms: seq<Arm>)
    requires StmtCode(order, frame, at, Match(x, variants, arms)).Ok?
    ensures x in frame.vars && frame.vars[x].NumberedOffset?
    ensures ArmsCode(order, frame, at, frame.vars[x], variants, arms, MatchMerge(at)).Ok?
  {
    hide ArmsCode;
  }

  /** The block of the first arm, and where it leads. */
  lemma FirstArm(order: Order, frame: Frame, at: nat, tag: Location, variants: seq<Variant>, arms: seq<Arm>, merge: Label)
    requires tag.NumberedOffset? && arms != [] && ArmsCode(order, frame, at, tag, variants, arms, merge).Ok?
    ensures Bind(frame.vars, arms[0].binds, tag.offset, tag.base).Ok?
    ensures var bound := frame.(vars := Bind(frame.vars, arms[0].binds, tag.offset, tag.base).value);
            var lbl := MatchArm(at, arms[0].variant);
            && BlockCode(order, bound, 1, arms[0].body).Ok?
            && var body := BlockCode(order, bound, 1, arms[0].body).value;
               && ArmCode(order, frame, at, tag, variants, arms[0], merge)
                  == Ok(Split(Test(arms[0].variant, tag, lbl), Block(lbl, body.code, merge), body.frame))
               && ArmsCode(order, body.frame, at + 2, tag, variants, arms[1..], merge).Ok?
  {
    hide Bind, BlockCode;
  }

  /** Which moves a statement's code leaves out, in the order of the statements that registers decide about. */
  function Omits(order: Order, frame: Frame, at: nat, s: Stmt): (omits: seq<bool>)
    requires StmtCode(order, frame, at, s).Ok?
    decreases s, 0
  {
    match s
    case If(cond, blk, els) =>
      var test := CondCode(order, frame, cond).value;
      var elseAt := at + |test.code|;
      var thn := BlockCode(order, test.frame, elseAt + 1, blk).value;
      BlockOmits(order, test.frame, elseAt + 1, blk) + BlockOmits(order, thn.frame, elseAt + 1 + |thn.code| + 2, els)
    case While(cond, blk) => BlockOmits(order, frame, at + 2, blk)
    case Match(x, variants, arms) =>
      MatchParts(order, frame, at, x, variants, arms);
      ArmsOmits(order, frame, at, frame.vars[x], variants, arms, MatchMerge(at))
    case _ => if Unsettled(s) then [Omitted(order, frame, s)] else []
  }

  function BlockOmits(order: Order, frame: Frame, at: nat, stmts: seq<Stmt>): (omits: seq<bool>)
    requires BlockCode(order, frame, at, stmts).Ok?
    decreases stmts, 1
  {
    if stmts == [] then []
    else
      var first := StmtCode(order, frame, at, stmts[0]).value;
      Omits(order, frame, at, stmts[0]) + BlockOmits(order, first.frame, at + |first.code|, stmts[1..])
  }

  function ArmsOmits(order: Order, frame: Frame, at: nat, tag: Location, variants: seq<Variant>, arms: seq<Arm>,
                     merge: Label): (omits: seq<bool>)
    requires tag.NumberedOffset? && ArmsCode(order, frame, at, tag, variants, arms, merge).Ok?
    decreases arms, 1
  {
    if arms == [] then []
    else
      assert arms decreases to arms[0];
      FirstArm(order, frame, at, tag, variants, arms, merge);
      var bound := frame.(vars := Bind(frame.vars, arms[0].binds, tag.offset, tag.base).value);
      var first := ArmCode(order, frame, at, tag, variants, arms[0], merge).value;
      BlockOmits(order, bound, 1, arms[0].body)
      + ArmsOmits(order, first.frame, at + |first.chain|, tag, variants, arms[1..], merge)
  }

  // ---------- code follows the plan ----------

  ghost predicate Planned(p: Plan, b: Emitted, more: seq<bool>) {
    p == Plan(|b.code|, Defined(b.code), ScopeOf(b.frame), more) && Located(b.frame.vars)
  }

  lemma {:induction false} StmtPlanned(order: Order, frame: Frame, at: nat, s: Stmt, more: seq<bool>)
    requires Located(frame.vars) && StmtCode(order, frame, at, s).Ok?
    ensures Planned(StmtPlan(s, at, ScopeOf(frame), Omits(order, frame, at, s) + more), StmtCode(order, frame, at, s).value, more)
    decreases s, 1
  {
    hide Planned, StmtCode, StmtPlan, Omits;
    match s
    case If(cond, blk, els) => IfPlanned(order, frame, at, cond, blk, els, more);
    case While(cond, blk) => WhilePlanned(order, frame, at, cond, blk, more);
    case Match(x, variants, arms) => MatchPlanned(order, frame, at, x, variants, arms, more);
    case _ => SimplePlan(order, frame, at, s, more);
  }

  lemma SimplePlan(order: Order, frame: Frame, at: nat, s: Stmt, more: seq<bool>)
    requires Located(frame.vars) && Simple(s) && StmtCode(order, frame, at, s).Ok?
    ensures Planned(StmtPlan(s, at, ScopeOf(frame), Omits(order, frame, at, s) + more), StmtCode(order, frame, at, s).value, more)
  {
    hide StmtCode, SimpleLength, ScopeAfter, Omitted, Unsettled;
    SimplePlanned(order, frame, at, s);
    SimplePlain(order, frame, at, s);
    PlainDefines(StmtCode(order, frame, at, s).value.code);
    if Unsettled(s) {
      assert [Omitted(order, frame, s)] + more != [] && ([Omitted(order, frame, s)] + more)[1..] == more;
    } else {
      SettledLength(s, ScopeOf(frame), Omitted(order, frame, s));
      assert [] + more == more;
    }
  }

  lemma SettledLength(s: Stmt, scope: Scope, omitted: bool)
    requires !Unsettled(s)
    ensures SimpleLength(s, scope, omitted) == SimpleLength(s, scope, false)
  {
    hide ExprLength, ScopeAfter;
  }

  lemma CondPlanned(order: Order, frame: Frame, cond: Expr)
    requires Located(frame.vars) && CondCode(order, frame, cond).Ok?
    ensures var b := CondCode(order, frame, cond).value;
            |b.code| == ExprLength(cond, frame.vars) + 1 && Defined(b.code) == [] && ScopeOf(b.frame) == ScopeOf(frame)
  {
    hide BuildValue, ExprLength, Defined;
    ExprPlanned(order, frame.vars, frame.used, cond, Yes);
    CondPlain(order, frame, cond);
    PlainDefines(CondCode(order, frame, cond).value.code);
  }

  lemma {:induction false} IfPlanned(order: Order, frame: Frame, at: nat, cond: Expr, blk: seq<Stmt>, els: seq<Stmt>,
                                     more: seq<bool>)
    requires Located(frame.vars) && StmtCode(order, frame, at, If(cond, blk, els)).Ok?
    ensures var s := If(cond, blk, els);
            Planned(StmtPlan(s, at, ScopeOf(frame), Omits(order, frame, at, s) + more), StmtCode(order, frame, at, s).value, more)
    decreases If(cond, blk, els), 0
  {
    hide CondCode, BlockCode, BlockPlan, BlockOmits, Defined, ExprLength, Located;
    var test := CondCode(order, frame, cond).value;
    CondPlanned(order, frame, cond);
    var elseAt := at + |test.code|;
    var thn := BlockCode(order, test.frame, elseAt + 1, blk).value;
    var mergeAt := elseAt + 1 + |thn.code|;
    var otherwise := BlockCode(order, thn.frame, mergeAt + 2, els).value;
    var first, second := BlockOmits(order, test.frame, elseAt + 1, blk), BlockOmits(order, thn.frame, mergeAt + 2, els);
    assert first + second + more == first + (second + more);
    BlockPlanned(order, test.frame, elseAt + 1, blk, second + more);
    BlockPlanned(order, thn.frame, mergeAt + 2, els, more);
    IfDefines(test.code, thn.code, otherwise.code, elseAt, mergeAt);
  }

  lemma IfDefines(test: seq<Instruction>, thn: seq<Instruction>, els: seq<Instruction>, elseAt: nat, mergeAt: nat)
    requires Defined(test) == []
    ensures Defined(test + [CondJmp(JmpIf(elseAt), JmpNotEq)] + thn + [Jmp(MergeIf(mergeAt)), LabelDef(JmpIf(elseAt))]
                    + els + [LabelDef(MergeIf(mergeAt))])
         == Defined(thn) + [JmpIf(elseAt)] + Defined(els) + [MergeIf(mergeAt)]
  {
    var branch, last := [CondJmp(JmpIf(elseAt), JmpNotEq)], [LabelDef(MergeIf(mergeAt))];
    var join := [Jmp(MergeIf(mergeAt)), LabelDef(JmpIf(elseAt))];
    hide Defined;
    DefinesOne(branch[0]);
    DefinesSecond(join[0], JmpIf(elseAt));
    DefinesOne(last[0]);
    DefinedAppend(test, branch);
    DefinedAppend(test + branch, thn);
    DefinedAppend(test + branch + thn, join);
    DefinedAppend(test + branch + thn + join, els);
    DefinedAppend(test + branch + thn + join + els, last);
  }

  lemma {:induction false} WhilePlanned(order: Order, frame: Frame, at: nat, cond: Expr, blk: seq<Stmt>, more: seq<bool>)
    requires Located(frame.vars) && StmtCode(order, frame, at, While(cond, blk)).Ok?
    ensures var s := While(cond, blk);
            Planned(StmtPlan(s, at, ScopeOf(frame), Omits(order, frame, at, s) + more), StmtCode(order, frame, at, s).value, more)
    decreases While(cond, blk), 0
  {
    hide CondCode, BlockCode, BlockPlan, BlockOmits, Defined, ExprLength, LoopTest;
    var body := BlockCode(order, frame, at + 2, blk).value;
    BlockPlanned(order, frame, at + 2, blk, more);
    TestPlanned(order, body.frame, cond, JmpWhile(at + 1));
    WhileDefines(at, body.code, LoopTest(order, body.frame, cond, JmpWhile(at + 1)).value.code);
  }

  lemma TestPlanned(order: Order, frame: Frame, cond: Expr, body: Label)
    requires Located(frame.vars) && LoopTest(order, frame, cond, body).Ok?
    ensures var b := LoopTest(order, frame, cond, body).value;
            && |b.code| == (if IsConstTrue(cond) then 1 else ExprLength(cond, frame.vars) + 2)
            && Defined(b.code) == [] && ScopeOf(b.frame) == ScopeOf(frame)
  {
    hide CondCode, ExprLength, Defined;
    DefinesOne(Jmp(body));
    DefinesOne(CondJmp(body, JmpEq));
    if !IsConstTrue(cond) {
      CondPlanned(order, frame, cond);
      DefinedAppend(CondCode(order, frame, cond).value.code, [CondJmp(body, JmpEq)]);
    }
  }

  lemma WhileDefines(at: nat, body: seq<Instruction>, test: seq<Instruction>)
    requires Defined(test) == []
    ensures Defined([Jmp(UncondWhile(at)), LabelDef(JmpWhile(at + 1))] + body + [LabelDef(UncondWhile(at))] + test)
         == [JmpWhile(at + 1)] + Defined(body) + [UncondWhile(at)]
  {
    var head, mid := [Jmp(UncondWhile(at)), LabelDef(JmpWhile(at + 1))], [LabelDef(UncondWhile(at))];
    hide Defined;
    DefinesSecond(head[0], JmpWhile(at + 1));
    DefinesOne(mid[0]);
    DefinedAppend(head, body);
    DefinedAppend(head + body, mid);
    DefinedAppend(head + body + mid, test);
  }

  lemma {:induction false} BlockPlanned(order: Order, frame: Frame, at: nat, stmts: seq<Stmt>, more: seq<bool>)
    requires Located(frame.vars) && BlockCode(order, frame, at, stmts).Ok?
    ensures Planned(BlockPlan(stmts, at, ScopeOf(frame), BlockOmits(order, frame, at, stmts) + more),
                    BlockCode(order, frame, at, stmts).value, more)
    decreases stmts, 2
  {
    hide StmtCode, StmtPlan, Omits;
    if stmts == [] {
      assert [] + more == more;
    } else {
      var first := StmtCode(order, frame, at, stmts[0]).value;
      var rest := BlockCode(order, first.frame, at + |first.code|, stmts[1..]).value;
      var a, b := Omits(order, frame, at, stmts[0]), BlockOmits(order, first.frame, at + |first.code|, stmts[1..]);
      assert a + b + more == a + (b + more);
      StmtPlanned(order, frame, at, stmts[0], b + more);
      BlockPlanned(order, first.frame, at + |first.code|, stmts[1..], more);
      DefinedAppend(first.code, rest.code);
    }
  }

  lemma {:induction false} MatchPlanned(order: Order, frame: Frame, at: nat, x: Ident, variants: seq<Variant>,
                                        arms: seq<Arm>, more: seq<bool>)
    requires Located(frame.vars) && StmtCode(order, frame, at, Match(x, variants, arms)).Ok?
    ensures var s := Match(x, variants, arms);
            Planned(StmtPlan(s, at, ScopeOf(frame), Omits(order, frame, at, s) + more), StmtCode(order, frame, at, s).value, more)
    decreases Match(x, variants, arms), 0
  {
    hide ArmsCode, ArmsPlan, ArmsOmits, Defined;
    var tag, merge := frame.vars[x], MatchMerge(at);
    var split := ArmsCode(order, frame, at, tag, variants, arms, merge).value;
    ArmsPlanned(order, frame, at, tag, variants, arms, merge, more);
    DefinedAppend(split.chain, split.blocks);
    DefinedAppend(split.chain + split.blocks, [LabelDef(merge)]);
    DefinesOne(LabelDef(merge));
  }

  /** The same for arms: the comparisons define no label. */
  ghost predicate ArmsAsPlanned(p: Plan, split: Split, more: seq<bool>) {
    && p == Plan(|split.chain| + |split.blocks|, Defined(split.blocks), ScopeOf(split.frame), more)
    && Defined(split.chain) == [] && Located(split.frame.vars)
  }

  lemma {:induction false} ArmsPlanned(order: Order, frame: Frame, at: nat, tag: Location, variants: seq<Variant>,
                                       arms: seq<Arm>, merge: Label, more: seq<bool>)
    requires tag.NumberedOffset? && Located(frame.vars) && ArmsCode(order, frame, at, tag, variants, arms, merge).Ok?
    ensures ArmsAsPlanned(ArmsPlan(arms, at, tag, ScopeOf(frame), ArmsOmits(order, frame, at, tag, variants, arms, merge) + more),
                          ArmsCode(order, frame, at, tag, variants, arms, merge).value, more)
    decreases arms, 3
  {
    hide BlockCode, BlockPlan, BlockOmits, Bind, ArmCode;
    if arms == [] {
      assert [] + more == more;
    } else {
      assert arms decreases to arms[0];
      ArmsParts(order, frame, at, tag, variants, arms, merge);
      FirstArm(order, frame, at, tag, variants, arms, merge);
      var first := ArmCode(order, frame, at, tag, variants, arms[0], merge).value;
      var rest := ArmsCode(order, first.frame, at + |first.chain|, tag, variants, arms[1..], merge).value;
      var bound := frame.(vars := Bind(frame.vars, arms[0].binds, tag.offset, tag.base).value);
      var body := BlockCode(order, bound, 1, arms[0].body).value;
      var a := BlockOmits(order, bound, 1, arms[0].body);
      var b := ArmsOmits(order, first.frame, at + |first.chain|, tag, variants, arms[1..], merge);
      assert a + b + more == a + (b + more);
      BindStays(frame.vars, arms[0].binds, tag.offset, tag.base);
      BlockPlanned(order, bound, 1, arms[0].body, b + more);
      ArmsPlanned(order, first.frame, at + |first.chain|, tag, variants, arms[1..], merge, more);
      hide ArmsCode, ArmsPlan, Defined;
      ArmDefines(arms[0].variant, tag, MatchArm(at, arms[0].variant), body.code, merge);
      DefinedAppend(first.chain, rest.chain);
      DefinedAppend(first.blocks, rest.blocks);
    }
  }

  lemma ArmDefines(variant: nat, tag: Location, lbl: Label, body: seq<Instruction>, merge: Label)
    ensures Defined(Test(variant, tag, lbl)) == [] && Defined(Block(lbl, body, merge)) == [lbl] + Defined(body)
    ensures |Block(lbl, body, merge)| == |body| + 2
  {
    var test := Test(variant, tag, lbl);
    assert test == [test[0]] + [test[1]];
    DefinesOne(test[0]);
    DefinesOne(test[1]);
    DefinedAppend([test[0]], [test[1]]);
    DefinesOne(LabelDef(lbl));
    DefinesOne(Jmp(merge));
    hide Defined;
    DefinedAppend([LabelDef(lbl)], body);
    DefinedAppend([LabelDef(lbl)] + body, [Jmp(merge)]);
  }

  lemma {:induction false} BindStays(vars: map<Ident, Location>, binds: seq<Ident>, offset: nat, base: Register)
    requires Located(vars) && Bind(vars, binds, offset, base).Ok?
    ensures Located(Bind(vars, binds, offset, base).value)
    decreases |binds|
  {
    if binds != [] {
      BindStays(vars, binds[..|binds| - 1], offset, base);
    }
  }
}
