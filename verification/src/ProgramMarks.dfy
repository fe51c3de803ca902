/** The labels of blocks and whole programs. Every jump goes to a label that is defined, and the labels are
    unique if and only if those that are read off the source are different. */
module ProgramMarks {
  import opened Lir
  import opened Machine
  import opened AsmSpec
  import opened Labels
  import opened MatchLabels
  import opened LabelProof
  import opened Writes
  import opened CodePlan
  import opened LabelMarks

  // ---------- every jump is defined ----------

  ghost predicate Closed(code: seq<Instruction>) {
    JumpsInside(code, LabelsOf(code))
  }

  lemma ClosedAppend(a: seq<Instruction>, b: seq<Instruction>)
    requires Closed(a) && Closed(b)
    ensures Closed(a + b)
  {
    LabelsOfAppend(a, b);
    JumpsAppend(a, b, LabelsOf(a + b));
  }

  lemma PlainClosed(code: seq<Instruction>)
    requires PlainCode(code)
    ensures Closed(code)
  {
  }

  lemma IfClosed(test: seq<Instruction>, thn: seq<Instruction>, els: seq<Instruction>, elseAt: nat, mergeAt: nat)
    requires PlainCode(test) && Closed(thn) && Closed(els)
    ensures Closed(test + [CondJmp(JmpIf(elseAt), JmpNotEq)] + thn + [Jmp(MergeIf(mergeAt)), LabelDef(JmpIf(elseAt))]
                   + els + [LabelDef(MergeIf(mergeAt))])
  {
    var branch, last := [CondJmp(JmpIf(elseAt), JmpNotEq)], [LabelDef(MergeIf(mergeAt))];
    var join := [Jmp(MergeIf(mergeAt)), LabelDef(JmpIf(elseAt))];
    TwoInstructions(join[0], JmpIf(elseAt));
    LabelsOfOne(MergeIf(mergeAt));
    hide LabelsOf, UniqueLabels, JumpsInside;
    LabelsOfAppend(test, branch);
    LabelsOfAppend(test + branch, thn);
    LabelsOfAppend(test + branch + thn, join);
    LabelsOfAppend(test + branch + thn + join, els);
    LabelsOfAppend(test + branch + thn + join + els, last);
    IfJumps(test, branch, thn, join, els, last, LabelsOf(test + branch + thn + join + els + last), JmpIf(elseAt), MergeIf(mergeAt));
  }

  lemma WhileClosed(at: nat, body: seq<Instruction>, plain: seq<Instruction>, jump: Instruction)
    requires PlainCode(plain) && Closed(body)
    requires jump == Jmp(JmpWhile(at + 1)) || jump == CondJmp(JmpWhile(at + 1), JmpEq)
    ensures Closed([Jmp(UncondWhile(at)), LabelDef(JmpWhile(at + 1))] + body + [LabelDef(UncondWhile(at))] + (plain + [jump]))
  {
    var head, mid, test := [Jmp(UncondWhile(at)), LabelDef(JmpWhile(at + 1))], [LabelDef(UncondWhile(at))], plain + [jump];
    TwoInstructions(head[0], JmpWhile(at + 1));
    LabelsOfOne(UncondWhile(at));
    hide LabelsOf, UniqueLabels;
    LabelsOfAppend(head, body);
    LabelsOfAppend(head + body, mid);
    LabelsOfAppend(head + body + mid, test);
    var labels := LabelsOf(head + body + mid + test);
    JumpsAppend(head, body, labels);
    JumpsAppend(head + body, mid, labels);
    JumpsAppend(head + body + mid, test, labels);
  }

  /** Every jump in the code of a statement goes to a label of that code, whatever stands in the arms of a
      `match`. */
  lemma {:induction false} StmtClosed(order: Order, frame: Frame, at: nat, s: Stmt)
    requires StmtCode(order, frame, at, s).Ok?
    ensures Closed(StmtCode(order, frame, at, s).value.code)
    decreases s, 1
  {
    hide Closed, CondCode, BlockCode, LoopTest, PlainCode;
    match s
    case If(cond, blk, els) =>
      var test := CondCode(order, frame, cond).value;
      var elseAt := at + |test.code|;
      var thn := BlockCode(order, test.frame, elseAt + 1, blk).value;
      var mergeAt := elseAt + 1 + |thn.code|;
      CondPlain(order, frame, cond);
      BlockClosed(order, test.frame, elseAt + 1, blk);
      BlockClosed(order, thn.frame, mergeAt + 2, els);
      IfClosed(test.code, thn.code, BlockCode(order, thn.frame, mergeAt + 2, els).value.code, elseAt, mergeAt);
    case While(cond, blk) =>
      var body := BlockCode(order, frame, at + 2, blk).value;
      BlockClosed(order, frame, at + 2, blk);
      LoopClosed(order, body.frame, at, cond, body.code);
    case Match(x, variants, arms) => MatchClosed(order, frame, at, x, variants, arms);
    case _ =>
      hide StmtCode;
      SimplePlain(order, frame, at, s);
      PlainClosed(StmtCode(order, frame, at, s).value.code);
  }

  lemma LoopClosed(order: Order, frame: Frame, at: nat, cond: Expr, body: seq<Instruction>)
    requires Closed(body) && LoopTest(order, frame, cond, JmpWhile(at + 1)).Ok?
    ensures Closed([Jmp(UncondWhile(at)), LabelDef(JmpWhile(at + 1))] + body + [LabelDef(UncondWhile(at))]
                   + LoopTest(order, frame, cond, JmpWhile(at + 1)).value.code)
  {
    hide Closed, CondCode;
    if IsConstTrue(cond) {
      LeavePlain();
      WhileClosed(at, body, [], Jmp(JmpWhile(at + 1)));
      assert [] + [Jmp(JmpWhile(at + 1))] == [Jmp(JmpWhile(at + 1))];
    } else {
      CondPlain(order, frame, cond);
      WhileClosed(at, body, CondCode(order, frame, cond).value.code, CondJmp(JmpWhile(at + 1), JmpEq));
    }
  }

  lemma {:induction false} BlockClosed(order: Order, frame: Frame, at: nat, stmts: seq<Stmt>)
    requires BlockCode(order, frame, at, stmts).Ok?
    ensures Closed(BlockCode(order, frame, at, stmts).value.code)
    decreases stmts, 2
  {
    hide Closed, StmtCode;
    if stmts == [] {
      LeavePlain();
      PlainClosed([]);
    } else {
      var first := StmtCode(order, frame, at, stmts[0]).value;
      StmtClosed(order, frame, at, stmts[0]);
      BlockClosed(order, first.frame, at + |first.code|, stmts[1..]);
      ClosedAppend(first.code, BlockCode(order, first.frame, at + |first.code|, stmts[1..]).value.code);
    }
  }

  /** The comparisons jump to the blocks, the blocks to the end of the `match` or inside. */
  ghost predicate SplitClosed(split: Split, merge: Label) {
    && LabelsOf(split.chain) == {} && JumpsInside(split.chain, LabelsOf(split.blocks))
    && JumpsInside(split.blocks, LabelsOf(split.blocks) + {merge})
  }

  lemma ArmClosed(variant: nat, tag: Location, lbl: Label, body: seq<Instruction>, merge: Label, frame: Frame)
    requires Closed(body)
    ensures SplitClosed(Split(Test(variant, tag, lbl), Block(lbl, body, merge), frame), merge)
  {
    var block := Block(lbl, body, merge);
    LabelsOfOne(lbl);
    NoLabel(Jmp(merge));
    LabelsOfAppend([LabelDef(lbl)], body);
    LabelsOfAppend([LabelDef(lbl)] + body, [Jmp(merge)]);
    JumpsAppend([LabelDef(lbl)], body, LabelsOf(block) + {merge});
    JumpsAppend([LabelDef(lbl)] + body, [Jmp(merge)], LabelsOf(block) + {merge});
  }

  lemma SplitClosedAppend(a: Split, b: Split, merge: Label, frame: Frame)
    requires SplitClosed(a, merge) && SplitClosed(b, merge)
    ensures SplitClosed(Split(a.chain + b.chain, a.blocks + b.blocks, frame), merge)
  {
    LabelsOfAppend(a.chain, b.chain);
    LabelsOfAppend(a.blocks, b.blocks);
    var labels := LabelsOf(a.blocks + b.blocks);
    hide LabelsOf;
    JumpsWiden(a.chain, LabelsOf(a.blocks), labels);
    JumpsWiden(b.chain, LabelsOf(b.blocks), labels);
    JumpsWiden(a.blocks, LabelsOf(a.blocks) + {merge}, labels + {merge});
    JumpsWiden(b.blocks, LabelsOf(b.blocks) + {merge}, labels + {merge});
    JumpsAppend(a.chain, b.chain, labels);
    JumpsAppend(a.blocks, b.blocks, labels + {merge});
  }

  lemma {:induction false} ArmsClosed(order: Order, frame: Frame, at: nat, tag: Location, variants: seq<Variant>,
                                      arms: seq<Arm>, merge: Label)
    requires tag.NumberedOffset? && ArmsCode(order, frame, at, tag, variants, arms, merge).Ok?
    ensures SplitClosed(ArmsCode(order, frame, at, tag, variants, arms, merge).value, merge)
    decreases arms, 3
  {
    hide SplitClosed, Closed, BlockCode, Bind, ArmCode;
    if arms == [] {
      EmptyClosed(frame, merge);
    } else {
      assert arms decreases to arms[0];
      ArmsParts(order, frame, at, tag, variants, arms, merge);
      FirstArm(order, frame, at, tag, variants, arms, merge);
      var first := ArmCode(order, frame, at, tag, variants, arms[0], merge).value;
      var rest := ArmsCode(order, first.frame, at + |first.chain|, tag, variants, arms[1..], merge).value;
      var bound := frame.(vars := Bind(frame.vars, arms[0].binds, tag.offset, tag.base).value);
      var body := BlockCode(order, bound, 1, arms[0].body).value;
      BlockClosed(order, bound, 1, arms[0].body);
      ArmsClosed(order, first.frame, at + |first.chain|, tag, variants, arms[1..], merge);
      ArmClosed(arms[0].variant, tag, MatchArm(at, arms[0].variant), body.code, merge, body.frame);
      SplitClosedAppend(first, rest, merge, rest.frame);
    }
  }

  lemma EmptyClosed(frame: Frame, merge: Label)
    ensures SplitClosed(Split([], [], frame), merge)
  {
  }

  lemma {:induction false} MatchClosed(order: Order, frame: Frame, at: nat, x: Ident, variants: seq<Variant>, arms: seq<Arm>)
    requires StmtCode(order, frame, at, Match(x, variants, arms)).Ok?
    ensures Closed(StmtCode(order, frame, at, Match(x, variants, arms)).value.code)
    decreases Match(x, variants, arms), 0
  {
    var merge := MatchMerge(at);
    var split := ArmsCode(order, frame, at, frame.vars[x], variants, arms, merge).value;
    hide ArmsCode;
    ArmsClosed(order, frame, at, frame.vars[x], variants, arms, merge);
    LabelsOfOne(merge);
    hide LabelsOf;
    LabelsOfAppend(split.chain, split.blocks);
    LabelsOfAppend(split.chain + split.blocks, [LabelDef(merge)]);
    var labels := LabelsOf(split.chain + split.blocks + [LabelDef(merge)]);
    JumpsWiden(split.chain, LabelsOf(split.blocks), labels);
    JumpsWiden(split.blocks, LabelsOf(split.blocks) + {merge}, labels);
    JumpsAppend(split.chain, split.blocks, labels);
    JumpsAppend(split.chain + split.blocks, [LabelDef(merge)], labels);
  }

  // ---------- blocks ----------

  /** The labels that the code of a block defines, in their order. */
  function Marks(stmts: seq<Stmt>, at: nat, scope: Scope, omits: seq<bool>): seq<Label> {
    BlockPlan(stmts, at, scope, omits).labels
  }

  /** The code of any block: all its jumps stay inside, it defines exactly the labels read off the source, and
      they are unique if and only if they are different there. */
  lemma BlockUniqueExactly(order: Order, frame: Frame, at: nat, stmts: seq<Stmt>)
    requires Located(frame.vars) && BlockCode(order, frame, at, stmts).Ok?
    ensures var code := BlockCode(order, frame, at, stmts).value.code;
            var marks := Marks(stmts, at, ScopeOf(frame), BlockOmits(order, frame, at, stmts));
            && Closed(code) && (UniqueLabels(code) <==> Distinct(marks))
            && forall lbl :: lbl in LabelsOf(code) <==> lbl in marks
  {
    hide BlockCode, BlockPlan, BlockOmits, Defined, Closed, LabelsOf, UniqueLabels;
    var code, omits := BlockCode(order, frame, at, stmts).value.code, BlockOmits(order, frame, at, stmts);
    BlockPlanned(order, frame, at, stmts, []);
    assert omits + [] == omits;
    BlockClosed(order, frame, at, stmts);
    UniqueIsDistinct(code);
    DefinedAreLabels(code);
  }

  // ---------- where registers decide nothing ----------

  /** No computed value is returned, and no value that may overwrite its address is stored: the code has the
      same length for every order of the registers. */
  predicate Settled(s: Stmt)
    decreases s, 0
  {
    match s
    case If(_, blk, els) => SettledIn(blk) && SettledIn(els)
    case While(_, blk) => SettledIn(blk)
    case Match(_, _, arms) => SettledArms(arms)
    case _ => !Unsettled(s)
  }

  predicate SettledIn(stmts: seq<Stmt>)
    decreases stmts, 1
  {
    stmts == [] || (Settled(stmts[0]) && SettledIn(stmts[1..]))
  }

  predicate SettledArms(arms: seq<Arm>)
    decreases arms, 1
  {
    if arms == [] then true
    else
      assert arms decreases to arms[0];
      SettledIn(arms[0].body) && SettledArms(arms[1..])
  }

  lemma {:induction false} SettledOmits(order: Order, frame: Frame, at: nat, s: Stmt)
    requires StmtCode(order, frame, at, s).Ok? && Settled(s)
    ensures Omits(order, frame, at, s) == []
    decreases s, 0
  {
    hide CondCode, BlockCode, BlockOmits, ArmsCode, ArmsOmits, SettledIn, SettledArms;
    match s
    case If(cond, blk, els) =>
      var test := CondCode(order, frame, cond).value;
      var elseAt := at + |test.code|;
      var thn := BlockCode(order, test.frame, elseAt + 1, blk).value;
      SettledBlock(order, test.frame, elseAt + 1, blk);
      SettledBlock(order, thn.frame, elseAt + 1 + |thn.code| + 2, els);
    case While(cond, blk) => SettledBlock(order, frame, at + 2, blk);
    case Match(x, variants, arms) => SettledSplit(order, frame, at, frame.vars[x], variants, arms, MatchMerge(at));
    case _ =>
  }

  lemma {:induction false} SettledBlock(order: Order, frame: Frame, at: nat, stmts: seq<Stmt>)
    requires BlockCode(order, frame, at, stmts).Ok? && SettledIn(stmts)
    ensures BlockOmits(order, frame, at, stmts) == []
    decreases stmts, 1
  {
    hide StmtCode, Omits, Settled;
    if stmts != [] {
      var first := StmtCode(order, frame, at, stmts[0]).value;
      SettledOmits(order, frame, at, stmts[0]);
      SettledBlock(order, first.frame, at + |first.code|, stmts[1..]);
    }
  }

  lemma {:induction false} SettledSplit(order: Order, frame: Frame, at: nat, tag: Location, variants: seq<Variant>,
                                        arms: seq<Arm>, merge: Label)
    requires tag.NumberedOffset? && ArmsCode(order, frame, at, tag, variants, arms, merge).Ok? && SettledArms(arms)
    ensures ArmsOmits(order, frame, at, tag, variants, arms, merge) == []
    decreases arms, 1
  {
    hide BlockCode, BlockOmits, Bind, SettledIn, ArmCode;
    if arms != [] {
      assert arms decreases to arms[0];
      FirstArm(order, frame, at, tag, variants, arms, merge);
      var bound := frame.(vars := Bind(frame.vars, arms[0].binds, tag.offset, tag.base).value);
      var first := ArmCode(order, frame, at, tag, variants, arms[0], merge).value;
      SettledBlock(order, bound, 1, arms[0].body);
      SettledSplit(order, first.frame, at + |first.chain|, tag, variants, arms[1..], merge);
    }
  }

  // ---------- programs ----------

  function ParamScope(scope: Scope, params: seq<Param>, i: nat): Scope
    requires i <= |params|
    decreases |params| - i
  {
    if i == |params| then scope else ParamScope(Declared(scope, params[i].ident, SCALAR_SIZE), params, i + 1)
  }

  function FuncPlan(f: Func, at: nat, scope: Scope, omits: seq<bool>): Plan {
    var named := scope.(vars := scope.vars[f.ident := LabelLoc(FuncLabel(f.ident))]);
    if f.stmts == [] then Plan(0, [], named, omits)
    else
      var start := at + |Prologue(f.ident)| + |f.params|;
      var body := BlockPlan(f.stmts, start, ParamScope(named, f.params, 0), omits);
      Plan(start - at + body.length + |Epilogue(f.ident)|, [FuncLabel(f.ident)] + body.labels, Scope(body.scope.vars, 0), body.omits)
  }

  function ProgramPlan(funcs: seq<Func>, at: nat, scope: Scope, omits: seq<bool>): Plan {
    if funcs == [] then Plan(0, [], scope, omits)
    else
      var first := FuncPlan(funcs[0], at, scope, omits);
      var rest := ProgramPlan(funcs[1..], at + first.length, first.scope, first.omits);
      rest.(length := first.length + rest.length, labels := first.labels + rest.labels)
  }

  function FuncOmits(order: Order, frame: Frame, at: nat, f: Func): seq<bool>
    requires FuncCode(order, frame, at, f).Ok?
  {
    var named := frame.(vars := frame.vars[f.ident := LabelLoc(FuncLabel(f.ident))]);
    if f.stmts == [] then []
    else
      var params := ParamsCode(named, f.params, 0).value;
      BlockOmits(order, params.frame, at + |Prologue(f.ident)| + |params.code|, f.stmts)
  }

  function ProgramOmits(order: Order, frame: Frame, at: nat, funcs: seq<Func>): seq<bool>
    requires ProgramCode(order, frame, at, funcs).Ok?
    decreases |funcs|
  {
    if funcs == [] then []
    else
      var first := FuncCode(order, frame, at, funcs[0]).value;
      FuncOmits(order, frame, at, funcs[0]) + ProgramOmits(order, first.frame, at + |first.code|, funcs[1..])
  }

  lemma {:induction false} ParamsPlanned(frame: Frame, params: seq<Param>, i: nat)
    requires i <= |params| && Located(frame.vars) && ParamsCode(frame, params, i).Ok?
    ensures var b := ParamsCode(frame, params, i).value;
            && |b.code| == |params| - i && Defined(b.code) == [] && Closed(b.code)
            && ScopeOf(b.frame) == ParamScope(ScopeOf(frame), params, i) && Located(b.frame.vars)
    decreases |params| - i
  {
    ParamsPlain(frame, params, i);
    PlainDefines(ParamsCode(frame, params, i).value.code);
    PlainClosed(ParamsCode(frame, params, i).value.code);
    hide PlainCode, Closed, Defined;
    if i != |params| {
      var top := frame.currentStack + SCALAR_SIZE;
      var next := frame.(currentStack := top, totalStack := frame.totalStack + SCALAR_SIZE,
                         vars := frame.vars[params[i].ident := NumberedOffset(top, RBP)]);
      ParamsPlanned(next, params, i + 1);
    }
  }

  lemma FuncPlanned(order: Order, frame: Frame, at: nat, f: Func, more: seq<bool>)
    requires Located(frame.vars) && FuncCode(order, frame, at, f).Ok?
    ensures Planned(FuncPlan(f, at, ScopeOf(frame), FuncOmits(order, frame, at, f) + more), FuncCode(order, frame, at, f).value, more)
    ensures Closed(FuncCode(order, frame, at, f).value.code)
  {
    hide BlockCode, BlockPlan, BlockOmits, Defined, Closed, ParamsCode, ParamScope, Prologue, Epilogue;
    var named := frame.(vars := frame.vars[f.ident := LabelLoc(FuncLabel(f.ident))]);
    if f.stmts == [] {
      assert [] + more == more;
      NothingInside();
    } else {
      var head, tail := Prologue(f.ident), Epilogue(f.ident);
      ParamsPlanned(named, f.params, 0);
      var params := ParamsCode(named, f.params, 0).value;
      var start := at + |head| + |params.code|;
      BlockPlanned(order, params.frame, start, f.stmts, more);
      BlockClosed(order, params.frame, start, f.stmts);
      var body := BlockCode(order, params.frame, start, f.stmts).value;
      EndsPlanned(f.ident);
      DefinedAppend(head, params.code);
      DefinedAppend(head + params.code, body.code);
      DefinedAppend(head + params.code + body.code, tail);
      ClosedAppend(head, params.code);
      ClosedAppend(head + params.code, body.code);
      ClosedAppend(head + params.code + body.code, tail);
    }
  }

  lemma NothingInside()
    ensures Closed([]) && Defined([]) == []
  {
  }

  lemma EndsPlanned(name: Ident)
    ensures Defined(Prologue(name)) == [FuncLabel(name)] && Closed(Prologue(name))
    ensures Defined(Epilogue(name)) == [] && Closed(Epilogue(name))
  {
    var head := Prologue(name);
    assert head == [head[0], LabelDef(FuncLabel(name))] + [head[2], head[3]];
    DefinesSecond(head[0], FuncLabel(name));
    PlainDefines([head[2], head[3]]);
    DefinedAppend([head[0], head[1]], [head[2], head[3]]);
    PlainDefines(Epilogue(name));
  }

  /** A whole program defines exactly the labels that are read off the source, and all its jumps go to them. */
  lemma {:induction false} ProgramPlanned(order: Order, frame: Frame, at: nat, funcs: seq<Func>)
    requires Located(frame.vars) && ProgramCode(order, frame, at, funcs).Ok?
    ensures var b := ProgramCode(order, frame, at, funcs).value;
            && Planned(ProgramPlan(funcs, at, ScopeOf(frame), ProgramOmits(order, frame, at, funcs)), b, [])
            && Closed(b.code)
    decreases |funcs|
  {
    hide FuncCode, FuncPlan, FuncOmits, Closed;
    if funcs == [] {
      NothingInside();
    } else {
      var first := FuncCode(order, frame, at, funcs[0]).value;
      var rest := ProgramCode(order, first.frame, at + |first.code|, funcs[1..]).value;
      FuncPlanned(order, frame, at, funcs[0], ProgramOmits(order, first.frame, at + |first.code|, funcs[1..]));
      ProgramPlanned(order, first.frame, at + |first.code|, funcs[1..]);
      DefinedAppend(first.code, rest.code);
      ClosedAppend(first.code, rest.code);
    }
  }

  /** For every program that compiles, whatever stands in the arms of its matches: each jump goes to a label that
      is defined, and the labels are unique if and only if those read off the source are different. */
  lemma ProgramUniqueExactly(order: Order, frame: Frame, at: nat, funcs: seq<Func>)
    requires Located(frame.vars) && ProgramCode(order, frame, at, funcs).Ok?
    ensures var code := ProgramCode(order, frame, at, funcs).value.code;
            && JumpsInside(code, LabelsOf(code))
            && (UniqueLabels(code)
                <==> Distinct(ProgramPlan(funcs, at, ScopeOf(frame), ProgramOmits(order, frame, at, funcs)).labels))
  {
    hide ProgramCode, ProgramPlan, ProgramOmits, Defined;
    ProgramPlanned(order, frame, at, funcs);
    UniqueIsDistinct(ProgramCode(order, frame, at, funcs).value.code);
  }

  /** The labels of a program, read off the source. */
  predicate UniqueMarks(order: Order, funcs: seq<Func>)
    requires ProgramCode(order, EMPTY_FRAME, 0, funcs).Ok?
  {
    Distinct(ProgramPlan(funcs, 0, ScopeOf(EMPTY_FRAME), ProgramOmits(order, EMPTY_FRAME, 0, funcs)).labels)
  }

  lemma UniqueByMarks(order: Order, funcs: seq<Func>)
    requires ProgramCode(order, EMPTY_FRAME, 0, funcs).Ok?
    ensures UniqueLabels(ProgramCode(order, EMPTY_FRAME, 0, funcs).value.code) <==> UniqueMarks(order, funcs)
  {
    hide ProgramCode, ProgramPlan, ProgramOmits, UniqueLabels;
    ProgramUniqueExactly(order, EMPTY_FRAME, 0, funcs);
  }

  /** That is so whenever functions have different names and no arm of a `match` holds a conditional, a loop or
      another `match`. */
  lemma FlatIsUnique(order: Order, funcs: seq<Func>)
    requires ProgramCode(order, EMPTY_FRAME, 0, funcs).Ok? && DistinctNames(funcs) && FlatProgram(funcs)
    ensures UniqueMarks(order, funcs)
  {
    hide ProgramCode, UniqueLabels, UniqueMarks, FlatProgram, DistinctNames;
    ProgramSound(order, EMPTY_FRAME, 0, funcs);
    UniqueByMarks(order, funcs);
  }
}
