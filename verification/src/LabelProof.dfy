/** Every label is defined at most once over the whole buffer, across functions, and every jump goes to a
    label that is defined, as long as no arm of a `match` holds a conditional, a loop or another `match`. */
module LabelProof {
  import opened Lir
  import opened Machine
  import opened AsmSpec
  import opened Labels
  import opened MatchLabels

  // ---------- the statements covered ----------

  /** No arm of a `match` holds a conditional, a loop or another `match`; everything else is allowed. */
  predicate FlatArms(s: Stmt)
    decreases s, 0
  {
    match s
    case If(_, blk, els) => FlatBlock(blk) && FlatBlock(els)
    case While(_, blk) => FlatBlock(blk)
    case Match(_, _, arms) => forall i :: 0 <= i < |arms| ==> Straight(arms[i].body)
    case _ => true
  }

  predicate FlatBlock(stmts: seq<Stmt>)
    decreases stmts, 1
  {
    stmts == [] || (FlatArms(stmts[0]) && FlatBlock(stmts[1..]))
  }

  predicate FlatProgram(funcs: seq<Func>) {
    forall i :: 0 <= i < |funcs| ==> FlatBlock(funcs[i].stmts)
  }

  // ---------- control flow ----------

  /** The shape of a conditional, from sound branches. */
  lemma IfSound(at: nat, test: seq<Instruction>, thn: seq<Instruction>, els: seq<Instruction>, elseAt: nat, mergeAt: nat)
    requires PlainCode(test) && elseAt == at + |test| && mergeAt == elseAt + 1 + |thn|
    requires Sound(thn, elseAt + 1, mergeAt) && Sound(els, mergeAt + 2, mergeAt + 2 + |els|)
    ensures Sound(test + [CondJmp(JmpIf(elseAt), JmpNotEq)] + thn + [Jmp(MergeIf(mergeAt)), LabelDef(JmpIf(elseAt))]
                  + els + [LabelDef(MergeIf(mergeAt))], at, mergeAt + 2 + |els| + 1)
  {
    var branch, last := [CondJmp(JmpIf(elseAt), JmpNotEq)], [LabelDef(MergeIf(mergeAt))];
    var join := [Jmp(MergeIf(mergeAt)), LabelDef(JmpIf(elseAt))];
    hide LabelsOf, UniqueLabels, JumpsInside;
    TwoInstructions(Jmp(MergeIf(mergeAt)), JmpIf(elseAt));
    PlainHasNoLabels(test);
    LabelsOfOne(MergeIf(mergeAt));
    NoLabel(branch[0]);
    UniqueAppend(test, branch);
    UniqueAppend(test + branch, thn);
    UniqueAppend(test + branch + thn, join);
    UniqueAppend(test + branch + thn + join, els);
    UniqueAppend(test + branch + thn + join + els, last);
    var labels := LabelsOf(test + branch + thn + join + els + last);
    assert labels == LabelsOf(thn) + {JmpIf(elseAt)} + LabelsOf(els) + {MergeIf(mergeAt)};
    IfJumps(test, branch, thn, join, els, last, labels, JmpIf(elseAt), MergeIf(mergeAt));
  }

  lemma IfJumps(test: seq<Instruction>, branch: seq<Instruction>, thn: seq<Instruction>, join: seq<Instruction>,
                els: seq<Instruction>, last: seq<Instruction>, labels: set<Label>, skip: Label, leave: Label)
    requires PlainCode(test) && branch == [CondJmp(skip, JmpNotEq)]
    requires join == [Jmp(leave), LabelDef(skip)] && last == [LabelDef(leave)]
    requires JumpsInside(thn, LabelsOf(thn)) && JumpsInside(els, LabelsOf(els))
    requires LabelsOf(thn) <= labels && LabelsOf(els) <= labels && skip in labels && leave in labels
    ensures JumpsInside(test + branch + thn + join + els + last, labels)
  {
    JumpsAppend(test, branch, labels);
    JumpsAppend(test + branch, thn, labels);
    JumpsAppend(test + branch + thn, join, labels);
    JumpsAppend(test + branch + thn + join, els, labels);
    JumpsAppend(test + branch + thn + join + els, last, labels);
  }

  /** The shape of a loop, from a sound body. */
  lemma WhileSound(at: nat, body: seq<Instruction>, plain: seq<Instruction>, jump: Instruction)
    requires PlainCode(plain) && Sound(body, at + 2, at + 2 + |body|)
    requires jump == Jmp(JmpWhile(at + 1)) || jump == CondJmp(JmpWhile(at + 1), JmpEq)
    ensures Sound([Jmp(UncondWhile(at)), LabelDef(JmpWhile(at + 1))] + body + [LabelDef(UncondWhile(at))] + (plain + [jump]),
                  at, at + 2 + |body| + 1 + |plain| + 1)
  {
    var head, mid := [Jmp(UncondWhile(at)), LabelDef(JmpWhile(at + 1))], [LabelDef(UncondWhile(at))];
    var test := plain + [jump];
    hide LabelsOf, UniqueLabels;
    TwoInstructions(Jmp(UncondWhile(at)), JmpWhile(at + 1));
    LabelsOfOne(UncondWhile(at));
    PlainHasNoLabels(plain);
    NoLabel(jump);
    UniqueAppend(plain, [jump]);
    UniqueAppend(head, body);
    UniqueAppend(head + body, mid);
    UniqueAppend(head + body + mid, test);
    var labels := LabelsOf(head + body + mid + test);
    assert labels == {JmpWhile(at + 1)} + LabelsOf(body) + {UncondWhile(at)};
    JumpsAppend(head, body, labels);
    JumpsAppend(head + body, mid, labels);
    JumpsAppend(head + body + mid, test, labels);
  }

  lemma {:induction false} StmtSound(order: Order, frame: Frame, at: nat, stmt: Stmt)
    requires StmtCode(order, frame, at, stmt).Ok? && FlatArms(stmt)
    ensures var code := StmtCode(order, frame, at, stmt).value.code; Sound(code, at, at + |code|)
    decreases stmt, 1
  {
    hide Sound, StmtCode, PlainCode;
    if Simple(stmt) {
      var code := StmtCode(order, frame, at, stmt).value.code;
      SimplePlain(order, frame, at, stmt);
      PlainIsSound(code, at, at + |code|);
    } else {
      match stmt
      case If(cond, blk, els) => IfStmtSound(order, frame, at, cond, blk, els);
      case While(cond, blk) => WhileStmtSound(order, frame, at, cond, blk);
      case Match(x, variants, arms) => MatchStmtSound(order, frame, at, x, variants, arms);
    }
  }

  lemma MatchStmtSound(order: Order, frame: Frame, at: nat, x: Ident, variants: seq<Variant>, arms: seq<Arm>)
    requires StmtCode(order, frame, at, Match(x, variants, arms)).Ok? && FlatArms(Match(x, variants, arms))
    ensures var code := StmtCode(order, frame, at, Match(x, variants, arms)).value.code; Sound(code, at, at + |code|)
  {
    hide Sound, MatchCode;
    MatchSound(order, frame, at, x, variants, arms);
  }

  lemma {:induction false} WhileStmtSound(order: Order, frame: Frame, at: nat, cond: Expr, blk: seq<Stmt>)
    requires StmtCode(order, frame, at, While(cond, blk)).Ok? && FlatBlock(blk)
    ensures var code := StmtCode(order, frame, at, While(cond, blk)).value.code; Sound(code, at, at + |code|)
    decreases While(cond, blk), 0
  {
    hide Sound, BlockCode, LoopTest;
    BlockSound(order, frame, at + 2, blk);
    var body := BlockCode(order, frame, at + 2, blk).value;
    LoopSound(order, body.frame, at, cond, body.code);
  }

  lemma {:induction false} IfStmtSound(order: Order, frame: Frame, at: nat, cond: Expr, blk: seq<Stmt>, els: seq<Stmt>)
    requires StmtCode(order, frame, at, If(cond, blk, els)).Ok? && FlatBlock(blk) && FlatBlock(els)
    ensures var code := StmtCode(order, frame, at, If(cond, blk, els)).value.code; Sound(code, at, at + |code|)
    decreases If(cond, blk, els), 0
  {
    hide Sound, CondCode, BlockCode, PlainCode;
    var test := CondCode(order, frame, cond).value;
    var elseAt := at + |test.code|;
    BlockSound(order, test.frame, elseAt + 1, blk);
    var thn := BlockCode(order, test.frame, elseAt + 1, blk).value;
    var mergeAt := elseAt + 1 + |thn.code|;
    BlockSound(order, thn.frame, mergeAt + 2, els);
    var otherwise := BlockCode(order, thn.frame, mergeAt + 2, els).value;
    CondPlain(order, frame, cond);
    IfSound(at, test.code, thn.code, otherwise.code, elseAt, mergeAt);
  }

  lemma LoopSound(order: Order, frame: Frame, at: nat, cond: Expr, body: seq<Instruction>)
    requires Sound(body, at + 2, at + 2 + |body|)
    requires LoopTest(order, frame, cond, JmpWhile(at + 1)).Ok?
    ensures var test := LoopTest(order, frame, cond, JmpWhile(at + 1)).value.code;
            Sound([Jmp(UncondWhile(at)), LabelDef(JmpWhile(at + 1))] + body + [LabelDef(UncondWhile(at))] + test,
                  at, at + 2 + |body| + 1 + |test|)
  {
    hide Sound, CondCode;
    if IsConstTrue(cond) {
      LeavePlain();
      WhileSound(at, body, [], Jmp(JmpWhile(at + 1)));
      assert [] + [Jmp(JmpWhile(at + 1))] == [Jmp(JmpWhile(at + 1))];
    } else {
      CondPlain(order, frame, cond);
      WhileSound(at, body, CondCode(order, frame, cond).value.code, CondJmp(JmpWhile(at + 1), JmpEq));
    }
  }

  lemma {:induction false} BlockSound(order: Order, frame: Frame, at: nat, stmts: seq<Stmt>)
    requires BlockCode(order, frame, at, stmts).Ok? && FlatBlock(stmts)
    ensures var code := BlockCode(order, frame, at, stmts).value.code; Sound(code, at, at + |code|)
    decreases stmts, 2
  {
    hide Sound;
    if stmts == [] {
      PlainIsSound([], at, at);
    } else {
      var first := StmtCode(order, frame, at, stmts[0]).value;
      var rest := BlockCode(order, first.frame, at + |first.code|, stmts[1..]).value;
      StmtSound(order, frame, at, stmts[0]);
      BlockSound(order, first.frame, at + |first.code|, stmts[1..]);
      SoundAppend(first.code, rest.code, at, at + |first.code|, at + |first.code| + |rest.code|);
    }
  }

  // ---------- functions and programs ----------

  lemma {:induction false} ParamsPlain(frame: Frame, params: seq<Param>, i: nat)
    requires i <= |params| && ParamsCode(frame, params, i).Ok?
    ensures PlainCode(ParamsCode(frame, params, i).value.code)
    decreases |params| - i
  {
    if i != |params| {
      var top := frame.currentStack + SCALAR_SIZE;
      var next := frame.(currentStack := top, totalStack := frame.totalStack + SCALAR_SIZE,
                         vars := frame.vars[params[i].ident := NumberedOffset(top, RBP)]);
      ParamsPlain(next, params, i + 1);
    }
  }

  /** The functions that leave code, and so a label, in the buffer. */
  function DefinedNames(funcs: seq<Func>): set<Ident> {
    set i | 0 <= i < |funcs| && funcs[i].stmts != [] :: funcs[i].ident
  }

  ghost predicate DistinctNames(funcs: seq<Func>) {
    forall i, j :: 0 <= i < j < |funcs| && funcs[i].stmts != [] && funcs[j].stmts != [] ==> funcs[i].ident != funcs[j].ident
  }

  /** Sound code that may also define labels of functions with the given names. */
  ghost predicate SoundWith(code: seq<Instruction>, names: set<Ident>, lo: nat, hi: nat) {
    && UniqueLabels(code)
    && (forall lbl :: lbl in LabelsOf(code) ==> if lbl.FuncLabel? then lbl.name in names else Numbered(lbl, lo, hi))
    && JumpsInside(code, LabelsOf(code))
  }

  lemma SoundWithAppend(a: seq<Instruction>, b: seq<Instruction>, na: set<Ident>, nb: set<Ident>, lo: nat, mid: nat, hi: nat)
    requires lo <= mid <= hi && na !! nb && SoundWith(a, na, lo, mid) && SoundWith(b, nb, mid, hi)
    ensures SoundWith(a + b, na + nb, lo, hi)
  {
    UniqueAppend(a, b);
    JumpsAppend(a, b, LabelsOf(a + b));
  }

  lemma FuncSound(order: Order, frame: Frame, at: nat, func: Func)
    requires FuncCode(order, frame, at, func).Ok? && FlatBlock(func.stmts)
    ensures var code := FuncCode(order, frame, at, func).value.code;
            SoundWith(code, if func.stmts == [] then {} else {func.ident}, at, at + |code|)
  {
    var code := FuncCode(order, frame, at, func).value.code;
    if func.stmts != [] {
      var named := frame.(vars := frame.vars[func.ident := LabelLoc(FuncLabel(func.ident))]);
      var params := ParamsCode(named, func.params, 0).value;
      var start := at + |Prologue(func.ident)| + |params.code|;
      var body := BlockCode(order, params.frame, start, func.stmts).value;
      ParamsPlain(named, func.params, 0);
      BlockSound(order, params.frame, start, func.stmts);
      var head, tail := Prologue(func.ident), Epilogue(func.ident);
      PrologueSound(func.ident, at);
      PlainSoundWith(params.code, at + |head|, start);
      PlainSoundWith(tail, start + |body.code|, at + |code|);
      hide LabelsOf, UniqueLabels, JumpsInside, Prologue, Epilogue;
      SoundWithAppend(head, params.code, {func.ident}, {}, at, at + |head|, start);
      SoundWithAppend(head + params.code, body.code, {func.ident}, {}, at, start, start + |body.code|);
      SoundWithAppend(head + params.code + body.code, tail, {func.ident}, {}, at, start + |body.code|, at + |code|);
      assert {func.ident} + {} == {func.ident};
    }
  }

  lemma PlainSoundWith(code: seq<Instruction>, lo: nat, hi: nat)
    requires PlainCode(code)
    ensures SoundWith(code, {}, lo, hi)
  {
    PlainHasNoLabels(code);
  }

  lemma PrologueSound(name: Ident, lo: nat)
    ensures SoundWith(Prologue(name), {name}, lo, lo + |Prologue(name)|)
  {
  }

  /** The whole buffer: labels are unique across functions and every jump target is defined. */
  lemma {:induction false} ProgramSound(order: Order, frame: Frame, at: nat, funcs: seq<Func>)
    requires ProgramCode(order, frame, at, funcs).Ok? && DistinctNames(funcs) && FlatProgram(funcs)
    ensures var code := ProgramCode(order, frame, at, funcs).value.code;
            SoundWith(code, DefinedNames(funcs), at, at + |code|)
    decreases |funcs|
  {
    if funcs != [] {
      var first := FuncCode(order, frame, at, funcs[0]).value;
      var rest := ProgramCode(order, first.frame, at + |first.code|, funcs[1..]).value;
      FuncSound(order, frame, at, funcs[0]);
      assert DistinctNames(funcs[1..]);
      ProgramSound(order, first.frame, at + |first.code|, funcs[1..]);
      NamesOfTail(funcs);
      SoundWithAppend(first.code, rest.code, if funcs[0].stmts == [] then {} else {funcs[0].ident}, DefinedNames(funcs[1..]),
                      at, at + |first.code|, at + |first.code| + |rest.code|);
    }
  }

  lemma NamesOfTail(funcs: seq<Func>)
    requires funcs != [] && DistinctNames(funcs)
    ensures var own := if funcs[0].stmts == [] then {} else {funcs[0].ident};
            own !! DefinedNames(funcs[1..]) && DefinedNames(funcs) == own + DefinedNames(funcs[1..])
  {
    var tail := funcs[1..];
    forall name | name in DefinedNames(tail) ensures name in DefinedNames(funcs) {
      var i :| 0 <= i < |tail| && tail[i].stmts != [] && tail[i].ident == name;
      assert funcs[i + 1].ident == name;
    }
    forall name | name in DefinedNames(funcs) && !(funcs[0].stmts != [] && name == funcs[0].ident)
      ensures name in DefinedNames(tail)
    {
      var i :| 0 <= i < |funcs| && funcs[i].stmts != [] && funcs[i].ident == name;
      assert tail[i - 1].ident == name;
    }
  }
}
