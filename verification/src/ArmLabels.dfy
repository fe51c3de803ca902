/** Conditionals and loops in the arms of a `match`. The block of an arm is generated into a buffer of its
    own, and its labels are numbered from the start of that buffer, so blocks of different arms can define
    the same label. This module says exactly when they do, in terms of the source. */
module ArmLabels {
  import opened Lir
  import opened Machine
  import opened AsmSpec
  import opened Labels
  import opened Writes
  import opened CodePlan
  import opened LabelMarks
  import opened ProgramMarks

  // ---------- blocks without a `match` ----------

  predicate NoMatch(s: Stmt)
    decreases s, 0
  {
    match s
    case If(_, blk, els) => NoMatchIn(blk) && NoMatchIn(els)
    case While(_, blk) => NoMatchIn(blk)
    case Match(_, _, _) => false
    case _ => true
  }

  predicate NoMatchIn(stmts: seq<Stmt>)
    decreases stmts, 1
  {
    stmts == [] || (NoMatch(stmts[0]) && NoMatchIn(stmts[1..]))
  }

  predicate NoMatchInArms(arms: seq<Arm>) {
    forall i :: 0 <= i < |arms| ==> NoMatchIn(arms[i].body)
  }

  /** The label of a conditional or loop. */
  predicate Branching(lbl: Label) {
    lbl.JmpIf? || lbl.MergeIf? || lbl.UncondWhile? || lbl.JmpWhile?
  }

  /** Different labels of conditionals and loops, numbered by positions from `lo` up to `hi`. */
  predicate Inner(labels: seq<Label>, lo: nat, hi: nat) {
    Distinct(labels) && forall lbl :: lbl in labels ==> Branching(lbl) && lo <= lbl.at < hi
  }

  predicate NoneShared(a: seq<Label>, b: seq<Label>) {
    forall lbl :: lbl in a ==> lbl !in b
  }

  lemma DistinctAppend(a: seq<Label>, b: seq<Label>)
    ensures Distinct(a + b) <==> Distinct(a) && Distinct(b) && NoneShared(a, b)
  {
    var c := a + b;
    assert forall i :: 0 <= i < |a| ==> c[i] == a[i];
    assert forall j :: 0 <= j < |b| ==> c[|a| + j] == b[j];
    if Distinct(c) {
      forall i, j | 0 <= i < j < |b| ensures b[i] != b[j] {
        assert c[|a| + i] == b[i] && c[|a| + j] == b[j];
      }
      forall lbl | lbl in a ensures lbl !in b {
        var i :| 0 <= i < |a| && a[i] == lbl;
        forall j | 0 <= j < |b| ensures b[j] != lbl {
          assert c[|a| + j] == b[j] && c[i] == lbl;
        }
      }
    }
    if Distinct(a) && Distinct(b) && NoneShared(a, b) {
      forall i, j | 0 <= i < j < |c| ensures c[i] != c[j] {
        if i < |a| <= j {
          assert c[i] in a && c[j] == b[j - |a|];
        }
      }
    }
  }

  lemma InnerAppend(a: seq<Label>, b: seq<Label>, lo: nat, mid: nat, hi: nat)
    requires lo <= mid <= hi && Inner(a, lo, mid) && Inner(b, mid, hi)
    ensures Inner(a + b, lo, hi)
  {
    DistinctAppend(a, b);
  }

  lemma {:induction false} StmtInner(s: Stmt, at: nat, scope: Scope, omits: seq<bool>)
    requires NoMatch(s)
    ensures var p := StmtPlan(s, at, scope, omits); Inner(p.labels, at, at + p.length)
    decreases s, 0
  {
    hide BlockPlan, Inner, ExprLength, SimpleLength;
    match s
    case If(cond, blk, els) =>
      var elseAt := at + ExprLength(cond, scope.vars) + 1;
      var thn := BlockPlan(blk, elseAt + 1, scope, omits);
      var mergeAt := elseAt + 1 + thn.length;
      var otherwise := BlockPlan(els, mergeAt + 2, thn.scope, thn.omits);
      BlockInner(blk, elseAt + 1, scope, omits);
      BlockInner(els, mergeAt + 2, thn.scope, thn.omits);
      IfInner(at, thn.labels, otherwise.labels, elseAt, mergeAt, mergeAt + 2 + otherwise.length);
    case While(cond, blk) =>
      var body := BlockPlan(blk, at + 2, scope, omits);
      BlockInner(blk, at + 2, scope, omits);
      WhileInner(at, body.labels, at + 2 + body.length, at + StmtPlan(s, at, scope, omits).length);
    case Match(_, _, _) => assert false;
    case _ => NoneInner(at, at + StmtPlan(s, at, scope, omits).length);
  }

  lemma NoneInner(lo: nat, hi: nat)
    ensures Inner([], lo, hi)
  {
  }

  lemma IfInner(at: nat, thn: seq<Label>, els: seq<Label>, elseAt: nat, mergeAt: nat, end: nat)
    requires at <= elseAt < mergeAt && mergeAt + 2 <= end && Inner(thn, elseAt + 1, mergeAt) && Inner(els, mergeAt + 2, end)
    ensures Inner(thn + [JmpIf(elseAt)] + els + [MergeIf(mergeAt)], at, end + 1)
  {
    DistinctAppend(thn, [JmpIf(elseAt)]);
    DistinctAppend(thn + [JmpIf(elseAt)], els);
    DistinctAppend(thn + [JmpIf(elseAt)] + els, [MergeIf(mergeAt)]);
  }

  lemma WhileInner(at: nat, body: seq<Label>, mid: nat, end: nat)
    requires at + 2 <= mid < end && Inner(body, at + 2, mid)
    ensures Inner([JmpWhile(at + 1)] + body + [UncondWhile(at)], at, end)
  {
    DistinctAppend([JmpWhile(at + 1)], body);
    DistinctAppend([JmpWhile(at + 1)] + body, [UncondWhile(at)]);
  }

  lemma {:induction false} BlockInner(stmts: seq<Stmt>, at: nat, scope: Scope, omits: seq<bool>)
    requires NoMatchIn(stmts)
    ensures var p := BlockPlan(stmts, at, scope, omits); Inner(p.labels, at, at + p.length)
    decreases stmts, 1
  {
    hide StmtPlan, Inner, NoMatch;
    if stmts == [] {
      NoneInner(at, at);
    } else {
      var first := StmtPlan(stmts[0], at, scope, omits);
      var rest := BlockPlan(stmts[1..], at + first.length, first.scope, first.omits);
      StmtInner(stmts[0], at, scope, omits);
      BlockInner(stmts[1..], at + first.length, first.scope, first.omits);
      InnerAppend(first.labels, rest.labels, at, at + first.length, at + first.length + rest.length);
    }
  }

  // ---------- one `match` ----------

  /** The labels in the block of each arm, read off the source. Every block is numbered from 1 on. */
  function ArmMarks(arms: seq<Arm>, tag: Location, scope: Scope, omits: seq<bool>): (marks: seq<seq<Label>>)
    ensures |marks| == |arms|
  {
    if arms == [] then []
    else
      var body := BlockPlan(arms[0].body, 1, BindScope(scope, arms[0].binds, tag), omits);
      [body.labels] + ArmMarks(arms[1..], tag, body.scope, body.omits)
  }

  predicate Apart(marks: seq<seq<Label>>) {
    forall i, j :: 0 <= i < j < |marks| ==> NoneShared(marks[i], marks[j])
  }

  ghost predicate InSome(marks: seq<seq<Label>>, lbl: Label) {
    exists i :: 0 <= i < |marks| && lbl in marks[i]
  }

  lemma InSomeFirst(first: seq<Label>, rest: seq<seq<Label>>, lbl: Label)
    ensures InSome([first] + rest, lbl) <==> lbl in first || InSome(rest, lbl)
  {
    var all := [first] + rest;
    assert all[0] == first && forall i :: 0 <= i < |rest| ==> all[i + 1] == rest[i];
    if InSome(all, lbl) {
      var i :| 0 <= i < |all| && lbl in all[i];
      assert i == 0 || all[i] == rest[i - 1];
    }
  }

  lemma ApartFirst(first: seq<Label>, rest: seq<seq<Label>>)
    ensures Apart([first] + rest) <==> Apart(rest) && forall lbl :: lbl in first ==> !InSome(rest, lbl)
  {
    var all := [first] + rest;
    assert all[0] == first && forall i :: 0 <= i < |rest| ==> all[i + 1] == rest[i];
    if Apart(all) {
      forall i, j | 0 <= i < j < |rest| ensures NoneShared(rest[i], rest[j]) {
        assert NoneShared(all[i + 1], all[j + 1]);
      }
      forall lbl | lbl in first ensures !InSome(rest, lbl) {
        forall j | 0 <= j < |rest| ensures lbl !in rest[j] {
          assert NoneShared(all[0], all[j + 1]);
        }
      }
    }
    if Apart(rest) && forall lbl :: lbl in first ==> !InSome(rest, lbl) {
      forall i, j | 0 <= i < j < |all| ensures NoneShared(all[i], all[j]) {
        assert all[j] == rest[j - 1] && (i > 0 ==> all[i] == rest[i - 1]);
      }
    }
  }

  /** Labels of arms numbered from `lo` on, and the labels of the blocks. */
  ghost predicate Defines(labels: seq<Label>, lo: nat, marks: seq<seq<Label>>) {
    && (forall lbl :: lbl in labels ==> InSome(marks, lbl) || (lbl.MatchArm? && lbl.at >= lo))
    && (forall lbl :: InSome(marks, lbl) ==> lbl in labels && Branching(lbl))
  }

  /** The labels of the arms and their blocks are different if and only if no two blocks share one. */
  lemma {:induction false} ArmsDistinct(arms: seq<Arm>, at: nat, tag: Location, scope: Scope, omits: seq<bool>)
    requires NoMatchInArms(arms)
    ensures var labels, marks := ArmsPlan(arms, at, tag, scope, omits).labels, ArmMarks(arms, tag, scope, omits);
            Defines(labels, at, marks) && (Distinct(labels) <==> Apart(marks))
    decreases |arms|
  {
    hide BlockPlan, Distinct, Apart, NoMatchIn, Defines;
    if arms == [] {
      NothingDefined(at);
    } else {
      var body := BlockPlan(arms[0].body, 1, BindScope(scope, arms[0].binds, tag), omits);
      var rest := ArmsPlan(arms[1..], at + 2, tag, body.scope, body.omits);
      BlockInner(arms[0].body, 1, BindScope(scope, arms[0].binds, tag), omits);
      ArmsDistinct(arms[1..], at + 2, tag, body.scope, body.omits);
      OneMoreArm(MatchArm(at, arms[0].variant), body.labels, rest.labels, ArmMarks(arms[1..], tag, body.scope, body.omits), body.length);
    }
  }

  lemma NothingDefined(at: nat)
    ensures Defines([], at, []) && Distinct([]) && Apart([])
  {
  }

  lemma OneMoreArm(lbl: Label, first: seq<Label>, rest: seq<Label>, marks: seq<seq<Label>>, length: nat)
    requires lbl.MatchArm? && Inner(first, 1, 1 + length)
    requires Defines(rest, lbl.at + 2, marks) && (Distinct(rest) <==> Apart(marks))
    ensures var labels, all := [lbl] + first + rest, [first] + marks;
            Defines(labels, lbl.at, all) && (Distinct(labels) <==> Apart(all))
  {
    forall l ensures InSome([first] + marks, l) <==> l in first || InSome(marks, l) {
      InSomeFirst(first, marks, l);
    }
    DistinctAppend([lbl], first);
    DistinctAppend([lbl] + first, rest);
    ApartFirst(first, marks);
    hide Apart, InSome, Distinct;
    assert lbl !in first && lbl !in rest;
    assert Distinct([lbl]) by {
      OneIsDistinct(lbl);
    }
    assert NoneShared([lbl] + first, rest) <==> forall l :: l in first ==> !InSome(marks, l);
  }

  lemma OneIsDistinct(lbl: Label)
    ensures Distinct([lbl])
  {
  }

  /** One `match` whose arms hold conditionals and loops but no other `match`, for any order of the registers:
      all its jumps stay inside, and its labels are unique if and only if no label read off the source stands
      in two arms. */
  lemma MatchUniqueExactly(order: Order, frame: Frame, at: nat, x: Ident, variants: seq<Variant>, arms: seq<Arm>)
    requires Located(frame.vars) && StmtCode(order, frame, at, Match(x, variants, arms)).Ok? && NoMatchInArms(arms)
    ensures x in frame.vars && frame.vars[x].NumberedOffset?
    ensures ArmsCode(order, frame, at, frame.vars[x], variants, arms, MatchMerge(at)).Ok?
    ensures var code := StmtCode(order, frame, at, Match(x, variants, arms)).value.code;
            var omits := ArmsOmits(order, frame, at, frame.vars[x], variants, arms, MatchMerge(at));
            && Closed(code)
            && (UniqueLabels(code) <==> Apart(ArmMarks(arms, frame.vars[x], ScopeOf(frame), omits)))
  {
    MatchParts(order, frame, at, x, variants, arms);
    var s, tag := Match(x, variants, arms), frame.vars[x];
    var omits := ArmsOmits(order, frame, at, tag, variants, arms, MatchMerge(at));
    StmtPlanned(order, frame, at, s, []);
    assert Omits(order, frame, at, s) + [] == omits;
    hide StmtCode, ArmsCode, ArmsPlan, ArmsOmits, ArmMarks, Defined, Closed, UniqueLabels, Distinct, Apart, NoMatchInArms;
    StmtClosed(order, frame, at, s);
    UniqueIsDistinct(StmtCode(order, frame, at, s).value.code);
    ArmsDistinct(arms, at, tag, ScopeOf(frame), omits);
    MergeIsNew(ArmsPlan(arms, at, tag, ScopeOf(frame), omits).labels, at, ArmMarks(arms, tag, ScopeOf(frame), omits));
  }

  lemma MergeIsNew(labels: seq<Label>, at: nat, marks: seq<seq<Label>>)
    requires Defines(labels, at, marks)
    ensures Distinct(labels + [MatchMerge(at)]) <==> Distinct(labels)
  {
    DistinctAppend(labels, [MatchMerge(at)]);
  }

  /** When registers decide nothing, the condition is about the source and the scope alone: it is the same for
      every order and whatever registers are in use. */
  lemma SettledUniqueExactly(order: Order, frame: Frame, at: nat, x: Ident, variants: seq<Variant>, arms: seq<Arm>)
    requires Located(frame.vars) && StmtCode(order, frame, at, Match(x, variants, arms)).Ok?
    requires NoMatchInArms(arms) && SettledArms(arms)
    ensures x in frame.vars
    ensures UniqueLabels(StmtCode(order, frame, at, Match(x, variants, arms)).value.code)
            <==> Apart(ArmMarks(arms, frame.vars[x], ScopeOf(frame), []))
  {
    hide UniqueLabels, Apart, ArmMarks, SettledArms, NoMatchInArms, ArmsOmits, StmtCode;
    MatchUniqueExactly(order, frame, at, x, variants, arms);
    SettledSplit(order, frame, at, frame.vars[x], variants, arms, MatchMerge(at));
  }

  // ---------- consequences ----------

  /** Where the marks of an arm come from. */
  lemma {:induction false} ArmMarksAt(arms: seq<Arm>, tag: Location, scope: Scope, omits: seq<bool>, i: nat)
    returns (inner: Scope, left: seq<bool>)
    requires i < |arms|
    ensures ArmMarks(arms, tag, scope, omits)[i] == Marks(arms[i].body, 1, inner, left)
    decreases i
  {
    hide BlockPlan;
    var bound := BindScope(scope, arms[0].binds, tag);
    if i == 0 {
      inner, left := bound, omits;
    } else {
      var body := BlockPlan(arms[0].body, 1, bound, omits);
      inner, left := ArmMarksAt(arms[1..], tag, body.scope, body.omits, i - 1);
    }
  }

  lemma {:induction false} StraightMarks(stmts: seq<Stmt>, at: nat, scope: Scope, omits: seq<bool>)
    requires Straight(stmts)
    ensures Marks(stmts, at, scope, omits) == []
    decreases |stmts|
  {
    hide SimpleLength, ScopeAfter;
    if stmts != [] {
      var first := StmtPlan(stmts[0], at, scope, omits);
      assert Simple(stmts[0]);
      assert first.labels == [];
      StraightMarks(stmts[1..], at + first.length, first.scope, first.omits);
    }
  }

  /** With conditionals and loops in at most one arm the labels are unique. */
  lemma OneBusyArm(order: Order, frame: Frame, at: nat, x: Ident, variants: seq<Variant>, arms: seq<Arm>, busy: nat)
    requires Located(frame.vars) && StmtCode(order, frame, at, Match(x, variants, arms)).Ok? && NoMatchInArms(arms)
    requires forall i :: 0 <= i < |arms| && i != busy ==> Straight(arms[i].body)
    ensures UniqueLabels(StmtCode(order, frame, at, Match(x, variants, arms)).value.code)
  {
    hide StmtCode, UniqueLabels, NoMatchInArms, ArmMarks, Marks;
    MatchUniqueExactly(order, frame, at, x, variants, arms);
    var omits := ArmsOmits(order, frame, at, frame.vars[x], variants, arms, MatchMerge(at));
    var marks := ArmMarks(arms, frame.vars[x], ScopeOf(frame), omits);
    forall i | 0 <= i < |marks| && i != busy ensures marks[i] == [] {
      var inner, left := ArmMarksAt(arms, frame.vars[x], ScopeOf(frame), omits, i);
      StraightMarks(arms[i].body, 1, inner, left);
    }
  }

  /** The block starts with a conditional that tests a variable. */
  predicate TestsVariable(stmts: seq<Stmt>) {
    stmts != [] && stmts[0].If? && stmts[0].cond.Var?
  }

  /** Two arms whose blocks start with a test of a variable, whatever the variables, the branches, the rest of
      the blocks, the patterns and the other arms: the same label is defined twice. */
  lemma ConditionalsClash(order: Order, frame: Frame, at: nat, x: Ident, variants: seq<Variant>, arms: seq<Arm>, i: nat, j: nat)
    requires Located(frame.vars) && StmtCode(order, frame, at, Match(x, variants, arms)).Ok? && NoMatchInArms(arms)
    requires i < j < |arms| && TestsVariable(arms[i].body) && TestsVariable(arms[j].body)
    ensures !UniqueLabels(StmtCode(order, frame, at, Match(x, variants, arms)).value.code)
  {
    hide StmtCode, UniqueLabels, NoMatchInArms, ArmMarks, Marks, TestsVariable;
    MatchUniqueExactly(order, frame, at, x, variants, arms);
    var omits := ArmsOmits(order, frame, at, frame.vars[x], variants, arms, MatchMerge(at));
    var marks := ArmMarks(arms, frame.vars[x], ScopeOf(frame), omits);
    forall k | k == i || k == j ensures JmpIf(2) in marks[k] {
      var inner, left := ArmMarksAt(arms, frame.vars[x], ScopeOf(frame), omits, k);
      ElseMark(arms[k].body, inner, left);
    }
    assert JmpIf(2) in marks[i] && JmpIf(2) in marks[j];
  }

  /** The label behind the first branch has the number 2 in every arm. */
  lemma ElseMark(stmts: seq<Stmt>, scope: Scope, omits: seq<bool>)
    requires TestsVariable(stmts)
    ensures JmpIf(2) in Marks(stmts, 1, scope, omits)
  {
    var s := stmts[0];
    assert ExprLength(s.cond, scope.vars) == 0;
    var first := StmtPlan(s, 1, scope, omits);
    var thn := BlockPlan(s.blk, 3, scope, omits);
    assert first.labels[|thn.labels|] == JmpIf(2);
    assert Marks(stmts, 1, scope, omits)[|thn.labels|] == JmpIf(2);
  }

  // ---------- where registers decide ----------

  /** `return a + b; if (p) {}` in one arm, and in another `exit; exit; if (p) {}`. */
  function ReturnsFirst(a: Ident, b: Ident, p: Ident): seq<Stmt> {
    [Ret(Binary(Add, Var(a, Int), Var(b, Int), Int)), If(Var(p, Bool), [], [])]
  }

  function ExitsFirst(p: Ident): seq<Stmt> {
    [Exit, Exit, If(Var(p, Bool), [], [])]
  }

  lemma ReturnsMarks(a: Ident, b: Ident, p: Ident, scope: Scope, omitted: bool)
    requires a in scope.vars && b in scope.vars && scope.vars[a].NumberedOffset? && scope.vars[b].NumberedOffset?
    ensures var at := if omitted then 6 else 7;
            Marks(ReturnsFirst(a, b, p), 1, scope, [omitted]) == [JmpIf(at), MergeIf(at + 1)]
    ensures var plan := BlockPlan(ReturnsFirst(a, b, p), 1, scope, [omitted]); plan.scope == scope && plan.omits == []
  {
    var stmts := ReturnsFirst(a, b, p);
    var ret, test := stmts[0], stmts[1];
    assert stmts == [ret] + [test];
    var first := StmtPlan(ret, 1, scope, [omitted]);
    assert ExprLength(ret.expr, scope.vars) == 2;
    assert first == Plan(if omitted then 4 else 5, [], scope, []);
    TestPlan(p, 1 + first.length, scope);
    FirstPlan(ret, [test], 1, scope, [omitted]);
    OnePlan(test, 1 + first.length, scope, []);
  }

  lemma FirstPlan(s: Stmt, rest: seq<Stmt>, at: nat, scope: Scope, omits: seq<bool>)
    ensures var first := StmtPlan(s, at, scope, omits);
            var later := BlockPlan(rest, at + first.length, first.scope, first.omits);
            BlockPlan([s] + rest, at, scope, omits)
            == later.(length := first.length + later.length, labels := first.labels + later.labels)
  {
    assert ([s] + rest)[1..] == rest;
  }

  lemma OnePlan(s: Stmt, at: nat, scope: Scope, omits: seq<bool>)
    ensures BlockPlan([s], at, scope, omits) == StmtPlan(s, at, scope, omits)
  {
    FirstPlan(s, [], at, scope, omits);
    var first := StmtPlan(s, at, scope, omits);
    assert [s] + [] == [s] && first.labels + [] == first.labels;
  }

  lemma TestPlan(p: Ident, at: nat, scope: Scope)
    ensures var s := If(Var(p, Bool), [], []);
            StmtPlan(s, at, scope, []) == Plan(5, [JmpIf(at + 1), MergeIf(at + 2)], scope, [])
  {
    assert [] + [JmpIf(at + 1)] + [] + [MergeIf(at + 2)] == [JmpIf(at + 1), MergeIf(at + 2)];
  }

  lemma ExitsMarks(p: Ident, scope: Scope)
    ensures Marks(ExitsFirst(p), 1, scope, []) == [JmpIf(6), MergeIf(7)]
  {
    var test := ExitsFirst(p)[2];
    assert ExitsFirst(p) == [Exit] + ([Exit] + [test]);
    TestPlan(p, 5, scope);
    OnePlan(test, 5, scope, []);
    FirstPlan(Exit, [test], 3, scope, []);
    FirstPlan(Exit, [Exit] + [test], 1, scope, []);
  }

  /** The sum is computed in the first register of the order. */
  lemma SumInFirst(order: Order, vars: map<Ident, Location>, a: Ident, b: Ident)
    requires a in vars && b in vars && vars[a].NumberedOffset? && vars[b].NumberedOffset?
    requires BuildValue(order, vars, {}, Binary(Add, Var(a, Int), Var(b, Int), Int), Yes).Ok?
    ensures order != []
    ensures BuildValue(order, vars, {}, Binary(Add, Var(a, Int), Var(b, Int), Int), Yes).value.loc == RegLoc(order[0])
  {
    assert BuildValue(order, vars, {}, Var(a, Int), No) == Ok(Built([], {}, vars[a]));
    assert BuildValue(order, vars, {}, Var(b, Int), No) == Ok(Built([], {}, vars[b]));
    assert Combine(order, {}, vars[a], vars[b], Add, Yes).Ok?;
  }

  /** What registers decide in these arms. */
  lemma OmitsAre(order: Order, frame: Frame, at: nat, tag: Location, variants: seq<Variant>, arms: seq<Arm>, merge: Label,
                 a: Ident, b: Ident, p: Ident)
    requires frame.used == {} && tag.NumberedOffset?
    requires a in frame.vars && b in frame.vars && frame.vars[a].NumberedOffset? && frame.vars[b].NumberedOffset?
    requires |arms| == 2 && arms[0].binds == [] && arms[0].body == ReturnsFirst(a, b, p) && arms[1].body == ExitsFirst(p)
    requires ArmsCode(order, frame, at, tag, variants, arms, merge).Ok?
    ensures order != [] && ArmsOmits(order, frame, at, tag, variants, arms, merge) == [order[0] == RAX]
  {
    FirstArm(order, frame, at, tag, variants, arms, merge);
    var first := ArmCode(order, frame, at, tag, variants, arms[0], merge).value;
    assert frame.(vars := frame.vars) == frame;
    ReturnOmits(order, frame, a, b, p);
    ExitsSettled(arms[1], p);
    assert arms[1..] == [arms[1]];
    SettledSplit(order, first.frame, at + |first.chain|, tag, variants, arms[1..], merge);
  }

  lemma ExitsSettled(arm: Arm, p: Ident)
    requires arm.body == ExitsFirst(p)
    ensures SettledArms([arm])
  {
    var body := arm.body;
    TestSettled(p);
    assert body[1..][1..] == [body[2]] && [arm][1..] == [];
    assert SettledIn(body[1..]);
  }

  lemma TestSettled(p: Ident)
    ensures SettledIn([If(Var(p, Bool), [], [])])
  {
    var s := If(Var(p, Bool), [], []);
    assert [s][1..] == [] && Settled(s);
  }

  lemma ReturnOmits(order: Order, frame: Frame, a: Ident, b: Ident, p: Ident)
    requires frame.used == {} && BlockCode(order, frame, 1, ReturnsFirst(a, b, p)).Ok?
    requires a in frame.vars && b in frame.vars && frame.vars[a].NumberedOffset? && frame.vars[b].NumberedOffset?
    ensures order != [] && BlockOmits(order, frame, 1, ReturnsFirst(a, b, p)) == [order[0] == RAX]
  {
    hide BuildValue;
    var stmts := ReturnsFirst(a, b, p);
    var first := StmtCode(order, frame, 1, stmts[0]).value;
    SumInFirst(order, frame.vars, a, b);
    assert Omits(order, frame, 1, stmts[0]) == [order[0] == RAX];
    TestSettled(p);
    assert stmts[1..] == [stmts[1]];
    SettledBlock(order, first.frame, 1 + |first.code|, stmts[1..]);
  }

  /** An input on which the order of the registers decides: with these two arms the labels are unique if and only
      if the first register of the order is not RAX. So no condition on the source alone is exact when a computed
      value is returned. */
  lemma OrderDecides(order: Order, frame: Frame, at: nat, x: Ident, variants: seq<Variant>, v: nat, w: nat, a: Ident, b: Ident, p: Ident)
    requires Located(frame.vars) && frame.used == {}
    requires a in frame.vars && b in frame.vars && frame.vars[a].NumberedOffset? && frame.vars[b].NumberedOffset?
    requires StmtCode(order, frame, at, Match(x, variants, [Arm(v, [], ReturnsFirst(a, b, p)), Arm(w, [], ExitsFirst(p))])).Ok?
    ensures order != []
    ensures UniqueLabels(StmtCode(order, frame, at, Match(x, variants, [Arm(v, [], ReturnsFirst(a, b, p)),
                                                                       Arm(w, [], ExitsFirst(p))])).value.code)
            <==> order[0] != RAX
  {
    var arms := [Arm(v, [], ReturnsFirst(a, b, p)), Arm(w, [], ExitsFirst(p))];
    hide StmtCode, UniqueLabels, ArmsOmits, ArmsCode, ArmMarks, Closed, ReturnsFirst, ExitsFirst;
    NoMatchHere(arms, a, b, p);
    MatchUniqueExactly(order, frame, at, x, variants, arms);
    var tag, merge := frame.vars[x], MatchMerge(at);
    OmitsAre(order, frame, at, tag, variants, arms, merge, a, b, p);
    TwoMarks(arms, tag, ScopeOf(frame), a, b, p, order[0] == RAX);
  }

  lemma NoMatchHere(arms: seq<Arm>, a: Ident, b: Ident, p: Ident)
    requires |arms| == 2 && arms[0].body == ReturnsFirst(a, b, p) && arms[1].body == ExitsFirst(p)
    ensures NoMatchInArms(arms)
  {
    var test := If(Var(p, Bool), [], []);
    assert [test][1..] == [] && NoMatch(test) && NoMatchIn([test]);
    assert arms[0].body[1..] == [test];
    assert arms[1].body[1..][1..] == [test] && NoMatchIn(arms[1].body[1..]);
  }

  /** The marks of the two arms are disjoint exactly when the move into RAX is there. */
  lemma {:induction false} TwoMarks(arms: seq<Arm>, tag: Location, scope: Scope, a: Ident, b: Ident, p: Ident, omitted: bool)
    requires tag.NumberedOffset? && |arms| == 2 && arms[0].binds == [] && arms[1].binds == []
    requires arms[0].body == ReturnsFirst(a, b, p) && arms[1].body == ExitsFirst(p)
    requires a in scope.vars && b in scope.vars && scope.vars[a].NumberedOffset? && scope.vars[b].NumberedOffset?
    ensures Apart(ArmMarks(arms, tag, scope, [omitted])) <==> !omitted
  {
    hide BlockPlan, ReturnsFirst, ExitsFirst;
    assert BindScope(scope, [], tag) == scope;
    ReturnsMarks(a, b, p, scope, omitted);
    ExitsMarks(p, scope);
    var marks := ArmMarks(arms, tag, scope, [omitted]);
    var later := ArmMarks(arms[1..], tag, scope, []);
    assert arms[1..][1..] == [];
    assert later == [Marks(arms[1].body, 1, scope, [])];
    var n := if omitted then 6 else 7;
    assert marks == [[JmpIf(n), MergeIf(n + 1)]] + later;
    assert JmpIf(6) in marks[1];
    if omitted {
      assert !NoneShared(marks[0], marks[1]);
    } else {
      assert NoneShared(marks[0], marks[1]);
    }
  }
}
