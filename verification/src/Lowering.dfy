/** What lowering does to every statement, the ones about aggregates included: it folds the expressions where they
    stand and touches nothing else. */
module Lowering {
  import opened Lir
  import opened ConstFold
  import opened EndToEnd

  // ---------- the expressions of a statement, in the order in which they stand ----------

  function ExprsOfInits(inits: seq<FieldInit>): seq<Expr>
    decreases inits, 1
  {
    if inits == [] then [] else ExprsOfInit(inits[0]) + ExprsOfInits(inits[1..])
  }

  function ExprsOfInit(init: FieldInit): seq<Expr>
    decreases init, 0
  {
    match init.init
    case One(e) => [e]
    case Many(items) => items
    case Nested(inits) => ExprsOfInits(inits)
  }

  function ExprsOfItems(items: seq<PayloadItem>): seq<Expr> {
    if items == [] then [] else (if items[0].Single? then [items[0].value] else []) + ExprsOfItems(items[1..])
  }

  function ExprsOfAccess(access: Access): seq<Expr>
    decreases access
  {
    match access
    case Whole(_) => []
    case Element(_, index) => [index]
    case Inner(_, rest, _) => ExprsOfAccess(rest)
  }

  function ExprsOf(s: Stmt): seq<Expr>
    decreases s, 0
  {
    match s
    case Assign(_, _, e, _) => [e]
    case If(cond, blk, els) => [cond] + ExprsOfBlock(blk) + ExprsOfBlock(els)
    case While(cond, blk) => [cond] + ExprsOfBlock(blk)
    case Ret(e) => [e]
    case Exit => []
    case Declare(_, _) => []
    case LetStruct(_, _, inits) => ExprsOfInits(inits)
    case LetEnum(_, _, _, items) => ExprsOfItems(items)
    case SetItem(_, index, e) => [index, e]
    case SetField(_, _, access, e) => ExprsOfAccess(access) + [e]
    case Match(_, _, arms) => ExprsOfArms(arms)
  }

  function ExprsOfBlock(stmts: seq<Stmt>): seq<Expr>
    decreases stmts, 1
  {
    if stmts == [] then [] else ExprsOf(stmts[0]) + ExprsOfBlock(stmts[1..])
  }

  function ExprsOfArms(arms: seq<Arm>): seq<Expr>
    decreases arms, 1
  {
    if arms == [] then []
    else
      assert arms decreases to arms[0];
      ExprsOfBlock(arms[0].body) + ExprsOfArms(arms[1..])
  }

  // ---------- what is left without them ----------

  const HOLE := Value(BoolVal(false))

  function Holes(n: nat): seq<Expr> {
    seq(n, _ => HOLE)
  }

  function BareInits(inits: seq<FieldInit>): seq<FieldInit>
    decreases inits, 1
  {
    if inits == [] then [] else [BareInit(inits[0])] + BareInits(inits[1..])
  }

  function BareInit(init: FieldInit): FieldInit
    decreases init, 0
  {
    match init.init
    case One(_) => init.(init := One(HOLE))
    case Many(items) => init.(init := Many(Holes(|items|)))
    case Nested(inits) => init.(init := Nested(BareInits(inits)))
  }

  function BareItems(items: seq<PayloadItem>): seq<PayloadItem> {
    if items == [] then [] else [if items[0].Single? then Single(HOLE) else items[0]] + BareItems(items[1..])
  }

  function BareAccess(access: Access): Access
    decreases access
  {
    match access
    case Whole(_) => access
    case Element(name, _) => Element(name, HOLE)
    case Inner(name, rest, fields) => Inner(name, BareAccess(rest), fields)
  }

  /** A statement with a hole for every expression. */
  function Bare(s: Stmt): Stmt
    decreases s, 0
  {
    match s
    case Assign(x, t, _, isLet) => Assign(x, t, HOLE, isLet)
    case If(_, blk, els) => If(HOLE, BareBlock(blk), BareBlock(els))
    case While(_, blk) => While(HOLE, BareBlock(blk))
    case Ret(_) => Ret(HOLE)
    case Exit => s
    case Declare(_, _) => s
    case LetStruct(x, fields, inits) => LetStruct(x, fields, BareInits(inits))
    case LetEnum(x, variants, variant, items) => LetEnum(x, variants, variant, BareItems(items))
    case SetItem(x, _, _) => SetItem(x, HOLE, HOLE)
    case SetField(x, fields, access, _) => SetField(x, fields, BareAccess(access), HOLE)
    case Match(x, variants, arms) => Match(x, variants, BareArms(arms))
  }

  function BareBlock(stmts: seq<Stmt>): seq<Stmt>
    decreases stmts, 1
  {
    if stmts == [] then [] else [Bare(stmts[0])] + BareBlock(stmts[1..])
  }

  function BareArms(arms: seq<Arm>): seq<Arm>
    decreases arms, 1
  {
    if arms == [] then []
    else
      assert arms decreases to arms[0];
      [arms[0].(body := BareBlock(arms[0].body))] + BareArms(arms[1..])
  }

  // ---------- lowering ----------

  /** Each expression is replaced by its lowered form. */
  predicate Replaced(checked: bool, es: seq<Expr>, low: seq<Expr>) {
    |low| == |es| && forall i :: 0 <= i < |es| ==> Lower(checked, es[i]) == Some(low[i])
  }

  /** All of them can be lowered. */
  predicate Lowerable(checked: bool, es: seq<Expr>) {
    forall e :: e in es ==> Lower(checked, e).Some?
  }

  lemma NoneReplaced(checked: bool)
    ensures Lowerable(checked, []) && Replaced(checked, [], [])
  {
  }

  lemma OneReplaced(checked: bool, e: Expr)
    ensures Lowerable(checked, [e]) <==> Lower(checked, e).Some?
    ensures Lower(checked, e).Some? ==> Replaced(checked, [e], [Lower(checked, e).value])
  {
    assert e in [e];
  }

  lemma BothReplaced(checked: bool, a: seq<Expr>, low: seq<Expr>, b: seq<Expr>, low': seq<Expr>)
    requires Replaced(checked, a, low) && Replaced(checked, b, low')
    ensures Replaced(checked, a + b, low + low')
  {
    hide Lower;
    forall i | 0 <= i < |a + b| ensures Lower(checked, (a + b)[i]) == Some((low + low')[i]) {
      if i >= |a| {
        assert (a + b)[i] == b[i - |a|];
      }
    }
  }

  lemma BothLowerable(checked: bool, a: seq<Expr>, b: seq<Expr>)
    ensures Lowerable(checked, a + b) <==> Lowerable(checked, a) && Lowerable(checked, b)
  {
    hide Lower;
    assert forall e :: e in a ==> e in a + b;
    assert forall e :: e in b ==> e in a + b;
  }

  lemma {:induction false} IfReplaced(checked: bool, cond: Expr, blk: seq<Stmt>, els: seq<Stmt>)
    ensures var s := If(cond, blk, els);
            && (LowerStmt(checked, s).Some? <==> Lowerable(checked, ExprsOf(s)))
            && (LowerStmt(checked, s).Some? ==>
                  var low := LowerStmt(checked, s).value;
                  Replaced(checked, ExprsOf(s), ExprsOf(low)) && Bare(low) == Bare(s))
    decreases If(cond, blk, els), 0
  {
    hide Lower, LowerBlock, ExprsOfBlock, BareBlock, Replaced, Lowerable;
    BlockReplaced(checked, blk);
    BlockReplaced(checked, els);
    OneReplaced(checked, cond);
    BothLowerable(checked, [cond], ExprsOfBlock(blk));
    BothLowerable(checked, [cond] + ExprsOfBlock(blk), ExprsOfBlock(els));
    if LowerStmt(checked, If(cond, blk, els)).Some? {
      var c, b, e := Lower(checked, cond).value, LowerBlock(checked, blk).value, LowerBlock(checked, els).value;
      BothReplaced(checked, [cond], [c], ExprsOfBlock(blk), ExprsOfBlock(b));
      BothReplaced(checked, [cond] + ExprsOfBlock(blk), [c] + ExprsOfBlock(b), ExprsOfBlock(els), ExprsOfBlock(e));
    }
  }

  lemma {:induction false} WhileReplaced(checked: bool, cond: Expr, blk: seq<Stmt>)
    ensures var s := While(cond, blk);
            && (LowerStmt(checked, s).Some? <==> Lowerable(checked, ExprsOf(s)))
            && (LowerStmt(checked, s).Some? ==>
                  var low := LowerStmt(checked, s).value;
                  Replaced(checked, ExprsOf(s), ExprsOf(low)) && Bare(low) == Bare(s))
    decreases While(cond, blk), 0
  {
    hide Lower, LowerBlock, ExprsOfBlock, BareBlock, Replaced, Lowerable;
    BlockReplaced(checked, blk);
    OneReplaced(checked, cond);
    BothLowerable(checked, [cond], ExprsOfBlock(blk));
    if LowerStmt(checked, While(cond, blk)).Some? {
      var c, b := Lower(checked, cond).value, LowerBlock(checked, blk).value;
      BothReplaced(checked, [cond], [c], ExprsOfBlock(blk), ExprsOfBlock(b));
    }
  }

  lemma {:induction false} AllReplaced(checked: bool, es: seq<Expr>)
    ensures LowerAll(checked, es).Some? <==> Lowerable(checked, es)
    ensures LowerAll(checked, es).Some? ==> Replaced(checked, es, LowerAll(checked, es).value)
  {
    if es != [] {
      AllReplaced(checked, es[1..]);
      assert es == [es[0]] + es[1..];
    }
  }

  lemma {:induction false} InitsReplaced(checked: bool, inits: seq<FieldInit>)
    ensures LowerInits(checked, inits).Some? <==> Lowerable(checked, ExprsOfInits(inits))
    ensures LowerInits(checked, inits).Some? ==>
              var low := LowerInits(checked, inits).value;
              Replaced(checked, ExprsOfInits(inits), ExprsOfInits(low)) && BareInits(low) == BareInits(inits)
    decreases inits, 1
  {
    hide Lower, LowerInit, ExprsOfInit, BareInit, Replaced, Lowerable;
    if inits == [] {
      NoneReplaced(checked);
    } else {
      InitReplaced(checked, inits[0]);
      InitsReplaced(checked, inits[1..]);
      BothLowerable(checked, ExprsOfInit(inits[0]), ExprsOfInits(inits[1..]));
      if LowerInits(checked, inits).Some? {
        var first, rest := LowerInit(checked, inits[0]).value, LowerInits(checked, inits[1..]).value;
        BothReplaced(checked, ExprsOfInit(inits[0]), ExprsOfInit(first), ExprsOfInits(inits[1..]), ExprsOfInits(rest));
        assert ([first] + rest)[1..] == rest;
      }
    }
  }

  lemma {:induction false} InitReplaced(checked: bool, init: FieldInit)
    ensures LowerInit(checked, init).Some? <==> Lowerable(checked, ExprsOfInit(init))
    ensures LowerInit(checked, init).Some? ==>
              var low := LowerInit(checked, init).value;
              Replaced(checked, ExprsOfInit(init), ExprsOfInit(low)) && BareInit(low) == BareInit(init)
    decreases init, 0
  {
    hide Lower;
    match init.init
    case One(_) =>
    case Many(items) => AllReplaced(checked, items);
    case Nested(inits) => InitsReplaced(checked, inits);
  }

  lemma {:induction false} ItemsReplaced(checked: bool, items: seq<PayloadItem>)
    ensures LowerItems(checked, items).Some? <==> Lowerable(checked, ExprsOfItems(items))
    ensures LowerItems(checked, items).Some? ==>
              var low := LowerItems(checked, items).value;
              Replaced(checked, ExprsOfItems(items), ExprsOfItems(low)) && BareItems(low) == BareItems(items)
  {
    hide Lower;
    if items != [] {
      ItemsReplaced(checked, items[1..]);
      var own := if items[0].Single? then [items[0].value] else [];
      BothLowerable(checked, own, ExprsOfItems(items[1..]));
      if LowerItems(checked, items).Some? {
        var low := LowerItems(checked, items).value;
        assert low[1..] == LowerItems(checked, items[1..]).value;
        BothReplaced(checked, own, if low[0].Single? then [low[0].value] else [], ExprsOfItems(items[1..]), ExprsOfItems(low[1..]));
        hide Lowerable, Replaced;
      }
    }
  }

  lemma {:induction false} AccessReplaced(checked: bool, access: Access)
    ensures LowerAccess(checked, access).Some? <==> Lowerable(checked, ExprsOfAccess(access))
    ensures LowerAccess(checked, access).Some? ==>
              var low := LowerAccess(checked, access).value;
              Replaced(checked, ExprsOfAccess(access), ExprsOfAccess(low)) && BareAccess(low) == BareAccess(access)
    decreases access
  {
    hide Lower;
    if access.Inner? {
      AccessReplaced(checked, access.rest);
    }
  }

  /** Lowering a statement of any kind panics exactly when lowering one of its expressions does; otherwise it puts the
      lowered form of each expression in the place of the expression and changes nothing else. */
  lemma {:induction false} StmtReplaced(checked: bool, s: Stmt)
    ensures LowerStmt(checked, s).Some? <==> Lowerable(checked, ExprsOf(s))
    ensures LowerStmt(checked, s).Some? ==>
              var low := LowerStmt(checked, s).value;
              Replaced(checked, ExprsOf(s), ExprsOf(low)) && Bare(low) == Bare(s)
    decreases s, 1
  {
    hide Lower, LowerBlock, LowerArms, LowerInits, LowerItems, LowerAccess, ExprsOfBlock, ExprsOfArms, ExprsOfInits, ExprsOfItems,
         ExprsOfAccess, BareBlock, BareArms, BareInits, BareItems, BareAccess;
    match s
    case If(cond, blk, els) => IfReplaced(checked, cond, blk, els);
    case While(cond, blk) => WhileReplaced(checked, cond, blk);
    case SetItem(_, index, e) =>
      OneReplaced(checked, index);
      OneReplaced(checked, e);
      BothLowerable(checked, [index], [e]);
      if LowerStmt(checked, s).Some? {
        var i, v := Lower(checked, index).value, Lower(checked, e).value;
        BothReplaced(checked, [index], [i], [e], [v]);
        assert [index] + [e] == [index, e] && [i] + [v] == [i, v];
      } else {
        assert [index] + [e] == [index, e];
      }
    case LetStruct(_, _, inits) => InitsReplaced(checked, inits);
    case LetEnum(_, _, _, items) => ItemsReplaced(checked, items);
    case SetField(_, _, access, e) =>
      AccessReplaced(checked, access);
      OneReplaced(checked, e);
      BothLowerable(checked, ExprsOfAccess(access), [e]);
      if LowerStmt(checked, s).Some? {
        var to, v := LowerAccess(checked, access).value, Lower(checked, e).value;
        BothReplaced(checked, ExprsOfAccess(access), ExprsOfAccess(to), [e], [v]);
      }
    case Match(_, _, arms) => ArmsReplaced(checked, arms);
    case _ =>
  }

  lemma {:induction false} BlockReplaced(checked: bool, stmts: seq<Stmt>)
    ensures LowerBlock(checked, stmts).Some? <==> Lowerable(checked, ExprsOfBlock(stmts))
    ensures LowerBlock(checked, stmts).Some? ==>
              var low := LowerBlock(checked, stmts).value;
              Replaced(checked, ExprsOfBlock(stmts), ExprsOfBlock(low)) && BareBlock(low) == BareBlock(stmts)
    decreases stmts, 2
  {
    hide Lower, LowerStmt, ExprsOf, Bare, Replaced, Lowerable;
    if stmts == [] {
      NoneReplaced(checked);
    } else {
      StmtReplaced(checked, stmts[0]);
      BlockReplaced(checked, stmts[1..]);
      BothLowerable(checked, ExprsOf(stmts[0]), ExprsOfBlock(stmts[1..]));
      if LowerBlock(checked, stmts).Some? {
        var first, rest := LowerStmt(checked, stmts[0]).value, LowerBlock(checked, stmts[1..]).value;
        BothReplaced(checked, ExprsOf(stmts[0]), ExprsOf(first), ExprsOfBlock(stmts[1..]), ExprsOfBlock(rest));
        assert ([first] + rest)[1..] == rest;
      }
    }
  }

  lemma {:induction false} ArmsReplaced(checked: bool, arms: seq<Arm>)
    ensures LowerArms(checked, arms).Some? <==> Lowerable(checked, ExprsOfArms(arms))
    ensures LowerArms(checked, arms).Some? ==>
              var low := LowerArms(checked, arms).value;
              Replaced(checked, ExprsOfArms(arms), ExprsOfArms(low)) && BareArms(low) == BareArms(arms)
    decreases arms, 2
  {
    hide Lower, LowerBlock, ExprsOfBlock, BareBlock, Replaced, Lowerable;
    if arms == [] {
      NoneReplaced(checked);
    } else {
      assert arms decreases to arms[0];
      BlockReplaced(checked, arms[0].body);
      ArmsReplaced(checked, arms[1..]);
      BothLowerable(checked, ExprsOfBlock(arms[0].body), ExprsOfArms(arms[1..]));
      if LowerArms(checked, arms).Some? {
        var body, rest := LowerBlock(checked, arms[0].body).value, LowerArms(checked, arms[1..]).value;
        BothReplaced(checked, ExprsOfBlock(arms[0].body), ExprsOfBlock(body), ExprsOfArms(arms[1..]), ExprsOfArms(rest));
        var first := arms[0].(body := body);
        assert ([first] + rest)[1..] == rest;
      }
    }
  }
}
