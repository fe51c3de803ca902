/** What declarations in branches, loops and arms do to the stack. The generator counts the bytes of every
    declaration it sees; the machine makes room for those it runs. This module follows whole runs of a
    statement's code, values aside: the stack pointer is where the generator takes it to be if and only if the
    bytes for which the run made room are the bytes that the statement declares. */
module FrameCount {
  import opened Words
  import opened Lir
  import opened Machine
  import opened AsmSpec
  import opened ExprProof
  import opened StmtProof
  import opened Labels
  import opened MatchLabels
  import opened LabelProof
  import opened Writes
  import Layout

  // ---------- bytes in the source ----------

  function ShapeBytes(shape: Shape, pushed: bool): nat {
    if pushed then Layout.PushBytes(shape) else Layout.Size(shape)
  }

  /** All bytes that a statement declares, in every branch, loop and arm: as they are pushed, or as they are
      counted. The two differ only by enums without variants. */
  function Bytes(s: Stmt, pushed: bool): nat
    decreases s, 0
  {
    match s
    case Assign(_, _, _, isLet) => if isLet then 8 else 0
    case If(_, blk, els) => BytesIn(blk, pushed) + BytesIn(els, pushed)
    case While(_, blk) => BytesIn(blk, pushed)
    case Declare(_, shape) => ShapeBytes(shape, pushed)
    case LetStruct(_, fields, _) => ShapeBytes(Struct(fields), pushed)
    case LetEnum(_, variants, _, _) => ShapeBytes(Enum(variants), pushed)
    case Match(_, _, arms) => BytesOfArms(arms, pushed)
    case _ => 0
  }

  function BytesIn(stmts: seq<Stmt>, pushed: bool): nat
    decreases stmts, 1
  {
    if stmts == [] then 0 else Bytes(stmts[0], pushed) + BytesIn(stmts[1..], pushed)
  }

  function BytesOfArms(arms: seq<Arm>, pushed: bool): nat
    decreases arms, 1
  {
    if arms == [] then 0
    else
      assert arms decreases to arms[0];
      BytesIn(arms[0].body, pushed) + BytesOfArms(arms[1..], pushed)
  }

  lemma {:induction false} PushedWithin(s: Stmt)
    ensures Bytes(s, true) <= Bytes(s, false)
    decreases s, 0
  {
    match s
    case If(_, blk, els) =>
      PushedWithinBlock(blk);
      PushedWithinBlock(els);
    case While(_, blk) => PushedWithinBlock(blk);
    case Declare(_, shape) => Layout.PushedBytes(shape);
    case LetStruct(_, fields, _) => Layout.PushedBytes(Struct(fields));
    case LetEnum(_, variants, _, _) => Layout.PushedBytes(Enum(variants));
    case Match(_, _, arms) => PushedWithinArms(arms);
    case _ =>
  }

  lemma {:induction false} PushedWithinBlock(stmts: seq<Stmt>)
    ensures BytesIn(stmts, true) <= BytesIn(stmts, false)
    decreases stmts, 1
  {
    if stmts != [] {
      PushedWithin(stmts[0]);
      PushedWithinBlock(stmts[1..]);
    }
  }

  lemma {:induction false} PushedWithinArms(arms: seq<Arm>)
    ensures BytesOfArms(arms, true) <= BytesOfArms(arms, false)
    decreases arms, 1
  {
    if arms != [] {
      assert arms decreases to arms[0];
      PushedWithinBlock(arms[0].body);
      PushedWithinArms(arms[1..]);
    }
  }

  // ---------- bytes in the code ----------

  /** By how much an instruction lowers the stack pointer. */
  function Lowers(inst: Instruction): nat {
    match inst
    case Push(_, _) => 8
    case Math(src, dst, op) =>
      if dst == RegLoc(RSP) && op.Sub? && src.Const? && Encode(src.val) >= 0 then Encode(src.val) else 0
    case _ => 0
  }

  predicate StackReg(loc: Location) {
    loc == RegLoc(RSP) || loc == RegLoc(RBP)
  }

  /** Besides that, the instruction leaves the stack and frame pointer alone. */
  predicate Steady(inst: Instruction) {
    match inst
    case Mov(_, dst) => !StackReg(dst)
    case SizedMov(_, dst, _) => !StackReg(dst)
    case CondMov(_, dst, _) => !StackReg(dst)
    case Load(_, dst, _) => !StackReg(dst)
    case Math(src, dst, op) => !StackReg(dst) || (dst == RegLoc(RSP) && op.Sub? && src.Const? && Encode(src.val) >= 0)
    case _ => true
  }

  function Sum(code: seq<Instruction>): nat {
    if code == [] then 0 else Lowers(code[0]) + Sum(code[1..])
  }

  /** A steady instruction, followed by a return if it leaves the frame. */
  predicate Orderly(code: seq<Instruction>, i: nat)
    requires i < |code|
  {
    Steady(code[i]) && (code[i].Leave? ==> i + 1 < |code| && code[i + 1].Return?)
  }

  /** The code touches the stack registers only to make room for `bytes` bytes, and to leave the function. */
  ghost predicate Accounted(code: seq<Instruction>, bytes: nat) {
    Sum(code) == bytes && forall i :: 0 <= i < |code| ==> Orderly(code, i)
  }

  lemma {:induction false} SumAppend(a: seq<Instruction>, b: seq<Instruction>)
    ensures Sum(a + b) == Sum(a) + Sum(b)
    decreases |a|
  {
    if a == [] {
      assert a + b == b;
    } else {
      assert (a + b)[1..] == a[1..] + b;
      SumAppend(a[1..], b);
    }
  }

  lemma Both(a: seq<Instruction>, m: nat, b: seq<Instruction>, n: nat)
    requires Accounted(a, m) && Accounted(b, n)
    ensures Accounted(a + b, m + n)
  {
    SumAppend(a, b);
    var c := a + b;
    forall i | 0 <= i < |c| ensures Orderly(c, i) {
      if i < |a| {
        assert Orderly(a, i);
      } else {
        assert Orderly(b, i - |a|);
      }
    }
  }

  lemma One(inst: Instruction)
    requires Steady(inst) && !inst.Leave?
    ensures Accounted([inst], Lowers(inst))
  {
    assert Sum([inst][1..]) == 0;
  }

  lemma Nothing()
    ensures Accounted([], 0) && Accounted([Leave, Return], 0)
  {
    assert [Leave, Return][1..] == [Return] && [Return][1..] == [];
    assert Sum([Return]) == 0;
  }

  lemma {:induction false} ScratchAccounted(code: seq<Instruction>)
    requires ScratchCode(code)
    ensures Accounted(code, 0)
    decreases |code|
  {
    if code == [] {
      Nothing();
    } else {
      assert WritesScratch(code[0]) && ScratchCode(code[1..]);
      One(code[0]);
      ScratchAccounted(code[1..]);
      Both([code[0]], 0, code[1..], 0);
      assert [code[0]] + code[1..] == code;
    }
  }

  lemma {:induction false} PushAccounted(shape: Shape)
    requires Layout.Size(shape) <= WORD_MAX
    ensures Accounted(PushCode(shape), Layout.PushBytes(shape))
    decreases shape
  {
    Layout.PushedBytes(shape);
    match shape
    case Scalar => One(Push(ZERO, 8));
    case Array(len, elem) =>
      assert len * Layout.Size(elem) == Layout.Size(elem) * len;
      One(TakeBytes(len * Layout.Size(elem)));
    case Struct(fields) => PushFieldsAccounted(fields);
    case Enum(variants) => One(TakeBytes(Layout.LargestVariant(variants, |variants|)));
  }

  lemma {:induction false} PushFieldsAccounted(fields: seq<Field>)
    requires Layout.FieldsSize(fields) <= WORD_MAX
    ensures Accounted(PushFields(fields), Layout.FieldsBytes(fields))
    decreases fields
  {
    hide Accounted;
    if fields == [] {
      Nothing();
    } else {
      assert fields decreases to fields[0];
      PushAccounted(fields[0].shape);
      PushFieldsAccounted(fields[1..]);
      Both(PushCode(fields[0].shape), Layout.PushBytes(fields[0].shape), PushFields(fields[1..]), Layout.FieldsBytes(fields[1..]));
    }
  }

  // ---------- stores ----------

  lemma StoreToAccounted(order: Order, frame: Frame, lloc: Location, rloc: Location)
    requires !StackReg(lloc) && StoreTo(order, frame, lloc, rloc).Ok?
    ensures Accounted(StoreTo(order, frame, lloc, rloc).value.code, 0)
  {
    hide Accounted, FreeReg;
    if lloc == rloc {
      Nothing();
    } else if lloc.IsStackOffset() && rloc.IsStackOffset() {
      var reg := FreeReg(order, frame.used).value;
      TwoMoves(rloc, reg, lloc);
    } else {
      One(SizedMov(rloc, lloc, 8));
    }
  }

  lemma TwoMoves(rloc: Location, reg: Usable, dst: Location)
    requires !StackReg(dst)
    ensures Accounted([SizedMov(rloc, RegLoc(reg), 8), SizedMov(RegLoc(reg), dst, 8)], 0)
  {
    One(SizedMov(rloc, RegLoc(reg), 8));
    One(SizedMov(RegLoc(reg), dst, 8));
    Both([SizedMov(rloc, RegLoc(reg), 8)], 0, [SizedMov(RegLoc(reg), dst, 8)], 0);
    assert [SizedMov(rloc, RegLoc(reg), 8)] + [SizedMov(RegLoc(reg), dst, 8)]
        == [SizedMov(rloc, RegLoc(reg), 8), SizedMov(RegLoc(reg), dst, 8)];
  }

  lemma ElementAccounted(order: Order, frame: Frame, address: Register, rloc: Location)
    requires StoreElement(order, frame, address, rloc).Ok?
    ensures Accounted(StoreElement(order, frame, address, rloc).value.code, 0)
  {
    hide Accounted, FreeReg;
    if rloc == RegLoc(address) {
      Nothing();
    } else if rloc.IsStackOffset() {
      var reg := FreeReg(order, ClearRegsExcept(frame.used, Some(RegLoc(address)), Yes)).value;
      TwoMoves(rloc, reg, NumberedOffset(0, address));
    } else {
      One(SizedMov(rloc, NumberedOffset(0, address), 8));
    }
  }

  lemma ExprAccounted(order: Order, vars: map<Ident, Location>, used: set<Register>, e: Expr, canClear: CanClearRegs)
    requires Located(vars) && BuildValue(order, vars, used, e, canClear).Ok?
    ensures Accounted(BuildValue(order, vars, used, e, canClear).value.code, 0)
  {
    hide BuildValue, Accounted;
    ExprWrites(order, vars, used, e, canClear);
    ScratchAccounted(BuildValue(order, vars, used, e, canClear).value.code);
  }

  lemma {:induction false} LeavesAccounted(order: Order, frame: Frame, leaves: seq<Expr>, offset: nat)
    requires Located(frame.vars) && StoreLeaves(order, frame, leaves, offset).Ok?
    ensures Accounted(StoreLeaves(order, frame, leaves, offset).value.code, 0)
    ensures var next := StoreLeaves(order, frame, leaves, offset).value.frame; next == frame.(used := next.used)
    decreases |leaves|
  {
    hide BuildValue, Accounted, FreeReg;
    if leaves == [] {
      Nothing();
    } else {
      var built := BuildValue(order, frame.vars, frame.used, leaves[0], Yes).value;
      var store := StoreLeaf(order, built.used, built.loc, offset).value;
      ExprAccounted(order, frame.vars, frame.used, leaves[0], Yes);
      if built.loc.IsStackOffset() {
        TwoMoves(built.loc, FreeReg(order, built.used).value, NumberedOffset(offset, RBP));
      } else {
        One(SizedMov(built.loc, NumberedOffset(offset, RBP), 8));
      }
      var next := frame.(used := built.used);
      LeavesAccounted(order, next, leaves[1..], offset - 8);
      Both(built.code, 0, store, 0);
      Both(built.code + store, 0, StoreLeaves(order, next, leaves[1..], offset - 8).value.code, 0);
    }
  }

  lemma {:induction false} PayloadAccounted(order: Order, frame: Frame, items: seq<PayloadItem>, offset: nat)
    requires Located(frame.vars) && StorePayload(order, frame, items, offset).Ok?
    ensures Accounted(StorePayload(order, frame, items, offset).value.code, 0)
    ensures var next := StorePayload(order, frame, items, offset).value.frame; next == frame.(used := next.used)
    decreases |items|
  {
    hide BuildValue, Accounted, ItemSize;
    if items == [] {
      Nothing();
    } else {
      var size := ItemSize(items[0]);
      var built := BuildItem(order, frame, items[0]).value;
      var move := SizedMov(built.loc, NumberedOffset(offset - size, RBP), size);
      if items[0].Single? {
        ExprAccounted(order, frame.vars, frame.used, items[0].value, Yes);
      } else {
        Nothing();
      }
      One(move);
      var next := frame.(used := built.used);
      PayloadAccounted(order, next, items[1..], offset - size);
      Both(built.code, 0, [move], 0);
      Both(built.code + [move], 0, StorePayload(order, next, items[1..], offset - size).value.code, 0);
    }
  }

  lemma IndexAccounted(order: Order, vars: map<Ident, Location>, used: set<Register>, arr: Location, index: Expr, eleSize: nat)
    requires Located(vars) && IndexArr(order, vars, used, arr, index, eleSize).Ok?
    ensures Accounted(IndexArr(order, vars, used, arr, index, eleSize).value.code, 0)
  {
    hide BuildValue, FreeReg, Accounted;
    var code := IndexArr(order, vars, used, arr, index, eleSize).value.code;
    if !(index.Value? && index.val.IntVal?) {
      ExprWrites(order, vars, used, index, No);
    }
    ScratchAccounted(code);
  }

  lemma {:induction false} FieldAccounted(order: Order, vars: map<Ident, Location>, used: set<Register>, fields: seq<Field>,
                                          access: Access, offset: nat, base: Register)
    requires Located(vars) && FieldAddress(order, vars, used, fields, access, offset, base).Ok?
    ensures Accounted(FieldAddress(order, vars, used, fields, access, offset, base).value.code, 0)
    ensures !StackReg(FieldAddress(order, vars, used, fields, access, offset, base).value.loc)
    decreases access
  {
    hide IndexArr, Accounted;
    var found := Layout.Find(fields, access.name).value;
    match access
    case Whole(_) => Nothing();
    case Element(_, index) =>
      var size := Layout.Size(if found.shape.Array? then found.shape.elem else found.shape);
      IndexAccounted(order, vars, used, NumberedOffset(offset - found.before, base), index, size);
      IndexLoc(order, vars, used, NumberedOffset(offset - found.before, base), index, size);
    case Inner(_, rest, inner) => FieldAccounted(order, vars, used, inner, rest, offset - found.before, base);
  }

  lemma IndexLoc(order: Order, vars: map<Ident, Location>, used: set<Register>, arr: Location, index: Expr, eleSize: nat)
    requires IndexArr(order, vars, used, arr, index, eleSize).Ok?
    ensures !StackReg(IndexArr(order, vars, used, arr, index, eleSize).value.loc)
  {
    hide BuildValue, FreeReg;
  }

  lemma ThroughAccounted(order: Order, frame: Frame, target: Built, rval: Expr)
    requires Located(frame.vars) && Accounted(target.code, 0) && !StackReg(target.loc)
    requires StoreThrough(order, frame, target, rval).Ok?
    ensures Accounted(StoreThrough(order, frame, target, rval).value.code, 0)
    ensures var next := StoreThrough(order, frame, target, rval).value.frame; next == frame.(used := next.used)
  {
    hide BuildValue, Accounted, FreeReg;
    var built := BuildValue(order, frame.vars, target.used, rval, Yes).value;
    var next := frame.(used := built.used);
    ExprAccounted(order, frame.vars, target.used, rval, Yes);
    var store := if target.loc.RegLoc? then StoreElement(order, next, target.loc.reg, built.loc)
                 else StoreTo(order, next, target.loc, built.loc);
    if target.loc.RegLoc? {
      ElementAccounted(order, next, target.loc.reg, built.loc);
    } else {
      StoreToAccounted(order, next, target.loc, built.loc);
    }
    Both(target.code, 0, built.code, 0);
    Both(target.code + built.code, 0, store.value.code, 0);
  }

  // ---------- statements ----------

  /** What the generator does with its frame while it emits a statement's code: both counters count `bytes` more. */
  ghost predicate Grown(frame: Frame, next: Frame, bytes: nat) {
    && Located(next.vars) && next.currentStack == frame.currentStack + bytes
    && next.totalStack == frame.totalStack + bytes
  }

  /** Each parameter is pushed and counted with 8 bytes. */
  lemma {:induction false} ParamsAccounted(frame: Frame, params: seq<Param>, i: nat)
    requires i <= |params| && Located(frame.vars) && ParamsCode(frame, params, i).Ok?
    ensures var built := ParamsCode(frame, params, i).value;
            Accounted(built.code, 8 * (|params| - i)) && Grown(frame, built.frame, 8 * (|params| - i))
    decreases |params| - i
  {
    hide Accounted;
    if i == |params| {
      Nothing();
    } else {
      var top := frame.currentStack + SCALAR_SIZE;
      var next := frame.(currentStack := top, totalStack := frame.totalStack + SCALAR_SIZE,
                         vars := frame.vars[params[i].ident := NumberedOffset(top, RBP)]);
      ParamsAccounted(next, params, i + 1);
      One(Push(RegLoc(ARG_REGS[i]), 8));
      Both([Push(RegLoc(ARG_REGS[i]), 8)], 8, ParamsCode(next, params, i + 1).value.code, 8 * (|params| - i - 1));
    }
  }

  lemma AssignAccounted(order: Order, frame: Frame, x: Ident, e: Expr, isLet: bool)
    requires Located(frame.vars) && AssignCode(order, frame, x, e, isLet).Ok?
    ensures var bytes := if isLet then 8 else 0;
            var built := AssignCode(order, frame, x, e, isLet).value;
            Accounted(built.code, bytes) && Grown(frame, built.frame, bytes)
  {
    hide BuildValue, Accounted, StoreTo;
    var alloc := if isLet then AllocStack(frame, x) else Emitted([], frame);
    var bytes := if isLet then 8 else 0;
    Nothing();
    One(Push(ZERO, 8));
    assert Accounted(alloc.code, bytes) && Located(alloc.frame.vars);
    var lloc := alloc.frame.vars[x];
    var built := BuildValue(order, alloc.frame.vars, alloc.frame.used, e, Yes).value;
    var store := StoreTo(order, alloc.frame.(used := built.used), lloc, built.loc).value;
    ExprAccounted(order, alloc.frame.vars, alloc.frame.used, e, Yes);
    StoreToAccounted(order, alloc.frame.(used := built.used), lloc, built.loc);
    StoreToFrame(order, alloc.frame.(used := built.used), lloc, built.loc);
    Both(alloc.code, bytes, built.code, 0);
    Both(alloc.code + built.code, bytes, store.code, 0);
  }

  lemma StoreToFrame(order: Order, frame: Frame, lloc: Location, rloc: Location)
    requires StoreTo(order, frame, lloc, rloc).Ok?
    ensures var next := StoreTo(order, frame, lloc, rloc).value.frame; next == frame.(used := next.used)
  {
    hide FreeReg;
  }

  lemma RetAccounted(order: Order, frame: Frame, e: Expr)
    requires Located(frame.vars) && RetCode(order, frame, e).Ok?
    ensures Accounted(RetCode(order, frame, e).value.code, 0) && Grown(frame, RetCode(order, frame, e).value.frame, 0)
  {
    hide BuildValue, Accounted;
    var built := BuildValue(order, frame.vars, frame.used, e, Yes).value;
    var move := if built.loc == RegLoc(RAX) then [] else [Mov(built.loc, RegLoc(RAX))];
    ExprAccounted(order, frame.vars, frame.used, e, Yes);
    Nothing();
    One(Mov(built.loc, RegLoc(RAX)));
    Both(built.code, 0, move, 0);
    Both(built.code + move, 0, [Leave, Return], 0);
  }

  lemma CondAccounted(order: Order, frame: Frame, cond: Expr)
    requires Located(frame.vars) && CondCode(order, frame, cond).Ok?
    ensures Accounted(CondCode(order, frame, cond).value.code, 0) && Grown(frame, CondCode(order, frame, cond).value.frame, 0)
  {
    hide BuildValue, Accounted;
    var built := BuildValue(order, frame.vars, frame.used, cond, Yes).value;
    ExprAccounted(order, frame.vars, frame.used, cond, Yes);
    One(Cmp(ONE, built.loc));
    Both(built.code, 0, [Cmp(ONE, built.loc)], 0);
  }

  lemma TestAccounted(order: Order, frame: Frame, cond: Expr, body: Label)
    requires Located(frame.vars) && LoopTest(order, frame, cond, body).Ok?
    ensures var test := LoopTest(order, frame, cond, body).value; Accounted(test.code, 0) && Grown(frame, test.frame, 0)
  {
    hide CondCode, Accounted;
    if IsConstTrue(cond) {
      One(Jmp(body));
    } else {
      CondAccounted(order, frame, cond);
      One(CondJmp(body, JmpEq));
      Both(CondCode(order, frame, cond).value.code, 0, [CondJmp(body, JmpEq)], 0);
    }
  }

  /** Declarations with and without initialisers, and stores through addresses. */
  lemma SimpleAccounted(order: Order, frame: Frame, at: nat, stmt: Stmt)
    requires Simple(stmt) && Located(frame.vars) && Bytes(stmt, false) <= WORD_MAX && StmtCode(order, frame, at, stmt).Ok?
    ensures var built := StmtCode(order, frame, at, stmt).value;
            Accounted(built.code, Bytes(stmt, true)) && Grown(frame, built.frame, Bytes(stmt, false))
  {
    hide AssignCode, RetCode, StoreLeaves, StorePayload, StoreThrough, IndexArr, FieldAddress, Accounted, PushCode, Layout.Size,
         Layout.PushBytes;
    match stmt
    case Assign(x, _, e, isLet) => AssignAccounted(order, frame, x, e, isLet);
    case Ret(e) => RetAccounted(order, frame, e);
    case Exit => Nothing();
    case Declare(_, shape) => PushAccounted(shape);
    case LetStruct(x, fields, inits) =>
      var alloc := AllocSlot(frame, x, Struct(fields));
      PushAccounted(Struct(fields));
      LeavesAccounted(order, alloc.frame, Layout.Flatten(inits), alloc.frame.currentStack);
      Both(alloc.code, Layout.PushBytes(Struct(fields)),
           StoreLeaves(order, alloc.frame, Layout.Flatten(inits), alloc.frame.currentStack).value.code, 0);
    case LetEnum(x, variants, variant, items) =>
      var alloc := AllocSlot(frame, x, Enum(variants));
      var top := alloc.frame.currentStack;
      var tag := TagStore(TagOf(variants, variant).value, top);
      PushAccounted(Enum(variants));
      PayloadAccounted(order, alloc.frame, items, top);
      One(tag);
      Both(alloc.code, Layout.PushBytes(Enum(variants)), [tag], 0);
      Both(alloc.code + [tag], Layout.PushBytes(Enum(variants)), StorePayload(order, alloc.frame, items, top).value.code, 0);
    case SetItem(x, index, rval) =>
      IndexAccounted(order, frame.vars, frame.used, frame.vars[x], index, 8);
      IndexLoc(order, frame.vars, frame.used, frame.vars[x], index, 8);
      ThroughAccounted(order, frame, IndexArr(order, frame.vars, frame.used, frame.vars[x], index, 8).value, rval);
    case SetField(x, fields, access, rval) =>
      var slot := frame.vars[x];
      FieldAccounted(order, frame.vars, frame.used, fields, access, slot.offset, slot.base);
      ThroughAccounted(order, frame, FieldAddress(order, frame.vars, frame.used, fields, access, slot.offset, slot.base).value, rval);
    case _ =>
  }

  lemma Three(a: seq<Instruction>, i: Instruction, b: seq<Instruction>, m: nat, n: nat)
    requires Accounted(a, m) && Steady(i) && !i.Leave? && Lowers(i) == 0 && Accounted(b, n)
    ensures Accounted(a + [i] + b, m + n)
  {
    hide Accounted;
    One(i);
    Both(a, m, [i], 0);
    Both(a + [i], m, b, n);
  }

  /** The generator counts every declaration, and the code makes room for each of them wherever it stands. */
  lemma {:induction false} StmtAccounted(order: Order, frame: Frame, at: nat, stmt: Stmt)
    requires Located(frame.vars) && Bytes(stmt, false) <= WORD_MAX && StmtCode(order, frame, at, stmt).Ok?
    ensures var built := StmtCode(order, frame, at, stmt).value;
            Accounted(built.code, Bytes(stmt, true)) && Grown(frame, built.frame, Bytes(stmt, false))
    decreases stmt, 0
  {
    hide Accounted, CondCode, BlockCode, LoopTest, ArmsCode;
    if Simple(stmt) {
      hide StmtCode;
      SimpleAccounted(order, frame, at, stmt);
    } else {
      match stmt
      case If(cond, blk, els) =>
        var test := CondCode(order, frame, cond).value;
        var elseAt := at + |test.code|;
        CondAccounted(order, frame, cond);
        BlockAccounted(order, test.frame, elseAt + 1, blk);
        var thn := BlockCode(order, test.frame, elseAt + 1, blk).value;
        var mergeAt := elseAt + 1 + |thn.code|;
        BlockAccounted(order, thn.frame, mergeAt + 2, els);
        var otherwise := BlockCode(order, thn.frame, mergeAt + 2, els).value;
        IfAccounted(test.code, thn.code, otherwise.code, elseAt, mergeAt, BytesIn(blk, true), BytesIn(els, true));
      case While(cond, blk) =>
        BlockAccounted(order, frame, at + 2, blk);
        var body := BlockCode(order, frame, at + 2, blk).value;
        TestAccounted(order, body.frame, cond, JmpWhile(at + 1));
        WhileAccounted(at, body.code, LoopTest(order, body.frame, cond, JmpWhile(at + 1)).value.code, BytesIn(blk, true));
      case Match(x, variants, arms) =>
        var tag, merge := frame.vars[x], MatchMerge(at);
        ArmsAccounted(order, frame, at, tag, variants, arms, merge);
        var split := ArmsCode(order, frame, at, tag, variants, arms, merge).value;
        One(LabelDef(merge));
        Both(split.chain, 0, split.blocks, BytesOfArms(arms, true));
        Both(split.chain + split.blocks, BytesOfArms(arms, true), [LabelDef(merge)], 0);
    }
  }

  lemma IfAccounted(test: seq<Instruction>, thn: seq<Instruction>, els: seq<Instruction>, elseAt: nat, mergeAt: nat,
                    m: nat, n: nat)
    requires Accounted(test, 0) && Accounted(thn, m) && Accounted(els, n)
    ensures Accounted(test + [CondJmp(JmpIf(elseAt), JmpNotEq)] + thn
                      + [Jmp(MergeIf(mergeAt)), LabelDef(JmpIf(elseAt))] + els + [LabelDef(MergeIf(mergeAt))], m + n)
  {
    hide Accounted;
    var branch, leave := CondJmp(JmpIf(elseAt), JmpNotEq), Jmp(MergeIf(mergeAt));
    var join, last := LabelDef(JmpIf(elseAt)), LabelDef(MergeIf(mergeAt));
    Three(test, branch, thn, 0, m);
    One(leave);
    One(join);
    One(last);
    Both([leave], 0, [join], 0);
    assert [leave] + [join] == [leave, join];
    Both(test + [branch] + thn, m, [leave, join], 0);
    Both(test + [branch] + thn + [leave, join], m, els, n);
    Both(test + [branch] + thn + [leave, join] + els, m + n, [last], 0);
  }

  lemma WhileAccounted(at: nat, body: seq<Instruction>, test: seq<Instruction>, n: nat)
    requires Accounted(body, n) && Accounted(test, 0)
    ensures Accounted([Jmp(UncondWhile(at)), LabelDef(JmpWhile(at + 1))] + body + [LabelDef(UncondWhile(at))] + test, n)
  {
    hide Accounted;
    var jump, start, mid := Jmp(UncondWhile(at)), LabelDef(JmpWhile(at + 1)), LabelDef(UncondWhile(at));
    One(jump);
    One(start);
    Both([jump], 0, [start], 0);
    assert [jump] + [start] == [jump, start];
    Both([jump, start], 0, body, n);
    Three([jump, start] + body, mid, test, n, 0);
  }

  lemma {:induction false} BlockAccounted(order: Order, frame: Frame, at: nat, stmts: seq<Stmt>)
    requires Located(frame.vars) && BytesIn(stmts, false) <= WORD_MAX && BlockCode(order, frame, at, stmts).Ok?
    ensures var built := BlockCode(order, frame, at, stmts).value;
            Accounted(built.code, BytesIn(stmts, true)) && Grown(frame, built.frame, BytesIn(stmts, false))
    decreases stmts, 1
  {
    hide Accounted, StmtCode, Bytes;
    if stmts == [] {
      Nothing();
    } else {
      var first := StmtCode(order, frame, at, stmts[0]).value;
      StmtAccounted(order, frame, at, stmts[0]);
      BlockAccounted(order, first.frame, at + |first.code|, stmts[1..]);
      var rest := BlockCode(order, first.frame, at + |first.code|, stmts[1..]).value;
      Both(first.code, Bytes(stmts[0], true), rest.code, BytesIn(stmts[1..], true));
    }
  }

  lemma {:induction false} BindLocated(vars: map<Ident, Location>, binds: seq<Ident>, offset: nat, base: Register)
    requires Located(vars) && Bind(vars, binds, offset, base).Ok?
    ensures Located(Bind(vars, binds, offset, base).value)
    decreases |binds|
  {
    if binds != [] {
      BindLocated(vars, binds[..|binds| - 1], offset, base);
    }
  }

  lemma {:induction false} ArmsAccounted(order: Order, frame: Frame, at: nat, tag: Location, variants: seq<Variant>,
                                         arms: seq<Arm>, merge: Label)
    requires tag.NumberedOffset? && Located(frame.vars) && BytesOfArms(arms, false) <= WORD_MAX
    requires ArmsCode(order, frame, at, tag, variants, arms, merge).Ok?
    ensures var split := ArmsCode(order, frame, at, tag, variants, arms, merge).value;
            && Accounted(split.chain, 0) && Accounted(split.blocks, BytesOfArms(arms, true))
            && Grown(frame, split.frame, BytesOfArms(arms, false))
    decreases arms, 1
  {
    hide Accounted, ArmCode, ArmsCode, BytesIn;
    if arms == [] {
      NoArms(order, frame, at, tag, variants, merge);
      Nothing();
    } else {
      assert arms decreases to arms[0];
      ArmsParts(order, frame, at, tag, variants, arms, merge);
      OneArmAccounted(order, frame, at, tag, variants, arms[0], merge);
      var first := ArmCode(order, frame, at, tag, variants, arms[0], merge).value;
      ArmsAccounted(order, first.frame, at + |first.chain|, tag, variants, arms[1..], merge);
      var rest := ArmsCode(order, first.frame, at + |first.chain|, tag, variants, arms[1..], merge).value;
      Both(first.chain, 0, rest.chain, 0);
      Both(first.blocks, BytesIn(arms[0].body, true), rest.blocks, BytesOfArms(arms[1..], true));
    }
  }

  lemma NoArms(order: Order, frame: Frame, at: nat, tag: Location, variants: seq<Variant>, merge: Label)
    requires tag.NumberedOffset?
    ensures ArmsCode(order, frame, at, tag, variants, [], merge) == Ok(Split([], [], frame))
  {
  }

  lemma {:induction false} OneArmAccounted(order: Order, frame: Frame, at: nat, tag: Location, variants: seq<Variant>,
                                           arm: Arm, merge: Label)
    requires tag.NumberedOffset? && Located(frame.vars) && BytesIn(arm.body, false) <= WORD_MAX
    requires ArmCode(order, frame, at, tag, variants, arm, merge).Ok?
    ensures var split := ArmCode(order, frame, at, tag, variants, arm, merge).value;
            && Accounted(split.chain, 0) && Accounted(split.blocks, BytesIn(arm.body, true))
            && Grown(frame, split.frame, BytesIn(arm.body, false))
    decreases arm, 2
  {
    hide Accounted, BlockCode, Bind, BytesIn;
    var bound := frame.(vars := Bind(frame.vars, arm.binds, tag.offset, tag.base).value);
    BindLocated(frame.vars, arm.binds, tag.offset, tag.base);
    BlockAccounted(order, bound, 1, arm.body);
    var body := BlockCode(order, bound, 1, arm.body).value;
    ArmAccounted(arm.variant, tag, MatchArm(at, arm.variant), body.code, merge, BytesIn(arm.body, true));
  }

  lemma ArmAccounted(variant: nat, tag: Location, lbl: Label, body: seq<Instruction>, merge: Label, n: nat)
    requires Accounted(body, n)
    ensures Accounted(Test(variant, tag, lbl), 0) && Accounted(Block(lbl, body, merge), n)
  {
    hide Accounted;
    var cmp, jump := Cmp(Const(IntVal(Wrap(variant))), tag), CondJmp(lbl, JmpEq);
    One(cmp);
    One(jump);
    Both([cmp], 0, [jump], 0);
    assert [cmp] + [jump] == [cmp, jump];
    One(LabelDef(lbl));
    One(Jmp(merge));
    Both([LabelDef(lbl)], 0, body, n);
    Both([LabelDef(lbl)] + body, n, [Jmp(merge)], 0);
  }
}
