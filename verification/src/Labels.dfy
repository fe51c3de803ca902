/** Labels and jumps of pieces of code: when pieces can be put together, and which code has neither. */
module Labels {
  import opened Words
  import opened Lir
  import opened Machine
  import opened AsmSpec
  import Layout

  function LabelsOf(code: seq<Instruction>): set<Label> {
    set i | 0 <= i < |code| && code[i].LabelDef? :: code[i].lbl
  }

  /** All jumps of the code go to labels of the code. */
  ghost predicate JumpsInside(code: seq<Instruction>, labels: set<Label>) {
    forall i :: 0 <= i < |code| ==>
                  (code[i].Jmp? ==> code[i].target in labels) && (code[i].CondJmp? ==> code[i].target in labels)
  }

  /** Neither a label nor a jump. */
  predicate Plain(inst: Instruction) {
    !inst.LabelDef? && !inst.Jmp? && !inst.CondJmp?
  }

  ghost predicate PlainCode(code: seq<Instruction>) {
    forall i :: 0 <= i < |code| ==> Plain(code[i])
  }

  /** The label was numbered by a buffer length between `lo` and `hi`. */
  predicate Numbered(lbl: Label, lo: nat, hi: nat) {
    !lbl.FuncLabel? && lo <= lbl.at < hi
  }

  /** Sound code for the buffer positions `lo` to `hi`: unique labels, numbered by
      positions of that range, and jumps that stay inside. */
  ghost predicate Sound(code: seq<Instruction>, lo: nat, hi: nat) {
    && UniqueLabels(code)
    && (forall lbl :: lbl in LabelsOf(code) ==> Numbered(lbl, lo, hi))
    && JumpsInside(code, LabelsOf(code))
  }

  lemma LabelsOfAppend(a: seq<Instruction>, b: seq<Instruction>)
    ensures LabelsOf(a + b) == LabelsOf(a) + LabelsOf(b)
  {
    forall lbl | lbl in LabelsOf(a) + LabelsOf(b) ensures lbl in LabelsOf(a + b) {
      if lbl in LabelsOf(a) {
        var i :| 0 <= i < |a| && a[i].LabelDef? && a[i].lbl == lbl;
        assert (a + b)[i] == a[i];
      } else {
        var i :| 0 <= i < |b| && b[i].LabelDef? && b[i].lbl == lbl;
        assert (a + b)[|a| + i] == b[i];
      }
    }
  }

  /** Pieces with different labels can be put together. */
  lemma UniqueAppend(a: seq<Instruction>, b: seq<Instruction>)
    requires UniqueLabels(a) && UniqueLabels(b) && LabelsOf(a) !! LabelsOf(b)
    ensures UniqueLabels(a + b) && LabelsOf(a + b) == LabelsOf(a) + LabelsOf(b)
  {
    LabelsOfAppend(a, b);
    var c := a + b;
    forall i, j | 0 <= i < j < |c| && c[i].LabelDef? && c[j].LabelDef? ensures c[i].lbl != c[j].lbl {
      if i < |a| {
        assert c[i].lbl in LabelsOf(a);
      }
      if j >= |a| {
        assert c[j].lbl == b[j - |a|].lbl;
        assert c[j].lbl in LabelsOf(b);
      }
    }
  }

  lemma JumpsAppend(a: seq<Instruction>, b: seq<Instruction>, labels: set<Label>)
    requires JumpsInside(a, labels) && JumpsInside(b, labels)
    ensures JumpsInside(a + b, labels)
  {
  }

  lemma PlainHasNoLabels(code: seq<Instruction>)
    requires PlainCode(code)
    ensures LabelsOf(code) == {} && UniqueLabels(code)
  {
  }

  lemma SoundAppend(a: seq<Instruction>, b: seq<Instruction>, lo: nat, mid: nat, hi: nat)
    requires lo <= mid <= hi && Sound(a, lo, mid) && Sound(b, mid, hi)
    ensures Sound(a + b, lo, hi)
  {
    UniqueAppend(a, b);
    JumpsAppend(a, b, LabelsOf(a + b));
  }

  lemma PlainIsSound(code: seq<Instruction>, lo: nat, hi: nat)
    requires PlainCode(code)
    ensures Sound(code, lo, hi)
  {
    PlainHasNoLabels(code);
  }

  lemma LabelsOfOne(lbl: Label)
    ensures LabelsOf([LabelDef(lbl)]) == {lbl}
  {
    assert [LabelDef(lbl)][0].lbl == lbl;
  }

  // ---------- expressions and simple statements have no labels ----------

  lemma {:induction false} BuildValuePlain(order: Order, vars: map<Ident, Location>, used: set<Register>, e: Expr,
                                           canClear: CanClearRegs)
    requires BuildValue(order, vars, used, e, canClear).Ok?
    ensures PlainCode(BuildValue(order, vars, used, e, canClear).value.code)
    decreases e
  {
    match e
    case Var(_, _) =>
    case Unary(op, inner, t) =>
      BuildValuePlain(order, vars, used, inner, canClear);
    case Binary(op, l, r, t) =>
      var left := BuildValue(order, vars, used, l, No).value;
      BuildValuePlain(order, vars, used, l, No);
      BuildValuePlain(order, vars, left.used, r, No);
      var right := BuildValue(order, vars, left.used, r, No).value;
      CombinePlain(order, right.used, left.loc, right.loc, op, canClear);
    case Parens(inner) => BuildValuePlain(order, vars, used, inner, canClear);
    case Value(_) =>
  }

  lemma CombinePlain(order: Order, used: set<Register>, lloc: Location, rloc: Location, op: BinOp, canClear: CanClearRegs)
    requires Combine(order, used, lloc, rloc, op, canClear).Ok?
    ensures PlainCode(Combine(order, used, lloc, rloc, op, canClear).value.code)
  {
    hide FreeReg, ClearRegsExcept, OrderOperands, LoadRight, Operate;
    var o := OrderOperands(order, used, lloc, rloc, op).value;
    var l := LoadRight(order, o.used, o.right).value;
    OrderPlain(order, used, lloc, rloc, op);
    LoadPlain(order, o.used, o.right);
    OperatePlain(order, l.used, o.left, l.loc, op);
  }

  lemma OrderPlain(order: Order, used: set<Register>, lloc: Location, rloc: Location, op: BinOp)
    requires OrderOperands(order, used, lloc, rloc, op).Ok?
    ensures PlainCode(OrderOperands(order, used, lloc, rloc, op).value.code)
  {
    hide FreeReg;
  }

  lemma LoadPlain(order: Order, used: set<Register>, right: Location)
    requires LoadRight(order, used, right).Ok?
    ensures PlainCode(LoadRight(order, used, right).value.code)
  {
    hide FreeReg;
  }

  lemma OperatePlain(order: Order, used: set<Register>, left: Location, right: Location, op: BinOp)
    requires Operate(order, used, left, right, op).Ok?
    ensures PlainCode(Operate(order, used, left, right, op).value.code)
  {
    hide FreeReg;
  }

  lemma CondPlain(order: Order, frame: Frame, cond: Expr)
    requires CondCode(order, frame, cond).Ok?
    ensures PlainCode(CondCode(order, frame, cond).value.code)
  {
    BuildValuePlain(order, frame.vars, frame.used, cond, Yes);
  }

  lemma LeavePlain()
    ensures PlainCode([Leave, Return]) && PlainCode([])
  {
  }

  lemma RetPlain(order: Order, frame: Frame, e: Expr)
    requires RetCode(order, frame, e).Ok?
    ensures PlainCode(RetCode(order, frame, e).value.code)
  {
    BuildValuePlain(order, frame.vars, frame.used, e, Yes);
  }

  lemma AssignPlain(order: Order, frame: Frame, x: Ident, e: Expr, isLet: bool)
    requires AssignCode(order, frame, x, e, isLet).Ok?
    ensures PlainCode(AssignCode(order, frame, x, e, isLet).value.code)
  {
    var alloc := if isLet then AllocStack(frame, x) else Emitted([], frame);
    BuildValuePlain(order, alloc.frame.vars, alloc.frame.used, e, Yes);
  }

  lemma NoLabel(inst: Instruction)
    requires !inst.LabelDef?
    ensures LabelsOf([inst]) == {} && UniqueLabels([inst])
  {
  }

  lemma TwoInstructions(inst: Instruction, lbl: Label)
    requires !inst.LabelDef?
    ensures LabelsOf([inst, LabelDef(lbl)]) == {lbl} && UniqueLabels([inst, LabelDef(lbl)])
  {
    assert [inst, LabelDef(lbl)][1].lbl == lbl;
  }

  // ---------- declarations and stores have no labels ----------

  lemma {:induction false} PushPlain(shape: Shape)
    ensures PlainCode(PushCode(shape))
    decreases shape
  {
    if shape.Struct? {
      PushFieldsPlain(shape.fields);
    }
  }

  lemma {:induction false} PushFieldsPlain(fields: seq<Field>)
    ensures PlainCode(PushFields(fields))
    decreases fields
  {
    if fields != [] {
      assert fields decreases to fields[0];
      PushPlain(fields[0].shape);
      PushFieldsPlain(fields[1..]);
    }
  }

  lemma {:induction false} LeavesPlain(order: Order, frame: Frame, leaves: seq<Expr>, offset: nat)
    requires StoreLeaves(order, frame, leaves, offset).Ok?
    ensures PlainCode(StoreLeaves(order, frame, leaves, offset).value.code)
    decreases |leaves|
  {
    hide BuildValue, FreeReg;
    if leaves != [] {
      var built := BuildValue(order, frame.vars, frame.used, leaves[0], Yes).value;
      BuildValuePlain(order, frame.vars, frame.used, leaves[0], Yes);
      LeavesPlain(order, frame.(used := built.used), leaves[1..], offset - 8);
    }
  }

  lemma {:induction false} PayloadPlain(order: Order, frame: Frame, items: seq<PayloadItem>, offset: nat)
    requires StorePayload(order, frame, items, offset).Ok?
    ensures PlainCode(StorePayload(order, frame, items, offset).value.code)
    decreases |items|
  {
    hide BuildValue, ItemSize;
    if items != [] {
      var built := BuildItem(order, frame, items[0]).value;
      if items[0].Single? {
        BuildValuePlain(order, frame.vars, frame.used, items[0].value, Yes);
      }
      PayloadPlain(order, frame.(used := built.used), items[1..], offset - ItemSize(items[0]));
    }
  }

  lemma IndexPlain(order: Order, vars: map<Ident, Location>, used: set<Register>, arr: Location, index: Expr, eleSize: nat)
    requires IndexArr(order, vars, used, arr, index, eleSize).Ok?
    ensures PlainCode(IndexArr(order, vars, used, arr, index, eleSize).value.code)
  {
    hide BuildValue, FreeReg;
    if !(index.Value? && index.val.IntVal?) {
      BuildValuePlain(order, vars, used, index, No);
    }
  }

  lemma {:induction false} FieldPlain(order: Order, vars: map<Ident, Location>, used: set<Register>, fields: seq<Field>,
                                      access: Access, offset: nat, base: Register)
    requires FieldAddress(order, vars, used, fields, access, offset, base).Ok?
    ensures PlainCode(FieldAddress(order, vars, used, fields, access, offset, base).value.code)
    decreases access
  {
    hide IndexArr;
    var found := Layout.Find(fields, access.name).value;
    match access
    case Whole(_) =>
    case Element(_, index) =>
      var shape := found.shape;
      IndexPlain(order, vars, used, NumberedOffset(offset - found.before, base), index,
                 Layout.Size(if shape.Array? then shape.elem else shape));
    case Inner(_, rest, inner) => FieldPlain(order, vars, used, inner, rest, offset - found.before, base);
  }

  lemma StorePlain(order: Order, frame: Frame, target: Built, rval: Expr)
    requires PlainCode(target.code) && StoreThrough(order, frame, target, rval).Ok?
    ensures PlainCode(StoreThrough(order, frame, target, rval).value.code)
  {
    hide BuildValue, FreeReg;
    BuildValuePlain(order, frame.vars, target.used, rval, Yes);
  }

  // ---------- simple statements ----------

  /** Neither a conditional nor a loop nor a `match`. */
  predicate Simple(s: Stmt) {
    !s.If? && !s.While? && !s.Match?
  }

  predicate Straight(stmts: seq<Stmt>) {
    forall i :: 0 <= i < |stmts| ==> Simple(stmts[i])
  }

  lemma SimplePlain(order: Order, frame: Frame, at: nat, stmt: Stmt)
    requires Simple(stmt) && StmtCode(order, frame, at, stmt).Ok?
    ensures PlainCode(StmtCode(order, frame, at, stmt).value.code)
  {
    hide AssignCode, RetCode, StoreLeaves, StorePayload, StoreThrough, IndexArr, FieldAddress;
    match stmt
    case Assign(x, _, e, isLet) => AssignPlain(order, frame, x, e, isLet);
    case Ret(e) => RetPlain(order, frame, e);
    case Exit => LeavePlain();
    case Declare(_, shape) => PushPlain(shape);
    case LetStruct(x, fields, inits) =>
      var alloc := AllocSlot(frame, x, Struct(fields));
      PushPlain(Struct(fields));
      LeavesPlain(order, alloc.frame, Layout.Flatten(inits), alloc.frame.currentStack);
    case LetEnum(x, variants, _, items) =>
      var alloc := AllocSlot(frame, x, Enum(variants));
      PushPlain(Enum(variants));
      PayloadPlain(order, alloc.frame, items, alloc.frame.currentStack);
    case SetItem(x, index, rval) =>
      IndexPlain(order, frame.vars, frame.used, frame.vars[x], index, 8);
      StorePlain(order, frame, IndexArr(order, frame.vars, frame.used, frame.vars[x], index, 8).value, rval);
    case SetField(x, fields, access, rval) =>
      var slot := frame.vars[x];
      FieldPlain(order, frame.vars, frame.used, fields, access, slot.offset, slot.base);
      StorePlain(order, frame, FieldAddress(order, frame.vars, frame.used, fields, access, slot.offset, slot.base).value, rval);
    case _ =>
  }

  lemma {:induction false} StraightPlain(order: Order, frame: Frame, at: nat, stmts: seq<Stmt>)
    requires Straight(stmts) && BlockCode(order, frame, at, stmts).Ok?
    ensures PlainCode(BlockCode(order, frame, at, stmts).value.code)
    decreases |stmts|
  {
    hide StmtCode;
    if stmts != [] {
      var first := StmtCode(order, frame, at, stmts[0]).value;
      SimplePlain(order, frame, at, stmts[0]);
      StraightPlain(order, first.frame, at + |first.code|, stmts[1..]);
    }
  }
}
