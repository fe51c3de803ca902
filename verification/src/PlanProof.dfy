/** The plan of a statement is what the generator does: its code is as long as planned, defines the labels
    planned and leaves the scope planned, for every order of the registers and any of them in use. */
module PlanProof {
  import opened Lir
  import opened Machine
  import opened AsmSpec
  import opened Labels
  import opened UsedRegs
  import opened Writes
  import opened CodePlan
  import Layout

  // ---------- a new register for every result ----------

  /** The value is in none of these registers, and they are still in use. */
  ghost predicate Fresh(b: Built, held: set<Register>) {
    held <= b.used && (b.loc.RegLoc? ==> b.loc.reg !in held)
  }

  lemma OrderFresh(order: Order, used: set<Register>, lloc: Location, rloc: Location, op: BinOp, held: set<Register>)
    requires held <= used && (lloc.RegLoc? ==> lloc.reg !in held) && (rloc.RegLoc? ==> rloc.reg !in held)
    requires OrderOperands(order, used, lloc, rloc, op).Ok?
    ensures var o := OrderOperands(order, used, lloc, rloc, op).value;
            held <= o.used && (o.right.RegLoc? ==> o.right.reg !in held)
  {
    FreeIsNewer(order, used, held);
    hide FreeReg;
  }

  lemma FreeIsNewer(order: Order, used: set<Register>, held: set<Register>)
    requires held <= used
    ensures FreeReg(order, used).Ok? ==> FreeReg(order, used).value !in held
  {
  }

  lemma OperateFresh(order: Order, used: set<Register>, left: Location, right: Location, op: BinOp, held: set<Register>)
    requires held <= used && (right.RegLoc? ==> right.reg !in held) && Operate(order, used, left, right, op).Ok?
    ensures Fresh(Operate(order, used, left, right, op).value, held)
  {
    FreeIsNewer(order, used, held);
    hide FreeReg, SetOnFlag, FlagOf;
  }

  lemma CombineFresh(order: Order, used: set<Register>, lloc: Location, rloc: Location, op: BinOp, held: set<Register>)
    requires held <= used && (lloc.RegLoc? ==> lloc.reg !in held) && (rloc.RegLoc? ==> rloc.reg !in held)
    requires Combine(order, used, lloc, rloc, op, No).Ok?
    ensures Fresh(Combine(order, used, lloc, rloc, op, No).value, held)
  {
    hide FreeReg, OrderOperands, LoadRight, Operate;
    var o := OrderOperands(order, used, lloc, rloc, op).value;
    OrderFresh(order, used, lloc, rloc, op, held);
    var b := LoadRight(order, o.used, o.right).value;
    LoadFresh(order, o.used, o.right, held);
    OperateFresh(order, b.used, o.left, b.loc, op, held);
    FreeIsNewer(order, Operate(order, b.used, o.left, b.loc, op).value.used, held);
  }

  lemma LoadFresh(order: Order, used: set<Register>, right: Location, held: set<Register>)
    requires held <= used && (right.RegLoc? ==> right.reg !in held) && LoadRight(order, used, right).Ok?
    ensures Fresh(LoadRight(order, used, right).value, held)
  {
    FreeIsNewer(order, used, held);
    hide FreeReg;
  }

  lemma NegateFresh(order: Order, used: set<Register>, operand: Location, op: UnOp, ty: Ty, held: set<Register>)
    requires held <= used && Negate(order, used, operand, op, ty).Ok?
    ensures Fresh(Negate(order, used, operand, op, ty).value, held)
  {
    hide FreeReg, SetOnFlag;
    var reg := FreeReg(order, used).value;
    FreeIsNewer(order, used + {reg}, held);
  }

  /** Without permission to give registers back the result is in a register that was not in use. */
  lemma {:induction false} ResultFresh(order: Order, vars: map<Ident, Location>, used: set<Register>, e: Expr)
    requires Located(vars) && BuildValue(order, vars, used, e, No).Ok?
    ensures Fresh(BuildValue(order, vars, used, e, No).value, used)
    decreases e
  {
    hide Combine, Negate;
    match e
    case Parens(inner) => ResultFresh(order, vars, used, inner);
    case Unary(op, inner, t) =>
      ResultFresh(order, vars, used, inner);
      var operand := BuildValue(order, vars, used, inner, No).value;
      NegateFresh(order, operand.used, operand.loc, op, t, used);
    case Binary(op, l, r, _) =>
      ResultFresh(order, vars, used, l);
      var left := BuildValue(order, vars, used, l, No).value;
      ResultFresh(order, vars, left.used, r);
      var right := BuildValue(order, vars, left.used, r, No).value;
      CombineFresh(order, right.used, left.loc, right.loc, op, used);
    case _ =>
  }

  /** A value whose code does not overwrite registers in use is not in the register of the address. */
  lemma NotOverwritten(order: Order, vars: map<Ident, Location>, used: set<Register>, e: Expr, reg: Register)
    requires Located(vars) && BuildValue(order, vars, used, e, Yes).Ok? && !Clobbers(e) && reg in used
    ensures BuildValue(order, vars, used, e, Yes).value.loc != RegLoc(reg)
  {
    hide BuildValue, Clobbers;
    SameCode(order, vars, used, e);
    ResultFresh(order, vars, used, e);
  }

  // ---------- parts of simple statements ----------

  lemma {:induction false} PushPlanned(shape: Shape)
    ensures |PushCode(shape)| == PushLength(shape)
    decreases shape
  {
    if shape.Struct? {
      PushFieldsPlanned(shape.fields);
    }
  }

  lemma {:induction false} PushFieldsPlanned(fields: seq<Field>)
    ensures |PushFields(fields)| == PushFieldsLength(fields)
    decreases fields
  {
    if fields != [] {
      assert fields decreases to fields[0];
      PushPlanned(fields[0].shape);
      PushFieldsPlanned(fields[1..]);
    }
  }

  lemma StorePlanned(order: Order, frame: Frame, to: Location, from: Location, expected: Option<Location>)
    requires (to.NumberedOffset? || to.LabelLoc?) && Found(from, expected) && StoreTo(order, frame, to, from).Ok?
    ensures var b := StoreTo(order, frame, to, from).value;
            |b.code| == StoreLength(to, expected) && b.frame == frame.(used := b.frame.used)
  {
    hide FreeReg;
  }

  lemma {:induction false} LeavesPlanned(order: Order, frame: Frame, leaves: seq<Expr>, offset: nat)
    requires Located(frame.vars) && StoreLeaves(order, frame, leaves, offset).Ok?
    ensures var b := StoreLeaves(order, frame, leaves, offset).value;
            |b.code| == LeavesLength(leaves, frame.vars) && b.frame == frame.(used := b.frame.used)
    decreases |leaves|
  {
    hide BuildValue, FreeReg;
    if leaves != [] {
      var built := BuildValue(order, frame.vars, frame.used, leaves[0], Yes).value;
      ExprPlanned(order, frame.vars, frame.used, leaves[0], Yes);
      LeavesPlanned(order, frame.(used := built.used), leaves[1..], offset - 8);
    }
  }

  lemma {:induction false} ItemsPlanned(order: Order, frame: Frame, items: seq<PayloadItem>, offset: nat)
    requires Located(frame.vars) && StorePayload(order, frame, items, offset).Ok?
    ensures var b := StorePayload(order, frame, items, offset).value;
            |b.code| == ItemsLength(items, frame.vars) && b.frame == frame.(used := b.frame.used)
    decreases |items|
  {
    hide BuildValue, ItemSize;
    if items != [] {
      var built := BuildItem(order, frame, items[0]).value;
      if items[0].Single? {
        ExprPlanned(order, frame.vars, frame.used, items[0].value, Yes);
      }
      ItemsPlanned(order, frame.(used := built.used), items[1..], offset - ItemSize(items[0]));
    }
  }

  lemma IndexPlanned(order: Order, vars: map<Ident, Location>, used: set<Register>, arr: Location, index: Expr, eleSize: nat)
    requires Located(vars) && IndexArr(order, vars, used, arr, index, eleSize).Ok?
    ensures var b := IndexArr(order, vars, used, arr, index, eleSize).value;
            |b.code| == IndexLength(index, vars) && b.loc.RegLoc? && b.loc.reg in b.used
  {
    hide BuildValue, FreeReg;
    if !(index.Value? && index.val.IntVal?) {
      ExprPlanned(order, vars, used, index, No);
    }
  }

  lemma {:induction false} FieldPlanned(order: Order, vars: map<Ident, Location>, used: set<Register>, fields: seq<Field>,
                                        access: Access, offset: nat, base: Register)
    requires Located(vars) && FieldAddress(order, vars, used, fields, access, offset, base).Ok?
    ensures var b := FieldAddress(order, vars, used, fields, access, offset, base).value;
            && |b.code| == FieldLength(access, vars)
            && (if access.EndsInElement() then b.loc.RegLoc? && b.loc.reg in b.used && FieldPlace(fields, access, offset, base) == None
                else b.loc.NumberedOffset? && FieldPlace(fields, access, offset, base) == Some(b.loc))
    decreases access
  {
    hide IndexArr, IndexLength;
    var found := Layout.Find(fields, access.name).value;
    match access
    case Whole(_) =>
    case Element(_, index) =>
      var shape := found.shape;
      IndexPlanned(order, vars, used, NumberedOffset(offset - found.before, base), index,
                   Layout.Size(if shape.Array? then shape.elem else shape));
    case Inner(_, rest, inner) => FieldPlanned(order, vars, used, inner, rest, offset - found.before, base);
  }

  /** The length of a store through a computed address. */
  lemma ThroughPlanned(order: Order, frame: Frame, target: Built, rval: Expr, place: Option<Location>)
    requires Located(frame.vars) && StoreThrough(order, frame, target, rval).Ok?
    requires if place.None? then target.loc.RegLoc? && target.loc.reg in target.used
             else target.loc.NumberedOffset? && place == Some(target.loc)
    ensures var b := StoreThrough(order, frame, target, rval).value;
            var omitted := place.None? && Clobbers(rval) && Overwritten(order, frame, Ok(target), rval);
            && |b.code| == |target.code| + ExprLength(rval, frame.vars)
                           + (if omitted then 0 else if place.None? then MoveLength(Fixed(rval, frame.vars))
                              else StoreLength(place.value, Fixed(rval, frame.vars)))
            && b.frame == frame.(used := b.frame.used)
  {
    hide BuildValue, FreeReg, ExprLength, Clobbers;
    ExprPlanned(order, frame.vars, target.used, rval, Yes);
    var built := BuildValue(order, frame.vars, target.used, rval, Yes).value;
    var next := frame.(used := built.used);
    if place.None? {
      if !Clobbers(rval) {
        NotOverwritten(order, frame.vars, target.used, rval, target.loc.reg);
      }
    } else {
      hide StoreTo;
      StorePlanned(order, next, target.loc, built.loc, Fixed(rval, frame.vars));
    }
  }

  // ---------- simple statements ----------

  /** A statement without labels does what is planned. */
  ghost predicate SimplyPlanned(order: Order, frame: Frame, s: Stmt, b: Emitted) {
    && |b.code| == SimpleLength(s, ScopeOf(frame), Omitted(order, frame, s))
    && ScopeOf(b.frame) == ScopeAfter(s, ScopeOf(frame)) && Located(b.frame.vars)
  }

  lemma AssignPlanned(order: Order, frame: Frame, s: Stmt)
    requires Located(frame.vars) && s.Assign? && AssignCode(order, frame, s.ident, s.rval, s.isLet).Ok?
    ensures SimplyPlanned(order, frame, s, AssignCode(order, frame, s.ident, s.rval, s.isLet).value)
  {
    hide BuildValue, StoreTo, ExprLength, StoreLength;
    var alloc := if s.isLet then AllocStack(frame, s.ident) else Emitted([], frame);
    var built := BuildValue(order, alloc.frame.vars, alloc.frame.used, s.rval, Yes).value;
    ExprPlanned(order, alloc.frame.vars, alloc.frame.used, s.rval, Yes);
    StorePlanned(order, alloc.frame.(used := built.used), alloc.frame.vars[s.ident], built.loc, Fixed(s.rval, alloc.frame.vars));
  }

  lemma RetPlanned(order: Order, frame: Frame, s: Stmt)
    requires Located(frame.vars) && s.Ret? && RetCode(order, frame, s.expr).Ok?
    ensures SimplyPlanned(order, frame, s, RetCode(order, frame, s.expr).value)
  {
    hide BuildValue, ExprLength;
    ExprPlanned(order, frame.vars, frame.used, s.expr, Yes);
    NamesAreBound(order, frame, s.expr);
    ComputedOrFixed(s.expr, frame.vars);
  }

  lemma {:induction false} ComputedOrFixed(e: Expr, vars: map<Ident, Location>)
    ensures Computed(e) ==> Fixed(e, vars).None?
    ensures !Computed(e) && Fixed(e, vars).None? ==> Named(e) !in vars
  {
    if e.Parens? {
      ComputedOrFixed(e.expr, vars);
    }
  }

  /** The variable that an expression is, in parentheses. */
  function Named(e: Expr): Ident {
    match e
    case Var(x, _) => x
    case Parens(inner) => Named(inner)
    case _ => 0
  }

  lemma {:induction false} NamesAreBound(order: Order, frame: Frame, e: Expr)
    requires BuildValue(order, frame.vars, frame.used, e, Yes).Ok?
    ensures !Computed(e) && Fixed(e, frame.vars).None? ==> Named(e) in frame.vars
    decreases e
  {
    if e.Parens? {
      NamesAreBound(order, frame, e.expr);
    }
  }

  lemma StructPlanned(order: Order, frame: Frame, s: Stmt)
    requires Located(frame.vars) && s.LetStruct? && LetStructCode(order, frame, s.ident, s.fields, s.inits).Ok?
    ensures SimplyPlanned(order, frame, s, LetStructCode(order, frame, s.ident, s.fields, s.inits).value)
  {
    hide StoreLeaves, LeavesLength, PushCode, PushLength, Layout.Flatten;
    PushPlanned(Struct(s.fields));
    var alloc := AllocSlot(frame, s.ident, Struct(s.fields));
    LeavesPlanned(order, alloc.frame, Layout.Flatten(s.inits), alloc.frame.currentStack);
  }

  lemma EnumPlanned(order: Order, frame: Frame, s: Stmt)
    requires Located(frame.vars) && s.LetEnum? && LetEnumCode(order, frame, s.ident, s.variants, s.variant, s.items).Ok?
    ensures SimplyPlanned(order, frame, s, LetEnumCode(order, frame, s.ident, s.variants, s.variant, s.items).value)
  {
    hide StorePayload, ItemsLength;
    var alloc := AllocSlot(frame, s.ident, Enum(s.variants));
    ItemsPlanned(order, alloc.frame, s.items, alloc.frame.currentStack);
  }

  lemma SetItemPlanned(order: Order, frame: Frame, s: Stmt)
    requires Located(frame.vars) && s.SetItem? && SetItemCode(order, frame, s.ident, s.index, s.rval).Ok?
    ensures SimplyPlanned(order, frame, s, SetItemCode(order, frame, s.ident, s.index, s.rval).value)
  {
    hide BuildValue, IndexArr, IndexLength, StoreThrough, ExprLength, Overwritten, Clobbers, MoveLength;
    var target := IndexArr(order, frame.vars, frame.used, frame.vars[s.ident], s.index, 8).value;
    IndexPlanned(order, frame.vars, frame.used, frame.vars[s.ident], s.index, 8);
    ThroughPlanned(order, frame, target, s.rval, None);
  }

  lemma SetFieldPlanned(order: Order, frame: Frame, s: Stmt)
    requires Located(frame.vars) && s.SetField? && SetFieldCode(order, frame, s.ident, s.fields, s.access, s.rval).Ok?
    ensures SimplyPlanned(order, frame, s, SetFieldCode(order, frame, s.ident, s.fields, s.access, s.rval).value)
  {
    hide BuildValue, FieldAddress, FieldPlace, FieldLength, StoreThrough, ExprLength, Overwritten, Clobbers, MoveLength, StoreLength;
    var slot := frame.vars[s.ident];
    var target := FieldAddress(order, frame.vars, frame.used, s.fields, s.access, slot.offset, slot.base).value;
    FieldPlanned(order, frame.vars, frame.used, s.fields, s.access, slot.offset, slot.base);
    ThroughPlanned(order, frame, target, s.rval, FieldPlace(s.fields, s.access, slot.offset, slot.base));
  }

  lemma SimplePlanned(order: Order, frame: Frame, at: nat, s: Stmt)
    requires Located(frame.vars) && Simple(s) && StmtCode(order, frame, at, s).Ok?
    ensures SimplyPlanned(order, frame, s, StmtCode(order, frame, at, s).value)
  {
    hide AssignCode, RetCode, LetStructCode, LetEnumCode, SetItemCode, SetFieldCode, SimplyPlanned;
    match s
    case Assign(_, _, _, _) => AssignPlanned(order, frame, s);
    case Ret(_) => RetPlanned(order, frame, s);
    case Exit => ExitPlanned(order, frame);
    case Declare(x, shape) => DeclarePlanned(order, frame, x, shape);
    case LetStruct(_, _, _) => StructPlanned(order, frame, s);
    case LetEnum(_, _, _, _) => EnumPlanned(order, frame, s);
    case SetItem(_, _, _) => SetItemPlanned(order, frame, s);
    case SetField(_, _, _, _) => SetFieldPlanned(order, frame, s);
  }

  lemma ExitPlanned(order: Order, frame: Frame)
    requires Located(frame.vars)
    ensures SimplyPlanned(order, frame, Exit, Emitted([Leave, Return], frame))
  {
  }

  lemma DeclarePlanned(order: Order, frame: Frame, x: Ident, shape: Shape)
    requires Located(frame.vars)
    ensures SimplyPlanned(order, frame, Declare(x, shape), AllocSlot(frame, x, shape))
  {
    PushPlanned(shape);
  }
}
