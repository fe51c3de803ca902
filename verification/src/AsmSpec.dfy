/** The code that the generator emits, as functions of its state. The generator takes
    free registers from a hash set, whose iteration order is fixed but unknown: every
    definition takes that order as a parameter and assumes nothing about it. */
module AsmSpec {
  import opened Words
  import opened Lir
  import opened Machine
  import Layout

  datatype Failure = OutOfRegisters | UnboundName | TooManyParams | Overflow | Unsupported

  datatype Result<+T> = Ok(value: T) | Panic(why: Failure) {
    predicate IsFailure() {
      Panic?
    }

    function PropagateFailure<U>(): Result<U>
      requires Panic?
    {
      Panic(why)
    }

    function Extract(): T
      requires Ok?
    {
      value
    }
  }

  datatype CanClearRegs = Yes | No

  type Order = seq<Usable>

  /** The first register of the iteration order that is not in use. */
  function FreeReg(order: Order, used: set<Register>): (r: Result<Usable>)
    ensures r.Ok? ==> r.value !in used && r.value in order
    ensures r.Panic? <==> (forall reg :: reg in order ==> reg in used)
  {
    if order == [] then Panic(OutOfRegisters)
    else if order[0] !in used then Ok(order[0])
    else FreeReg(order[1..], used)
  }

  function ClearRegsExcept(used: set<Register>, loc: Option<Location>, canClear: CanClearRegs): set<Register> {
    if canClear.No? then used
    else if loc.Some? && loc.value.RegLoc? then {loc.value.reg}
    else {}
  }

  /** Code for an expression, the registers in use after it and where its value is. */
  datatype Built = Built(code: seq<Instruction>, used: set<Register>, loc: Location)

  /** Two operands after `order_operands`: the right one is where the result will end up. */
  datatype Ordered = Ordered(code: seq<Instruction>, used: set<Register>, left: Location, right: Location)

  function OrderOperands(order: Order, used: set<Register>, lval: Location, rval: Location, op: BinOp): Result<Ordered> {
    var (l, r) := if op.Sub? then (rval, lval) else (lval, rval);
    if !r.Const? then Ok(Ordered([], used, l, r))
    else if op.Sub? || op.Div? || op.Rem? then
      var reg :- FreeReg(order, used);
      Ok(Ordered([SizedMov(r, RegLoc(reg), 8)], used + {reg}, l, RegLoc(reg)))
    else Ok(Ordered([], used, r, l))
  }

  function FlagOf(op: BinOp): CondFlag
    requires op.IsCmp()
  {
    match op
    case Lt => IfLess
    case Le => IfLessEq
    case Ge => IfGreaterEq
    case Gt => IfGreater
    case Eq => IfEq
    case Ne => IfNotEq
  }

  /** Zero the result register, compare, and overwrite it with one if the condition holds. */
  function SetOnFlag(src: Location, dst: Location, condReg: Register, cond: CondFlag): seq<Instruction> {
    [Mov(ZERO, RegLoc(condReg)), Cmp(src, dst), CondMov(NamedOffset(BOOL_TEST), RegLoc(condReg), cond)]
  }

  function FromBinopCmp(order: Order, used: set<Register>, lhs: Location, rhs: Location, op: BinOp,
                        condReg: Register): Result<(seq<Instruction>, set<Register>)>
    requires op.IsCmp()
  {
    var (l, r) := if !lhs.Const? then (rhs, lhs) else (lhs, rhs);
    if r.IsStackOffset() then
      var tmp :- FreeReg(order, used);
      Ok(([SizedMov(r, RegLoc(tmp), 8)] + SetOnFlag(l, RegLoc(tmp), condReg, FlagOf(op)), used + {tmp}))
    else
      Ok((SetOnFlag(l, r, condReg, FlagOf(op)), used))
  }

  /** The right operand is loaded when it is a stack slot. */
  function LoadRight(order: Order, used: set<Register>, right: Location): Result<Built> {
    if right.NumberedOffset? then
      var reg :- FreeReg(order, used);
      Ok(Built([Mov(right, RegLoc(reg))], used + {reg}, RegLoc(reg)))
    else Ok(Built([], used, right))
  }

  /** The instruction itself and the location it leaves its result in. */
  function Operate(order: Order, used: set<Register>, left: Location, right: Location, op: BinOp): Result<Built> {
    if op.IsCmp() then
      var condReg :- FreeReg(order, used);
      var (code, used') :- FromBinopCmp(order, used + {condReg}, left, right, op, condReg);
      Ok(Built(code, used', RegLoc(condReg)))
    else if op.Div? || op.Rem? then Panic(Unsupported)
    else Ok(Built([Math(left, right, op)], used, right))
  }

  /** Everything `build_value` emits for a binary operation once both operands are built. */
  function Combine(order: Order, used: set<Register>, lloc: Location, rloc: Location, op: BinOp,
                   canClear: CanClearRegs): Result<Built> {
    var ordered :- OrderOperands(order, used, lloc, rloc, op);
    var loaded :- LoadRight(order, ordered.used, ordered.right);
    var done :- Operate(order, loaded.used, ordered.left, loaded.loc, op);
    var code := ordered.code + loaded.code + done.code;
    if done.loc.RegLoc? then
      Ok(Built(code, ClearRegsExcept(done.used, Some(done.loc), canClear), done.loc))
    else
      var store :- FreeReg(order, done.used);
      Ok(Built(code + [Mov(done.loc, RegLoc(store))],
               ClearRegsExcept(done.used + {store}, Some(RegLoc(store)), canClear), RegLoc(store)))
  }

  /** Everything `build_value` emits for a unary operation once its operand is built. */
  function Negate(order: Order, used: set<Register>, operand: Location, op: UnOp, ty: Ty): Result<Built> {
    var reg :- FreeReg(order, used);
    var load := if operand.IsStackOffset() then [Mov(operand, RegLoc(reg))] else [];
    var val := if operand.IsStackOffset() then RegLoc(reg) else operand;
    if op.OnesComp? then Panic(Unsupported)
    else
      var condReg :- FreeReg(order, used + {reg});
      var test := if ty == Bool then SetOnFlag(ONE, val, condReg, IfNotEq)
                  else SetOnFlag(ZERO, val, condReg, IfGreater);
      Ok(Built(load + test, used + {reg, condReg}, RegLoc(condReg)))
  }

  /** `build_value` on scalar expressions. */
  function BuildValue(order: Order, vars: map<Ident, Location>, used: set<Register>, e: Expr,
                      canClear: CanClearRegs): Result<Built>
    decreases e
  {
    match e
    case Var(x, _) => if x in vars then Ok(Built([], used, vars[x])) else Panic(UnboundName)
    case Unary(op, inner, t) =>
      var operand :- BuildValue(order, vars, used, inner, canClear);
      var done :- Negate(order, operand.used, operand.loc, op, t);
      Ok(done.(code := operand.code + done.code))
    case Binary(op, l, r, _) =>
      var left :- BuildValue(order, vars, used, l, No);
      var right :- BuildValue(order, vars, left.used, r, No);
      var done :- Combine(order, right.used, left.loc, right.loc, op, canClear);
      Ok(done.(code := left.code + right.code + done.code))
    case Parens(inner) => BuildValue(order, vars, used, inner, canClear)
    case Value(v) => Ok(Built([], used, Const(v)))
  }

  // ---------- statements ----------

  /** The part of the generator's state that statements change, besides the buffer. */
  datatype Frame = Frame(used: set<Register>, currentStack: nat, totalStack: nat, vars: map<Ident, Location>)

  /** Code appended to the buffer and the state after it. */
  datatype Emitted = Emitted(code: seq<Instruction>, frame: Frame)

  const SCALAR_SIZE: nat := 8

  /** `alloc_stack` for a scalar: push a null value and name the slot it made. */
  function AllocStack(frame: Frame, name: Ident): Emitted {
    var top := frame.currentStack + SCALAR_SIZE;
    Emitted([Push(ZERO, 8)],
            frame.(currentStack := top, totalStack := frame.totalStack + SCALAR_SIZE,
                   vars := frame.vars[name := NumberedOffset(top, RBP)]))
  }

  /** The move at the end of an assignment. */
  function StoreTo(order: Order, frame: Frame, lloc: Location, rloc: Location): Result<Emitted> {
    if lloc == rloc then Ok(Emitted([], frame))
    else if lloc.IsStackOffset() && rloc.IsStackOffset() then
      var reg :- FreeReg(order, frame.used);
      Ok(Emitted([SizedMov(rloc, RegLoc(reg), 8), SizedMov(RegLoc(reg), lloc, 8)],
                 frame.(used := ClearRegsExcept(frame.used + {reg}, None, Yes))))
    else
      Ok(Emitted([SizedMov(rloc, lloc, 8)], frame.(used := ClearRegsExcept(frame.used, Some(lloc), Yes))))
  }

  function AssignCode(order: Order, frame: Frame, name: Ident, rval: Expr, isLet: bool): Result<Emitted> {
    var alloc := if isLet then AllocStack(frame, name) else Emitted([], frame);
    if name !in alloc.frame.vars then Panic(UnboundName)
    else
      var lloc := alloc.frame.vars[name];
      var built :- BuildValue(order, alloc.frame.vars, alloc.frame.used, rval, Yes);
      var store :- StoreTo(order, alloc.frame.(used := built.used), lloc, built.loc);
      Ok(Emitted(alloc.code + built.code + store.code, store.frame))
  }

  function RetCode(order: Order, frame: Frame, e: Expr): Result<Emitted> {
    var built :- BuildValue(order, frame.vars, frame.used, e, Yes);
    var move := if built.loc == RegLoc(RAX) then [] else [Mov(built.loc, RegLoc(RAX))];
    Ok(Emitted(built.code + move + [Leave, Return], frame.(used := built.used)))
  }

  /** A condition: build its value and compare it with one. */
  function CondCode(order: Order, frame: Frame, cond: Expr): Result<Emitted> {
    var built :- BuildValue(order, frame.vars, frame.used, cond, Yes);
    Ok(Emitted(built.code + [Cmp(ONE, built.loc)], frame.(used := built.used)))
  }

  predicate IsConstTrue(e: Expr) {
    e.Value? && (match e.val case BoolVal(b) => b case IntVal(i) => i > 0)
  }

  /** The test at the bottom of a loop. */
  function LoopTest(order: Order, frame: Frame, cond: Expr, body: Label): Result<Emitted> {
    if IsConstTrue(cond) then Ok(Emitted([Jmp(body)], frame))
    else
      var test :- CondCode(order, frame, cond);
      Ok(Emitted(test.code + [CondJmp(body, JmpEq)], test.frame))
  }

  // ---------- room on the stack ----------

  function TakeBytes(n: nat): Instruction {
    Math(Const(IntVal(Wrap(n))), RegLoc(RSP), Sub)
  }

  /** `push_stack`. */
  function PushCode(shape: Shape): seq<Instruction>
    decreases shape
  {
    match shape
    case Scalar => [Push(ZERO, 8)]
    case Array(len, elem) => [TakeBytes(len * Layout.Size(elem))]
    case Struct(fields) => PushFields(fields)
    case Enum(variants) => [TakeBytes(Layout.LargestVariant(variants, |variants|))]
  }

  function PushFields(fields: seq<Field>): seq<Instruction>
    decreases fields
  {
    if fields == [] then []
    else
      assert fields decreases to fields[0];
      PushCode(fields[0].shape) + PushFields(fields[1..])
  }

  /** `alloc_stack`: make room and name the slot. */
  function AllocSlot(frame: Frame, name: Ident, shape: Shape): Emitted {
    var top := frame.currentStack + Layout.Size(shape);
    Emitted(PushCode(shape),
            frame.(currentStack := top, totalStack := frame.totalStack + Layout.Size(shape),
                   vars := frame.vars[name := NumberedOffset(top, RBP)]))
  }

  /** A sequence of declarations at the top of a function. */
  function AllocAll(frame: Frame, decls: seq<Layout.Decl>): Emitted
    decreases |decls|
  {
    if decls == [] then Emitted([], frame)
    else
      var first := AllocSlot(frame, decls[0].name, decls[0].shape);
      var rest := AllocAll(first.frame, decls[1..]);
      Emitted(first.code + rest.code, rest.frame)
  }

  // ---------- initialisers ----------

  /** One leaf of a struct: through a register when its value is in a stack slot. The register is given
      back at once. */
  function StoreLeaf(order: Order, used: set<Register>, value: Location, offset: nat): Result<seq<Instruction>> {
    if value.IsStackOffset() then
      var tmp :- FreeReg(order, used);
      Ok([SizedMov(value, RegLoc(tmp), 8), SizedMov(RegLoc(tmp), NumberedOffset(offset, RBP), 8)])
    else Ok([SizedMov(value, NumberedOffset(offset, RBP), 8)])
  }

  /** The loop of a struct initialiser over its flattened expressions. */
  function StoreLeaves(order: Order, frame: Frame, leaves: seq<Expr>, offset: nat): Result<Emitted>
    decreases |leaves|
  {
    if leaves == [] then Ok(Emitted([], frame))
    else
      var built :- BuildValue(order, frame.vars, frame.used, leaves[0], Yes);
      var store :- StoreLeaf(order, built.used, built.loc, offset);
      if offset < 8 then Panic(Overflow)
      else
        var rest :- StoreLeaves(order, frame.(used := built.used), leaves[1..], offset - 8);
        Ok(Emitted(built.code + store + rest.code, rest.frame))
  }

  /** `let name = struct { inits };` */
  function LetStructCode(order: Order, frame: Frame, name: Ident, fields: seq<Field>,
                         inits: seq<FieldInit>): Result<Emitted>
  {
    var alloc := AllocSlot(frame, name, Struct(fields));
    var stores :- StoreLeaves(order, alloc.frame, Layout.Flatten(inits), alloc.frame.currentStack);
    Ok(Emitted(alloc.code + stores.code, stores.frame))
  }

  /** The number of the first variant of that name. */
  function TagOf(variants: seq<Variant>, name: Ident): Option<nat>
    decreases |variants|
  {
    if variants == [] then None
    else if variants[0].name == name then Some(0)
    else
      var later :- TagOf(variants[1..], name);
      Some(later + 1)
  }

  /** The location of a payload item's value, and how many bytes the item has. */
  function BuildItem(order: Order, frame: Frame, item: PayloadItem): Result<Built> {
    match item
    case Single(e) => BuildValue(order, frame.vars, frame.used, e, Yes)
    case Copied(x, _) =>
      if x in frame.vars then Ok(Built([], frame.used, frame.vars[x])) else Panic(UnboundName)
  }

  function ItemSize(item: PayloadItem): nat {
    if item.Single? then 8 else Layout.Size(item.shape)
  }

  /** The loop of an enum initialiser over the payload: the offset moves by the item's size before the
      store. */
  function StorePayload(order: Order, frame: Frame, items: seq<PayloadItem>, offset: nat): Result<Emitted>
    decreases |items|
  {
    if items == [] then Ok(Emitted([], frame))
    else
      var built :- BuildItem(order, frame, items[0]);
      var size := ItemSize(items[0]);
      if offset < size then Panic(Overflow)
      else
        var rest :- StorePayload(order, frame.(used := built.used), items[1..], offset - size);
        Ok(Emitted(built.code + [SizedMov(built.loc, NumberedOffset(offset - size, RBP), size)] + rest.code, rest.frame))
  }

  function TagStore(tag: nat, offset: nat): Instruction {
    SizedMov(Const(IntVal(Wrap(tag))), NumberedOffset(offset, RBP), 8)
  }

  /** `let name = enum variant(items);` */
  function LetEnumCode(order: Order, frame: Frame, name: Ident, variants: seq<Variant>, variant: Ident,
                       items: seq<PayloadItem>): Result<Emitted>
  {
    var alloc := AllocSlot(frame, name, Enum(variants));
    var top := alloc.frame.currentStack;
    var tag := TagOf(variants, variant);
    if tag.None? then Panic(UnboundName)
    else
      var stores :- StorePayload(order, alloc.frame, items, top);
      Ok(Emitted(alloc.code + [TagStore(tag.value, top)] + stores.code, stores.frame))
  }

  // ---------- addresses ----------

  /** `index_arr` on an array in the frame, for the address of an element of `eleSize` bytes. */
  function IndexArr(order: Order, vars: map<Ident, Location>, used: set<Register>, arr: Location, index: Expr,
                    eleSize: nat): Result<Built>
  {
    if index.Value? && index.val.IntVal? then
      var tmp :- FreeReg(order, used);
      var reg :- FreeReg(order, used + {tmp});
      Ok(Built([Load(arr, RegLoc(reg), eleSize), Math(Const(IntVal(Wrap(eleSize * index.val.i))), RegLoc(reg), Add)],
               used + {tmp, reg}, RegLoc(reg)))
    else
      var built :- BuildValue(order, vars, used, index, No);
      var tmp :- FreeReg(order, built.used);
      var reg :- FreeReg(order, built.used + {tmp});
      Ok(Built(built.code + [SizedMov(built.loc, RegLoc(tmp), 8), Math(Const(IntVal(Wrap(eleSize))), RegLoc(tmp), Mul),
                             Load(arr, RegLoc(reg), eleSize), Math(RegLoc(tmp), RegLoc(reg), Add)],
               built.used + {tmp, reg}, RegLoc(reg)))
  }

  /** `construct_field_offset_lvalue`. */
  function FieldAddress(order: Order, vars: map<Ident, Location>, used: set<Register>, fields: seq<Field>,
                        access: Access, offset: nat, base: Register): Result<Built>
    decreases access
  {
    var found := Layout.Find(fields, access.name);
    if found.None? then Panic(UnboundName)
    else if offset < found.value.before then Panic(Overflow)
    else
      var start := offset - found.value.before;
      match access
      case Whole(_) => Ok(Built([], used, NumberedOffset(start, base)))
      case Element(_, index) =>
        var shape := found.value.shape;
        IndexArr(order, vars, used, NumberedOffset(start, base), index, Layout.Size(if shape.Array? then shape.elem else shape))
      case Inner(_, rest, inner) => FieldAddress(order, vars, used, inner, rest, start, base)
  }

  /** The move at the end of an assignment to an element, whose address is in a register. The element is a
      scalar, like the value. Nothing is emitted when the value is in the register of the address. */
  function StoreElement(order: Order, frame: Frame, address: Register, rloc: Location): Result<Emitted> {
    if rloc == RegLoc(address) then Ok(Emitted([], frame))
    else
      var used := ClearRegsExcept(frame.used, Some(RegLoc(address)), Yes);
      if rloc.IsStackOffset() then
        var reg :- FreeReg(order, used);
        Ok(Emitted([SizedMov(rloc, RegLoc(reg), 8), SizedMov(RegLoc(reg), NumberedOffset(0, address), 8)],
                   frame.(used := used + {reg})))
      else Ok(Emitted([SizedMov(rloc, NumberedOffset(0, address), 8)], frame.(used := used)))
  }

  /** An assignment through an address that has been computed: the value is built after it. */
  function StoreThrough(order: Order, frame: Frame, target: Built, rval: Expr): Result<Emitted> {
    var built :- BuildValue(order, frame.vars, target.used, rval, Yes);
    var next := frame.(used := built.used);
    var store :- if target.loc.RegLoc? then StoreElement(order, next, target.loc.reg, built.loc)
                 else StoreTo(order, next, target.loc, built.loc);
    Ok(Emitted(target.code + built.code + store.code, store.frame))
  }

  /** `name[index] = rval;` */
  function SetItemCode(order: Order, frame: Frame, name: Ident, index: Expr, rval: Expr): Result<Emitted> {
    if name !in frame.vars then Panic(UnboundName)
    else if !frame.vars[name].NumberedOffset? then Panic(Unsupported)
    else
      var target :- IndexArr(order, frame.vars, frame.used, frame.vars[name], index, 8);
      StoreThrough(order, frame, target, rval)
  }

  /** `name.access = rval;` */
  function SetFieldCode(order: Order, frame: Frame, name: Ident, fields: seq<Field>, access: Access,
                        rval: Expr): Result<Emitted>
  {
    if name !in frame.vars then Panic(UnboundName)
    else if !frame.vars[name].NumberedOffset? then Panic(Unsupported)
    else
      var slot := frame.vars[name];
      var target :- FieldAddress(order, frame.vars, frame.used, fields, access, slot.offset, slot.base);
      StoreThrough(order, frame, target, rval)
  }

  // ---------- patterns ----------

  /** The names of a pattern become names of slots of the matched value. Every item is taken to be
      8 bytes. */
  function Bind(vars: map<Ident, Location>, binds: seq<Ident>, offset: nat, base: Register): Result<map<Ident, Location>>
    decreases |binds|
  {
    if binds == [] then Ok(vars)
    else
      var last := |binds| - 1;
      var before :- Bind(vars, binds[..last], offset, base);
      if offset < (last + 1) * 8 then Panic(Overflow)
      else Ok(before[binds[last] := NumberedOffset(offset - (last + 1) * 8, base)])
  }

  function Test(variant: nat, loc: Location, lbl: Label): seq<Instruction> {
    [Cmp(Const(IntVal(Wrap(variant))), loc), CondJmp(lbl, JmpEq)]
  }

  function Block(lbl: Label, body: seq<Instruction>, merge: Label): seq<Instruction> {
    [LabelDef(lbl)] + body + [Jmp(merge)]
  }

  /** The comparisons and, apart from them, the blocks of the arms, each behind its label. */
  datatype Split = Split(chain: seq<Instruction>, blocks: seq<Instruction>, frame: Frame)

  // ---------- all statements ----------

  /** `gen_statement`, with `at` the length of the buffer when it is called. Labels are
      numbered by the buffer length at the moment they are made. */
  function StmtCode(order: Order, frame: Frame, at: nat, stmt: Stmt): Result<Emitted>
    decreases stmt, 0
  {
    match stmt
    case Assign(x, _, rval, isLet) => AssignCode(order, frame, x, rval, isLet)
    case If(cond, blk, els) =>
      var test :- CondCode(order, frame, cond);
      var elseAt := at + |test.code|;
      var thn :- BlockCode(order, test.frame, elseAt + 1, blk);
      var mergeAt := elseAt + 1 + |thn.code|;
      var otherwise :- BlockCode(order, thn.frame, mergeAt + 2, els);
      Ok(Emitted(test.code + [CondJmp(JmpIf(elseAt), JmpNotEq)] + thn.code
                 + [Jmp(MergeIf(mergeAt)), LabelDef(JmpIf(elseAt))] + otherwise.code
                 + [LabelDef(MergeIf(mergeAt))],
                 otherwise.frame))
    case While(cond, blk) =>
      var body :- BlockCode(order, frame, at + 2, blk);
      var test :- LoopTest(order, body.frame, cond, JmpWhile(at + 1));
      Ok(Emitted([Jmp(UncondWhile(at)), LabelDef(JmpWhile(at + 1))] + body.code
                 + [LabelDef(UncondWhile(at))] + test.code,
                 test.frame))
    case Ret(e) => RetCode(order, frame, e)
    case Exit => Ok(Emitted([Leave, Return], frame))
    case Declare(x, shape) => Ok(AllocSlot(frame, x, shape))
    case LetStruct(x, fields, inits) => LetStructCode(order, frame, x, fields, inits)
    case LetEnum(x, variants, variant, items) => LetEnumCode(order, frame, x, variants, variant, items)
    case SetItem(x, index, rval) => SetItemCode(order, frame, x, index, rval)
    case SetField(x, fields, access, rval) => SetFieldCode(order, frame, x, fields, access, rval)
    case Match(x, variants, arms) => MatchCode(order, frame, at, x, variants, arms)
  }

  function BlockCode(order: Order, frame: Frame, at: nat, stmts: seq<Stmt>): Result<Emitted>
    decreases stmts, 1
  {
    if stmts == [] then Ok(Emitted([], frame))
    else
      var first :- StmtCode(order, frame, at, stmts[0]);
      var rest :- BlockCode(order, first.frame, at + |first.code|, stmts[1..]);
      Ok(Emitted(first.code + rest.code, rest.frame))
  }

  function ArmCode(order: Order, frame: Frame, at: nat, tag: Location, variants: seq<Variant>, arm: Arm,
                   merge: Label): Result<Split>
    requires tag.NumberedOffset?
    decreases arm, 0
  {
    if arm.variant >= |variants| || |arm.binds| > |variants[arm.variant].types| then Panic(Unsupported)
    else
      var lbl := MatchArm(at, arm.variant);
      var vars :- Bind(frame.vars, arm.binds, tag.offset, tag.base);
      var body :- BlockCode(order, frame.(vars := vars), 1, arm.body);
      Ok(Split(Test(arm.variant, tag, lbl), Block(lbl, body.code, merge), body.frame))
  }

  function ArmsCode(order: Order, frame: Frame, at: nat, tag: Location, variants: seq<Variant>, arms: seq<Arm>,
                    merge: Label): Result<Split>
    requires tag.NumberedOffset?
    decreases arms, 1
  {
    if arms == [] then Ok(Split([], [], frame))
    else
      var first :- ArmCode(order, frame, at, tag, variants, arms[0], merge);
      var rest :- ArmsCode(order, first.frame, at + |first.chain|, tag, variants, arms[1..], merge);
      Ok(Split(first.chain + rest.chain, first.blocks + rest.blocks, rest.frame))
  }

  /** `match` on a variable. */
  function MatchCode(order: Order, frame: Frame, at: nat, name: Ident, variants: seq<Variant>,
                     arms: seq<Arm>): Result<Emitted>
    decreases arms, 2
  {
    if name !in frame.vars then Panic(UnboundName)
    else if !frame.vars[name].NumberedOffset? then Panic(Unsupported)
    else
      var loc := frame.vars[name];
      var split :- ArmsCode(order, frame, at, loc, variants, arms, MatchMerge(at));
      Ok(Emitted(split.chain + split.blocks + [LabelDef(MatchMerge(at))], split.frame))
  }

  // ---------- functions ----------

  /** `alloc_arg` for the parameters from number `i` on: push each argument register. */
  function ParamsCode(frame: Frame, params: seq<Param>, i: nat): Result<Emitted>
    requires i <= |params|
    decreases |params| - i
  {
    if i == |params| then Ok(Emitted([], frame))
    else if i >= |ARG_REGS| then Panic(TooManyParams)
    else
      var top := frame.currentStack + SCALAR_SIZE;
      var next := frame.(currentStack := top, totalStack := frame.totalStack + SCALAR_SIZE,
                         vars := frame.vars[params[i].ident := NumberedOffset(top, RBP)]);
      var rest :- ParamsCode(next, params, i + 1);
      Ok(Emitted([Push(RegLoc(ARG_REGS[i]), 8)] + rest.code, rest.frame))
  }

  /** The token of the name `main`. */
  const MAIN: Ident := 0

  function Prologue(name: Ident): seq<Instruction> {
    [Meta(name), LabelDef(FuncLabel(name)), Push(RegLoc(RBP), 8), Mov(RegLoc(RSP), RegLoc(RBP))]
  }

  function Epilogue(name: Ident): seq<Instruction> {
    (if name == MAIN then [SizedMov(ZERO, RegLoc(RAX), 8)] else []) + [Leave, Return]
  }

  /** `visit_func`. */
  function FuncCode(order: Order, frame: Frame, at: nat, func: Func): Result<Emitted> {
    var named := frame.(vars := frame.vars[func.ident := LabelLoc(FuncLabel(func.ident))]);
    if func.stmts == [] then Ok(Emitted([], named))
    else
      var params :- ParamsCode(named, func.params, 0);
      var start := at + |Prologue(func.ident)| + |params.code|;
      var body :- BlockCode(order, params.frame, start, func.stmts);
      Ok(Emitted(Prologue(func.ident) + params.code + body.code + Epilogue(func.ident),
                 Frame({}, 0, 0, body.frame.vars)))
  }

  function ProgramCode(order: Order, frame: Frame, at: nat, funcs: seq<Func>): Result<Emitted>
    decreases |funcs|
  {
    if funcs == [] then Ok(Emitted([], frame))
    else
      var first :- FuncCode(order, frame, at, funcs[0]);
      var rest :- ProgramCode(order, first.frame, at + |first.code|, funcs[1..]);
      Ok(Emitted(first.code + rest.code, rest.frame))
  }

  const EMPTY_FRAME := Frame({}, 0, 0, map[])

  // ---------- code put after other code ----------

  /** The result with `done` in front of its code. */
  function Prefixed(done: seq<Instruction>, r: Result<Emitted>): Result<Emitted> {
    match r
    case Ok(rest) => Ok(Emitted(done + rest.code, rest.frame))
    case Panic(why) => Panic(why)
  }

  lemma PrefixedNothing(r: Result<Emitted>)
    ensures Prefixed([], r) == r
  {
    if r.Ok? {
      assert [] + r.value.code == r.value.code;
    }
  }

  lemma PrefixedTwice(a: seq<Instruction>, b: seq<Instruction>, r: Result<Emitted>)
    ensures Prefixed(a, Prefixed(b, r)) == Prefixed(a + b, r)
  {
    if r.Ok? {
      assert a + (b + r.value.code) == a + b + r.value.code;
    }
  }

  /** The result with more code in front of both parts. */
  function SplitAfter(chain: seq<Instruction>, blocks: seq<Instruction>, r: Result<Split>): Result<Split> {
    match r
    case Ok(rest) => Ok(Split(chain + rest.chain, blocks + rest.blocks, rest.frame))
    case Panic(why) => Panic(why)
  }

  function Concat(streams: seq<seq<Instruction>>): seq<Instruction> {
    if streams == [] then [] else Concat(streams[..|streams| - 1]) + streams[|streams| - 1]
  }
}
