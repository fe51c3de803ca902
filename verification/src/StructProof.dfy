/** Structs in the frame: what an initialiser stores through its running offset is what a field path
    finds through names and sizes. */
module StructProof {
  import opened Words
  import opened Lir
  import opened Machine
  import opened AsmSpec
  import opened ExprProof
  import opened StmtProof
  import opened FrameProof
  import opened RegisterBudget
  import opened Compiles
  import CodePlan
  import Layout

  // ---------- the aggregate's slot ----------

  /** The cells from `lo` to `hi` are mapped: the stack has memory there. */
  ghost predicate MappedRange(core: Core, lo: int, hi: int) {
    forall a :: lo <= a < hi && a % 8 == 0 ==> a in core.mem
  }

  /** No variable of the environment lives deeper in the frame than `depth`. */
  ghost predicate AllAbove(vars: map<Ident, Location>, names: set<Ident>, depth: nat) {
    forall x :: x in names ==> x in vars && vars[x].NumberedOffset? && vars[x].offset <= depth
  }

  /** Only cells in the range have changed, and none has become unmapped. */
  ghost predicate ChangedWithin(before: Core, after: Core, lo: int, hi: int) {
    forall a :: a in before.mem ==> a in after.mem && (a < lo || a >= hi ==> after.mem[a] == before.mem[a])
  }

  /** Storing a word in a cell of the aggregate's slot changes no variable. */
  lemma CellStore(vars: map<Ident, Location>, size: nat, types: map<Ident, Ty>, env: Env, core: Core, base: int,
                  depth: nat, offset: nat, w: word) returns (after: Core)
    requires Related(vars, size, types, env, core, base) && base % 8 == 0
    requires AllAbove(vars, types.Keys, depth) && depth + 8 <= offset && offset % 8 == 0
    requires Mapped(core, base - offset)
    ensures Write(core, NumberedOffset(offset, RBP), w) == Some(after) && after.regs == core.regs
    ensures Read(after, NumberedOffset(offset, RBP)) == Some(w)
    ensures Related(vars, size, types, env, after, base)
    ensures ChangedWithin(core, after, base - offset, base - offset + 8)
  {
    after := core.(mem := core.mem[base - offset := w]);
    HoldingOutside(vars, env, core, after, base, depth, base - offset);
    hide Holding, AllAbove, Slots, EnvTyped;
  }

  lemma HoldingOutside(vars: map<Ident, Location>, env: Env, before: Core, after: Core, base: int, depth: nat, cell: int)
    requires Holding(vars, env, before) && AllAbove(vars, env.Keys, depth)
    requires before.Reg(RBP) == base == after.Reg(RBP) && cell < base - depth
    requires forall a :: a in before.mem && a != cell ==> a in after.mem && after.mem[a] == before.mem[a]
    ensures Holding(vars, env, after)
  {
    forall x | x in env ensures Read(after, vars[x]) == Some(Encode(env[x])) {
      assert Read(before, vars[x]) == Some(Encode(env[x]));
      assert vars[x].offset <= depth;
    }
  }

  lemma BaseOf(vars: map<Ident, Location>, size: nat, types: map<Ident, Ty>, env: Env, core: Core, base: int)
    requires Related(vars, size, types, env, core, base)
    ensures core.Reg(RBP) == base && core.Reg(RSP) == base - size && EnvTyped(env, types)
  {
  }

  /** One leaf reaches its cell, whatever location its value is in. */
  lemma LeafRuns(order: Order, vars: map<Ident, Location>, used: set<Register>, size: nat, types: map<Ident, Ty>,
                 env: Env, core: Core, base: int, depth: nat, offset: nat, value: Location, w: word) returns (after: Core)
    requires Related(vars, size, types, env, core, base) && base % 8 == 0
    requires AllAbove(vars, types.Keys, depth) && depth + 8 <= offset && offset % 8 == 0
    requires Mapped(core, base - offset)
    requires Operand(value, used) && Read(core, value) == Some(w) && StoreLeaf(order, used, value, offset).Ok? && Small(value)
    ensures RunStraight(StoreLeaf(order, used, value, offset).value, core) == Some(after)
    ensures Read(after, NumberedOffset(offset, RBP)) == Some(w)
    ensures Related(vars, size, types, env, after, base)
    ensures ChangedWithin(core, after, base - offset, base - offset + 8)
  {
    hide RunStraight, Related, AllAbove, Write, FreeReg;
    if value.IsStackOffset() {
      var tmp := FreeReg(order, used).value;
      var mid := core.(regs := core.regs[tmp := w]);
      RelatedKept(vars, size, types, env, core, mid, base);
      after := CellStore(vars, size, types, env, mid, base, depth, offset, w);
      SlotToSlotRuns(core, value, tmp, NumberedOffset(offset, RBP), w, after);
    } else {
      after := CellStore(vars, size, types, env, core, base, depth, offset, w);
      SizedMovRuns(core, value, NumberedOffset(offset, RBP), w, after);
    }
  }

  ghost predicate AllOk(leaves: seq<Expr>, types: map<Ident, Ty>) {
    forall i :: 0 <= i < |leaves| ==> ExprOk(leaves[i], types) && SmallLiteral(leaves[i])
  }

  /** The cell `offset` below RBP holds the value of the expression. */
  ghost predicate HoldsValue(core: Core, offset: int, e: Expr, env: Env) {
    && 0 <= offset && Eval(false, e, env).Some?
    && Read(core, NumberedOffset(offset, RBP)) == Some(Encode(Eval(false, e, env).value))
  }

  /** The loop of a struct initialiser: expression number `i` is stored `8 * i` above the slot's start. */
  lemma {:induction false} StoreLeavesRuns(
      order: Order, frame: Frame, leaves: seq<Expr>, offset: nat, size: nat, types: map<Ident, Ty>, env: Env, core: Core,
      base: int, depth: nat) returns (after: Core)
    requires Related(frame.vars, size, types, env, core, base) && base % 8 == 0
    requires AllOk(leaves, types) && AllAbove(frame.vars, types.Keys, depth)
    requires offset % 8 == 0 && depth + 8 * |leaves| <= offset
    requires MappedRange(core, base - offset, base - depth)
    requires StoreLeaves(order, frame, leaves, offset).Ok?
    ensures RunStraight(StoreLeaves(order, frame, leaves, offset).value.code, core) == Some(after)
    ensures var next := StoreLeaves(order, frame, leaves, offset).value.frame; next == frame.(used := next.used)
    ensures Related(frame.vars, size, types, env, after, base)
    ensures forall i :: 0 <= i < |leaves| ==> HoldsValue(after, offset - 8 * i, leaves[i], env)
    ensures ChangedWithin(core, after, base - offset, base - depth)
    decreases |leaves|
  {
    hide RunStraight, BuildValue, StoreLeaf, Related, ExprOk, Eval;
    if leaves == [] {
      StraightNone(core);
      after := core;
    } else {
      var built := BuildValue(order, frame.vars, frame.used, leaves[0], Yes).value;
      var store := StoreLeaf(order, built.used, built.loc, offset).value;
      var w, mid := LeafStored(order, frame, leaves[0], offset, size, types, env, core, base, depth);
      var next := frame.(used := built.used);
      after := StoreLeavesRuns(order, next, leaves[1..], offset - 8, size, types, env, mid, base, depth);
      var rest := StoreLeaves(order, next, leaves[1..], offset - 8).value;
      StraightAppend(built.code + store, rest.code, core);
      BaseOf(frame.vars, size, types, env, mid, base);
      BaseOf(frame.vars, size, types, env, after, base);
      LaterKeep(core, mid, after, base, offset, depth, w);
      forall i | 0 <= i < |leaves| ensures HoldsValue(after, offset - 8 * i, leaves[i], env) {
        if i > 0 {
          assert HoldsValue(after, offset - 8 - 8 * (i - 1), leaves[1..][i - 1], env);
        }
      }
    }
  }

  /** Evaluating one expression and storing it. */
  lemma LeafStored(order: Order, frame: Frame, e: Expr, offset: nat, size: nat, types: map<Ident, Ty>, env: Env,
                   core: Core, base: int, depth: nat) returns (w: word, after: Core)
    requires Related(frame.vars, size, types, env, core, base) && base % 8 == 0
    requires ExprOk(e, types) && SmallLiteral(e) && AllAbove(frame.vars, types.Keys, depth)
    requires offset % 8 == 0 && depth + 8 <= offset && Mapped(core, base - offset)
    requires BuildValue(order, frame.vars, frame.used, e, Yes).Ok?
    requires var built := BuildValue(order, frame.vars, frame.used, e, Yes).value;
             StoreLeaf(order, built.used, built.loc, offset).Ok?
    ensures var built := BuildValue(order, frame.vars, frame.used, e, Yes).value;
            RunStraight(built.code + StoreLeaf(order, built.used, built.loc, offset).value, core) == Some(after)
    ensures Eval(false, e, env).Some? && w == Encode(Eval(false, e, env).value)
    ensures Read(after, NumberedOffset(offset, RBP)) == Some(w)
    ensures Related(frame.vars, size, types, env, after, base)
    ensures ChangedWithin(core, after, base - offset, base - offset + 8)
  {
    hide RunStraight, BuildValue, StoreLeaf, ExprOk, Eval, Slots, AllAbove;
    var built := BuildValue(order, frame.vars, frame.used, e, Yes).value;
    var v, mid := ExprRuns(order, frame.vars, frame.used, e, types, env, core);
    RelatedKept(frame.vars, size, types, env, core, mid, base);
    w := Encode(v);
    SmallBuilt(order, frame.vars, frame.used, e, Yes);
    after := LeafRuns(order, frame.vars, built.used, size, types, env, mid, base, depth, offset, built.loc, w);
    StraightAppend(built.code, StoreLeaf(order, built.used, built.loc, offset).value, core);
  }

  /** Later stores, further up, keep a cell that was stored earlier. */
  lemma LaterKeep(before: Core, mid: Core, after: Core, base: int, offset: nat, depth: nat, w: word)
    requires Read(mid, NumberedOffset(offset, RBP)) == Some(w) && depth + 8 <= offset
    requires mid.Reg(RBP) == base && after.Reg(RBP) == base
    requires ChangedWithin(before, mid, base - offset, base - offset + 8)
    requires ChangedWithin(mid, after, base - (offset - 8), base - depth)
    ensures Read(after, NumberedOffset(offset, RBP)) == Some(w)
    ensures ChangedWithin(before, after, base - offset, base - depth)
  {
  }

  lemma {:induction false} PlainHasNoEnum(fields: seq<Field>)
    requires Layout.Plain(fields)
    ensures Layout.EmptyEnumFields(fields) == 0
    decreases fields
  {
    if fields != [] {
      assert fields decreases to fields[0];
      if fields[0].shape.Struct? {
        PlainHasNoEnum(fields[0].shape.fields);
      }
      PlainHasNoEnum(fields[1..]);
    }
  }

  lemma SlotsAbove(vars: map<Ident, Location>, size: nat, types: map<Ident, Ty>, env: Env, core: Core, base: int,
                   name: Ident, loc: Location)
    requires Related(vars, size, types, env, core, base) && name !in types
    ensures AllAbove(vars[name := loc], types.Keys, size) && size % 8 == 0
  {
  }

  lemma RangeKept(before: Core, after: Core, lo: int, hi: int)
    requires MappedRange(before, lo, hi) && forall a :: a in before.mem ==> a in after.mem
    ensures MappedRange(after, lo, hi)
  {
  }

  lemma CallerKeptThrough(before: Core, mid: Core, after: Core, base: int, lo: int, hi: int)
    requires CallerKept(before, mid, base) && ChangedWithin(mid, after, lo, hi) && hi <= base
    ensures CallerKept(before, after, base)
  {
  }

  /** A struct declaration: expression number `i` of the flattened initialiser ends up `8 * i` above the
      start of the struct, and the variables, the frame and the caller's stack are as they were. */
  lemma LetStructRuns(order: Order, frame: Frame, name: Ident, fields: seq<Field>, inits: seq<FieldInit>,
                      types: map<Ident, Ty>, env: Env, core: Core, base: int) returns (after: Core)
    requires Related(frame.vars, frame.currentStack, types, env, core, base) && base % 8 == 0
    requires name !in types && Layout.Plain(fields) && AllOk(Layout.Flatten(inits), types)
    requires 8 * |Layout.Flatten(inits)| <= Layout.FieldsSize(fields)
    requires base - (frame.currentStack + Layout.FieldsSize(fields)) >= 0 && Layout.FieldsSize(fields) <= IMM_MAX
    requires MappedRange(core, base - (frame.currentStack + Layout.FieldsSize(fields)), base - frame.currentStack)
    requires LetStructCode(order, frame, name, fields, inits).Ok?
    ensures RunStraight(LetStructCode(order, frame, name, fields, inits).value.code, core) == Some(after)
    ensures var next := LetStructCode(order, frame, name, fields, inits).value.frame;
            && next.vars == frame.vars[name := NumberedOffset(frame.currentStack + Layout.FieldsSize(fields), RBP)]
            && next.currentStack == frame.currentStack + Layout.FieldsSize(fields)
            && Related(next.vars, frame.currentStack + Layout.FieldsSize(fields), types, env, after, base)
    ensures CallerKept(core, after, base)
    ensures forall i :: 0 <= i < |Layout.Flatten(inits)| ==>
              HoldsValue(after, frame.currentStack + Layout.FieldsSize(fields) - 8 * i, Layout.Flatten(inits)[i], env)
  {
    hide Related, RunStraight, StoreLeaves, PushCode, Layout.Flatten, AllOk, Layout.FieldsSize;
    var ty, leaves, depth := Struct(fields), Layout.Flatten(inits), frame.currentStack;
    assert Layout.Size(ty) == Layout.FieldsSize(fields);
    PlainHasNoEnum(fields);
    SizeAligned(ty);
    var alloc := AllocSlot(frame, name, ty);
    var top := depth + Layout.Size(ty);
    var mid := AllocRuns(frame.vars, depth, types, env, core, base, name, ty);
    SlotsAbove(frame.vars, depth, types, env, core, base, name, NumberedOffset(top, RBP));
    RangeKept(core, mid, base - top, base - depth);
    after := StoreLeavesRuns(order, alloc.frame, leaves, top, top, types, env, mid, base, depth);
    StraightAppend(alloc.code, StoreLeaves(order, alloc.frame, leaves, top).value.code, core);
    CallerKeptThrough(core, mid, after, base, base - top, base - depth);
  }

  // ---------- addresses ----------

  /** Every step carries the struct that its field really has, and an index is an expression of int type. */
  ghost predicate AccessOk(fields: seq<Field>, access: Access, types: map<Ident, Ty>)
    decreases access
  {
    match access
    case Whole(_) => true
    case Element(_, index) => ExprOk(index, types) && index.TypeOf() == Int
    case Inner(name, rest, inner) =>
      && Layout.Find(fields, name).Some? && Layout.Find(fields, name).value.shape == Struct(inner)
      && AccessOk(inner, rest, types)
  }

  /** The leaf that an access means: its index is evaluated, and negative indices mean no leaf. */
  function Resolve(access: Access, env: Env): Option<Layout.Path>
    decreases access
  {
    match access
    case Whole(name) => Some(Layout.At(name))
    case Element(name, index) =>
      (match Eval(false, index, env)
       case Some(IntVal(i)) => if i >= 0 then Some(Layout.Item(name, i)) else None
       case _ => None)
    case Inner(name, rest, _) =>
      var path :- Resolve(rest, env);
      Some(Layout.Under(name, path))
  }

  /** The address that a location stands for: a frame cell, or the content of a register. */
  function AddressOf(core: Core, loc: Location): int {
    match loc
    case NumberedOffset(offset, base) => core.Reg(base) - offset
    case RegLoc(r) => core.Reg(r)
    case _ => 0
  }

  lemma LoadRuns(core: Core, offset: nat, reg: Usable, size: nat) returns (after: Core)
    requires core.Reg(RBP) - offset >= 0
    ensures RunStraight([Load(NumberedOffset(offset, RBP), RegLoc(reg), size)], core) == Some(after)
    ensures after == core.(regs := core.regs[reg := core.Reg(RBP) - offset])
  {
    StraightOne(Load(NumberedOffset(offset, RBP), RegLoc(reg), size), core);
    after := core.(regs := core.regs[reg := core.Reg(RBP) - offset]);
  }

  lemma AddRuns(core: Core, src: Location, reg: Usable, w: word) returns (after: Core)
    requires Read(core, src) == Some(w) && Small(src) && WORD_MIN <= core.Reg(reg) + w <= WORD_MAX
    ensures RunStraight([Math(src, RegLoc(reg), Add)], core) == Some(after)
    ensures SameFrame(core, after) && after.Reg(reg) == core.Reg(reg) + w
  {
    StraightOne(Math(src, RegLoc(reg), Add), core);
    after := core.(flags := Undefined, regs := core.regs[reg := core.Reg(reg) + w]);
  }

  lemma MulRuns(core: Core, w: word, reg: Usable) returns (after: Core)
    requires WORD_MIN <= core.Reg(reg) * w <= WORD_MAX && IMM_MIN <= w <= IMM_MAX
    ensures RunStraight([Math(Const(IntVal(w)), RegLoc(reg), Mul)], core) == Some(after)
    ensures SameFrame(core, after) && after.Reg(reg) == core.Reg(reg) * w
  {
    StraightOne(Math(Const(IntVal(w)), RegLoc(reg), Mul), core);
    after := core.(flags := Undefined, regs := core.regs[reg := core.Reg(reg) * w]);
  }

  lemma TwoRun(a: Instruction, b: Instruction, core: Core, mid: Core, after: Core)
    requires RunStraight([a], core) == Some(mid) && RunStraight([b], mid) == Some(after)
    ensures RunStraight([a, b], core) == Some(after)
  {
    StraightAppend([a], [b], core);
    assert [a] + [b] == [a, b];
  }

  /** The address of an element with a literal index. */
  lemma LiteralIndexRuns(order: Order, vars: map<Ident, Location>, used: set<Register>, start: nat, i: word, size: nat, core: Core)
    returns (after: Core)
    requires 0 <= size * i <= IMM_MAX && size <= IMM_MAX
    requires core.Reg(RBP) - start >= 0 && core.Reg(RBP) - start + size * i <= WORD_MAX
    requires IndexArr(order, vars, used, NumberedOffset(start, RBP), Value(IntVal(i)), size).Ok?
    ensures var b := IndexArr(order, vars, used, NumberedOffset(start, RBP), Value(IntVal(i)), size).value;
            && RunStraight(b.code, core) == Some(after) && SameFrame(core, after)
            && AddressOf(after, b.loc) == core.Reg(RBP) - start + size * i
  {
    hide RunStraight, FreeReg;
    var arr := NumberedOffset(start, RBP);
    var b := IndexArr(order, vars, used, arr, Value(IntVal(i)), size).value;
    var reg: Usable := b.loc.reg;
    var mid := LoadRuns(core, start, reg, size);
    after := AddRuns(mid, Const(IntVal(size * i)), reg, size * i);
    TwoRun(Load(arr, RegLoc(reg), size), Math(Const(IntVal(size * i)), RegLoc(reg), Add), core, mid, after);
  }

  lemma FourRun(a: Instruction, b: Instruction, c: Instruction, d: Instruction, core: Core, mid: Core, after: Core)
    requires RunStraight([a, b], core) == Some(mid) && RunStraight([c, d], mid) == Some(after)
    ensures RunStraight([a, b, c, d], core) == Some(after)
  {
    StraightAppend([a, b], [c, d], core);
    assert [a, b] + [c, d] == [a, b, c, d];
  }

  /** Scaling an index that has been computed and adding it to the address of the array. */
  lemma ScaleRuns(value: Location, start: nat, tmp: Usable, reg: Usable, i: word, size: nat, core: Core) returns (after: Core)
    requires Read(core, value) == Some(i) && 0 <= size * i <= IMM_MAX && size <= IMM_MAX && tmp != reg
    requires core.Reg(RBP) - start >= 0 && core.Reg(RBP) - start + size * i <= WORD_MAX
    ensures RunStraight([SizedMov(value, RegLoc(tmp), 8), Math(Const(IntVal(size)), RegLoc(tmp), Mul),
                         Load(NumberedOffset(start, RBP), RegLoc(reg), size), Math(RegLoc(tmp), RegLoc(reg), Add)], core)
            == Some(after)
    ensures SameFrame(core, after) && after.Reg(reg) == core.Reg(RBP) - start + size * i
  {
    hide RunStraight, StepCore;
    var scaled := size * i;
    assert i * size == scaled;
    var c1 := core.(regs := core.regs[tmp := i]);
    SizedMovRuns(core, value, RegLoc(tmp), i, c1);
    var c2 := MulRuns(c1, size, tmp);
    TwoRun(SizedMov(value, RegLoc(tmp), 8), Math(Const(IntVal(size)), RegLoc(tmp), Mul), core, c1, c2);
    var c3 := LoadRuns(c2, start, reg, size);
    after := AddRuns(c3, RegLoc(tmp), reg, scaled);
    TwoRun(Load(NumberedOffset(start, RBP), RegLoc(reg), size), Math(RegLoc(tmp), RegLoc(reg), Add), c2, c3, after);
    FourRun(SizedMov(value, RegLoc(tmp), 8), Math(Const(IntVal(size)), RegLoc(tmp), Mul),
            Load(NumberedOffset(start, RBP), RegLoc(reg), size), Math(RegLoc(tmp), RegLoc(reg), Add), core, c2, after);
  }

  /** The address of an element with any index expression. */
  lemma IndexRuns(order: Order, vars: map<Ident, Location>, used: set<Register>, start: nat, index: Expr,
                  types: map<Ident, Ty>, env: Env, i: word, size: nat, core: Core) returns (after: Core)
    requires ExprOk(index, types) && EnvTyped(env, types) && Holding(vars, env, core)
    requires Eval(false, index, env) == Some(IntVal(i)) && 0 <= size * i <= IMM_MAX && size <= IMM_MAX
    requires core.Reg(RBP) - start >= 0 && core.Reg(RBP) - start + size * i <= WORD_MAX
    requires IndexArr(order, vars, used, NumberedOffset(start, RBP), index, size).Ok?
    ensures var b := IndexArr(order, vars, used, NumberedOffset(start, RBP), index, size).value;
            && RunStraight(b.code, core) == Some(after) && SameFrame(core, after)
            && AddressOf(after, b.loc) == core.Reg(RBP) - start + size * i
  {
    hide RunStraight, BuildValue, FreeReg, Flipped, Holding, Compilable;
    if index.Value? && index.val.IntVal? {
      after := LiteralIndexRuns(order, vars, used, start, i, size, core);
    } else {
      var built := BuildValue(order, vars, used, index, No).value;
      var v, mid := BuildValueComputes(order, vars, used, index, No, types, env, core);
      NothingFlipped(index);
      assert v == IntVal(i);
      var tmp := FreeReg(order, built.used).value;
      var reg := FreeReg(order, built.used + {tmp}).value;
      assert Wrap(size) == size;
      after := ScaleRuns(built.loc, start, tmp, reg, i, size, mid);
      StraightAppend(built.code, [SizedMov(built.loc, RegLoc(tmp), 8), Math(Const(IntVal(size)), RegLoc(tmp), Mul),
                                  Load(NumberedOffset(start, RBP), RegLoc(reg), size), Math(RegLoc(tmp), RegLoc(reg), Add)],
                     core);
    }
  }

  /** The code for the address of a struct leaf computes exactly its distance from the struct's start. */
  lemma {:induction false} FieldAddressRuns(
      order: Order, vars: map<Ident, Location>, used: set<Register>, fields: seq<Field>, access: Access, offset: nat,
      types: map<Ident, Ty>, env: Env, path: Layout.Path, core: Core) returns (after: Core)
    requires AccessOk(fields, access, types) && EnvTyped(env, types) && Holding(vars, env, core)
    requires Resolve(access, env) == Some(path) && Layout.IsLeaf(fields, path)
    requires Layout.PathOffset(fields, path) <= offset <= core.Reg(RBP) && Layout.PathOffset(fields, path) <= IMM_MAX
    requires FieldAddress(order, vars, used, fields, access, offset, RBP).Ok?
    ensures var b := FieldAddress(order, vars, used, fields, access, offset, RBP).value;
            && RunStraight(b.code, core) == Some(after) && SameFrame(core, after)
            && AddressOf(after, b.loc) == core.Reg(RBP) - offset + Layout.PathOffset(fields, path)
    decreases access
  {
    hide RunStraight, IndexArr, Holding, EnvTyped, ExprOk, Eval;
    var found := Layout.Find(fields, access.name).value;
    var start := offset - found.before;
    match access
    case Whole(_) =>
      StraightNone(core);
      after := core;
    case Element(_, index) =>
      after := IndexRuns(order, vars, used, start, index, types, env, path.index, 8, core);
    case Inner(_, rest, inner) =>
      after := FieldAddressRuns(order, vars, used, inner, rest, start, types, env, path.rest, core);
  }

  /** The shape of the elements of the array that an access ends in. */
  function ElementOf(fields: seq<Field>, access: Access): Option<Shape>
    requires access.EndsInElement()
    decreases access
  {
    var found :- Layout.Find(fields, access.name);
    match access
    case Inner(_, rest, inner) => ElementOf(inner, rest)
    case _ => if found.shape.Array? then Some(found.shape.elem) else None
  }

  /** The address of an element of an array field, whatever the elements are: as many elements further as the index
      says. */
  lemma {:induction false} ElementAddressRuns(
      order: Order, vars: map<Ident, Location>, used: set<Register>, fields: seq<Field>, access: Access, offset: nat,
      types: map<Ident, Ty>, env: Env, elem: Shape, i: word, core: Core) returns (after: Core)
    requires AccessOk(fields, access, types) && EnvTyped(env, types) && Holding(vars, env, core)
    requires access.EndsInElement() && ElementOf(fields, access) == Some(elem) && Eval(false, IndexOf(access), env) == Some(IntVal(i))
    requires Distance(fields, access).Some? && Distance(fields, access).value <= offset <= core.Reg(RBP)
    requires 0 <= Layout.Size(elem) * i <= IMM_MAX && Layout.Size(elem) <= IMM_MAX
    requires core.Reg(RBP) - offset + Distance(fields, access).value + Layout.Size(elem) * i <= WORD_MAX
    requires FieldAddress(order, vars, used, fields, access, offset, RBP).Ok?
    ensures var b := FieldAddress(order, vars, used, fields, access, offset, RBP).value;
            && RunStraight(b.code, core) == Some(after) && SameFrame(core, after)
            && AddressOf(after, b.loc)
               == core.Reg(RBP) - offset + Distance(fields, access).value + Layout.Size(elem) * i
    decreases access
  {
    hide RunStraight, IndexArr, Holding, EnvTyped, ExprOk, Eval;
    var found := Layout.Find(fields, access.name).value;
    var start := offset - found.before;
    match access
    case Element(_, index) =>
      after := IndexRuns(order, vars, used, start, index, types, env, i, Layout.Size(elem), core);
    case Inner(_, rest, inner) =>
      after := ElementAddressRuns(order, vars, used, inner, rest, start, types, env, elem, i, core);
  }

  // ---------- the round trip ----------

  /** In memory at the location's address is the value of the expression. */
  ghost predicate ReadsBack(core: Core, loc: Location, e: Expr, env: Env) {
    && AddressOf(core, loc) in core.mem && Eval(false, e, env).Some?
    && core.mem[AddressOf(core, loc)] == Encode(Eval(false, e, env).value)
  }

  /** A leaf lies at least as far from the struct's start as its field. */
  lemma {:induction false} FieldBeforeLeaf(fields: seq<Field>, access: Access, types: map<Ident, Ty>, env: Env, path: Layout.Path)
    requires AccessOk(fields, access, types) && Resolve(access, env) == Some(path) && Layout.IsLeaf(fields, path)
    ensures Distance(fields, access).Some? && Distance(fields, access).value <= Layout.PathOffset(fields, path)
    decreases access
  {
    if access.Inner? {
      FieldBeforeLeaf(access.fields, access.rest, types, env, path.rest);
    }
  }

  lemma {:induction false} IndexCovered(fields: seq<Field>, access: Access, types: map<Ident, Ty>)
    requires AccessOk(fields, access, types) && access.EndsInElement()
    ensures ExprOk(IndexOf(access), types)
    decreases access
  {
    hide ExprOk;
    if access.Inner? {
      IndexCovered(access.fields, access.rest, types);
    }
  }

  lemma {:induction false} TypedBound(e: Expr, types: map<Ident, Ty>, vars: map<Ident, Location>, env: Env, core: Core)
    requires WellTyped(e, types) && EnvTyped(env, types) && Holding(vars, env, core)
    ensures Bound(e, vars)
  {
    match e
    case Unary(_, inner, _) => TypedBound(inner, types, vars, env, core);
    case Binary(_, l, r, _) =>
      TypedBound(l, types, vars, env, core);
      TypedBound(r, types, vars, env, core);
    case Parens(inner) => TypedBound(inner, types, vars, env, core);
    case _ =>
  }

  /** The registers that the address of a field takes. */
  function FieldPeak(access: Access, n: nat): nat {
    if access.EndsInElement() then IndexPeak(IndexOf(access), n) else n
  }

  /** Every access that resolves to a leaf inside the slot: its address compiles, for every order of the registers, if
      and only if there are registers for its index and two more. */
  lemma FieldCompilesExactly(order: Order, vars: map<Ident, Location>, used: set<Register>, fields: seq<Field>, access: Access,
                             offset: nat, n: nat, types: map<Ident, Ty>, env: Env, path: Layout.Path, core: Core)
    requires Complete(order) && Count(used, n) && EnvTyped(env, types) && Holding(vars, env, core)
    requires AccessOk(fields, access, types) && Resolve(access, env) == Some(path) && Layout.IsLeaf(fields, path)
    requires Layout.PathOffset(fields, path) <= offset
    ensures FieldAddress(order, vars, used, fields, access, offset, RBP).Ok? <==> FieldPeak(access, n) <= REGS
  {
    hide FieldAddress, Complete, AccessOk, Resolve, Layout.IsLeaf, Holding, ExprOk, IndexUse, IndexPeak, IndexArr;
    var scope := CodePlan.Scope(vars, 0);
    FieldBeforeLeaf(fields, access, types, env, path);
    CountBounded(used, n);
    FieldAddressExactly(order, vars, used, fields, access, offset, RBP, scope, n);
    if access.EndsInElement() {
      IndexCovered(fields, access, types);
      assert WellTyped(IndexOf(access), types) && Compilable(IndexOf(access)) by { Covers(IndexOf(access), types); }
      TypedBound(IndexOf(access), types, vars, env, core);
      IndexFits(IndexOf(access), scope, n);
    }
  }

  lemma Covers(e: Expr, types: map<Ident, Ty>)
    requires ExprOk(e, types)
    ensures WellTyped(e, types) && Compilable(e)
  {
  }

  /** A struct initialiser with no more leaves than the struct compiles, for every order of the registers, if and only
      if there are registers for its leaves. */
  lemma LetStructCompilesExactly(order: Order, frame: Frame, name: Ident, fields: seq<Field>, inits: seq<FieldInit>, n: nat,
                                 types: map<Ident, Ty>, env: Env, core: Core)
    requires Complete(order) && Count(frame.used, n) && EnvTyped(env, types) && Holding(frame.vars, env, core)
    requires AllOk(Layout.Flatten(inits), types) && name !in types
    requires 8 * |Layout.Flatten(inits)| <= Layout.FieldsSize(fields)
    ensures LetStructCode(order, frame, name, fields, inits).Ok? <==> LeavesNeed(Layout.Flatten(inits), n).peak <= REGS
  {
    hide StoreLeaves, Complete, LeavesUse, LeavesNeed, ExprOk, Layout.Flatten;
    var alloc := AllocSlot(frame, name, Struct(fields));
    var leaves := Layout.Flatten(inits);
    var scope := CodePlan.ScopeOf(alloc.frame);
    CountBounded(frame.used, n);
    forall e | e in leaves ensures Compilable(e) && Bound(e, scope.vars) {
      Covers(e, types);
      TypedBound(e, types, frame.vars, env, core);
      BoundStays(e, types, frame.vars, name, NumberedOffset(alloc.frame.currentStack, RBP));
    }
    LeavesFit(leaves, scope, n, alloc.frame.currentStack);
    LeavesUsed(order, alloc.frame, leaves, alloc.frame.currentStack, n);
  }

  lemma {:induction false} BoundStays(e: Expr, types: map<Ident, Ty>, vars: map<Ident, Location>, x: Ident, loc: Location)
    requires WellTyped(e, types) && Bound(e, vars) && x !in types
    ensures Bound(e, vars[x := loc])
  {
    match e
    case Unary(_, inner, _) => BoundStays(inner, types, vars, x, loc);
    case Binary(_, l, r, _) =>
      BoundStays(l, types, vars, x, loc);
      BoundStays(r, types, vars, x, loc);
    case Parens(inner) => BoundStays(inner, types, vars, x, loc);
    case _ =>
  }

  /** Initialise a struct and take the address of one of its leaves: if there are registers for the expressions both
      compile, and in memory at the address is the value of the expression that was written for the leaf,
      provided the expressions are written in the order of the leaves. */
  lemma StructRoundTrip(
      order: Order, frame: Frame, name: Ident, fields: seq<Field>, inits: seq<FieldInit>, access: Access, k: nat,
      used: set<Register>, n: nat, m: nat, types: map<Ident, Ty>, env: Env, core: Core, base: int)
    returns (init: Emitted, address: Built, mid: Core, after: Core)
    requires Complete(order) && Count(frame.used, n) && Count(used, m)
    requires LeavesNeed(Layout.Flatten(inits), n).peak <= REGS && FieldPeak(access, m) <= REGS
    requires Related(frame.vars, frame.currentStack, types, env, core, base) && base % 8 == 0
    requires name !in types && Layout.Plain(fields) && AllOk(Layout.Flatten(inits), types)
    requires base - (frame.currentStack + Layout.FieldsSize(fields)) >= 0 && Layout.FieldsSize(fields) <= IMM_MAX
    requires MappedRange(core, base - (frame.currentStack + Layout.FieldsSize(fields)), base - frame.currentStack)
    requires Layout.InitPaths(inits) <= Layout.LeafPaths(fields) && k < |Layout.InitPaths(inits)|
    requires AccessOk(fields, access, types) && Resolve(access, env) == Some(Layout.InitPaths(inits)[k])
    ensures LetStructCode(order, frame, name, fields, inits) == Ok(init)
    ensures FieldAddress(order, init.frame.vars, used, fields, access, init.frame.currentStack, RBP) == Ok(address)
    ensures RunStraight(init.code, core) == Some(mid) && RunStraight(address.code, mid) == Some(after)
    ensures ReadsBack(after, address.loc, Layout.Flatten(inits)[k], env)
  {
    hide RunStraight, Related, LetStructCode, FieldAddress, Layout.Flatten, Layout.InitPaths, Layout.LeafPaths, Layout.IsLeaf,
         Layout.PathOffset, Layout.FieldsSize, Eval, Layout.Plain, LeavesNeed, FieldPeak, Complete, AccessOk, Resolve, Count;
    var top := frame.currentStack + Layout.FieldsSize(fields);
    var path := Layout.InitPaths(inits)[k];
    Layout.FieldsFill(fields);
    Layout.LeafAt(fields, k);
    HoldingOf(frame.vars, frame.currentStack, types, env, core, base);
    LetStructCompilesExactly(order, frame, name, fields, inits, n, types, env, core);
    init := LetStructCode(order, frame, name, fields, inits).value;
    mid := LetStructRuns(order, frame, name, fields, inits, types, env, core, base);
    HoldingOf(init.frame.vars, top, types, env, mid, base);
    FieldCompilesExactly(order, init.frame.vars, used, fields, access, top, m, types, env, path, mid);
    address := FieldAddress(order, init.frame.vars, used, fields, access, top, RBP).value;
    after := FieldAddressRuns(order, init.frame.vars, used, fields, access, top, types, env, path, mid);
    assert HoldsValue(mid, top - 8 * k, Layout.Flatten(inits)[k], env);
  }

  lemma HoldingOf(vars: map<Ident, Location>, size: nat, types: map<Ident, Ty>, env: Env, core: Core, base: int)
    requires Related(vars, size, types, env, core, base)
    ensures Holding(vars, env, core) && EnvTyped(env, types) && core.Reg(RBP) == base
  {
  }
}
