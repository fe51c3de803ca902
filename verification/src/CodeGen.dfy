/** The generator itself: an object whose methods append to the instruction buffer and update
    the used registers, the stack counters and the variable table in place. Each method is
    proved to do exactly what the functions of `AsmSpec` say, panics included. */
module CodeGenerator {
  import opened Words
  import opened Lir
  import opened Machine
  import opened AsmSpec
  import Layout

  class CodeGen {
    var asmBuf: seq<Instruction>
    var usedRegs: set<Register>
    var currentStack: nat
    var totalStack: nat
    var vars: map<Ident, Location>
    /** The iteration order of the hash set of usable registers. */
    const order: Order

    constructor (order: Order)
      ensures this.order == order && asmBuf == [] && State() == EMPTY_FRAME
    {
      this.order := order;
      asmBuf, usedRegs, currentStack, totalStack, vars := [], {}, 0, 0, map[];
    }

    /** Everything but the buffer. */
    function State(): Frame
      reads this
    {
      Frame(usedRegs, currentStack, totalStack, vars)
    }

    /** What a method that emits code has done, given what the specification emits. */
    twostate predicate Did(emitted: Emitted)
      reads this
    {
      asmBuf == old(asmBuf) + emitted.code && State() == emitted.frame
    }

    /** What `build_value` and its helpers have done: only the buffer and the used registers change. */
    twostate predicate DidBuild(code: seq<Instruction>, used: set<Register>)
      reads this
    {
      asmBuf == old(asmBuf) + code && State() == old(State()).(used := used)
    }

    lemma Join(a: seq<Instruction>, b: seq<Instruction>, c: seq<Instruction>)
      ensures a + b + c == a + (b + c)
    {
    }

    method FreeReg() returns (r: Result<Usable>)
      modifies this`usedRegs
      ensures r == AsmSpec.FreeReg(order, old(usedRegs))
      ensures r.Ok? ==> usedRegs == old(usedRegs) + {r.value}
    {
      var i := 0;
      while i < |order|
        invariant 0 <= i <= |order|
        invariant usedRegs == old(usedRegs)
        invariant AsmSpec.FreeReg(order, usedRegs) == AsmSpec.FreeReg(order[i..], usedRegs)
      {
        if order[i] !in usedRegs {
          UseReg(order[i]);
          return Ok(order[i]);
        }
        assert order[i..][1..] == order[i + 1..];
        i := i + 1;
      }
      return Panic(OutOfRegisters);
    }

    method UseReg(reg: Register)
      modifies this`usedRegs
      ensures usedRegs == old(usedRegs) + {reg}
    {
      usedRegs := usedRegs + {reg};
    }

    method ClearRegsExcept(loc: Option<Location>, canClear: CanClearRegs)
      modifies this`usedRegs
      ensures usedRegs == AsmSpec.ClearRegsExcept(old(usedRegs), loc, canClear)
    {
      if canClear == No {
        return;
      }
      usedRegs := {};
      if loc.Some? && loc.value.RegLoc? {
        UseReg(loc.value.reg);
      }
    }

    method OrderOperands(lval: Location, rval: Location, op: BinOp) returns (r: Result<(Location, Location)>)
      modifies this`usedRegs, this`asmBuf
      ensures match AsmSpec.OrderOperands(order, old(usedRegs), lval, rval, op)
              case Ok(o) => r == Ok((o.left, o.right)) && DidBuild(o.code, o.used)
              case Panic(why) => r == Panic(why)
    {
      var left, right := lval, rval;
      if op.Sub? {
        left, right := right, left;
      }
      if right.Const? {
        if op.Sub? || op.Div? || op.Rem? {
          var reg :- FreeReg();
          asmBuf := asmBuf + [SizedMov(right, RegLoc(reg), 8)];
          right := RegLoc(reg);
        } else {
          left, right := right, left;
        }
      }
      return Ok((left, right));
    }

    /** `Instruction::from_binop_cmp` returns its instructions; the caller appends them. */
    method FromBinopCmp(lhs: Location, rhs: Location, op: BinOp, condReg: Register) returns (r: Result<seq<Instruction>>)
      requires op.IsCmp()
      modifies this`usedRegs
      ensures match AsmSpec.FromBinopCmp(order, old(usedRegs), lhs, rhs, op, condReg)
              case Ok(built) => r == Ok(built.0) && usedRegs == built.1
              case Panic(why) => r == Panic(why)
    {
      var left, right := lhs, rhs;
      if !left.Const? {
        left, right := right, left;
      }
      var inst := [];
      if right.IsStackOffset() {
        var tmp :- FreeReg();
        inst := [SizedMov(right, RegLoc(tmp), 8)];
        right := RegLoc(tmp);
      }
      inst := inst + SetOnFlag(left, right, condReg, FlagOf(op));
      assert !AsmSpec.FromBinopCmp(order, old(usedRegs), lhs, rhs, op, condReg).value.0[0].SizedMov? ==>
          inst == SetOnFlag(left, right, condReg, FlagOf(op));
      return Ok(inst);
    }

    /** Load the right operand of a binary operation when it is a stack slot. */
    method LoadRight(right: Location) returns (r: Result<Location>)
      modifies this`usedRegs, this`asmBuf
      ensures match AsmSpec.LoadRight(order, old(usedRegs), right)
              case Ok(b) => r == Ok(b.loc) && DidBuild(b.code, b.used)
              case Panic(why) => r == Panic(why)
    {
      if right.NumberedOffset? {
        var newReg :- FreeReg();
        asmBuf := asmBuf + [Mov(right, RegLoc(newReg))];
        return Ok(RegLoc(newReg));
      }
      return Ok(right);
    }

    /** Emit the instructions of a binary operation; the result says where its value is. */
    method Operate(lloc: Location, rloc: Location, op: BinOp) returns (r: Result<Location>)
      modifies this`usedRegs, this`asmBuf
      ensures match AsmSpec.Operate(order, old(usedRegs), lloc, rloc, op)
              case Ok(b) => r == Ok(b.loc) && DidBuild(b.code, b.used)
              case Panic(why) => r == Panic(why)
    {
      if op.IsCmp() {
        var condReg :- FreeReg();
        var inst :- FromBinopCmp(lloc, rloc, op, condReg);
        asmBuf := asmBuf + inst;
        return Ok(RegLoc(condReg));
      } else if op.Div? || op.Rem? {
        return Panic(Unsupported);
      } else {
        asmBuf := asmBuf + [Math(lloc, rloc, op)];
        return Ok(rloc);
      }
    }

    /** The part of `build_value` that follows the two operands of a binary operation. */
    method BuildBinary(lhs: Location, rhs: Location, op: BinOp, canClear: CanClearRegs) returns (r: Result<Location>)
      modifies this`usedRegs, this`asmBuf
      ensures match Combine(order, old(usedRegs), lhs, rhs, op, canClear)
              case Ok(b) => r == Ok(b.loc) && DidBuild(b.code, b.used)
              case Panic(why) => r == Panic(why)
    {
      hide AsmSpec.OrderOperands, AsmSpec.LoadRight, AsmSpec.Operate, AsmSpec.FreeReg, AsmSpec.ClearRegsExcept;
      ghost var spec := AsmSpec.OrderOperands(order, usedRegs, lhs, rhs, op);
      var operands :- OrderOperands(lhs, rhs, op);
      var (lloc, rloc) := operands;
      ghost var load := AsmSpec.LoadRight(order, usedRegs, rloc);
      rloc :- LoadRight(rloc);
      ghost var inst := AsmSpec.Operate(order, usedRegs, lloc, rloc, op);
      rloc :- Operate(lloc, rloc, op);
      ghost var code := spec.value.code + load.value.code + inst.value.code;
      assert asmBuf == old(asmBuf) + code;
      if rloc.RegLoc? {
        ClearRegsExcept(Some(rloc), canClear);
        return Ok(rloc);
      } else {
        var storeReg :- FreeReg();
        asmBuf := asmBuf + [Mov(rloc, RegLoc(storeReg))];
        Join(old(asmBuf), code, [Mov(rloc, RegLoc(storeReg))]);
        ClearRegsExcept(Some(RegLoc(storeReg)), canClear);
        return Ok(RegLoc(storeReg));
      }
    }

    /** The part of `build_value` that follows the operand of a unary operation. */
    method BuildUnary(operand: Location, op: UnOp, ty: Ty) returns (r: Result<Location>)
      modifies this`usedRegs, this`asmBuf
      ensures match Negate(order, old(usedRegs), operand, op, ty)
              case Ok(b) => r == Ok(b.loc) && DidBuild(b.code, b.used)
              case Panic(why) => r == Panic(why)
    {
      var register :- FreeReg();
      var val := operand;
      if val.IsStackOffset() {
        asmBuf := asmBuf + [Mov(val, RegLoc(register))];
        val := RegLoc(register);
      }
      if op.OnesComp? {
        return Panic(Unsupported);
      }
      var condReg :- FreeReg();
      if ty == Bool {
        asmBuf := asmBuf + SetOnFlag(ONE, val, condReg, IfNotEq);
      } else {
        asmBuf := asmBuf + SetOnFlag(ZERO, val, condReg, IfGreater);
      }
      return Ok(RegLoc(condReg));
    }

    method BuildValue(e: Expr, canClear: CanClearRegs) returns (r: Result<Location>)
      modifies this`usedRegs, this`asmBuf
      ensures match AsmSpec.BuildValue(order, vars, old(usedRegs), e, canClear)
              case Ok(b) => r == Ok(b.loc) && DidBuild(b.code, b.used)
              case Panic(why) => r == Panic(why)
      decreases e
    {
      hide Combine, Negate;
      match e
      case Var(x, _) =>
        if x !in vars {
          return Panic(UnboundName);
        }
        return Ok(vars[x]);
      case Unary(op, inner, ty) =>
        ghost var built := AsmSpec.BuildValue(order, vars, usedRegs, inner, canClear);
        var val :- BuildValue(inner, canClear);
        ghost var test := Negate(order, usedRegs, val, op, ty);
        r := BuildUnary(val, op, ty);
        if test.Ok? {
          Join(old(asmBuf), built.value.code, test.value.code);
        }
      case Binary(op, lhs, rhs, _) =>
        ghost var left := AsmSpec.BuildValue(order, vars, usedRegs, lhs, No);
        var lloc :- BuildValue(lhs, No);
        ghost var right := AsmSpec.BuildValue(order, vars, usedRegs, rhs, No);
        var rloc :- BuildValue(rhs, No);
        ghost var inst := Combine(order, usedRegs, lloc, rloc, op, canClear);
        r := BuildBinary(lloc, rloc, op, canClear);
        if inst.Ok? {
          Join(old(asmBuf), left.value.code, right.value.code);
          Join(old(asmBuf), left.value.code + right.value.code, inst.value.code);
        }
      case Parens(inner) =>
        r := BuildValue(inner, canClear);
      case Value(v) =>
        return Ok(Const(v));
    }

    method PushStack(shape: Shape)
      modifies this`asmBuf
      ensures asmBuf == old(asmBuf) + PushCode(shape)
      decreases shape
    {
      match shape
      case Scalar =>
        asmBuf := asmBuf + [Push(ZERO, 8)];
      case Array(len, elem) =>
        asmBuf := asmBuf + [TakeBytes(len * Layout.Size(elem))];
      case Struct(fields) =>
        var i := 0;
        assert fields[0..] == fields;
        while i < |fields|
          invariant 0 <= i <= |fields|
          invariant asmBuf + PushFields(fields[i..]) == old(asmBuf) + PushFields(fields)
        {
          ghost var before := asmBuf;
          assert fields[i..][0] == fields[i] && fields[i..][1..] == fields[i + 1..];
          assert fields decreases to fields[i];
          PushStack(fields[i].shape);
          Join(before, PushCode(fields[i].shape), PushFields(fields[i + 1..]));
          i := i + 1;
        }
      case Enum(variants) =>
        var largest, i := 0, 0;
        while i < |variants|
          invariant 0 <= i <= |variants| && largest == Layout.LargestVariant(variants, i)
        {
          var curr := Layout.PayloadSize(variants[i].types) + 8;
          if curr > largest {
            largest := curr;
          }
          i := i + 1;
        }
        asmBuf := asmBuf + [TakeBytes(largest)];
    }

    method AllocStack(name: Ident, shape: Shape) returns (loc: Location)
      modifies this
      ensures Did(AllocSlot(old(State()), name, shape))
      ensures vars[name] == loc == NumberedOffset(currentStack, RBP)
    {
      PushStack(shape);
      currentStack := currentStack + Layout.Size(shape);
      totalStack := totalStack + Layout.Size(shape);
      loc := NumberedOffset(currentStack, RBP);
      vars := vars[name := loc];
    }

    /** The move that ends an assignment. */
    method StoreTo(lloc: Location, rloc: Location) returns (r: Result<()>)
      modifies this`usedRegs, this`asmBuf
      ensures match AsmSpec.StoreTo(order, old(State()), lloc, rloc)
              case Ok(e) => r.Ok? && Did(e)
              case Panic(why) => r == Panic(why)
    {
      if lloc == rloc {
        return Ok(());
      }
      if lloc.IsStackOffset() && rloc.IsStackOffset() {
        var register :- FreeReg();
        ClearRegsExcept(None, Yes);
        asmBuf := asmBuf + [SizedMov(rloc, RegLoc(register), 8), SizedMov(RegLoc(register), lloc, 8)];
      } else {
        ClearRegsExcept(Some(lloc), Yes);
        asmBuf := asmBuf + [SizedMov(rloc, lloc, 8)];
      }
      return Ok(());
    }

    method GenAssign(name: Ident, rval: Expr, isLet: bool) returns (r: Result<()>)
      modifies this
      ensures match AssignCode(order, old(State()), name, rval, isLet)
              case Ok(e) => r.Ok? && Did(e)
              case Panic(why) => r == Panic(why)
    {
      hide AsmSpec.BuildValue, AsmSpec.StoreTo;
      ghost var alloc := if isLet then AsmSpec.AllocStack(State(), name) else Emitted([], State());
      var lloc;
      if isLet {
        lloc := AllocStack(name, Scalar);
        assert PushCode(Scalar) == [Push(ZERO, 8)];
      } else {
        if name !in vars {
          return Panic(UnboundName);
        }
        lloc := vars[name];
      }
      assert asmBuf == old(asmBuf) + alloc.code && State() == alloc.frame;
      ghost var built := AsmSpec.BuildValue(order, vars, usedRegs, rval, Yes);
      var rloc :- BuildValue(rval, Yes);
      ghost var store := AsmSpec.StoreTo(order, State(), lloc, rloc);
      r := StoreTo(lloc, rloc);
      if store.Ok? {
        Join(old(asmBuf), alloc.code, built.value.code);
        Join(old(asmBuf), alloc.code + built.value.code, store.value.code);
      }
    }

    // ---------- aggregates ----------

    /** A run of declarations without initialisers. */
    method Declare(decls: seq<Layout.Decl>)
      modifies this
      ensures Did(AllocAll(old(State()), decls))
    {
      ghost var spec := AllocAll(State(), decls);
      ghost var done: seq<Instruction> := [];
      var i := 0;
      assert decls[0..] == decls;
      while i < |decls|
        invariant 0 <= i <= |decls|
        invariant asmBuf == old(asmBuf) + done
        invariant spec.frame == AllocAll(State(), decls[i..]).frame
        invariant spec.code == done + AllocAll(State(), decls[i..]).code
      {
        assert decls[i..][0] == decls[i] && decls[i..][1..] == decls[i + 1..];
        ghost var code := PushCode(decls[i].shape);
        var _ := AllocStack(decls[i].name, decls[i].shape);
        i := i + 1;
        Join(old(asmBuf), done, code);
        Join(done, code, AllocAll(State(), decls[i..]).code);
        done := done + code;
      }
    }

    /** The struct branch of `build_value`: store the flattened initialiser from the slot's start up. */
    method InitStruct(inits: seq<FieldInit>, offset: nat) returns (r: Result<()>)
      modifies this`usedRegs, this`asmBuf
      ensures match StoreLeaves(order, old(State()), Layout.Flatten(inits), offset)
              case Ok(e) => r.Ok? && Did(e)
              case Panic(why) => r == Panic(why)
    {
      hide AsmSpec.BuildValue;
      var leaves, running, i := Layout.Flatten(inits), offset, 0;
      ghost var spec := StoreLeaves(order, State(), leaves, offset);
      ghost var done: seq<Instruction> := [];
      PrefixedNothing(spec);
      assert leaves[0..] == leaves;
      while i < |leaves|
        invariant 0 <= i <= |leaves|
        invariant asmBuf == old(asmBuf) + done
        invariant spec == Prefixed(done, StoreLeaves(order, State(), leaves[i..], running))
      {
        assert leaves[i..][0] == leaves[i] && leaves[i..][1..] == leaves[i + 1..];
        ghost var built := AsmSpec.BuildValue(order, vars, usedRegs, leaves[i], Yes);
        var rval :- BuildValue(leaves[i], Yes);
        ghost var store := StoreLeaf(order, usedRegs, rval, running);
        if rval.IsStackOffset() {
          var tmp :- FreeReg();
          asmBuf := asmBuf + [SizedMov(rval, RegLoc(tmp), 8)];
          usedRegs := usedRegs - {tmp};
          rval := RegLoc(tmp);
        }
        assert usedRegs == built.value.used;
        asmBuf := asmBuf + [SizedMov(rval, NumberedOffset(running, RBP), 8)];
        ghost var code := built.value.code + store.value;
        assert asmBuf == old(asmBuf) + done + code;
        if running < 8 {
          return Panic(Overflow);
        }
        running, i := running - 8, i + 1;
        PrefixedTwice(done, code, StoreLeaves(order, State(), leaves[i..], running));
        done := done + code;
      }
      return Ok(());
    }

    method GenLetStruct(name: Ident, fields: seq<Field>, inits: seq<FieldInit>) returns (r: Result<()>)
      modifies this
      ensures match LetStructCode(order, old(State()), name, fields, inits)
              case Ok(e) => r.Ok? && Did(e)
              case Panic(why) => r == Panic(why)
    {
      hide StoreLeaves;
      var loc := AllocStack(name, Struct(fields));
      ghost var stores := StoreLeaves(order, State(), Layout.Flatten(inits), currentStack);
      r := InitStruct(inits, currentStack);
      if stores.Ok? {
        Join(old(asmBuf), PushCode(Struct(fields)), stores.value.code);
      }
    }

    /** The value of a payload item. */
    method BuildItem(item: PayloadItem) returns (r: Result<Location>)
      modifies this`usedRegs, this`asmBuf
      ensures match AsmSpec.BuildItem(order, old(State()), item)
              case Ok(b) => r == Ok(b.loc) && DidBuild(b.code, b.used)
              case Panic(why) => r == Panic(why)
    {
      match item
      case Single(e) => r := BuildValue(e, Yes);
      case Copied(x, _) =>
        if x !in vars {
          return Panic(UnboundName);
        }
        assert asmBuf == old(asmBuf) + [];
        return Ok(vars[x]);
    }

    /** The enum branch of `build_value`: the tag, then the payload. */
    method InitEnum(tag: nat, items: seq<PayloadItem>, offset: nat) returns (r: Result<()>)
      modifies this`usedRegs, this`asmBuf
      ensures match StorePayload(order, old(State()), items, offset)
              case Ok(e) => r.Ok? && Did(Emitted([TagStore(tag, offset)] + e.code, e.frame))
              case Panic(why) => r == Panic(why)
    {
      hide AsmSpec.BuildItem;
      var running, i := offset, 0;
      ghost var spec := StorePayload(order, State(), items, offset);
      ghost var done: seq<Instruction> := [];
      asmBuf := asmBuf + [TagStore(tag, offset)];
      PrefixedNothing(spec);
      assert items[0..] == items;
      while i < |items|
        invariant 0 <= i <= |items|
        invariant asmBuf == old(asmBuf) + ([TagStore(tag, offset)] + done)
        invariant spec == Prefixed(done, StorePayload(order, State(), items[i..], running))
      {
        assert items[i..][0] == items[i] && items[i..][1..] == items[i + 1..];
        ghost var built := AsmSpec.BuildItem(order, State(), items[i]);
        var rval :- BuildItem(items[i]);
        var eleSize := ItemSize(items[i]);
        if running < eleSize {
          return Panic(Overflow);
        }
        running, i := running - eleSize, i + 1;
        asmBuf := asmBuf + [SizedMov(rval, NumberedOffset(running, RBP), eleSize)];
        ghost var code := built.value.code + [SizedMov(rval, NumberedOffset(running, RBP), eleSize)];
        PrefixedTwice(done, code, StorePayload(order, State(), items[i..], running));
        assert asmBuf == old(asmBuf) + ([TagStore(tag, offset)] + (done + code));
        done := done + code;
      }
      return Ok(());
    }

    method GenLetEnum(name: Ident, variants: seq<Variant>, variant: Ident, items: seq<PayloadItem>) returns (r: Result<()>)
      modifies this
      ensures match LetEnumCode(order, old(State()), name, variants, variant, items)
              case Ok(e) => r.Ok? && Did(e)
              case Panic(why) => r == Panic(why)
    {
      hide StorePayload;
      var loc := AllocStack(name, Enum(variants));
      var tag := TagOf(variants, variant);
      if tag.None? {
        return Panic(UnboundName);
      }
      ghost var stores := StorePayload(order, State(), items, currentStack);
      r := InitEnum(tag.value, items, currentStack);
      if stores.Ok? {
        Join(old(asmBuf), PushCode(Enum(variants)), [TagStore(tag.value, currentStack)] + stores.value.code);
        Join(PushCode(Enum(variants)), [TagStore(tag.value, currentStack)], stores.value.code);
      }
    }

    method IndexArr(arr: Location, index: Expr, eleSize: nat) returns (r: Result<Location>)
      modifies this`usedRegs, this`asmBuf
      ensures match AsmSpec.IndexArr(order, old(vars), old(usedRegs), arr, index, eleSize)
              case Ok(b) => r == Ok(b.loc) && DidBuild(b.code, b.used)
              case Panic(why) => r == Panic(why)
    {
      hide AsmSpec.BuildValue;
      if index.Value? && index.val.IntVal? {
        var tmp :- FreeReg();
        var arrayReg :- FreeReg();
        asmBuf := asmBuf + [Load(arr, RegLoc(arrayReg), eleSize),
                            Math(Const(IntVal(Wrap(eleSize * index.val.i))), RegLoc(arrayReg), Add)];
        assert usedRegs == old(usedRegs) + {tmp, arrayReg};
        return Ok(RegLoc(arrayReg));
      } else {
        ghost var built := AsmSpec.BuildValue(order, vars, usedRegs, index, No);
        var value :- BuildValue(index, No);
        var tmp :- FreeReg();
        var arrayReg :- FreeReg();
        var code := [SizedMov(value, RegLoc(tmp), 8), Math(Const(IntVal(Wrap(eleSize))), RegLoc(tmp), Mul),
                     Load(arr, RegLoc(arrayReg), eleSize), Math(RegLoc(tmp), RegLoc(arrayReg), Add)];
        asmBuf := asmBuf + code;
        Join(old(asmBuf), built.value.code, code);
        assert usedRegs == built.value.used + {tmp, arrayReg};
        return Ok(RegLoc(arrayReg));
      }
    }

    /** `construct_field_offset_lvalue`: walk the fields up to the one that is named. */
    method FieldAddress(fields: seq<Field>, access: Access, offset: nat, base: Register) returns (r: Result<Location>)
      modifies this`usedRegs, this`asmBuf
      ensures match AsmSpec.FieldAddress(order, old(vars), old(usedRegs), fields, access, offset, base)
              case Ok(b) => r == Ok(b.loc) && DidBuild(b.code, b.used)
              case Panic(why) => r == Panic(why)
      decreases access
    {
      hide AsmSpec.IndexArr;
      var count: nat, i := 0, 0;
      assert fields[0..] == fields;
      while i < |fields| && fields[i].name != access.name
        invariant 0 <= i <= |fields|
        invariant Layout.Find(fields, access.name) ==
                  (match Layout.Find(fields[i..], access.name)
                   case Some(f) => Some(Layout.Found(count + f.before, f.shape))
                   case None => None)
      {
        assert fields[i..][0] == fields[i] && fields[i..][1..] == fields[i + 1..];
        count, i := count + Layout.Size(fields[i].shape), i + 1;
      }
      if i == |fields| {
        return Panic(UnboundName);
      }
      if offset < count {
        return Panic(Overflow);
      }
      match access
      case Whole(_) =>
        assert asmBuf == old(asmBuf) + [];
        return Ok(NumberedOffset(offset - count, base));
      case Element(_, index) =>
        var shape := fields[i].shape;
        r := IndexArr(NumberedOffset(offset - count, base), index, Layout.Size(if shape.Array? then shape.elem else shape));
      case Inner(_, rest, inner) =>
        r := FieldAddress(inner, rest, offset - count, base);
    }

    /** The move that ends an assignment to an element whose address is in a register. */
    method StoreElement(address: Register, rloc: Location) returns (r: Result<()>)
      modifies this`usedRegs, this`asmBuf
      ensures match AsmSpec.StoreElement(order, old(State()), address, rloc)
              case Ok(e) => r.Ok? && Did(e)
              case Panic(why) => r == Panic(why)
    {
      if rloc == RegLoc(address) {
        return Ok(());
      }
      ClearRegsExcept(Some(RegLoc(address)), Yes);
      if rloc.IsStackOffset() {
        var register :- FreeReg();
        asmBuf := asmBuf + [SizedMov(rloc, RegLoc(register), 8), SizedMov(RegLoc(register), NumberedOffset(0, address), 8)];
      } else {
        asmBuf := asmBuf + [SizedMov(rloc, NumberedOffset(0, address), 8)];
      }
      return Ok(());
    }

    /** The assignment once the address of its target has been built. */
    method StoreThrough(loc: Location, rval: Expr) returns (r: Result<()>)
      modifies this`usedRegs, this`asmBuf
      ensures match AsmSpec.StoreThrough(order, old(State()), Built([], old(usedRegs), loc), rval)
              case Ok(e) => r.Ok? && Did(e)
              case Panic(why) => r == Panic(why)
    {
      hide AsmSpec.BuildValue, AsmSpec.StoreTo, AsmSpec.StoreElement;
      ghost var built := AsmSpec.BuildValue(order, vars, usedRegs, rval, Yes);
      var rloc :- BuildValue(rval, Yes);
      ghost var store := if loc.RegLoc? then AsmSpec.StoreElement(order, State(), loc.reg, rloc)
                         else AsmSpec.StoreTo(order, State(), loc, rloc);
      if loc.RegLoc? {
        r := StoreElement(loc.reg, rloc);
      } else {
        r := StoreTo(loc, rloc);
      }
      if store.Ok? {
        assert [] + built.value.code + store.value.code == built.value.code + store.value.code;
        Join(old(asmBuf), built.value.code, store.value.code);
      }
    }

    method GenSetItem(name: Ident, index: Expr, rval: Expr) returns (r: Result<()>)
      modifies this`usedRegs, this`asmBuf
      ensures match SetItemCode(order, old(State()), name, index, rval)
              case Ok(e) => r.Ok? && Did(e)
              case Panic(why) => r == Panic(why)
    {
      hide AsmSpec.StoreThrough, AsmSpec.IndexArr;
      if name !in vars {
        return Panic(UnboundName);
      }
      if !vars[name].NumberedOffset? {
        return Panic(Unsupported);
      }
      ghost var before := State();
      ghost var target := AsmSpec.IndexArr(order, vars, usedRegs, vars[name], index, 8);
      var loc :- IndexArr(vars[name], index, 8);
      ghost var frame := State();
      StoreAfter(before, frame, target.value, rval);
      ghost var store := AsmSpec.StoreThrough(order, frame, Built([], usedRegs, loc), rval);
      r := StoreThrough(loc, rval);
      if store.Ok? {
        Join(old(asmBuf), target.value.code, store.value.code);
      }
    }

    method GenSetField(name: Ident, fields: seq<Field>, access: Access, rval: Expr) returns (r: Result<()>)
      modifies this`usedRegs, this`asmBuf
      ensures match SetFieldCode(order, old(State()), name, fields, access, rval)
              case Ok(e) => r.Ok? && Did(e)
              case Panic(why) => r == Panic(why)
    {
      hide AsmSpec.StoreThrough, AsmSpec.FieldAddress;
      if name !in vars {
        return Panic(UnboundName);
      }
      if !vars[name].NumberedOffset? {
        return Panic(Unsupported);
      }
      var slot := vars[name];
      ghost var before := State();
      ghost var target := AsmSpec.FieldAddress(order, vars, usedRegs, fields, access, slot.offset, slot.base);
      var loc :- FieldAddress(fields, access, slot.offset, slot.base);
      ghost var frame := State();
      StoreAfter(before, frame, target.value, rval);
      ghost var store := AsmSpec.StoreThrough(order, frame, Built([], usedRegs, loc), rval);
      r := StoreThrough(loc, rval);
      if store.Ok? {
        Join(old(asmBuf), target.value.code, store.value.code);
      }
    }

    /** An assignment through an address is the code of the address followed by the rest. */
    lemma StoreAfter(frame: Frame, next: Frame, target: Built, rval: Expr)
      requires next == frame.(used := target.used)
      ensures AsmSpec.StoreThrough(order, frame, target, rval)
           == Prefixed(target.code, AsmSpec.StoreThrough(order, next, Built([], target.used, target.loc), rval))
    {
      hide AsmSpec.BuildValue, AsmSpec.StoreTo, AsmSpec.StoreElement;
      var built := AsmSpec.BuildValue(order, frame.vars, target.used, rval, Yes);
      if built.Ok? {
        var rest := frame.(used := built.value.used);
        assert rest == next.(used := built.value.used);
        var store := if target.loc.RegLoc? then AsmSpec.StoreElement(order, rest, target.loc.reg, built.value.loc)
                     else AsmSpec.StoreTo(order, rest, target.loc, built.value.loc);
        if store.Ok? {
          assert target.code + built.value.code + store.value.code
              == target.code + ([] + built.value.code + store.value.code);
        }
      }
    }

    // ---------- match ----------

    /** `gen_match_arm` on a flat pattern; its label goes to the arm's own stream. */
    method GenMatchArm(arm: Arm, tagVal: Location, variants: seq<Variant>) returns (r: Result<seq<Instruction>>)
      requires tagVal.NumberedOffset?
      modifies this`asmBuf, this`vars
      ensures if arm.variant >= |variants| || |arm.binds| > |variants[arm.variant].types| then r == Panic(Unsupported)
              else
                var lbl := MatchArm(|old(asmBuf)|, arm.variant);
                match Bind(old(vars), arm.binds, tagVal.offset, tagVal.base)
                case Ok(bound) =>
                  && r == Ok([LabelDef(lbl)]) && asmBuf == old(asmBuf) + Test(arm.variant, tagVal, lbl)
                  && State() == old(State()).(vars := bound)
                case Panic(why) => r == Panic(why)
    {
      if arm.variant >= |variants| || |arm.binds| > |variants[arm.variant].types| {
        return Panic(Unsupported);
      }
      var lbl := MatchArm(|asmBuf|, arm.variant);
      asmBuf := asmBuf + Test(arm.variant, tagVal, lbl);
      var i := 0;
      while i < |arm.binds|
        invariant 0 <= i <= |arm.binds|
        invariant Bind(old(vars), arm.binds[..i], tagVal.offset, tagVal.base) == Ok(vars)
        invariant asmBuf == old(asmBuf) + Test(arm.variant, tagVal, lbl)
        invariant State() == old(State()).(vars := vars)
      {
        assert arm.binds[..i + 1][..i] == arm.binds[..i];
        if tagVal.offset < (i + 1) * 8 {
          BindFails(old(vars), arm.binds, i + 1, tagVal.offset, tagVal.base);
          return Panic(Overflow);
        }
        vars := vars[arm.binds[i] := NumberedOffset(tagVal.offset - (i + 1) * 8, tagVal.base)];
        i := i + 1;
      }
      assert arm.binds[..i] == arm.binds;
      return Ok([LabelDef(lbl)]);
    }

    lemma {:induction false} BindFails(names: map<Ident, Location>, binds: seq<Ident>, n: nat, offset: nat, base: Register)
      requires n <= |binds| && Bind(names, binds[..n], offset, base) == Panic(Overflow)
      ensures Bind(names, binds, offset, base) == Panic(Overflow)
      decreases |binds|
    {
      if n < |binds| {
        var last := |binds| - 1;
        assert binds[..last][..n] == binds[..n];
        BindFails(names, binds[..last], n, offset, base);
      } else {
        assert binds[..n] == binds;
      }
    }

    /** One arm: its comparison stays in the buffer, its block is generated into a stream of its own. */
    method GenArm(arm: Arm, tagVal: Location, variants: seq<Variant>, merge: Label)
      returns (r: Result<seq<Instruction>>)
      requires tagVal.NumberedOffset?
      modifies this
      ensures match ArmCode(order, old(State()), |old(asmBuf)|, tagVal, variants, arm, merge)
              case Ok(s) => r == Ok(s.blocks) && Did(Emitted(s.chain, s.frame))
              case Panic(why) => r == Panic(why)
      decreases arm, 3
    {
      var stream :- GenMatchArm(arm, tagVal, variants);
      var buffer := asmBuf;
      asmBuf := stream;
      var _ :- GenStatements(arm.body);
      asmBuf := asmBuf + [Jmp(merge)];
      stream, asmBuf := asmBuf, buffer;
      return Ok(stream);
    }

    method Extend(streams: seq<seq<Instruction>>)
      modifies this`asmBuf
      ensures asmBuf == old(asmBuf) + Concat(streams)
    {
      var k := 0;
      while k < |streams|
        invariant 0 <= k <= |streams|
        invariant asmBuf == old(asmBuf) + Concat(streams[..k])
      {
        assert streams[..k + 1][..k] == streams[..k];
        asmBuf := asmBuf + streams[k];
        k := k + 1;
      }
      assert streams[..k] == streams;
    }

    lemma NoStreams()
      ensures Concat([]) == []
    {
    }

    lemma OneMoreStream(streams: seq<seq<Instruction>>, stream: seq<Instruction>)
      ensures Concat(streams + [stream]) == Concat(streams) + stream
    {
      assert (streams + [stream])[..|streams|] == streams;
    }

    method GenArms(arms: seq<Arm>, val: Location, variants: seq<Variant>, merge: Label)
      returns (r: Result<seq<seq<Instruction>>>)
      requires val.NumberedOffset?
      modifies this
      ensures match ArmsCode(order, old(State()), |old(asmBuf)|, val, variants, arms, merge)
              case Ok(s) => r.Ok? && Concat(r.value) == s.blocks && Did(Emitted(s.chain, s.frame))
              case Panic(why) => r == Panic(why)
      decreases arms, 4
    {
      hide ArmCode, Concat;
      NoStreams();
      var jumpStream: seq<seq<Instruction>> := [];
      ghost var spec := ArmsCode(order, State(), |asmBuf|, val, variants, arms, merge);
      ghost var chain: seq<Instruction> := [];
      var i := 0;
      assert arms[0..] == arms;
      SplitAfterNothing(spec);
      while i < |arms|
        invariant 0 <= i <= |arms|
        invariant asmBuf == old(asmBuf) + chain
        invariant spec == SplitAfter(chain, Concat(jumpStream),
                                     ArmsCode(order, State(), |asmBuf|, val, variants, arms[i..], merge))
      {
        assert arms[i..][0] == arms[i] && arms[i..][1..] == arms[i + 1..];
        ghost var first := ArmCode(order, State(), |asmBuf|, val, variants, arms[i], merge);
        var stream :- GenArm(arms[i], val, variants, merge);
        i := i + 1;
        ghost var rest := ArmsCode(order, State(), |asmBuf|, val, variants, arms[i..], merge);
        SplitAfterTwice(chain, first.value.chain, Concat(jumpStream), first.value.blocks, rest);
        Join(old(asmBuf), chain, first.value.chain);
        chain := chain + first.value.chain;
        OneMoreStream(jumpStream, stream);
        jumpStream := jumpStream + [stream];
      }
      return Ok(jumpStream);
    }

    /** `match` on a variable: the comparisons, then the streams of the arms. */
    method GenMatch(name: Ident, variants: seq<Variant>, arms: seq<Arm>) returns (r: Result<()>)
      modifies this
      ensures match MatchCode(order, old(State()), |old(asmBuf)|, name, variants, arms)
              case Ok(e) => r.Ok? && Did(e)
              case Panic(why) => r == Panic(why)
      decreases arms, 5
    {
      hide ArmsCode;
      if name !in vars {
        return Panic(UnboundName);
      }
      var val := vars[name];
      if !val.NumberedOffset? {
        return Panic(Unsupported);
      }
      var merge := MatchMerge(|asmBuf|);
      ghost var spec := ArmsCode(order, State(), |asmBuf|, val, variants, arms, merge);
      var jumpStream :- GenArms(arms, val, variants, merge);
      Extend(jumpStream);
      asmBuf := asmBuf + [LabelDef(merge)];
      Join(old(asmBuf), spec.value.chain, spec.value.blocks);
      Join(old(asmBuf), spec.value.chain + spec.value.blocks, [LabelDef(merge)]);
      return Ok(());
    }

    lemma SplitAfterNothing(r: Result<Split>)
      ensures SplitAfter([], Concat([]), r) == r
    {
      if r.Ok? {
        assert [] + r.value.chain == r.value.chain && [] + r.value.blocks == r.value.blocks;
      }
    }

    lemma SplitAfterTwice(a: seq<Instruction>, b: seq<Instruction>, c: seq<Instruction>, d: seq<Instruction>, r: Result<Split>)
      ensures SplitAfter(a, c, SplitAfter(b, d, r)) == SplitAfter(a + b, c + d, r)
    {
      if r.Ok? {
        assert a + (b + r.value.chain) == a + b + r.value.chain && c + (d + r.value.blocks) == c + d + r.value.blocks;
      }
    }

    method GenRet(e: Expr) returns (r: Result<()>)
      modifies this`usedRegs, this`asmBuf
      ensures match RetCode(order, old(State()), e)
              case Ok(built) => r.Ok? && Did(built)
              case Panic(why) => r == Panic(why)
    {
      var val :- BuildValue(e, Yes);
      if val != RegLoc(RAX) {
        asmBuf := asmBuf + [Mov(val, RegLoc(RAX))];
      }
      asmBuf := asmBuf + [Leave, Return];
      return Ok(());
    }

    method GenCond(cond: Expr) returns (r: Result<()>)
      modifies this`usedRegs, this`asmBuf
      ensures match CondCode(order, old(State()), cond)
              case Ok(built) => r.Ok? && Did(built)
              case Panic(why) => r == Panic(why)
    {
      var condVal :- BuildValue(cond, Yes);
      asmBuf := asmBuf + [Cmp(ONE, condVal)];
      return Ok(());
    }

    method GenStatement(stmt: Stmt) returns (r: Result<()>)
      modifies this
      ensures match StmtCode(order, old(State()), |old(asmBuf)|, stmt)
              case Ok(e) => r.Ok? && Did(e)
              case Panic(why) => r == Panic(why)
      decreases stmt, 1
    {
      hide AssignCode, RetCode, CondCode, BlockCode, MatchCode, LetStructCode, LetEnumCode, SetItemCode, SetFieldCode;
      match stmt
      case Assign(x, _, rval, isLet) =>
        r := GenAssign(x, rval, isLet);
      case If(cond, blk, els) =>
        r := GenIf(cond, blk, els);
      case While(cond, blk) =>
        r := GenWhile(cond, blk);
      case Ret(e) =>
        r := GenRet(e);
      case Exit =>
        asmBuf := asmBuf + [Leave, Return];
        r := Ok(());
      case Declare(x, shape) =>
        var _ := AllocStack(x, shape);
        r := Ok(());
      case LetStruct(x, fields, inits) =>
        r := GenLetStruct(x, fields, inits);
      case LetEnum(x, variants, variant, items) =>
        r := GenLetEnum(x, variants, variant, items);
      case SetItem(x, index, rval) =>
        r := GenSetItem(x, index, rval);
      case SetField(x, fields, access, rval) =>
        r := GenSetField(x, fields, access, rval);
      case Match(x, variants, arms) =>
        r := GenMatch(x, variants, arms);
    }

    method GenIf(cond: Expr, blk: seq<Stmt>, els: seq<Stmt>) returns (r: Result<()>)
      modifies this
      ensures match StmtCode(order, old(State()), |old(asmBuf)|, If(cond, blk, els))
              case Ok(e) => r.Ok? && Did(e)
              case Panic(why) => r == Panic(why)
      decreases If(cond, blk, els), 0
    {
      hide CondCode, BlockCode, AssignCode, RetCode, LetStructCode, LetEnumCode, SetItemCode, SetFieldCode, MatchCode;
      ghost var test := CondCode(order, State(), cond);
      var _ :- GenCond(cond);
      ghost var code := test.value.code;
      var name := JmpIf(|asmBuf|);
      asmBuf := asmBuf + [CondJmp(name, JmpNotEq)];
      Join(old(asmBuf), code, [CondJmp(name, JmpNotEq)]);
      code := code + [CondJmp(name, JmpNotEq)];
      ghost var thn := BlockCode(order, State(), |asmBuf|, blk);
      var _ :- GenStatements(blk);
      Join(old(asmBuf), code, thn.value.code);
      code := code + thn.value.code;
      var mergeLabel := MergeIf(|asmBuf|);
      asmBuf := asmBuf + [Jmp(mergeLabel)];
      asmBuf := asmBuf + [LabelDef(name)];
      assert asmBuf == old(asmBuf) + (code + [Jmp(mergeLabel), LabelDef(name)]);
      code := code + [Jmp(mergeLabel), LabelDef(name)];
      ghost var otherwise := BlockCode(order, State(), |asmBuf|, els);
      var _ :- GenStatements(els);
      Join(old(asmBuf), code, otherwise.value.code);
      code := code + otherwise.value.code;
      asmBuf := asmBuf + [LabelDef(mergeLabel)];
      Join(old(asmBuf), code, [LabelDef(mergeLabel)]);
      return Ok(());
    }

    method GenWhile(cond: Expr, blk: seq<Stmt>) returns (r: Result<()>)
      modifies this
      ensures match StmtCode(order, old(State()), |old(asmBuf)|, While(cond, blk))
              case Ok(e) => r.Ok? && Did(e)
              case Panic(why) => r == Panic(why)
      decreases While(cond, blk), 0
    {
      hide CondCode, BlockCode, LoopTest;
      var uncondLabel := UncondWhile(|asmBuf|);
      asmBuf := asmBuf + [Jmp(uncondLabel)];
      var loopBody := JmpWhile(|asmBuf|);
      asmBuf := asmBuf + [LabelDef(loopBody)];
      ghost var code := [Jmp(uncondLabel), LabelDef(loopBody)];
      assert asmBuf == old(asmBuf) + code;
      ghost var body := BlockCode(order, State(), |asmBuf|, blk);
      var _ :- GenStatements(blk);
      Join(old(asmBuf), code, body.value.code);
      code := code + body.value.code;
      asmBuf := asmBuf + [LabelDef(uncondLabel)];
      Join(old(asmBuf), code, [LabelDef(uncondLabel)]);
      code := code + [LabelDef(uncondLabel)];
      ghost var test := LoopTest(order, State(), cond, loopBody);
      var _ :- GenLoopTest(cond, loopBody);
      Join(old(asmBuf), code, test.value.code);
      return Ok(());
    }

    /** The test at the bottom of a loop, with the jump back to the body. */
    method GenLoopTest(cond: Expr, loopBody: Label) returns (r: Result<()>)
      modifies this
      ensures match LoopTest(order, old(State()), cond, loopBody)
              case Ok(e) => r.Ok? && Did(e)
              case Panic(why) => r == Panic(why)
    {
      hide CondCode;
      if IsConstTrue(cond) {
        asmBuf := asmBuf + [Jmp(loopBody)];
      } else {
        ghost var test := CondCode(order, State(), cond);
        var _ :- GenCond(cond);
        asmBuf := asmBuf + [CondJmp(loopBody, JmpEq)];
        Join(old(asmBuf), test.value.code, [CondJmp(loopBody, JmpEq)]);
      }
      return Ok(());
    }

    /** The `for stmt in ...` loops over blocks and function bodies. */
    method GenStatements(stmts: seq<Stmt>) returns (r: Result<()>)
      modifies this
      ensures match BlockCode(order, old(State()), |old(asmBuf)|, stmts)
              case Ok(e) => r.Ok? && Did(e)
              case Panic(why) => r == Panic(why)
      decreases stmts, 2
    {
      hide StmtCode;
      ghost var spec := BlockCode(order, State(), |asmBuf|, stmts);
      ghost var done: seq<Instruction> := [];
      var i := 0;
      PrefixedNothing(spec);
      assert stmts[0..] == stmts;
      while i < |stmts|
        invariant 0 <= i <= |stmts|
        invariant asmBuf == old(asmBuf) + done
        invariant spec == Prefixed(done, BlockCode(order, State(), |asmBuf|, stmts[i..]))
      {
        ghost var first := StmtCode(order, State(), |asmBuf|, stmts[i]);
        assert stmts[i..][0] == stmts[i] && stmts[i..][1..] == stmts[i + 1..];
        var _ :- GenStatement(stmts[i]);
        i := i + 1;
        PrefixedTwice(done, first.value.code, BlockCode(order, State(), |asmBuf|, stmts[i..]));
        Join(old(asmBuf), done, first.value.code);
        done := done + first.value.code;
      }
      return Ok(());
    }

    method AllocArg(count: nat, name: Ident) returns (r: Result<()>)
      modifies this
      ensures if count >= |ARG_REGS| then r == Panic(TooManyParams)
              else r.Ok? && Did(Emitted([Push(RegLoc(ARG_REGS[count]), 8)],
                                        Frame(old(usedRegs), old(currentStack) + SCALAR_SIZE, old(totalStack) + SCALAR_SIZE,
                                              old(vars)[name := NumberedOffset(old(currentStack) + SCALAR_SIZE, RBP)])))
    {
      if count >= |ARG_REGS| {
        return Panic(TooManyParams);
      }
      currentStack := currentStack + SCALAR_SIZE;
      totalStack := totalStack + SCALAR_SIZE;
      asmBuf := asmBuf + [Push(RegLoc(ARG_REGS[count]), 8)];
      vars := vars[name := NumberedOffset(currentStack, RBP)];
      return Ok(());
    }

    method AllocArgs(params: seq<Param>) returns (r: Result<()>)
      modifies this
      ensures match ParamsCode(old(State()), params, 0)
              case Ok(e) => r.Ok? && Did(e)
              case Panic(why) => r == Panic(why)
    {
      ghost var spec := ParamsCode(State(), params, 0);
      ghost var done: seq<Instruction> := [];
      var i := 0;
      PrefixedNothing(spec);
      while i < |params|
        invariant 0 <= i <= |params|
        invariant asmBuf == old(asmBuf) + done
        invariant spec == Prefixed(done, ParamsCode(State(), params, i))
      {
        ghost var push := if i < |ARG_REGS| then [Push(RegLoc(ARG_REGS[i]), 8)] else [];
        var _ :- AllocArg(i, params[i].ident);
        i := i + 1;
        PrefixedTwice(done, push, ParamsCode(State(), params, i));
        Join(old(asmBuf), done, push);
        done := done + push;
      }
      return Ok(());
    }

    method VisitFunc(func: Func) returns (r: Result<()>)
      modifies this
      ensures match FuncCode(order, old(State()), |old(asmBuf)|, func)
              case Ok(e) => r.Ok? && Did(e)
              case Panic(why) => r == Panic(why)
    {
      hide BlockCode, ParamsCode;
      ghost var start := asmBuf;
      vars := vars[func.ident := LabelLoc(FuncLabel(func.ident))];
      if func.stmts == [] {
        return Ok(());
      }
      asmBuf := asmBuf + Prologue(func.ident);
      ghost var params := ParamsCode(State(), func.params, 0);
      var _ :- AllocArgs(func.params);
      ghost var body := BlockCode(order, State(), |asmBuf|, func.stmts);
      var _ :- GenStatements(func.stmts);
      currentStack := 0;
      totalStack := 0;
      ClearRegsExcept(None, Yes);
      if func.ident == MAIN {
        asmBuf := asmBuf + [SizedMov(ZERO, RegLoc(RAX), 8)];
      }
      asmBuf := asmBuf + [Leave, Return];
      assert asmBuf == start + (Prologue(func.ident) + params.value.code + body.value.code + Epilogue(func.ident));
      return Ok(());
    }

    /** Visit every function of a program. */
    method VisitFuncs(funcs: seq<Func>) returns (r: Result<()>)
      modifies this
      ensures match ProgramCode(order, old(State()), |old(asmBuf)|, funcs)
              case Ok(e) => r.Ok? && Did(e)
              case Panic(why) => r == Panic(why)
    {
      hide FuncCode;
      ghost var spec := ProgramCode(order, State(), |asmBuf|, funcs);
      ghost var done: seq<Instruction> := [];
      var i := 0;
      PrefixedNothing(spec);
      assert funcs[0..] == funcs;
      while i < |funcs|
        invariant 0 <= i <= |funcs|
        invariant asmBuf == old(asmBuf) + done
        invariant spec == Prefixed(done, ProgramCode(order, State(), |asmBuf|, funcs[i..]))
      {
        ghost var first := FuncCode(order, State(), |asmBuf|, funcs[i]);
        assert funcs[i..][0] == funcs[i] && funcs[i..][1..] == funcs[i + 1..];
        var _ :- VisitFunc(funcs[i]);
        i := i + 1;
        PrefixedTwice(done, first.value.code, ProgramCode(order, State(), |asmBuf|, funcs[i..]));
        Join(old(asmBuf), done, first.value.code);
        done := done + first.value.code;
      }
      return Ok(());
    }
  }

  /** Compile a program with a fresh generator. */
  method Compile(order: Order, funcs: seq<Func>) returns (r: Result<seq<Instruction>>)
    ensures r == (match ProgramCode(order, EMPTY_FRAME, 0, funcs)
                  case Ok(e) => Ok(e.code)
                  case Panic(why) => Panic(why))
  {
    var generator := new CodeGen(order);
    assert generator.State() == EMPTY_FRAME && |generator.asmBuf| == 0;
    label empty:
    var done := generator.VisitFuncs(funcs);
    if done.Panic? {
      return Panic(done.why);
    }
    assert generator.Did@empty(ProgramCode(order, EMPTY_FRAME, 0, funcs).value);
    assert generator.asmBuf == ProgramCode(order, EMPTY_FRAME, 0, funcs).value.code;
    return Ok(generator.asmBuf);
  }
}
