/** Assignments to elements of arrays and to fields of structs. The address of the target is computed first and
    waits in a register while the value is built, so whether the value arrives depends on what the value's code
    does to registers in use. */
module ElementProof {
  import opened Words
  import opened Lir
  import opened Machine
  import opened AsmSpec
  import opened ExprProof
  import opened StmtProof
  import opened StructProof
  import opened UsedRegs
  import opened RegisterBudget
  import Layout

  /** The same core with a word stored at an address. */
  function Stored(core: Core, address: int, w: word): map<int, word> {
    core.mem[address := w]
  }

  /** An address that has been computed: in a register in use, or a cell of the frame. */
  predicate Target(core: Core, target: Built, address: int) {
    && AddressOf(core, target.loc) == address
    && match target.loc
       case RegLoc(r) => r in target.used && r != RSP && r != RBP
       case NumberedOffset(_, base) => base == RBP
       case _ => false
  }

  lemma WriteThrough(core: Core, reg: Register, w: word, after: Core)
    requires Mapped(core, core.Reg(reg)) && after == core.(mem := core.mem[core.Reg(reg) := w])
    ensures Write(core, NumberedOffset(0, reg), w) == Some(after)
  {
  }

  /** The move that stores a value through the register of the address. */
  lemma StoreElementRuns(order: Order, frame: Frame, reg: Register, rloc: Location, w: word, core: Core) returns (after: Core)
    requires StoreElement(order, frame, reg, rloc).Ok? && rloc != RegLoc(reg) && Read(core, rloc) == Some(w)
    requires Small(rloc) && (rloc.NumberedOffset? ==> rloc.base == RBP)
    requires reg != RSP && reg != RBP && Mapped(core, core.Reg(reg))
    ensures RunStraight(StoreElement(order, frame, reg, rloc).value.code, core) == Some(after)
    ensures after.mem == Stored(core, core.Reg(reg), w) && after.Reg(RSP) == core.Reg(RSP) && after.Reg(RBP) == core.Reg(RBP)
  {
    hide RunStraight, FreeReg, Read;
    if rloc.IsStackOffset() {
      var tmp := FreeReg(order, ClearRegsExcept(frame.used, Some(RegLoc(reg)), Yes)).value;
      var mid := core.(regs := core.regs[tmp := w]);
      after := mid.(mem := mid.mem[core.Reg(reg) := w]);
      WriteThrough(mid, reg, w, after);
      SlotToSlotRuns(core, rloc, tmp, NumberedOffset(0, reg), w, after);
    } else {
      after := core.(mem := core.mem[core.Reg(reg) := w]);
      WriteThrough(core, reg, w, after);
      SizedMovRuns(core, rloc, NumberedOffset(0, reg), w, after);
    }
  }

  /** The move that stores a value in a cell of the frame. */
  lemma StoreCellRuns(order: Order, frame: Frame, offset: nat, rloc: Location, w: word, core: Core) returns (after: Core)
    requires StoreTo(order, frame, NumberedOffset(offset, RBP), rloc).Ok? && Read(core, rloc) == Some(w)
    requires Operand(rloc, frame.used) && Small(rloc) && Mapped(core, core.Reg(RBP) - offset)
    ensures RunStraight(StoreTo(order, frame, NumberedOffset(offset, RBP), rloc).value.code, core) == Some(after)
    ensures after.mem == Stored(core, core.Reg(RBP) - offset, w)
    ensures after.Reg(RSP) == core.Reg(RSP) && after.Reg(RBP) == core.Reg(RBP)
  {
    hide RunStraight, FreeReg;
    var lloc := NumberedOffset(offset, RBP);
    if lloc == rloc {
      after := core;
      StraightNone(core);
    } else if rloc.IsStackOffset() {
      var tmp := FreeReg(order, frame.used).value;
      var mid := core.(regs := core.regs[tmp := w]);
      after := mid.(mem := mid.mem[core.Reg(RBP) - offset := w]);
      SlotToSlotRuns(core, rloc, tmp, lloc, w, after);
    } else {
      after := core.(mem := core.mem[core.Reg(RBP) - offset := w]);
      SizedMovRuns(core, rloc, lloc, w, after);
    }
  }

  /** When an address waits in a register, every register before it in the order is in use too. */
  predicate FirstFree(order: Order, target: Built) {
    target.loc.RegLoc? ==>
      && target.loc.reg in order && target.loc.reg in target.used
      && Before(order, target.loc.reg) <= target.used - {target.loc.reg}
  }

  /** The address waits in a register that the negations of the value overwrite: one with an odd number of
      registers before it in the order, fewer than two for every negation. */
  predicate AddressLost(order: Order, target: Built, rval: Expr) {
    && target.loc.RegLoc?
    && var ahead := |Before(order, target.loc.reg)|; ahead % 2 == 1 && ahead < 2 * Nots(rval)
  }

  lemma LostExactly(order: Order, vars: map<Ident, Location>, target: Built, rval: Expr, types: map<Ident, Ty>, env: Env,
                    core: Core, after: Core)
    requires WellTyped(rval, types) && EnvTyped(env, types) && Compilable(rval) && Holding(vars, env, core)
    requires FirstFree(order, target) && target.loc.RegLoc? && BuildValue(order, vars, target.used, rval, Yes).Ok?
    requires RunStraight(BuildValue(order, vars, target.used, rval, Yes).value.code, core) == Some(after)
    ensures Survives(order, vars, target.used, rval, target.loc.reg) <==> !AddressLost(order, target, rval)
  {
    hide BuildValue, RunStraight, Before, Holding, Compilable, WellTyped, EnvTyped, Negated;
    ClobbersCounted(rval);
    if ReachesBinary(rval) {
      NegatedRuns(order, vars, target.used, rval, types, env, core, after, target.loc.reg);
      var first := ResultReg(order, vars, target.used, rval);
      assert Before(order, target.loc.reg) - {first} == Before(order, target.loc.reg);
    }
  }

  lemma CutFront(front: seq<Instruction>, mid: seq<Instruction>, back: seq<Instruction>)
    ensures (front + mid + back)[|front|..] == mid + back && (front + mid + back)[..|front|] == front
  {
  }

  /** Build a value and store it at an address that has been computed: memory changes at that address and nowhere
      else. If the address waits in a register, the value's code must not clobber. */
  lemma StoreThroughRuns(order: Order, frame: Frame, target: Built, rval: Expr, types: map<Ident, Ty>, env: Env,
                         core: Core, address: int) returns (v: Val, after: Core)
    requires ExprOk(rval, types) && SmallLiteral(rval) && EnvTyped(env, types) && Holding(frame.vars, env, core)
    requires Target(core, target, address) && Mapped(core, address)
    requires FirstFree(order, target) && !AddressLost(order, target, rval) && StoreThrough(order, frame, target, rval).Ok?
    ensures Eval(false, rval, env) == Some(v)
    ensures |StoreThrough(order, frame, target, rval).value.code| >= |target.code|
    ensures var store := StoreThrough(order, frame, target, rval).value.code[|target.code|..];
            RunStraight(store, core) == Some(after)
    ensures StoreThrough(order, frame, target, rval).value.code[..|target.code|] == target.code
    ensures after.mem == Stored(core, address, Encode(v))
    ensures after.Reg(RSP) == core.Reg(RSP) && after.Reg(RBP) == core.Reg(RBP)
  {
    hide RunStraight, BuildValue, Holding, Compilable, WellTyped, StoreElement, StoreTo, Survives, Before, Read, Eval;
    var built := BuildValue(order, frame.vars, target.used, rval, Yes).value;
    var next := frame.(used := built.used);
    NothingFlipped(rval);
    var mid, store;
    if target.loc.RegLoc? {
      v, mid := BuildValueComputes(order, frame.vars, target.used, rval, Yes, types, env, core);
      LostExactly(order, frame.vars, target, rval, types, env, core, mid);
      SurvivorRuns(order, frame.vars, target.used, rval, types, env, core, mid, target.loc.reg);
      store := StoreElement(order, next, target.loc.reg, built.loc).value;
      SmallBuilt(order, frame.vars, target.used, rval, Yes);
      after := StoreElementRuns(order, next, target.loc.reg, built.loc, Encode(v), mid);
    } else {
      v, mid := BuildValueComputes(order, frame.vars, target.used, rval, Yes, types, env, core);
      store := StoreTo(order, next, target.loc, built.loc).value;
      SmallBuilt(order, frame.vars, target.used, rval, Yes);
      after := StoreCellRuns(order, next, target.loc.offset, built.loc, Encode(v), mid);
    }
    StraightAppend(built.code, store.code, core);
    CutFront(target.code, built.code, store.code);
  }

  /** Built on top of a lost address: nothing is stored, or something at address 0 or 1, or the machine is stuck. */
  lemma LostStore(order: Order, frame: Frame, reg: Register, rloc: Location, core: Core, address: int, w: word)
    requires StoreElement(order, frame, reg, rloc).Ok? && rloc.RegLoc? && 0 <= core.Reg(reg) <= 1
    requires 1 < address && address in core.mem && core.mem[address] != w
    ensures var end := RunStraight(StoreElement(order, frame, reg, rloc).value.code, core);
            end.Some? ==> end.value.mem != Stored(core, address, w)
  {
    assert Stored(core, address, w)[address] == w;
    if rloc == RegLoc(reg) {
      StraightNone(core);
    } else {
      StraightOne(SizedMov(rloc, NumberedOffset(0, reg), 8), core);
    }
  }

  /** A value built after the address of its target: for every register order and any registers in use the value
      arrives, and no other cell changes, if and only if the address is not lost. */
  lemma StoreThroughExactly(order: Order, frame: Frame, target: Built, rval: Expr, types: map<Ident, Ty>, env: Env,
                            core: Core, address: int)
    requires ExprOk(rval, types) && SmallLiteral(rval) && EnvTyped(env, types) && Holding(frame.vars, env, core)
    requires Target(core, target, address) && Mapped(core, address) && 1 < address
    requires FirstFree(order, target) && StoreThrough(order, frame, target, rval).Ok?
    requires Eval(false, rval, env).Some? && core.mem[address] != Encode(Eval(false, rval, env).value)
    ensures var code := StoreThrough(order, frame, target, rval).value.code;
            && |code| >= |target.code| && code[..|target.code|] == target.code
            && var end := RunStraight(code[|target.code|..], core);
               (end.Some? && end.value.mem == Stored(core, address, Encode(Eval(false, rval, env).value)))
               <==> !AddressLost(order, target, rval)
  {
    hide RunStraight, BuildValue, Holding, StoreElement, Eval, Before, Survives, Compilable, WellTyped, FirstFree, Read;
    if !AddressLost(order, target, rval) {
      var _, _ := StoreThroughRuns(order, frame, target, rval, types, env, core, address);
    } else {
      var built := BuildValue(order, frame.vars, target.used, rval, Yes).value;
      var reg := target.loc.reg;
      var v, mid := BuildValueComputes(order, frame.vars, target.used, rval, Yes, types, env, core);
      Waiting(order, target);
      LostExactly(order, frame.vars, target, rval, types, env, core, mid);
      SurvivorRuns(order, frame.vars, target.used, rval, types, env, core, mid, reg);
      var next := frame.(used := built.used);
      var store := StoreElement(order, next, reg, built.loc).value;
      LostStore(order, next, reg, built.loc, mid, address, Encode(Eval(false, rval, env).value));
      StraightAppend(built.code, store.code, core);
      CutFront(target.code, built.code, store.code);
    }
  }

  lemma Waiting(order: Order, target: Built)
    requires FirstFree(order, target) && target.loc.RegLoc?
    ensures target.loc.reg in order && target.loc.reg in target.used
  {
  }

  // ---------- elements of arrays ----------

  /** The address of an element, after its code. */
  lemma ItemTarget(order: Order, frame: Frame, start: nat, index: Expr, types: map<Ident, Ty>, env: Env, i: word, core: Core)
    returns (after: Core)
    requires ExprOk(index, types) && EnvTyped(env, types) && Holding(frame.vars, env, core)
    requires Eval(false, index, env) == Some(IntVal(i)) && 0 <= 8 * i <= IMM_MAX
    requires core.Reg(RBP) - start >= 0 && core.Reg(RBP) - start + 8 * i <= WORD_MAX
    requires IndexArr(order, frame.vars, frame.used, NumberedOffset(start, RBP), index, 8).Ok?
    ensures var target := IndexArr(order, frame.vars, frame.used, NumberedOffset(start, RBP), index, 8).value;
            && RunStraight(target.code, core) == Some(after) && SameFrame(core, after)
            && Target(after, target, core.Reg(RBP) - start + 8 * i) && target.loc.RegLoc?
  {
    hide RunStraight, FreeReg, BuildValue, Holding, ExprOk, Eval;
    after := IndexRuns(order, frame.vars, frame.used, start, index, types, env, i, 8, core);
  }

  lemma FreeIsFirst(order: Order, used: set<Register>)
    requires FreeReg(order, used).Ok?
    ensures Before(order, FreeReg(order, used).value) <= used
  {
    if order[0] in used {
      FreeIsFirst(order[1..], used);
    }
  }

  /** The address of an element waits in the first register that was free. */
  lemma ItemFirstFree(order: Order, vars: map<Ident, Location>, used: set<Register>, arr: Location, index: Expr, eleSize: nat)
    requires IndexArr(order, vars, used, arr, index, eleSize).Ok?
    ensures FirstFree(order, IndexArr(order, vars, used, arr, index, eleSize).value)
  {
    hide BuildValue, Before, FreeReg;
    var taken := if index.Value? && index.val.IntVal? then used else BuildValue(order, vars, used, index, No).value.used;
    var tmp := FreeReg(order, taken).value;
    FreeIsFirst(order, taken + {tmp});
  }

  /** `name[index] = rval;` with any index expression, any registers in use and any order: the element gets the
      value and nothing else in memory changes, as long as the address is not lost. */
  lemma SetItemRuns(order: Order, frame: Frame, name: Ident, start: nat, index: Expr, rval: Expr, types: map<Ident, Ty>,
                    env: Env, i: word, core: Core) returns (v: Val, after: Core)
    requires ExprOk(index, types) && ExprOk(rval, types) && SmallLiteral(rval) && EnvTyped(env, types) && Holding(frame.vars, env, core)
    requires name in frame.vars && frame.vars[name] == NumberedOffset(start, RBP)
    requires Eval(false, index, env) == Some(IntVal(i)) && 0 <= 8 * i <= IMM_MAX && core.Reg(RBP) - start >= 0
    requires Mapped(core, core.Reg(RBP) - start + 8 * i) && core.Reg(RBP) - start + 8 * i <= WORD_MAX
    requires SetItemCode(order, frame, name, index, rval).Ok?
    requires !AddressLost(order, IndexArr(order, frame.vars, frame.used, NumberedOffset(start, RBP), index, 8).value, rval)
    ensures Eval(false, rval, env) == Some(v)
    ensures RunStraight(SetItemCode(order, frame, name, index, rval).value.code, core) == Some(after)
    ensures after.mem == Stored(core, core.Reg(RBP) - start + 8 * i, Encode(v))
    ensures after.Reg(RSP) == core.Reg(RSP) && after.Reg(RBP) == core.Reg(RBP)
  {
    hide RunStraight, IndexArr, StoreThrough, Holding, ExprOk, Eval, AddressLost, FirstFree;
    var target := IndexArr(order, frame.vars, frame.used, NumberedOffset(start, RBP), index, 8).value;
    var mid := ItemTarget(order, frame, start, index, types, env, i, core);
    HoldingKept(frame.vars, env, core, mid);
    ItemFirstFree(order, frame.vars, frame.used, NumberedOffset(start, RBP), index, 8);
    v, after := StoreThroughRuns(order, frame, target, rval, types, env, mid, core.Reg(RBP) - start + 8 * i);
    var code := StoreThrough(order, frame, target, rval).value.code;
    StraightAppend(target.code, code[|target.code|..], core);
    assert code == target.code + code[|target.code|..];
  }

  /** `name[index] = rval;` with any index expression: for every register order and any registers in use, the code
      stores the value in the element, and changes no other cell, if and only if the address is not lost. */
  lemma SetItemRightExactly(order: Order, frame: Frame, name: Ident, start: nat, index: Expr, rval: Expr,
                            types: map<Ident, Ty>, env: Env, i: word, core: Core)
    requires ExprOk(index, types) && ExprOk(rval, types) && SmallLiteral(rval) && EnvTyped(env, types) && Holding(frame.vars, env, core)
    requires name in frame.vars && frame.vars[name] == NumberedOffset(start, RBP)
    requires Eval(false, index, env) == Some(IntVal(i)) && 0 <= 8 * i <= IMM_MAX && core.Reg(RBP) - start > 0
    requires Mapped(core, core.Reg(RBP) - start + 8 * i) && core.Reg(RBP) - start + 8 * i <= WORD_MAX
    requires SetItemCode(order, frame, name, index, rval).Ok?
    requires Eval(false, rval, env).Some? && core.mem[core.Reg(RBP) - start + 8 * i] != Encode(Eval(false, rval, env).value)
    ensures var end := RunStraight(SetItemCode(order, frame, name, index, rval).value.code, core);
            var target := IndexArr(order, frame.vars, frame.used, NumberedOffset(start, RBP), index, 8).value;
            (end.Some? && end.value.mem == Stored(core, core.Reg(RBP) - start + 8 * i, Encode(Eval(false, rval, env).value)))
            <==> !AddressLost(order, target, rval)
  {
    hide RunStraight, IndexArr, StoreThrough, Holding, ExprOk, Eval, FreeReg, AddressLost, FirstFree;
    var target := IndexArr(order, frame.vars, frame.used, NumberedOffset(start, RBP), index, 8).value;
    var mid := ItemTarget(order, frame, start, index, types, env, i, core);
    HoldingKept(frame.vars, env, core, mid);
    ItemFirstFree(order, frame.vars, frame.used, NumberedOffset(start, RBP), index, 8);
    StoreThroughExactly(order, frame, target, rval, types, env, mid, core.Reg(RBP) - start + 8 * i);
    var code := StoreThrough(order, frame, target, rval).value.code;
    StraightAppend(target.code, code[|target.code|..], core);
    assert code == target.code + code[|target.code|..];
  }

  // ---------- from a fresh start ----------

  /** The registers in use stand before every other one. */
  ghost predicate Prefix(order: Order, used: set<Register>) {
    forall r :: r in order && r !in used ==> used <= Before(order, r)
  }

  lemma TakenPrefix(order: Order, used: set<Register>)
    requires Prefix(order, used) && FreeReg(order, used).Ok?
    ensures Prefix(order, used + {FreeReg(order, used).value})
    ensures Before(order, FreeReg(order, used).value) == used
  {
    hide Before;
    var f := FreeReg(order, used).value;
    FreeIsFirst(order, used);
    forall r | r in order && r !in used + {f} ensures used + {f} <= Before(order, r) {
      FreeBefore(order, used, r);
    }
  }

  lemma {:induction false} FreeBefore(order: Order, used: set<Register>, r: Register)
    requires FreeReg(order, used).Ok? && r in order && r !in used && r != FreeReg(order, used).value
    ensures FreeReg(order, used).value in Before(order, r)
  {
    if order[0] in used {
      FreeBefore(order[1..], used, r);
    }
  }

  lemma OrderPrefix(order: Order, used: set<Register>, l: Location, r: Location, op: BinOp)
    requires Prefix(order, used) && OrderOperands(order, used, l, r, op).Ok?
    ensures Prefix(order, OrderOperands(order, used, l, r, op).value.used)
  {
    hide FreeReg, Prefix;
    if FreeReg(order, used).Ok? {
      TakenPrefix(order, used);
    }
  }

  lemma LoadPrefix(order: Order, used: set<Register>, r: Location)
    requires Prefix(order, used) && LoadRight(order, used, r).Ok?
    ensures Prefix(order, LoadRight(order, used, r).value.used)
  {
    hide FreeReg, Prefix;
    if FreeReg(order, used).Ok? {
      TakenPrefix(order, used);
    }
  }

  lemma OperatePrefix(order: Order, used: set<Register>, l: Location, r: Location, op: BinOp)
    requires Prefix(order, used) && Operate(order, used, l, r, op).Ok?
    ensures Prefix(order, Operate(order, used, l, r, op).value.used)
  {
    hide FreeReg, Prefix, SetOnFlag, FlagOf;
    if op.IsCmp() {
      TakenPrefix(order, used);
      var more := used + {FreeReg(order, used).value};
      if FreeReg(order, more).Ok? {
        TakenPrefix(order, more);
      }
    }
  }

  lemma CombinePrefix(order: Order, used: set<Register>, l: Location, r: Location, op: BinOp)
    requires Prefix(order, used) && Combine(order, used, l, r, op, No).Ok?
    ensures Prefix(order, Combine(order, used, l, r, op, No).value.used)
  {
    hide FreeReg, Prefix, OrderOperands, LoadRight, Operate;
    OrderPrefix(order, used, l, r, op);
    var ordered := OrderOperands(order, used, l, r, op).value;
    LoadPrefix(order, ordered.used, ordered.right);
    var loaded := LoadRight(order, ordered.used, ordered.right).value;
    OperatePrefix(order, loaded.used, ordered.left, loaded.loc, op);
    var done := Operate(order, loaded.used, ordered.left, loaded.loc, op).value;
    if !done.loc.RegLoc? {
      TakenPrefix(order, done.used);
    }
  }

  lemma NegatePrefix(order: Order, used: set<Register>, operand: Location, op: UnOp, ty: Ty)
    requires Prefix(order, used) && Negate(order, used, operand, op, ty).Ok?
    ensures Prefix(order, Negate(order, used, operand, op, ty).value.used)
  {
    hide FreeReg, Prefix, SetOnFlag;
    TakenPrefix(order, used);
    var reg := FreeReg(order, used).value;
    TakenPrefix(order, used + {reg});
    var condReg := FreeReg(order, used + {reg}).value;
    assert used + {reg} + {condReg} == used + {reg, condReg};
  }

  /** An expression takes registers in their order. */
  lemma {:induction false} ExprPrefix(order: Order, vars: map<Ident, Location>, used: set<Register>, e: Expr)
    requires Prefix(order, used) && BuildValue(order, vars, used, e, No).Ok?
    ensures Prefix(order, BuildValue(order, vars, used, e, No).value.used)
    decreases e
  {
    hide FreeReg, Prefix, Combine, Negate;
    match e
    case Unary(op, inner, t) =>
      ExprPrefix(order, vars, used, inner);
      var operand := BuildValue(order, vars, used, inner, No).value;
      NegatePrefix(order, operand.used, operand.loc, op, t);
    case Binary(op, l, r, _) =>
      ExprPrefix(order, vars, used, l);
      var left := BuildValue(order, vars, used, l, No).value;
      ExprPrefix(order, vars, left.used, r);
      var right := BuildValue(order, vars, left.used, r, No).value;
      CombinePrefix(order, right.used, left.loc, right.loc, op);
    case Parens(inner) => ExprPrefix(order, vars, used, inner);
    case _ =>
  }

  /** When no register is in use before an assignment to an element, its address stands behind those that the index
      takes and one more. */
  lemma FreshAddress(order: Order, vars: map<Ident, Location>, arr: Location, index: Expr, eleSize: nat)
    requires Complete(order) && Compilable(index) && Bound(index, vars) && IndexArr(order, vars, {}, arr, index, eleSize).Ok?
    ensures var target := IndexArr(order, vars, {}, arr, index, eleSize).value;
            target.loc.RegLoc? && |Before(order, target.loc.reg)| == ExprNeed(index, No, 0).left + 1
  {
    hide FreeReg, Before, BuildValue, Prefix, Complete;
    assert Prefix(order, {}) by { Fresh(order); }
    NothingUsed();
    ExprCompilesExactly(order, vars, {}, index, No, 0);
    var taken: set<Register>;
    if index.Value? && index.val.IntVal? {
      taken := {};
    } else {
      ExprPrefix(order, vars, {}, index);
      taken := BuildValue(order, vars, {}, index, No).value.used;
    }
    var tmp := FreeReg(order, taken).value;
    TakenPrefix(order, taken);
    TakenPrefix(order, taken + {tmp});
  }

  lemma Fresh(order: Order)
    ensures Prefix(order, {})
  {
  }

  /** So from a fresh start the condition can be read off the source: the address is lost if and only if the index
      takes an even number of registers, and the value has more than half as many negations above its binary
      operation. In no other way does it depend on the index, and not at all on the order. */
  lemma FreshItemLostExactly(order: Order, vars: map<Ident, Location>, arr: Location, index: Expr, eleSize: nat, rval: Expr)
    requires Complete(order) && Compilable(index) && Bound(index, vars) && IndexArr(order, vars, {}, arr, index, eleSize).Ok?
    ensures var taken := ExprNeed(index, No, 0).left;
            (AddressLost(order, IndexArr(order, vars, {}, arr, index, eleSize).value, rval)
             <==> taken % 2 == 0 && taken / 2 < Nots(rval))
  {
    hide IndexArr, Before, Nots, ExprNeed;
    FreshAddress(order, vars, arr, index, eleSize);
  }

  // ---------- fields of structs ----------

  /** The address of a field, after its code. */
  lemma {:induction false} FieldTarget(
      order: Order, vars: map<Ident, Location>, used: set<Register>, fields: seq<Field>, access: Access, offset: nat,
      core: Core, address: int)
    requires FieldAddress(order, vars, used, fields, access, offset, RBP).Ok?
    requires AddressOf(core, FieldAddress(order, vars, used, fields, access, offset, RBP).value.loc) == address
    ensures Target(core, FieldAddress(order, vars, used, fields, access, offset, RBP).value, address)
    decreases access
  {
    hide BuildValue, FreeReg;
    if access.Inner? {
      var found := Layout.Find(fields, access.name).value;
      FieldTarget(order, vars, used, access.fields, access.rest, offset - found.before, core, address);
    }
  }

  /** Only an element of an array field has its address in a register, the first that was free. */
  lemma {:induction false} FieldInFrame(order: Order, vars: map<Ident, Location>, used: set<Register>, fields: seq<Field>,
                                        access: Access, offset: nat)
    requires FieldAddress(order, vars, used, fields, access, offset, RBP).Ok?
    ensures FieldAddress(order, vars, used, fields, access, offset, RBP).value.loc.RegLoc? ==> access.EndsInElement()
    ensures FirstFree(order, FieldAddress(order, vars, used, fields, access, offset, RBP).value)
    decreases access
  {
    hide BuildValue, FreeReg, Before;
    if access.Element? {
      var found := Layout.Find(fields, access.name).value;
      var shape := found.shape;
      ItemFirstFree(order, vars, used, NumberedOffset(offset - found.before, RBP), access.index,
                    Layout.Size(if shape.Array? then shape.elem else shape));
    }
    if access.Inner? {
      var found := Layout.Find(fields, access.name).value;
      FieldInFrame(order, vars, used, access.fields, access.rest, offset - found.before);
    }
  }

  /** `name.access = rval;` stores the value at the leaf's own place in the struct and changes no other cell. A
      plain field's address needs no register and is never lost. */
  lemma SetFieldRuns(order: Order, frame: Frame, name: Ident, top: nat, fields: seq<Field>, access: Access, rval: Expr,
                     types: map<Ident, Ty>, env: Env, path: Layout.Path, core: Core) returns (v: Val, after: Core)
    requires AccessOk(fields, access, types) && ExprOk(rval, types) && SmallLiteral(rval)
    requires EnvTyped(env, types) && Holding(frame.vars, env, core)
    requires name in frame.vars && frame.vars[name] == NumberedOffset(top, RBP)
    requires Resolve(access, env) == Some(path) && Layout.IsLeaf(fields, path)
    requires Layout.PathOffset(fields, path) <= top <= core.Reg(RBP) && Layout.PathOffset(fields, path) <= IMM_MAX
    requires Mapped(core, core.Reg(RBP) - top + Layout.PathOffset(fields, path))
    requires SetFieldCode(order, frame, name, fields, access, rval).Ok?
    requires access.EndsInElement() ==>
               !AddressLost(order, FieldAddress(order, frame.vars, frame.used, fields, access, top, RBP).value, rval)
    ensures Eval(false, rval, env) == Some(v)
    ensures RunStraight(SetFieldCode(order, frame, name, fields, access, rval).value.code, core) == Some(after)
    ensures after.mem == Stored(core, core.Reg(RBP) - top + Layout.PathOffset(fields, path), Encode(v))
    ensures after.Reg(RSP) == core.Reg(RSP) && after.Reg(RBP) == core.Reg(RBP)
  {
    hide RunStraight, FieldAddress, StoreThrough, Holding, ExprOk, Eval, Nots, Before, FirstFree, AccessOk, Layout.IsLeaf, Layout.PathOffset,
         Resolve;
    var target := FieldAddress(order, frame.vars, frame.used, fields, access, top, RBP).value;
    var address := core.Reg(RBP) - top + Layout.PathOffset(fields, path);
    var mid := FieldAddressRuns(order, frame.vars, frame.used, fields, access, top, types, env, path, core);
    FieldTarget(order, frame.vars, frame.used, fields, access, top, mid, address);
    FieldInFrame(order, frame.vars, frame.used, fields, access, top);
    HoldingKept(frame.vars, env, core, mid);
    v, after := StoreThroughRuns(order, frame, target, rval, types, env, mid, address);
    var code := StoreThrough(order, frame, target, rval).value.code;
    StraightAppend(target.code, code[|target.code|..], core);
    assert code == target.code + code[|target.code|..];
  }

  /** The same with the exact condition: for every register order and any registers in use the value arrives at
      the leaf's place, and nowhere else, if and only if the address is not lost. */
  lemma SetFieldRightExactly(order: Order, frame: Frame, name: Ident, top: nat, fields: seq<Field>, access: Access, rval: Expr,
                             types: map<Ident, Ty>, env: Env, path: Layout.Path, core: Core)
    requires AccessOk(fields, access, types) && ExprOk(rval, types) && SmallLiteral(rval)
    requires EnvTyped(env, types) && Holding(frame.vars, env, core)
    requires name in frame.vars && frame.vars[name] == NumberedOffset(top, RBP)
    requires Resolve(access, env) == Some(path) && Layout.IsLeaf(fields, path)
    requires Layout.PathOffset(fields, path) <= top < core.Reg(RBP) - 1 && Layout.PathOffset(fields, path) <= IMM_MAX
    requires Mapped(core, core.Reg(RBP) - top + Layout.PathOffset(fields, path))
    requires SetFieldCode(order, frame, name, fields, access, rval).Ok? && Eval(false, rval, env).Some?
    requires core.mem[core.Reg(RBP) - top + Layout.PathOffset(fields, path)] != Encode(Eval(false, rval, env).value)
    ensures var end := RunStraight(SetFieldCode(order, frame, name, fields, access, rval).value.code, core);
            var target := FieldAddress(order, frame.vars, frame.used, fields, access, top, RBP).value;
            var address := core.Reg(RBP) - top + Layout.PathOffset(fields, path);
            (end.Some? && end.value.mem == Stored(core, address, Encode(Eval(false, rval, env).value)))
            <==> !AddressLost(order, target, rval)
  {
    hide RunStraight, FieldAddress, StoreThrough, Holding, ExprOk, Eval, AddressLost, FirstFree, AccessOk, Layout.IsLeaf,
         Layout.PathOffset, Resolve;
    var target := FieldAddress(order, frame.vars, frame.used, fields, access, top, RBP).value;
    var address := core.Reg(RBP) - top + Layout.PathOffset(fields, path);
    var mid := FieldAddressRuns(order, frame.vars, frame.used, fields, access, top, types, env, path, core);
    FieldTarget(order, frame.vars, frame.used, fields, access, top, mid, address);
    FieldInFrame(order, frame.vars, frame.used, fields, access, top);
    HoldingKept(frame.vars, env, core, mid);
    StoreThroughExactly(order, frame, target, rval, types, env, mid, address);
    var code := StoreThrough(order, frame, target, rval).value.code;
    StraightAppend(target.code, code[|target.code|..], core);
    assert code == target.code + code[|target.code|..];
  }
}
