/** How many registers code generation takes, exactly. The registers that are handed out depend on the
    iteration order of a hash set, their number does not: every register taken is a new one, and a clear
    leaves none or one. So whether a function compiles can be read off its source. */
module RegisterBudget {
  import opened Lir
  import opened Machine
  import opened AsmSpec
  import opened ExprProof
  import opened StmtProof
  import opened FuncProof
  import Layout

  // ---------- sets of registers ----------

  /** An order in which the whole set of usable registers is iterated. */
  ghost predicate Complete(order: Order) {
    forall r :: r in USABLE_REGS ==> r in order
  }

  const REGS: nat := 14

  ghost predicate Count(used: set<Register>, n: nat) {
    used <= USABLE_REGS && |used| == n
  }

  lemma UsableCount()
    ensures |USABLE_REGS| == REGS
  {
    var low: set<Register> := {RAX, RCX, RDX, RBX, RSI, RDI};
    var high: set<Register> := {R8, R9, R10, R11, R12, R13, R14, R15};
    assert |low| == 6;
    assert |high| == 8;
    assert USABLE_REGS == low + high && low !! high;
  }

  lemma AllUsable(r: Register)
    ensures r.RSP? || r.RBP? || r in USABLE_REGS
  {
  }

  lemma NothingUsed()
    ensures Count({}, 0)
  {
  }

  lemma CountBounded(used: set<Register>, n: nat)
    requires Count(used, n)
    ensures n <= REGS && (n == REGS ==> used == USABLE_REGS)
  {
    UsableCount();
    var free := USABLE_REGS - used;
    assert free + used == USABLE_REGS && free !! used;
    assert |free| + |used| == REGS;
  }

  /** A register is free exactly as long as fewer than 14 are in use. */
  lemma TakeExactly(order: Order, used: set<Register>, n: nat)
    requires Complete(order) && Count(used, n)
    ensures FreeReg(order, used).Ok? <==> n < REGS
    ensures FreeReg(order, used).Ok? ==> Count(used + {FreeReg(order, used).value}, n + 1)
  {
    CountBounded(used, n);
    UsableCount();
    if n < REGS {
      var free := USABLE_REGS - used;
      assert used + free == USABLE_REGS;
      assert free != {};
      var r :| r in free;
      assert r in order && r !in used;
    } else {
      forall r: Usable ensures r in used {
        AllUsable(r);
      }
    }
    if FreeReg(order, used).Ok? {
      AllUsable(FreeReg(order, used).value);
    }
  }

  // ---------- what an expression needs ----------

  datatype Kind = Literal | InSlot | InReg

  /** Where the value of an expression will be. */
  function KindOf(e: Expr): Kind {
    match e
    case Var(_, _) => InSlot
    case Value(_) => Literal
    case Parens(inner) => KindOf(inner)
    case _ => InReg
  }

  predicate HasKind(loc: Location, kind: Kind, used: set<Register>) {
    match kind
    case Literal => loc.Const?
    case InSlot => loc.NumberedOffset?
    case InReg => loc.RegLoc? && loc.reg in used
  }

  /** Registers taken to order the operands, and where both are then. */
  function Arranged(op: BinOp, l: Kind, r: Kind): (nat, Kind, Kind) {
    var (left, right) := if op.Sub? then (r, l) else (l, r);
    if !right.Literal? then (0, left, right)
    else if op.Sub? then (1, left, InReg)
    else (0, right, left)
  }

  /** Registers taken by an operation on operands of these kinds: one to load a literal that is subtracted
      from, one to load a right operand from the stack; a comparison takes one for its result and one for a
      left operand on the stack. */
  function Takes(op: BinOp, l: Kind, r: Kind): nat {
    var (first, left, right) := Arranged(op, l, r);
    first + (if right.InSlot? then 1 else 0) + if !op.IsCmp() then 0 else if left.InSlot? then 2 else 1
  }

  /** The most registers in use at a time, and the number in use afterwards. */
  datatype Need = Need(peak: nat, left: nat)

  /** The need of an expression when `n` registers are in use before it. */
  function ExprNeed(e: Expr, canClear: CanClearRegs, n: nat): (need: Need)
    ensures n <= need.peak
  {
    match e
    case Unary(_, inner, _) =>
      var operand := ExprNeed(inner, canClear, n);
      Need(Layout.Max(operand.peak, operand.left + 2), operand.left + 2)
    case Binary(op, l, r, _) =>
      var left := ExprNeed(l, No, n);
      var right := ExprNeed(r, No, left.left);
      var taken := right.left + Takes(op, KindOf(l), KindOf(r));
      Need(Layout.Max(left.peak, Layout.Max(right.peak, taken)), if canClear.Yes? then 1 else taken)
    case Parens(inner) => ExprNeed(inner, canClear, n)
    case _ => Need(n, n)
  }

  // ---------- expressions ----------

  /** The result is a panic exactly when the peak is beyond the registers that there are; otherwise `left`
      registers are in use and the value is where it should be. */
  ghost predicate Exact(r: Result<Built>, need: Need, kind: Kind) {
    && (r.Ok? <==> need.peak <= REGS)
    && (r.Ok? ==> Count(r.value.used, need.left) && HasKind(r.value.loc, kind, r.value.used))
  }

  lemma OrderExactly(order: Order, used: set<Register>, lloc: Location, rloc: Location, op: BinOp, l: Kind, r: Kind, n: nat)
    requires Complete(order) && Count(used, n) && HasKind(lloc, l, used) && HasKind(rloc, r, used)
    requires !op.Div? && !op.Rem?
    ensures var o := OrderOperands(order, used, lloc, rloc, op);
            var (takes, left, right) := Arranged(op, l, r);
            && (o.Ok? <==> n + takes <= REGS)
            && (o.Ok? ==> Count(o.value.used, n + takes)
                          && HasKind(o.value.left, left, o.value.used) && HasKind(o.value.right, right, o.value.used))
  {
    hide FreeReg;
    CountBounded(used, n);
    TakeExactly(order, used, n);
  }

  lemma LoadExactly(order: Order, used: set<Register>, right: Location, kind: Kind, n: nat)
    requires Complete(order) && Count(used, n) && HasKind(right, kind, used) && !kind.Literal?
    ensures Exact(LoadRight(order, used, right), Need(if kind.InSlot? then n + 1 else n, if kind.InSlot? then n + 1 else n), InReg)
    ensures LoadRight(order, used, right).Ok? ==> used <= LoadRight(order, used, right).value.used
  {
    hide FreeReg;
    CountBounded(used, n);
    TakeExactly(order, used, n);
  }

  lemma CmpExactly(order: Order, used: set<Register>, left: Location, right: Location, op: BinOp, kind: Kind, n: nat,
                   condReg: Register)
    requires Complete(order) && Count(used, n) && condReg in used && HasKind(left, kind, used) && HasKind(right, InReg, used)
    requires op.IsCmp()
    ensures var built := FromBinopCmp(order, used, left, right, op, condReg);
            var taken := n + (if kind.InSlot? then 1 else 0);
            (built.Ok? <==> taken <= REGS) && (built.Ok? ==> Count(built.value.1, taken) && condReg in built.value.1)
  {
    hide FreeReg, SetOnFlag, FlagOf, Complete, Count;
    CountBounded(used, n);
    TakeExactly(order, used, n);
    var (l, r) := if !left.Const? then (right, left) else (left, right);
    assert r.IsStackOffset() == kind.InSlot?;
  }

  lemma OperateExactly(order: Order, used: set<Register>, left: Location, right: Location, op: BinOp, kind: Kind, n: nat)
    requires Complete(order) && Count(used, n) && HasKind(left, kind, used) && HasKind(right, InReg, used)
    requires !op.Div? && !op.Rem?
    ensures var taken := n + (if !op.IsCmp() then 0 else if kind.InSlot? then 2 else 1);
            Exact(Operate(order, used, left, right, op), Need(taken, taken), InReg)
  {
    hide FreeReg, FromBinopCmp, Complete;
    CountBounded(used, n);
    if op.IsCmp() {
      TakeExactly(order, used, n);
      if n < REGS {
        var condReg := FreeReg(order, used).value;
        CmpExactly(order, used + {condReg}, left, right, op, kind, n + 1, condReg);
      }
    }
  }

  lemma KindStays(loc: Location, kind: Kind, used: set<Register>, more: set<Register>)
    requires HasKind(loc, kind, used) && used <= more
    ensures HasKind(loc, kind, more)
  {
  }

  lemma CombineExactly(order: Order, used: set<Register>, lloc: Location, rloc: Location, op: BinOp, canClear: CanClearRegs,
                       l: Kind, r: Kind, n: nat)
    requires Complete(order) && Count(used, n) && HasKind(lloc, l, used) && HasKind(rloc, r, used)
    requires !op.Div? && !op.Rem? && (l.Literal? && r.Literal? ==> op.Sub?)
    ensures var taken := n + Takes(op, l, r);
            Exact(Combine(order, used, lloc, rloc, op, canClear), Need(taken, if canClear.Yes? then 1 else taken), InReg)
  {
    hide OrderOperands, LoadRight, Operate, FreeReg, Complete;
    var (first, left, right) := Arranged(op, l, r);
    OrderExactly(order, used, lloc, rloc, op, l, r, n);
    CountBounded(used, n);
    var o := OrderOperands(order, used, lloc, rloc, op);
    if o.Ok? {
      LoadExactly(order, o.value.used, o.value.right, right, n + first);
      var b := LoadRight(order, o.value.used, o.value.right);
      if b.Ok? {
        KindStays(o.value.left, left, o.value.used, b.value.used);
        OperateExactly(order, b.value.used, o.value.left, b.value.loc, op, left, n + first + if right.InSlot? then 1 else 0);
        var d := Operate(order, b.value.used, o.value.left, b.value.loc, op);
        if d.Ok? {
          CountOne(d.value.loc.reg, d.value.used);
        }
      }
    }
  }

  lemma CountOne(r: Register, used: set<Register>)
    requires r in used && used <= USABLE_REGS
    ensures Count({r}, 1)
  {
  }

  lemma NegateExactly(order: Order, used: set<Register>, operand: Location, n: nat)
    requires Complete(order) && Count(used, n)
    ensures Exact(Negate(order, used, operand, Not, Bool), Need(n + 2, n + 2), InReg)
  {
    hide FreeReg;
    TakeExactly(order, used, n);
    if n < REGS {
      var reg := FreeReg(order, used).value;
      TakeExactly(order, used + {reg}, n + 1);
      if n + 1 < REGS {
        var condReg := FreeReg(order, used + {reg}).value;
        assert used + {reg, condReg} == used + {reg} + {condReg};
      }
    }
  }

  /** Every variable has a slot in the frame. */
  predicate Bound(e: Expr, vars: map<Ident, Location>) {
    match e
    case Var(x, _) => x in vars && vars[x].NumberedOffset?
    case Unary(_, inner, _) => Bound(inner, vars)
    case Binary(_, l, r, _) => Bound(l, vars) && Bound(r, vars)
    case Parens(inner) => Bound(inner, vars)
    case Value(_) => true
  }

  lemma LiteralKind(e: Expr)
    ensures e.IsLiteral() <==> KindOf(e).Literal?
  {
  }

  /** An expression compiles if and only if its peak is at most 14, whatever the iteration order of the
      register set; and then it leaves exactly as many registers in use as it says. */
  lemma {:induction false} ExprCompilesExactly(order: Order, vars: map<Ident, Location>, used: set<Register>, e: Expr,
                                               canClear: CanClearRegs, n: nat)
    requires Complete(order) && Compilable(e) && Bound(e, vars) && Count(used, n)
    ensures Exact(BuildValue(order, vars, used, e, canClear), ExprNeed(e, canClear, n), KindOf(e))
    ensures canClear.No? && BuildValue(order, vars, used, e, canClear).Ok? ==>
              used <= BuildValue(order, vars, used, e, canClear).value.used
    decreases e
  {
    hide FreeReg, Combine, Negate, Complete, Takes, REGS;
    match e
    case Var(_, _) => CountBounded(used, n);
    case Value(_) => CountBounded(used, n);
    case Parens(inner) => ExprCompilesExactly(order, vars, used, inner, canClear, n);
    case Unary(op, inner, t) =>
      ExprCompilesExactly(order, vars, used, inner, canClear, n);
      hide HasKind;
      var operand := BuildValue(order, vars, used, inner, canClear);
      if operand.Ok? {
        NegateExactly(order, operand.value.used, operand.value.loc, ExprNeed(inner, canClear, n).left);
        NegateGrows(order, operand.value.used, operand.value.loc);
      }
    case Binary(op, l, r, _) =>
      LiteralKind(l);
      LiteralKind(r);
      ExprCompilesExactly(order, vars, used, l, No, n);
      var left := BuildValue(order, vars, used, l, No);
      if left.Ok? {
        var m := ExprNeed(l, No, n).left;
        ExprCompilesExactly(order, vars, left.value.used, r, No, m);
        var right := BuildValue(order, vars, left.value.used, r, No);
        if right.Ok? {
          KindStays(left.value.loc, KindOf(l), left.value.used, right.value.used);
          CombineExactly(order, right.value.used, left.value.loc, right.value.loc, op, canClear, KindOf(l), KindOf(r),
                         ExprNeed(r, No, m).left);
          CombineGrows(order, right.value.used, left.value.loc, right.value.loc, op);
        }
      }
  }

  lemma NegateGrows(order: Order, used: set<Register>, operand: Location)
    ensures Negate(order, used, operand, Not, Bool).Ok? ==> used <= Negate(order, used, operand, Not, Bool).value.used
  {
    hide FreeReg;
  }

  lemma OrderGrows(order: Order, used: set<Register>, lloc: Location, rloc: Location, op: BinOp)
    ensures OrderOperands(order, used, lloc, rloc, op).Ok? ==> used <= OrderOperands(order, used, lloc, rloc, op).value.used
  {
    hide FreeReg;
  }

  lemma OperateGrows(order: Order, used: set<Register>, left: Location, right: Location, op: BinOp)
    ensures Operate(order, used, left, right, op).Ok? ==> used <= Operate(order, used, left, right, op).value.used
  {
    hide FreeReg, SetOnFlag, FlagOf;
  }

  lemma CombineGrows(order: Order, used: set<Register>, lloc: Location, rloc: Location, op: BinOp)
    ensures Combine(order, used, lloc, rloc, op, No).Ok? ==> used <= Combine(order, used, lloc, rloc, op, No).value.used
  {
    hide FreeReg, OrderOperands, Operate;
    OrderGrows(order, used, lloc, rloc, op);
    var o := OrderOperands(order, used, lloc, rloc, op);
    if o.Ok? {
      var b := LoadRight(order, o.value.used, o.value.right);
      if b.Ok? {
        OperateGrows(order, b.value.used, o.value.left, b.value.loc, op);
      }
    }
  }

  // ---------- what a statement needs ----------

  /** The expression is the variable itself, possibly in parentheses. */
  predicate IsVariable(e: Expr, x: Ident) {
    match e
    case Var(y, _) => y == x
    case Parens(inner) => IsVariable(inner, x)
    case _ => false
  }

  /** Nothing is emitted for `x = x`, and nothing is given back. A value in another slot goes through one more
      register. Any other assignment gives back all registers. */
  function AssignNeed(x: Ident, e: Expr, isLet: bool, n: nat): (need: Need)
    ensures n <= need.peak
  {
    var value := ExprNeed(e, Yes, n);
    if !isLet && IsVariable(e, x) then value
    else if KindOf(e).InSlot? then Need(Layout.Max(value.peak, value.left + 1), 0)
    else Need(value.peak, 0)
  }

  /** The need of a covered statement. Conditions and returned values give nothing back. */
  function StmtNeed(s: Stmt, n: nat): (need: Need)
    ensures n <= need.peak
    decreases s, 0
  {
    match s
    case Assign(x, _, e, isLet) => AssignNeed(x, e, isLet, n)
    case If(cond, blk, els) =>
      var test := ExprNeed(cond, Yes, n);
      var thn := BlockNeed(blk, test.left);
      var otherwise := BlockNeed(els, thn.left);
      Need(Layout.Max(test.peak, Layout.Max(thn.peak, otherwise.peak)), otherwise.left)
    case While(cond, blk) =>
      var body := BlockNeed(blk, n);
      if IsConstTrue(cond) then body
      else
        var test := ExprNeed(cond, Yes, body.left);
        Need(Layout.Max(body.peak, test.peak), test.left)
    case Ret(e) => ExprNeed(e, Yes, n)
    case _ => Need(n, n)
  }

  function BlockNeed(stmts: seq<Stmt>, n: nat): (need: Need)
    ensures n <= need.peak
    decreases stmts, 1
  {
    if stmts == [] then Need(n, n)
    else
      var first := StmtNeed(stmts[0], n);
      var rest := BlockNeed(stmts[1..], first.left);
      Need(Layout.Max(first.peak, rest.peak), rest.left)
  }

  // ---------- statements ----------

  ghost predicate ExactCode(r: Result<Emitted>, need: Need) {
    && (r.Ok? <==> need.peak <= REGS)
    && (r.Ok? ==> Count(r.value.frame.used, need.left))
  }

  /** The variables in scope have distinct slots in the frame. */
  ghost predicate Placed(frame: Frame, types: map<Ident, Ty>) {
    Slots(frame.vars, types.Keys, frame.currentStack) && frame.currentStack % 8 == 0
  }

  lemma {:induction false} TypedIsBound(e: Expr, frame: Frame, types: map<Ident, Ty>)
    requires WellTyped(e, types) && Placed(frame, types)
    ensures Bound(e, frame.vars)
  {
    match e
    case Var(_, _) =>
    case Unary(_, inner, _) => TypedIsBound(inner, frame, types);
    case Binary(_, l, r, _) =>
      TypedIsBound(l, frame, types);
      TypedIsBound(r, frame, types);
    case Parens(inner) => TypedIsBound(inner, frame, types);
    case Value(_) =>
  }

  lemma ValueExactly(order: Order, frame: Frame, e: Expr, types: map<Ident, Ty>, n: nat)
    requires Complete(order) && ExprOk(e, types) && Placed(frame, types) && Count(frame.used, n)
    ensures Exact(BuildValue(order, frame.vars, frame.used, e, Yes), ExprNeed(e, Yes, n), KindOf(e))
  {
    TypedIsBound(e, frame, types);
    ExprCompilesExactly(order, frame.vars, frame.used, e, Yes, n);
  }

  /** The slot that an assignment to `x` would move from is that of `x` exactly when the expression is `x`. */
  lemma {:induction false} SlotIsOwn(order: Order, frame: Frame, e: Expr, types: map<Ident, Ty>, x: Ident)
    requires WellTyped(e, types) && Placed(frame, types) && x in types
    requires BuildValue(order, frame.vars, frame.used, e, Yes).Ok?
    ensures BuildValue(order, frame.vars, frame.used, e, Yes).value.loc == frame.vars[x] ==> KindOf(e) != InSlot || IsVariable(e, x)
    ensures IsVariable(e, x) ==> BuildValue(order, frame.vars, frame.used, e, Yes).value.loc == frame.vars[x]
    decreases e
  {
    if e.Parens? {
      SlotIsOwn(order, frame, e.expr, types, x);
    }
  }

  lemma StoreExactly(order: Order, frame: Frame, lloc: Location, rloc: Location, kind: Kind, n: nat)
    requires Complete(order) && Count(frame.used, n) && lloc.NumberedOffset? && HasKind(rloc, kind, frame.used)
    ensures ExactCode(StoreTo(order, frame, lloc, rloc),
                      if lloc == rloc then Need(n, n) else if kind.InSlot? then Need(n + 1, 0) else Need(n, 0))
  {
    hide FreeReg;
    CountBounded(frame.used, n);
    TakeExactly(order, frame.used, n);
    NothingUsed();
  }

  lemma AssignExactly(order: Order, frame: Frame, x: Ident, e: Expr, types: map<Ident, Ty>, n: nat)
    requires Complete(order) && ExprOk(e, types) && Placed(frame, types) && Count(frame.used, n) && x in types
    ensures ExactCode(AssignCode(order, frame, x, e, false), AssignNeed(x, e, false, n))
  {
    SlotAbove(frame.vars, types.Keys, frame.currentStack, x);
    ValueExactly(order, frame, e, types, n);
    hide BuildValue, ExprOk, Placed, StoreTo, Complete, Count, ExprNeed, REGS;
    var built := BuildValue(order, frame.vars, frame.used, e, Yes);
    if built.Ok? {
      StoredExactly(order, frame, x, e, types, n);
    }
  }

  lemma StoredExactly(order: Order, frame: Frame, x: Ident, e: Expr, types: map<Ident, Ty>, n: nat)
    requires Complete(order) && ExprOk(e, types) && Placed(frame, types) && Count(frame.used, n) && x in types
    requires x in frame.vars && BuildValue(order, frame.vars, frame.used, e, Yes).Ok?
    ensures var built := BuildValue(order, frame.vars, frame.used, e, Yes).value;
            ExactCode(StoreTo(order, frame.(used := built.used), frame.vars[x], built.loc), AssignNeed(x, e, false, n))
  {
    SlotAbove(frame.vars, types.Keys, frame.currentStack, x);
    assert WellTyped(e, types);
    hide BuildValue, Placed, StoreTo, Complete, ExprNeed, ExprOk, WellTyped, Count, KindOf, IsVariable;
    ValueExactly(order, frame, e, types, n);
    SlotIsOwn(order, frame, e, types, x);
    var built := BuildValue(order, frame.vars, frame.used, e, Yes).value;
    StoreExactly(order, frame.(used := built.used), frame.vars[x], built.loc, KindOf(e), ExprNeed(e, Yes, n).left);
    if IsVariable(e, x) {
      VariableKind(e, x);
    }
    CountBounded(built.used, ExprNeed(e, Yes, n).left);
  }

  lemma {:induction false} VariableKind(e: Expr, x: Ident)
    requires IsVariable(e, x)
    ensures KindOf(e) == InSlot
  {
    if e.Parens? {
      VariableKind(e.expr, x);
    }
  }

  lemma LetIsPrefixed(order: Order, frame: Frame, x: Ident, e: Expr)
    ensures AssignCode(order, frame, x, e, true)
         == Prefixed([Push(ZERO, 8)], AssignCode(order, AllocStack(frame, x).frame, x, e, false))
  {
    hide BuildValue, StoreTo;
    var alloc := AllocStack(frame, x);
    var built := BuildValue(order, alloc.frame.vars, alloc.frame.used, e, Yes);
    if built.Ok? {
      var store := StoreTo(order, alloc.frame.(used := built.value.used), alloc.frame.vars[x], built.value.loc);
      if store.Ok? {
        assert [Push(ZERO, 8)] + built.value.code + store.value.code
            == [Push(ZERO, 8)] + ([] + built.value.code + store.value.code);
      }
    }
  }

  lemma {:induction false} NotItself(e: Expr, types: map<Ident, Ty>, x: Ident)
    requires WellTyped(e, types) && x !in types
    ensures !IsVariable(e, x)
  {
    if e.Parens? {
      NotItself(e.expr, types, x);
    }
  }

  lemma LetExactly(order: Order, frame: Frame, x: Ident, t: Ty, e: Expr, types: map<Ident, Ty>, n: nat)
    requires Complete(order) && ExprOk(e, types) && Placed(frame, types) && Count(frame.used, n) && x !in types
    ensures ExactCode(AssignCode(order, frame, x, e, true), AssignNeed(x, e, true, n))
    ensures AssignCode(order, frame, x, e, true).Ok? ==> Placed(AssignCode(order, frame, x, e, true).value.frame, types[x := t])
  {
    var alloc := AllocStack(frame, x);
    LetPlaced(frame, x, t, types);
    TypedWider(e, types, x, t);
    NotItself(e, types, x);
    assert ExprOk(e, types[x := t]);
    hide ExprOk, Complete, Count, Slots, IsVariable, ExprNeed, REGS, AssignCode, KindOf;
    LetIsPrefixed(order, frame, x, e);
    AssignExactly(order, alloc.frame, x, e, types[x := t], n);
    if AssignCode(order, alloc.frame, x, e, false).Ok? {
      AssignFrame(order, alloc.frame, x, e);
    }
  }

  lemma LetPlaced(frame: Frame, x: Ident, t: Ty, types: map<Ident, Ty>)
    requires Placed(frame, types) && x !in types
    ensures Placed(AllocStack(frame, x).frame, types[x := t])
  {
    SlotsGrow(frame.vars, types.Keys, frame.currentStack, x);
    assert types[x := t].Keys == types.Keys + {x};
    hide Slots;
  }

  lemma AssignFrame(order: Order, frame: Frame, x: Ident, e: Expr)
    requires AssignCode(order, frame, x, e, false).Ok?
    ensures var f := AssignCode(order, frame, x, e, false).value.frame; f == frame.(used := f.used)
  {
    hide BuildValue;
  }

  lemma CondExactly(order: Order, frame: Frame, cond: Expr, types: map<Ident, Ty>, n: nat)
    requires Complete(order) && ExprOk(cond, types) && Placed(frame, types) && Count(frame.used, n)
    ensures ExactCode(CondCode(order, frame, cond), ExprNeed(cond, Yes, n))
    ensures CondCode(order, frame, cond).Ok? ==>
              var f := CondCode(order, frame, cond).value.frame; f == frame.(used := f.used)
  {
    hide BuildValue, ExprOk, Complete, Placed, Count, REGS;
    ValueExactly(order, frame, cond, types, n);
  }

  lemma {:induction false} StmtExactly(order: Order, frame: Frame, at: nat, stmt: Stmt, types: map<Ident, Ty>, n: nat)
    requires Complete(order) && StmtOk(stmt, types) && Placed(frame, types) && Count(frame.used, n)
    ensures ExactCode(StmtCode(order, frame, at, stmt), StmtNeed(stmt, n))
    ensures StmtCode(order, frame, at, stmt).Ok? ==> Placed(StmtCode(order, frame, at, stmt).value.frame, types)
    decreases stmt, 1
  {
    hide BuildValue, ExprOk, Complete, CondCode, Slots, BlockCode, BlockOk, AssignCode, Count, ExprNeed, BlockNeed, REGS, AssignNeed;
    CountBounded(frame.used, n);
    if StmtCode(order, frame, at, stmt).Ok? {
      CoveredDeclaresNothing(stmt, types);
      FrameStays(order, frame, at, stmt);
    }
    match stmt
    case Assign(x, _, e, _) => AssignExactly(order, frame, x, e, types, n);
    case If(cond, blk, els) => IfExactly(order, frame, at, cond, blk, els, types, n);
    case While(cond, blk) => WhileExactly(order, frame, at, cond, blk, types, n);
    case Ret(e) => ValueExactly(order, frame, e, types, n);
    case Exit => assert n <= REGS;
  }

  lemma {:induction false} IfExactly(order: Order, frame: Frame, at: nat, cond: Expr, blk: seq<Stmt>, els: seq<Stmt>,
                                     types: map<Ident, Ty>, n: nat)
    requires Complete(order) && CondOk(cond, types) && BlockOk(blk, types) && BlockOk(els, types)
    requires Placed(frame, types) && Count(frame.used, n)
    ensures ExactCode(StmtCode(order, frame, at, If(cond, blk, els)), StmtNeed(If(cond, blk, els), n))
    decreases If(cond, blk, els), 0
  {
    hide ExprOk, Complete, CondCode, Slots, BlockCode, BlockOk, Count, ExprNeed, BlockNeed, REGS;
    CondExactly(order, frame, cond, types, n);
    var test := CondCode(order, frame, cond);
    if test.Ok? {
      var elseAt := at + |test.value.code|;
      var m := ExprNeed(cond, Yes, n).left;
      BlockExactly(order, test.value.frame, elseAt + 1, blk, types, m);
      var thn := BlockCode(order, test.value.frame, elseAt + 1, blk);
      if thn.Ok? {
        BlockExactly(order, thn.value.frame, elseAt + 1 + |thn.value.code| + 2, els, types, BlockNeed(blk, m).left);
      }
    }
  }

  lemma {:induction false} WhileExactly(order: Order, frame: Frame, at: nat, cond: Expr, blk: seq<Stmt>,
                                        types: map<Ident, Ty>, n: nat)
    requires Complete(order) && (CondOk(cond, types) || cond == Value(BoolVal(true))) && BlockOk(blk, types)
    requires Placed(frame, types) && Count(frame.used, n)
    ensures ExactCode(StmtCode(order, frame, at, While(cond, blk)), StmtNeed(While(cond, blk), n))
    decreases While(cond, blk), 0
  {
    hide ExprOk, Complete, CondCode, Slots, BlockCode, BlockOk, Count, ExprNeed, BlockNeed, REGS;
    BlockExactly(order, frame, at + 2, blk, types, n);
    var body := BlockCode(order, frame, at + 2, blk);
    if body.Ok? && !IsConstTrue(cond) {
      CondExactly(order, body.value.frame, cond, types, BlockNeed(blk, n).left);
    }
  }

  /** What follows the first statement of a block. */
  function RestCode(order: Order, frame: Frame, at: nat, stmts: seq<Stmt>): Result<Emitted>
    requires stmts != []
  {
    var first :- StmtCode(order, frame, at, stmts[0]);
    BlockCode(order, first.frame, at + |first.code|, stmts[1..])
  }

  /** A block compiles when its first statement and then the rest do. */
  lemma BlockParts(order: Order, frame: Frame, at: nat, stmts: seq<Stmt>, n: nat)
    requires stmts != []
    ensures var first, rest := StmtCode(order, frame, at, stmts[0]), RestCode(order, frame, at, stmts);
            var block := BlockCode(order, frame, at, stmts);
            (block.Ok? <==> first.Ok? && rest.Ok?) && (block.Ok? ==> block.value.frame == rest.value.frame)
    ensures var first := StmtNeed(stmts[0], n);
            var rest := BlockNeed(stmts[1..], first.left);
            BlockNeed(stmts, n) == Need(Layout.Max(first.peak, rest.peak), rest.left)
  {
    hide StmtCode, StmtNeed;
  }

  lemma NothingExactly(order: Order, frame: Frame, at: nat, n: nat)
    requires Count(frame.used, n)
    ensures BlockCode(order, frame, at, []) == Ok(Emitted([], frame)) && BlockNeed([], n) == Need(n, n)
    ensures ExactCode(BlockCode(order, frame, at, []), BlockNeed([], n))
  {
    CountBounded(frame.used, n);
  }

  lemma ThenExactly(first: Result<Emitted>, rest: Result<Emitted>, block: Result<Emitted>, a: Need, b: Need)
    requires ExactCode(first, a) && (first.Ok? ==> ExactCode(rest, b))
    requires block.Ok? <==> first.Ok? && rest.Ok?
    requires block.Ok? ==> block.value.frame == rest.value.frame
    ensures ExactCode(block, Need(Layout.Max(a.peak, b.peak), b.left))
  {
  }

  lemma {:induction false} BlockExactly(order: Order, frame: Frame, at: nat, stmts: seq<Stmt>, types: map<Ident, Ty>, n: nat)
    requires Complete(order) && BlockOk(stmts, types) && Placed(frame, types) && Count(frame.used, n)
    ensures ExactCode(BlockCode(order, frame, at, stmts), BlockNeed(stmts, n))
    ensures BlockCode(order, frame, at, stmts).Ok? ==> Placed(BlockCode(order, frame, at, stmts).value.frame, types)
    decreases stmts, 2
  {
    hide Complete, Placed, Count, StmtCode, StmtOk, StmtNeed, BlockCode, BlockNeed;
    if stmts == [] {
      NothingExactly(order, frame, at, n);
    } else {
      BlockParts(order, frame, at, stmts, n);
      StmtExactly(order, frame, at, stmts[0], types, n);
      var first, rest := StmtCode(order, frame, at, stmts[0]), RestCode(order, frame, at, stmts);
      var a := StmtNeed(stmts[0], n);
      if first.Ok? {
        BlockExactly(order, first.value.frame, at + |first.value.code|, stmts[1..], types, a.left);
      }
      ThenExactly(first, rest, BlockCode(order, frame, at, stmts), a, BlockNeed(stmts[1..], a.left));
    }
  }

  /** The first statement of a body, which may be a declaration. */
  lemma TopExactly(order: Order, frame: Frame, at: nat, s: Stmt, types: map<Ident, Ty>, n: nat)
    requires Complete(order) && BodyOk([s], types) && Placed(frame, types) && Count(frame.used, n)
    ensures ExactCode(StmtCode(order, frame, at, s), StmtNeed(s, n))
    ensures StmtCode(order, frame, at, s).Ok? ==>
              Placed(StmtCode(order, frame, at, s).value.frame, if IsLet(s) then types[s.ident := s.ty] else types)
  {
    hide Complete, Placed, Count, StmtOk, AssignCode, AssignNeed, ExprOk, ExactCode;
    if IsLet(s) {
      LetExactly(order, frame, s.ident, s.ty, s.rval, types, n);
    } else {
      hide StmtCode, StmtNeed;
      StmtExactly(order, frame, at, s, types, n);
    }
  }

  lemma {:induction false} BodyExactly(order: Order, frame: Frame, at: nat, stmts: seq<Stmt>, types: map<Ident, Ty>, n: nat)
    requires Complete(order) && BodyOk(stmts, types) && Placed(frame, types) && Count(frame.used, n)
    ensures ExactCode(BlockCode(order, frame, at, stmts), BlockNeed(stmts, n))
    decreases |stmts|
  {
    hide Complete, Placed, Count, StmtCode, StmtOk, StmtNeed, BlockCode, BlockNeed, ExprOk;
    if stmts == [] {
      NothingExactly(order, frame, at, n);
    } else {
      BlockParts(order, frame, at, stmts, n);
      TopExactly(order, frame, at, stmts[0], types, n);
      var first, rest := StmtCode(order, frame, at, stmts[0]), RestCode(order, frame, at, stmts);
      var a := StmtNeed(stmts[0], n);
      if first.Ok? {
        BodyExactly(order, first.value.frame, at + |first.value.code|, stmts[1..],
                    if IsLet(stmts[0]) then types[stmts[0].ident := stmts[0].ty] else types, a.left);
      }
      ThenExactly(first, rest, BlockCode(order, frame, at, stmts), a, BlockNeed(stmts[1..], a.left));
    }
  }

  // ---------- functions and programs ----------

  /** Parameters take no registers and get slots of their own. */
  lemma {:induction false} ParamsPlaced(frame: Frame, params: seq<Param>, i: nat)
    requires i <= |params| <= |ARG_REGS| && Placed(frame, ParamTypes(params[..i]))
    requires forall j, k :: 0 <= j < k < |params| ==> params[j].ident != params[k].ident
    ensures ParamsCode(frame, params, i).Ok?
    ensures var f := ParamsCode(frame, params, i).value.frame; f.used == frame.used && Placed(f, ParamTypes(params))
    decreases |params| - i
  {
    hide Placed;
    if i == |params| {
      assert params[..i] == params;
    } else {
      var top := frame.currentStack + SCALAR_SIZE;
      var next := frame.(currentStack := top, totalStack := frame.totalStack + SCALAR_SIZE,
                         vars := frame.vars[params[i].ident := NumberedOffset(top, RBP)]);
      var x, before := params[i].ident, ParamTypes(params[..i]);
      assert params[..i + 1][..i] == params[..i];
      if x in before {
        ParamNames(params[..i], x);
      }
      assert ParamTypes(params[..i + 1]) == before[x := params[i].ty];
      hide ParamTypes;
      LetPlaced(frame, x, params[i].ty, before);
      assert next == AllocStack(frame, x).frame;
      ParamsPlaced(next, params, i + 1);
    }
  }

  /** A covered function compiles if and only if it never needs more than 14 registers at a time, for every
      iteration order of the register set; and it leaves none in use. */
  lemma FunctionCompilesExactly(order: Order, frame: Frame, at: nat, f: Func)
    requires Complete(order) && FuncOk(f) && frame.used == {} && frame.currentStack % 8 == 0
    ensures FuncCode(order, frame, at, f).Ok? <==> BlockNeed(f.stmts, 0).peak <= REGS
    ensures FuncCode(order, frame, at, f).Ok? ==>
              FuncCode(order, frame, at, f).value.frame.used == {} && FuncCode(order, frame, at, f).value.frame.currentStack == 0
  {
    hide Complete, BlockCode, BodyOk, BlockNeed;
    NothingUsed();
    var named := frame.(vars := frame.vars[f.ident := LabelLoc(FuncLabel(f.ident))]);
    assert f.params[..0] == [];
    ParamsPlaced(named, f.params, 0);
    var params := ParamsCode(named, f.params, 0).value;
    BodyExactly(order, params.frame, at + |Prologue(f.ident)| + |params.code|, f.stmts, ParamTypes(f.params), 0);
  }

  /** A program of covered functions compiles if and only if every one of them stays within 14 registers. */
  lemma {:induction false} ProgramCompilesExactly(order: Order, frame: Frame, at: nat, funcs: seq<Func>)
    requires Complete(order) && frame.used == {} && frame.currentStack == 0
    requires forall i :: 0 <= i < |funcs| ==> funcs[i].stmts == [] || FuncOk(funcs[i])
    ensures ProgramCode(order, frame, at, funcs).Ok? <==> forall i :: 0 <= i < |funcs| ==> BlockNeed(funcs[i].stmts, 0).peak <= REGS
    decreases |funcs|
  {
    hide Complete, FuncOk, BlockNeed, BlockCode;
    if funcs != [] {
      var f, rest := funcs[0], funcs[1..];
      if f.stmts == [] {
        EmptyNeed();
      } else {
        FunctionCompilesExactly(order, frame, at, f);
      }
      hide FuncCode;
      if FuncCode(order, frame, at, f).Ok? {
        var first := FuncCode(order, frame, at, f).value;
        ProgramCompilesExactly(order, first.frame, at + |first.code|, rest);
      }
      assert (forall i :: 0 <= i < |funcs| ==> BlockNeed(funcs[i].stmts, 0).peak <= REGS) <==>
          BlockNeed(f.stmts, 0).peak <= REGS && forall i :: 0 <= i < |rest| ==> BlockNeed(rest[i].stmts, 0).peak <= REGS by {
        assert forall i :: 0 < i < |funcs| ==> funcs[i] == rest[i - 1];
        assert forall i :: 0 <= i < |rest| ==> rest[i] == funcs[i + 1];
      }
    }
  }

  lemma EmptyNeed()
    ensures BlockNeed([], 0) == Need(0, 0)
  {
  }

  // ---------- consequences ----------

  /** One register for an arithmetic or logical operator, three for a comparison, two for a `!`. */
  function Cost(e: Expr): nat {
    match e
    case Unary(_, inner, _) => 2 + Cost(inner)
    case Binary(op, l, r, _) => (if op.IsCmp() then 3 else 1) + Cost(l) + Cost(r)
    case Parens(inner) => Cost(inner)
    case _ => 0
  }

  /** The cost bounds the need. */
  lemma {:induction false} CostSuffices(e: Expr, canClear: CanClearRegs, n: nat)
    ensures ExprNeed(e, canClear, n).peak <= n + Cost(e)
    ensures ExprNeed(e, canClear, n).left <= n + Cost(e)
  {
    match e
    case Unary(_, inner, _) => CostSuffices(inner, canClear, n);
    case Binary(op, l, r, _) =>
      CostSuffices(l, No, n);
      CostSuffices(r, No, ExprNeed(l, No, n).left);
    case Parens(inner) => CostSuffices(inner, canClear, n);
    case _ =>
  }

  /** Fourteen registers suffice for every expression whose cost fits the free ones, in any iteration order. */
  lemma BudgetSuffices(order: Order, vars: map<Ident, Location>, used: set<Register>, e: Expr, canClear: CanClearRegs, n: nat)
    requires Complete(order) && Compilable(e) && Bound(e, vars) && Count(used, n) && n + Cost(e) <= REGS
    ensures BuildValue(order, vars, used, e, canClear).Ok?
    ensures exists left: nat :: left <= n + Cost(e) && Count(BuildValue(order, vars, used, e, canClear).value.used, left)
  {
    hide BuildValue, Complete, Count;
    CostSuffices(e, canClear, n);
    ExprCompilesExactly(order, vars, used, e, canClear, n);
    assert ExprNeed(e, canClear, n).left <= n + Cost(e);
  }

  /** The value is not a negation: such a condition leaves its registers in use. */
  predicate NotNegated(e: Expr) {
    !e.Unary? && (e.Parens? ==> NotNegated(e.expr))
  }

  /** Costs of at most 13, and no negation where nothing is given back. */
  predicate CheapStmt(s: Stmt)
    decreases s, 0
  {
    match s
    case Assign(_, _, e, _) => Cost(e) <= 13
    case If(cond, blk, els) => Cost(cond) <= 13 && NotNegated(cond) && CheapBlock(blk) && CheapBlock(els)
    case While(cond, blk) => Cost(cond) <= 13 && NotNegated(cond) && CheapBlock(blk)
    case Ret(e) => Cost(e) <= 13 && NotNegated(e)
    case _ => true
  }

  predicate CheapBlock(stmts: seq<Stmt>)
    decreases stmts, 1
  {
    stmts == [] || (CheapStmt(stmts[0]) && CheapBlock(stmts[1..]))
  }

  /** A simple bound: such a block never needs more than 14 registers. */
  lemma {:induction false} CheapStmtNeed(s: Stmt, n: nat)
    requires CheapStmt(s) && n <= 1
    ensures StmtNeed(s, n).peak <= REGS && StmtNeed(s, n).left <= 1
    decreases s, 0
  {
    match s
    case Assign(x, _, e, isLet) =>
      CostSuffices(e, Yes, n);
      if KindOf(e).InReg? {
        RegIsNoVariable(e, x);
      } else {
        SlotTakesNone(e, n);
      }
    case If(cond, blk, els) =>
      CostSuffices(cond, Yes, n);
      GivesBack(cond, n);
      CheapBlockNeed(blk, ExprNeed(cond, Yes, n).left);
      CheapBlockNeed(els, BlockNeed(blk, ExprNeed(cond, Yes, n).left).left);
    case While(cond, blk) =>
      CheapBlockNeed(blk, n);
      CostSuffices(cond, Yes, BlockNeed(blk, n).left);
      GivesBack(cond, BlockNeed(blk, n).left);
    case Ret(e) =>
      CostSuffices(e, Yes, n);
      GivesBack(e, n);
    case _ =>
  }

  lemma {:induction false} CheapBlockNeed(stmts: seq<Stmt>, n: nat)
    requires CheapBlock(stmts) && n <= 1
    ensures BlockNeed(stmts, n).peak <= REGS && BlockNeed(stmts, n).left <= 1
    decreases stmts, 1
  {
    if stmts != [] {
      CheapStmtNeed(stmts[0], n);
      CheapBlockNeed(stmts[1..], StmtNeed(stmts[0], n).left);
    }
  }

  lemma {:induction false} GivesBack(e: Expr, n: nat)
    requires NotNegated(e) && n <= 1
    ensures ExprNeed(e, Yes, n).left <= 1
  {
    if e.Parens? {
      GivesBack(e.expr, n);
    }
  }

  lemma {:induction false} RegIsNoVariable(e: Expr, x: Ident)
    requires KindOf(e).InReg?
    ensures !IsVariable(e, x)
  {
    if e.Parens? {
      RegIsNoVariable(e.expr, x);
    }
  }

  lemma {:induction false} SlotTakesNone(e: Expr, n: nat)
    requires !KindOf(e).InReg?
    ensures ExprNeed(e, Yes, n) == Need(n, n)
  {
    if e.Parens? {
      SlotTakesNone(e.expr, n);
    }
  }

  lemma FunctionCompiles(order: Order, frame: Frame, at: nat, f: Func)
    requires Complete(order) && FuncOk(f) && CheapBlock(f.stmts) && frame.used == {} && frame.currentStack % 8 == 0
    ensures FuncCode(order, frame, at, f).Ok?
  {
    hide FuncCode, FuncOk, Complete;
    CheapBlockNeed(f.stmts, 0);
    FunctionCompilesExactly(order, frame, at, f);
  }

  /** `n` conditionals in a row that only test `!p`. */
  function NegatedTests(p: Ident, n: nat): seq<Stmt> {
    if n == 0 then [] else [If(Unary(Not, Var(p, Bool), Bool), [], [])] + NegatedTests(p, n - 1)
  }

  lemma {:induction false} TestsNeed(p: Ident, n: nat, u: nat, types: map<Ident, Ty>)
    requires p in types && types[p] == Bool
    ensures BlockOk(NegatedTests(p, n), types) && BlockNeed(NegatedTests(p, n), u) == Need(u + 2 * n, u + 2 * n)
    decreases n
  {
    if n != 0 {
      var cond := Unary(Not, Var(p, Bool), Bool);
      var test := If(cond, [], []);
      var stmts := NegatedTests(p, n);
      assert stmts[0] == test && stmts[1..] == NegatedTests(p, n - 1);
      assert ExprNeed(Var(p, Bool), Yes, u) == Need(u, u);
      assert ExprNeed(cond, Yes, u) == Need(u + 2, u + 2);
      assert BlockNeed([], u + 2) == Need(u + 2, u + 2);
      assert StmtNeed(test, u) == Need(u + 2, u + 2);
      assert CondOk(cond, types) by {
        assert WellTyped(Var(p, Bool), types) && Compilable(Var(p, Bool)) && NoLiteralFirst(Var(p, Bool));
      }
      assert BlockOk([], types);
      TestsNeed(p, n - 1, u + 2, types);
    }
  }

  /** A condition that is a negation leaves two registers in use, and nothing clears them until the next
      assignment or binary operation: from a fresh start seven such conditionals in a row compile, an eighth
      panics. */
  lemma NegatedTestsLeak(order: Order, frame: Frame, at: nat, p: Ident, n: nat, u: nat, types: map<Ident, Ty>)
    requires Complete(order) && Placed(frame, types) && Count(frame.used, u) && p in types && types[p] == Bool
    ensures BlockCode(order, frame, at, NegatedTests(p, n)).Ok? <==> u + 2 * n <= REGS
  {
    hide Complete, Placed, Count, BlockCode, BlockOk;
    TestsNeed(p, n, u, types);
    BlockExactly(order, frame, at, NegatedTests(p, n), types, u);
  }
}
