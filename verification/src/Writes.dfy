/** What the code of an expression can write: registers other than the stack and frame pointer, nothing
    else. */
module Writes {
  import opened Lir
  import opened Machine
  import opened AsmSpec

  /** Names stand for frame slots or labels, never for registers. */
  ghost predicate Located(vars: map<Ident, Location>) {
    forall x :: x in vars ==> vars[x].NumberedOffset? || vars[x].LabelLoc?
  }

  predicate IsUsable(r: Register) {
    !r.RSP? && !r.RBP?
  }

  /** Not a cell of memory, and not the stack or frame pointer. */
  predicate Scratch(loc: Location) {
    !loc.NumberedOffset? && (loc.RegLoc? ==> IsUsable(loc.reg))
  }

  predicate WritesScratch(inst: Instruction) {
    match inst
    case Mov(_, dst) => Scratch(dst)
    case SizedMov(_, dst, _) => Scratch(dst)
    case CondMov(_, dst, _) => Scratch(dst)
    case Load(_, dst, _) => Scratch(dst)
    case Math(_, dst, _) => Scratch(dst)
    case Cmp(_, _) => true
    case _ => false
  }

  ghost predicate ScratchCode(code: seq<Instruction>) {
    forall i :: 0 <= i < |code| ==> WritesScratch(code[i])
  }

  /** A built location is a slot or scratch. */
  predicate SlotOrScratch(loc: Location) {
    loc.NumberedOffset? || Scratch(loc)
  }

  lemma OrderWrites(order: Order, used: set<Register>, lloc: Location, rloc: Location, op: BinOp)
    requires SlotOrScratch(lloc) && SlotOrScratch(rloc) && OrderOperands(order, used, lloc, rloc, op).Ok?
    ensures var o := OrderOperands(order, used, lloc, rloc, op).value;
            ScratchCode(o.code) && SlotOrScratch(o.left) && SlotOrScratch(o.right)
  {
    hide FreeReg;
  }

  lemma OperateWrites(order: Order, used: set<Register>, left: Location, right: Location, op: BinOp)
    requires Scratch(right) && Operate(order, used, left, right, op).Ok?
    ensures var b := Operate(order, used, left, right, op).value; ScratchCode(b.code) && Scratch(b.loc)
  {
    hide FreeReg;
  }

  lemma CombineWrites(order: Order, used: set<Register>, lloc: Location, rloc: Location, op: BinOp, canClear: CanClearRegs)
    requires SlotOrScratch(lloc) && SlotOrScratch(rloc) && Combine(order, used, lloc, rloc, op, canClear).Ok?
    ensures var b := Combine(order, used, lloc, rloc, op, canClear).value; ScratchCode(b.code) && Scratch(b.loc)
  {
    hide FreeReg, OrderOperands, Operate, ClearRegsExcept;
    var o := OrderOperands(order, used, lloc, rloc, op).value;
    var l := LoadRight(order, o.used, o.right).value;
    OrderWrites(order, used, lloc, rloc, op);
    OperateWrites(order, l.used, o.left, l.loc, op);
  }

  /** The code of an expression writes nothing but scratch registers. */
  lemma {:induction false} ExprWrites(order: Order, vars: map<Ident, Location>, used: set<Register>, e: Expr,
                                      canClear: CanClearRegs)
    requires Located(vars) && BuildValue(order, vars, used, e, canClear).Ok?
    ensures var b := BuildValue(order, vars, used, e, canClear).value; ScratchCode(b.code) && SlotOrScratch(b.loc)
    decreases e
  {
    hide Combine, FreeReg;
    match e
    case Var(_, _) =>
    case Unary(_, inner, _) => ExprWrites(order, vars, used, inner, canClear);
    case Binary(op, l, r, _) =>
      var left := BuildValue(order, vars, used, l, No).value;
      var right := BuildValue(order, vars, left.used, r, No).value;
      ExprWrites(order, vars, used, l, No);
      ExprWrites(order, vars, left.used, r, No);
      CombineWrites(order, right.used, left.loc, right.loc, op, canClear);
    case Parens(inner) => ExprWrites(order, vars, used, inner, canClear);
    case Value(_) =>
  }
}
