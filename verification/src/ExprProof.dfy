/** The code of an expression computes its value, without touching memory or a register in use. */
module ExprProof {
  import opened Words
  import opened Lir
  import opened Machine
  import opened AsmSpec

  // ---------- what the emitted code computes ----------

  /** Comparing the literal `5 < x` is emitted as if it were `x < 5`: the operands of an
      ordering change places when the left one is a literal. */
  function Flipped(e: Expr): Expr {
    match e
    case Unary(op, inner, t) => Unary(op, Flipped(inner), t)
    case Binary(op, l, r, t) =>
      if op.IsOrdering() && l.IsLiteral() then Binary(op, Flipped(r), Flipped(l), t)
      else Binary(op, Flipped(l), Flipped(r), t)
    case Parens(inner) => Parens(Flipped(inner))
    case _ => e
  }

  /** No ordering has a literal on its left. */
  predicate NoLiteralFirst(e: Expr) {
    match e
    case Unary(_, inner, _) => NoLiteralFirst(inner)
    case Binary(op, l, r, _) =>
      NoLiteralFirst(l) && NoLiteralFirst(r) && !(op.IsOrdering() && l.IsLiteral())
    case Parens(inner) => NoLiteralFirst(inner)
    case _ => true
  }

  lemma {:induction false} NothingFlipped(e: Expr)
    requires NoLiteralFirst(e)
    ensures Flipped(e) == e
  {
    match e
    case Unary(_, inner, _) => NothingFlipped(inner);
    case Binary(_, l, r, _) =>
      NothingFlipped(l);
      NothingFlipped(r);
    case Parens(inner) => NothingFlipped(inner);
    case _ =>
  }

  /** The expression is not a literal that is too wide for an instruction. */
  predicate SmallLiteral(e: Expr) {
    match e
    case Value(v) => Immediate(v)
    case Parens(inner) => SmallLiteral(inner)
    case _ => true
  }

  /** A literal that can be the count of a shift. */
  predicate CountLiteral(e: Expr) {
    match e
    case Value(v) => 0 <= Encode(v) < 256
    case Parens(inner) => CountLiteral(inner)
    case _ => false
  }

  /** The scalar expressions that the generator handles: no division, remainder, right shift or
      ones' complement, left shifts by a literal only, `!` on booleans only, `&&` and `||` on booleans only, and no
      operator whose operands are all literals (constant folding removes those), except `-`. A literal operand fits
      an instruction, unless it is the one that something is subtracted from, which is loaded first. */
  predicate Compilable(e: Expr) {
    match e
    case Var(_, _) => true
    case Unary(op, inner, t) =>
      op.Not? && t == Bool && inner.TypeOf() == Bool && Compilable(inner) && !inner.IsLiteral()
    case Binary(op, l, r, _) =>
      && Compilable(l) && Compilable(r)
      && !op.Div? && !op.Rem? && !op.RightShift?
      && (op.LeftShift? ==> CountLiteral(r))
      && (op.And? || op.Or? ==> l.TypeOf() == Bool)
      && (l.IsLiteral() && r.IsLiteral() ==> op.Sub?)
      && (op.Sub? || SmallLiteral(l)) && SmallLiteral(r)
    case Parens(inner) => Compilable(inner)
    case Value(_) => true
  }

  // ---------- machine facts ----------

  predicate SameFrame(before: Core, after: Core) {
    after.mem == before.mem && after.Reg(RSP) == before.Reg(RSP) && after.Reg(RBP) == before.Reg(RBP)
  }

  ghost predicate KeepsRegs(before: Core, after: Core, regs: set<Register>) {
    forall r :: r in regs ==> after.Reg(r) == before.Reg(r)
  }

  /** A location that holds an operand: a literal, a frame slot or a usable register in use. */
  predicate Operand(loc: Location, used: set<Register>) {
    match loc
    case Const(_) => true
    case NumberedOffset(_, base) => base == RBP
    case RegLoc(r) => r in used && !r.RSP? && !r.RBP?
    case NamedOffset(_) | LabelLoc(_) => false
  }

  function RegOf(loc: Location): set<Register> {
    if loc.RegLoc? then {loc.reg} else {}
  }

  lemma StraightNone(core: Core)
    ensures RunStraight([], core) == Some(core)
  {
  }

  lemma StraightOne(inst: Instruction, core: Core)
    ensures RunStraight([inst], core) == StepCore(inst, core)
  {
    if StepCore(inst, core).Some? {
      assert RunStraight([inst][1..], StepCore(inst, core).value) == StepCore(inst, core);
    }
  }

  function Truth(b: bool): word {
    if b then 1 else 0
  }

  function CmpHolds(op: BinOp, x: word, y: word): bool
    requires op.IsCmp()
  {
    match op
    case Lt => x < y
    case Le => x <= y
    case Ge => x >= y
    case Gt => x > y
    case Eq => x == y
    case Ne => x != y
  }

  lemma FlagDecides(op: BinOp, d: word, s: word)
    requires op.IsCmp()
    ensures Holds(FlagOf(op), Compare(d, s)) == CmpHolds(op, d, s)
  {
    CompareIsOrder(d, s);
  }

  /** The state after a register was assigned and the flags perhaps changed. */
  predicate Assigned(before: Core, after: Core, r: Register, w: word) {
    after.mem == before.mem && after.regs == before.regs[r := w]
  }

  lemma ReadAfterAssign(before: Core, after: Core, r: Register, w: word, loc: Location)
    requires Assigned(before, after, r, w) && loc != RegLoc(r)
    requires loc.NumberedOffset? ==> loc.base != r
    ensures Read(after, loc) == Read(before, loc)
  {
  }

  lemma MoveToRegRuns(core: Core, src: Location, r: Register)
    requires Read(core, src).Some?
    ensures MoveWord(core, src, RegLoc(r)) == Some(core.(regs := core.regs[r := Read(core, src).value]))
  {
  }

  lemma MovRuns(core: Core, src: Location, r: Register)
    requires Read(core, src).Some?
    ensures RunStraight([Mov(src, RegLoc(r))], core) == Some(core.(regs := core.regs[r := Read(core, src).value]))
  {
    hide RunStraight;
    MoveToRegRuns(core, src, r);
    StraightOne(Mov(src, RegLoc(r)), core);
  }

  lemma SetOnFlagRuns(src: Location, dst: Location, condReg: Register, op: BinOp, core: Core, s: word, d: word)
    returns (after: Core)
    requires op.IsCmp()
    requires Read(core, src) == Some(s) && Read(core, dst) == Some(d) && Encodable(src, dst) && Small(src)
    requires src != RegLoc(condReg) && dst != RegLoc(condReg)
    requires src.NumberedOffset? ==> src.base != condReg
    requires dst.NumberedOffset? ==> dst.base != condReg
    ensures RunStraight(SetOnFlag(src, dst, condReg, FlagOf(op)), core) == Some(after)
    ensures Assigned(core, after, condReg, Truth(CmpHolds(op, d, s)))
  {
    hide RunStraight, Holds;
    var code := SetOnFlag(src, dst, condReg, FlagOf(op));
    MoveToRegRuns(core, ZERO, condReg);
    var c1 := core.(regs := core.regs[condReg := 0]);
    ReadAfterAssign(core, c1, condReg, 0, src);
    ReadAfterAssign(core, c1, condReg, 0, dst);
    var c2 := c1.(flags := Compare(d, s));
    assert StepCore(code[1], c1) == Some(c2);
    FlagDecides(op, d, s);
    after := if CmpHolds(op, d, s) then c2.(regs := c2.regs[condReg := 1]) else c2;
    assert StepCore(code[2], c2) == Some(after);
    assert code == [code[0]] + ([code[1]] + [code[2]]);
    StraightAppend([code[0]], [code[1]] + [code[2]], core);
    StraightAppend([code[1]], [code[2]], c1);
    StraightOne(code[0], core);
    StraightOne(code[1], c1);
    StraightOne(code[2], c2);
  }

  // ---------- one operation ----------

  predicate IsAlu(op: BinOp) {
    op.Add? || op.Sub? || op.Mul? || op.And? || op.Or? || op.BitAnd? || op.BitXor? || op.BitOr? || op.IsShift()
  }

  /** One of the operands is the count of the shift. */
  predicate HasCount(op: BinOp, lloc: Location, rloc: Location) {
    op.IsShift() ==> IsCount(if rloc.Const? then rloc else lloc)
  }

  lemma AluCommutes(op: BinOp, x: word, y: word)
    requires IsAlu(op) && !op.Sub? && !op.IsShift()
    ensures Alu(op, x, y) == Alu(op, y, x)
  {
    BitwiseCommutes(AndBits, x, y);
    BitwiseCommutes(OrBits, x, y);
    BitwiseCommutes(XorBits, x, y);
  }

  /** The word that the code for `x op y` computes. */
  function BinWord(op: BinOp, x: word, y: word, literalFirst: bool): word
    requires op.IsCmp() || IsAlu(op)
  {
    if !op.IsCmp() then (if op.IsShift() && literalFirst then Alu(op, y, x).value else Alu(op, x, y).value)
    else if literalFirst then Truth(CmpHolds(op, y, x))
    else Truth(CmpHolds(op, x, y))
  }

  /** Both operands in place: what one of the proof steps below leaves for the next one. */
  ghost predicate Ready(before: Core, after: Core, kept: set<Register>, used: set<Register>,
                        left: Location, right: Location, x: word, y: word) {
    && SameFrame(before, after) && KeepsRegs(before, after, kept)
    && Operand(left, used) && Operand(right, used)
    && Read(after, left) == Some(x) && Read(after, right) == Some(y)
    && (left.RegLoc? ==> left != right)
  }

  lemma OrderRuns(order: Order, used: set<Register>, lloc: Location, rloc: Location, op: BinOp, core: Core,
                  x: word, y: word) returns (after: Core)
    requires OrderOperands(order, used, lloc, rloc, op).Ok?
    requires op.IsCmp() || IsAlu(op)
    requires Ready(core, core, used, used, lloc, rloc, x, y)
    requires (lloc.Const? && rloc.Const? ==> op.Sub?) && (op.Sub? || Small(lloc)) && Small(rloc)
    ensures var o := OrderOperands(order, used, lloc, rloc, op).value;
            && RunStraight(o.code, core) == Some(after)
            && used <= o.used && !o.right.Const? && Small(o.left)
            && RegOf(o.right) * used <= RegOf(lloc) + RegOf(rloc)
            && (op.Sub? || rloc.Const? ==> Ready(core, after, used, o.used, o.left, o.right, y, x))
            && (!op.Sub? && rloc.Const? ==> o.left == rloc)
            && (!op.Sub? && !rloc.Const? ==> o.left == lloc && Ready(core, after, used, o.used, o.left, o.right, x, y))
  {
    var o := OrderOperands(order, used, lloc, rloc, op).value;
    if op.Sub? && lloc.Const? {
      var reg := FreeReg(order, used).value;
      MoveToRegRuns(core, lloc, reg);
      StraightOne(o.code[0], core);
      after := core.(regs := core.regs[reg := x]);
      ReadAfterAssign(core, after, reg, x, rloc);
    } else {
      after := core;
    }
  }

  lemma LoadRuns(order: Order, used: set<Register>, left: Location, right: Location, core: Core, x: word, y: word)
    returns (after: Core)
    requires LoadRight(order, used, right).Ok?
    requires Ready(core, core, used, used, left, right, x, y) && !right.Const?
    ensures var b := LoadRight(order, used, right).value;
            && RunStraight(b.code, core) == Some(after)
            && used <= b.used && b.loc.RegLoc?
            && RegOf(b.loc) * used <= RegOf(right)
            && Ready(core, after, used, b.used, left, b.loc, x, y)
  {
    var b := LoadRight(order, used, right).value;
    if right.NumberedOffset? {
      MoveToRegRuns(core, right, b.loc.reg);
      StraightOne(b.code[0], core);
      after := core.(regs := core.regs[b.loc.reg := y]);
      ReadAfterAssign(core, after, b.loc.reg, y, left);
    } else {
      after := core;
    }
  }

  lemma AluRuns(op: BinOp, left: Location, right: Register, core: Core, x: word, y: word) returns (after: Core)
    requires IsAlu(op) && Small(left) && (op.IsShift() ==> IsCount(left))
    requires Read(core, left) == Some(x) && core.Reg(right) == y
    ensures RunStraight([Math(left, RegLoc(right), op)], core) == Some(after)
    ensures Assigned(core, after, right, Alu(op, y, x).value)
  {
    var inst := Math(left, RegLoc(right), op);
    StraightOne(inst, core);
    after := core.(flags := Undefined).(regs := core.regs[right := Alu(op, y, x).value]);
    assert StepCore(inst, core) == Some(after);
  }

  /** Comparing a stack slot: it is loaded into a fresh register first. */
  lemma CmpSlotRuns(slot: Location, tmp: Register, right: Register, op: BinOp, condReg: Register,
                    core: Core, x: word, y: word) returns (after: Core)
    requires op.IsCmp() && tmp != condReg && tmp != right && condReg != right
    requires Read(core, slot) == Some(x) && core.Reg(right) == y
    ensures RunStraight([SizedMov(slot, RegLoc(tmp), 8)] + SetOnFlag(RegLoc(right), RegLoc(tmp), condReg, FlagOf(op)), core)
         == Some(after)
    ensures after.mem == core.mem && after.regs == core.regs[tmp := x][condReg := Truth(CmpHolds(op, x, y))]
  {
    MoveToRegRuns(core, slot, tmp);
    StraightOne(SizedMov(slot, RegLoc(tmp), 8), core);
    var mid := core.(regs := core.regs[tmp := x]);
    ReadAfterAssign(core, mid, tmp, x, RegLoc(right));
    after := SetOnFlagRuns(RegLoc(right), RegLoc(tmp), condReg, op, mid, y, x);
    StraightAppend([SizedMov(slot, RegLoc(tmp), 8)], SetOnFlag(RegLoc(right), RegLoc(tmp), condReg, FlagOf(op)), core);
  }

  lemma CmpRuns(order: Order, used: set<Register>, left: Location, right: Register, op: BinOp, condReg: Register,
                core: Core, x: word, y: word) returns (after: Core)
    requires op.IsCmp() && Small(left) && condReg in used && RegLoc(condReg) != left && condReg != right && condReg != RBP && condReg != RSP
    requires FromBinopCmp(order, used, left, RegLoc(right), op, condReg).Ok?
    requires Ready(core, core, used, used, left, RegLoc(right), x, y)
    ensures var built := FromBinopCmp(order, used, left, RegLoc(right), op, condReg).value;
            && RunStraight(built.0, core) == Some(after)
            && used <= built.1 && SameFrame(core, after) && KeepsRegs(core, after, used - {condReg})
            && after.Reg(condReg) == Truth(if left.Const? then CmpHolds(op, y, x) else CmpHolds(op, x, y))
  {
    hide RunStraight, StepCore, FreeReg;
    if left.Const? {
      after := SetOnFlagRuns(left, RegLoc(right), condReg, op, core, x, y);
    } else if left.IsStackOffset() {
      after := CmpSlotRuns(left, FreeReg(order, used).value, right, op, condReg, core, x, y);
    } else {
      after := SetOnFlagRuns(RegLoc(right), left, condReg, op, core, y, x);
    }
  }

  lemma OperateRuns(order: Order, used: set<Register>, left: Location, right: Register, op: BinOp, core: Core,
                    x: word, y: word) returns (after: Core)
    requires (op.IsCmp() || IsAlu(op)) && Small(left) && (op.IsShift() ==> IsCount(left))
    requires Operate(order, used, left, RegLoc(right), op).Ok?
    requires Ready(core, core, used, used, left, RegLoc(right), x, y)
    ensures var b := Operate(order, used, left, RegLoc(right), op).value;
            && RunStraight(b.code, core) == Some(after)
            && used <= b.used && Operand(b.loc, b.used) && b.loc.RegLoc?
            && (b.loc.reg !in used || b.loc.reg == right)
            && SameFrame(core, after) && KeepsRegs(core, after, used - {right})
            && Read(after, b.loc) == Some(if op.IsCmp() then Truth(if left.Const? then CmpHolds(op, y, x) else CmpHolds(op, x, y))
                                          else Alu(op, y, x).value)
  {
    if op.IsCmp() {
      var condReg := FreeReg(order, used).value;
      after := CmpRuns(order, used + {condReg}, left, right, op, condReg, core, x, y);
    } else {
      after := AluRuns(op, left, right, core, x, y);
    }
  }

  /** Two operands in place, a binary operation leaves its value in a register and disturbs
      no register in use other than those that held the operands. */
  lemma CombineRuns(order: Order, used: set<Register>, lloc: Location, rloc: Location, op: BinOp,
                    canClear: CanClearRegs, core: Core, x: word, y: word) returns (after: Core)
    requires op.IsCmp() || IsAlu(op)
    requires Combine(order, used, lloc, rloc, op, canClear).Ok?
    requires Ready(core, core, used, used, lloc, rloc, x, y)
    requires (lloc.Const? && rloc.Const? ==> op.Sub?) && (op.Sub? || Small(lloc)) && Small(rloc) && HasCount(op, lloc, rloc)
    ensures var b := Combine(order, used, lloc, rloc, op, canClear).value;
            && RunStraight(b.code, core) == Some(after)
            && Operand(b.loc, b.used) && b.loc.RegLoc?
            && (canClear.No? ==> used <= b.used)
            && RegOf(b.loc) * used <= RegOf(lloc) + RegOf(rloc)
            && SameFrame(core, after) && KeepsRegs(core, after, used - (RegOf(lloc) + RegOf(rloc)))
            && Read(after, b.loc) == Some(BinWord(op, x, y, lloc.Const?))
  {
    hide OrderOperands, LoadRight, Operate, FreeReg, RunStraight, Alu, BinWord, KeepsRegs, HasCount;
    var o := OrderOperands(order, used, lloc, rloc, op).value;
    var l := LoadRight(order, o.used, o.right).value;
    var (u, v) := if op.Sub? || rloc.Const? then (y, x) else (x, y);
    var mid := PlacedRuns(order, used, lloc, rloc, op, core, x, y);
    var d := Operate(order, l.used, o.left, l.loc, op).value;
    after := OperateRuns(order, l.used, o.left, l.loc.reg, op, mid, u, v);
    StraightAppend(o.code + l.code, d.code, core);
    KeepsTwice(core, mid, after, used, l.used, l.loc.reg, RegOf(lloc) + RegOf(rloc));
    PlacedWord(op, x, y, lloc.Const?, rloc.Const?, o.left.Const?);
  }

  /** Registers kept by one piece of code and, apart from `r`, by the next. */
  lemma KeepsTwice(before: Core, mid: Core, after: Core, used: set<Register>, more: set<Register>, r: Register,
                   lost: set<Register>)
    requires KeepsRegs(before, mid, used) && KeepsRegs(mid, after, more - {r}) && used <= more && {r} * used <= lost
    ensures KeepsRegs(before, after, used - lost)
  {
    assert r in used ==> r in {r} * used;
  }

  /** Ordering the operands and loading the right one. */
  lemma PlacedRuns(order: Order, used: set<Register>, lloc: Location, rloc: Location, op: BinOp, core: Core, x: word, y: word)
    returns (after: Core)
    requires op.IsCmp() || IsAlu(op)
    requires OrderOperands(order, used, lloc, rloc, op).Ok?
    requires var o := OrderOperands(order, used, lloc, rloc, op).value; LoadRight(order, o.used, o.right).Ok?
    requires Ready(core, core, used, used, lloc, rloc, x, y)
    requires (lloc.Const? && rloc.Const? ==> op.Sub?) && (op.Sub? || Small(lloc)) && Small(rloc) && HasCount(op, lloc, rloc)
    ensures var o := OrderOperands(order, used, lloc, rloc, op).value;
            var l := LoadRight(order, o.used, o.right).value;
            var (u, v) := if op.Sub? || rloc.Const? then (y, x) else (x, y);
            && RunStraight(o.code + l.code, core) == Some(after) && l.loc.RegLoc?
            && used <= l.used && RegOf(l.loc) * used <= RegOf(lloc) + RegOf(rloc)
            && Small(o.left) && (op.IsShift() ==> IsCount(o.left))
            && (!op.Sub? ==> (o.left.Const? <==> lloc.Const? || rloc.Const?))
            && Ready(core, after, used, l.used, o.left, l.loc, u, v)
  {
    hide OrderOperands, LoadRight, FreeReg, RunStraight;
    var o := OrderOperands(order, used, lloc, rloc, op).value;
    var mid := OrderRuns(order, used, lloc, rloc, op, core, x, y);
    var (u, v) := if op.Sub? || rloc.Const? then (y, x) else (x, y);
    var l := LoadRight(order, o.used, o.right).value;
    after := LoadRuns(order, o.used, o.left, o.right, mid, u, v);
    StraightAppend(o.code, l.code, core);
  }

  /** What the instruction makes of the placed operands is the operation's word. */
  lemma PlacedWord(op: BinOp, x: word, y: word, leftConst: bool, rightConst: bool, placedConst: bool)
    requires op.IsCmp() || IsAlu(op)
    requires !op.Sub? ==> (placedConst <==> leftConst || rightConst) && !(leftConst && rightConst)
    requires op.IsShift() ==> leftConst || rightConst
    ensures var (u, v) := if op.Sub? || rightConst then (y, x) else (x, y);
            var placed := if op.IsCmp() then Truth(if placedConst then CmpHolds(op, v, u) else CmpHolds(op, u, v))
                          else Alu(op, v, u).value;
            BinWord(op, x, y, leftConst) == placed
  {
    if !op.IsCmp() && !op.Sub? && !op.IsShift() {
      AluCommutes(op, x, y);
    }
    hide Alu;
  }

  /** The same for logical negation of a boolean. */
  lemma NegateRuns(order: Order, used: set<Register>, operand: Location, core: Core, x: word) returns (after: Core)
    requires Negate(order, used, operand, Not, Bool).Ok?
    requires Operand(operand, used) && !operand.Const? && Read(core, operand) == Some(x)
    ensures var b := Negate(order, used, operand, Not, Bool).value;
            && RunStraight(b.code, core) == Some(after)
            && Operand(b.loc, b.used) && b.loc.RegLoc? && b.loc.reg !in used
            && used <= b.used
            && SameFrame(core, after) && KeepsRegs(core, after, used)
            && Read(after, b.loc) == Some(Truth(x != 1))
  {
    hide FreeReg, RunStraight, StepCore, SetOnFlag;
    var reg := FreeReg(order, used).value;
    var condReg := FreeReg(order, used + {reg}).value;
    if operand.IsStackOffset() {
      MovRuns(core, operand, reg);
      var mid := core.(regs := core.regs[reg := x]);
      after := SetOnFlagRuns(ONE, RegLoc(reg), condReg, Ne, mid, 1, x);
      StraightAppend([Mov(operand, RegLoc(reg))], SetOnFlag(ONE, RegLoc(reg), condReg, IfNotEq), core);
    } else {
      after := SetOnFlagRuns(ONE, operand, condReg, Ne, core, 1, x);
      assert [] + SetOnFlag(ONE, operand, condReg, IfNotEq) == SetOnFlag(ONE, operand, condReg, IfNotEq);
    }
  }

  // ---------- whole expressions ----------

  /** Every variable of the environment lives in a frame slot that holds its value. */
  ghost predicate Holding(vars: map<Ident, Location>, env: Env, core: Core) {
    forall x :: x in env ==>
                  x in vars && vars[x].NumberedOffset? && vars[x].base == RBP
                  && Read(core, vars[x]) == Some(Encode(env[x]))
  }

  lemma HoldingKept(vars: map<Ident, Location>, env: Env, before: Core, after: Core)
    requires Holding(vars, env, before) && SameFrame(before, after)
    ensures Holding(vars, env, after)
  {
  }

  lemma ReadKept(used: set<Register>, loc: Location, before: Core, after: Core)
    requires Operand(loc, used) && SameFrame(before, after) && KeepsRegs(before, after, used)
    ensures Read(after, loc) == Read(before, loc)
  {
  }

  lemma IntWordIsValue(op: BinOp, a: word, b: word)
    requires op.IsCmp() || (IsAlu(op) && !op.And? && !op.Or? && !op.RightShift?)
    ensures var v := IntOp(false, op, a, b);
            v.Some? && Encode(v.value) == BinWord(op, a, b, false)
  {
  }

  function BitsOfOp(op: BinOp): BitKind {
    if op.BitXor? then XorBits else if op.BitOr? || op.Or? then OrBits else AndBits
  }

  lemma AluOnBooleans(op: BinOp, x: word, y: word)
    requires op.BitAnd? || op.BitOr? || op.BitXor? || op.And? || op.Or?
    requires 0 <= x <= 1 && 0 <= y <= 1
    ensures Alu(op, x, y) == Some(Digit(BitsOfOp(op), x, y))
  {
    BitwiseOnBooleans(BitsOfOp(op), x, y);
  }

  lemma BoolWordIsValue(op: BinOp, a: bool, b: bool, x: word, y: word)
    requires op.IsCmp() || op.BitAnd? || op.BitOr? || op.BitXor? || op.And? || op.Or?
    requires x == Truth(a) && y == Truth(b)
    ensures var v := BoolOp(op, a, b);
            v.Some? && Encode(v.value) == BinWord(op, x, y, false)
  {
    hide Alu, Bitwise;
    if !op.IsCmp() {
      AluOnBooleans(op, x, y);
    }
  }

  /** On well-typed operands the emitted word encodes the source value. */
  lemma BinWordIsValue(op: BinOp, a: Val, b: Val)
    requires op.IsCmp() || (IsAlu(op) && !op.RightShift?)
    requires BinaryTy(op, a.TypeOf(), b.TypeOf()).Some?
    requires op.And? || op.Or? ==> a.BoolVal?
    ensures var v := Evaluate(false, op, a, b);
            v.Some? && Encode(v.value) == BinWord(op, Encode(a), Encode(b), false)
            && Some(v.value.TypeOf()) == BinaryTy(op, a.TypeOf(), b.TypeOf())
  {
    EvaluateTyped(false, op, a, b);
    match (a, b)
    case (IntVal(i), IntVal(j)) => IntWordIsValue(op, i, j);
    case (BoolVal(p), BoolVal(q)) => BoolWordIsValue(op, p, q, Encode(a), Encode(b));
  }

  /** What `build_value` promises about a piece of code, a result location and a value. */
  ghost predicate Computes(b: Built, used: set<Register>, canClear: CanClearRegs, literal: bool, v: Val,
                           before: Core, after: Core) {
    && RunStraight(b.code, before) == Some(after)
    && SameFrame(before, after)
    && Operand(b.loc, b.used) && (b.loc.Const? <==> literal)
    && Read(after, b.loc) == Some(Encode(v))
    && (canClear.No? ==> used <= b.used && KeepsRegs(before, after, used) && RegOf(b.loc) !! used)
  }

  /** The central lemma about expressions: the code never gets stuck, leaves memory and the
      frame alone, keeps every register that was in use (when it may not clear them), and
      leaves the value of the expression, as emitted, in the returned location. */
  lemma {:induction false} BuildValueComputes(
      order: Order, vars: map<Ident, Location>, used: set<Register>, e: Expr, canClear: CanClearRegs,
      types: map<Ident, Ty>, env: Env, core: Core) returns (v: Val, after: Core)
    requires WellTyped(e, types) && EnvTyped(env, types) && Compilable(e)
    requires Holding(vars, env, core)
    requires BuildValue(order, vars, used, e, canClear).Ok?
    ensures Eval(false, Flipped(e), env) == Some(v) && v.TypeOf() == e.TypeOf()
    ensures Computes(BuildValue(order, vars, used, e, canClear).value, used, canClear, e.IsLiteral(), v, core, after)
    decreases e
  {
    match e
    case Var(x, _) =>
      v, after := env[x], core;
    case Value(w) =>
      v, after := w, core;
    case Parens(inner) =>
      v, after := BuildValueComputes(order, vars, used, inner, canClear, types, env, core);
    case Unary(op, inner, t) =>
      var b := BuildValue(order, vars, used, inner, canClear).value;
      var a, mid := BuildValueComputes(order, vars, used, inner, canClear, types, env, core);
      var n := Negate(order, b.used, b.loc, op, t).value;
      after := NegateRuns(order, b.used, b.loc, mid, Encode(a));
      StraightAppend(b.code, n.code, core);
      v := EvaluateUnary(op, a);
    case Binary(op, l, r, t) =>
      v, after := BuildBinaryComputes(order, vars, used, op, l, r, t, canClear, types, env, core);
  }

  lemma {:induction false} CountIsLiteral(e: Expr)
    requires CountLiteral(e)
    ensures e.IsLiteral()
  {
    if e.Parens? {
      CountIsLiteral(e.expr);
    }
  }

  lemma BinWordTurned(op: BinOp, x: word, y: word, literalFirst: bool)
    requires op.IsCmp() || (IsAlu(op) && !(op.IsShift() && literalFirst))
    ensures BinWord(op, x, y, literalFirst)
         == if literalFirst && op.IsOrdering() then BinWord(op, y, x, false) else BinWord(op, x, y, false)
  {
    hide Alu;
  }

  /** The code of a binary operation: that of both operands and of the operation itself. */
  lemma BinaryParts(order: Order, vars: map<Ident, Location>, used: set<Register>, op: BinOp, l: Expr, r: Expr, t: Ty,
                    canClear: CanClearRegs)
    requires BuildValue(order, vars, used, Binary(op, l, r, t), canClear).Ok?
    ensures BuildValue(order, vars, used, l, No).Ok?
    ensures BuildValue(order, vars, BuildValue(order, vars, used, l, No).value.used, r, No).Ok?
    ensures var left := BuildValue(order, vars, used, l, No).value;
            var right := BuildValue(order, vars, left.used, r, No).value;
            var done := Combine(order, right.used, left.loc, right.loc, op, canClear);
            && done.Ok?
            && BuildValue(order, vars, used, Binary(op, l, r, t), canClear).value
               == done.value.(code := left.code + right.code + done.value.code)
  {
    hide Combine;
  }

  /** What the source makes of the operands' values is what the instruction computes. */
  lemma BinaryEval(op: BinOp, l: Expr, r: Expr, t: Ty, types: map<Ident, Ty>, env: Env, x: Val, y: Val)
    returns (v: Val)
    requires WellTyped(Binary(op, l, r, t), types) && Compilable(Binary(op, l, r, t))
    requires Eval(false, Flipped(l), env) == Some(x) && x.TypeOf() == l.TypeOf()
    requires Eval(false, Flipped(r), env) == Some(y) && y.TypeOf() == r.TypeOf()
    ensures Eval(false, Flipped(Binary(op, l, r, t)), env) == Some(v) && v.TypeOf() == t
    ensures Encode(v) == BinWord(op, Encode(x), Encode(y), l.IsLiteral())
  {
    hide BinWord, Evaluate;
    if op.LeftShift? {
      CountIsLiteral(r);
    }
    BinWordTurned(op, Encode(x), Encode(y), l.IsLiteral());
    if op.IsOrdering() && l.IsLiteral() {
      BinWordIsValue(op, y, x);
      v := Evaluate(false, op, y, x).value;
    } else {
      BinWordIsValue(op, x, y);
      v := Evaluate(false, op, x, y).value;
    }
  }

  lemma StraightAppend3(a: seq<Instruction>, b: seq<Instruction>, c: seq<Instruction>, s0: Core, s1: Core, s2: Core)
    requires RunStraight(a, s0) == Some(s1) && RunStraight(b, s1) == Some(s2)
    ensures RunStraight(a + b + c, s0) == RunStraight(c, s2)
  {
    StraightAppend(a, b, s0);
    StraightAppend(a + b, c, s0);
  }

  /** Both operands built one after the other: the second does not disturb the first. */
  lemma OperandsReady(bl: Built, br: Built, used: set<Register>, x: Val, y: Val, xLit: bool, yLit: bool,
                      core: Core, c1: Core, c2: Core)
    requires Computes(bl, used, No, xLit, x, core, c1) && Computes(br, bl.used, No, yLit, y, c1, c2)
    ensures Ready(c2, c2, br.used, br.used, bl.loc, br.loc, Encode(x), Encode(y))
    ensures SameFrame(core, c2) && KeepsRegs(core, c2, used)
    ensures used <= br.used && RegOf(bl.loc) !! used && RegOf(br.loc) !! used
  {
    ReadKept(bl.used, bl.loc, c1, c2);
  }

  lemma CombinedComputes(order: Order, bl: Built, br: Built, used: set<Register>, op: BinOp, canClear: CanClearRegs,
                         x: Val, y: Val, v: Val, xLit: bool, yLit: bool, core: Core, c1: Core, c2: Core)
    returns (after: Core)
    requires op.IsCmp() || IsAlu(op)
    requires Computes(bl, used, No, xLit, x, core, c1) && Computes(br, bl.used, No, yLit, y, c1, c2)
    requires (xLit && yLit ==> op.Sub?) && (op.Sub? || Small(bl.loc)) && Small(br.loc) && HasCount(op, bl.loc, br.loc)
    requires Encode(v) == BinWord(op, Encode(x), Encode(y), xLit)
    requires Combine(order, br.used, bl.loc, br.loc, op, canClear).Ok?
    ensures var d := Combine(order, br.used, bl.loc, br.loc, op, canClear).value;
            Computes(d.(code := bl.code + br.code + d.code), used, canClear, false, v, core, after)
  {
    OperandsReady(bl, br, used, x, y, xLit, yLit, core, c1, c2);
    var d := Combine(order, br.used, bl.loc, br.loc, op, canClear).value;
    after := CombineRuns(order, br.used, bl.loc, br.loc, op, canClear, c2, Encode(x), Encode(y));
    StraightAppend3(bl.code, br.code, d.code, core, c1, c2);
  }

  /** A literal that is small is a constant that an instruction can hold. */
  lemma {:induction false} SmallBuilt(order: Order, vars: map<Ident, Location>, used: set<Register>, e: Expr,
                                      canClear: CanClearRegs)
    requires SmallLiteral(e) && BuildValue(order, vars, used, e, canClear).Ok?
    requires BuildValue(order, vars, used, e, canClear).value.loc.Const? ==> e.IsLiteral()
    ensures Small(BuildValue(order, vars, used, e, canClear).value.loc)
    decreases e
  {
    if e.Parens? {
      SmallBuilt(order, vars, used, e.expr, canClear);
    }
  }

  /** A literal count is a constant. */
  lemma {:induction false} CountBuilt(order: Order, vars: map<Ident, Location>, used: set<Register>, e: Expr,
                                      canClear: CanClearRegs)
    requires CountLiteral(e) && BuildValue(order, vars, used, e, canClear).Ok?
    ensures IsCount(BuildValue(order, vars, used, e, canClear).value.loc)
    decreases e
  {
    if e.Parens? {
      CountBuilt(order, vars, used, e.expr, canClear);
    }
  }

  lemma {:induction false} BuildBinaryComputes(
      order: Order, vars: map<Ident, Location>, used: set<Register>, op: BinOp, l: Expr, r: Expr, t: Ty,
      canClear: CanClearRegs, types: map<Ident, Ty>, env: Env, core: Core) returns (v: Val, after: Core)
    requires WellTyped(Binary(op, l, r, t), types) && EnvTyped(env, types) && Compilable(Binary(op, l, r, t))
    requires Holding(vars, env, core)
    requires BuildValue(order, vars, used, Binary(op, l, r, t), canClear).Ok?
    ensures Eval(false, Flipped(Binary(op, l, r, t)), env) == Some(v) && v.TypeOf() == t
    ensures Computes(BuildValue(order, vars, used, Binary(op, l, r, t), canClear).value, used, canClear, false, v, core, after)
    decreases Binary(op, l, r, t), 0
  {
    var bl := BuildValue(order, vars, used, l, No).value;
    var x, c1 := BuildValueComputes(order, vars, used, l, No, types, env, core);
    HoldingKept(vars, env, core, c1);
    var br := BuildValue(order, vars, bl.used, r, No).value;
    var y, c2 := BuildValueComputes(order, vars, bl.used, r, No, types, env, c1);
    v := BinaryEval(op, l, r, t, types, env, x, y);
    if !op.Sub? {
      SmallBuilt(order, vars, used, l, No);
    }
    SmallBuilt(order, vars, bl.used, r, No);
    if op.LeftShift? {
      CountBuilt(order, vars, bl.used, r, No);
    }
    after := CombinedComputes(order, bl, br, used, op, canClear, x, y, v, l.IsLiteral(), r.IsLiteral(), core, c1, c2);
  }
}
