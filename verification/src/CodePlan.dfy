/** How long the code of a statement is and which labels it defines, read off the source. Registers decide
    one thing only: whether a computed value that is returned, or stored through an address, is in the right
    register already, so that a move is left out. */
module CodePlan {
  import opened Lir
  import opened Machine
  import opened AsmSpec
  import opened Labels
  import opened UsedRegs
  import opened Writes
  import Layout

  // ---------- expressions ----------

  /** Where the value of an expression is when it takes no code; nothing for a value in a register. */
  function Fixed(e: Expr, vars: map<Ident, Location>): Option<Location> {
    match e
    case Var(x, _) => if x in vars then Some(vars[x]) else None
    case Value(v) => Some(Const(v))
    case Parens(inner) => Fixed(inner, vars)
    case _ => None
  }

  predicate OnStack(loc: Option<Location>) {
    loc.Some? && loc.value.NumberedOffset?
  }

  predicate Literal(loc: Option<Location>) {
    loc.Some? && loc.value.Const?
  }

  /** The operands in the order of the instruction: a literal on the right is exchanged with the left operand,
      or goes into a register when something is subtracted from it. */
  function InOrder(op: BinOp, l: Option<Location>, r: Option<Location>): (Option<Location>, Option<Location>) {
    var (left, right) := if op.Sub? then (r, l) else (l, r);
    if !Literal(right) then (left, right) else if op.Sub? then (left, None) else (right, left)
  }

  /** One instruction loads a literal from which something is subtracted, one a right operand on the stack; a
      comparison has three and one more to load a left operand; any other operation has one, and one more when
      its result is not in a register. */
  function CombineLength(op: BinOp, l: Option<Location>, r: Option<Location>): nat {
    var (left, right) := InOrder(op, l, r);
    (if op.Sub? && Literal(l) then 1 else 0) + (if OnStack(right) then 1 else 0)
    + if op.IsCmp() then (if OnStack(left) then 4 else 3)
      else if right.None? || OnStack(right) then 1 else 2
  }

  function ExprLength(e: Expr, vars: map<Ident, Location>): nat {
    match e
    case Unary(_, inner, _) => ExprLength(inner, vars) + (if OnStack(Fixed(inner, vars)) then 4 else 3)
    case Binary(op, l, r, _) => ExprLength(l, vars) + ExprLength(r, vars) + CombineLength(op, Fixed(l, vars), Fixed(r, vars))
    case Parens(inner) => ExprLength(inner, vars)
    case _ => 0
  }

  /** A location is where it was expected. */
  predicate Found(loc: Location, expected: Option<Location>) {
    match expected
    case Some(l) => loc == l && (l.NumberedOffset? || l.LabelLoc? || l.Const?)
    case None => loc.RegLoc?
  }

  lemma OrderPlanned(order: Order, used: set<Register>, lloc: Location, rloc: Location, op: BinOp,
                     l: Option<Location>, r: Option<Location>)
    requires Found(lloc, l) && Found(rloc, r) && OrderOperands(order, used, lloc, rloc, op).Ok? && !op.Div? && !op.Rem?
    ensures var o := OrderOperands(order, used, lloc, rloc, op).value;
            && |o.code| == (if op.Sub? && Literal(l) then 1 else 0)
            && Found(o.left, InOrder(op, l, r).0) && Found(o.right, InOrder(op, l, r).1)
  {
    hide FreeReg;
  }

  lemma LoadPlanned(order: Order, used: set<Register>, right: Location, expected: Option<Location>)
    requires Found(right, expected) && LoadRight(order, used, right).Ok?
    ensures var b := LoadRight(order, used, right).value;
            |b.code| == (if OnStack(expected) then 1 else 0) && Found(b.loc, if OnStack(expected) then None else expected)
  {
    hide FreeReg;
  }

  lemma OperatePlanned(order: Order, used: set<Register>, left: Location, right: Location, op: BinOp,
                       l: Option<Location>, r: Option<Location>)
    requires Found(left, l) && Found(right, r) && !OnStack(r) && Operate(order, used, left, right, op).Ok?
    ensures var b := Operate(order, used, left, right, op).value;
            && |b.code| == (if !op.IsCmp() then 1 else if OnStack(l) then 4 else 3)
            && Found(b.loc, if op.IsCmp() then None else r)
  {
    hide FreeReg, FlagOf;
  }

  lemma CombinePlanned(order: Order, used: set<Register>, lloc: Location, rloc: Location, op: BinOp, canClear: CanClearRegs,
                       l: Option<Location>, r: Option<Location>)
    requires Found(lloc, l) && Found(rloc, r) && Combine(order, used, lloc, rloc, op, canClear).Ok?
    ensures var b := Combine(order, used, lloc, rloc, op, canClear).value;
            |b.code| == CombineLength(op, l, r) && b.loc.RegLoc?
  {
    hide FreeReg, OrderOperands, LoadRight, Operate, InOrder, Found;
    assert !op.Div? && !op.Rem? by {
      NoDivision(order, used, lloc, rloc, op, canClear);
    }
    var (left, right) := InOrder(op, l, r);
    var o := OrderOperands(order, used, lloc, rloc, op).value;
    OrderPlanned(order, used, lloc, rloc, op, l, r);
    var b := LoadRight(order, o.used, o.right).value;
    LoadPlanned(order, o.used, o.right, right);
    var loaded := if OnStack(right) then None else right;
    var d := Operate(order, b.used, o.left, b.loc, op).value;
    OperatePlanned(order, b.used, o.left, b.loc, op, left, loaded);
    FoundKind(d.loc, if op.IsCmp() then None else loaded);
  }

  lemma FoundKind(loc: Location, expected: Option<Location>)
    requires Found(loc, expected)
    ensures loc.RegLoc? <==> expected.None?
  {
  }

  lemma NoDivision(order: Order, used: set<Register>, lloc: Location, rloc: Location, op: BinOp, canClear: CanClearRegs)
    requires Combine(order, used, lloc, rloc, op, canClear).Ok?
    ensures !op.Div? && !op.Rem?
  {
    hide FreeReg, OrderOperands, LoadRight;
  }

  lemma NegatePlanned(order: Order, used: set<Register>, operand: Location, op: UnOp, ty: Ty, expected: Option<Location>)
    requires Found(operand, expected) && Negate(order, used, operand, op, ty).Ok?
    ensures var b := Negate(order, used, operand, op, ty).value;
            |b.code| == (if OnStack(expected) then 4 else 3) && b.loc.RegLoc?
  {
    hide FreeReg;
  }

  /** The length of an expression's code, and the place of its value, for any order of the registers, any of
      them in use, and with or without permission to give them back. */
  lemma {:induction false} ExprPlanned(order: Order, vars: map<Ident, Location>, used: set<Register>, e: Expr,
                                       canClear: CanClearRegs)
    requires Located(vars) && BuildValue(order, vars, used, e, canClear).Ok?
    ensures var b := BuildValue(order, vars, used, e, canClear).value;
            |b.code| == ExprLength(e, vars) && Found(b.loc, Fixed(e, vars))
    decreases e
  {
    hide FreeReg, Combine, Negate, CombineLength;
    match e
    case Var(_, _) =>
    case Value(_) =>
    case Parens(inner) => ExprPlanned(order, vars, used, inner, canClear);
    case Unary(op, inner, t) =>
      ExprPlanned(order, vars, used, inner, canClear);
      var operand := BuildValue(order, vars, used, inner, canClear).value;
      NegatePlanned(order, operand.used, operand.loc, op, t, Fixed(inner, vars));
    case Binary(op, l, r, _) =>
      ExprPlanned(order, vars, used, l, No);
      var left := BuildValue(order, vars, used, l, No).value;
      ExprPlanned(order, vars, left.used, r, No);
      var right := BuildValue(order, vars, left.used, r, No).value;
      CombinePlanned(order, right.used, left.loc, right.loc, op, canClear, Fixed(l, vars), Fixed(r, vars));
  }

  // ---------- statements without labels ----------

  /** The names that the generator knows, with their places, and how much of the frame is taken. */
  datatype Scope = Scope(vars: map<Ident, Location>, depth: nat)

  function ScopeOf(frame: Frame): Scope {
    Scope(frame.vars, frame.currentStack)
  }

  function Declared(scope: Scope, x: Ident, size: nat): Scope {
    Scope(scope.vars[x := NumberedOffset(scope.depth + size, RBP)], scope.depth + size)
  }

  function ScopeAfter(s: Stmt, scope: Scope): Scope {
    match s
    case Assign(x, _, _, isLet) => if isLet then Declared(scope, x, SCALAR_SIZE) else scope
    case Declare(x, shape) => Declared(scope, x, Layout.Size(shape))
    case LetStruct(x, fields, _) => Declared(scope, x, Layout.Size(Struct(fields)))
    case LetEnum(x, variants, _, _) => Declared(scope, x, Layout.Size(Enum(variants)))
    case _ => scope
  }

  function PushLength(shape: Shape): nat
    decreases shape
  {
    if shape.Struct? then PushFieldsLength(shape.fields) else 1
  }

  function PushFieldsLength(fields: seq<Field>): nat
    decreases fields
  {
    if fields == [] then 0
    else
      assert fields decreases to fields[0];
      PushLength(fields[0].shape) + PushFieldsLength(fields[1..])
  }

  /** A value on the stack goes through a register. */
  function MoveLength(from: Option<Location>): nat {
    if OnStack(from) then 2 else 1
  }

  function StoreLength(to: Location, from: Option<Location>): nat {
    if from == Some(to) then 0 else if to.NumberedOffset? then MoveLength(from) else 1
  }

  function LeavesLength(leaves: seq<Expr>, vars: map<Ident, Location>): nat {
    if leaves == [] then 0
    else ExprLength(leaves[0], vars) + MoveLength(Fixed(leaves[0], vars)) + LeavesLength(leaves[1..], vars)
  }

  function ItemsLength(items: seq<PayloadItem>, vars: map<Ident, Location>): nat {
    if items == [] then 0
    else (if items[0].Single? then ExprLength(items[0].value, vars) else 0) + 1 + ItemsLength(items[1..], vars)
  }

  function IndexLength(index: Expr, vars: map<Ident, Location>): nat {
    if index.Value? && index.val.IntVal? then 2 else ExprLength(index, vars) + 4
  }

  function FieldLength(access: Access, vars: map<Ident, Location>): nat
    decreases access
  {
    match access
    case Whole(_) => 0
    case Element(_, index) => IndexLength(index, vars)
    case Inner(_, rest, _) => FieldLength(rest, vars)
  }

  /** The place of a field in the frame; nothing for an element of an array field. */
  function FieldPlace(fields: seq<Field>, access: Access, offset: int, base: Register): Option<Location>
    decreases access
  {
    var found := Layout.Find(fields, access.name);
    var start := offset - if found.Some? then found.value.before else 0;
    match access
    case Whole(_) => if start >= 0 then Some(NumberedOffset(start, base)) else None
    case Element(_, _) => None
    case Inner(_, rest, inner) => FieldPlace(inner, rest, start, base)
  }

  /** The value is computed: it is neither a variable nor a literal. */
  predicate Computed(e: Expr) {
    e.Unary? || e.Binary? || (e.Parens? && Computed(e.expr))
  }

  /** What registers decide about: the move of a returned value into RAX, and the store of a value whose code
      may overwrite the address. */
  predicate Unsettled(s: Stmt) {
    match s
    case Ret(e) => Computed(e)
    case SetItem(_, _, rval) => Clobbers(rval)
    case SetField(_, _, access, rval) => access.EndsInElement() && Clobbers(rval)
    case _ => false
  }

  /** The length of a simple statement's code. With `omitted` the last move is left out, if registers can
      decide that. */
  function SimpleLength(s: Stmt, scope: Scope, omitted: bool): nat {
    match s
    case Assign(x, _, rval, isLet) =>
      var vars := ScopeAfter(s, scope).vars;
      (if isLet then 1 else 0) + ExprLength(rval, vars) + if x in vars then StoreLength(vars[x], Fixed(rval, vars)) else 0
    case Ret(e) => ExprLength(e, scope.vars) + (if Unsettled(s) && omitted then 0 else 1) + 2
    case Exit => 2
    case Declare(_, shape) => PushLength(shape)
    case LetStruct(_, fields, inits) =>
      PushLength(Struct(fields)) + LeavesLength(Layout.Flatten(inits), ScopeAfter(s, scope).vars)
    case LetEnum(_, _, _, items) => 1 + 1 + ItemsLength(items, ScopeAfter(s, scope).vars)
    case SetItem(_, index, rval) =>
      IndexLength(index, scope.vars) + ExprLength(rval, scope.vars)
      + if Unsettled(s) && omitted then 0 else MoveLength(Fixed(rval, scope.vars))
    case SetField(x, fields, access, rval) =>
      FieldLength(access, scope.vars) + ExprLength(rval, scope.vars)
      + if Unsettled(s) && omitted then 0
        else if x in scope.vars && scope.vars[x].NumberedOffset? then
          match FieldPlace(fields, access, scope.vars[x].offset, scope.vars[x].base)
          case Some(to) => StoreLength(to, Fixed(rval, scope.vars))
          case None => MoveLength(Fixed(rval, scope.vars))
        else 0
    case _ => 0
  }

  /** Whether the last move of the statement is left out. */
  predicate Omitted(order: Order, frame: Frame, s: Stmt) {
    match s
    case Ret(e) =>
      var built := BuildValue(order, frame.vars, frame.used, e, Yes);
      built.Ok? && built.value.loc == RegLoc(RAX)
    case SetItem(x, index, rval) =>
      x in frame.vars && Overwritten(order, frame, IndexArr(order, frame.vars, frame.used, frame.vars[x], index, 8), rval)
    case SetField(x, fields, access, rval) =>
      x in frame.vars && frame.vars[x].NumberedOffset?
      && Overwritten(order, frame,
                     FieldAddress(order, frame.vars, frame.used, fields, access, frame.vars[x].offset, frame.vars[x].base), rval)
    case _ => false
  }

  /** The value is in the very register that held the address. */
  predicate Overwritten(order: Order, frame: Frame, target: Result<Built>, rval: Expr) {
    && target.Ok?
    && var built := BuildValue(order, frame.vars, target.value.used, rval, Yes);
       built.Ok? && built.value.loc == target.value.loc
  }

  // ---------- all statements ----------

  /** The length of code, the labels that it defines, in their order, the scope behind it, and what is left of
      the decisions about moves. */
  datatype Plan = Plan(length: nat, labels: seq<Label>, scope: Scope, omits: seq<bool>)

  predicate First(omits: seq<bool>) {
    omits != [] && omits[0]
  }

  function Rest(omits: seq<bool>): seq<bool> {
    if omits == [] then [] else omits[1..]
  }

  /** The plan of a statement whose code starts when the buffer has length `at`. */
  function StmtPlan(s: Stmt, at: nat, scope: Scope, omits: seq<bool>): Plan
    decreases s, 0
  {
    match s
    case If(cond, blk, els) =>
      var elseAt := at + ExprLength(cond, scope.vars) + 1;
      var thn := BlockPlan(blk, elseAt + 1, scope, omits);
      var mergeAt := elseAt + 1 + thn.length;
      var otherwise := BlockPlan(els, mergeAt + 2, thn.scope, thn.omits);
      Plan(mergeAt + 2 + otherwise.length + 1 - at, thn.labels + [JmpIf(elseAt)] + otherwise.labels + [MergeIf(mergeAt)],
           otherwise.scope, otherwise.omits)
    case While(cond, blk) =>
      var body := BlockPlan(blk, at + 2, scope, omits);
      var test := if IsConstTrue(cond) then 1 else ExprLength(cond, body.scope.vars) + 2;
      Plan(2 + body.length + 1 + test, [JmpWhile(at + 1)] + body.labels + [UncondWhile(at)], body.scope, body.omits)
    case Match(x, _, arms) =>
      var tag := if x in scope.vars then scope.vars[x] else ZERO;
      var blocks := ArmsPlan(arms, at, tag, scope, omits);
      blocks.(length := blocks.length + 1, labels := blocks.labels + [MatchMerge(at)])
    case _ =>
      if Unsettled(s) then Plan(SimpleLength(s, scope, First(omits)), [], ScopeAfter(s, scope), Rest(omits))
      else Plan(SimpleLength(s, scope, false), [], ScopeAfter(s, scope), omits)
  }

  function BlockPlan(stmts: seq<Stmt>, at: nat, scope: Scope, omits: seq<bool>): Plan
    decreases stmts, 1
  {
    if stmts == [] then Plan(0, [], scope, omits)
    else
      var first := StmtPlan(stmts[0], at, scope, omits);
      var rest := BlockPlan(stmts[1..], at + first.length, first.scope, first.omits);
      rest.(length := first.length + rest.length, labels := first.labels + rest.labels)
  }

  /** The names of a pattern in scope. */
  function BindScope(scope: Scope, binds: seq<Ident>, tag: Location): Scope {
    if !tag.NumberedOffset? then scope
    else
      match Bind(scope.vars, binds, tag.offset, tag.base)
      case Ok(vars) => scope.(vars := vars)
      case Panic(_) => scope
  }

  /** The blocks of arms, each numbered from the start of a buffer of its own, and their comparisons. */
  function ArmsPlan(arms: seq<Arm>, at: nat, tag: Location, scope: Scope, omits: seq<bool>): Plan
    decreases arms, 1
  {
    if arms == [] then Plan(0, [], scope, omits)
    else
      assert arms decreases to arms[0];
      var body := BlockPlan(arms[0].body, 1, BindScope(scope, arms[0].binds, tag), omits);
      var rest := ArmsPlan(arms[1..], at + 2, tag, body.scope, body.omits);
      rest.(length := 2 + 1 + body.length + 1 + rest.length,
            labels := [MatchArm(at, arms[0].variant)] + body.labels + rest.labels)
  }
}
