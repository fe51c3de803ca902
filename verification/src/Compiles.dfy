/** When code generation succeeds, for every kind of statement: names have to be known, fields and payloads have to
    lie in their slots, and the registers have to suffice. All of it is read off the source; no instruction is
    looked at. */
module Compiles {
  import opened Lir
  import opened Machine
  import opened AsmSpec
  import opened ExprProof
  import opened UsedRegs
  import opened Writes
  import opened RegisterBudget
  import CodePlan
  import PlanProof
  import WideLiterals
  import LabelMarks
  import ProgramMarks
  import Layout

  type Scope = CodePlan.Scope

  /** Outside what is said here, or no success, or success with this many registers in use and these names known. */
  datatype Use = Outside | Fails | Uses(left: nat, scope: Scope)

  // ---------- expressions ----------

  predicate InScope(e: Expr, vars: map<Ident, Location>) {
    match e
    case Var(x, _) => x in vars
    case Unary(_, inner, _) => InScope(inner, vars)
    case Binary(_, l, r, _) => InScope(l, vars) && InScope(r, vars)
    case Parens(inner) => InScope(inner, vars)
    case Value(_) => true
  }

  /** A function is named like a variable. */
  predicate NamesFunction(e: Expr, vars: map<Ident, Location>) {
    match e
    case Var(x, _) => x in vars && !vars[x].NumberedOffset?
    case Unary(_, inner, _) => NamesFunction(inner, vars)
    case Binary(_, l, r, _) => NamesFunction(l, vars) || NamesFunction(r, vars)
    case Parens(inner) => NamesFunction(inner, vars)
    case Value(_) => false
  }

  function ExprUse(e: Expr, scope: Scope, canClear: CanClearRegs, n: nat): Use {
    if !Compilable(e) || NamesFunction(e, scope.vars) then Outside
    else if InScope(e, scope.vars) && ExprNeed(e, canClear, n).peak <= REGS then Uses(ExprNeed(e, canClear, n).left, scope)
    else Fails
  }

  lemma {:induction false} InScopeIsBound(e: Expr, vars: map<Ident, Location>)
    requires !NamesFunction(e, vars)
    ensures InScope(e, vars) <==> Bound(e, vars)
  {
    match e
    case Unary(_, inner, _) => InScopeIsBound(inner, vars);
    case Binary(_, l, r, _) =>
      InScopeIsBound(l, vars);
      InScopeIsBound(r, vars);
    case Parens(inner) => InScopeIsBound(inner, vars);
    case _ =>
  }

  lemma {:induction false} UnknownPanics(order: Order, vars: map<Ident, Location>, used: set<Register>, e: Expr, canClear: CanClearRegs)
    requires !InScope(e, vars)
    ensures BuildValue(order, vars, used, e, canClear).Panic?
    decreases e
  {
    hide Combine, Negate;
    match e
    case Var(_, _) =>
    case Unary(_, inner, _) => UnknownPanics(order, vars, used, inner, canClear);
    case Binary(_, l, r, _) =>
      if !InScope(l, vars) {
        UnknownPanics(order, vars, used, l, No);
      } else {
        var left := BuildValue(order, vars, used, l, No);
        if left.Ok? {
          UnknownPanics(order, vars, left.value.used, r, No);
        }
      }
    case Parens(inner) => UnknownPanics(order, vars, used, inner, canClear);
  }

  /** The value is built exactly when that is said, for every order of the registers. */
  lemma ExprUsed(order: Order, used: set<Register>, e: Expr, scope: Scope, canClear: CanClearRegs, n: nat)
    requires Complete(order) && Count(used, n) && !ExprUse(e, scope, canClear, n).Outside?
    ensures var built, use := BuildValue(order, scope.vars, used, e, canClear), ExprUse(e, scope, canClear, n);
            && (built.Ok? <==> use.Uses?)
            && (built.Ok? ==> Count(built.value.used, use.left) && HasKind(built.value.loc, KindOf(e), built.value.used))
  {
    hide BuildValue, ExprNeed, Complete, Count;
    InScopeIsBound(e, scope.vars);
    if InScope(e, scope.vars) {
      ExprCompilesExactly(order, scope.vars, used, e, canClear, n);
    } else {
      UnknownPanics(order, scope.vars, used, e, canClear);
    }
  }

  /** A value in a slot is a variable, so the slot is known before its code is. */
  lemma {:induction false} SlotIsFixed(order: Order, vars: map<Ident, Location>, used: set<Register>, e: Expr, canClear: CanClearRegs,
                                       place: Location)
    requires BuildValue(order, vars, used, e, canClear).Ok? && place.NumberedOffset?
    ensures BuildValue(order, vars, used, e, canClear).value.loc == place <==> CodePlan.Fixed(e, vars) == Some(place)
    decreases e
  {
    hide Combine, Negate;
    match e
    case Parens(inner) => SlotIsFixed(order, vars, used, inner, canClear, place);
    case Unary(op, inner, t) =>
      var operand := BuildValue(order, vars, used, inner, canClear).value;
      WideLiterals.NegateInReg(order, operand.used, operand.loc, op, t);
    case Binary(op, l, r, _) =>
      var left := BuildValue(order, vars, used, l, No).value;
      var right := BuildValue(order, vars, left.used, r, No).value;
      WideLiterals.CombineInReg(order, right.used, left.loc, right.loc, op, canClear);
    case _ =>
  }

  // ---------- values that are stored in the frame ----------

  /** A value for a place in the frame: nothing is moved when it is there already, one more register is taken when
      it is in another slot, and all are given back otherwise. */
  function PlaceUse(e: Expr, place: Location, scope: Scope, n: nat): Use {
    match ExprUse(e, scope, Yes, n)
    case Uses(k, _) =>
      if CodePlan.Fixed(e, scope.vars) == Some(place) then Uses(k, scope)
      else if KindOf(e).InSlot? && k + 1 > REGS then Fails
      else Uses(0, scope)
    case other => other
  }

  /** The code and what was said about it. */
  ghost predicate Agrees(r: Result<Emitted>, use: Use) {
    use.Outside? ||
    (&& (r.Ok? <==> use.Uses?)
     && (r.Ok? ==> Count(r.value.frame.used, use.left) && CodePlan.ScopeOf(r.value.frame) == use.scope))
  }

  /** A value is built and stored at a place in the frame. */
  function PlaceCode(order: Order, frame: Frame, used: set<Register>, e: Expr, place: Location): Result<Emitted> {
    var built :- BuildValue(order, frame.vars, used, e, Yes);
    StoreTo(order, frame.(used := built.used), place, built.loc)
  }

  lemma PlaceUsed(order: Order, frame: Frame, used: set<Register>, e: Expr, place: Location, n: nat)
    requires Complete(order) && Count(used, n) && place.NumberedOffset?
    ensures Agrees(PlaceCode(order, frame, used, e, place), PlaceUse(e, place, CodePlan.ScopeOf(frame), n))
  {
    hide BuildValue, Complete, Count, ExprUse, StoreTo, KindOf;
    var scope := CodePlan.ScopeOf(frame);
    var use := ExprUse(e, scope, Yes, n);
    if !use.Outside? {
      ExprUsed(order, used, e, scope, Yes, n);
      var built := BuildValue(order, frame.vars, used, e, Yes);
      if built.Ok? {
        SlotIsFixed(order, frame.vars, used, e, Yes, place);
        var next := frame.(used := built.value.used);
        StoreExactly(order, next, place, built.value.loc, KindOf(e), use.left);
        CountBounded(built.value.used, use.left);
        StoreScope(order, next, place, built.value.loc);
      }
    }
  }

  lemma StoreScope(order: Order, frame: Frame, place: Location, from: Location)
    ensures StoreTo(order, frame, place, from).Ok? ==>
              CodePlan.ScopeOf(StoreTo(order, frame, place, from).value.frame) == CodePlan.ScopeOf(frame)
  {
    hide FreeReg;
  }

  // ---------- simple statements ----------

  function AssignUse(x: Ident, e: Expr, isLet: bool, scope: Scope, n: nat): Use {
    var inner := if isLet then CodePlan.Declared(scope, x, SCALAR_SIZE) else scope;
    if x !in inner.vars then Fails
    else if !inner.vars[x].NumberedOffset? then Outside
    else PlaceUse(e, inner.vars[x], inner, n)
  }

  lemma AssignUsed(order: Order, frame: Frame, x: Ident, e: Expr, isLet: bool, n: nat)
    requires Complete(order) && Count(frame.used, n)
    ensures Agrees(AssignCode(order, frame, x, e, isLet), AssignUse(x, e, isLet, CodePlan.ScopeOf(frame), n))
  {
    hide BuildValue, Complete, Count, PlaceUse, StoreTo;
    var alloc := if isLet then AllocStack(frame, x) else Emitted([], frame);
    if x in alloc.frame.vars && alloc.frame.vars[x].NumberedOffset? {
      PlaceUsed(order, alloc.frame, alloc.frame.used, e, alloc.frame.vars[x], n);
    }
  }

  function LeavesUse(leaves: seq<Expr>, scope: Scope, n: nat, offset: nat): Use {
    if leaves == [] then Uses(n, scope)
    else
      match ExprUse(leaves[0], scope, Yes, n)
      case Uses(k, _) =>
        if offset < 8 || (KindOf(leaves[0]).InSlot? && k + 1 > REGS) then Fails
        else LeavesUse(leaves[1..], scope, k, offset - 8)
      case other => other
  }

  lemma LeafUsed(order: Order, used: set<Register>, value: Location, kind: Kind, offset: nat, k: nat)
    requires Complete(order) && Count(used, k) && HasKind(value, kind, used)
    ensures StoreLeaf(order, used, value, offset).Ok? <==> !(kind.InSlot? && k + 1 > REGS)
  {
    TakeExactly(order, used, k);
  }

  lemma {:induction false} LeavesUsed(order: Order, frame: Frame, leaves: seq<Expr>, offset: nat, n: nat)
    requires Complete(order) && Count(frame.used, n)
    ensures Agrees(StoreLeaves(order, frame, leaves, offset), LeavesUse(leaves, CodePlan.ScopeOf(frame), n, offset))
    decreases |leaves|
  {
    hide BuildValue, Complete, Count, ExprUse, StoreLeaf, KindOf;
    var scope := CodePlan.ScopeOf(frame);
    if leaves != [] && !ExprUse(leaves[0], scope, Yes, n).Outside? {
      ExprUsed(order, frame.used, leaves[0], scope, Yes, n);
      var built := BuildValue(order, frame.vars, frame.used, leaves[0], Yes);
      if built.Ok? {
        var k := ExprUse(leaves[0], scope, Yes, n).left;
        LeafUsed(order, built.value.used, built.value.loc, KindOf(leaves[0]), offset, k);
        if offset >= 8 {
          LeavesUsed(order, frame.(used := built.value.used), leaves[1..], offset - 8, k);
        }
      }
    }
  }

  function ItemsUse(items: seq<PayloadItem>, scope: Scope, n: nat, offset: nat): Use {
    if items == [] then Uses(n, scope)
    else
      var own := match items[0]
                 case Single(e) => ExprUse(e, scope, Yes, n)
                 case Copied(x, _) => if x in scope.vars then Uses(n, scope) else Fails;
      match own
      case Uses(k, _) =>
        if offset < ItemSize(items[0]) then Fails else ItemsUse(items[1..], scope, k, offset - ItemSize(items[0]))
      case other => other
  }

  lemma {:induction false} ItemsUsed(order: Order, frame: Frame, items: seq<PayloadItem>, offset: nat, n: nat)
    requires Complete(order) && Count(frame.used, n)
    ensures Agrees(StorePayload(order, frame, items, offset), ItemsUse(items, CodePlan.ScopeOf(frame), n, offset))
    decreases |items|
  {
    hide BuildValue, Complete, Count, ExprUse, ItemSize;
    var scope := CodePlan.ScopeOf(frame);
    if items != [] {
      if items[0].Single? && !ExprUse(items[0].value, scope, Yes, n).Outside? {
        ExprUsed(order, frame.used, items[0].value, scope, Yes, n);
      }
      var built := BuildItem(order, frame, items[0]);
      if built.Ok? && offset >= ItemSize(items[0]) && !(items[0].Single? && ExprUse(items[0].value, scope, Yes, n).Outside?) {
        var k := if items[0].Single? then ExprUse(items[0].value, scope, Yes, n).left else n;
        ItemsUsed(order, frame.(used := built.value.used), items[1..], offset - ItemSize(items[0]), k);
      }
    }
  }

  // ---------- what initialisers need ----------

  /** The most registers in use at a time while the leaves of an initialiser are built and stored, and the number in
      use afterwards. */
  function LeavesNeed(leaves: seq<Expr>, n: nat): Need {
    if leaves == [] then Need(n, n)
    else
      var value := ExprNeed(leaves[0], Yes, n);
      var rest := LeavesNeed(leaves[1..], value.left);
      Need(Layout.Max(Layout.Max(value.peak, if KindOf(leaves[0]).InSlot? then value.left + 1 else 0), rest.peak), rest.left)
  }

  ghost predicate AllCovered(es: seq<Expr>, vars: map<Ident, Location>) {
    forall e :: e in es ==> Compilable(e) && Bound(e, vars)
  }

  lemma {:induction false} BoundNamesNoFunction(e: Expr, vars: map<Ident, Location>)
    requires Bound(e, vars)
    ensures !NamesFunction(e, vars) && InScope(e, vars)
  {
    match e
    case Unary(_, inner, _) => BoundNamesNoFunction(inner, vars);
    case Binary(_, l, r, _) =>
      BoundNamesNoFunction(l, vars);
      BoundNamesNoFunction(r, vars);
    case Parens(inner) => BoundNamesNoFunction(inner, vars);
    case _ =>
  }

  /** When the leaves fit into the slot, only registers decide. */
  lemma {:induction false} LeavesFit(leaves: seq<Expr>, scope: Scope, n: nat, offset: nat)
    requires AllCovered(leaves, scope.vars) && 8 * |leaves| <= offset && n <= REGS
    ensures var need := LeavesNeed(leaves, n);
            LeavesUse(leaves, scope, n, offset) == if need.peak <= REGS then Uses(need.left, scope) else Fails
    decreases |leaves|
  {
    hide Compilable, Bound;
    if leaves != [] {
      assert leaves[0] in leaves;
      BoundNamesNoFunction(leaves[0], scope.vars);
      var value := ExprNeed(leaves[0], Yes, n);
      if value.peak <= REGS {
        LeftWithinPeak(leaves[0], Yes, n);
        LeavesFit(leaves[1..], scope, value.left, offset - 8);
      }
    }
  }

  lemma {:induction false} LeftWithinPeak(e: Expr, canClear: CanClearRegs, n: nat)
    ensures ExprNeed(e, canClear, n).left <= ExprNeed(e, canClear, n).peak || ExprNeed(e, canClear, n).left <= 1
  {
    match e
    case Unary(_, inner, _) => LeftWithinPeak(inner, canClear, n);
    case Binary(_, l, r, _) =>
    case Parens(inner) => LeftWithinPeak(inner, canClear, n);
    case _ =>
  }

  function ItemsNeed(items: seq<PayloadItem>, n: nat): Need {
    if items == [] then Need(n, n)
    else
      var value := match items[0] case Single(e) => ExprNeed(e, Yes, n) case Copied(_, _) => Need(n, n);
      var rest := ItemsNeed(items[1..], value.left);
      Need(Layout.Max(value.peak, rest.peak), rest.left)
  }

  function ItemsSize(items: seq<PayloadItem>): nat {
    if items == [] then 0 else ItemSize(items[0]) + ItemsSize(items[1..])
  }

  ghost predicate ItemsCovered(items: seq<PayloadItem>, vars: map<Ident, Location>) {
    forall item :: item in items ==>
      match item case Single(e) => Compilable(e) && Bound(e, vars) case Copied(x, _) => x in vars
  }

  lemma {:induction false} ItemsFit(items: seq<PayloadItem>, scope: Scope, n: nat, offset: nat)
    requires ItemsCovered(items, scope.vars) && ItemsSize(items) <= offset && n <= REGS
    ensures var need := ItemsNeed(items, n);
            ItemsUse(items, scope, n, offset) == if need.peak <= REGS then Uses(need.left, scope) else Fails
    decreases |items|
  {
    hide Compilable, Bound, ItemSize;
    if items != [] {
      assert items[0] in items && forall item :: item in items[1..] ==> item in items;
      match items[0]
      case Single(e) =>
        BoundNamesNoFunction(e, scope.vars);
        if ExprNeed(e, Yes, n).peak <= REGS {
          LeftWithinPeak(e, Yes, n);
          ItemsFit(items[1..], scope, ExprNeed(e, Yes, n).left, offset - ItemSize(items[0]));
        }
      case Copied(_, _) => ItemsFit(items[1..], scope, n, offset - ItemSize(items[0]));
    }
  }

  // ---------- addresses ----------

  /** An index, and two registers more. */
  function IndexUse(index: Expr, scope: Scope, n: nat): Use {
    var use := if index.Value? && index.val.IntVal? then Uses(n, scope) else ExprUse(index, scope, No, n);
    match use
    case Uses(k, _) => if k + 2 <= REGS then Uses(k + 2, scope) else Fails
    case other => other
  }

  /** The registers in use at the end of an index; the two that its address takes are the peak. */
  function IndexPeak(index: Expr, n: nat): nat {
    var need := ExprNeed(index, No, n);
    Layout.Max(need.peak, need.left + 2)
  }

  lemma IndexFits(index: Expr, scope: Scope, n: nat)
    requires Compilable(index) && Bound(index, scope.vars)
    ensures !IndexUse(index, scope, n).Outside?
    ensures IndexUse(index, scope, n).Uses? <==> IndexPeak(index, n) <= REGS
  {
    hide Compilable, Bound;
    BoundNamesNoFunction(index, scope.vars);
  }

  /** An address and what was said about it. */
  ghost predicate Addressed(r: Result<Built>, use: Use) {
    use.Outside? || ((r.Ok? <==> use.Uses?) && (r.Ok? ==> Count(r.value.used, use.left)))
  }

  lemma TwoMore(order: Order, used: set<Register>, k: nat)
    requires Complete(order) && Count(used, k)
    ensures var two := FreeReg(order, used).Ok? && FreeReg(order, used + {FreeReg(order, used).value}).Ok?;
            && (two <==> k + 2 <= REGS)
            && (two ==>
                  var tmp := FreeReg(order, used).value;
                  var reg := FreeReg(order, used + {tmp}).value;
                  Count(used + {tmp, reg}, k + 2) && reg in USABLE_REGS)
  {
    hide FreeReg, Complete;
    TakeExactly(order, used, k);
    if FreeReg(order, used).Ok? {
      var tmp := FreeReg(order, used).value;
      TakeExactly(order, used + {tmp}, k + 1);
      if FreeReg(order, used + {tmp}).Ok? {
        assert used + {tmp} + {FreeReg(order, used + {tmp}).value} == used + {tmp, FreeReg(order, used + {tmp}).value};
      }
    }
  }

  lemma IndexUsed(order: Order, vars: map<Ident, Location>, used: set<Register>, arr: Location, index: Expr, eleSize: nat,
                  scope: Scope, n: nat)
    requires Complete(order) && Count(used, n) && scope.vars == vars
    ensures Addressed(IndexArr(order, vars, used, arr, index, eleSize), IndexUse(index, scope, n))
    ensures var r := IndexArr(order, vars, used, arr, index, eleSize);
            r.Ok? && IndexUse(index, scope, n).Uses? ==> r.value.loc.RegLoc? && r.value.loc.reg in r.value.used
  {
    hide BuildValue, Complete, Count, ExprUse, FreeReg;
    if index.Value? && index.val.IntVal? {
      TwoMore(order, used, n);
    } else if !ExprUse(index, scope, No, n).Outside? {
      ExprUsed(order, used, index, scope, No, n);
      var built := BuildValue(order, vars, used, index, No);
      if built.Ok? {
        TwoMore(order, built.value.used, ExprUse(index, scope, No, n).left);
      }
    }
  }

  /** How far a field is from the end of its struct's slot; nothing if some name on the way to it is unknown. */
  function Distance(fields: seq<Field>, access: Access): Option<nat>
    decreases access
  {
    var found :- Layout.Find(fields, access.name);
    match access
    case Inner(_, rest, inner) =>
      var more :- Distance(inner, rest);
      Some(found.before + more)
    case _ => Some(found.before)
  }

  function IndexOf(access: Access): Expr
    requires access.EndsInElement()
    decreases access
  {
    if access.Element? then access.index else IndexOf(access.rest)
  }

  /** The address of a field: every name on the way is known, it lies inside the slot, and an index has the registers
      that it takes. */
  function FieldUse(fields: seq<Field>, access: Access, offset: nat, scope: Scope, n: nat): Use {
    match Distance(fields, access)
    case None => Fails
    case Some(d) =>
      if d > offset then Fails
      else if access.EndsInElement() then IndexUse(IndexOf(access), scope, n)
      else Uses(n, scope)
  }

  /** The address of a field compiles exactly when its names are known, it lies inside the slot and its index, if it
      has one, compiles with two more registers; and then it is in a register, or as far from the slot's end as the
      layout says. */
  lemma {:induction false} FieldAddressExactly(
      order: Order, vars: map<Ident, Location>, used: set<Register>, fields: seq<Field>, access: Access, offset: nat,
      base: Register, scope: Scope, n: nat)
    requires Complete(order) && Count(used, n) && scope.vars == vars
    ensures var r, use := FieldAddress(order, vars, used, fields, access, offset, base), FieldUse(fields, access, offset, scope, n);
            && Addressed(r, use)
            && (r.Ok? && use.Uses? ==>
                  if access.EndsInElement() then r.value.loc.RegLoc? && r.value.loc.reg in r.value.used
                  else r.value.loc == NumberedOffset(offset - Distance(fields, access).value, base))
    decreases access
  {
    hide IndexArr, IndexUse, Complete, Count;
    CountBounded(used, n);
    var found := Layout.Find(fields, access.name);
    if found.Some? && offset >= found.value.before {
      var start := offset - found.value.before;
      match access
      case Whole(_) =>
      case Element(_, index) =>
        var shape := found.value.shape;
        IndexUsed(order, vars, used, NumberedOffset(start, base), index,
                  Layout.Size(if shape.Array? then shape.elem else shape), scope, n);
      case Inner(_, rest, inner) => FieldAddressExactly(order, vars, used, inner, rest, start, base, scope, n);
    }
  }

  // ---------- assignments through addresses ----------

  /** A value for an element, whose address waits in a register that the value's code does not overwrite. That
      register stays in use, and one more for a value in a slot. */
  function ElementUse(e: Expr, scope: Scope, k: nat): Use {
    if Clobbers(e) then Outside
    else
      match ExprUse(e, scope, Yes, k)
      case Uses(_, _) => Uses(if KindOf(e).InSlot? then 2 else 1, scope)
      case other => other
  }

  lemma ElementStored(order: Order, frame: Frame, address: Register, rloc: Location, kind: Kind)
    requires Complete(order) && address in USABLE_REGS && HasKind(rloc, kind, frame.used) && rloc != RegLoc(address)
    ensures var r := StoreElement(order, frame, address, rloc);
            && r.Ok? && Count(r.value.frame.used, if kind.InSlot? then 2 else 1)
            && CodePlan.ScopeOf(r.value.frame) == CodePlan.ScopeOf(frame)
  {
    hide FreeReg, Complete;
    CountOne(address, {address});
    TakeExactly(order, {address}, 1);
  }

  lemma ElementUsed(order: Order, frame: Frame, target: Built, e: Expr, k: nat)
    requires Complete(order) && Located(frame.vars) && Count(target.used, k)
    requires target.loc.RegLoc? && target.loc.reg in target.used
    ensures Agrees(StoreThrough(order, frame, target, e), ElementUse(e, CodePlan.ScopeOf(frame), k))
  {
    hide BuildValue, Complete, ExprUse, StoreElement, Clobbers, Located, KindOf, HasKind;
    var scope := CodePlan.ScopeOf(frame);
    if !Clobbers(e) && !ExprUse(e, scope, Yes, k).Outside? {
      ExprUsed(order, target.used, e, scope, Yes, k);
      var built := BuildValue(order, frame.vars, target.used, e, Yes);
      if built.Ok? {
        PlanProof.NotOverwritten(order, frame.vars, target.used, e, target.loc.reg);
        ElementStored(order, frame.(used := built.value.used), target.loc.reg, built.value.loc, KindOf(e));
      }
    }
  }

  function SetItemUse(x: Ident, index: Expr, e: Expr, scope: Scope, n: nat): Use {
    if x !in scope.vars || !scope.vars[x].NumberedOffset? then Fails
    else
      match IndexUse(index, scope, n)
      case Uses(k, _) => ElementUse(e, scope, k)
      case other => other
  }

  lemma SetItemUsed(order: Order, frame: Frame, x: Ident, index: Expr, e: Expr, n: nat)
    requires Complete(order) && Located(frame.vars) && Count(frame.used, n)
    ensures Agrees(SetItemCode(order, frame, x, index, e), SetItemUse(x, index, e, CodePlan.ScopeOf(frame), n))
  {
    hide IndexArr, StoreThrough, Complete, Count, IndexUse, ElementUse, Located;
    var scope := CodePlan.ScopeOf(frame);
    if x in frame.vars && frame.vars[x].NumberedOffset? {
      IndexUsed(order, frame.vars, frame.used, frame.vars[x], index, 8, scope, n);
      var target := IndexArr(order, frame.vars, frame.used, frame.vars[x], index, 8);
      if target.Ok? && IndexUse(index, scope, n).Uses? {
        ElementUsed(order, frame, target.value, e, IndexUse(index, scope, n).left);
      }
    }
  }

  function SetFieldUse(x: Ident, fields: seq<Field>, access: Access, e: Expr, scope: Scope, n: nat): Use {
    if x !in scope.vars || !scope.vars[x].NumberedOffset? then Fails
    else
      var slot := scope.vars[x];
      match FieldUse(fields, access, slot.offset, scope, n)
      case Uses(k, _) =>
        if access.EndsInElement() then ElementUse(e, scope, k)
        else PlaceUse(e, NumberedOffset(slot.offset - Distance(fields, access).value, slot.base), scope, k)
      case other => other
  }

  lemma ThroughPlace(order: Order, frame: Frame, target: Built, e: Expr)
    requires target.loc.NumberedOffset?
    ensures var r, place := StoreThrough(order, frame, target, e), PlaceCode(order, frame, target.used, e, target.loc);
            (r.Ok? <==> place.Ok?) && (r.Ok? ==> r.value.frame == place.value.frame)
  {
    hide BuildValue, StoreTo;
  }

  lemma SetFieldUsed(order: Order, frame: Frame, x: Ident, fields: seq<Field>, access: Access, e: Expr, n: nat)
    requires Complete(order) && Located(frame.vars) && Count(frame.used, n)
    ensures Agrees(SetFieldCode(order, frame, x, fields, access, e), SetFieldUse(x, fields, access, e, CodePlan.ScopeOf(frame), n))
  {
    hide FieldAddress, StoreThrough, Complete, Count, IndexUse, ElementUse, PlaceUse, PlaceCode, Located;
    var scope := CodePlan.ScopeOf(frame);
    if x in frame.vars && frame.vars[x].NumberedOffset? {
      var slot := frame.vars[x];
      FieldAddressExactly(order, frame.vars, frame.used, fields, access, slot.offset, slot.base, scope, n);
      var target := FieldAddress(order, frame.vars, frame.used, fields, access, slot.offset, slot.base);
      var use := FieldUse(fields, access, slot.offset, scope, n);
      if target.Ok? && use.Uses? {
        if access.EndsInElement() {
          ElementUsed(order, frame, target.value, e, use.left);
        } else {
          ThroughPlace(order, frame, target.value, e);
          PlaceUsed(order, frame, target.value.used, e, target.value.loc, use.left);
        }
      }
    }
  }

  // ---------- all statements ----------

  function SimpleUse(s: Stmt, scope: Scope, n: nat): Use
    requires !s.If? && !s.While? && !s.Match?
  {
    match s
    case Assign(x, _, e, isLet) => AssignUse(x, e, isLet, scope, n)
    case Ret(e) => ExprUse(e, scope, Yes, n)
    case Exit => Uses(n, scope)
    case Declare(_, _) => Uses(n, CodePlan.ScopeAfter(s, scope))
    case LetStruct(_, _, inits) =>
      var inner := CodePlan.ScopeAfter(s, scope);
      LeavesUse(Layout.Flatten(inits), inner, n, inner.depth)
    case LetEnum(_, variants, variant, items) =>
      var inner := CodePlan.ScopeAfter(s, scope);
      if exists v :: v in variants && v.name == variant then ItemsUse(items, inner, n, inner.depth) else Fails
    case SetItem(x, index, e) => SetItemUse(x, index, e, scope, n)
    case SetField(x, fields, access, e) => SetFieldUse(x, fields, access, e, scope, n)
  }

  /** The tag is the number of the first variant of that name; there is none if there is no such variant. */
  lemma {:induction false} TagExactly(variants: seq<Variant>, name: Ident)
    ensures TagOf(variants, name).Some? <==> exists v :: v in variants && v.name == name
    ensures TagOf(variants, name).Some? ==>
              var t := TagOf(variants, name).value;
              t < |variants| && variants[t].name == name && forall j :: 0 <= j < t ==> variants[j].name != name
  {
    if variants != [] && variants[0].name != name {
      TagExactly(variants[1..], name);
      assert variants == [variants[0]] + variants[1..];
      assert forall j :: 0 <= j < |variants| - 1 ==> variants[1..][j] == variants[j + 1];
    }
  }

  lemma SimpleUsed(order: Order, frame: Frame, at: nat, s: Stmt, n: nat)
    requires !s.If? && !s.While? && !s.Match?
    requires Complete(order) && Located(frame.vars) && Count(frame.used, n)
    ensures Agrees(StmtCode(order, frame, at, s), SimpleUse(s, CodePlan.ScopeOf(frame), n))
  {
    hide BuildValue, Complete, Count, ExprUse, AssignCode, AssignUse, StoreLeaves, LeavesUse, StorePayload, ItemsUse, SetItemCode,
         SetItemUse, SetFieldCode, SetFieldUse, Located, TagOf;
    var scope := CodePlan.ScopeOf(frame);
    match s
    case Assign(x, _, e, isLet) => AssignUsed(order, frame, x, e, isLet, n);
    case Ret(e) =>
      if !ExprUse(e, scope, Yes, n).Outside? {
        ExprUsed(order, frame.used, e, scope, Yes, n);
        UseScope(e, scope, Yes, n);
      }
    case LetStruct(x, fields, inits) =>
      var alloc := AllocSlot(frame, x, Struct(fields));
      LeavesUsed(order, alloc.frame, Layout.Flatten(inits), alloc.frame.currentStack, n);
    case LetEnum(x, variants, variant, items) =>
      var alloc := AllocSlot(frame, x, Enum(variants));
      TagExactly(variants, variant);
      ItemsUsed(order, alloc.frame, items, alloc.frame.currentStack, n);
    case SetItem(x, index, e) => SetItemUsed(order, frame, x, index, e, n);
    case SetField(x, fields, access, e) => SetFieldUsed(order, frame, x, fields, access, e, n);
    case _ =>
  }

  lemma UseScope(e: Expr, scope: Scope, canClear: CanClearRegs, n: nat)
    ensures ExprUse(e, scope, canClear, n).Uses? ==> ExprUse(e, scope, canClear, n).scope == scope
  {
  }

  /** What a statement takes, or that it does not compile. Registers that a condition takes stay in use. */
  function StmtUse(s: Stmt, scope: Scope, n: nat): Use
    decreases s, 0
  {
    match s
    case If(cond, blk, els) =>
      (match ExprUse(cond, scope, Yes, n)
       case Uses(k, _) =>
         (match BlockUse(blk, scope, k)
          case Uses(m, inner) => BlockUse(els, inner, m)
          case other => other)
       case other => other)
    case While(cond, blk) =>
      (match BlockUse(blk, scope, n)
       case Uses(k, inner) => if IsConstTrue(cond) then Uses(k, inner) else ExprUse(cond, inner, Yes, k)
       case other => other)
    case Match(x, variants, arms) =>
      if x !in scope.vars || !scope.vars[x].NumberedOffset? then Fails
      else ArmsUse(arms, variants, scope.vars[x], scope, n)
    case _ => SimpleUse(s, scope, n)
  }

  function BlockUse(stmts: seq<Stmt>, scope: Scope, n: nat): Use
    decreases stmts, 1
  {
    if stmts == [] then Uses(n, scope)
    else
      match StmtUse(stmts[0], scope, n)
      case Uses(k, inner) => BlockUse(stmts[1..], inner, k)
      case other => other
  }

  /** An arm's pattern is for a variant that there is, names no more items than the variant has, and lies in the slot
      of what is matched. */
  predicate PatternFits(arm: Arm, variants: seq<Variant>, tag: Location)
    requires tag.NumberedOffset?
  {
    && arm.variant < |variants| && |arm.binds| <= |variants[arm.variant].types|
    && 8 * |arm.binds| <= tag.offset
  }

  function ArmsUse(arms: seq<Arm>, variants: seq<Variant>, tag: Location, scope: Scope, n: nat): Use
    requires tag.NumberedOffset?
    decreases arms, 1
  {
    if arms == [] then Uses(n, scope)
    else if !PatternFits(arms[0], variants, tag) then Fails
    else
      assert arms decreases to arms[0];
      match BlockUse(arms[0].body, CodePlan.BindScope(scope, arms[0].binds, tag), n)
      case Uses(k, inner) => ArmsUse(arms[1..], variants, tag, inner, k)
      case other => other
  }

  /** A pattern's names are bound exactly when its items lie in the slot. */
  lemma {:induction false} BindExactly(vars: map<Ident, Location>, binds: seq<Ident>, offset: nat, base: Register)
    ensures Bind(vars, binds, offset, base).Ok? <==> 8 * |binds| <= offset
    ensures Bind(vars, binds, offset, base).Ok? && Located(vars) ==> Located(Bind(vars, binds, offset, base).value)
    decreases |binds|
  {
    if binds != [] {
      BindExactly(vars, binds[..|binds| - 1], offset, base);
    }
  }

  lemma StillLocated(order: Order, frame: Frame, at: nat, s: Stmt)
    requires Located(frame.vars) && StmtCode(order, frame, at, s).Ok?
    ensures Located(StmtCode(order, frame, at, s).value.frame.vars)
  {
    hide StmtCode;
    LabelMarks.StmtPlanned(order, frame, at, s, []);
  }

  lemma BlockStillLocated(order: Order, frame: Frame, at: nat, stmts: seq<Stmt>)
    requires Located(frame.vars) && BlockCode(order, frame, at, stmts).Ok?
    ensures Located(BlockCode(order, frame, at, stmts).value.frame.vars)
  {
    hide BlockCode;
    LabelMarks.BlockPlanned(order, frame, at, stmts, []);
  }

  /** Any statement, with any expressions that are covered, from any scope: it compiles exactly when that is said, for
      every order of the registers and any of them in use; and then as many are in use, and the same names known,
      as said. */
  lemma {:induction false} StmtUsed(order: Order, frame: Frame, at: nat, s: Stmt, n: nat)
    requires Complete(order) && Located(frame.vars) && Count(frame.used, n)
    ensures Agrees(StmtCode(order, frame, at, s), StmtUse(s, CodePlan.ScopeOf(frame), n))
    decreases s, 1
  {
    hide Complete, Count, Located, StmtCode, Agrees;
    match s
    case If(cond, blk, els) => IfUsed(order, frame, at, cond, blk, els, n);
    case While(cond, blk) => WhileUsed(order, frame, at, cond, blk, n);
    case Match(x, variants, arms) => MatchUsed(order, frame, at, x, variants, arms, n);
    case _ => SimpleUsed(order, frame, at, s, n);
  }

  lemma CondUsed(order: Order, frame: Frame, cond: Expr, n: nat)
    requires Complete(order) && Count(frame.used, n)
    ensures Agrees(CondCode(order, frame, cond), ExprUse(cond, CodePlan.ScopeOf(frame), Yes, n))
  {
    hide BuildValue, Complete, Count, ExprUse;
    var scope := CodePlan.ScopeOf(frame);
    if !ExprUse(cond, scope, Yes, n).Outside? {
      ExprUsed(order, frame.used, cond, scope, Yes, n);
      UseScope(cond, scope, Yes, n);
    }
  }

  lemma {:induction false} IfUsed(order: Order, frame: Frame, at: nat, cond: Expr, blk: seq<Stmt>, els: seq<Stmt>, n: nat)
    requires Complete(order) && Located(frame.vars) && Count(frame.used, n)
    ensures Agrees(StmtCode(order, frame, at, If(cond, blk, els)), StmtUse(If(cond, blk, els), CodePlan.ScopeOf(frame), n))
    decreases If(cond, blk, els), 0
  {
    hide Complete, Count, Located, BlockCode, BlockUse, CondCode, ExprUse;
    var scope := CodePlan.ScopeOf(frame);
    var use := ExprUse(cond, scope, Yes, n);
    UseScope(cond, scope, Yes, n);
    CondUsed(order, frame, cond, n);
    var test := CondCode(order, frame, cond);
    if use.Uses? {
      var elseAt := at + |test.value.code|;
      BlockUsed(order, test.value.frame, elseAt + 1, blk, use.left);
      var thn := BlockCode(order, test.value.frame, elseAt + 1, blk);
      var inner := BlockUse(blk, scope, use.left);
      if inner.Uses? {
        BlockStillLocated(order, test.value.frame, elseAt + 1, blk);
        BlockUsed(order, thn.value.frame, elseAt + 1 + |thn.value.code| + 2, els, inner.left);
      }
    }
  }

  lemma {:induction false} WhileUsed(order: Order, frame: Frame, at: nat, cond: Expr, blk: seq<Stmt>, n: nat)
    requires Complete(order) && Located(frame.vars) && Count(frame.used, n)
    ensures Agrees(StmtCode(order, frame, at, While(cond, blk)), StmtUse(While(cond, blk), CodePlan.ScopeOf(frame), n))
    decreases While(cond, blk), 0
  {
    hide Complete, Count, Located, BlockCode, BlockUse, CondCode, ExprUse;
    BlockUsed(order, frame, at + 2, blk, n);
    var body, use := BlockCode(order, frame, at + 2, blk), BlockUse(blk, CodePlan.ScopeOf(frame), n);
    if use.Uses? && !IsConstTrue(cond) {
      CondUsed(order, body.value.frame, cond, use.left);
    }
  }

  lemma {:induction false} MatchUsed(order: Order, frame: Frame, at: nat, x: Ident, variants: seq<Variant>, arms: seq<Arm>, n: nat)
    requires Complete(order) && Located(frame.vars) && Count(frame.used, n)
    ensures Agrees(StmtCode(order, frame, at, Match(x, variants, arms)),
                   StmtUse(Match(x, variants, arms), CodePlan.ScopeOf(frame), n))
    decreases arms, 4
  {
    hide Complete, Count, Located, ArmsCode, ArmsUse;
    if x in frame.vars && frame.vars[x].NumberedOffset? {
      ArmsUsed(order, frame, at, frame.vars[x], variants, arms, MatchMerge(at), n);
    }
  }

  /** The comparisons and blocks of arms, and what was said about them. */
  ghost predicate ArmsAgree(r: Result<Split>, use: Use) {
    use.Outside? ||
    (&& (r.Ok? <==> use.Uses?)
     && (r.Ok? ==> Count(r.value.frame.used, use.left) && CodePlan.ScopeOf(r.value.frame) == use.scope))
  }

  lemma {:induction false} ArmsUsed(order: Order, frame: Frame, at: nat, tag: Location, variants: seq<Variant>, arms: seq<Arm>,
                                    merge: Label, n: nat)
    requires Complete(order) && Located(frame.vars) && Count(frame.used, n) && tag.NumberedOffset?
    ensures ArmsAgree(ArmsCode(order, frame, at, tag, variants, arms, merge), ArmsUse(arms, variants, tag, CodePlan.ScopeOf(frame), n))
    decreases arms, 3
  {
    hide Complete, Count, Located, BlockCode, BlockUse, Bind;
    if arms != [] {
      assert arms decreases to arms[0];
      var arm := arms[0];
      BindExactly(frame.vars, arm.binds, tag.offset, tag.base);
      if PatternFits(arm, variants, tag) {
        var bound := frame.(vars := Bind(frame.vars, arm.binds, tag.offset, tag.base).value);
        BlockUsed(order, bound, 1, arm.body, n);
        var use := BlockUse(arm.body, CodePlan.BindScope(CodePlan.ScopeOf(frame), arm.binds, tag), n);
        if use.Uses? {
          BlockStillLocated(order, bound, 1, arm.body);
          var first := ArmCode(order, frame, at, tag, variants, arm, merge).value;
          ArmsUsed(order, first.frame, at + |first.chain|, tag, variants, arms[1..], merge, use.left);
        }
      }
    }
  }

  lemma {:induction false} BlockUsed(order: Order, frame: Frame, at: nat, stmts: seq<Stmt>, n: nat)
    requires Complete(order) && Located(frame.vars) && Count(frame.used, n)
    ensures Agrees(BlockCode(order, frame, at, stmts), BlockUse(stmts, CodePlan.ScopeOf(frame), n))
    decreases stmts, 2
  {
    hide Complete, Count, Located, StmtCode, StmtUse;
    if stmts != [] {
      StmtUsed(order, frame, at, stmts[0], n);
      var first, use := StmtCode(order, frame, at, stmts[0]), StmtUse(stmts[0], CodePlan.ScopeOf(frame), n);
      if use.Uses? {
        StillLocated(order, frame, at, stmts[0]);
        BlockUsed(order, first.value.frame, at + |first.value.code|, stmts[1..], use.left);
      }
    }
  }

  // ---------- functions and programs ----------

  function FuncUse(f: Func, scope: Scope): Use {
    var named := scope.(vars := scope.vars[f.ident := LabelLoc(FuncLabel(f.ident))]);
    if f.stmts == [] then Uses(0, named)
    else if |f.params| > |ARG_REGS| then Fails
    else
      match BlockUse(f.stmts, ProgramMarks.ParamScope(named, f.params, 0), 0)
      case Uses(_, inner) => Uses(0, CodePlan.Scope(inner.vars, 0))
      case other => other
  }

  function ProgramUse(funcs: seq<Func>, scope: Scope): Use {
    if funcs == [] then Uses(0, scope)
    else
      match FuncUse(funcs[0], scope)
      case Uses(_, next) => ProgramUse(funcs[1..], next)
      case other => other
  }

  /** Parameters compile exactly when there is a register for each. */
  lemma {:induction false} ParamsUsed(frame: Frame, params: seq<Param>, i: nat)
    requires i <= |params| && Located(frame.vars)
    ensures ParamsCode(frame, params, i).Ok? <==> i == |params| || |params| <= |ARG_REGS|
    ensures ParamsCode(frame, params, i).Ok? ==>
              var f := ParamsCode(frame, params, i).value.frame;
              && f.used == frame.used && Located(f.vars)
              && CodePlan.ScopeOf(f) == ProgramMarks.ParamScope(CodePlan.ScopeOf(frame), params, i)
    decreases |params| - i
  {
    if i < |params| && i < |ARG_REGS| {
      var top := frame.currentStack + SCALAR_SIZE;
      var next := frame.(currentStack := top, totalStack := frame.totalStack + SCALAR_SIZE,
                         vars := frame.vars[params[i].ident := NumberedOffset(top, RBP)]);
      ParamsUsed(next, params, i + 1);
    }
  }

  /** A function compiles exactly when it has no more parameters than there are argument registers and its body
      compiles. */
  lemma FuncUsed(order: Order, frame: Frame, at: nat, f: Func)
    requires Complete(order) && Located(frame.vars) && frame.used == {} && frame.currentStack == 0
    ensures Agrees(FuncCode(order, frame, at, f), FuncUse(f, CodePlan.ScopeOf(frame)))
    ensures FuncCode(order, frame, at, f).Ok? && !FuncUse(f, CodePlan.ScopeOf(frame)).Outside? ==>
              Located(FuncCode(order, frame, at, f).value.frame.vars)
  {
    hide Complete, BlockCode, BlockUse;
    NothingUsed();
    var named := frame.(vars := frame.vars[f.ident := LabelLoc(FuncLabel(f.ident))]);
    ParamsUsed(named, f.params, 0);
    var params := ParamsCode(named, f.params, 0);
    if f.stmts != [] && params.Ok? {
      var start := at + |Prologue(f.ident)| + |params.value.code|;
      BlockUsed(order, params.value.frame, start, f.stmts, 0);
      if BlockCode(order, params.value.frame, start, f.stmts).Ok? {
        BlockStillLocated(order, params.value.frame, start, f.stmts);
      }
    }
  }

  /** A program, whatever statements it holds, compiles for every order of the registers exactly when that is read
      off its source. */
  lemma {:induction false} ProgramUsed(order: Order, frame: Frame, at: nat, funcs: seq<Func>)
    requires Complete(order) && Located(frame.vars) && frame.used == {} && frame.currentStack == 0
    ensures Agrees(ProgramCode(order, frame, at, funcs), ProgramUse(funcs, CodePlan.ScopeOf(frame)))
    decreases |funcs|
  {
    hide Complete, FuncCode, FuncUse;
    NothingUsed();
    if funcs != [] {
      FuncUsed(order, frame, at, funcs[0]);
      var first, use := FuncCode(order, frame, at, funcs[0]), FuncUse(funcs[0], CodePlan.ScopeOf(frame));
      if use.Uses? {
        FreshAgain(order, frame, at, funcs[0]);
        ProgramUsed(order, first.value.frame, at + |first.value.code|, funcs[1..]);
      }
    }
  }

  lemma FreshAgain(order: Order, frame: Frame, at: nat, f: Func)
    requires FuncCode(order, frame, at, f).Ok? && frame.used == {} && frame.currentStack == 0
    ensures var next := FuncCode(order, frame, at, f).value.frame; next.used == {} && next.currentStack == 0
  {
    hide BlockCode;
  }
}
