/** Registers in use while an expression is evaluated. When the code of an expression may give registers back,
    a binary operation forgets which ones were in use before it, and a `!` on top of it can take one of them. */
module UsedRegs {
  import opened Words
  import opened Lir
  import opened Machine
  import opened AsmSpec
  import opened ExprProof
  import opened StmtProof

  predicate ReachesBinary(e: Expr) {
    match e
    case Binary(_, _, _, _) => true
    case Unary(_, inner, _) => ReachesBinary(inner)
    case Parens(inner) => ReachesBinary(inner)
    case _ => false
  }

  /** From the root a binary operation is reached through at least one unary operator, and parentheses. */
  predicate Clobbers(e: Expr) {
    match e
    case Unary(_, inner, _) => ReachesBinary(inner)
    case Parens(inner) => Clobbers(inner)
    case _ => false
  }

  // ---------- kept ----------

  lemma {:induction false} NothingToClear(order: Order, vars: map<Ident, Location>, used: set<Register>, e: Expr)
    requires !ReachesBinary(e)
    ensures BuildValue(order, vars, used, e, Yes) == BuildValue(order, vars, used, e, No)
    decreases e
  {
    match e
    case Unary(_, inner, _) => NothingToClear(order, vars, used, inner);
    case Parens(inner) => NothingToClear(order, vars, used, inner);
    case _ =>
  }

  /** Permission to clear changes neither the code nor the location of the result. */
  lemma {:induction false} SameCode(order: Order, vars: map<Ident, Location>, used: set<Register>, e: Expr)
    requires !Clobbers(e)
    ensures var a, b := BuildValue(order, vars, used, e, Yes), BuildValue(order, vars, used, e, No);
            (a.Ok? <==> b.Ok?) && (a.Ok? ==> a.value.code == b.value.code && a.value.loc == b.value.loc)
    decreases e
  {
    hide FreeReg, OrderOperands, LoadRight, Operate;
    match e
    case Parens(inner) => SameCode(order, vars, used, inner);
    case Unary(_, inner, _) => NothingToClear(order, vars, used, inner);
    case _ =>
  }

  /** Such an expression leaves every register in use as it was, in every order and state, and its result is in
      none of them. */
  lemma UsedKept(order: Order, vars: map<Ident, Location>, used: set<Register>, e: Expr, canClear: CanClearRegs,
                 types: map<Ident, Ty>, env: Env, core: Core) returns (v: Val, after: Core)
    requires WellTyped(e, types) && EnvTyped(env, types) && Compilable(e) && Holding(vars, env, core)
    requires BuildValue(order, vars, used, e, canClear).Ok? && (canClear.No? || !Clobbers(e))
    ensures var b := BuildValue(order, vars, used, e, canClear).value;
            && Computes(b, used, canClear, e.IsLiteral(), v, core, after)
            && KeepsRegs(core, after, used) && RegOf(b.loc) !! used
    ensures Eval(false, Flipped(e), env) == Some(v) && v.TypeOf() == e.TypeOf()
  {
    hide BuildValue, Holding, Compilable, WellTyped, Clobbers, RunStraight;
    v, after := BuildValueComputes(order, vars, used, e, canClear, types, env, core);
    if canClear.Yes? {
      SameCode(order, vars, used, e);
      var _, same := BuildValueComputes(order, vars, used, e, No, types, env, core);
    }
  }

  // ---------- overwritten ----------

  /** The registers that stand before the first `r` in an order. */
  function Before(order: Order, r: Register): set<Register> {
    if order == [] || order[0] == r then {} else {order[0]} + Before(order[1..], r)
  }

  lemma {:induction false} NotBeforeItself(order: Order, r: Register)
    ensures r !in Before(order, r)
  {
    if order != [] && order[0] != r {
      NotBeforeItself(order[1..], r);
    }
  }

  /** A register is taken before `r` as long as one of those before it is free, and then `r` itself. */
  lemma {:induction false} TakenFirst(order: Order, used: set<Register>, r: Register)
    requires FreeReg(order, used).Ok? && r in order
    ensures var f := FreeReg(order, used).value; var ahead := Before(order, r) - used;
            && f !in used
            && (ahead != {} ==> f in ahead)
            && (ahead == {} && r !in used ==> f == r)
  {
    if order[0] != r && order[0] in used {
      TakenFirst(order[1..], used, r);
      assert Before(order, r) - used == Before(order[1..], r) - used;
    }
  }

  /** Negations above the binary operation that is reached from the root; none if none is reached. */
  function Nots(e: Expr): nat {
    match e
    case Unary(_, inner, _) => if ReachesBinary(inner) then 1 + Nots(inner) else 0
    case Parens(inner) => Nots(inner)
    case _ => 0
  }

  lemma {:induction false} ClobbersCounted(e: Expr)
    ensures Clobbers(e) <==> Nots(e) > 0
    ensures Clobbers(e) ==> ReachesBinary(e)
  {
    if e.Parens? {
      ClobbersCounted(e.expr);
    }
  }

  /** How many of the registers before `r` are not in a set. */
  function Ahead(order: Order, used: set<Register>, r: Register): nat {
    |Before(order, r) - used|
  }

  /** `n` negations that follow each other overwrite the second, the fourth and so on up to the `2 * n`th register
      of the order, where the register `first` of the value they start from is passed over. */
  predicate NotsWrite(order: Order, first: Register, n: nat, r: Register) {
    OddBelow(Ahead(order, {first}, r), n)
  }

  predicate OddBelow(ahead: nat, n: nat) {
    ahead % 2 == 1 && ahead < 2 * n
  }

  /** A `!` on a value in a register writes no register but the one of its result. */
  lemma NegateTakes(order: Order, used: set<Register>, operand: Register, core: Core, after: Core)
    requires Negate(order, used, RegLoc(operand), Not, Bool).Ok? && operand in used && operand != RSP && operand != RBP
    requires RunStraight(Negate(order, used, RegLoc(operand), Not, Bool).value.code, core) == Some(after)
    ensures var b := Negate(order, used, RegLoc(operand), Not, Bool).value;
            var reg := FreeReg(order, used).value;
            && FreeReg(order, used).Ok? && FreeReg(order, used + {reg}).Ok?
            && b.loc == RegLoc(FreeReg(order, used + {reg}).value) && b.used == used + {reg, b.loc.reg}
            && 0 <= after.Reg(b.loc.reg) <= 1
            && forall r :: r != b.loc.reg ==> after.Reg(r) == core.Reg(r)
  {
    hide RunStraight, FreeReg;
    var reg := FreeReg(order, used).value;
    var condReg := FreeReg(order, used + {reg}).value;
    var x := core.Reg(operand);
    var done := SetOnFlagRuns(ONE, RegLoc(operand), condReg, Ne, core, 1, x);
    assert [] + SetOnFlag(ONE, RegLoc(operand), condReg, IfNotEq) == SetOnFlag(ONE, RegLoc(operand), condReg, IfNotEq);
    assert done == after;
  }

  lemma BinaryClears(order: Order, vars: map<Ident, Location>, used: set<Register>, e: Expr)
    requires e.Binary? && BuildValue(order, vars, used, e, Yes).Ok?
    ensures var b := BuildValue(order, vars, used, e, Yes).value; b.loc.RegLoc? && b.used == {b.loc.reg}
  {
    hide FreeReg, OrderOperands, LoadRight, Operate;
  }

  /** Two registers are taken for each of `n` negations: those before `r` while there are any, then `r`. */
  predicate Taken(order: Order, used: set<Register>, first: Register, n: nat, r: Register) {
    var ahead := Ahead(order, {first}, r);
    && Ahead(order, used, r) == (if ahead < 2 * n then 0 else ahead - 2 * n)
    && (r in used <==> ahead < 2 * n)
  }

  /** After `n` negations of a value in the register `first`: which registers are taken, and what is in `r` now. */
  ghost predicate Negated(order: Order, b: Built, first: Register, n: nat, r: Register, before: Core, after: Core) {
    && b.loc.RegLoc? && b.loc.reg in b.used && b.loc.reg != RSP && b.loc.reg != RBP && first in b.used
    && Taken(order, b.used, first, n, r) && (b.loc.reg == r ==> NotsWrite(order, first, n, r))
    && if NotsWrite(order, first, n, r) then 0 <= after.Reg(r) <= 1 else after.Reg(r) == before.Reg(r)
  }

  lemma OneLess(ahead: set<Register>, used: set<Register>, f: Register)
    ensures |ahead - (used + {f})| == |ahead - used| - if f in ahead - used then 1 else 0
  {
    assert ahead - (used + {f}) == (ahead - used) - {f};
  }

  /** Two more registers are taken: of those before `r` while there are any, then `r`. */
  lemma TwoTaken(order: Order, used: set<Register>, r: Register)
    requires r in order && FreeReg(order, used).Ok? && FreeReg(order, used + {FreeReg(order, used).value}).Ok?
    ensures var free := Ahead(order, used, r);
            var reg := FreeReg(order, used).value; var condReg := FreeReg(order, used + {reg}).value;
            && Ahead(order, used + {reg, condReg}, r) == (if free < 2 then 0 else free - 2)
            && (free >= 2 ==> r != reg && r != condReg)
            && (free == 1 ==> r != reg && (r in used || r == condReg))
            && (free == 0 ==> r != condReg && (r in used || r == reg))
  {
    hide FreeReg, Before;
    var reg := FreeReg(order, used).value;
    var condReg := FreeReg(order, used + {reg}).value;
    NotBeforeItself(order, r);
    TakenFirst(order, used, r);
    TakenFirst(order, used + {reg}, r);
    OneLess(Before(order, r), used, reg);
    OneLess(Before(order, r), used + {reg}, condReg);
    assert used + {reg} + {condReg} == used + {reg, condReg};
  }

  lemma NextWrites(order: Order, used: set<Register>, first: Register, n: nat, r: Register)
    requires r in order && Taken(order, used, first, n, r)
    requires FreeReg(order, used).Ok? && FreeReg(order, used + {FreeReg(order, used).value}).Ok?
    ensures var reg := FreeReg(order, used).value; var condReg := FreeReg(order, used + {reg}).value;
            && Taken(order, used + {reg, condReg}, first, n + 1, r)
            && (NotsWrite(order, first, n + 1, r) <==> NotsWrite(order, first, n, r) || r == condReg)
  {
    hide FreeReg, Ahead, OddBelow;
    TwoTaken(order, used, r);
    var reg := FreeReg(order, used).value;
    var condReg := FreeReg(order, used + {reg}).value;
    TakenNext(order, used, used + {reg, condReg}, first, n, r, reg, condReg);
  }

  lemma TakenNext(order: Order, used: set<Register>, next: set<Register>, first: Register, n: nat, r: Register,
                  reg: Register, condReg: Register)
    requires Taken(order, used, first, n, r) && (r in next <==> r in used || r == reg || r == condReg)
    requires var free := Ahead(order, used, r);
             && Ahead(order, next, r) == (if free < 2 then 0 else free - 2)
             && (free >= 2 ==> r != reg && r != condReg)
             && (free == 1 ==> r != reg && (r in used || r == condReg))
             && (free == 0 ==> r != condReg && (r in used || r == reg))
    ensures Taken(order, next, first, n + 1, r)
    ensures NotsWrite(order, first, n + 1, r) <==> NotsWrite(order, first, n, r) || r == condReg
  {
    hide Ahead, OddBelow;
    TwoFewer(Ahead(order, {first}, r), Ahead(order, used, r), n, r in used, r == reg, r == condReg);
  }

  lemma TwoFewer(ahead: nat, free: nat, n: nat, taken: bool, first: bool, second: bool)
    requires free == (if ahead < 2 * n then 0 else ahead - 2 * n) && (taken <==> ahead < 2 * n)
    requires free >= 2 ==> !first && !second
    requires free == 1 ==> !first && (taken || second)
    requires free == 0 ==> !second && (taken || first)
    ensures (if free < 2 then 0 else free - 2) == (if ahead < 2 * (n + 1) then 0 else ahead - 2 * (n + 1))
    ensures taken || first || second <==> ahead < 2 * (n + 1)
    ensures OddBelow(ahead, n + 1) <==> OddBelow(ahead, n) || second
  {
  }

  lemma NegateOnce(order: Order, operand: Built, first: Register, n: nat, r: Register, before: Core, mid: Core, after: Core)
    requires Negated(order, operand, first, n, r, before, mid) && r in order
    requires Negate(order, operand.used, operand.loc, Not, Bool).Ok?
    requires RunStraight(Negate(order, operand.used, operand.loc, Not, Bool).value.code, mid) == Some(after)
    ensures Negated(order, Negate(order, operand.used, operand.loc, Not, Bool).value, first, n + 1, r, before, after)
  {
    hide RunStraight, SetOnFlag, Negate, FreeReg, Before, Taken, NotsWrite;
    NegateTakes(order, operand.used, operand.loc.reg, mid, after);
    NextWrites(order, operand.used, first, n, r);
  }

  lemma CodeApart(order: Order, code: seq<Instruction>, done: Built, whole: Built, first: Register, n: nat, r: Register,
                  before: Core, after: Core)
    requires Negated(order, done, first, n, r, before, after) && whole == done.(code := code + done.code)
    ensures Negated(order, whole, first, n, r, before, after)
  {
  }

  /** The register that holds the value of the binary operation that is reached from the root. */
  function ResultReg(order: Order, vars: map<Ident, Location>, used: set<Register>, e: Expr): Register
    requires ReachesBinary(e) && BuildValue(order, vars, used, e, Yes).Ok?
    decreases e
  {
    match e
    case Unary(_, inner, _) => ResultReg(order, vars, used, inner)
    case Parens(inner) => ResultReg(order, vars, used, inner)
    case Binary(_, _, _, _) => BinaryClears(order, vars, used, e); BuildValue(order, vars, used, e, Yes).value.loc.reg
  }

  /** What the negations do to a register in use. */
  lemma {:induction false} NegatedRuns(
      order: Order, vars: map<Ident, Location>, used: set<Register>, e: Expr, types: map<Ident, Ty>, env: Env, core: Core,
      after: Core, r: Register)
    requires WellTyped(e, types) && EnvTyped(env, types) && Compilable(e) && Holding(vars, env, core)
    requires ReachesBinary(e) && BuildValue(order, vars, used, e, Yes).Ok? && r in used && r in order
    requires RunStraight(BuildValue(order, vars, used, e, Yes).value.code, core) == Some(after)
    ensures Negated(order, BuildValue(order, vars, used, e, Yes).value, ResultReg(order, vars, used, e), Nots(e), r, core, after)
    ensures ResultReg(order, vars, used, e) !in used
    decreases e
  {
    hide FreeReg, RunStraight, Combine, Holding, SetOnFlag, Negate, EnvTyped, Ahead, Negated, NotsWrite;
    match e
    case Parens(inner) => NegatedRuns(order, vars, used, inner, types, env, core, after, r);
    case Binary(_, _, _, _) =>
      var _, same := UsedKept(order, vars, used, e, Yes, types, env, core);
      BinaryClears(order, vars, used, e);
      NotYetNegated(order, BuildValue(order, vars, used, e, Yes).value, used, r, core, after);
    case Unary(op, inner, t) =>
      var operand := BuildValue(order, vars, used, inner, Yes).value;
      var _, mid := BuildValueComputes(order, vars, used, inner, Yes, types, env, core);
      NegatedRuns(order, vars, used, inner, types, env, core, mid, r);
      var done := Negate(order, operand.used, operand.loc, Not, Bool).value;
      assert operand.loc.RegLoc? by { InRegister(order, operand, ResultReg(order, vars, used, inner), Nots(inner), r, core, mid); }
      StraightAppend(operand.code, done.code, core);
      var first := ResultReg(order, vars, used, inner);
      NegateOnce(order, operand, first, Nots(inner), r, core, mid, after);
      CodeApart(order, operand.code, done, BuildValue(order, vars, used, e, Yes).value, first, Nots(e), r, core, after);
    case _ =>
  }

  lemma NotYetNegated(order: Order, b: Built, used: set<Register>, r: Register, before: Core, after: Core)
    requires b.loc.RegLoc? && b.loc.reg != RSP && b.loc.reg != RBP && b.used == {b.loc.reg}
    requires b.loc.reg !in used && r in used && KeepsRegs(before, after, used)
    ensures Negated(order, b, b.loc.reg, 0, r, before, after)
  {
    hide Before;
  }

  lemma InRegister(order: Order, b: Built, first: Register, n: nat, r: Register, before: Core, after: Core)
    requires Negated(order, b, first, n, r, before, after)
    ensures b.loc.RegLoc?
  {
  }

  /** A register is none of those that the negations of an expression overwrite. */
  predicate Survives(order: Order, vars: map<Ident, Location>, used: set<Register>, e: Expr, r: Register)
    requires BuildValue(order, vars, used, e, Yes).Ok?
  {
    ReachesBinary(e) ==> !NotsWrite(order, ResultReg(order, vars, used, e), Nots(e), r)
  }

  /** A register that survives is kept and does not hold the result; any other ends up with a truth value. */
  lemma SurvivorRuns(order: Order, vars: map<Ident, Location>, used: set<Register>, e: Expr, types: map<Ident, Ty>, env: Env,
                     core: Core, after: Core, r: Register)
    requires WellTyped(e, types) && EnvTyped(env, types) && Compilable(e) && Holding(vars, env, core)
    requires BuildValue(order, vars, used, e, Yes).Ok? && r in used && r in order
    requires RunStraight(BuildValue(order, vars, used, e, Yes).value.code, core) == Some(after)
    ensures var b := BuildValue(order, vars, used, e, Yes).value;
            if Survives(order, vars, used, e, r) then after.Reg(r) == core.Reg(r) && b.loc != RegLoc(r)
            else 0 <= after.Reg(r) <= 1 && b.loc.RegLoc?
  {
    hide Before, BuildValue, RunStraight, Holding, Compilable, WellTyped, EnvTyped;
    if ReachesBinary(e) {
      NegatedRuns(order, vars, used, e, types, env, core, after, r);
    } else {
      ClobbersCounted(e);
      var _, same := UsedKept(order, vars, used, e, Yes, types, env, core);
    }
  }

  /** With permission to give registers back, for every order, every set of registers in use and every register
      among them that holds anything but a truth value: the expression keeps it if and only if it is none of the
      registers that its negations overwrite. */
  lemma KeptExactly(order: Order, vars: map<Ident, Location>, used: set<Register>, e: Expr, types: map<Ident, Ty>, env: Env,
                    core: Core, r: Register) returns (after: Core)
    requires WellTyped(e, types) && EnvTyped(env, types) && Compilable(e) && Holding(vars, env, core)
    requires BuildValue(order, vars, used, e, Yes).Ok? && r in used && r in order && !(0 <= core.Reg(r) <= 1)
    ensures RunStraight(BuildValue(order, vars, used, e, Yes).value.code, core) == Some(after)
    ensures after.Reg(r) == core.Reg(r) <==> Survives(order, vars, used, e, r)
  {
    hide BuildValue, RunStraight, Holding, Compilable, WellTyped, EnvTyped, Survives;
    var v;
    v, after := BuildValueComputes(order, vars, used, e, Yes, types, env, core);
    SurvivorRuns(order, vars, used, e, types, env, core, after, r);
  }

  lemma FreeSkips(r: Usable, rest: Order, used: set<Register>)
    ensures FreeReg([r] + rest, used) == if r in used then FreeReg(rest, used) else Ok(r)
  {
    assert ([r] + rest)[1..] == rest;
  }

  /** An input on which a register in use is lost: `!(p && q)` while RCX is in use and the register set is
      iterated in the order RAX, RDX, RCX, RBX. The result is put into RCX itself. */
  lemma NegatedAndLosesRegister(vars: map<Ident, Location>, p: Ident, q: Ident, i: nat, j: nat)
    requires p in vars && q in vars && vars[p] == NumberedOffset(i, RBP) && vars[q] == NumberedOffset(j, RBP)
    ensures var order: Order := [RAX, RDX, RCX, RBX];
            var e := Unary(Not, Parens(Binary(And, Var(p, Bool), Var(q, Bool), Bool)), Bool);
            var b := BuildValue(order, vars, {RCX}, e, Yes);
            b.Ok? && b.value.loc == RegLoc(RCX) && Mov(ZERO, RegLoc(RCX)) in b.value.code
  {
    FreeInOrder();
    ResultInUsed([RAX, RDX, RCX, RBX], vars, p, q);
  }

  lemma ResultInUsed(order: Order, vars: map<Ident, Location>, p: Ident, q: Ident)
    requires p in vars && q in vars && vars[p].NumberedOffset? && vars[q].NumberedOffset?
    requires FreeReg(order, {RCX}) == Ok(RAX) && FreeReg(order, {RAX}) == Ok(RDX) && FreeReg(order, {RAX} + {RDX}) == Ok(RCX)
    ensures var b := BuildValue(order, vars, {RCX}, Unary(Not, Parens(Binary(And, Var(p, Bool), Var(q, Bool), Bool)), Bool), Yes);
            b.Ok? && b.value.loc == RegLoc(RCX) && Mov(ZERO, RegLoc(RCX)) in b.value.code
  {
    hide FreeReg, SetOnFlag, Negate, Combine;
    var both := Binary(And, Var(p, Bool), Var(q, Bool), Bool);
    var code := [Mov(vars[q], RegLoc(RAX))] + [Math(vars[p], RegLoc(RAX), And)];
    AndCode(order, vars, p, q, code);
    var test := [] + SetOnFlag(ONE, RegLoc(RAX), RCX, IfNotEq);
    NegateCode(order, test);
    assert BuildValue(order, vars, {RCX}, Parens(both), Yes) == Ok(Built(code, {RAX}, RegLoc(RAX)));
    ResultStarts(code, test);
  }

  lemma NegateCode(order: Order, test: seq<Instruction>)
    requires FreeReg(order, {RAX}) == Ok(RDX) && FreeReg(order, {RAX} + {RDX}) == Ok(RCX)
    requires test == [] + SetOnFlag(ONE, RegLoc(RAX), RCX, IfNotEq)
    ensures Negate(order, {RAX}, RegLoc(RAX), Not, Bool) == Ok(Built(test, {RAX} + {RDX, RCX}, RegLoc(RCX)))
  {
    hide FreeReg, SetOnFlag;
  }

  lemma FreeInOrder()
    ensures var order: Order := [RAX, RDX, RCX, RBX];
            FreeReg(order, {RCX}) == Ok(RAX) && FreeReg(order, {RAX}) == Ok(RDX) && FreeReg(order, {RAX} + {RDX}) == Ok(RCX)
  {
    var order: Order := [RAX, RDX, RCX, RBX];
    assert order == [RAX] + ([RDX] + ([RCX] + [RBX]));
    FreeSkips(RAX, [RDX] + ([RCX] + [RBX]), {RCX});
    FreeSkips(RAX, [RDX] + ([RCX] + [RBX]), {RAX});
    FreeSkips(RDX, [RCX] + [RBX], {RAX});
    FreeSkips(RAX, [RDX] + ([RCX] + [RBX]), {RAX} + {RDX});
    FreeSkips(RDX, [RCX] + [RBX], {RAX} + {RDX});
    FreeSkips(RCX, [RBX], {RAX} + {RDX});
    hide FreeReg;
  }

  lemma ResultStarts(code: seq<Instruction>, test: seq<Instruction>)
    requires |code| == 2 && test == [] + SetOnFlag(ONE, RegLoc(RAX), RCX, IfNotEq)
    ensures Mov(ZERO, RegLoc(RCX)) in code + test
  {
    assert (code + test)[2] == Mov(ZERO, RegLoc(RCX));
  }

  lemma AndCode(order: Order, vars: map<Ident, Location>, p: Ident, q: Ident, code: seq<Instruction>)
    requires p in vars && q in vars && vars[p].NumberedOffset? && vars[q].NumberedOffset?
    requires FreeReg(order, {RCX}) == Ok(RAX)
    requires code == [Mov(vars[q], RegLoc(RAX))] + [Math(vars[p], RegLoc(RAX), And)]
    ensures BuildValue(order, vars, {RCX}, Binary(And, Var(p, Bool), Var(q, Bool), Bool), Yes)
         == Ok(Built(code, {RAX}, RegLoc(RAX)))
  {
    hide FreeReg;
    assert [] + [Mov(vars[q], RegLoc(RAX))] + [Math(vars[p], RegLoc(RAX), And)] == code;
    assert Combine(order, {RCX}, vars[p], vars[q], And, Yes) == Ok(Built(code, {RAX}, RegLoc(RAX)));
    assert BuildValue(order, vars, {RCX}, Var(p, Bool), No) == Ok(Built([], {RCX}, vars[p]));
    assert BuildValue(order, vars, {RCX}, Var(q, Bool), No) == Ok(Built([], {RCX}, vars[q]));
    assert [] + [] + code == code;
  }
}
