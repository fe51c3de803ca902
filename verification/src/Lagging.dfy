/** What a stack pointer out of step does to values. A declaration pushes the new variable, but the push goes
    where the stack pointer is, not where the generator takes it to be: it erases the variable whose slot
    is there. */
module Lagging {
  import opened Words
  import opened Lir
  import opened Machine
  import opened AsmSpec
  import opened ExprProof
  import opened StmtProof
  import opened FuncProof
  import opened ElementProof
  import opened FrameRuns

  function Erased(v: Val): Val {
    NullVal(v.TypeOf())
  }

  /** The environment in which the variable with the slot at this offset is erased. */
  function Lost(env: Env, vars: map<Ident, Location>, offset: int): Env {
    map y | y in env :: if y in vars && vars[y].NumberedOffset? && vars[y].offset == offset then Erased(env[y]) else env[y]
  }

  /** The offset that the next push hits. */
  function NextPush(frame: Frame, lag: int): int {
    frame.currentStack - lag + 8
  }

  lemma LostTyped(env: Env, vars: map<Ident, Location>, offset: int, types: map<Ident, Ty>)
    requires EnvTyped(env, types)
    ensures EnvTyped(Lost(env, vars, offset), types)
  {
  }

  /** A push erases the variable whose slot it hits, and no other one. */
  lemma PushErases(vars: map<Ident, Location>, env: Env, core: Core, mid: Core, offset: int)
    requires Holding(vars, env, core) && mid.Reg(RBP) == core.Reg(RBP)
    requires (core.Reg(RBP) - offset) % 8 == 0 && mid.mem == core.mem[core.Reg(RBP) - offset := 0]
    ensures Holding(vars, Lost(env, vars, offset), mid)
  {
    var lost := Lost(env, vars, offset);
    forall y | y in lost ensures Read(mid, vars[y]) == Some(Encode(lost[y])) {
      assert Read(core, vars[y]) == Some(Encode(env[y]));
    }
  }

  lemma HoldingWider(vars: map<Ident, Location>, env: Env, core: Core, x: Ident, loc: Location)
    requires Holding(vars, env, core) && x !in env
    ensures Holding(vars[x := loc], env, core)
  {
  }

  /** A new variable in its own slot, apart from the others. */
  lemma HoldingStored(vars: map<Ident, Location>, env: Env, core: Core, after: Core, x: Ident, offset: nat, v: Val)
    requires Holding(vars, env, core) && x in vars && vars[x] == NumberedOffset(offset, RBP) && Mapped(core, core.Reg(RBP) - offset)
    requires forall y :: y in env ==> y != x && vars[y].offset != offset
    requires after.mem == core.mem[core.Reg(RBP) - offset := Encode(v)] && after.Reg(RBP) == core.Reg(RBP)
    ensures Holding(vars, env[x := v], after)
  {
    forall y | y in env ensures Read(after, vars[y]) == Some(Encode(env[y])) {
      assert Read(core, vars[y]) == Some(Encode(env[y]));
    }
  }

  /** `let x = e;` while the stack pointer lags by any amount, above or below its place: the machine does what the
      source does in the environment where the variable whose slot is hit by the push is erased. The new
      variable has its value, RSP lags as before. So a variable is lost if and only if its slot is the one that the
      push hits; with RSP in its place, or below it, that is none. */
  lemma LetLagging(order: Order, frame: Frame, x: Ident, t: Ty, e: Expr, types: map<Ident, Ty>, env: Env, core: Core)
    returns (v: Val, after: Core)
    requires x !in types && ExprOk(e, types) && e.TypeOf() == t && SmallLiteral(e)
    requires Slots(frame.vars, types.Keys, frame.currentStack) && EnvTyped(env, types) && Holding(frame.vars, env, core)
    requires core.Reg(RSP) - 8 >= 0 && core.Reg(RSP) % 8 == 0 && core.Reg(RBP) % 8 == 0
    requires var own := core.Reg(RBP) - (frame.currentStack + 8); own % 8 == 0 && (own in core.mem || own == core.Reg(RSP) - 8)
    requires AssignCode(order, frame, x, e, true).Ok?
    ensures var lost := Lost(env, frame.vars, NextPush(frame, Lag(core, frame)));
            var built := AssignCode(order, frame, x, e, true).value;
            && Eval(false, e, lost) == Some(v) && RunStraight(built.code, core) == Some(after)
            && Holding(built.frame.vars, lost[x := v], after) && EnvTyped(lost[x := v], types[x := t])
            && after.Reg(RBP) == core.Reg(RBP) && Lag(after, built.frame) == Lag(core, frame)
    ensures Lag(core, frame) <= 0 ==> Lost(env, frame.vars, NextPush(frame, Lag(core, frame))) == env
  {
    hide Read, RunStraight, StoreThrough, AssignCode, ExprOk, Eval, Slots, Holding, EnvTyped;
    var alloc := AllocStack(frame, x);
    var hit := NextPush(frame, Lag(core, frame));
    var lost := Lost(env, frame.vars, hit);
    var top := frame.currentStack + 8;
    var slot := NumberedOffset(top, RBP);
    ZeroReads(core);
    var mid := PushRuns(core, ZERO, 0);
    PushErases(frame.vars, env, core, mid, hit);
    LostTyped(env, frame.vars, hit, types);
    NamesTyped(lost, types, x);
    HoldingWider(frame.vars, lost, mid, x, slot);
    LetCode(order, frame, x, e);
    AssignIsStore(order, alloc.frame, x, e);
    var target := Built([], alloc.frame.used, slot);
    v, after := StoreThroughRuns(order, alloc.frame, target, e, types, lost, mid, core.Reg(RBP) - top);
    var store := StoreThrough(order, alloc.frame, target, e).value.code;
    assert store[|target.code|..] == store;
    StraightAppend([Push(ZERO, 8)], store, core);
    SlotsBelow(frame.vars, types, frame.currentStack, lost);
    HoldingStored(alloc.frame.vars, lost, mid, after, x, top, v);
    ValueTyped(order, alloc.frame, e, types, lost, mid, v);
    TypedLet(lost, types, x, t, v);
    FrameOfLet(order, alloc.frame, x, e);
    if Lag(core, frame) <= 0 {
      NothingHit(frame.vars, types, frame.currentStack, env, hit);
    }
  }

  lemma ZeroReads(core: Core)
    ensures Read(core, ZERO) == Some(0)
  {
  }

  lemma NamesTyped(env: Env, types: map<Ident, Ty>, x: Ident)
    requires EnvTyped(env, types) && x !in types
    ensures x !in env
  {
  }

  lemma TypedLet(env: Env, types: map<Ident, Ty>, x: Ident, t: Ty, v: Val)
    requires EnvTyped(env, types) && v.TypeOf() == t
    ensures EnvTyped(env[x := v], types[x := t])
  {
  }

  lemma ValueTyped(order: Order, frame: Frame, e: Expr, types: map<Ident, Ty>, env: Env, core: Core, v: Val)
    requires ExprOk(e, types) && EnvTyped(env, types) && Holding(frame.vars, env, core)
    requires BuildValue(order, frame.vars, frame.used, e, Yes).Ok? && Eval(false, e, env) == Some(v)
    ensures v.TypeOf() == e.TypeOf()
  {
    hide BuildValue, Holding, ExprOk, EnvTyped, Eval;
    var _, _ := ExprRuns(order, frame.vars, frame.used, e, types, env, core);
  }

  /** The last part of a declaration stores through the slot. */
  lemma AssignIsStore(order: Order, frame: Frame, x: Ident, e: Expr)
    requires x in frame.vars && frame.vars[x].NumberedOffset? && AssignCode(order, frame, x, e, false).Ok?
    ensures StoreThrough(order, frame, Built([], frame.used, frame.vars[x]), e) == AssignCode(order, frame, x, e, false)
    ensures BuildValue(order, frame.vars, frame.used, e, Yes).Ok?
  {
    hide BuildValue, StoreTo;
  }

  lemma FrameOfLet(order: Order, frame: Frame, x: Ident, e: Expr)
    requires AssignCode(order, frame, x, e, false).Ok?
    ensures var next := AssignCode(order, frame, x, e, false).value.frame; next == frame.(used := next.used)
  {
    hide BuildValue, FreeReg;
  }

  lemma SlotsBelow(vars: map<Ident, Location>, types: map<Ident, Ty>, size: nat, env: Env)
    requires Slots(vars, types.Keys, size) && env.Keys == types.Keys
    ensures forall y :: y in env ==> y in vars && vars[y].NumberedOffset? && vars[y].offset <= size
  {
  }

  lemma NothingHit(vars: map<Ident, Location>, types: map<Ident, Ty>, size: nat, env: Env, offset: int)
    requires Slots(vars, types.Keys, size) && EnvTyped(env, types) && offset > size
    ensures Lost(env, vars, offset) == env
  {
  }
}
