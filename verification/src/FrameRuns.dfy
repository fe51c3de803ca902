/** Whole runs of a statement's code and the stack pointer: after a conditional with declarations in its
    branches, after a loop with declarations in its body, and after any block at all, the stack pointer is
    where the generator counts on it exactly when the run made room for as many bytes as the statement
    declares. */
module FrameRuns {
  import opened Words
  import opened Lir
  import opened Machine
  import opened AsmSpec
  import opened ExprProof
  import opened StmtProof
  import opened Labels
  import opened ProgramMarks
  import opened Writes
  import opened FrameCount

  // ---------- runs that stay in a piece of code ----------

  /** The next `n` steps start at positions from `lo` to `hi`. */
  ghost predicate Stays(program: seq<Instruction>, state: State, n: nat, lo: nat, hi: nat)
    decreases n
  {
    n > 0 ==>
      && state.Running? && lo <= state.pc < hi && Step(program, state).Some?
      && Stays(program, Step(program, state).value, n - 1, lo, hi)
  }

  /** The bytes that the next `n` steps take from the stack pointer. */
  function Taken(program: seq<Instruction>, state: State, n: nat): nat
    decreases n
  {
    if n == 0 || state.Halted? || Step(program, state).None? then 0
    else Lowers(program[state.pc]) + Taken(program, Step(program, state).value, n - 1)
  }

  /** How many of the next `n` steps start at `at`. */
  function Visits(program: seq<Instruction>, state: State, n: nat, at: nat): nat
    decreases n
  {
    if n == 0 || state.Halted? || Step(program, state).None? then 0
    else (if state.pc == at then 1 else 0) + Visits(program, Step(program, state).value, n - 1, at)
  }

  lemma {:induction false} RunSplit(program: seq<Instruction>, state: State, m: nat, n: nat, lo: nat, hi: nat)
    requires Stays(program, state, m + n, lo, hi)
    ensures Stays(program, state, m, lo, hi) && Run(program, state, m).Some?
    ensures Stays(program, Run(program, state, m).value, n, lo, hi)
    ensures Run(program, state, m + n) == Run(program, Run(program, state, m).value, n)
    ensures Taken(program, state, m + n) == Taken(program, state, m) + Taken(program, Run(program, state, m).value, n)
    ensures forall at: nat :: Visits(program, state, m + n, at)
                      == Visits(program, state, m, at) + Visits(program, Run(program, state, m).value, n, at)
    decreases m
  {
    hide Step;
    if m > 0 {
      RunSplit(program, Step(program, state).value, m - 1, n, lo, hi);
    }
  }

  lemma {:induction false} StaysRuns(program: seq<Instruction>, state: State, n: nat, lo: nat, hi: nat)
    requires Stays(program, state, n, lo, hi)
    ensures Run(program, state, n).Some?
    decreases n
  {
    if n > 0 {
      StaysRuns(program, Step(program, state).value, n - 1, lo, hi);
    }
  }

  /** A step inside code whose jumps stay inside goes to the next position or to a label of the code. */
  lemma StepInside(program: seq<Instruction>, lo: nat, code: seq<Instruction>, pc: nat, core: Core)
    requires At(program, lo, code) && JumpsInside(code, LabelsOf(code)) && UniqueLabels(program)
    requires lo <= pc < lo + |code| && Step(program, Running(pc, core)).Some?
    ensures var next := Step(program, Running(pc, core)).value;
            next.Running? ==> lo <= next.pc <= lo + |code| && (next.pc != pc + 1 ==> program[pc].Jmp? || program[pc].CondJmp?)
  {
    var inst := program[pc];
    assert code[pc - lo] == inst;
    var next := Step(program, Running(pc, core)).value;
    if next.Running? && next.pc != pc + 1 {
      var target := inst.target;
      assert target in LabelsOf(code);
      var i :| 0 <= i < |code| && code[i].LabelDef? && code[i].lbl == target;
      assert program[lo + i] == code[i];
      JumpReaches(program, target, lo + i, core);
    }
  }

  /** The only way out of such code, other than returning, is its end: a run that is outside later has first come
      to the end, and stayed inside until then. */
  lemma {:induction false} LeavesAtEnd(program: seq<Instruction>, lo: nat, code: seq<Instruction>, pc: nat, core: Core, n: nat)
    returns (m: nat, end: Core)
    requires At(program, lo, code) && JumpsInside(code, LabelsOf(code)) && UniqueLabels(program)
    requires lo <= pc <= lo + |code| && Run(program, Running(pc, core), n).Some?
    requires var last := Run(program, Running(pc, core), n).value; last.Running? && !(lo <= last.pc < lo + |code|)
    ensures m <= n && Stays(program, Running(pc, core), m, lo, lo + |code|)
    ensures Run(program, Running(pc, core), m) == Some(Running(lo + |code|, end))
    decreases n
  {
    if pc == lo + |code| {
      m, end := 0, core;
    } else {
      StepInside(program, lo, code, pc, core);
      var next := Step(program, Running(pc, core)).value;
      if next.Halted? {
        HaltedStays(program, next, n - 1);
        assert false;
      }
      m, end := LeavesAtEnd(program, lo, code, next.pc, next.core, n - 1);
      m := m + 1;
    }
  }

  lemma HaltedStays(program: seq<Instruction>, state: State, n: nat)
    requires state.Halted? && Run(program, state, n).Some?
    ensures n == 0
  {
  }

  // ---------- the stack pointer over a run ----------

  lemma StepTakes(program: seq<Instruction>, pc: nat, core: Core)
    requires pc < |program| && Step(program, Running(pc, core)).Some? && Steady(program[pc]) && !program[pc].Leave?
    requires core.Reg(RSP) - Lowers(program[pc]) >= WORD_MIN
    ensures var next := Step(program, Running(pc, core)).value;
            next.Running? ==> next.core.Reg(RBP) == core.Reg(RBP)
                              && next.core.Reg(RSP) == core.Reg(RSP) - Lowers(program[pc])
  {
  }

  /** Over a run from anywhere in the code to its end, RSP goes down by what the run takes and RBP stays. */
  lemma {:induction false} RunTakes(program: seq<Instruction>, lo: nat, code: seq<Instruction>, bytes: nat, pc: nat,
                                    core: Core, n: nat, after: Core)
    requires At(program, lo, code) && Accounted(code, bytes)
    requires lo <= pc && Stays(program, Running(pc, core), n, lo, lo + |code|)
    requires Run(program, Running(pc, core), n) == Some(Running(lo + |code|, after))
    requires core.Reg(RSP) - Taken(program, Running(pc, core), n) >= WORD_MIN
    ensures after.Reg(RSP) == core.Reg(RSP) - Taken(program, Running(pc, core), n)
    ensures after.Reg(RBP) == core.Reg(RBP)
    decreases n
  {
    if n > 0 {
      assert Orderly(code, pc - lo) && program[pc] == code[pc - lo];
      var next := Step(program, Running(pc, core)).value;
      if next.Halted? {
        HaltedStays(program, next, n - 1);
        assert false;
      }
      if program[pc].Leave? {
        LeaveEnds(program, lo, code, pc, core, n);
        assert false;
      }
      StepTakes(program, pc, core);
      RunTakes(program, lo, code, bytes, next.pc, next.core, n - 1, after);
    }
  }

  /** After a `leave` comes a return, and then nothing. */
  lemma LeaveEnds(program: seq<Instruction>, lo: nat, code: seq<Instruction>, pc: nat, core: Core, n: nat)
    requires At(program, lo, code) && lo <= pc < lo + |code| && Orderly(code, pc - lo) && program[pc].Leave? && n > 0
    requires Stays(program, Running(pc, core), n, lo, lo + |code|)
    ensures !(Run(program, Running(pc, core), n).Some?
              && Run(program, Running(pc, core), n).value.Running? && Run(program, Running(pc, core), n).value.pc == lo + |code|)
  {
    assert program[pc] == code[pc - lo] && program[pc + 1] == code[pc - lo + 1];
    var next := Step(program, Running(pc, core)).value;
    assert next.Running? && next.pc == pc + 1;
    if n > 1 {
      var last := Step(program, next);
      assert last.Some? && last.value.Halted?;
      if Run(program, last.value, n - 2).Some? {
        HaltedStays(program, last.value, n - 2);
      }
    } else {
      assert Run(program, next, 0) == Some(next);
    }
  }

  // ---------- every block ----------

  /** A run through the code of a block, from its start to the first time it comes to its end. */
  ghost predicate Through(program: seq<Instruction>, pos: nat, code: seq<Instruction>, core: Core, n: nat, after: Core) {
    && At(program, pos, code)
    && Stays(program, Running(pos, core), n, pos, pos + |code|)
    && Run(program, Running(pos, core), n) == Some(Running(pos + |code|, after))
    && core.Reg(RSP) - Taken(program, Running(pos, core), n) >= WORD_MIN
  }

  /** How far the stack pointer is above the place where the generator takes it to be. */
  function Lag(core: Core, frame: Frame): int {
    core.Reg(RSP) - (core.Reg(RBP) - frame.currentStack)
  }

  /** RSP is where the generator takes it to be. */
  predicate InStep(core: Core, frame: Frame) {
    Lag(core, frame) == 0
  }

  /** Any block, with declarations at any depth, any values and any registers: after a run from its start to its end
      the stack pointer lags by the bytes that the block declares and for which the run made no room. So it is
      where the generator takes it to be if and only if the run made room for exactly those bytes. */
  lemma BlockInStepExactly(order: Order, frame: Frame, at: nat, pos: nat, stmts: seq<Stmt>, program: seq<Instruction>,
                           core: Core, n: nat, after: Core)
    requires Located(frame.vars) && BytesIn(stmts, false) <= WORD_MAX && BlockCode(order, frame, at, stmts).Ok?
    requires Through(program, pos, BlockCode(order, frame, at, stmts).value.code, core, n, after)
    requires InStep(core, frame)
    ensures after.Reg(RBP) == core.Reg(RBP)
    ensures Lag(after, BlockCode(order, frame, at, stmts).value.frame)
         == BytesIn(stmts, false) - Taken(program, Running(pos, core), n)
    ensures InStep(after, BlockCode(order, frame, at, stmts).value.frame)
            <==> Taken(program, Running(pos, core), n) == BytesIn(stmts, false)
  {
    hide BlockCode, Accounted, Stays, Run, Taken, BytesIn, At;
    BlockAccounted(order, frame, at, stmts);
    RunTakes(program, pos, BlockCode(order, frame, at, stmts).value.code, BytesIn(stmts, true), pos, core, n, after);
  }

  lemma StmtInStepExactly(order: Order, frame: Frame, at: nat, pos: nat, stmt: Stmt, program: seq<Instruction>,
                          core: Core, n: nat, after: Core)
    requires Located(frame.vars) && Bytes(stmt, false) <= WORD_MAX && StmtCode(order, frame, at, stmt).Ok?
    requires Through(program, pos, StmtCode(order, frame, at, stmt).value.code, core, n, after)
    requires InStep(core, frame)
    ensures after.Reg(RBP) == core.Reg(RBP)
    ensures Lag(after, StmtCode(order, frame, at, stmt).value.frame)
         == Bytes(stmt, false) - Taken(program, Running(pos, core), n)
    ensures InStep(after, StmtCode(order, frame, at, stmt).value.frame)
            <==> Taken(program, Running(pos, core), n) == Bytes(stmt, false)
  {
    hide StmtCode, Accounted, Stays, Run, Taken, Bytes, At;
    StmtAccounted(order, frame, at, stmt);
    RunTakes(program, pos, StmtCode(order, frame, at, stmt).value.code, Bytes(stmt, true), pos, core, n, after);
  }

  // ---------- blocks with declarations at their top level ----------

  /** Declarations stand in the block itself, not in its conditionals, loops and matches. */
  predicate Level(stmts: seq<Stmt>) {
    forall i :: 0 <= i < |stmts| ==> Simple(stmts[i]) || Bytes(stmts[i], false) == 0
  }

  lemma {:induction false} SumOfPart(code: seq<Instruction>, i: nat)
    requires i < |code|
    ensures Lowers(code[i]) <= Sum(code)
    decreases |code|
  {
    if i > 0 {
      SumOfPart(code[1..], i - 1);
    }
  }

  /** Code that makes no room takes nothing. */
  lemma {:induction false} NothingTaken(program: seq<Instruction>, lo: nat, code: seq<Instruction>, pc: nat, core: Core, n: nat)
    requires At(program, lo, code) && Sum(code) == 0 && lo <= pc && Stays(program, Running(pc, core), n, lo, lo + |code|)
    ensures Taken(program, Running(pc, core), n) == 0
    decreases n
  {
    if n > 0 {
      SumOfPart(code, pc - lo);
      assert program[pc] == code[pc - lo];
      var next := Step(program, Running(pc, core)).value;
      if next.Running? {
        if n > 1 {
          NothingTaken(program, lo, code, next.pc, next.core, n - 1);
        }
      }
    }
  }

  lemma SumFrom(code: seq<Instruction>, i: nat)
    requires i < |code|
    ensures Sum(code[i..]) == Lowers(code[i]) + Sum(code[i + 1..])
  {
    assert code[i..][1..] == code[i + 1..];
  }

  /** An instruction without a jump goes on to the next one, unless the run is over. */
  lemma PlainMovesOn(program: seq<Instruction>, pc: nat, core: Core, n: nat, hi: nat, after: Core)
    requires pc < |program| && Plain(program[pc]) && n > 0 && Step(program, Running(pc, core)).Some?
    requires Run(program, Running(pc, core), n) == Some(Running(hi, after))
    ensures Step(program, Running(pc, core)).value.Running? && Step(program, Running(pc, core)).value.pc == pc + 1
  {
    var next := Step(program, Running(pc, core)).value;
    if next.Halted? {
      HaltedStays(program, next, n - 1);
    }
  }

  /** Code without jumps takes all the room it makes. */
  lemma {:induction false} AllTaken(program: seq<Instruction>, lo: nat, code: seq<Instruction>, i: nat, core: Core, n: nat,
                                    after: Core)
    requires At(program, lo, code) && PlainCode(code) && i <= |code|
    requires Stays(program, Running(lo + i, core), n, lo, lo + |code|)
    requires Run(program, Running(lo + i, core), n) == Some(Running(lo + |code|, after))
    ensures Taken(program, Running(lo + i, core), n) == Sum(code[i..]) && n == |code| - i
    decreases n
  {
    if n == 0 {
      assert code[i..] == [];
    } else {
      assert Plain(code[i]) && program[lo + i] == code[i];
      var next := Step(program, Running(lo + i, core)).value;
      PlainMovesOn(program, lo + i, core, n, lo + |code|, after);
      SumFrom(code, i);
      hide Step, Sum, PlainCode, At;
      AllTaken(program, lo, code, i + 1, next.core, n - 1, after);
    }
  }

  /** A simple statement, or one that declares nothing, takes exactly what it pushes. */
  lemma StmtTaken(order: Order, frame: Frame, at: nat, pos: nat, stmt: Stmt, program: seq<Instruction>, core: Core, n: nat,
                  after: Core)
    requires Located(frame.vars) && Bytes(stmt, false) <= WORD_MAX && StmtCode(order, frame, at, stmt).Ok?
    requires Simple(stmt) || Bytes(stmt, false) == 0
    requires At(program, pos, StmtCode(order, frame, at, stmt).value.code)
    requires var code := StmtCode(order, frame, at, stmt).value.code;
             && Stays(program, Running(pos, core), n, pos, pos + |code|)
             && Run(program, Running(pos, core), n) == Some(Running(pos + |code|, after))
    ensures Taken(program, Running(pos, core), n) == Bytes(stmt, true)
  {
    hide StmtCode, Run, Stays, Taken, At, Bytes;
    var code := StmtCode(order, frame, at, stmt).value.code;
    StmtAccounted(order, frame, at, stmt);
    if Simple(stmt) {
      SimplePlain(order, frame, at, stmt);
      AllTaken(program, pos, code, 0, core, n, after);
      assert code[0..] == code;
    } else {
      PushedWithin(stmt);
      NothingTaken(program, pos, code, pos, core, n);
    }
  }

  /** Two pieces of code one after the other: a run through both is a run through the first and one through the
      second. */
  lemma ThroughBoth(program: seq<Instruction>, pos: nat, a: seq<Instruction>, b: seq<Instruction>, core: Core, n: nat, after: Core)
    returns (m: nat, mid: Core)
    requires At(program, pos, a + b) && UniqueLabels(program)
    requires JumpsInside(a, LabelsOf(a)) && JumpsInside(b, LabelsOf(b))
    requires Stays(program, Running(pos, core), n, pos, pos + |a| + |b|)
    requires Run(program, Running(pos, core), n) == Some(Running(pos + |a| + |b|, after))
    ensures At(program, pos, a) && At(program, pos + |a|, b) && m <= n
    ensures Stays(program, Running(pos, core), m, pos, pos + |a|)
    ensures Run(program, Running(pos, core), m) == Some(Running(pos + |a|, mid))
    ensures Stays(program, Running(pos + |a|, mid), n - m, pos + |a|, pos + |a| + |b|)
    ensures Run(program, Running(pos + |a|, mid), n - m) == Some(Running(pos + |a| + |b|, after))
    ensures Taken(program, Running(pos, core), n)
         == Taken(program, Running(pos, core), m) + Taken(program, Running(pos + |a|, mid), n - m)
  {
    hide Run, Taken, JumpsInside, LabelsOf, UniqueLabels, Visits;
    AtSplit(program, pos, a, b);
    m, mid := LeavesAtEnd(program, pos, a, pos, core, n);
    RunSplit(program, Running(pos, core), m, n - m, pos, pos + |a| + |b|);
    var k, end := LeavesAtEnd(program, pos + |a|, b, pos + |a|, mid, n - m);
    RunSplit(program, Running(pos + |a|, mid), k, n - m - k, pos, pos + |a| + |b|);
    assert k == n - m;
  }

  lemma LevelParts(stmts: seq<Stmt>)
    requires stmts != [] && Level(stmts)
    ensures (Simple(stmts[0]) || Bytes(stmts[0], false) == 0) && Level(stmts[1..])
  {
    hide Simple, Bytes;
  }

  lemma BlockParts(order: Order, frame: Frame, at: nat, stmts: seq<Stmt>)
    requires stmts != [] && BlockCode(order, frame, at, stmts).Ok?
    ensures StmtCode(order, frame, at, stmts[0]).Ok?
    ensures var first := StmtCode(order, frame, at, stmts[0]).value;
            && BlockCode(order, first.frame, at + |first.code|, stmts[1..]).Ok?
            && BlockCode(order, frame, at, stmts).value.code
               == first.code + BlockCode(order, first.frame, at + |first.code|, stmts[1..]).value.code
  {
    hide StmtCode;
  }

  lemma NoCode(order: Order, frame: Frame, at: nat)
    ensures BlockCode(order, frame, at, []) == Ok(Emitted([], frame))
  {
  }

  lemma PartsSound(order: Order, frame: Frame, at: nat, stmts: seq<Stmt>)
    requires stmts != [] && BlockCode(order, frame, at, stmts).Ok?
    ensures var first := StmtCode(order, frame, at, stmts[0]).value;
            var rest := BlockCode(order, first.frame, at + |first.code|, stmts[1..]).value;
            JumpsInside(first.code, LabelsOf(first.code)) && JumpsInside(rest.code, LabelsOf(rest.code))
  {
    hide StmtCode, JumpsInside, LabelsOf, UniqueLabels;
    var first := StmtCode(order, frame, at, stmts[0]).value;
    StmtClosed(order, frame, at, stmts[0]);
    BlockClosed(order, first.frame, at + |first.code|, stmts[1..]);
  }

  /** A run through a block with all its declarations at the top level makes room for every one of them. */
  lemma {:induction false} LevelTaken(order: Order, frame: Frame, at: nat, pos: nat, stmts: seq<Stmt>, program: seq<Instruction>,
                                      core: Core, n: nat, after: Core)
    requires Located(frame.vars) && BytesIn(stmts, false) <= WORD_MAX && BlockCode(order, frame, at, stmts).Ok?
    requires Level(stmts) && UniqueLabels(program)
    requires At(program, pos, BlockCode(order, frame, at, stmts).value.code)
    requires var code := BlockCode(order, frame, at, stmts).value.code;
             && Stays(program, Running(pos, core), n, pos, pos + |code|)
             && Run(program, Running(pos, core), n) == Some(Running(pos + |code|, after))
    ensures Taken(program, Running(pos, core), n) == BytesIn(stmts, true)
    decreases |stmts|
  {
    hide BlockCode, StmtCode, Run, Stays, Taken, At, Bytes, UniqueLabels, JumpsInside, LabelsOf, Located,
         Accounted, Level, Simple;
    if stmts == [] {
      NoCode(order, frame, at);
      AtEnd(program, pos, core, n, pos);
    } else {
      LevelParts(stmts);
      BlockParts(order, frame, at, stmts);
      var first := StmtCode(order, frame, at, stmts[0]).value;
      var rest := BlockCode(order, first.frame, at + |first.code|, stmts[1..]).value;
      hide BytesIn;
      PartsSound(order, frame, at, stmts);
      StmtAccounted(order, frame, at, stmts[0]);
      var m, mid := ThroughBoth(program, pos, first.code, rest.code, core, n, after);
      StmtTaken(order, frame, at, pos, stmts[0], program, core, m, mid);
      LevelTaken(order, first.frame, at + |first.code|, pos + |first.code|, stmts[1..], program, mid, n - m, after);
    }
  }

  // ---------- conditionals ----------

  /** A run that goes on to the end makes its next step, if that is known. */
  lemma OneStep(program: seq<Instruction>, pc: nat, core: Core, next: State, n: nat, lo: nat, hi: nat, after: Core)
    requires Stays(program, Running(pc, core), n, lo, hi) && Run(program, Running(pc, core), n) == Some(Running(hi, after))
    requires pc < |program| && pc != hi && Run(program, Running(pc, core), 1) == Some(next) && Lowers(program[pc]) == 0
    ensures n >= 1 && Stays(program, next, n - 1, lo, hi) && Run(program, next, n - 1) == Some(Running(hi, after))
    ensures Taken(program, Running(pc, core), n) == Taken(program, next, n - 1)
    ensures forall at: nat :: Visits(program, Running(pc, core), n, at) == (if pc == at then 1 else 0) + Visits(program, next, n - 1, at)
  {
    assert Run(program, next, 0) == Some(next);
    assert Step(program, Running(pc, core)) == Some(next);
  }

  /** A jump that is taken, up to the label. */
  lemma CondJumps(program: seq<Instruction>, pc: nat, target: nat, core: Core)
    requires UniqueLabels(program) && pc < |program| && target < |program|
    requires program[pc].CondJmp? && program[target] == LabelDef(program[pc].target)
    requires core.flags.Flags? && core.flags.zero == program[pc].jmpCond.JmpEq?
    ensures Run(program, Running(pc, core), 1) == Some(Running(target, core))
  {
    JumpReaches(program, program[pc].target, target, core);
    ThenStep(program, Running(pc, core), 0, Running(pc, core), Running(target, core));
  }

  /** Through straight code at the front of a longer run. */
  lemma Front(program: seq<Instruction>, pos: nat, code: seq<Instruction>, core: Core, n: nat, lo: nat, hi: nat, after: Core)
    returns (mid: Core)
    requires At(program, pos, code) && PlainCode(code) && Sum(code) == 0 && UniqueLabels(program)
    requires lo <= pos && pos + |code| <= hi
    requires Stays(program, Running(pos, core), n, lo, hi) && Run(program, Running(pos, core), n) == Some(Running(hi, after))
    ensures Run(program, Running(pos, core), |code|) == Some(Running(pos + |code|, mid))
    ensures n >= |code| && Stays(program, Running(pos + |code|, mid), n - |code|, lo, hi)
    ensures Run(program, Running(pos + |code|, mid), n - |code|) == Some(Running(hi, after))
    ensures Taken(program, Running(pos, core), n) == Taken(program, Running(pos + |code|, mid), n - |code|)
    ensures forall at: nat :: at < pos ==>
              Visits(program, Running(pos, core), n, at) == Visits(program, Running(pos + |code|, mid), n - |code|, at)
  {
    hide Run, Stays, Taken, Visits, At, UniqueLabels, Step, LabelsOf;
    PlainHasNoLabels(code);
    assert JumpsInside(code, LabelsOf(code));
    var m;
    m, mid := LeavesAtEnd(program, pos, code, pos, core, n);
    AllTaken(program, pos, code, 0, core, m, mid);
    assert code[0..] == code;
    RunSplit(program, Running(pos, core), m, n - m, lo, hi);
    forall at: nat | at < pos ensures Visits(program, Running(pos, core), m, at) == 0 {
      NotVisited(program, Running(pos, core), m, pos, pos + |code|, at);
    }
  }

  /** The same code as a piece of straight-line execution. */
  lemma FrontIs(program: seq<Instruction>, pos: nat, code: seq<Instruction>, core: Core, mid: Core, end: Core)
    requires At(program, pos, code) && RunStraight(code, core) == Some(end)
    requires Run(program, Running(pos, core), |code|) == Some(Running(pos + |code|, mid))
    ensures mid == end
  {
    StraightRuns(program, pos, code, core);
  }

  lemma {:induction false} NotVisited(program: seq<Instruction>, state: State, n: nat, lo: nat, hi: nat, at: nat)
    requires Stays(program, state, n, lo, hi) && !(lo <= at < hi)
    ensures Visits(program, state, n, at) == 0
    decreases n
  {
    if n > 0 {
      NotVisited(program, Step(program, state).value, n - 1, lo, hi, at);
    }
  }

  /** Through a block inside a longer run. */
  lemma BlockInside(order: Order, frame: Frame, at: nat, pos: nat, stmts: seq<Stmt>, program: seq<Instruction>,
                    core: Core, n: nat, lo: nat, hi: nat, after: Core) returns (m: nat, mid: Core)
    requires Located(frame.vars) && BytesIn(stmts, false) <= WORD_MAX && BlockCode(order, frame, at, stmts).Ok?
    requires Level(stmts) && UniqueLabels(program)
    requires At(program, pos, BlockCode(order, frame, at, stmts).value.code)
    requires lo <= pos && pos + |BlockCode(order, frame, at, stmts).value.code| < hi
    requires Stays(program, Running(pos, core), n, lo, hi) && Run(program, Running(pos, core), n) == Some(Running(hi, after))
    ensures var end := pos + |BlockCode(order, frame, at, stmts).value.code|;
            && m <= n && Stays(program, Running(end, mid), n - m, lo, hi)
            && Run(program, Running(end, mid), n - m) == Some(Running(hi, after))
            && Taken(program, Running(pos, core), n) == BytesIn(stmts, true) + Taken(program, Running(end, mid), n - m)
            && forall k: nat :: k < pos ==> Visits(program, Running(pos, core), n, k) == Visits(program, Running(end, mid), n - m, k)
  {
    hide BlockCode, Run, Stays, Taken, Visits, At, UniqueLabels, JumpsInside, LabelsOf, Level;
    var code := BlockCode(order, frame, at, stmts).value.code;
    BlockClosed(order, frame, at, stmts);
    m, mid := LeavesAtEnd(program, pos, code, pos, core, n);
    RunSplit(program, Running(pos, core), m, n - m, lo, hi);
    LevelTaken(order, frame, at, pos, stmts, program, core, m, mid);
    forall k: nat | k < pos ensures Visits(program, Running(pos, core), m, k) == 0 {
      NotVisited(program, Running(pos, core), m, pos, pos + |code|, k);
    }
  }

  lemma AtEnd(program: seq<Instruction>, hi: nat, core: Core, n: nat, lo: nat)
    requires Stays(program, Running(hi, core), n, lo, hi)
    ensures n == 0 && Taken(program, Running(hi, core), n) == 0 && forall at: nat :: Visits(program, Running(hi, core), n, at) == 0
  {
  }

  /** A block that a run through the conditional may reach. */
  ghost predicate Reachable(order: Order, frame: Frame, at: nat, pos: nat, stmts: seq<Stmt>, program: seq<Instruction>, end: nat) {
    && Located(frame.vars) && BytesIn(stmts, false) <= WORD_MAX && Level(stmts)
    && BlockCode(order, frame, at, stmts).Ok? && At(program, pos, BlockCode(order, frame, at, stmts).value.code)
    && end == pos + |BlockCode(order, frame, at, stmts).value.code|
  }

  /** The test has passed: the first branch runs and jumps over the second. */
  lemma ThenTaken(order: Order, frame: Frame, at: nat, pos: nat, blk: seq<Stmt>, program: seq<Instruction>, core: Core,
                  n: nat, lo: nat, mergePos: nat, endPos: nat, after: Core)
    requires Reachable(order, frame, at, pos + 1, blk, program, mergePos) && UniqueLabels(program)
    requires lo <= pos && mergePos < endPos < |program| && program[pos].CondJmp? && Lowers(program[pos]) == 0
    requires program[endPos].LabelDef? && program[mergePos] == Jmp(program[endPos].lbl)
    requires core.flags.Flags? && core.flags.zero != program[pos].jmpCond.JmpEq?
    requires Stays(program, Running(pos, core), n, lo, endPos + 1)
    requires Run(program, Running(pos, core), n) == Some(Running(endPos + 1, after))
    ensures Taken(program, Running(pos, core), n) == BytesIn(blk, true)
  {
    hide Run, Stays, Taken, Visits, At, UniqueLabels, BlockCode, Level, BytesIn, Located;
    BranchPassed(program, pos, core);
    OneStep(program, pos, core, Running(pos + 1, core), n, lo, endPos + 1, after);
    var m, mid := BlockInside(order, frame, at, pos + 1, blk, program, core, n - 1, lo, endPos + 1, after);
    ThenJoins(program, mergePos, endPos, mid, n - 1 - m, lo, after);
  }

  /** The test has failed: control jumps to the second branch and runs it. */
  lemma ElseTaken(order: Order, frame: Frame, at: nat, pos: nat, els: seq<Stmt>, program: seq<Instruction>, core: Core,
                  n: nat, lo: nat, lbl: nat, endPos: nat, after: Core)
    requires Reachable(order, frame, at, lbl + 1, els, program, endPos) && UniqueLabels(program)
    requires lo <= pos < lbl < endPos < |program| && program[pos].CondJmp? && Lowers(program[pos]) == 0
    requires program[lbl] == LabelDef(program[pos].target) && program[endPos].LabelDef?
    requires core.flags.Flags? && core.flags.zero == program[pos].jmpCond.JmpEq?
    requires Stays(program, Running(pos, core), n, lo, endPos + 1)
    requires Run(program, Running(pos, core), n) == Some(Running(endPos + 1, after))
    ensures Taken(program, Running(pos, core), n) == BytesIn(els, true)
  {
    hide Run, Stays, Taken, Visits, At, UniqueLabels, BlockCode, Level, BytesIn, Located;
    CondJumps(program, pos, lbl, core);
    OneStep(program, pos, core, Running(lbl, core), n, lo, endPos + 1, after);
    StepLabel(program, lbl, core);
    OneStep(program, lbl, core, Running(lbl + 1, core), n - 1, lo, endPos + 1, after);
    var m, mid := BlockInside(order, frame, at, lbl + 1, els, program, core, n - 2, lo, endPos + 1, after);
    ElseJoins(program, endPos, mid, n - 2 - m, lo, after);
  }

  /** A conditional whose branches declare at their top level takes what the chosen branch pushes. */
  lemma IfTaken(order: Order, frame: Frame, at: nat, pos: nat, cond: Expr, blk: seq<Stmt>, els: seq<Stmt>,
                program: seq<Instruction>, types: map<Ident, Ty>, env: Env, core: Core, base: int, n: nat, after: Core)
    returns (b: bool)
    requires CondOk(cond, types) && Related(frame.vars, frame.currentStack, types, env, core, base) && Located(frame.vars)
    requires Bytes(If(cond, blk, els), false) <= WORD_MAX && StmtCode(order, frame, at, If(cond, blk, els)).Ok?
    requires Level(blk) && Level(els) && UniqueLabels(program)
    requires Through(program, pos, StmtCode(order, frame, at, If(cond, blk, els)).value.code, core, n, after)
    ensures Eval(false, cond, env) == Some(BoolVal(b))
    ensures Taken(program, Running(pos, core), n) == BytesIn(if b then blk else els, true)
  {
    hide Run, Stays, Taken, Visits, At, UniqueLabels, Related, CondCode, BlockCode, Level, CondOk, Eval, BytesIn,
         RunStraight, Located, Accounted, PlainCode;
    var test := CondCode(order, frame, cond).value;
    var elseAt, elsePos := at + |test.code|, pos + |test.code|;
    var thn := BlockCode(order, test.frame, elseAt + 1, blk).value;
    var mergeAt, mergePos := elseAt + 1 + |thn.code|, elsePos + 1 + |thn.code|;
    var otherwise := BlockCode(order, thn.frame, mergeAt + 2, els).value;
    var endPos := mergePos + 2 + |otherwise.code|;
    IfLayout(program, at, pos, test.code, thn.code, otherwise.code);
    CondAccounted(order, frame, cond);
    CondPlain(order, frame, cond);
    BlockAccounted(order, test.frame, elseAt + 1, blk);
    var tested;
    b, tested := CondRuns(order, frame, cond, types, env, core, base);
    SumIsZero(test.code);
    var front := Front(program, pos, test.code, core, n, pos, endPos + 1, after);
    FrontIs(program, pos, test.code, core, front, tested);
    var left := n - |test.code|;
    if b {
      assert Reachable(order, test.frame, elseAt + 1, elsePos + 1, blk, program, mergePos);
      ThenTaken(order, test.frame, elseAt + 1, elsePos, blk, program, tested, left, pos, mergePos, endPos, after);
    } else {
      assert Reachable(order, thn.frame, mergeAt + 2, mergePos + 2, els, program, endPos);
      ElseTaken(order, thn.frame, mergeAt + 2, elsePos, els, program, tested, left, pos, mergePos + 1, endPos, after);
    }
  }

  lemma ElseJoins(program: seq<Instruction>, endPos: nat, core: Core, n: nat, lo: nat, after: Core)
    requires lo <= endPos < |program| && program[endPos].LabelDef?
    requires Stays(program, Running(endPos, core), n, lo, endPos + 1)
    requires Run(program, Running(endPos, core), n) == Some(Running(endPos + 1, after))
    ensures Taken(program, Running(endPos, core), n) == 0
  {
    hide Run, Stays, Taken, Visits;
    StepLabel(program, endPos, core);
    OneStep(program, endPos, core, Running(endPos + 1, core), n, lo, endPos + 1, after);
    AtEnd(program, endPos + 1, core, n - 1, lo);
  }

  lemma ThenJoins(program: seq<Instruction>, mergePos: nat, endPos: nat, core: Core, n: nat, lo: nat, after: Core)
    requires lo <= mergePos < endPos < |program| && UniqueLabels(program)
    requires program[endPos].LabelDef? && program[mergePos] == Jmp(program[endPos].lbl)
    requires Stays(program, Running(mergePos, core), n, lo, endPos + 1)
    requires Run(program, Running(mergePos, core), n) == Some(Running(endPos + 1, after))
    ensures Taken(program, Running(mergePos, core), n) == 0
  {
    hide Run, Stays, Taken, Visits, UniqueLabels;
    StepJump(program, mergePos, endPos, core);
    OneStep(program, mergePos, core, Running(endPos, core), n, lo, endPos + 1, after);
    ElseJoins(program, endPos, core, n - 1, lo, after);
  }

  lemma RelatedInStep(frame: Frame, types: map<Ident, Ty>, env: Env, core: Core, base: int)
    requires Related(frame.vars, frame.currentStack, types, env, core, base)
    ensures InStep(core, frame)
  {
  }

  /** After a conditional whose branches declare variables the stack pointer lags by the bytes of the branch that
      was not taken, and by 8 for each enum without variants in the other one; so it is where the generator takes it
      to be if and only if there are none. */
  lemma IfInStepExactly(order: Order, frame: Frame, at: nat, pos: nat, cond: Expr, blk: seq<Stmt>, els: seq<Stmt>,
                        program: seq<Instruction>, types: map<Ident, Ty>, env: Env, core: Core, base: int, n: nat, after: Core)
    returns (b: bool)
    requires CondOk(cond, types) && Related(frame.vars, frame.currentStack, types, env, core, base) && Located(frame.vars)
    requires Bytes(If(cond, blk, els), false) <= WORD_MAX && StmtCode(order, frame, at, If(cond, blk, els)).Ok?
    requires Level(blk) && Level(els) && UniqueLabels(program)
    requires Through(program, pos, StmtCode(order, frame, at, If(cond, blk, els)).value.code, core, n, after)
    ensures Eval(false, cond, env) == Some(BoolVal(b))
    ensures var (taken, other) := if b then (blk, els) else (els, blk);
            var next := StmtCode(order, frame, at, If(cond, blk, els)).value.frame;
            && Lag(after, next) == BytesIn(other, false) + (BytesIn(taken, false) - BytesIn(taken, true))
            && (InStep(after, next) <==> BytesIn(other, false) == 0 && BytesIn(taken, true) == BytesIn(taken, false))
  {
    b := IfTaken(order, frame, at, pos, cond, blk, els, program, types, env, core, base, n, after);
    RelatedInStep(frame, types, env, core, base);
    hide Through, Related, StmtCode, BytesIn;
    StmtInStepExactly(order, frame, at, pos, If(cond, blk, els), program, core, n, after);
    PushedWithinBlock(if b then blk else els);
  }

  // ---------- loops ----------

  /** The code of a loop in a program. */
  ghost predicate LoopLaid(order: Order, frame: Frame, at: nat, pos: nat, cond: Expr, blk: seq<Stmt>, body: Emitted,
                           test: Emitted, program: seq<Instruction>) {
    && UniqueLabels(program) && Located(frame.vars) && BytesIn(blk, false) <= WORD_MAX && Level(blk)
    && BlockCode(order, frame, at + 2, blk) == Ok(body)
    && LoopTest(order, body.frame, cond, JmpWhile(at + 1)) == Ok(test)
    && At(program, pos, [Jmp(UncondWhile(at)), LabelDef(JmpWhile(at + 1))] + body.code + [LabelDef(UncondWhile(at))] + test.code)
  }

  /** The test at the bottom: out of the loop, or to the label of the body. */
  lemma TestGoes(order: Order, frame: Frame, at: nat, pos: nat, cond: Expr, blk: seq<Stmt>, body: Emitted, test: Emitted,
                 program: seq<Instruction>, core: Core, n: nat, after: Core) returns (m: nat, again: bool, mid: Core)
    requires LoopLaid(order, frame, at, pos, cond, blk, body, test, program)
    requires var testPos := pos + 2 + |body.code|; var end := testPos + 1 + |test.code|;
             && Stays(program, Running(testPos, core), n, pos, end)
             && Run(program, Running(testPos, core), n) == Some(Running(end, after))
    ensures var testPos := pos + 2 + |body.code|; var end := testPos + 1 + |test.code|;
            var next := Running(if again then pos + 1 else end, mid);
            && 0 < m <= n && Stays(program, next, n - m, pos, end) && Run(program, next, n - m) == Some(Running(end, after))
            && Taken(program, Running(testPos, core), n) == Taken(program, next, n - m)
            && Visits(program, Running(testPos, core), n, pos + 1) == Visits(program, next, n - m, pos + 1)
  {
    hide Run, Stays, Taken, Visits, At, UniqueLabels, CondCode, BlockCode, Level, BytesIn, Accounted, PlainCode, Located;
    WhileLayout(program, at, pos, body.code, test.code);
    var testPos := pos + 2 + |body.code|;
    var end := testPos + 1 + |test.code|;
    StepLabel(program, testPos, core);
    OneStep(program, testPos, core, Running(testPos + 1, core), n, pos, end, after);
    if IsConstTrue(cond) {
      m, again, mid := 2, true, core;
      AtOne(program, testPos + 1, Jmp(JmpWhile(at + 1)));
      StepJump(program, testPos + 1, pos + 1, core);
      OneStep(program, testPos + 1, core, Running(pos + 1, core), n - 1, pos, end, after);
    } else {
      var code := CondCode(order, body.frame, cond).value.code;
      var jumpPos := testPos + 1 + |code|;
      AtSplit(program, testPos + 1, code, [CondJmp(JmpWhile(at + 1), JmpEq)]);
      AtOne(program, jumpPos, CondJmp(JmpWhile(at + 1), JmpEq));
      BlockAccounted(order, frame, at + 2, blk);
      CondAccounted(order, body.frame, cond);
      CondPlain(order, body.frame, cond);
      SumIsZero(code);
      mid := Front(program, testPos + 1, code, core, n - 1, pos, end, after);
      again := CondGoes(program, jumpPos, pos + 1, mid, n - 1 - |code|, pos, end, after);
      m := 1 + |code| + 1;
    }
  }

  lemma SumIsZero(code: seq<Instruction>)
    requires Accounted(code, 0)
    ensures Sum(code) == 0
  {
  }

  /** A conditional jump in a run that goes on: taken or passed. */
  lemma CondGoes(program: seq<Instruction>, pc: nat, target: nat, core: Core, n: nat, lo: nat, hi: nat, after: Core)
    returns (jumps: bool)
    requires UniqueLabels(program) && pc < |program| && target < |program| && pc != hi
    requires program[pc].CondJmp? && program[target] == LabelDef(program[pc].target)
    requires Stays(program, Running(pc, core), n, lo, hi) && Run(program, Running(pc, core), n) == Some(Running(hi, after))
    ensures var next := Running(if jumps then target else pc + 1, core);
            && n >= 1 && Stays(program, next, n - 1, lo, hi) && Run(program, next, n - 1) == Some(Running(hi, after))
            && Taken(program, Running(pc, core), n) == Taken(program, next, n - 1)
            && forall at: nat :: at != pc ==> Visits(program, Running(pc, core), n, at) == Visits(program, next, n - 1, at)
  {
    assert n > 0 && core.flags.Flags?;
    jumps := core.flags.zero == program[pc].jmpCond.JmpEq?;
    if jumps {
      CondJumps(program, pc, target, core);
    } else {
      BranchPassed(program, pc, core);
    }
    hide Run, Stays, Taken, Visits, UniqueLabels;
    OneStep(program, pc, core, Running(if jumps then target else pc + 1, core), n, lo, hi, after);
  }

  /** From the test on: the loop takes what its body pushes, once for every round. A round starts at the label of
      the body. */
  lemma {:induction false} LoopTaken(order: Order, frame: Frame, at: nat, pos: nat, cond: Expr, blk: seq<Stmt>, body: Emitted,
                                     test: Emitted, program: seq<Instruction>, core: Core, n: nat, after: Core)
    requires LoopLaid(order, frame, at, pos, cond, blk, body, test, program)
    requires var testPos := pos + 2 + |body.code|; var end := testPos + 1 + |test.code|;
             && Stays(program, Running(testPos, core), n, pos, end)
             && Run(program, Running(testPos, core), n) == Some(Running(end, after))
    ensures var s := Running(pos + 2 + |body.code|, core);
            Taken(program, s, n) == Visits(program, s, n, pos + 1) * BytesIn(blk, true)
    decreases n
  {
    hide Run, Stays, Taken, Visits, At, UniqueLabels, LoopTest, BlockCode, Level, BytesIn, Located;
    WhileLayout(program, at, pos, body.code, test.code);
    var testPos := pos + 2 + |body.code|;
    var end := testPos + 1 + |test.code|;
    var m, again, mid := TestGoes(order, frame, at, pos, cond, blk, body, test, program, core, n, after);
    if !again {
      AtEnd(program, end, mid, n - m, pos);
    } else {
      StepLabel(program, pos + 1, mid);
      OneStep(program, pos + 1, mid, Running(pos + 2, mid), n - m, pos, end, after);
      var k, round := BlockInside(order, frame, at + 2, pos + 2, blk, program, mid, n - m - 1, pos, end, after);
      LoopTaken(order, frame, at, pos, cond, blk, body, test, program, round, n - m - 1 - k, after);
      OneMore(Visits(program, Running(testPos, round), n - m - 1 - k, pos + 1), BytesIn(blk, true));
    }
  }

  lemma OneMore(rounds: nat, bytes: nat)
    ensures (1 + rounds) * bytes == bytes + rounds * bytes
    ensures rounds * bytes == bytes <==> bytes == 0 || rounds == 1
  {
    if bytes != 0 && rounds > 1 {
      assert rounds * bytes == bytes + (rounds - 1) * bytes;
      assert (rounds - 1) * bytes >= bytes;
    }
  }

  /** After a loop whose body declares variables the stack pointer lags by what the body declares, less what each
      round pushed. Without enums that have no variants it is where the generator takes it to be if and only if the
      body declares nothing or ran exactly once. */
  lemma LoopInStepExactly(order: Order, frame: Frame, at: nat, pos: nat, cond: Expr, blk: seq<Stmt>, program: seq<Instruction>,
                          core: Core, n: nat, after: Core)
    requires Located(frame.vars) && Bytes(While(cond, blk), false) <= WORD_MAX && StmtCode(order, frame, at, While(cond, blk)).Ok?
    requires Level(blk) && UniqueLabels(program)
    requires Through(program, pos, StmtCode(order, frame, at, While(cond, blk)).value.code, core, n, after)
    requires InStep(core, frame)
    ensures var rounds := Visits(program, Running(pos, core), n, pos + 1);
            var next := StmtCode(order, frame, at, While(cond, blk)).value.frame;
            && Lag(after, next) == BytesIn(blk, false) - rounds * BytesIn(blk, true)
            && (BytesIn(blk, true) == BytesIn(blk, false) ==>
                  (InStep(after, next) <==> BytesIn(blk, false) == 0 || rounds == 1))
  {
    hide Run, Stays, Taken, Visits, At, UniqueLabels, LoopTest, BlockCode, Level, BytesIn, Located;
    var body := BlockCode(order, frame, at + 2, blk).value;
    var test := LoopTest(order, body.frame, cond, JmpWhile(at + 1)).value;
    WhileLayout(program, at, pos, body.code, test.code);
    var testPos := pos + 2 + |body.code|;
    var end := testPos + 1 + |test.code|;
    StepJump(program, pos, testPos, core);
    OneStep(program, pos, core, Running(testPos, core), n, pos, end, after);
    LoopTaken(order, frame, at, pos, cond, blk, body, test, program, core, n - 1, after);
    StmtInStepExactly(order, frame, at, pos, While(cond, blk), program, core, n, after);
    OneMore(Visits(program, Running(pos, core), n, pos + 1), BytesIn(blk, true));
  }
}
