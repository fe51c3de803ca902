/** `match` on an enum in the frame: the chain of comparisons reaches the first arm for the stored tag,
    the names of its pattern are the slots of the payload, and its block runs as the source says. */
module MatchProof {
  import opened Words
  import opened Lir
  import opened Machine
  import opened AsmSpec
  import opened ExprProof
  import opened StmtProof
  import opened FrameProof
  import opened StructProof
  import opened EnumProof
  import opened Labels
  import opened MatchLabels
  import Layout

  // ---------- the chain of comparisons ----------

  /** Only the flags differ. */
  predicate SameButFlags(before: Core, after: Core) {
    after == before.(flags := after.flags)
  }

  /** The number of the first arm for a tag, or the number of arms. */
  function FirstArm(arms: seq<Arm>, tag: int): (j: nat)
    ensures j <= |arms|
    ensures forall i :: 0 <= i < j ==> arms[i].variant != tag
    ensures j < |arms| ==> arms[j].variant == tag
  {
    if arms == [] || arms[0].variant == tag then 0 else FirstArm(arms[1..], tag) + 1
  }

  /** One comparison: taken, it lands behind the arm's label; passed, behind the jump. */
  lemma TestRuns(program: seq<Instruction>, pos: nat, variant: nat, loc: Location, lbl: Label, target: nat,
                 core: Core, tag: word) returns (n: nat, after: Core)
    requires At(program, pos, Test(variant, loc, lbl)) && UniqueLabels(program)
    requires target < |program| && program[target] == LabelDef(lbl)
    requires loc.NumberedOffset? && Read(core, loc) == Some(tag) && variant <= IMM_MAX
    ensures SameButFlags(core, after)
    ensures Run(program, Running(pos, core), n) == Some(Running(if tag == variant then target + 1 else pos + 2, after))
  {
    var cmp, jump := Cmp(Const(IntVal(variant)), loc), CondJmp(lbl, JmpEq);
    AtSplit(program, pos, [cmp], [jump]);
    AtOne(program, pos, cmp);
    AtOne(program, pos + 1, jump);
    after := core.(flags := Compare(tag, variant));
    CompareIsOrder(tag, variant);
    assert Step(program, Running(pos, core)) == Some(Running(pos + 1, after));
    ThenStep(program, Running(pos, core), 0, Running(pos, core), Running(pos + 1, after));
    hide Run, Step, StepCore;
    if tag == variant {
      BranchTaken(program, pos + 1, target, after);
      Chain(program, Running(pos, core), 1, Running(pos + 1, after), 2, Running(target + 1, after));
      n := 3;
    } else {
      BranchPassed(program, pos + 1, after);
      Chain(program, Running(pos, core), 1, Running(pos + 1, after), 1, Running(pos + 2, after));
      n := 2;
    }
  }

  ghost predicate SmallTags(arms: seq<Arm>) {
    forall i :: 0 <= i < |arms| ==> arms[i].variant <= IMM_MAX
  }

  /** Where the chain ends: at the block of the first arm for the tag, or behind the last comparison. */
  function Landing(pos: nat, blocks: nat, order: Order, frame: Frame, at: nat, tag: Location,
                   variants: seq<Variant>, arms: seq<Arm>, merge: Label, t: word): nat
    requires tag.NumberedOffset? && ArmsCode(order, frame, at, tag, variants, arms, merge).Ok?
  {
    var j := FirstArm(arms, t);
    if j < |arms| then blocks + SpotOf(order, frame, at, tag, variants, arms, merge, j).start
    else pos + |ArmsCode(order, frame, at, tag, variants, arms, merge).value.chain|
  }

  lemma LandingStep(pos: nat, blocks: nat, order: Order, frame: Frame, at: nat, tag: Location,
                    variants: seq<Variant>, arms: seq<Arm>, merge: Label, t: word)
    requires tag.NumberedOffset? && ArmsCode(order, frame, at, tag, variants, arms, merge).Ok? && arms != []
    ensures var first := ArmCode(order, frame, at, tag, variants, arms[0], merge);
            && first.Ok?
            && ArmsCode(order, first.value.frame, at + |first.value.chain|, tag, variants, arms[1..], merge).Ok?
            && Landing(pos, blocks, order, frame, at, tag, variants, arms, merge, t) ==
               if t == arms[0].variant then blocks + 1
               else Landing(pos + 2, blocks + |first.value.blocks|, order, first.value.frame, at + |first.value.chain|, tag,
                            variants, arms[1..], merge, t)
  {
    ArmsParts(order, frame, at, tag, variants, arms, merge);
    hide Bind, BlockCode, ArmCode, ArmsCode, Test;
  }

  /** The chain reaches the block of the first arm for the tag; without one it runs to its end. */
  lemma {:induction false} ChainRuns(
      program: seq<Instruction>, pos: nat, blocks: nat, order: Order, frame: Frame, at: nat, tag: Location,
      variants: seq<Variant>, arms: seq<Arm>, merge: Label, core: Core, t: word) returns (n: nat, after: Core)
    requires tag.NumberedOffset? && ArmsCode(order, frame, at, tag, variants, arms, merge).Ok? && SmallTags(arms)
    requires var split := ArmsCode(order, frame, at, tag, variants, arms, merge).value;
             At(program, pos, split.chain) && At(program, blocks, split.blocks)
    requires UniqueLabels(program) && Read(core, tag) == Some(t)
    ensures SameButFlags(core, after)
    ensures Run(program, Running(pos, core), n)
            == Some(Running(Landing(pos, blocks, order, frame, at, tag, variants, arms, merge, t), after))
    decreases |arms|
  {
    hide Run, UniqueLabels, At, ArmCode, ArmsCode, Landing, Test, Read, SameButFlags, SmallTags;
    if arms == [] {
      n, after := 0, core;
      NoStep(program, Running(pos, core));
      LandingNone(pos, blocks, order, frame, at, tag, variants, merge, t);
      FlagsSame(core);
    } else {
      ArmsParts(order, frame, at, tag, variants, arms, merge);
      LandingStep(pos, blocks, order, frame, at, tag, variants, arms, merge, t);
      SmallTagsRest(arms);
      var first := ArmCode(order, frame, at, tag, variants, arms[0], merge).value;
      var rest := ArmsCode(order, first.frame, at + |first.chain|, tag, variants, arms[1..], merge).value;
      AtSplit(program, pos, first.chain, rest.chain);
      AtSplit(program, blocks, first.blocks, rest.blocks);
      var lbl := MatchArm(at, arms[0].variant);
      BlockLabel(program, blocks, lbl, first.blocks);
      n, after := TestRuns(program, pos, arms[0].variant, tag, lbl, blocks, core, t);
      if t != arms[0].variant {
        FlagsUnread(core, after, tag);
        var m, final := ChainRuns(program, pos + 2, blocks + |first.blocks|, order, first.frame, at + |first.chain|, tag,
                                  variants, arms[1..], merge, after, t);
        Chain(program, Running(pos, core), n, Running(pos + 2, after), m,
              Running(Landing(pos, blocks, order, frame, at, tag, variants, arms, merge, t), final));
        FlagsTrans(core, after, final);
        n, after := n + m, final;
      }
    }
  }

  lemma LandingNone(pos: nat, blocks: nat, order: Order, frame: Frame, at: nat, tag: Location,
                    variants: seq<Variant>, merge: Label, t: word)
    requires tag.NumberedOffset?
    ensures ArmsCode(order, frame, at, tag, variants, [], merge).Ok?
    ensures Landing(pos, blocks, order, frame, at, tag, variants, [], merge, t) == pos
  {
  }

  lemma SmallTagsRest(arms: seq<Arm>)
    requires SmallTags(arms) && arms != []
    ensures arms[0].variant <= IMM_MAX && SmallTags(arms[1..])
  {
  }

  lemma FlagsSame(core: Core)
    ensures SameButFlags(core, core)
  {
  }

  lemma FlagsTrans(a: Core, b: Core, c: Core)
    requires SameButFlags(a, b) && SameButFlags(b, c)
    ensures SameButFlags(a, c)
  {
  }

  lemma FlagsUnread(before: Core, after: Core, loc: Location)
    requires SameButFlags(before, after)
    ensures Read(after, loc) == Read(before, loc)
  {
  }

  lemma BlockLabel(program: seq<Instruction>, pos: nat, lbl: Label, block: seq<Instruction>)
    requires At(program, pos, block) && block != [] && block[0] == LabelDef(lbl)
    ensures pos < |program| && program[pos] == LabelDef(lbl)
  {
    assert program[pos] == program[pos..pos + |block|][0];
  }

  /** The block found is really there, followed by the jump to the end of the match. */
  lemma {:induction false} SpotPlaced(
      program: seq<Instruction>, blocks: nat, order: Order, frame: Frame, at: nat, tag: Location,
      variants: seq<Variant>, arms: seq<Arm>, merge: Label, j: nat)
    requires tag.NumberedOffset? && ArmsCode(order, frame, at, tag, variants, arms, merge).Ok? && j < |arms|
    requires At(program, blocks, ArmsCode(order, frame, at, tag, variants, arms, merge).value.blocks)
    ensures var spot := SpotOf(order, frame, at, tag, variants, arms, merge, j);
            && At(program, blocks + spot.start, spot.body) && At(program, blocks + spot.start + |spot.body|, [Jmp(merge)])
            && BlockCode(order, spot.frame, 1, arms[j].body).Ok?
            && spot.body == BlockCode(order, spot.frame, 1, arms[j].body).value.code
    decreases j
  {
    hide At, Bind, BlockCode, ArmsCode;
    ArmsParts(order, frame, at, tag, variants, arms, merge);
    var first := ArmCode(order, frame, at, tag, variants, arms[0], merge).value;
    var rest := ArmsCode(order, first.frame, at + |first.chain|, tag, variants, arms[1..], merge).value;
    AtSplit(program, blocks, first.blocks, rest.blocks);
    if j == 0 {
      var spot := SpotOf(order, frame, at, tag, variants, arms, merge, 0);
      AtSplit(program, blocks, [LabelDef(MatchArm(at, arms[0].variant))] + spot.body, [Jmp(merge)]);
      AtSplit(program, blocks, [LabelDef(MatchArm(at, arms[0].variant))], spot.body);
    } else {
      hide ArmCode;
      SpotPlaced(program, blocks + |first.blocks|, order, first.frame, at + |first.chain|, tag, variants, arms[1..], merge, j - 1);
    }
  }

  // ---------- the names of a pattern ----------

  function BindTypes(types: map<Ident, Ty>, binds: seq<Ident>, vals: seq<Val>): map<Ident, Ty>
    requires |binds| <= |vals|
    decreases |binds|
  {
    if binds == [] then types
    else
      var last := |binds| - 1;
      BindTypes(types, binds[..last], vals)[binds[last] := vals[last].TypeOf()]
  }

  /** The environment in which the source runs the block of an arm. */
  function BindEnv(env: Env, binds: seq<Ident>, vals: seq<Val>): Env
    requires |binds| <= |vals|
    decreases |binds|
  {
    if binds == [] then env
    else
      var last := |binds| - 1;
      BindEnv(env, binds[..last], vals)[binds[last] := vals[last]]
  }

  lemma {:induction false} BindTypesKeys(types: map<Ident, Ty>, binds: seq<Ident>, vals: seq<Val>, x: Ident)
    requires |binds| <= |vals|
    ensures x in BindTypes(types, binds, vals) <==> x in types || x in binds
    decreases |binds|
  {
    if binds != [] {
      var last := |binds| - 1;
      BindTypesKeys(types, binds[..last], vals, x);
      assert binds == binds[..last] + [binds[last]];
    }
  }

  /** Item `k` of the payload of the value at `top`. */
  predicate PayloadAt(core: Core, top: nat, k: nat, v: Val) {
    8 * (k + 1) <= top && Read(core, NumberedOffset(top - 8 * (k + 1), RBP)) == Some(Encode(v))
  }

  /** The payload `vals` of the value at `top`. */
  ghost predicate Payload(core: Core, top: nat, vals: seq<Val>) {
    forall k :: 0 <= k < |vals| ==> PayloadAt(core, top, k, vals[k])
  }

  /** A name for a cell that holds a value becomes a variable with that value. */
  lemma BindOne(vars: map<Ident, Location>, size: nat, types: map<Ident, Ty>, env: Env, core: Core, base: int,
                x: Ident, offset: nat, v: Val)
    requires Related(vars, size, types, env, core, base) && x !in types
    requires 8 <= offset <= size && offset % 8 == 0
    requires forall y :: y in types ==> vars[y] != NumberedOffset(offset, RBP)
    requires Read(core, NumberedOffset(offset, RBP)) == Some(Encode(v))
    ensures Related(vars[x := NumberedOffset(offset, RBP)], size, types[x := v.TypeOf()], env[x := v], core, base)
  {
  }

  ghost predicate ApartFrom(vars: map<Ident, Location>, names: set<Ident>, depth: nat, low: nat) {
    forall x :: x in names ==> x in vars && vars[x].NumberedOffset? && (vars[x].offset <= depth || vars[x].offset >= low)
  }

  /** The names of a pattern extend the environment by the payload. */
  lemma {:induction false} BindRelated(vars: map<Ident, Location>, size: nat, types: map<Ident, Ty>, env: Env, core: Core,
                                       base: int, binds: seq<Ident>, vals: seq<Val>, top: nat, depth: nat)
    requires Related(vars, size, types, env, core, base) && AllAbove(vars, types.Keys, depth)
    requires Unrepeated(binds) && |binds| <= |vals| && forall x :: x in binds ==> x !in types
    requires Payload(core, top, vals) && top <= size && top % 8 == 0 && depth + 8 * |vals| < top
    requires Bind(vars, binds, top, RBP).Ok?
    ensures Related(Bind(vars, binds, top, RBP).value, size, BindTypes(types, binds, vals), BindEnv(env, binds, vals), core, base)
    ensures ApartFrom(Bind(vars, binds, top, RBP).value, BindTypes(types, binds, vals).Keys, depth, top - 8 * |binds|)
    decreases |binds|
  {
    hide Related, Read;
    if binds != [] {
      hide AllAbove;
      var last := |binds| - 1;
      var x, offset := binds[last], top - 8 * (last + 1);
      BindRelated(vars, size, types, env, core, base, binds[..last], vals, top, depth);
      BindTypesKeys(types, binds[..last], vals, x);
      PayloadItem(core, top, vals, last);
      hide Payload, BindTypes;
      var before := Bind(vars, binds[..last], top, RBP).value;
      ApartGrows(before, BindTypes(types, binds[..last], vals).Keys, depth, top - 8 * last, x);
      BindOne(before, size, BindTypes(types, binds[..last], vals), BindEnv(env, binds[..last], vals), core, base, x, offset,
              vals[last]);
      BindTypesStep(types, binds, vals);
    }
  }

  lemma BindTypesStep(types: map<Ident, Ty>, binds: seq<Ident>, vals: seq<Val>)
    requires 0 < |binds| <= |vals|
    ensures var last := |binds| - 1;
            && BindTypes(types, binds, vals) == BindTypes(types, binds[..last], vals)[binds[last] := vals[last].TypeOf()]
            && BindTypes(types, binds, vals).Keys == BindTypes(types, binds[..last], vals).Keys + {binds[last]}
  {
  }

  lemma PayloadItem(core: Core, top: nat, vals: seq<Val>, k: nat)
    requires Payload(core, top, vals) && k < |vals|
    ensures 8 * (k + 1) <= top && Read(core, NumberedOffset(top - 8 * (k + 1), RBP)) == Some(Encode(vals[k]))
  {
  }

  lemma ApartGrows(vars: map<Ident, Location>, names: set<Ident>, depth: nat, low: nat, x: Ident)
    requires ApartFrom(vars, names, depth, low) && depth + 8 < low
    ensures forall y :: y in names ==> y in vars && vars[y] != NumberedOffset(low - 8, RBP)
    ensures x !in names ==> ApartFrom(vars[x := NumberedOffset(low - 8, RBP)], names + {x}, depth, low - 8)
  {
  }

  // ---------- the blocks ----------

  /** No arm declares anything, and no pattern repeats a name or takes one that is in use. */
  ghost predicate ArmsOk(arms: seq<Arm>, names: set<Ident>) {
    forall i :: 0 <= i < |arms| ==>
      NothingIn(arms[i].body) && Unrepeated(arms[i].binds) && forall x :: x in arms[i].binds ==> x !in names
  }

  lemma {:induction false} BindKeeps(vars: map<Ident, Location>, binds: seq<Ident>, offset: nat, base: Register, x: Ident)
    requires Bind(vars, binds, offset, base).Ok? && x !in binds && x in vars
    ensures x in Bind(vars, binds, offset, base).value && Bind(vars, binds, offset, base).value[x] == vars[x]
    decreases |binds|
  {
    if binds != [] {
      BindKeeps(vars, binds[..|binds| - 1], offset, base, x);
    }
  }

  predicate Agree(a: map<Ident, Location>, b: map<Ident, Location>, names: set<Ident>) {
    forall x :: x in names && x in a ==> x in b && b[x] == a[x]
  }

  /** When the block of an arm is generated, the names of its own pattern are bound on top of a frame in
      which no outside variable has moved. */
  lemma {:induction false} SpotFrame(
      order: Order, frame: Frame, at: nat, tag: Location, variants: seq<Variant>, arms: seq<Arm>, merge: Label, j: nat,
      names: set<Ident>) returns (before: Frame)
    requires tag.NumberedOffset? && ArmsCode(order, frame, at, tag, variants, arms, merge).Ok? && j < |arms|
    requires ArmsOk(arms, names)
    ensures before.currentStack == frame.currentStack && Agree(frame.vars, before.vars, names)
    ensures Bind(before.vars, arms[j].binds, tag.offset, tag.base).Ok?
    ensures SpotOf(order, frame, at, tag, variants, arms, merge, j).frame
            == before.(vars := Bind(before.vars, arms[j].binds, tag.offset, tag.base).value)
    decreases j
  {
    hide BlockCode;
    if j == 0 {
      before := frame;
    } else {
      var first := ArmCode(order, frame, at, tag, variants, arms[0], merge).value;
      var bound := frame.(vars := Bind(frame.vars, arms[0].binds, tag.offset, tag.base).value);
      BlockFrameStays(order, bound, 1, arms[0].body);
      forall x | x in names && x in frame.vars ensures x in bound.vars && bound.vars[x] == frame.vars[x] {
        BindKeeps(frame.vars, arms[0].binds, tag.offset, tag.base, x);
      }
      before := SpotFrame(order, first.frame, at + |first.chain|, tag, variants, arms[1..], merge, j - 1, names);
    }
  }

  lemma RelatedAgrees(a: map<Ident, Location>, b: map<Ident, Location>, size: nat, types: map<Ident, Ty>, env: Env,
                      core: Core, base: int)
    requires Related(a, size, types, env, core, base) && Agree(a, b, types.Keys)
    ensures Related(b, size, types, env, core, base)
  {
  }

  // ---------- match as a whole ----------

  /** The arm that runs: the first for the tag; when there is none, control falls into the first arm. */
  function Chosen(arms: seq<Arm>, tag: int): (j: nat)
    requires arms != []
    ensures j < |arms|
    ensures arms[j].variant == tag <==> exists i :: 0 <= i < |arms| && arms[i].variant == tag
    ensures arms[j].variant == tag ==> forall i :: 0 <= i < j ==> arms[i].variant != tag
  {
    var j := FirstArm(arms, tag);
    if j < |arms| then j else 0
  }

  ghost predicate MatchAt(program: seq<Instruction>, pos: nat, order: Order, frame: Frame, at: nat, name: Ident,
                          variants: seq<Variant>, arms: seq<Arm>) {
    && MatchCode(order, frame, at, name, variants, arms).Ok?
    && At(program, pos, MatchCode(order, frame, at, name, variants, arms).value.code)
  }

  lemma MatchEmitted(program: seq<Instruction>, pos: nat, order: Order, frame: Frame, at: nat, name: Ident,
                     variants: seq<Variant>, arms: seq<Arm>)
    requires MatchAt(program, pos, order, frame, at, name, variants, arms)
    ensures MatchCode(order, frame, at, name, variants, arms).Ok?
  {
  }

  /** The pieces of a match. */
  lemma MatchLayout(program: seq<Instruction>, pos: nat, order: Order, frame: Frame, at: nat, name: Ident,
                    variants: seq<Variant>, arms: seq<Arm>)
    requires MatchAt(program, pos, order, frame, at, name, variants, arms)
    ensures name in frame.vars && frame.vars[name].NumberedOffset?
    ensures var merge := MatchMerge(at);
            && ArmsCode(order, frame, at, frame.vars[name], variants, arms, merge).Ok?
            && var split := ArmsCode(order, frame, at, frame.vars[name], variants, arms, merge).value;
               var end := pos + |split.chain| + |split.blocks|;
               && At(program, pos, split.chain) && At(program, pos + |split.chain|, split.blocks)
               && end < |program| && program[end] == LabelDef(merge)
               && |MatchCode(order, frame, at, name, variants, arms).value.code| == end + 1 - pos
  {
    hide ArmsCode, At;
    var split := ArmsCode(order, frame, at, frame.vars[name], variants, arms, MatchMerge(at)).value;
    AtSplit(program, pos, split.chain + split.blocks, [LabelDef(MatchMerge(at))]);
    AtSplit(program, pos, split.chain, split.blocks);
    AtOne(program, pos + |split.chain| + |split.blocks|, LabelDef(MatchMerge(at)));
  }

  /** Control reaches the block of the chosen arm, with registers and memory as they were. */
  lemma MatchReaches(program: seq<Instruction>, pos: nat, order: Order, frame: Frame, at: nat, name: Ident,
                     variants: seq<Variant>, arms: seq<Arm>, core: Core, t: word) returns (n: nat, after: Core)
    requires MatchAt(program, pos, order, frame, at, name, variants, arms) && UniqueLabels(program)
    requires arms != [] && SmallTags(arms) && name in frame.vars && Read(core, frame.vars[name]) == Some(t)
    ensures SameButFlags(core, after)
    ensures frame.vars[name].NumberedOffset? && ArmsCode(order, frame, at, frame.vars[name], variants, arms, MatchMerge(at)).Ok?
    ensures var tag, merge := frame.vars[name], MatchMerge(at);
            var blocks := pos + |ArmsCode(order, frame, at, tag, variants, arms, merge).value.chain|;
            Run(program, Running(pos, core), n) == Some(Running(
                blocks + SpotOf(order, frame, at, tag, variants, arms, merge, Chosen(arms, t)).start, after))
  {
    hide Run, UniqueLabels, At, MatchAt, Read, Landing, SpotOf, ArmsCode, MatchCode, SameButFlags, Chosen, FirstArm;
    MatchLayout(program, pos, order, frame, at, name, variants, arms);
    var tag, merge := frame.vars[name], MatchMerge(at);
    var split := ArmsCode(order, frame, at, tag, variants, arms, merge).value;
    var blocks := pos + |split.chain|;
    n, after := ChainRuns(program, pos, blocks, order, frame, at, tag, variants, arms, merge, core, t);
    LandsAt(pos, order, frame, at, tag, variants, arms, merge, t);
    if FirstArm(arms, t) == |arms| {
      BlockLabel(program, blocks, MatchArm(at, arms[0].variant), split.blocks);
      StepLabel(program, blocks, after);
      Chain(program, Running(pos, core), n, Running(blocks, after), 1, Running(blocks + 1, after));
      n := n + 1;
    }
  }

  lemma LandsAt(pos: nat, order: Order, frame: Frame, at: nat, tag: Location, variants: seq<Variant>, arms: seq<Arm>,
                merge: Label, t: word)
    requires tag.NumberedOffset? && ArmsCode(order, frame, at, tag, variants, arms, merge).Ok? && arms != []
    ensures var split := ArmsCode(order, frame, at, tag, variants, arms, merge).value;
            var blocks := pos + |split.chain|;
            var landing := Landing(pos, blocks, order, frame, at, tag, variants, arms, merge, t);
            var start := SpotOf(order, frame, at, tag, variants, arms, merge, Chosen(arms, t)).start;
            if FirstArm(arms, t) < |arms| then landing == blocks + start
            else
              && landing == blocks && start == 1
              && split.blocks != [] && split.blocks[0] == LabelDef(MatchArm(at, arms[0].variant))
  {
    hide Bind, BlockCode;
  }

  /** The compiled `match` runs the chosen arm's block as the source does, in an environment where the
      names of the pattern are the items of the payload, and goes on behind the match. */
  lemma MatchRuns(
      program: seq<Instruction>, pos: nat, order: Order, frame: Frame, at: nat, name: Ident, variants: seq<Variant>,
      arms: seq<Arm>, types: map<Ident, Ty>, env: Env, core: Core, base: int, t: word, vals: seq<Val>, top: nat, depth: nat,
      fuel: nat) returns (n: nat, state: State, vars: map<Ident, Location>)
    requires MatchAt(program, pos, order, frame, at, name, variants, arms) && UniqueLabels(program)
    requires Related(frame.vars, frame.currentStack, types, env, core, base)
    requires arms != [] && SmallTags(arms) && ArmsOk(arms, types.Keys)
    requires name in frame.vars && frame.vars[name] == NumberedOffset(top, RBP) && Read(core, frame.vars[name]) == Some(t)
    requires AllAbove(frame.vars, types.Keys, depth) && Payload(core, top, vals)
    requires top <= frame.currentStack && top % 8 == 0 && depth + 8 * |vals| < top
    requires var arm := arms[Chosen(arms, t)];
             |arm.binds| <= |vals| && BlockOk(arm.body, BindTypes(types, arm.binds, vals))
    ensures Run(program, Running(pos, core), n) == Some(state)
    ensures var arm := arms[Chosen(arms, t)];
            && (forall k :: 0 <= k < |arm.binds| ==>
                  arm.binds[k] in vars && vars[arm.binds[k]] == NumberedOffset(top - 8 * (k + 1), RBP))
            && Mapped(core, base)
            && Matches(ExecBlock(arm.body, BindEnv(env, arm.binds, vals), fuel), vars, frame.currentStack,
                       BindTypes(types, arm.binds, vals), core, state,
                       pos + |MatchCode(order, frame, at, name, variants, arms).value.code|, base, n, fuel)
  {
    hide Run, UniqueLabels, At, Read, Related, BlockCode, ArmsCode, SpotOf, BindEnv, BindTypes, ExecBlock, BlockOk, Payload,
         Bind, AllAbove, CallerKept, MatchAt, MatchCode, SameButFlags;
    var j, tag, merge := Chosen(arms, t), frame.vars[name], MatchMerge(at);
    var arm, size := arms[j], frame.currentStack;
    var m, mid := MatchReaches(program, pos, order, frame, at, name, variants, arms, core, t);
    MatchLayout(program, pos, order, frame, at, name, variants, arms);
    var split := ArmsCode(order, frame, at, tag, variants, arms, merge).value;
    var blocks := pos + |split.chain|;
    var end := blocks + |split.blocks|;
    SpotPlaced(program, blocks, order, frame, at, tag, variants, arms, merge, j);
    var spot := SpotOf(order, frame, at, tag, variants, arms, merge, j);
    vars := spot.frame.vars;
    BlockReady(order, frame, at, tag, variants, arms, merge, j, types, env, core, mid, base, vals, top, depth);
    var start := blocks + spot.start;
    var types', env' := BindTypes(types, arm.binds, vals), BindEnv(env, arm.binds, vals);
    var b, done := BlockRuns(order, spot.frame, 1, start, arm.body, program, types', env', mid, base, fuel);
    FrameMapped(vars, size, types', env', mid, base);
    AtOne(program, start + |spot.body|, Jmp(merge));
    var o := ExecBlock(arm.body, env', fuel);
    var k, last := JoinRuns(program, start + |spot.body|, end, true, o, vars, size, types', mid, done, base, b, fuel);
    Chain(program, Running(start, mid), b, done, k, last);
    Chain(program, Running(pos, core), m, Running(start, mid), b + k, last);
    n, state := m + (b + k), last;
    FlagsKept(core, mid, base);
    MatchesLater(o, vars, size, types', core, mid, last, end + 1, base, b + k, m, fuel, fuel);
  }

  lemma FlagsKept(before: Core, after: Core, base: int)
    requires SameButFlags(before, after)
    ensures CallerKept(before, after, base) && (Mapped(after, base) ==> Mapped(before, base))
  {
  }

  /** At the start of the chosen block the machine matches the environment extended by the payload. */
  lemma BlockReady(order: Order, frame: Frame, at: nat, tag: Location, variants: seq<Variant>, arms: seq<Arm>,
                   merge: Label, j: nat, types: map<Ident, Ty>, env: Env, core: Core, mid: Core, base: int, vals: seq<Val>,
                   top: nat, depth: nat)
    requires tag == NumberedOffset(top, RBP) && ArmsCode(order, frame, at, tag, variants, arms, merge).Ok? && j < |arms|
    requires ArmsOk(arms, types.Keys) && |arms[j].binds| <= |vals| && SameButFlags(core, mid)
    requires Related(frame.vars, frame.currentStack, types, env, core, base)
    requires AllAbove(frame.vars, types.Keys, depth) && Payload(core, top, vals)
    requires top <= frame.currentStack && top % 8 == 0 && depth + 8 * |vals| < top
    ensures var spot := SpotOf(order, frame, at, tag, variants, arms, merge, j);
            && spot.frame.currentStack == frame.currentStack
            && Related(spot.frame.vars, frame.currentStack, BindTypes(types, arms[j].binds, vals),
                       BindEnv(env, arms[j].binds, vals), mid, base)
            && forall k :: 0 <= k < |arms[j].binds| ==>
                 arms[j].binds[k] in spot.frame.vars
                 && spot.frame.vars[arms[j].binds[k]] == NumberedOffset(top - 8 * (k + 1), RBP)
  {
    hide Related, SpotOf, ArmsCode, BindTypes, BindEnv, Bind;
    var binds, size := arms[j].binds, frame.currentStack;
    assert Unrepeated(binds) && forall x :: x in binds ==> x !in types;
    var before := SpotFrame(order, frame, at, tag, variants, arms, merge, j, types.Keys);
    FlagsRelated(frame.vars, size, types, env, core, mid, base, top, vals);
    AgreeAbove(frame.vars, before.vars, types.Keys, depth);
    RelatedAgrees(frame.vars, before.vars, size, types, env, mid, base);
    BindRelated(before.vars, size, types, env, mid, base, binds, vals, top, depth);
    forall k | 0 <= k < |binds|
      ensures var vars := Bind(before.vars, binds, top, RBP).value;
              binds[k] in vars && vars[binds[k]] == NumberedOffset(top - 8 * (k + 1), RBP)
    {
      BindSlots(before.vars, binds, top, RBP, k);
    }
  }

  lemma FlagsRelated(vars: map<Ident, Location>, size: nat, types: map<Ident, Ty>, env: Env, before: Core, after: Core,
                     base: int, top: nat, vals: seq<Val>)
    requires Related(vars, size, types, env, before, base) && SameButFlags(before, after) && Payload(before, top, vals)
    ensures Related(vars, size, types, env, after, base) && Payload(after, top, vals)
  {
    hide Related;
    RelatedKept(vars, size, types, env, before, after, base);
    hide SameButFlags, Read, Payload;
    PayloadKept(before, after, top, vals);
  }

  lemma PayloadKept(before: Core, after: Core, top: nat, vals: seq<Val>)
    requires SameButFlags(before, after) && Payload(before, top, vals)
    ensures Payload(after, top, vals)
  {
    forall k | 0 <= k < |vals| ensures PayloadAt(after, top, k, vals[k]) {
      assert PayloadAt(before, top, k, vals[k]);
    }
  }

  lemma AgreeAbove(a: map<Ident, Location>, b: map<Ident, Location>, names: set<Ident>, depth: nat)
    requires AllAbove(a, names, depth) && Agree(a, b, names)
    ensures AllAbove(b, names, depth)
  {
  }

  // ---------- initialiser and match together ----------

  /** The value of an expression; well-typed ones always have one. */
  function ValueOf(e: Expr, env: Env): Val {
    match Eval(false, e, env)
    case Some(v) => v
    case None => IntVal(0)
  }

  function ValuesOf(items: seq<Expr>, env: Env): (vals: seq<Val>)
    ensures |vals| == |items| && forall i :: 0 <= i < |vals| ==> vals[i] == ValueOf(items[i], env)
  {
    if items == [] then [] else [ValueOf(items[0], env)] + ValuesOf(items[1..], env)
  }

  /** The values of the items of a payload. */
  function PayloadVals(items: seq<PayloadItem>, env: Env): (vals: seq<Val>)
    requires AllStorable(items)
    ensures |vals| == |items|
  {
    ValuesOf(Values(items), env)
  }

  lemma EnumIsPayload(core: Core, top: nat, tag: nat, payload: seq<Expr>, env: Env)
    requires HoldsEnum(core, top, tag, payload, env) && 8 * |payload| <= top
    ensures Payload(core, top, ValuesOf(payload, env))
  {
    hide Eval;
    var vals := ValuesOf(payload, env);
    forall k | 0 <= k < |vals| ensures PayloadAt(core, top, k, vals[k]) {
      assert HoldsValue(core, top - 8 * (k + 1), payload[k], env);
    }
  }

  /** The code of the declaration, and behind it that of the match, are in the program. */
  ghost predicate InitAndMatchAt(program: seq<Instruction>, pos: nat, order: Order, frame: Frame, at: nat, name: Ident,
                                 variants: seq<Variant>, variant: Ident, items: seq<PayloadItem>, arms: seq<Arm>) {
    && LetEnumCode(order, frame, name, variants, variant, items).Ok?
    && var init := LetEnumCode(order, frame, name, variants, variant, items).value;
       && At(program, pos, init.code)
       && MatchAt(program, pos + |init.code|, order, init.frame, at, name, variants, arms)
  }

  /** The position behind both. */
  ghost function BehindMatch(program: seq<Instruction>, pos: nat, order: Order, frame: Frame, at: nat, name: Ident,
                             variants: seq<Variant>, variant: Ident, items: seq<PayloadItem>, arms: seq<Arm>): nat
    requires InitAndMatchAt(program, pos, order, frame, at, name, variants, variant, items, arms)
  {
    var init := LetEnumCode(order, frame, name, variants, variant, items).value;
    pos + |init.code| + |MatchCode(order, init.frame, at, name, variants, arms).value.code|
  }

  /** Build an enum value and match on it: when some arm is for the variant that was built, the first such
      arm runs, as the source says, with the names of its pattern standing for the items of the payload. */
  lemma InitThenMatch(
      program: seq<Instruction>, pos: nat, order: Order, frame: Frame, at: nat, name: Ident, variants: seq<Variant>,
      variant: Ident, items: seq<PayloadItem>, arms: seq<Arm>, types: map<Ident, Ty>, env: Env, core: Core, base: int, fuel: nat)
    returns (n: nat, state: State, vars: map<Ident, Location>, j: nat)
    requires Related(frame.vars, frame.currentStack, types, env, core, base) && base % 8 == 0
    requires name !in types && EnumOk(variants, variant, items, types, frame.vars) && AllStorable(items)
    requires base - (frame.currentStack + Layout.Size(Enum(variants))) >= 0 && Layout.Size(Enum(variants)) <= IMM_MAX
    requires MappedRange(core, base - (frame.currentStack + Layout.Size(Enum(variants))), base - frame.currentStack)
    requires InitAndMatchAt(program, pos, order, frame, at, name, variants, variant, items, arms)
    requires UniqueLabels(program) && SmallTags(arms) && ArmsOk(arms, types.Keys)
    requires exists i :: 0 <= i < |arms| && arms[i].variant == TagIn(variants, variant)
    requires forall i :: 0 <= i < |arms| && arms[i].variant == TagIn(variants, variant) ==>
               |arms[i].binds| <= |items| && BlockOk(arms[i].body, BindTypes(types, arms[i].binds, PayloadVals(items, env)))
    ensures j < |arms| && arms[j].variant == TagIn(variants, variant)
    ensures forall i :: 0 <= i < j ==> arms[i].variant != arms[j].variant
    ensures Run(program, Running(pos, core), n) == Some(state) && Mapped(core, base)
    ensures |arms[j].binds| <= |items|
    ensures Matches(ExecBlock(arms[j].body, BindEnv(env, arms[j].binds, PayloadVals(items, env)), fuel), vars,
                    frame.currentStack + Layout.Size(Enum(variants)),
                    BindTypes(types, arms[j].binds, PayloadVals(items, env)), core, state,
                    BehindMatch(program, pos, order, frame, at, name, variants, variant, items, arms), base, n, fuel)
  {
    hide Run, RunStraight, UniqueLabels, At, Read, Related, BindEnv, BindTypes, ExecBlock, BlockOk, CallerKept, MatchAt, MatchCode,
         LetEnumCode, Layout.Size, MappedRange, AllStorable, Eval, Left, ItemsOk, OfVariant, TagIn, PayloadVals, Payload, AllAbove;
    var init := LetEnumCode(order, frame, name, variants, variant, items).value;
    var depth, tag, vals := frame.currentStack, TagIn(variants, variant), PayloadVals(items, env);
    var top := depth + Layout.Size(Enum(variants));
    var mid := InitRuns(program, pos, order, frame, name, variants, variant, items, types, env, core, base);
    j := Chosen(arms, tag);
    assert arms[j].variant == tag;
    var m;
    m, state, vars := MatchRuns(program, pos + |init.code|, order, init.frame, at, name, variants, arms, types, env, mid, base,
                                tag, vals, top, depth, fuel);
    Chain(program, Running(pos, core), |init.code|, Running(pos + |init.code|, mid), m, state);
    n := |init.code| + m;
    MatchEmitted(program, pos + |init.code|, order, init.frame, at, name, variants, arms);
    MatchesLater(ExecBlock(arms[j].body, BindEnv(env, arms[j].binds, vals), fuel), vars, init.frame.currentStack,
                 BindTypes(types, arms[j].binds, vals), core, mid, state,
                 pos + |init.code| + |MatchCode(order, init.frame, at, name, variants, arms).value.code|, base, m, |init.code|,
                 fuel, fuel);
  }

  /** Behind the declaration the tag and the payload are in the slot, below all variables. */
  lemma InitRuns(program: seq<Instruction>, pos: nat, order: Order, frame: Frame, name: Ident, variants: seq<Variant>,
                 variant: Ident, items: seq<PayloadItem>, types: map<Ident, Ty>, env: Env, core: Core, base: int)
    returns (mid: Core)
    requires Related(frame.vars, frame.currentStack, types, env, core, base) && base % 8 == 0
    requires name !in types && EnumOk(variants, variant, items, types, frame.vars) && AllStorable(items)
    requires base - (frame.currentStack + Layout.Size(Enum(variants))) >= 0 && Layout.Size(Enum(variants)) <= IMM_MAX
    requires MappedRange(core, base - (frame.currentStack + Layout.Size(Enum(variants))), base - frame.currentStack)
    requires LetEnumCode(order, frame, name, variants, variant, items).Ok?
    requires At(program, pos, LetEnumCode(order, frame, name, variants, variant, items).value.code)
    ensures var init := LetEnumCode(order, frame, name, variants, variant, items).value;
            var top := frame.currentStack + Layout.Size(Enum(variants));
            && Run(program, Running(pos, core), |init.code|) == Some(Running(pos + |init.code|, mid))
            && init.frame.vars == frame.vars[name := NumberedOffset(top, RBP)] && init.frame.currentStack == top
            && Related(init.frame.vars, top, types, env, mid, base) && CallerKept(core, mid, base)
            && Mapped(core, base) && Mapped(mid, base)
            && Read(mid, NumberedOffset(top, RBP)) == Some(TagIn(variants, variant))
            && AllAbove(init.frame.vars, types.Keys, frame.currentStack)
            && Payload(mid, top, PayloadVals(items, env)) && top % 8 == 0 && frame.currentStack + 8 * |items| < top
  {
    hide Run, RunStraight, At, Related, CallerKept, LetEnumCode, Layout.Size, MappedRange, AllStorable, Eval, ItemsOk,
         OfVariant, TagIn, Values, Payload, AllAbove;
    var init := LetEnumCode(order, frame, name, variants, variant, items).value;
    var depth := frame.currentStack;
    var top := depth + Layout.Size(Enum(variants));
    StorablePayload(items);
    PayloadFits(variants, TagIn(variants, variant), items);
    mid := LetEnumRuns(order, frame, name, variants, variant, items, types, env, core, base);
    CodeRuns(program, pos, init.code, core, mid);
    SlotsAbove(frame.vars, depth, types, env, core, base, name, NumberedOffset(top, RBP));
    SizeAligned(Enum(variants));
    EnumIsPayload(mid, top, TagIn(variants, variant), Values(items), env);
    FrameMapped(frame.vars, depth, types, env, core, base);
    FrameMapped(init.frame.vars, top, types, env, mid, base);
  }
}
