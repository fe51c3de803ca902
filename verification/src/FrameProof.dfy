/** Room for variables of any type: what `push_stack` takes from RSP, and that the slots of the
    declared variables tile the frame. */
module FrameProof {
  import opened Words
  import opened Lir
  import opened Machine
  import opened AsmSpec
  import opened ExprProof
  import opened StmtProof
  import Layout

  // ---------- room for one variable ----------

  lemma {:induction false} SizeAligned(shape: Shape)
    ensures Layout.Size(shape) % 8 == 0
    decreases shape
  {
    match shape
    case Scalar =>
    case Array(len, elem) =>
      SizeAligned(elem);
      MultipleOf8(Layout.Size(elem), len);
    case Struct(fields) => FieldsAligned(fields);
    case Enum(variants) => PayloadsAligned(variants);
  }

  lemma MultipleOf8(n: nat, k: nat)
    requires n % 8 == 0
    ensures n * k % 8 == 0
  {
    assert n * k == 8 * (n / 8 * k);
  }

  lemma {:induction false} FieldsAligned(fields: seq<Field>)
    ensures Layout.FieldsSize(fields) % 8 == 0
    decreases fields
  {
    if fields != [] {
      assert fields decreases to fields[0];
      SizeAligned(fields[0].shape);
      FieldsAligned(fields[1..]);
    }
  }

  lemma {:induction false} PayloadsAligned(variants: seq<Variant>)
    ensures Layout.MaxPayload(variants) % 8 == 0
    decreases variants
  {
    if variants != [] {
      PayloadAligned(variants[0].types);
      PayloadsAligned(variants[1..]);
    }
  }

  lemma {:induction false} PayloadAligned(types: seq<Shape>)
    ensures Layout.PayloadSize(types) % 8 == 0
    decreases types
  {
    if types != [] {
      SizeAligned(types[0]);
      PayloadAligned(types[1..]);
    }
  }

  /** RSP has gone down by `n`; no other register and no cell from the old RSP up has changed, and no
      cell has become unmapped. */
  ghost predicate Took(before: Core, after: Core, n: int) {
    && after.Reg(RSP) == before.Reg(RSP) - n
    && (forall r :: r != RSP ==> after.Reg(r) == before.Reg(r))
    && (forall a :: a in before.mem ==> a in after.mem && (a >= before.Reg(RSP) ==> after.mem[a] == before.mem[a]))
  }

  lemma TakeRuns(n: nat, core: Core) returns (after: Core)
    requires core.Reg(RSP) - n >= 0 && n <= IMM_MAX
    ensures RunStraight([TakeBytes(n)], core) == Some(after) && Took(core, after, n)
  {
    StraightOne(TakeBytes(n), core);
    after := core.(regs := core.regs[RSP := core.Reg(RSP) - n], flags := Undefined);
  }

  lemma PushNullRuns(core: Core) returns (after: Core)
    requires core.Reg(RSP) - 8 >= 0 && core.Reg(RSP) % 8 == 0
    ensures RunStraight([Push(ZERO, 8)], core) == Some(after) && Took(core, after, 8)
  {
    StraightOne(Push(ZERO, 8), core);
    after := core.(regs := core.regs[RSP := core.Reg(RSP) - 8], mem := core.mem[core.Reg(RSP) - 8 := 0]);
  }

  /** `push_stack` moves RSP down by exactly the bytes it counts. */
  lemma {:induction false} PushCodeRuns(shape: Shape, core: Core) returns (after: Core)
    requires core.Reg(RSP) - Layout.PushBytes(shape) >= 0 && core.Reg(RSP) % 8 == 0 && Layout.PushBytes(shape) <= IMM_MAX
    ensures RunStraight(PushCode(shape), core) == Some(after) && Took(core, after, Layout.PushBytes(shape))
    decreases shape
  {
    hide RunStraight, Took;
    match shape
    case Scalar => after := PushNullRuns(core);
    case Array(len, elem) => after := TakeRuns(len * Layout.Size(elem), core);
    case Struct(fields) => after := PushFieldsRuns(fields, core);
    case Enum(variants) => after := TakeRuns(Layout.LargestVariant(variants, |variants|), core);
  }

  lemma {:induction false} PushFieldsRuns(fields: seq<Field>, core: Core) returns (after: Core)
    requires core.Reg(RSP) - Layout.FieldsBytes(fields) >= 0 && core.Reg(RSP) % 8 == 0 && Layout.FieldsBytes(fields) <= IMM_MAX
    ensures RunStraight(PushFields(fields), core) == Some(after) && Took(core, after, Layout.FieldsBytes(fields))
    decreases fields
  {
    hide RunStraight;
    if fields == [] {
      StraightNone(core);
      after := core;
    } else {
      assert fields decreases to fields[0];
      var mid := PushCodeRuns(fields[0].shape, core);
      Layout.PushedBytes(fields[0].shape);
      SizeAligned(fields[0].shape);
      after := PushFieldsRuns(fields[1..], mid);
      StraightAppend(PushCode(fields[0].shape), PushFields(fields[1..]), core);
    }
  }

  /** A declaration keeps the frame as source variables see it, and RSP stays `currentStack` below RBP,
      when the type holds no enum without variants. */
  lemma AllocRuns(vars: map<Ident, Location>, size: nat, types: map<Ident, Ty>, env: Env, core: Core, base: int,
                  name: Ident, shape: Shape) returns (after: Core)
    requires Related(vars, size, types, env, core, base) && name !in types && base % 8 == 0
    requires base - (size + Layout.Size(shape)) >= 0 && Layout.EmptyEnums(shape) == 0 && Layout.Size(shape) <= IMM_MAX
    ensures RunStraight(PushCode(shape), core) == Some(after)
    ensures var top := size + Layout.Size(shape);
            Related(vars[name := NumberedOffset(top, RBP)], top, types, env, after, base)
    ensures CallerKept(core, after, base) && forall a :: a in core.mem ==> a in after.mem
  {
    Layout.PushedBytes(shape);
    SizeAligned(shape);
    after := PushCodeRuns(shape, core);
    TookRelated(vars, size, types, env, core, after, base, name, Layout.Size(shape));
  }

  lemma TookRelated(vars: map<Ident, Location>, size: nat, types: map<Ident, Ty>, env: Env, before: Core, after: Core,
                    base: int, name: Ident, n: nat)
    requires Related(vars, size, types, env, before, base) && name !in types && Took(before, after, n)
    requires base - (size + n) >= 0 && n % 8 == 0 && base % 8 == 0
    ensures Related(vars[name := NumberedOffset(size + n, RBP)], size + n, types, env, after, base)
    ensures CallerKept(before, after, base)
  {
    var vars' := vars[name := NumberedOffset(size + n, RBP)];
    assert Holding(vars', env, after) by {
      forall x | x in env ensures Read(after, vars'[x]) == Some(Encode(env[x])) {
        assert Read(before, vars[x]) == Some(Encode(env[x]));
      }
    }
    hide Holding, EnvTyped;
  }

  // ---------- room for all variables ----------

  function EmptyTotal(decls: seq<Layout.Decl>): nat {
    if decls == [] then 0 else Layout.EmptyEnums(decls[0].shape) + EmptyTotal(decls[1..])
  }

  lemma {:induction false} TotalFromFront(decls: seq<Layout.Decl>, n: nat)
    requires 0 < n <= |decls|
    ensures Layout.TotalSize(decls, n) == Layout.Size(decls[0].shape) + Layout.TotalSize(decls[1..], n - 1)
    decreases n
  {
    if n > 1 {
      TotalFromFront(decls, n - 1);
    }
  }

  lemma TookBoth(before: Core, mid: Core, after: Core, n: nat, m: nat)
    requires Took(before, mid, n) && Took(mid, after, m)
    ensures Took(before, after, n + m)
  {
  }

  lemma TookNothing(core: Core)
    ensures Took(core, core, 0)
  {
  }

  /** After any list of declarations RSP is `current_stack` below RBP exactly when no enum without
      variants was declared; each such enum leaves RSP 8 bytes too high. */
  lemma {:induction false} AllocAllRuns(frame: Frame, decls: seq<Layout.Decl>, core: Core) returns (after: Core)
    requires core.Reg(RSP) - Layout.TotalSize(decls, |decls|) >= 0 && core.Reg(RSP) % 8 == 0
    requires Layout.TotalSize(decls, |decls|) <= IMM_MAX
    ensures RunStraight(AllocAll(frame, decls).code, core) == Some(after)
    ensures AllocAll(frame, decls).frame.currentStack == frame.currentStack + Layout.TotalSize(decls, |decls|)
    ensures Took(core, after, Layout.TotalSize(decls, |decls|) - 8 * EmptyTotal(decls))
    ensures core.Reg(RSP) == core.Reg(RBP) - frame.currentStack ==>
              (after.Reg(RSP) == after.Reg(RBP) - AllocAll(frame, decls).frame.currentStack <==> EmptyTotal(decls) == 0)
    decreases |decls|
  {
    hide RunStraight, PushCode, Layout.Size, Layout.PushBytes, Layout.EmptyEnums;
    if decls == [] {
      StraightNone(core);
      after := core;
      TookNothing(core);
    } else {
      var shape := decls[0].shape;
      TotalFromFront(decls, |decls|);
      Layout.PushedBytes(shape);
      EmptyBounded(decls[1..]);
      SizeAligned(shape);
      var mid := PushCodeRuns(shape, core);
      var first := AllocSlot(frame, decls[0].name, shape);
      after := AllocAllRuns(first.frame, decls[1..], mid);
      StraightAppend(first.code, AllocAll(first.frame, decls[1..]).code, core);
      TookBoth(core, mid, after, Layout.PushBytes(shape),
               Layout.TotalSize(decls[1..], |decls[1..]|) - 8 * EmptyTotal(decls[1..]));
    }
  }

  lemma {:induction false} EmptyBounded(decls: seq<Layout.Decl>)
    ensures 8 * EmptyTotal(decls) <= Layout.TotalSize(decls, |decls|)
    decreases |decls|
  {
    if decls != [] {
      TotalFromFront(decls, |decls|);
      Layout.PushedBytes(decls[0].shape);
      EmptyBounded(decls[1..]);
    }
  }

  predicate Distinct(decls: seq<Layout.Decl>) {
    forall i, j :: 0 <= i < j < |decls| ==> decls[i].name != decls[j].name
  }

  /** Every variable is found at the top of its own slot. */
  lemma {:induction false} SlotsNamed(frame: Frame, decls: seq<Layout.Decl>, i: nat)
    requires i < |decls| && Distinct(decls)
    ensures decls[i].name in AllocAll(frame, decls).frame.vars
    ensures AllocAll(frame, decls).frame.vars[decls[i].name] ==
            NumberedOffset(Layout.SlotTop(frame.currentStack, decls, i), RBP)
    decreases |decls|
  {
    var first := AllocSlot(frame, decls[0].name, decls[0].shape);
    assert Distinct(decls[1..]);
    if i > 0 {
      SlotsNamed(first.frame, decls[1..], i - 1);
      TotalFromFront(decls, i + 1);
    } else {
      OtherNamesKept(first.frame, decls[1..], decls[0].name);
      TotalFromFront(decls, 1);
    }
  }

  lemma {:induction false} OtherNamesKept(frame: Frame, decls: seq<Layout.Decl>, x: Ident)
    requires x in frame.vars && forall d :: d in decls ==> d.name != x
    ensures x in AllocAll(frame, decls).frame.vars && AllocAll(frame, decls).frame.vars[x] == frame.vars[x]
    decreases |decls|
  {
    if decls != [] {
      OtherNamesKept(AllocSlot(frame, decls[0].name, decls[0].shape).frame, decls[1..], x);
    }
  }

  /** The slots tile the new part of the frame: every byte of it belongs to exactly one variable, and no
      variable reaches outside it. */
  lemma FrameTiles(start: nat, decls: seq<Layout.Decl>, depth: nat)
    ensures start < depth <= start + Layout.TotalSize(decls, |decls|) <==>
            exists i :: 0 <= i < |decls| && Layout.InSlot(start, decls, i, depth)
    ensures forall i, j ::
              0 <= i < |decls| && 0 <= j < |decls| ==>
                (Layout.InSlot(start, decls, i, depth) && Layout.InSlot(start, decls, j, depth) ==> i == j)
  {
    Layout.SlotsCover(start, decls, |decls|, depth);
    forall i, j | 0 <= i < |decls| && 0 <= j < |decls| && Layout.InSlot(start, decls, i, depth)
                  && Layout.InSlot(start, decls, j, depth)
      ensures i == j
    {
      Layout.SlotsDisjoint(start, decls, i, j, depth);
    }
  }
}
