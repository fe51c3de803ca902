/** Enum values in the frame: the tag and the payload that an initialiser stores, when the code it emits can
    be run at all, and when a pattern finds the items where they were stored. */
module EnumProof {
  import opened Words
  import opened Lir
  import opened Machine
  import opened AsmSpec
  import opened ExprProof
  import opened StmtProof
  import opened FrameProof
  import opened StructProof
  import opened Writes
  import opened RegisterBudget
  import opened Compiles
  import CodePlan
  import Layout

  // ---------- which payload items can be stored ----------

  /** A variable, possibly in parentheses: its value stays in its stack slot. */
  predicate Bare(e: Expr) {
    match e
    case Var(_, _) => true
    case Parens(inner) => Bare(inner)
    case _ => false
  }

  /** An item whose value is not left in a stack slot. */
  predicate Storable(item: PayloadItem) {
    item.Single? && !Bare(item.value)
  }

  predicate AllStorable(items: seq<PayloadItem>) {
    forall i :: 0 <= i < |items| ==> Storable(items[i])
  }

  /** The expressions of a payload that can be stored. */
  function Values(items: seq<PayloadItem>): (values: seq<Expr>)
    requires AllStorable(items)
    ensures |values| == |items| && forall i :: 0 <= i < |items| ==> values[i] == items[i].value
  {
    if items == [] then [] else [items[0].value] + Values(items[1..])
  }

  /** Scalar items are expressions that are covered; the others are variables in the frame. */
  ghost predicate ItemsOk(items: seq<PayloadItem>, types: map<Ident, Ty>, vars: map<Ident, Location>) {
    forall i :: 0 <= i < |items| ==> ItemOk(items[i], types, vars)
  }

  predicate ItemOk(item: PayloadItem, types: map<Ident, Ty>, vars: map<Ident, Location>) {
    match item
    case Single(e) => ExprOk(e, types) && SmallLiteral(e)
    case Copied(x, _) => x in vars && vars[x].NumberedOffset?
  }

  lemma {:induction false} BareStaysInSlot(order: Order, vars: map<Ident, Location>, used: set<Register>, e: Expr,
                                           types: map<Ident, Ty>, env: Env, core: Core)
    requires WellTyped(e, types) && EnvTyped(env, types) && Holding(vars, env, core)
    requires BuildValue(order, vars, used, e, Yes).Ok?
    ensures var b := BuildValue(order, vars, used, e, Yes).value;
            && (b.loc.IsStackOffset() <==> Bare(e)) && (Bare(e) ==> b.code == [])
    decreases e
  {
    match e
    case Parens(inner) => BareStaysInSlot(order, vars, used, inner, types, env, core);
    case Var(x, _) => assert x in env;
    case _ =>
  }

  /** Items that can be stored are stored like the leaves of a struct one word further up. */
  lemma {:induction false} PayloadIsLeaves(order: Order, frame: Frame, items: seq<PayloadItem>, offset: nat,
                                           types: map<Ident, Ty>, env: Env, core: Core)
    requires AllStorable(items) && ItemsOk(items, types, frame.vars) && EnvTyped(env, types) && Holding(frame.vars, env, core)
    requires offset >= 8 + 8 * |items|
    requires StorePayload(order, frame, items, offset).Ok?
    ensures StorePayload(order, frame, items, offset) == StoreLeaves(order, frame, Values(items), offset - 8)
    decreases |items|
  {
    hide BuildValue, Holding, EnvTyped, Bare;
    if items != [] {
      assert ItemOk(items[0], types, frame.vars) && Storable(items[0]);
      var built := BuildValue(order, frame.vars, frame.used, items[0].value, Yes).value;
      assert Values(items)[0] == items[0].value && Values(items)[1..] == Values(items[1..]);
      BareStaysInSlot(order, frame.vars, frame.used, items[0].value, types, env, core);
      PayloadIsLeaves(order, frame.(used := built.used), items[1..], offset - 8, types, env, core);
    }
  }

  /** Any other item is moved from memory to memory, which no instruction can do. */
  lemma {:induction false} PayloadStuck(order: Order, frame: Frame, items: seq<PayloadItem>, offset: nat,
                                        types: map<Ident, Ty>, env: Env, first: Core, core: Core)
    requires !AllStorable(items) && ItemsOk(items, types, frame.vars) && EnvTyped(env, types) && Holding(frame.vars, env, first)
    requires StorePayload(order, frame, items, offset).Ok?
    ensures RunStraight(StorePayload(order, frame, items, offset).value.code, core) == None
    decreases |items|
  {
    hide BuildValue, Holding, EnvTyped, RunStraight, Bare;
    assert ItemOk(items[0], types, frame.vars);
    var size := ItemSize(items[0]);
    var built := BuildItem(order, frame, items[0]).value;
    var rest := StorePayload(order, frame.(used := built.used), items[1..], offset - size).value;
    var move := SizedMov(built.loc, NumberedOffset(offset - size, RBP), size);
    if items[0].Single? {
      BareStaysInSlot(order, frame.vars, frame.used, items[0].value, types, env, first);
    }
    StraightAppend(built.code + [move], rest.code, core);
    if !Storable(items[0]) {
      assert built.code + [move] == [move];
      StraightOne(move, core);
    } else if RunStraight(built.code + [move], core).Some? {
      assert !AllStorable(items[1..]) by {
        var i :| 0 <= i < |items| && !Storable(items[i]);
        assert items[1..][i - 1] == items[i];
      }
      PayloadStuck(order, frame.(used := built.used), items[1..], offset - size, types, env, first,
                   RunStraight(built.code + [move], core).value);
    }
  }

  // ---------- where the items go ----------

  /** The frame slots that the moves of the code write, in order. */
  function FrameStores(code: seq<Instruction>): seq<Location> {
    if code == [] then []
    else
      (if code[0].SizedMov? && code[0].dst.NumberedOffset? then [code[0].dst] else []) + FrameStores(code[1..])
  }

  lemma {:induction false} FrameStoresAppend(a: seq<Instruction>, b: seq<Instruction>)
    ensures FrameStores(a + b) == FrameStores(a) + FrameStores(b)
    decreases |a|
  {
    if a == [] {
      assert a + b == b;
    } else {
      assert (a + b)[1..] == a[1..] + b;
      FrameStoresAppend(a[1..], b);
    }
  }

  lemma {:induction false} NoFrameStores(code: seq<Instruction>)
    requires forall i :: 0 <= i < |code| ==> code[i].SizedMov? ==> !code[i].dst.NumberedOffset?
    ensures FrameStores(code) == []
    decreases |code|
  {
    if code != [] {
      NoFrameStores(code[1..]);
    }
  }

  lemma {:induction false} PushStoresNothing(shape: Shape)
    ensures FrameStores(PushCode(shape)) == []
    decreases shape
  {
    if shape.Struct? {
      PushFieldsStoreNothing(shape.fields);
    }
  }

  lemma {:induction false} PushFieldsStoreNothing(fields: seq<Field>)
    ensures FrameStores(PushFields(fields)) == []
    decreases fields
  {
    if fields != [] {
      assert fields decreases to fields[0];
      PushStoresNothing(fields[0].shape);
      PushFieldsStoreNothing(fields[1..]);
      FrameStoresAppend(PushCode(fields[0].shape), PushFields(fields[1..]));
    }
  }

  /** The bytes of item `k` and all items before it. */
  function UpTo(items: seq<PayloadItem>, k: nat): nat
    requires k < |items|
  {
    ItemSize(items[k]) + if k == 0 then 0 else UpTo(items, k - 1)
  }

  lemma {:induction false} UpToFromFront(items: seq<PayloadItem>, k: nat)
    requires 0 < k < |items|
    ensures UpTo(items, k) == ItemSize(items[0]) + UpTo(items[1..], k - 1)
    decreases k
  {
    if k > 1 {
      UpToFromFront(items, k - 1);
    }
  }

  /** The frame slots of the items: each behind the bytes of the items before it and its own. */
  ghost predicate StoredBehind(items: seq<PayloadItem>, offset: nat, stores: seq<Location>) {
    && |stores| == |items|
    && forall k :: 0 <= k < |items| ==>
         UpTo(items, k) <= offset && stores[k] == NumberedOffset(offset - UpTo(items, k), RBP)
  }

  lemma StoredBehindStep(items: seq<PayloadItem>, offset: nat, rest: seq<Location>)
    requires items != [] && ItemSize(items[0]) <= offset && StoredBehind(items[1..], offset - ItemSize(items[0]), rest)
    ensures StoredBehind(items, offset, [NumberedOffset(offset - ItemSize(items[0]), RBP)] + rest)
  {
    hide ItemSize;
    forall k | 0 < k < |items| ensures UpTo(items, k) == ItemSize(items[0]) + UpTo(items[1..], k - 1) {
      UpToFromFront(items, k);
    }
  }

  /** The code of the payload moves every item to its slot, and writes no other slot. */
  lemma {:induction false} PayloadStores(order: Order, frame: Frame, items: seq<PayloadItem>, offset: nat)
    requires Located(frame.vars) && StorePayload(order, frame, items, offset).Ok?
    ensures StoredBehind(items, offset, FrameStores(StorePayload(order, frame, items, offset).value.code))
    decreases |items|
  {
    hide BuildValue, ItemSize, UpTo, StoredBehind;
    if items == [] {
      NothingStored(offset);
    } else {
      var size := ItemSize(items[0]);
      var built := BuildItem(order, frame, items[0]).value;
      var rest := StorePayload(order, frame.(used := built.used), items[1..], offset - size).value;
      var move := SizedMov(built.loc, NumberedOffset(offset - size, RBP), size);
      if items[0].Single? {
        ExprWrites(order, frame.vars, frame.used, items[0].value, Yes);
      }
      NoFrameStores(built.code);
      PayloadStores(order, frame.(used := built.used), items[1..], offset - size);
      OneStore(move);
      FrameStoresAppend(built.code, [move]);
      FrameStoresAppend(built.code + [move], rest.code);
      assert FrameStores(built.code + [move] + rest.code) == [move.dst] + FrameStores(rest.code);
      StoredBehindStep(items, offset, FrameStores(rest.code));
    }
  }

  lemma NothingStored(offset: nat)
    ensures StoredBehind([], offset, FrameStores([]))
  {
  }

  lemma OneStore(move: Instruction)
    requires move.SizedMov? && move.dst.NumberedOffset?
    ensures FrameStores([move]) == [move.dst]
  {
  }

  predicate Unrepeated(binds: seq<Ident>) {
    forall i, j :: 0 <= i < j < |binds| ==> binds[i] != binds[j]
  }

  /** Item number `k` of the payload is found 8 bytes per item after the tag. */
  lemma {:induction false} BindSlots(vars: map<Ident, Location>, binds: seq<Ident>, offset: nat, base: Register, k: nat)
    requires Bind(vars, binds, offset, base).Ok? && Unrepeated(binds) && k < |binds|
    ensures 8 * (k + 1) <= offset && binds[k] in Bind(vars, binds, offset, base).value
    ensures Bind(vars, binds, offset, base).value[binds[k]] == NumberedOffset(offset - 8 * (k + 1), base)
    decreases |binds|
  {
    var last := |binds| - 1;
    if k < last {
      BindSlots(vars, binds[..last], offset, base, k);
    }
  }

  /** The code of a declaration writes the tag into the slot of the name and then the items. */
  lemma InitStores(order: Order, frame: Frame, name: Ident, variants: seq<Variant>, variant: Ident, items: seq<PayloadItem>)
    requires Located(frame.vars) && LetEnumCode(order, frame, name, variants, variant, items).Ok?
    ensures var init := LetEnumCode(order, frame, name, variants, variant, items).value;
            var top := frame.currentStack + Layout.Size(Enum(variants));
            && |FrameStores(init.code)| == |items| + 1
            && init.frame.vars == frame.vars[name := NumberedOffset(top, RBP)]
            && var stores := FrameStores(init.code);
               stores != [] && stores[0] == NumberedOffset(top, RBP) && StoredBehind(items, top, stores[1..])
  {
    hide LetEnumCode, StorePayload, FrameStores, PushCode, StoredBehind, Layout.Size, AllocSlot, TagIn;
    LetEnumParts(order, frame, name, variants, variant, items);
    var alloc := AllocSlot(frame, name, Enum(variants));
    var top := frame.currentStack + Layout.Size(Enum(variants));
    var tag := TagStore(TagIn(variants, variant), top);
    var rest := StorePayload(order, alloc.frame, items, top).value;
    StoresKeepNames(order, alloc.frame, items, top);
    PayloadStores(order, alloc.frame, items, top);
    BehindLength(items, top, FrameStores(rest.code));
    PushStoresNothing(Enum(variants));
    TagThenRest(alloc.code, tag, NumberedOffset(top, RBP), rest.code);
    assert alloc.code + [tag] + rest.code == alloc.code + ([tag] + rest.code);
  }

  lemma BehindLength(items: seq<PayloadItem>, offset: nat, stores: seq<Location>)
    requires StoredBehind(items, offset, stores)
    ensures |stores| == |items|
  {
  }

  lemma TagThenRest(push: seq<Instruction>, tag: Instruction, slot: Location, rest: seq<Instruction>)
    requires FrameStores(push) == [] && tag.SizedMov? && tag.dst == slot && slot.NumberedOffset?
    ensures var stores := FrameStores(push + [tag] + rest);
            |stores| == 1 + |FrameStores(rest)| && stores[0] == slot && stores[1..] == FrameStores(rest)
  {
    OneStore(tag);
    hide FrameStores;
    FrameStoresAppend(push, [tag]);
    FrameStoresAppend(push + [tag], rest);
  }

  lemma {:induction false} StoresKeepNames(order: Order, frame: Frame, items: seq<PayloadItem>, offset: nat)
    requires StorePayload(order, frame, items, offset).Ok?
    ensures var next := StorePayload(order, frame, items, offset).value.frame; next == frame.(used := next.used)
    decreases |items|
  {
    hide BuildItem, ItemSize;
    if items != [] {
      var built := BuildItem(order, frame, items[0]).value;
      StoresKeepNames(order, frame.(used := built.used), items[1..], offset - ItemSize(items[0]));
    }
  }

  predicate WordSized(items: seq<PayloadItem>) {
    forall k :: 0 <= k < |items| ==> ItemSize(items[k]) == 8
  }

  /** The items up to `k` have `8 * (k + 1)` bytes, for every `k`. */
  predicate WordPlaced(items: seq<PayloadItem>) {
    forall k :: 0 <= k < |items| ==> UpTo(items, k) == 8 * (k + 1)
  }

  /** That is so exactly when every item has 8 bytes. */
  lemma WordsExactly(items: seq<PayloadItem>)
    ensures WordPlaced(items) <==> WordSized(items)
  {
    hide ItemSize;
    if WordSized(items) {
      forall k | 0 <= k < |items| ensures UpTo(items, k) == 8 * (k + 1) {
        WordsUpTo(items, k);
      }
    } else if WordPlaced(items) {
      forall k | 0 <= k < |items| ensures ItemSize(items[k]) == 8 {
        assert UpTo(items, k) == 8 * (k + 1);
        if k > 0 {
          assert UpTo(items, k - 1) == 8 * k;
        }
      }
    }
  }

  lemma {:induction false} WordsUpTo(items: seq<PayloadItem>, k: nat)
    requires WordSized(items) && k < |items|
    ensures UpTo(items, k) == 8 * (k + 1)
    decreases k
  {
    if k > 0 {
      WordsUpTo(items, k - 1);
    }
  }

  /** A declaration and a pattern for the same variant: every name of the pattern is bound to the very slot to
      which the code of the declaration moves its item if and only if every item has 8 bytes. */
  lemma BindingsRightExactly(order: Order, frame: Frame, name: Ident, variants: seq<Variant>, variant: Ident,
                             items: seq<PayloadItem>, binds: seq<Ident>)
    requires Located(frame.vars) && LetEnumCode(order, frame, name, variants, variant, items).Ok?
    requires |binds| == |items| && Unrepeated(binds)
    requires var vars := LetEnumCode(order, frame, name, variants, variant, items).value.frame.vars;
             name in vars && vars[name].NumberedOffset? && Bind(vars, binds, vars[name].offset, vars[name].base).Ok?
    ensures var init := LetEnumCode(order, frame, name, variants, variant, items).value;
            var slot := init.frame.vars[name];
            var bound := Bind(init.frame.vars, binds, slot.offset, slot.base).value;
            var stores := FrameStores(init.code);
            && |stores| == |items| + 1 && stores[0] == slot
            && (forall k :: 0 <= k < |binds| ==> binds[k] in bound)
            && ((forall k :: 0 <= k < |binds| ==> bound[binds[k]] == stores[1..][k]) <==> WordSized(items))
  {
    hide LetEnumCode, Bind, UpTo, FrameStores, WordSized, StoredBehind;
    InitStores(order, frame, name, variants, variant, items);
    var init := LetEnumCode(order, frame, name, variants, variant, items).value;
    BoundExactly(init.frame.vars, binds, init.frame.vars[name].offset, items, FrameStores(init.code)[1..]);
  }

  lemma BoundExactly(vars: map<Ident, Location>, binds: seq<Ident>, offset: nat, items: seq<PayloadItem>, stores: seq<Location>)
    requires |binds| == |items| && Unrepeated(binds) && Bind(vars, binds, offset, RBP).Ok? && StoredBehind(items, offset, stores)
    ensures var bound := Bind(vars, binds, offset, RBP).value;
            && (forall k :: 0 <= k < |binds| ==> binds[k] in bound)
            && ((forall k :: 0 <= k < |binds| ==> bound[binds[k]] == stores[k]) <==> WordSized(items))
  {
    hide Bind, UpTo, WordSized;
    var bound := Bind(vars, binds, offset, RBP).value;
    forall k | 0 <= k < |binds|
      ensures binds[k] in bound && (bound[binds[k]] == stores[k] <==> UpTo(items, k) == 8 * (k + 1))
    {
      BindSlots(vars, binds, offset, RBP, k);
    }
    WordsExactly(items);
    if WordSized(items) {
      forall k | 0 <= k < |binds| ensures bound[binds[k]] == stores[k] {
        assert UpTo(items, k) == 8 * (k + 1);
      }
    }
    if forall k :: 0 <= k < |binds| ==> bound[binds[k]] == stores[k] {
      forall k | 0 <= k < |items| ensures UpTo(items, k) == 8 * (k + 1) {
        assert bound[binds[k]] == stores[k];
      }
    }
  }

  // ---------- the initialiser ----------

  function ItemShape(item: PayloadItem): Shape {
    if item.Single? then Scalar else item.shape
  }

  /** The items have the shapes that the variant declares. */
  predicate OfVariant(items: seq<PayloadItem>, variant: Variant) {
    |items| == |variant.types| && forall k :: 0 <= k < |items| ==> ItemShape(items[k]) == variant.types[k]
  }

  lemma {:induction false} PayloadSum(items: seq<PayloadItem>, types: seq<Shape>)
    requires items != [] && |items| == |types| && forall k :: 0 <= k < |items| ==> ItemShape(items[k]) == types[k]
    ensures UpTo(items, |items| - 1) == Layout.PayloadSize(types)
    decreases |items|
  {
    if |items| > 1 {
      UpToFromFront(items, |items| - 1);
      PayloadSum(items[1..], types[1..]);
    }
  }

  /** Tag and payload of any variant lie inside the enum's slot. */
  lemma PayloadFits(variants: seq<Variant>, tag: nat, items: seq<PayloadItem>)
    requires tag < |variants| && OfVariant(items, variants[tag])
    ensures 8 + (if items == [] then 0 else UpTo(items, |items| - 1)) <= Layout.Size(Enum(variants))
  {
    if items != [] {
      PayloadSum(items, variants[tag].types);
    }
    Layout.MaxBounds(variants);
  }

  /** A value of an enum in the frame: the tag, then the payload, word by word. */
  ghost predicate HoldsEnum(core: Core, top: nat, tag: nat, payload: seq<Expr>, env: Env) {
    && Read(core, NumberedOffset(top, RBP)) == Some(tag)
    && forall k :: 0 <= k < |payload| ==> HoldsValue(core, top - 8 * (k + 1), payload[k], env)
  }

  /** The items are covered and have the shapes that the variant declares. */
  ghost predicate EnumOk(variants: seq<Variant>, variant: Ident, items: seq<PayloadItem>, types: map<Ident, Ty>,
                         vars: map<Ident, Location>) {
    && |variants| <= IMM_MAX && ItemsOk(items, types, vars)
    && TagOf(variants, variant).Some?
    && OfVariant(items, variants[TagIn(variants, variant)])
  }

  /** The tag of a variant that exists. */
  function TagIn(variants: seq<Variant>, name: Ident): (tag: nat)
    requires TagOf(variants, name).Some?
    ensures tag == TagOf(variants, name).value < |variants| && variants[tag].name == name
    decreases |variants|
  {
    if variants[0].name == name then 0 else 1 + TagIn(variants[1..], name)
  }

  /** An enum declaration stores the number of the variant and its payload, inside the enum's slot. */
  lemma LetEnumRuns(order: Order, frame: Frame, name: Ident, variants: seq<Variant>, variant: Ident,
                    items: seq<PayloadItem>, types: map<Ident, Ty>, env: Env, core: Core, base: int) returns (after: Core)
    requires Related(frame.vars, frame.currentStack, types, env, core, base) && base % 8 == 0
    requires name !in types && EnumOk(variants, variant, items, types, frame.vars) && AllStorable(items)
    requires base - (frame.currentStack + Layout.Size(Enum(variants))) >= 0 && Layout.Size(Enum(variants)) <= IMM_MAX
    requires MappedRange(core, base - (frame.currentStack + Layout.Size(Enum(variants))), base - frame.currentStack)
    requires LetEnumCode(order, frame, name, variants, variant, items).Ok?
    ensures RunStraight(LetEnumCode(order, frame, name, variants, variant, items).value.code, core) == Some(after)
    ensures var next := LetEnumCode(order, frame, name, variants, variant, items).value.frame;
            var top := frame.currentStack + Layout.Size(Enum(variants));
            && next.vars == frame.vars[name := NumberedOffset(top, RBP)] && next.currentStack == top
            && Related(next.vars, top, types, env, after, base) && CallerKept(core, after, base)
            && HoldsEnum(after, top, TagIn(variants, variant), Values(items), env)
  {
    hide Related, RunStraight, StorePayload, PushCode, ItemsOk, AllStorable, Layout.Size, HoldsEnum, MappedRange, OfVariant,
         TagIn, Values, LetEnumCode;
    var ty, depth, tag := Enum(variants), frame.currentStack, TagIn(variants, variant);
    var top := depth + Layout.Size(ty);
    LetEnumParts(order, frame, name, variants, variant, items);
    StorablePayload(items);
    PayloadFits(variants, tag, items);
    SizeAligned(ty);
    var alloc := AllocSlot(frame, name, ty);
    ItemsStayOk(items, types, frame.vars, name, NumberedOffset(top, RBP));
    var mid := AllocRuns(frame.vars, depth, types, env, core, base, name, ty);
    SlotsAbove(frame.vars, depth, types, env, core, base, name, NumberedOffset(top, RBP));
    RangeKept(core, mid, base - top, base - depth);
    after := EnumStored(order, alloc.frame, tag, items, top, types, env, mid, base, depth);
    StraightAppend(alloc.code, [TagStore(tag, top)] + StorePayload(order, alloc.frame, items, top).value.code, core);
    CallerKeptThrough(core, mid, after, base, base - top, base - depth);
  }

  /** Room, tag and payload. */
  lemma LetEnumParts(order: Order, frame: Frame, name: Ident, variants: seq<Variant>, variant: Ident, items: seq<PayloadItem>)
    requires LetEnumCode(order, frame, name, variants, variant, items).Ok?
    ensures TagOf(variants, variant).Some?
    ensures var alloc := AllocSlot(frame, name, Enum(variants));
            var top := frame.currentStack + Layout.Size(Enum(variants));
            && alloc.frame.currentStack == top && alloc.code == PushCode(Enum(variants))
            && alloc.frame.vars == frame.vars[name := NumberedOffset(top, RBP)]
            && StorePayload(order, alloc.frame, items, top).Ok?
            && var stores := StorePayload(order, alloc.frame, items, top).value;
               LetEnumCode(order, frame, name, variants, variant, items).value
               == Emitted(alloc.code + ([TagStore(TagIn(variants, variant), top)] + stores.code), stores.frame)
  {
    hide StorePayload, PushCode;
    var alloc := AllocSlot(frame, name, Enum(variants));
    var top := alloc.frame.currentStack;
    var stores := StorePayload(order, alloc.frame, items, top).value;
    assert alloc.code + [TagStore(TagIn(variants, variant), top)] + stores.code
        == alloc.code + ([TagStore(TagIn(variants, variant), top)] + stores.code);
  }

  /** The stores of an enum initialiser, once there is room. */
  lemma EnumStored(order: Order, frame: Frame, tag: nat, items: seq<PayloadItem>, top: nat, types: map<Ident, Ty>, env: Env,
                   core: Core, base: int, depth: nat) returns (after: Core)
    requires Related(frame.vars, top, types, env, core, base) && base % 8 == 0 && tag <= IMM_MAX
    requires ItemsOk(items, types, frame.vars) && AllStorable(items) && AllAbove(frame.vars, types.Keys, depth)
    requires top % 8 == 0 && depth + 8 + 8 * |items| <= top
    requires MappedRange(core, base - top, base - depth)
    requires StorePayload(order, frame, items, top).Ok?
    ensures RunStraight([TagStore(tag, top)] + StorePayload(order, frame, items, top).value.code, core) == Some(after)
    ensures var next := StorePayload(order, frame, items, top).value.frame; next == frame.(used := next.used)
    ensures Related(frame.vars, top, types, env, after, base)
    ensures HoldsEnum(after, top, tag, Values(items), env) && ChangedWithin(core, after, base - top, base - depth)
  {
    ValuesOk(items, types, frame.vars);
    HoldingOf(frame.vars, top, types, env, core, base);
    PayloadIsLeaves(order, frame, items, top, types, env, core);
    hide Related, StorePayload, StoreLeaves, ItemsOk, AllOk, AllStorable, AllAbove, MappedRange, HoldsEnum, RunStraight;
    after := LeavesStored(order, frame, tag, Values(items), top, types, env, core, base, depth);
  }

  lemma LeavesStored(order: Order, frame: Frame, tag: nat, values: seq<Expr>, top: nat, types: map<Ident, Ty>, env: Env,
                     core: Core, base: int, depth: nat) returns (after: Core)
    requires Related(frame.vars, top, types, env, core, base) && base % 8 == 0 && tag <= IMM_MAX
    requires AllOk(values, types) && AllAbove(frame.vars, types.Keys, depth)
    requires top % 8 == 0 && depth + 8 + 8 * |values| <= top
    requires MappedRange(core, base - top, base - depth)
    requires StoreLeaves(order, frame, values, top - 8).Ok?
    ensures RunStraight([TagStore(tag, top)] + StoreLeaves(order, frame, values, top - 8).value.code, core) == Some(after)
    ensures var next := StoreLeaves(order, frame, values, top - 8).value.frame; next == frame.(used := next.used)
    ensures Related(frame.vars, top, types, env, after, base)
    ensures HoldsEnum(after, top, tag, values, env) && ChangedWithin(core, after, base - top, base - depth)
  {
    hide Related, RunStraight, StoreLeaves, AllOk, AllAbove, HoldsEnum, HoldsValue, Eval;
    var mid := CellStore(frame.vars, top, types, env, core, base, depth, top, tag);
    SizedMovRuns(core, Const(IntVal(tag)), NumberedOffset(top, RBP), tag, mid);
    HoldingOf(frame.vars, top, types, env, mid, base);
    RangeKept(core, mid, base - (top - 8), base - depth);
    after := StoreLeavesRuns(order, frame, values, top - 8, top, types, env, mid, base, depth);
    HoldingOf(frame.vars, top, types, env, after, base);
    LaterKeep(core, mid, after, base, top, depth, tag);
    EnumHeld(after, top, tag, values, env);
    StraightAppend([TagStore(tag, top)], StoreLeaves(order, frame, values, top - 8).value.code, core);
  }

  /** Items that can be stored have 8 bytes each. */
  lemma StorablePayload(items: seq<PayloadItem>)
    requires AllStorable(items)
    ensures items != [] ==> UpTo(items, |items| - 1) == 8 * |items|
  {
    hide Bare;
    if items != [] {
      assert WordSized(items) by {
        assert forall k :: 0 <= k < |items| ==> Storable(items[k]);
      }
      WordsUpTo(items, |items| - 1);
    }
  }

  lemma ValuesOk(items: seq<PayloadItem>, types: map<Ident, Ty>, vars: map<Ident, Location>)
    requires AllStorable(items) && ItemsOk(items, types, vars)
    ensures |Values(items)| == |items| && AllOk(Values(items), types)
  {
    hide ExprOk, Bare, SmallLiteral;
    forall i | 0 <= i < |items| ensures ExprOk(Values(items)[i], types) && SmallLiteral(Values(items)[i]) {
      assert ItemOk(items[i], types, vars) && Storable(items[i]);
    }
  }

  lemma ItemsStayOk(items: seq<PayloadItem>, types: map<Ident, Ty>, vars: map<Ident, Location>, name: Ident, loc: Location)
    requires ItemsOk(items, types, vars) && loc.NumberedOffset?
    ensures ItemsOk(items, types, vars[name := loc])
  {
    hide ExprOk;
    forall i | 0 <= i < |items| ensures ItemOk(items[i], types, vars[name := loc]) {
      assert ItemOk(items[i], types, vars);
    }
  }

  lemma EnumHeld(core: Core, top: nat, tag: nat, items: seq<Expr>, env: Env)
    requires Read(core, NumberedOffset(top, RBP)) == Some(tag)
    requires forall i :: 0 <= i < |items| ==> HoldsValue(core, top - 8 - 8 * i, items[i], env)
    ensures HoldsEnum(core, top, tag, items, env)
  {
    hide HoldsValue;
    forall k | 0 <= k < |items| ensures HoldsValue(core, top - 8 * (k + 1), items[k], env) {
      assert HoldsValue(core, top - 8 - 8 * k, items[k], env);
      assert top - 8 - 8 * k == top - 8 * (k + 1);
    }
  }

  /** No enum is larger than it has to be: some variant with its items, behind the tag, fills the slot. */
  lemma PayloadFills(variants: seq<Variant>)
    requires variants != []
    ensures exists v :: v in variants && 8 + Layout.PayloadSize(v.types) == Layout.Size(Enum(variants))
  {
    Layout.MaxBounds(variants);
    var i :| 0 <= i < |variants| && Layout.MaxPayload(variants) == Layout.PayloadSize(variants[i].types);
    assert variants[i] in variants;
  }

  lemma {:induction false} SizeUpTo(items: seq<PayloadItem>)
    ensures ItemsSize(items) == if items == [] then 0 else UpTo(items, |items| - 1)
  {
    hide ItemSize;
    if |items| > 1 {
      SizeUpTo(items[1..]);
      UpToFromFront(items, |items| - 1);
    } else if items != [] {
      assert ItemsSize(items[1..]) == 0;
    }
  }

  /** An enum initialiser for a variant that there is, with its items, compiles, for every order of the registers, if
      and only if there are registers for the items. */
  lemma LetEnumCompilesExactly(order: Order, frame: Frame, name: Ident, variants: seq<Variant>, variant: Ident,
                               items: seq<PayloadItem>, n: nat, types: map<Ident, Ty>, env: Env, core: Core)
    requires Complete(order) && Count(frame.used, n) && EnvTyped(env, types) && Holding(frame.vars, env, core)
    requires name !in types && EnumOk(variants, variant, items, types, frame.vars)
    ensures LetEnumCode(order, frame, name, variants, variant, items).Ok? <==> ItemsNeed(items, n).peak <= REGS
  {
    hide StorePayload, Complete, ItemsUse, ItemsNeed, ExprOk, OfVariant, Layout.Size, ItemSize, ItemsSize;
    var alloc := AllocSlot(frame, name, Enum(variants));
    var scope := CodePlan.ScopeOf(alloc.frame);
    var top := alloc.frame.currentStack;
    CountBounded(frame.used, n);
    PayloadFits(variants, TagIn(variants, variant), items);
    SizeUpTo(items);
    forall item | item in items
      ensures match item case Single(e) => Compilable(e) && Bound(e, scope.vars) case Copied(x, _) => x in scope.vars
    {
      var i :| 0 <= i < |items| && items[i] == item;
      assert ItemOk(items[i], types, frame.vars);
      if item.Single? {
        Covers(item.value, types);
        TypedBound(item.value, types, frame.vars, env, core);
        BoundStays(item.value, types, frame.vars, name, NumberedOffset(top, RBP));
      }
    }
    ItemsFit(items, scope, n, top);
    ItemsUsed(order, alloc.frame, items, top, n);
  }

  /** The code of an enum declaration can be run exactly when every payload item is a scalar and none is a bare
      variable. */
  lemma EnumRunsExactly(order: Order, frame: Frame, name: Ident, variants: seq<Variant>, variant: Ident,
                        items: seq<PayloadItem>, types: map<Ident, Ty>, env: Env, core: Core, base: int)
    requires Related(frame.vars, frame.currentStack, types, env, core, base) && base % 8 == 0
    requires name !in types && EnumOk(variants, variant, items, types, frame.vars)
    requires base - (frame.currentStack + Layout.Size(Enum(variants))) >= 0 && Layout.Size(Enum(variants)) <= IMM_MAX
    requires MappedRange(core, base - (frame.currentStack + Layout.Size(Enum(variants))), base - frame.currentStack)
    requires LetEnumCode(order, frame, name, variants, variant, items).Ok?
    ensures RunStraight(LetEnumCode(order, frame, name, variants, variant, items).value.code, core).Some? <==> AllStorable(items)
  {
    hide Related, RunStraight, StorePayload, PushCode, ItemsOk, AllStorable, Layout.Size, OfVariant, ItemSize;
    if AllStorable(items) {
      var _ := LetEnumRuns(order, frame, name, variants, variant, items, types, env, core, base);
    } else {
      var ty, tag := Enum(variants), TagOf(variants, variant).value;
      var top := frame.currentStack + Layout.Size(ty);
      var alloc := AllocSlot(frame, name, ty);
      var c1 := AllocRuns(frame.vars, frame.currentStack, types, env, core, base, name, ty);
      HoldingOf(alloc.frame.vars, top, types, env, c1, base);
      ItemsStayOk(items, types, frame.vars, name, NumberedOffset(top, RBP));
      StraightAppend(alloc.code + [TagStore(tag, top)], StorePayload(order, alloc.frame, items, top).value.code, core);
      if RunStraight(alloc.code + [TagStore(tag, top)], core).Some? {
        PayloadStuck(order, alloc.frame, items, top, types, env, c1, RunStraight(alloc.code + [TagStore(tag, top)], core).value);
      }
    }
  }
}
