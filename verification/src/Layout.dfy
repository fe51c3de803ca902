/** Sizes of types, where the parts of an aggregate lie, and which bytes of the frame a variable
    gets. Several walks over the same type have to agree: the one that makes room on the stack, the
    one that stores an initialiser leaf by leaf and the one that finds a field by name. */
module Layout {
  import opened Lir

  // ---------- sizes ----------

  /** `Ty::size`. */
  function Size(shape: Shape): nat
    decreases shape
  {
    match shape
    case Scalar => 8
    case Array(len, elem) => Size(elem) * len
    case Struct(fields) => FieldsSize(fields)
    case Enum(variants) => 8 + MaxPayload(variants)
  }

  function FieldsSize(fields: seq<Field>): nat
    decreases fields
  {
    if fields == [] then 0
    else
      assert fields decreases to fields[0];
      Size(fields[0].shape) + FieldsSize(fields[1..])
  }

  function PayloadSize(types: seq<Shape>): nat
    decreases types
  {
    if types == [] then 0 else Size(types[0]) + PayloadSize(types[1..])
  }

  function Max(a: nat, b: nat): nat {
    if a > b then a else b
  }

  function MaxPayload(variants: seq<Variant>): nat
    decreases variants
  {
    if variants == [] then 0 else Max(PayloadSize(variants[0].types), MaxPayload(variants[1..]))
  }

  // ---------- room on the stack ----------

  /** The running maximum of `push_stack`, which counts the tag with every variant. */
  function LargestVariant(variants: seq<Variant>, n: nat): nat
    requires n <= |variants|
  {
    if n == 0 then 0 else Max(LargestVariant(variants, n - 1), PayloadSize(variants[n - 1].types) + 8)
  }

  /** What `push_stack` takes from the stack pointer. */
  function PushBytes(shape: Shape): nat
    decreases shape
  {
    match shape
    case Scalar => 8
    case Array(len, elem) => len * Size(elem)
    case Struct(fields) => FieldsBytes(fields)
    case Enum(variants) => LargestVariant(variants, |variants|)
  }

  function FieldsBytes(fields: seq<Field>): nat
    decreases fields
  {
    if fields == [] then 0
    else
      assert fields decreases to fields[0];
      PushBytes(fields[0].shape) + FieldsBytes(fields[1..])
  }

  /** How many enums without variants the type holds, reached through structs. Elements of arrays do
      not count: an array takes its room by size. */
  function EmptyEnums(shape: Shape): nat
    decreases shape
  {
    match shape
    case Struct(fields) => EmptyEnumFields(fields)
    case Enum(variants) => if variants == [] then 1 else 0
    case _ => 0
  }

  function EmptyEnumFields(fields: seq<Field>): nat
    decreases fields
  {
    if fields == [] then 0
    else
      assert fields decreases to fields[0];
      EmptyEnums(fields[0].shape) + EmptyEnumFields(fields[1..])
  }

  lemma {:induction false} LargestBounds(variants: seq<Variant>, n: nat)
    requires n <= |variants|
    ensures forall i :: 0 <= i < n ==> PayloadSize(variants[i].types) + 8 <= LargestVariant(variants, n)
    ensures n > 0 ==> exists i :: 0 <= i < n && LargestVariant(variants, n) == PayloadSize(variants[i].types) + 8
  {
    if n > 0 {
      LargestBounds(variants, n - 1);
      if LargestVariant(variants, n) == PayloadSize(variants[n - 1].types) + 8 {
      } else {
        var i :| 0 <= i < n - 1 && LargestVariant(variants, n - 1) == PayloadSize(variants[i].types) + 8;
        assert LargestVariant(variants, n) == PayloadSize(variants[i].types) + 8;
      }
    }
  }

  lemma {:induction false} MaxBounds(variants: seq<Variant>)
    ensures forall i :: 0 <= i < |variants| ==> PayloadSize(variants[i].types) <= MaxPayload(variants)
    ensures variants != [] ==> exists i :: 0 <= i < |variants| && MaxPayload(variants) == PayloadSize(variants[i].types)
    decreases variants
  {
    if variants != [] {
      MaxBounds(variants[1..]);
      if MaxPayload(variants) == PayloadSize(variants[0].types) {
      } else {
        var i :| 0 <= i < |variants[1..]| && MaxPayload(variants[1..]) == PayloadSize(variants[1..][i].types);
        assert MaxPayload(variants) == PayloadSize(variants[i + 1].types);
      }
    }
  }

  /** The running maximum over a non-empty list of variants is the size of the enum. */
  lemma LargestIsSize(variants: seq<Variant>)
    requires variants != []
    ensures LargestVariant(variants, |variants|) == 8 + MaxPayload(variants)
  {
    LargestBounds(variants, |variants|);
    MaxBounds(variants);
    var i :| 0 <= i < |variants| && LargestVariant(variants, |variants|) == PayloadSize(variants[i].types) + 8;
    var j :| 0 <= j < |variants| && MaxPayload(variants) == PayloadSize(variants[j].types);
    assert PayloadSize(variants[j].types) + 8 <= LargestVariant(variants, |variants|);
  }

  /** Every enum without variants is given 8 bytes less than its size, so a type is given its size
      exactly when it holds no such enum. */
  lemma {:induction false} PushedBytes(shape: Shape)
    ensures PushBytes(shape) + 8 * EmptyEnums(shape) == Size(shape)
    ensures PushBytes(shape) == Size(shape) <==> EmptyEnums(shape) == 0
    decreases shape
  {
    match shape
    case Struct(fields) => PushedFields(fields);
    case Enum(variants) =>
      if variants != [] {
        LargestIsSize(variants);
      }
    case _ =>
  }

  lemma {:induction false} PushedFields(fields: seq<Field>)
    ensures FieldsBytes(fields) + 8 * EmptyEnumFields(fields) == FieldsSize(fields)
    decreases fields
  {
    if fields != [] {
      assert fields decreases to fields[0];
      PushedBytes(fields[0].shape);
      PushedFields(fields[1..]);
    }
  }

  // ---------- the frame ----------

  datatype Decl = Decl(name: Ident, shape: Shape)

  function TotalSize(decls: seq<Decl>, n: nat): nat
    requires n <= |decls|
  {
    if n == 0 then 0 else TotalSize(decls, n - 1) + Size(decls[n - 1].shape)
  }

  /** The distance from RBP down to the start of the variable declared as number `i`, in a frame that
      held `start` bytes before. */
  function SlotTop(start: nat, decls: seq<Decl>, i: nat): nat
    requires i < |decls|
  {
    start + TotalSize(decls, i + 1)
  }

  /** The byte `depth` below RBP belongs to variable `i`, which starts at its slot's top and grows
      towards RBP. */
  predicate InSlot(start: nat, decls: seq<Decl>, i: nat, depth: nat)
    requires i < |decls|
  {
    SlotTop(start, decls, i) - Size(decls[i].shape) < depth <= SlotTop(start, decls, i)
  }

  lemma {:induction false} TotalGrows(decls: seq<Decl>, i: nat, j: nat)
    requires i <= j <= |decls|
    ensures TotalSize(decls, i) <= TotalSize(decls, j)
    decreases j
  {
    if i < j {
      TotalGrows(decls, i, j - 1);
    }
  }

  /** Slots of different variables share no byte. */
  lemma SlotsDisjoint(start: nat, decls: seq<Decl>, i: nat, j: nat, depth: nat)
    requires i < |decls| && j < |decls|
    requires InSlot(start, decls, i, depth) && InSlot(start, decls, j, depth)
    ensures i == j
  {
    if i < j {
      TotalGrows(decls, i + 1, j);
    } else if j < i {
      TotalGrows(decls, j + 1, i);
    }
  }

  /** Together the slots are exactly the new part of the frame. */
  lemma {:induction false} SlotsCover(start: nat, decls: seq<Decl>, n: nat, depth: nat)
    requires n <= |decls|
    ensures start < depth <= start + TotalSize(decls, n) <==> exists i :: 0 <= i < n && InSlot(start, decls, i, depth)
  {
    if n > 0 {
      SlotsCover(start, decls, n - 1, depth);
      if start < depth <= start + TotalSize(decls, n) {
        if depth > start + TotalSize(decls, n - 1) {
          assert InSlot(start, decls, n - 1, depth);
        }
      }
    }
  }

  // ---------- leaves of a struct ----------

  /** A scalar inside a struct: a field, an element of an array field, or a leaf of a field. */
  datatype Path = At(name: Ident) | Item(name: Ident, index: nat) | Under(name: Ident, rest: Path)

  datatype Found = Found(before: nat, shape: Shape)

  /** The first field of that name and how many bytes come before it. */
  function Find(fields: seq<Field>, name: Ident): Option<Found>
    decreases |fields|
  {
    if fields == [] then None
    else if fields[0].name == name then Some(Found(0, fields[0].shape))
    else
      var later :- Find(fields[1..], name);
      Some(Found(Size(fields[0].shape) + later.before, later.shape))
  }

  predicate IsLeaf(fields: seq<Field>, path: Path)
    decreases path
  {
    Find(fields, path.name).Some? &&
    var shape := Find(fields, path.name).value.shape;
    match path
    case At(_) => shape.Scalar?
    case Item(_, i) => shape.Array? && shape.elem.Scalar? && i < shape.len
    case Under(_, rest) => shape.Struct? && IsLeaf(shape.fields, rest)
  }

  /** How far the leaf is from the start of the struct. */
  function PathOffset(fields: seq<Field>, path: Path): nat
    requires IsLeaf(fields, path)
    decreases path
  {
    var found := Find(fields, path.name).value;
    match path
    case At(_) => found.before
    case Item(_, i) => found.before + 8 * i
    case Under(_, rest) => found.before + PathOffset(found.shape.fields, rest)
  }

  /** Field names are distinct and every field is a scalar, an array of scalars or such a struct. */
  predicate Plain(fields: seq<Field>)
    decreases fields
  {
    fields != [] ==>
      && Find(fields[1..], fields[0].name).None?
      && PlainField(fields[0])
      && Plain(fields[1..])
  }

  predicate PlainField(field: Field)
    decreases field
  {
    match field.shape
    case Scalar => true
    case Array(_, elem) => elem.Scalar?
    case Struct(fields) => Plain(fields)
    case Enum(_) => false
  }

  function AllUnder(name: Ident, paths: seq<Path>): (under: seq<Path>)
    ensures |under| == |paths| && forall i :: 0 <= i < |under| ==> under[i] == Under(name, paths[i])
  {
    if paths == [] then [] else [Under(name, paths[0])] + AllUnder(name, paths[1..])
  }

  function Items(name: Ident, n: nat): (items: seq<Path>)
    ensures |items| == n && forall i :: 0 <= i < n ==> items[i] == Item(name, i)
  {
    if n == 0 then [] else Items(name, n - 1) + [Item(name, n - 1)]
  }

  /** All leaves in declaration order. */
  function LeafPaths(fields: seq<Field>): seq<Path>
    decreases fields
  {
    if fields == [] then [] else FieldLeaves(fields[0]) + LeafPaths(fields[1..])
  }

  function FieldLeaves(field: Field): seq<Path>
    decreases field
  {
    match field.shape
    case Scalar => [At(field.name)]
    case Array(len, _) => Items(field.name, len)
    case Struct(inner) => AllUnder(field.name, LeafPaths(inner))
    case Enum(_) => []
  }

  /** The leaves fill the struct without gaps: leaf number `i` lies at `8 * i`. */
  lemma {:induction false} LeafAt(fields: seq<Field>, i: nat)
    requires Plain(fields) && i < |LeafPaths(fields)|
    ensures IsLeaf(fields, LeafPaths(fields)[i]) && PathOffset(fields, LeafPaths(fields)[i]) == 8 * i
    decreases fields, 1
  {
    var own := FieldLeaves(fields[0]);
    if i < |own| {
      LeafOfFirst(fields, i);
    } else {
      LeavesFill(fields[0]);
      LeafAt(fields[1..], i - |own|);
      var path := LeafPaths(fields[1..])[i - |own|];
      LeafOfRest(fields, path);
    }
  }

  lemma {:induction false} LeafOfFirst(fields: seq<Field>, i: nat)
    requires Plain(fields) && fields != [] && i < |FieldLeaves(fields[0])|
    ensures var path := FieldLeaves(fields[0])[i];
            IsLeaf(fields, path) && PathOffset(fields, path) == 8 * i
    decreases fields, 0
  {
    if fields[0].shape.Struct? {
      assert fields decreases to fields[0];
      LeafAt(fields[0].shape.fields, i);
    }
  }

  lemma LeafOfRest(fields: seq<Field>, path: Path)
    requires Plain(fields) && fields != [] && IsLeaf(fields[1..], path)
    ensures IsLeaf(fields, path)
    ensures PathOffset(fields, path) == Size(fields[0].shape) + PathOffset(fields[1..], path)
  {
    assert path.name != fields[0].name;
  }

  lemma {:induction false} LeavesFill(field: Field)
    requires PlainField(field)
    ensures 8 * |FieldLeaves(field)| == Size(field.shape)
    decreases field
  {
    if field.shape.Struct? {
      FieldsFill(field.shape.fields);
    }
  }

  lemma {:induction false} FieldsFill(fields: seq<Field>)
    requires Plain(fields)
    ensures 8 * |LeafPaths(fields)| == FieldsSize(fields)
    decreases fields
  {
    if fields != [] {
      LeavesFill(fields[0]);
      FieldsFill(fields[1..]);
    }
  }

  /** Every leaf is in the list, at the place its offset says. */
  lemma {:induction false} LeafListed(fields: seq<Field>, path: Path)
    requires Plain(fields) && IsLeaf(fields, path)
    ensures PathOffset(fields, path) % 8 == 0
    ensures PathOffset(fields, path) / 8 < |LeafPaths(fields)|
    ensures LeafPaths(fields)[PathOffset(fields, path) / 8] == path
    decreases path, |fields|, 1
  {
    if path.name == fields[0].name {
      OwnLeafListed(fields, path);
    } else {
      LeavesFill(fields[0]);
      LeafOfRest(fields, path);
      LeafListed(fields[1..], path);
      hide IsLeaf, Plain, FieldLeaves;
      ListedAfter(FieldLeaves(fields[0]), LeafPaths(fields[1..]), PathOffset(fields[1..], path), path);
    }
  }

  lemma ListedAfter(own: seq<Path>, rest: seq<Path>, offset: nat, path: Path)
    requires offset % 8 == 0 && offset / 8 < |rest| && rest[offset / 8] == path
    ensures (8 * |own| + offset) % 8 == 0 && (8 * |own| + offset) / 8 < |own + rest|
    ensures (own + rest)[(8 * |own| + offset) / 8] == path
  {
    assert (8 * |own| + offset) / 8 == |own| + offset / 8;
  }

  lemma {:induction false} OwnLeafListed(fields: seq<Field>, path: Path)
    requires Plain(fields) && IsLeaf(fields, path) && path.name == fields[0].name
    ensures PathOffset(fields, path) % 8 == 0
    ensures PathOffset(fields, path) / 8 < |FieldLeaves(fields[0])|
    ensures FieldLeaves(fields[0])[PathOffset(fields, path) / 8] == path
    decreases path, |fields|, 0
  {
    if path.Under? {
      LeafListed(fields[0].shape.fields, path.rest);
      hide IsLeaf, Plain;
    }
  }

  /** Different leaves lie in different words, all inside the struct. */
  lemma LeavesDisjoint(fields: seq<Field>, a: Path, b: Path)
    requires Plain(fields) && IsLeaf(fields, a) && IsLeaf(fields, b) && a != b
    ensures PathOffset(fields, a) + 8 <= PathOffset(fields, b) || PathOffset(fields, b) + 8 <= PathOffset(fields, a)
    ensures PathOffset(fields, a) + 8 <= FieldsSize(fields)
  {
    hide Plain, IsLeaf, PathOffset, LeafPaths, FieldsSize;
    LeafListed(fields, a);
    LeafListed(fields, b);
    FieldsFill(fields);
    var i, j := PathOffset(fields, a) / 8, PathOffset(fields, b) / 8;
    assert LeafPaths(fields)[i] == a && LeafPaths(fields)[j] == b;
    assert i != j;
  }

  // ---------- initialisers ----------

  /** `flatten_struct_init`, over all fields: the expressions in the order they are stored. */
  function Flatten(inits: seq<FieldInit>): seq<Expr>
    decreases inits
  {
    if inits == [] then [] else FlattenOne(inits[0]) + Flatten(inits[1..])
  }

  function FlattenOne(field: FieldInit): seq<Expr>
    decreases field
  {
    match field.init
    case One(e) => [e]
    case Many(items) => items
    case Nested(inits) => Flatten(inits)
  }

  /** The leaves that those expressions are meant for. */
  function InitPaths(inits: seq<FieldInit>): (paths: seq<Path>)
    ensures |paths| == |Flatten(inits)|
    decreases inits
  {
    if inits == [] then [] else PathsOfOne(inits[0]) + InitPaths(inits[1..])
  }

  function PathsOfOne(field: FieldInit): (paths: seq<Path>)
    ensures |paths| == |FlattenOne(field)|
    decreases field
  {
    match field.init
    case One(_) => [At(field.name)]
    case Many(items) => Items(field.name, |items|)
    case Nested(inits) => AllUnder(field.name, InitPaths(inits))
  }

  /** The fields are written in declaration order, at every level. */
  predicate InOrder(inits: seq<FieldInit>, fields: seq<Field>)
    decreases inits
  {
    if inits == [] || fields == [] then inits == [] && fields == []
    else Fits(inits[0], fields[0]) && InOrder(inits[1..], fields[1..])
  }

  predicate Fits(written: FieldInit, field: Field)
    decreases written
  {
    && written.name == field.name
    && match written.init
       case One(_) => field.shape.Scalar?
       case Many(items) => field.shape.Array? && field.shape.len == |items|
       case Nested(inits) => field.shape.Struct? && InOrder(inits, field.shape.fields)
  }

  lemma {:induction false} InOrderPaths(inits: seq<FieldInit>, fields: seq<Field>)
    requires InOrder(inits, fields)
    ensures InitPaths(inits) == LeafPaths(fields)
    decreases inits, 1
  {
    if inits != [] {
      assert PathsOfOne(inits[0]) == FieldLeaves(fields[0]) by {
        if inits[0].init.Nested? {
          assert inits decreases to inits[0];
          InOrderPaths(inits[0].init.inits, fields[0].shape.fields);
        }
      }
      InOrderPaths(inits[1..], fields[1..]);
    }
  }

  /** The initialiser stores its `i`-th expression at `8 * i`. Every expression is stored where its leaf
      is read exactly when the expressions are written in the order of the leaves. */
  lemma StoredWhereRead(inits: seq<FieldInit>, fields: seq<Field>)
    requires Plain(fields)
    requires forall path :: path in InitPaths(inits) ==> IsLeaf(fields, path)
    ensures (forall i :: 0 <= i < |InitPaths(inits)| ==> PathOffset(fields, InitPaths(inits)[i]) == 8 * i)
            <==> InitPaths(inits) <= LeafPaths(fields)
  {
    hide InitPaths, LeafPaths, IsLeaf, PathOffset;
    var paths, leaves := InitPaths(inits), LeafPaths(fields);
    if paths <= leaves {
      forall i | 0 <= i < |paths| ensures PathOffset(fields, paths[i]) == 8 * i {
        assert paths[i] == leaves[i];
        LeafAt(fields, i);
      }
    }
    if forall i :: 0 <= i < |paths| ==> PathOffset(fields, paths[i]) == 8 * i {
      forall i | 0 <= i < |paths| ensures i < |leaves| && paths[i] == leaves[i] {
        assert paths[i] in paths;
        LeafListed(fields, paths[i]);
      }
      if paths != [] {
        var last := paths[|paths| - 1];
        assert |paths| - 1 < |leaves|;
      }
    }
  }
}
