/** Types with generic parameters: substitution, and the matching that finds out which type stands for
    a parameter at a call. Function types and paths, on which both are unfinished, are excluded. */
module Generics {
  import Lir

  type Ident = Lir.Ident

  datatype Prim = ConstStr(len: nat) | Int | Char | Float | Bool | Void | Bottom

  datatype Ty =
    | Generic(ident: Ident, bound: Lir.Option<Ident>)
    | Array(size: nat, elem: Ty)
    | Struct(name: Ident, gen: seq<Ty>)
    | Enum(name: Ident, gen: seq<Ty>)
    | Ptr(inner: Ty)
    | Ref(inner: Ty)
    | Basic(prim: Prim)

  /** All generic parameters from left to right, repeated ones included. */
  function GenericsOf(t: Ty): seq<Ident>
    decreases t
  {
    match t
    case Generic(g, _) => [g]
    case Array(_, elem) => GenericsOf(elem)
    case Struct(_, gen) => GenericsOfAll(gen)
    case Enum(_, gen) => GenericsOfAll(gen)
    case Ptr(inner) => GenericsOf(inner)
    case Ref(inner) => GenericsOf(inner)
    case Basic(_) => []
  }

  function GenericsOfAll(ts: seq<Ty>): seq<Ident>
    decreases ts
  {
    if ts == [] then [] else GenericsOf(ts[0]) + GenericsOfAll(ts[1..])
  }

  /** `has_generics`. For a struct or enum it only asks whether there are type arguments. */
  predicate HasGenerics(t: Ty) {
    match t
    case Generic(_, _) => true
    case Array(_, elem) => HasGenerics(elem)
    case Struct(_, gen) => gen != []
    case Enum(_, gen) => gen != []
    case Ptr(inner) => HasGenerics(inner)
    case Ref(inner) => HasGenerics(inner)
    case Basic(_) => false
  }

  /** A type that says it has no parameters has none; the converse fails for `list<int>`. */
  lemma {:induction false} NoGenericsMissed(t: Ty)
    requires !HasGenerics(t)
    ensures GenericsOf(t) == []
    decreases t
  {
    match t
    case Array(_, elem) => NoGenericsMissed(elem);
    case Ptr(inner) => NoGenericsMissed(inner);
    case Ref(inner) => NoGenericsMissed(inner);
    case _ =>
  }

  /** The type under arrays, pointers and references. */
  function Stripped(t: Ty): Ty {
    match t
    case Array(_, elem) => Stripped(elem)
    case Ptr(inner) => Stripped(inner)
    case Ref(inner) => Stripped(inner)
    case _ => t
  }

  /** A type says that it has parameters without having any exactly when, under arrays and pointers, it is a struct or
      an enum with type arguments. */
  lemma {:induction false} ReportedExactly(t: Ty)
    requires GenericsOf(t) == []
    ensures HasGenerics(t) <==> (Stripped(t).Struct? || Stripped(t).Enum?) && Stripped(t).gen != []
    decreases t
  {
    match t
    case Array(_, elem) => ReportedExactly(elem);
    case Ptr(inner) => ReportedExactly(inner);
    case Ref(inner) => ReportedExactly(inner);
    case _ =>
  }

  /** `subst_generic`: one parameter replaced by a type. */
  function Subst(t: Ty, g: Ident, sub: Ty): Ty
    decreases t
  {
    match t
    case Generic(h, _) => if g == h then sub else t
    case Array(n, elem) => Array(n, Subst(elem, g, sub))
    case Struct(name, gen) => Struct(name, SubstEach(gen, g, sub))
    case Enum(name, gen) => Enum(name, SubstEach(gen, g, sub))
    case Ptr(inner) => Ptr(Subst(inner, g, sub))
    case Ref(inner) => Ref(Subst(inner, g, sub))
    case Basic(_) => t
  }

  function SubstEach(ts: seq<Ty>, g: Ident, sub: Ty): (r: seq<Ty>)
    ensures |r| == |ts|
    decreases ts
  {
    if ts == [] then [] else [Subst(ts[0], g, sub)] + SubstEach(ts[1..], g, sub)
  }

  /** What a substitution gives a parameter; parameters outside its domain stay. */
  type Substitution = map<Ident, Ty>

  /** All parameters replaced at the same time. */
  function Apply(s: Substitution, t: Ty): Ty
    decreases t
  {
    match t
    case Generic(g, _) => if g in s then s[g] else t
    case Array(n, elem) => Array(n, Apply(s, elem))
    case Struct(name, gen) => Struct(name, ApplyEach(s, gen))
    case Enum(name, gen) => Enum(name, ApplyEach(s, gen))
    case Ptr(inner) => Ptr(Apply(s, inner))
    case Ref(inner) => Ref(Apply(s, inner))
    case Basic(_) => t
  }

  function ApplyEach(s: Substitution, ts: seq<Ty>): (r: seq<Ty>)
    ensures |r| == |ts|
    decreases ts
  {
    if ts == [] then [] else [Apply(s, ts[0])] + ApplyEach(s, ts[1..])
  }

  // ---------- matching ----------

  /** `peel_out_ty`: the first part of `t` that stands where `pattern` has a parameter. */
  function PeelOut(t: Ty, pattern: Ty): Lir.Option<(Ty, Ident)>
    decreases pattern
  {
    match (t, pattern)
    case (_, Generic(g, _)) => Lir.Some((t, g))
    case (Array(_, a), Array(_, b)) => PeelOut(a, b)
    case (Struct(n, a), Struct(m, b)) => if n == m then PeelFirst(a, b) else Lir.None
    case (Enum(n, a), Enum(m, b)) => if n == m then PeelFirst(a, b) else Lir.None
    case (Ptr(a), Ptr(b)) => PeelOut(a, b)
    case (Ref(a), Ref(b)) => PeelOut(a, b)
    case _ => Lir.None
  }

  /** The first success over the zipped arguments. */
  function PeelFirst(ts: seq<Ty>, patterns: seq<Ty>): Lir.Option<(Ty, Ident)>
    decreases patterns
  {
    if ts == [] || patterns == [] then Lir.None
    else
      var first := PeelOut(ts[0], patterns[0]);
      if first.Some? then first else PeelFirst(ts[1..], patterns[1..])
  }

  /** A pattern without parameters matches nothing. */
  lemma {:induction false} NothingToPeel(t: Ty, pattern: Ty)
    requires GenericsOf(pattern) == []
    ensures PeelOut(t, pattern) == Lir.None
    decreases pattern
  {
    match (t, pattern)
    case (Array(_, a), Array(_, b)) => NothingToPeel(a, b);
    case (Struct(_, a), Struct(_, b)) => NothingToPeelFirst(a, b);
    case (Enum(_, a), Enum(_, b)) => NothingToPeelFirst(a, b);
    case (Ptr(a), Ptr(b)) => NothingToPeel(a, b);
    case (Ref(a), Ref(b)) => NothingToPeel(a, b);
    case _ =>
  }

  lemma {:induction false} NothingToPeelFirst(ts: seq<Ty>, patterns: seq<Ty>)
    requires GenericsOfAll(patterns) == []
    ensures PeelFirst(ts, patterns) == Lir.None
    decreases patterns
  {
    if ts != [] && patterns != [] {
      NothingToPeel(ts[0], patterns[0]);
      NothingToPeelFirst(ts[1..], patterns[1..]);
    }
  }

  /** A place in a type: which type argument to go into at each step. */
  type Place = seq<nat>

  /** What stands at a place of `t` and of `pattern`, if both are built alike on the way to it. */
  function Beside(t: Ty, pattern: Ty, place: Place): Lir.Option<(Ty, Ty)>
    decreases |place|
  {
    if place == [] then Lir.Some((t, pattern))
    else
      match (t, pattern)
      case (Array(_, a), Array(_, b)) => Beside(a, b, place[1..])
      case (Ptr(a), Ptr(b)) => Beside(a, b, place[1..])
      case (Ref(a), Ref(b)) => Beside(a, b, place[1..])
      case (Struct(n, a), Struct(m, b)) =>
        if n == m && place[0] < |a| && place[0] < |b| then Beside(a[place[0]], b[place[0]], place[1..]) else Lir.None
      case (Enum(n, a), Enum(m, b)) =>
        if n == m && place[0] < |a| && place[0] < |b| then Beside(a[place[0]], b[place[0]], place[1..]) else Lir.None
      case _ => Lir.None
  }

  /** The pattern has a parameter there, and this is beside it. */
  predicate StandsFor(t: Ty, pattern: Ty, place: Place, u: Ty, g: Ident) {
    match Beside(t, pattern, place)
    case Some((a, Generic(h, _))) => a == u && h == g
    case _ => false
  }

  /** What is found stands beside a parameter of the pattern, at a place up to which both types are built alike. */
  lemma {:induction false} FoundBeside(t: Ty, pattern: Ty) returns (place: Place)
    requires PeelOut(t, pattern).Some?
    ensures StandsFor(t, pattern, place, PeelOut(t, pattern).value.0, PeelOut(t, pattern).value.1)
    decreases pattern
  {
    place := [];
    match (t, pattern)
    case (_, Generic(_, _)) =>
    case (Array(_, a), Array(_, b)) =>
      var rest := FoundBeside(a, b);
      place := [0] + rest;
    case (Struct(_, a), Struct(_, b)) =>
      var i, rest := FoundBesideEach(a, b);
      place := [i] + rest;
    case (Enum(_, a), Enum(_, b)) =>
      var i, rest := FoundBesideEach(a, b);
      place := [i] + rest;
    case (Ptr(a), Ptr(b)) =>
      var rest := FoundBeside(a, b);
      place := [0] + rest;
    case (Ref(a), Ref(b)) =>
      var rest := FoundBeside(a, b);
      place := [0] + rest;
  }

  lemma {:induction false} FoundBesideEach(ts: seq<Ty>, patterns: seq<Ty>) returns (i: nat, place: Place)
    requires PeelFirst(ts, patterns).Some?
    ensures i < |ts| && i < |patterns| && PeelOut(ts[i], patterns[i]) == PeelFirst(ts, patterns)
    ensures forall j :: 0 <= j < i ==> PeelOut(ts[j], patterns[j]).None?
    ensures StandsFor(ts[i], patterns[i], place, PeelFirst(ts, patterns).value.0, PeelFirst(ts, patterns).value.1)
    decreases patterns
  {
    if PeelOut(ts[0], patterns[0]).Some? {
      i := 0;
      place := FoundBeside(ts[0], patterns[0]);
    } else {
      var k;
      k, place := FoundBesideEach(ts[1..], patterns[1..]);
      i := k + 1;
      assert forall j :: 0 < j < i ==> ts[1..][j - 1] == ts[j] && patterns[1..][j - 1] == patterns[j];
    }
  }

  /** And nothing is found only if nothing stands beside any parameter. */
  lemma {:induction false} NothingBeside(t: Ty, pattern: Ty, place: Place, u: Ty, g: Ident)
    requires StandsFor(t, pattern, place, u, g)
    ensures PeelOut(t, pattern).Some?
    decreases pattern
  {
    match (t, pattern)
    case (_, Generic(_, _)) =>
    case (Array(_, a), Array(_, b)) => NothingBeside(a, b, place[1..], u, g);
    case (Struct(_, a), Struct(_, b)) =>
      NothingBeside(a[place[0]], b[place[0]], place[1..], u, g);
      FirstIsFound(a, b, place[0]);
    case (Enum(_, a), Enum(_, b)) =>
      NothingBeside(a[place[0]], b[place[0]], place[1..], u, g);
      FirstIsFound(a, b, place[0]);
    case (Ptr(a), Ptr(b)) => NothingBeside(a, b, place[1..], u, g);
    case (Ref(a), Ref(b)) => NothingBeside(a, b, place[1..], u, g);
    case _ =>
  }

  lemma {:induction false} FirstIsFound(ts: seq<Ty>, patterns: seq<Ty>, i: nat)
    requires i < |ts| && i < |patterns| && PeelOut(ts[i], patterns[i]).Some?
    ensures PeelFirst(ts, patterns).Some?
    decreases i
  {
    if i > 0 {
      FirstIsFound(ts[1..], patterns[1..], i - 1);
    }
  }

  /** Matching inverts substitution: on any instance of a pattern it finds the first parameter and the
      type that the substitution gave it. */
  lemma {:induction false} PeelInvertsApply(s: Substitution, pattern: Ty)
    requires GenericsOf(pattern) != [] && GenericsOf(pattern)[0] in s
    ensures var g := GenericsOf(pattern)[0]; PeelOut(Apply(s, pattern), pattern) == Lir.Some((s[g], g))
    decreases pattern
  {
    match pattern
    case Array(_, elem) => PeelInvertsApply(s, elem);
    case Struct(_, gen) => PeelFirstInverts(s, gen);
    case Enum(_, gen) => PeelFirstInverts(s, gen);
    case Ptr(inner) => PeelInvertsApply(s, inner);
    case Ref(inner) => PeelInvertsApply(s, inner);
    case _ =>
  }

  lemma {:induction false} PeelFirstInverts(s: Substitution, patterns: seq<Ty>)
    requires GenericsOfAll(patterns) != [] && GenericsOfAll(patterns)[0] in s
    ensures var g := GenericsOfAll(patterns)[0]; PeelFirst(ApplyEach(s, patterns), patterns) == Lir.Some((s[g], g))
    decreases patterns
  {
    if GenericsOf(patterns[0]) == [] {
      NothingToPeel(Apply(s, patterns[0]), patterns[0]);
      PeelFirstInverts(s, patterns[1..]);
    } else {
      assert GenericsOfAll(patterns)[0] == GenericsOf(patterns[0])[0];
      PeelInvertsApply(s, patterns[0]);
    }
  }

  // ---------- one parameter after the other ----------

  /** A substitution of other parameters changes nothing. */
  lemma {:induction false} ApplyOutside(s: Substitution, t: Ty)
    requires forall g :: g in GenericsOf(t) ==> g !in s
    ensures Apply(s, t) == t
    decreases t
  {
    match t
    case Generic(g, _) => assert g in GenericsOf(t);
    case Array(_, elem) => ApplyOutside(s, elem);
    case Struct(_, gen) => ApplyEachOutside(s, gen);
    case Enum(_, gen) => ApplyEachOutside(s, gen);
    case Ptr(inner) => ApplyOutside(s, inner);
    case Ref(inner) => ApplyOutside(s, inner);
    case Basic(_) =>
  }

  lemma {:induction false} ApplyEachOutside(s: Substitution, ts: seq<Ty>)
    requires forall g :: g in GenericsOfAll(ts) ==> g !in s
    ensures ApplyEach(s, ts) == ts
    decreases ts
  {
    if ts != [] {
      ApplyOutside(s, ts[0]);
      ApplyEachOutside(s, ts[1..]);
    }
  }

  /** The parameters of an instance come from the types put in, or were not in the substitution. */
  lemma {:induction false} GenericsAfter(s: Substitution, t: Ty, h: Ident)
    requires h in GenericsOf(Apply(s, t))
    ensures (h in GenericsOf(t) && h !in s) || exists g :: g in GenericsOf(t) && g in s && h in GenericsOf(s[g])
    decreases t
  {
    match t
    case Generic(g, _) => assert g in GenericsOf(t);
    case Array(_, elem) => GenericsAfter(s, elem, h);
    case Struct(_, gen) => GenericsAfterEach(s, gen, h);
    case Enum(_, gen) => GenericsAfterEach(s, gen, h);
    case Ptr(inner) => GenericsAfter(s, inner, h);
    case Ref(inner) => GenericsAfter(s, inner, h);
    case Basic(_) =>
  }

  lemma {:induction false} GenericsAfterEach(s: Substitution, ts: seq<Ty>, h: Ident)
    requires h in GenericsOfAll(ApplyEach(s, ts))
    ensures (h in GenericsOfAll(ts) && h !in s) || exists g :: g in GenericsOfAll(ts) && g in s && h in GenericsOf(s[g])
    decreases ts
  {
    if ts != [] {
      if h in GenericsOf(Apply(s, ts[0])) {
        GenericsAfter(s, ts[0], h);
      } else {
        GenericsAfterEach(s, ts[1..], h);
      }
    }
  }

  function Position(generics: seq<Ident>, g: Ident): (i: nat)
    ensures i <= |generics|
    ensures i < |generics| <==> g in generics
    ensures i < |generics| ==> generics[i] == g
  {
    if generics == [] || generics[0] == g then 0 else 1 + Position(generics[1..], g)
  }

  /** The substitution that gives each declared parameter its type argument; the first declaration counts, and
      a parameter without a type argument gets nothing. */
  function ArgsOf(generics: seq<Ident>, args: seq<Ty>): (s: Substitution)
    ensures forall g :: g in s <==> Position(generics, g) < |generics| && Position(generics, g) < |args|
    ensures forall g :: g in s ==> s[g] == args[Position(generics, g)]
  {
    if generics == [] || args == [] then map[]
    else ArgsOf(generics[1..], args[1..])[generics[0] := args[0]]
  }

  /** The parameters `gens` replaced one after the other. */
  function InOrder(t: Ty, gens: seq<Ident>, s: Substitution): Ty
    requires forall g :: g in gens ==> g in s
    decreases |gens|
  {
    if gens == [] then t else InOrder(Subst(t, gens[0], s[gens[0]]), gens[1..], s)
  }

  /** `subs_type_args`: replace the parameters one after the other, in the order in which they occur and
      as often as they occur. A parameter that is not declared, or has no type argument, is a panic. */
  method SubsTypeArgs(ty: Ty, generics: seq<Ident>, args: seq<Ty>) returns (r: Lir.Option<Ty>)
    ensures r.None? <==> exists g :: g in GenericsOf(ty) && g !in ArgsOf(generics, args)
    ensures r.Some? ==> r.value == InOrder(ty, GenericsOf(ty), ArgsOf(generics, args))
    ensures r.Some? ==> (r.value == Apply(ArgsOf(generics, args), ty)
                         <==> Harmless(GenericsOf(ty), ArgsOf(generics, args)))
  {
    var typ, i, gens := ty, 0, GenericsOf(ty);
    ghost var s := ArgsOf(generics, args);
    assert gens[0..] == gens;
    while i < |gens|
      invariant 0 <= i <= |gens| && gens == GenericsOf(ty)
      invariant forall k :: 0 <= k < i ==> gens[k] in s
      invariant (forall g :: g in gens ==> g in s) ==> InOrder(typ, gens[i..], s) == InOrder(ty, gens, s)
    {
      var pos := Position(generics, gens[i]);
      if pos == |generics| || pos >= |args| {
        assert gens[i] in gens && gens[i] !in s;
        return Lir.None;
      }
      assert gens[i..][0] == gens[i] && gens[i..][1..] == gens[i + 1..];
      typ := Subst(typ, gens[i], args[pos]);
      i := i + 1;
    }
    SimultaneousExactly(s, ty);
    return Lir.Some(typ);
  }

  // ---------- when the order matters ----------

  /** What a parameter ends up as: its type argument, with the parameters that come later replaced in turn. */
  function Chain(gens: seq<Ident>, s: Substitution): (c: Substitution)
    requires forall g :: g in gens ==> g in s
    ensures forall g :: g in c <==> g in gens
    decreases |gens|
  {
    if gens == [] then map[]
    else Chain(gens[1..], s)[gens[0] := InOrder(s[gens[0]], gens[1..], s)]
  }

  /** Replacing one parameter and then others at the same time. */
  lemma {:induction false} SubstThenApply(s: Substitution, t: Ty, g: Ident, sub: Ty)
    ensures Apply(s, Subst(t, g, sub)) == Apply(s[g := Apply(s, sub)], t)
    decreases t
  {
    match t
    case Array(_, elem) => SubstThenApply(s, elem, g, sub);
    case Struct(_, gen) => SubstThenApplyEach(s, gen, g, sub);
    case Enum(_, gen) => SubstThenApplyEach(s, gen, g, sub);
    case Ptr(inner) => SubstThenApply(s, inner, g, sub);
    case Ref(inner) => SubstThenApply(s, inner, g, sub);
    case _ =>
  }

  lemma {:induction false} SubstThenApplyEach(s: Substitution, ts: seq<Ty>, g: Ident, sub: Ty)
    ensures ApplyEach(s, SubstEach(ts, g, sub)) == ApplyEach(s[g := Apply(s, sub)], ts)
    decreases ts
  {
    if ts != [] {
      SubstThenApply(s, ts[0], g, sub);
      SubstThenApplyEach(s, ts[1..], g, sub);
    }
  }

  lemma {:induction false} ApplyNothing(t: Ty)
    ensures Apply(map[], t) == t
  {
    ApplyOutside(map[], t);
  }

  /** Replacing parameters one after the other is one simultaneous substitution, for every type and any list of
      parameters. */
  lemma {:induction false} InOrderIsChain(t: Ty, gens: seq<Ident>, s: Substitution)
    requires forall g :: g in gens ==> g in s
    ensures InOrder(t, gens, s) == Apply(Chain(gens, s), t)
    decreases |gens|
  {
    if gens == [] {
      ApplyNothing(t);
    } else {
      var g, rest := gens[0], gens[1..];
      InOrderIsChain(Subst(t, g, s[g]), rest, s);
      InOrderIsChain(s[g], rest, s);
      SubstThenApply(Chain(rest, s), t, g, s[g]);
    }
  }

  /** Substitutions that agree on the parameters of a type give the same type, and no others do. */
  lemma {:induction false} SameExactly(a: Substitution, b: Substitution, t: Ty)
    requires forall g :: g in GenericsOf(t) ==> g in a && g in b
    ensures Apply(a, t) == Apply(b, t) <==> forall g :: g in GenericsOf(t) ==> a[g] == b[g]
    decreases t
  {
    match t
    case Generic(g, _) => assert g in GenericsOf(t);
    case Array(_, elem) => SameExactly(a, b, elem);
    case Struct(_, gen) => SameExactlyEach(a, b, gen);
    case Enum(_, gen) => SameExactlyEach(a, b, gen);
    case Ptr(inner) => SameExactly(a, b, inner);
    case Ref(inner) => SameExactly(a, b, inner);
    case Basic(_) =>
  }

  lemma {:induction false} SameExactlyEach(a: Substitution, b: Substitution, ts: seq<Ty>)
    requires forall g :: g in GenericsOfAll(ts) ==> g in a && g in b
    ensures ApplyEach(a, ts) == ApplyEach(b, ts) <==> forall g :: g in GenericsOfAll(ts) ==> a[g] == b[g]
    decreases ts
  {
    if ts != [] {
      SameExactly(a, b, ts[0]);
      SameExactlyEach(a, b, ts[1..]);
      assert ApplyEach(a, ts) == [Apply(a, ts[0])] + ApplyEach(a, ts[1..]);
      assert ApplyEach(b, ts) == [Apply(b, ts[0])] + ApplyEach(b, ts[1..]);
      if ApplyEach(a, ts) == ApplyEach(b, ts) {
        assert ApplyEach(a, ts)[0] == ApplyEach(b, ts)[0] && ApplyEach(a, ts)[1..] == ApplyEach(b, ts)[1..];
      }
    }
  }

  /** The parameter at `i` has not occurred before. */
  predicate FirstAt(gens: seq<Ident>, i: nat)
    requires i < |gens|
  {
    gens[i] !in gens[..i]
  }

  /** No type argument is changed by the parameters that are replaced after its own. */
  ghost predicate Harmless(gens: seq<Ident>, s: Substitution) {
    && (forall g :: g in gens ==> g in s)
    && forall i :: 0 <= i < |gens| && FirstAt(gens, i) ==> InOrder(s[gens[i]], gens[i + 1..], s) == s[gens[i]]
  }

  /** What the chain gives a parameter is decided where the parameter occurs first. */
  lemma {:induction false} ChainAt(gens: seq<Ident>, s: Substitution, i: nat)
    requires (forall g :: g in gens ==> g in s) && i < |gens| && FirstAt(gens, i)
    ensures Chain(gens, s)[gens[i]] == InOrder(s[gens[i]], gens[i + 1..], s)
    decreases i
  {
    if i > 0 {
      var rest := gens[1..];
      assert rest[i - 1] == gens[i] && rest[i - 1 + 1..] == gens[i + 1..];
      assert FirstAt(rest, i - 1) by {
        assert forall g :: g in rest[..i - 1] ==> g in gens[..i];
      }
      assert gens[i] != gens[0] by {
        assert gens[0] in gens[..i];
      }
      ChainAt(rest, s, i - 1);
    }
  }

  lemma {:induction false} FirstOccurrence(gens: seq<Ident>, g: Ident) returns (i: nat)
    requires g in gens
    ensures i < |gens| && gens[i] == g && FirstAt(gens, i)
  {
    i := Position(gens, g);
    PositionIsFirst(gens, g);
  }

  lemma {:induction false} PositionIsFirst(gens: seq<Ident>, g: Ident)
    ensures g !in gens[..Position(gens, g)]
  {
    if gens != [] && gens[0] != g {
      PositionIsFirst(gens[1..], g);
      assert gens[..Position(gens, g)] == [gens[0]] + gens[1..][..Position(gens[1..], g)];
    }
  }

  /** Replacing the parameters of a type one after the other is the simultaneous substitution if and only if no
      type argument is changed by the parameters that come after its own. */
  lemma SimultaneousExactly(s: Substitution, t: Ty)
    requires forall g :: g in GenericsOf(t) ==> g in s
    ensures InOrder(t, GenericsOf(t), s) == Apply(s, t) <==> Harmless(GenericsOf(t), s)
  {
    var gens := GenericsOf(t);
    var chain := Chain(gens, s);
    hide Chain, InOrder, Apply;
    InOrderIsChain(t, gens, s);
    SameExactly(chain, s, t);
    forall i | 0 <= i < |gens| && FirstAt(gens, i)
      ensures gens[i] in gens && chain[gens[i]] == InOrder(s[gens[i]], gens[i + 1..], s)
    {
      ChainAt(gens, s, i);
    }
    if Harmless(gens, s) {
      forall g | g in gens ensures chain[g] == s[g] {
        var i := FirstOccurrence(gens, g);
      }
    }
  }

  // ---------- the condition in terms of the type arguments ----------

  /** No type argument mentions a parameter that is replaced after its own. */
  ghost predicate MentionsNoneLater(gens: seq<Ident>, s: Substitution)
    requires forall g :: g in gens ==> g in s
  {
    forall i, h :: 0 <= i < |gens| && FirstAt(gens, i) && h in GenericsOf(s[gens[i]]) ==> h !in gens[i + 1..]
  }

  /** That is enough, also for type arguments that are parameters themselves. */
  lemma InOrderIsApply(s: Substitution, t: Ty)
    requires (forall g :: g in GenericsOf(t) ==> g in s) && MentionsNoneLater(GenericsOf(t), s)
    ensures InOrder(t, GenericsOf(t), s) == Apply(s, t)
  {
    var gens := GenericsOf(t);
    SimultaneousExactly(s, t);
    hide InOrder, Apply;
    forall i | 0 <= i < |gens| && FirstAt(gens, i) ensures InOrder(s[gens[i]], gens[i + 1..], s) == s[gens[i]] {
      var rest := gens[i + 1..];
      assert forall h :: h in rest ==> h in gens;
      InOrderIsChain(s[gens[i]], rest, s);
      ApplyOutside(Chain(rest, s), s[gens[i]]);
    }
  }

  /** A type that a substitution does not change has only parameters that stay parameters. */
  lemma {:induction false} Unchanged(s: Substitution, t: Ty)
    requires Apply(s, t) == t
    ensures forall h :: h in GenericsOf(t) && h in s ==> s[h].Generic?
    decreases t
  {
    match t
    case Array(_, elem) => Unchanged(s, elem);
    case Struct(_, gen) => UnchangedEach(s, gen);
    case Enum(_, gen) => UnchangedEach(s, gen);
    case Ptr(inner) => Unchanged(s, inner);
    case Ref(inner) => Unchanged(s, inner);
    case _ =>
  }

  lemma {:induction false} UnchangedEach(s: Substitution, ts: seq<Ty>)
    requires ApplyEach(s, ts) == ts
    ensures forall h :: h in GenericsOfAll(ts) && h in s ==> s[h].Generic?
    decreases ts
  {
    if ts != [] {
      assert ApplyEach(s, ts)[0] == ts[0] && ApplyEach(s, ts)[1..] == ts[1..];
      Unchanged(s, ts[0]);
      UnchangedEach(s, ts[1..]);
    }
  }

  /** If no type argument is itself a parameter, replacing one after the other is the simultaneous substitution
      if and only if no type argument mentions a parameter that comes after its own. */
  lemma SimultaneousByMention(s: Substitution, t: Ty)
    requires forall g :: g in GenericsOf(t) ==> g in s && !s[g].Generic?
    ensures InOrder(t, GenericsOf(t), s) == Apply(s, t) <==> MentionsNoneLater(GenericsOf(t), s)
  {
    var gens := GenericsOf(t);
    SimultaneousExactly(s, t);
    hide InOrder, Apply;
    forall i | 0 <= i < |gens|
      ensures InOrder(s[gens[i]], gens[i + 1..], s) == s[gens[i]] <==> forall h :: h in GenericsOf(s[gens[i]]) ==> h !in gens[i + 1..]
    {
      assert forall h :: h in gens[i + 1..] ==> h in gens;
      FixedByMention(s, s[gens[i]], gens[i + 1..]);
    }
  }

  lemma FixedByMention(s: Substitution, u: Ty, gens: seq<Ident>)
    requires forall g :: g in gens ==> g in s && !s[g].Generic?
    ensures InOrder(u, gens, s) == u <==> forall h :: h in GenericsOf(u) ==> h !in gens
  {
    var chain := Chain(gens, s);
    InOrderIsChain(u, gens, s);
    if forall h :: h in GenericsOf(u) ==> h !in gens {
      ApplyOutside(chain, u);
    } else if InOrder(u, gens, s) == u {
      Unchanged(chain, u);
      var h :| h in GenericsOf(u) && h in gens;
      ChainNoGeneric(gens, s, h);
      assert false;
    }
  }

  /** Type arguments that are no parameters do not become parameters. */
  lemma {:induction false} ChainNoGeneric(gens: seq<Ident>, s: Substitution, h: Ident)
    requires (forall g :: g in gens ==> g in s && !s[g].Generic?) && h in gens
    ensures !Chain(gens, s)[h].Generic?
    decreases |gens|
  {
    var rest := gens[1..];
    if h == gens[0] {
      InOrderIsChain(s[h], rest, s);
    } else {
      ChainNoGeneric(rest, s, h);
    }
  }

  /** With ground type arguments for every parameter no parameter is left. */
  lemma GroundArgsLeaveNone(s: Substitution, t: Ty)
    requires forall g :: g in GenericsOf(t) ==> g in s && GenericsOf(s[g]) == []
    ensures GenericsOf(Apply(s, t)) == []
  {
    if GenericsOf(Apply(s, t)) != [] {
      GenericsAfter(s, t, GenericsOf(Apply(s, t))[0]);
    }
  }

  /** An input on which the two differ: `pair<T, U>` with `U` for `T` and `T` for `U` becomes `pair<T, T>`. */
  lemma SwapIsNotSimultaneous(pair: Ident, t: Ident, u: Ident)
    requires t != u
    ensures var tt, uu := Generic(t, Lir.None), Generic(u, Lir.None);
            var ty, s := Struct(pair, [tt, uu]), map[t := uu, u := tt];
            && GenericsOf(ty) == [t, u] && InOrder(ty, [t, u], s) == Struct(pair, [tt, tt])
            && Apply(s, ty) == Struct(pair, [uu, tt])
  {
    var tt, uu := Generic(t, Lir.None), Generic(u, Lir.None);
    var s := map[t := uu, u := tt];
    assert [tt, uu][1..] == [uu] && [uu, uu][1..] == [uu];
    assert GenericsOfAll([uu]) == [u] && GenericsOfAll([tt, uu]) == [t, u];
    assert SubstEach([uu], t, uu) == [uu] && SubstEach([tt, uu], t, uu) == [uu, uu];
    assert SubstEach([uu], u, tt) == [tt] && SubstEach([uu, uu], u, tt) == [tt, tt];
    assert ApplyEach(s, [uu]) == [tt] && ApplyEach(s, [tt, uu]) == [uu, tt];
    assert [t, u][1..] == [u] && [u][1..] == [];
    assert InOrder(Struct(pair, [uu, uu]), [u], s) == Struct(pair, [tt, tt]);
  }
}
