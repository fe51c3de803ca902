/** Type arguments that a call or a struct initialiser leaves out: they are inferred by matching the
    arguments against the declared types, and then moved into the order of the declared parameters. The
    order that this leaves is the right one only in special cases. */
module TypeArgs {
  import opened Generics
  import Lir

  datatype Inferred = Inferred(ty: Ty, gen: Ident)

  // ---------- collecting ----------

  predicate Known(found: seq<Inferred>, g: Ident) {
    exists i :: 0 <= i < |found| && found[i].gen == g
  }

  /** What one argument adds to what has been found. */
  function Add(found: seq<Inferred>, expr: Ty, def: Ty): seq<Inferred> {
    if !HasGenerics(def) then found
    else
      match PeelOut(expr, def)
      case Some((ty, g)) => if Known(found, g) then found else found + [Inferred(ty, g)]
      case None => found
  }

  /** What the arguments from the front on add to what has been found. */
  function Collect(found: seq<Inferred>, exprs: seq<Ty>, defs: seq<Ty>): seq<Inferred>
    decreases |exprs|
  {
    if exprs == [] || defs == [] then found
    else Collect(Add(found, exprs[0], defs[0]), exprs[1..], defs[1..])
  }

  method InferTypeArgs(exprs: seq<Ty>, defs: seq<Ty>) returns (found: seq<Inferred>)
    ensures found == Collect([], exprs, defs)
  {
    found := [];
    var i := 0;
    assert exprs[0..] == exprs && defs[0..] == defs;
    while i < |exprs| && i < |defs|
      invariant 0 <= i <= |exprs| && i <= |defs|
      invariant Collect(found, exprs[i..], defs[i..]) == Collect([], exprs, defs)
    {
      assert exprs[i..][1..] == exprs[i + 1..] && defs[i..][1..] == defs[i + 1..];
      if HasGenerics(defs[i]) {
        var pair := PeelOut(exprs[i], defs[i]);
        if pair.Some? && !Known(found, pair.value.1) {
          found := found + [Inferred(pair.value.0, pair.value.1)];
        }
      }
      i := i + 1;
    }
  }

  ghost predicate Once(found: seq<Inferred>) {
    forall i, j :: 0 <= i < j < |found| ==> found[i].gen != found[j].gen
  }

  ghost predicate GivenBy(found: seq<Inferred>, s: Substitution) {
    forall i :: 0 <= i < |found| ==> found[i].gen in s && found[i].ty == s[found[i].gen]
  }

  lemma AddsOne(found: seq<Inferred>, s: Substitution, g: Ident)
    requires Once(found) && GivenBy(found, s) && g in s
    ensures var next := if Known(found, g) then found else found + [Inferred(s[g], g)];
            Once(next) && GivenBy(next, s) && Known(next, g)
  {
    if !Known(found, g) {
      assert (found + [Inferred(s[g], g)])[|found|].gen == g;
    }
  }

  /** When the fields are initialised with instances of their types under one substitution, every
      parameter is found at most once, with the type the substitution gives it, and the first parameter
      of every field is found. */
  lemma {:induction false} CollectsTheSubstitution(found: seq<Inferred>, s: Substitution, defs: seq<Ty>)
    requires Once(found) && GivenBy(found, s)
    requires forall d, g :: d in defs && g in GenericsOf(d) ==> g in s
    ensures var all := Collect(found, ApplyEach(s, defs), defs);
            && found <= all && Once(all) && GivenBy(all, s)
            && forall d :: d in defs && GenericsOf(d) != [] ==> Known(all, GenericsOf(d)[0])
    decreases |defs|
  {
    if defs != [] {
      var d := defs[0];
      assert d in defs && forall e :: e in defs[1..] ==> e in defs;
      assert ApplyEach(s, defs)[1..] == ApplyEach(s, defs[1..]);
      if GenericsOf(d) == [] {
        NothingToPeel(Apply(s, d), d);
        CollectsTheSubstitution(found, s, defs[1..]);
      } else {
        var g := GenericsOf(d)[0];
        assert g in GenericsOf(d) && HasGenerics(d) by {
          if !HasGenerics(d) {
            NoGenericsMissed(d);
          }
        }
        PeelInvertsApply(s, d);
        var next := Add(found, Apply(s, d), d);
        AddsOne(found, s, g);
        CollectsTheSubstitution(next, s, defs[1..]);
        KnownStays(next, Collect(next, ApplyEach(s, defs[1..]), defs[1..]), g);
      }
      forall e | e in defs && GenericsOf(e) != []
        ensures Known(Collect(found, ApplyEach(s, defs), defs), GenericsOf(e)[0])
      {
        if e != d {
          assert e in defs[1..];
        }
      }
    }
  }

  lemma KnownStays(found: seq<Inferred>, all: seq<Inferred>, g: Ident)
    requires found <= all && Known(found, g)
    ensures Known(all, g)
  {
    var i :| 0 <= i < |found| && found[i].gen == g;
    assert all[i].gen == g;
  }

  // ---------- sorting ----------

  function Names(found: seq<Inferred>): (names: seq<Ident>)
    ensures |names| == |found| && forall i :: 0 <= i < |names| ==> names[i] == found[i].gen
  {
    if found == [] then [] else [found[0].gen] + Names(found[1..])
  }

  /** `swap(last, i)`. */
  function SwapEnd<T>(xs: seq<T>, i: nat): (r: seq<T>)
    requires i < |xs|
    ensures |r| == |xs|
  {
    var last := |xs| - 1;
    xs[last := xs[i]][i := xs[last]]
  }

  /** `g` is swapped with whatever is at the end. */
  function ToEnd(names: seq<Ident>, g: Ident): (r: seq<Ident>)
    requires g in names
    ensures |r| == |names| && r[|r| - 1] == g
    ensures forall h :: h in r <==> h in names
  {
    var r := SwapEnd(names, Position(names, g));
    SwapKeeps(names, Position(names, g));
    r
  }

  lemma SwapKeeps(names: seq<Ident>, i: nat)
    requires i < |names|
    ensures forall h :: h in SwapEnd(names, i) <==> h in names
  {
    var r, last := SwapEnd(names, i), |names| - 1;
    forall h | h in names ensures h in r {
      var k :| 0 <= k < |names| && names[k] == h;
      assert r[if k == i then last else if k == last then i else k] == h;
    }
  }

  /** The loop: the parameters from number `k` on, each moved to the end. */
  function Sorted(names: seq<Ident>, gens: seq<Ident>, k: nat): (r: seq<Ident>)
    requires k <= |gens| && AllIn(gens, names)
    ensures |r| == |names|
    decreases |gens| - k
  {
    if k == |gens| then names else Sorted(ToEnd(names, gens[k]), gens, k + 1)
  }

  /** The list with the pairs moved into the declared order, or nothing when a parameter was not found. */
  method SortTypeArgs(found: seq<Inferred>, gens: seq<Ident>) returns (r: Lir.Option<seq<Inferred>>)
    ensures r.None? <==> exists g :: g in gens && g !in Names(found)
    ensures r.Some? ==> multiset(r.value) == multiset(found)
    ensures r.Some? ==> AllIn(gens, Names(found)) && Names(r.value) == Sorted(Names(found), gens, 0)
  {
    hide SwapEnd, Names, Sorted, Position, AllIn, SameNames;
    var args, k := found, 0;
    NoneTaken(Names(found), gens);
    while k < |gens|
      invariant 0 <= k <= |gens| && |args| == |found| && multiset(args) == multiset(found)
      invariant Moving(Names(found), Names(args), gens, k)
    {
      var idx := Position(Names(args), gens[k]);
      NextTaken(Names(found), Names(args), gens, k);
      if idx == |args| {
        return Lir.None;
      }
      SwapPermutes(args, idx);
      SwapNames(args, idx);
      args := SwapEnd(args, idx);
      k := k + 1;
    }
    AllTaken(Names(found), Names(args), gens);
    return Lir.Some(args);
  }

  /** After moving the first `k` parameters to the end, each in turn. */
  ghost predicate Moving(before: seq<Ident>, names: seq<Ident>, gens: seq<Ident>, k: nat) {
    && k <= |gens| && |names| == |before| && SameNames(names, before) && AllIn(gens[..k], before)
    && (AllIn(gens, before) ==> AllIn(gens, names) && Sorted(names, gens, k) == Sorted(before, gens, 0))
  }

  lemma NoneTaken(before: seq<Ident>, gens: seq<Ident>)
    ensures Moving(before, before, gens, 0)
  {
  }

  lemma NextTaken(before: seq<Ident>, names: seq<Ident>, gens: seq<Ident>, k: nat)
    requires Moving(before, names, gens, k) && k < |gens|
    ensures Position(names, gens[k]) == |names| ==> gens[k] in gens && gens[k] !in before
    ensures Position(names, gens[k]) < |names| ==>
              Moving(before, SwapEnd(names, Position(names, gens[k])), gens, k + 1)
  {
    if gens[k] in names {
      var next := SwapEnd(names, Position(names, gens[k]));
      SwapSame(names, before, Position(names, gens[k]));
      SameAllIn(next, before, gens);
      assert AllIn(gens[..k + 1], before);
    }
  }

  lemma AllTaken(before: seq<Ident>, names: seq<Ident>, gens: seq<Ident>)
    requires Moving(before, names, gens, |gens|)
    ensures AllIn(gens, before) && names == Sorted(before, gens, 0)
    ensures forall g :: g in gens ==> g in before
  {
    assert gens[..|gens|] == gens;
  }

  ghost predicate AllIn(gens: seq<Ident>, names: seq<Ident>) {
    forall g :: g in gens ==> g in names
  }

  ghost predicate SameNames(a: seq<Ident>, b: seq<Ident>) {
    forall g :: g in a <==> g in b
  }

  lemma SameAllIn(a: seq<Ident>, b: seq<Ident>, gens: seq<Ident>)
    requires SameNames(a, b)
    ensures AllIn(gens, a) <==> AllIn(gens, b)
  {
  }

  lemma SwapSame(names: seq<Ident>, b: seq<Ident>, i: nat)
    requires i < |names| && SameNames(names, b)
    ensures SameNames(SwapEnd(names, i), b)
  {
    SwapKeeps(names, i);
  }

  lemma SwapNames(found: seq<Inferred>, i: nat)
    requires i < |found|
    ensures Names(SwapEnd(found, i)) == SwapEnd(Names(found), i)
  {
  }

  lemma SwapPermutes(found: seq<Inferred>, i: nat)
    requires i < |found|
    ensures multiset(SwapEnd(found, i)) == multiset(found)
  {
    var last := |found| - 1;
    var once := found[last := found[i]];
    PutPermutes(found, last, found[i]);
    PutPermutes(once, i, found[last]);
  }

  lemma PutPermutes(found: seq<Inferred>, i: nat, x: Inferred)
    requires i < |found|
    ensures multiset(found[i := x]) == multiset(found) - multiset{found[i]} + multiset{x}
  {
  }

  ghost predicate Different(names: seq<Ident>) {
    forall i, j :: 0 <= i < j < |names| ==> names[i] != names[j]
  }

  /** The parameters with number `k` taken out and put at the end. */
  function Rotated(gens: seq<Ident>, k: nat): seq<Ident>
    requires k < |gens|
  {
    gens[..k] + gens[k + 1..] + [gens[k]]
  }

  lemma SwapDifferent(names: seq<Ident>, i: nat)
    requires Different(names) && i < |names|
    ensures Different(SwapEnd(names, i))
  {
  }

  lemma PositionIs(names: seq<Ident>, i: nat)
    requires Different(names) && i < |names|
    ensures Position(names, names[i]) == i
  {
    var p := Position(names, names[i]);
    assert names[p] == names[i];
  }

  /** One step of the loop moves one rotation into the next. */
  lemma RotationStep(gens: seq<Ident>, k: nat)
    requires Different(gens) && 0 < k < |gens|
    ensures Different(Rotated(gens, k - 1)) && gens[k] in Rotated(gens, k - 1)
    ensures ToEnd(Rotated(gens, k - 1), gens[k]) == Rotated(gens, k)
  {
    var r := Rotated(gens, k - 1);
    assert r[k - 1] == gens[k];
    PositionIs(r, k - 1);
  }

  /** A step loses nothing: two lists with the same end go to the same list only if they are the same. */
  lemma StepInjective(xs: seq<Ident>, ys: seq<Ident>, g: Ident)
    requires Different(xs) && Different(ys) && |xs| == |ys| > 0 && xs[|xs| - 1] == ys[|ys| - 1] != g
    requires g in xs && g in ys && ToEnd(xs, g) == ToEnd(ys, g)
    ensures xs == ys
  {
    var i, j, last, r := Position(xs, g), Position(ys, g), |xs| - 1, ToEnd(xs, g);
    SwapDifferent(xs, i);
    assert r == SwapEnd(xs, i) == SwapEnd(ys, j);
    assert r[i] == xs[last] && r[j] == ys[last];
    assert i == j;
    forall k | 0 <= k < |xs| ensures xs[k] == ys[k] {
      if k != i && k != last {
        assert r[k] == xs[k] && r[k] == ys[k];
      }
    }
  }

  lemma {:induction false} SortedFrom(names: seq<Ident>, gens: seq<Ident>, k: nat)
    requires Different(names) && Different(gens) && |names| == |gens| && AllIn(gens, names)
    requires 0 < k <= |gens| && names[|names| - 1] == gens[k - 1]
    ensures Sorted(names, gens, k) == gens <==> names == Rotated(gens, k - 1)
    decreases |gens| - k
  {
    if k == |gens| {
      assert Rotated(gens, k - 1) == gens;
    } else {
      var next := ToEnd(names, gens[k]);
      SwapDifferent(names, Position(names, gens[k]));
      SortedFrom(next, gens, k + 1);
      RotationStep(gens, k);
      if next == Rotated(gens, k) {
        StepInjective(names, Rotated(gens, k - 1), gens[k]);
      }
    }
  }

  /** The loop ends with the parameters in the declared order exactly when, with the first parameter moved
      to the end, they are found in the declared order rotated by one. */
  lemma SortsExactly(names: seq<Ident>, gens: seq<Ident>)
    requires Different(names) && Different(gens) && |names| == |gens| > 0 && AllIn(gens, names)
    ensures Sorted(names, gens, 0) == gens <==> ToEnd(names, gens[0]) == gens[1..] + [gens[0]]
  {
    SwapDifferent(names, Position(names, gens[0]));
    SortedFrom(ToEnd(names, gens[0]), gens, 1);
    assert Rotated(gens, 0) == gens[1..] + [gens[0]];
  }

  /** Parameters that are found in the declared order stay in order only if there are at most two. */
  lemma OrderedInputStaysOrdered(gens: seq<Ident>)
    requires Different(gens) && gens != []
    ensures Sorted(gens, gens, 0) == gens <==> |gens| <= 2
  {
    SortsExactly(gens, gens);
    PositionIs(gens, 0);
    var moved, rotated := ToEnd(gens, gens[0]), gens[1..] + [gens[0]];
    if |gens| > 2 {
      assert moved[0] == gens[|gens| - 1] && rotated[0] == gens[1];
    }
  }

  // ---------- inference as a whole ----------

  lemma PermutedIsGiven(args: seq<Inferred>, found: seq<Inferred>, s: Substitution)
    requires multiset(args) == multiset(found) && GivenBy(found, s)
    ensures GivenBy(args, s)
  {
    forall i | 0 <= i < |args| ensures args[i].gen in s && args[i].ty == s[args[i].gen] {
      assert args[i] in multiset(args);
      var j :| 0 <= j < |found| && found[j] == args[i];
    }
  }

  /** The call site: nothing is sorted, and nothing reported, when nothing was found. */
  method CallTypeArgs(exprs: seq<Ty>, defs: seq<Ty>, gens: seq<Ident>) returns (r: Lir.Option<seq<Inferred>>)
    ensures var found := Collect([], exprs, defs);
            && (r.None? <==> found != [] && !AllIn(gens, Names(found)))
            && (r.Some? ==> multiset(r.value) == multiset(found))
            && (r.Some? && found != [] ==> AllIn(gens, Names(found)) && Names(r.value) == Sorted(Names(found), gens, 0))
  {
    var found := InferTypeArgs(exprs, defs);
    if found == [] {
      return Lir.Some([]);
    }
    r := SortTypeArgs(found, gens);
  }

  /** Inference for a call whose arguments are instances of the declared types under `s`. It fails exactly when
      some parameter was found and another was not. When it finds all of them, they end up in declared order
      exactly when they were found in one of the orders that the loop can sort. Whatever the order, every type
      that comes out is the one that `s` gives to its parameter. */
  method InferAll(defs: seq<Ty>, gens: seq<Ident>, s: Substitution) returns (r: Lir.Option<seq<Inferred>>)
    requires Different(gens) && gens != []
    requires forall d, g :: d in defs && g in GenericsOf(d) ==> g in s && g in gens
    ensures var found := Collect([], ApplyEach(s, defs), defs);
            && (r.None? <==> found != [] && exists g :: g in gens && g !in Names(found))
            && (r.Some? && found != [] ==>
                  (Names(r.value) == gens <==> ToEnd(Names(found), gens[0]) == gens[1..] + [gens[0]]))
    ensures r.Some? ==> GivenBy(r.value, s)
    ensures r.Some? && Names(r.value) == gens ==>
              |r.value| == |gens| && forall k :: 0 <= k < |gens| ==> gens[k] in s && r.value[k].ty == s[gens[k]]
  {
    r := CallTypeArgs(ApplyEach(s, defs), defs, gens);
    ghost var found := Collect([], ApplyEach(s, defs), defs);
    CollectsTheSubstitution([], s, defs);
    CollectedDeclared([], ApplyEach(s, defs), defs, gens);
    hide Sorted, ToEnd, Collect, Names, GivenBy, Once, Different;
    if r.Some? {
      PermutedIsGiven(r.value, found, s);
      if found != [] {
        InOrderExactly(found, r.value, gens);
      }
      if Names(r.value) == gens {
        NamedAreGiven(r.value, s);
      }
    }
  }

  lemma InOrderExactly(found: seq<Inferred>, args: seq<Inferred>, gens: seq<Ident>)
    requires Different(gens) && gens != [] && Once(found) && AllIn(gens, Names(found))
    requires forall i :: 0 <= i < |found| ==> found[i].gen in gens
    requires Names(args) == Sorted(Names(found), gens, 0)
    ensures Names(args) == gens <==> ToEnd(Names(found), gens[0]) == gens[1..] + [gens[0]]
  {
    hide Sorted, ToEnd;
    assert Different(Names(found)) && AllIn(Names(found), gens);
    AsMany(Names(found), gens);
    SortsExactly(Names(found), gens);
  }

  lemma NamedAreGiven(args: seq<Inferred>, s: Substitution)
    requires GivenBy(args, s)
    ensures |Names(args)| == |args|
    ensures forall k :: 0 <= k < |args| ==> Names(args)[k] in s && args[k].ty == s[Names(args)[k]]
  {
  }

  /** Whatever matching finds is a parameter of the type that it matched against. */
  lemma {:induction false} PeeledDeclared(t: Ty, pattern: Ty)
    ensures PeelOut(t, pattern).Some? ==> PeelOut(t, pattern).value.1 in GenericsOf(pattern)
    decreases pattern
  {
    match (t, pattern)
    case (Array(_, a), Array(_, b)) => PeeledDeclared(a, b);
    case (Struct(_, a), Struct(_, b)) => PeeledFirstDeclared(a, b);
    case (Enum(_, a), Enum(_, b)) => PeeledFirstDeclared(a, b);
    case (Ptr(a), Ptr(b)) => PeeledDeclared(a, b);
    case (Ref(a), Ref(b)) => PeeledDeclared(a, b);
    case _ =>
  }

  lemma {:induction false} PeeledFirstDeclared(ts: seq<Ty>, patterns: seq<Ty>)
    ensures PeelFirst(ts, patterns).Some? ==> PeelFirst(ts, patterns).value.1 in GenericsOfAll(patterns)
    decreases patterns
  {
    if ts != [] && patterns != [] {
      PeeledDeclared(ts[0], patterns[0]);
      PeeledFirstDeclared(ts[1..], patterns[1..]);
    }
  }

  lemma {:induction false} CollectedDeclared(found: seq<Inferred>, exprs: seq<Ty>, defs: seq<Ty>, gens: seq<Ident>)
    requires forall i :: 0 <= i < |found| ==> found[i].gen in gens
    requires forall d, g :: d in defs && g in GenericsOf(d) ==> g in gens
    ensures var all := Collect(found, exprs, defs); forall i :: 0 <= i < |all| ==> all[i].gen in gens
    decreases |exprs|
  {
    if exprs != [] && defs != [] {
      assert defs[0] in defs && forall d :: d in defs[1..] ==> d in defs;
      PeeledDeclared(exprs[0], defs[0]);
      var next := Add(found, exprs[0], defs[0]);
      CollectedDeclared(next, exprs[1..], defs[1..], gens);
      assert Collect(found, exprs, defs) == Collect(next, exprs[1..], defs[1..]);
    }
  }

  function NameSet(names: seq<Ident>): set<Ident> {
    if names == [] then {} else {names[0]} + NameSet(names[1..])
  }

  lemma {:induction false} InNameSet(names: seq<Ident>)
    ensures forall g :: g in NameSet(names) <==> g in names
    ensures Different(names) ==> |NameSet(names)| == |names|
    decreases |names|
  {
    if names != [] {
      InNameSet(names[1..]);
    }
  }

  /** Two lists without repetitions that hold the same names are equally long. */
  lemma AsMany(a: seq<Ident>, b: seq<Ident>)
    requires Different(a) && Different(b) && AllIn(a, b) && AllIn(b, a)
    ensures |a| == |b|
  {
    InNameSet(a);
    InNameSet(b);
    assert NameSet(a) == NameSet(b);
  }
}
