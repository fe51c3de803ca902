/** The operator stack of the expression parser. It reduces like a shunting-yard parser, except
    that once an operator does not bind tighter than the one before it, every pending
    left-associative operator is reduced at once, from the right. */
module ExprParser {
  import opened Precedence
  import Lir

  /** One step of the scanner: an operand and the operator after it, if there is one. */
  datatype Item = Item(operand: nat, next: Lir.Option<AssocOp>)

  /** `Error` is a reported parse error, `Panic` an `unwrap` of nothing. */
  datatype Parsed = Ok(tree: Tree) | Error | Panic

  // ---------- right-nested trees ----------

  /** `trees[0] ops[0] (trees[1] ops[1] (...))`. */
  function Nest(trees: seq<Tree>, ops: seq<BinOp>): Tree
    requires |trees| == |ops| + 1
    decreases |ops|
  {
    if ops == [] then trees[0] else Binary(ops[0], trees[0], Nest(trees[1..], ops[1..]))
  }

  lemma {:induction false} NestLast(trees: seq<Tree>, ops: seq<BinOp>, op: BinOp, a: Tree, b: Tree)
    requires |trees| == |ops|
    ensures Nest(trees + [a, b], ops + [op]) == Nest(trees + [Binary(op, a, b)], ops)
    decreases |ops|
  {
    var long, short := trees + [a, b], trees + [Binary(op, a, b)];
    if ops == [] {
      assert long == [a, b] && long[1..] == [b];
    } else {
      NestLast(trees[1..], ops[1..], op, a, b);
      assert long[1..] == trees[1..] + [a, b] && short[1..] == trees[1..] + [Binary(op, a, b)];
      assert (ops + [op])[1..] == ops[1..] + [op];
    }
  }

  function Atoms(operands: seq<nat>): (trees: seq<Tree>)
    ensures |trees| == |operands| && forall k :: 0 <= k < |trees| ==> trees[k] == Operand(operands[k])
  {
    if operands == [] then [] else [Operand(operands[0])] + Atoms(operands[1..])
  }

  /** All trees but the first are single operands. */
  ghost predicate AtomsAfterFirst(trees: seq<Tree>, operands: seq<nat>) {
    trees != [] && trees[1..] == Atoms(operands)
  }

  lemma {:induction false} NestReads(trees: seq<Tree>, ops: seq<BinOp>, operands: seq<nat>)
    requires |trees| == |ops| + 1 && AtomsAfterFirst(trees, operands)
    ensures Reads(Nest(trees, ops), Operands(trees[0]) + operands, Ops(trees[0]) + ops)
    decreases |ops|
  {
    assert |trees| == |operands| + 1;
    if ops == [] {
      assert Operands(trees[0]) + operands == Operands(trees[0]);
      assert Ops(trees[0]) + ops == Ops(trees[0]);
    } else {
      assert trees[1..][0] == trees[1] == Operand(operands[0]);
      NestReads(trees[1..], ops[1..], operands[1..]);
      hide AtomsAfterFirst, Atoms;
      assert Operands(trees[1]) + operands[1..] == operands;
      assert [ops[0]] + ([] + ops[1..]) == ops;
      assert Ops(trees[0]) + [ops[0]] + ([] + ops[1..]) == Ops(trees[0]) + ops;
    }
  }

  ghost predicate Rising(ops: seq<BinOp>) {
    forall k :: 0 < k < |ops| ==> Binds(ops[k - 1]) < Binds(ops[k])
  }

  /** A right-nested tree over rising operators is right exactly when its first tree is, and the
      first operator does not bind tighter than that tree's root. */
  lemma {:induction false} NestRespects(trees: seq<Tree>, ops: seq<BinOp>, operands: seq<nat>)
    requires |trees| == |ops| + 1 && AtomsAfterFirst(trees, operands) && Rising(ops)
    ensures Respects(Nest(trees, ops)) <==>
            Respects(trees[0]) && (ops != [] && trees[0].Binary? ==> Binds(trees[0].op) >= Binds(ops[0]))
    ensures ops != [] ==> Nest(trees, ops).Binary? && Nest(trees, ops).op == ops[0]
    decreases |ops|
  {
    if ops != [] {
      RisingTail(ops);
      assert trees[1..][0] == trees[1] == Operand(operands[0]);
      NestRespects(trees[1..], ops[1..], operands[1..]);
    }
  }

  lemma RisingTail(ops: seq<BinOp>)
    requires Rising(ops) && ops != []
    ensures Rising(ops[1..])
    ensures |ops| > 1 ==> Binds(ops[0]) < Binds(ops[1])
  {
    var tail := ops[1..];
    forall k | 0 < k < |tail| ensures Binds(tail[k - 1]) < Binds(tail[k]) {
      assert tail[k - 1] == ops[k] && tail[k] == ops[k + 1];
    }
    assert |ops| > 1 ==> Binds(ops[1 - 1]) < Binds(ops[1]);
  }

  // ---------- what was read ----------

  /** How many items the loop reads before one without an operator, or before the `;`. */
  function Consumed(items: seq<Item>): (n: nat)
    ensures n <= |items|
    ensures forall i :: 0 <= i < n ==> items[i].next.Some?
    ensures n < |items| ==> items[n].next.None?
  {
    if items == [] || items[0].next.None? then 0 else 1 + Consumed(items[1..])
  }

  /** The first `n` items are followed by operators that make binary expressions. */
  predicate AllBinary(items: seq<Item>, n: nat)
    requires n <= |items|
  {
    forall i :: 0 <= i < n ==> items[i].next.Some? && items[i].next.value.ToAstBinop().Some?
  }

  function BinopsOf(items: seq<Item>, n: nat): (ops: seq<BinOp>)
    requires n <= |items| && AllBinary(items, n)
    ensures |ops| == n && forall i :: 0 <= i < n ==> Lir.Some(ops[i]) == items[i].next.value.ToAstBinop()
  {
    if n == 0 then [] else BinopsOf(items, n - 1) + [items[n - 1].next.value.ToAstBinop().value]
  }

  function OperandsOf(items: seq<Item>, n: nat): (operands: seq<nat>)
    requires n <= |items|
    ensures |operands| == n && forall i :: 0 <= i < n ==> operands[i] == items[i].operand
  {
    if n == 0 then [] else OperandsOf(items, n - 1) + [items[n - 1].operand]
  }

  // ---------- the loops ----------

  ghost predicate AllLeft(opstack: seq<AssocOp>) {
    forall k :: 0 <= k < |opstack| ==> opstack[k].Fix() == Left
  }

  ghost function ToBinops(opstack: seq<AssocOp>): (ops: seq<BinOp>)
    requires AllLeft(opstack)
    ensures |ops| == |opstack| && forall k :: 0 <= k < |ops| ==> Lir.Some(ops[k]) == opstack[k].ToAstBinop()
  {
    if opstack == [] then []
    else
      var last := |opstack| - 1;
      TablesAgree(opstack[last]);
      ToBinops(opstack[..last]) + [opstack[last].ToAstBinop().value]
  }

  /** The inner loop: reduce every pending left-associative operator. */
  method ReduceLeft(output: seq<Tree>, opstack: seq<AssocOp>, first: Tree)
    returns (out: seq<Tree>, ops: seq<AssocOp>, finish: Tree)
    requires |output| == |opstack|
    ensures |out| == |ops| && ops <= opstack && out <= output
    ensures ops != [] ==> ops[|ops| - 1].Fix() == Right
    ensures AllLeft(opstack[|ops|..])
    ensures finish == Nest(output[|ops|..] + [first], ToBinops(opstack[|ops|..]))
  {
    out, ops, finish := output, opstack, first;
    assert output[|ops|..] + [first] == [first];
    while ops != [] && ops[|ops| - 1].Fix() == Left
      invariant |out| == |ops| && ops <= opstack && out <= output
      invariant AllLeft(opstack[|ops|..])
      invariant finish == Nest(output[|ops|..] + [first], ToBinops(opstack[|ops|..]))
      decreases |ops|
    {
      ghost var trees, binops := output[|ops|..] + [first], ToBinops(opstack[|ops|..]);
      var top := |ops| - 1;
      var op, lhs := ops[top], out[top];
      ops, out := ops[..top], out[..top];
      TablesAgree(op);
      finish := Binary(op.ToAstBinop().value, lhs, finish);
      assert output[top..] + [first] == [lhs] + trees;
      assert opstack[top..] == [op] + opstack[top + 1..];
      assert ToBinops(opstack[top..]) == [op.ToAstBinop().value] + binops;
    }
  }

  /** What the loop does with an operand and the operator after it. */
  method Take(output: seq<Tree>, opstack: seq<AssocOp>, ex: Tree, next: AssocOp)
    returns (out: seq<Tree>, ops: seq<AssocOp>)
    requires |output| == |opstack|
    ensures |out| == |ops| > 0
    ensures AllLeft(ops) <==> AllLeft(opstack) && next.Fix() == Left
    ensures AllLeft(opstack) ==>
              if opstack != [] && next.Precedence() <= opstack[|opstack| - 1].Precedence()
              then out == [Nest(output + [ex], ToBinops(opstack))] && ops == [next]
              else out == output + [ex] && ops == opstack + [next]
  {
    var top := |opstack| - 1;
    if opstack != [] && (next.Precedence() < opstack[top].Precedence()
                         || (next.Precedence() == opstack[top].Precedence() && opstack[top].Fix() == Left))
    {
      var prev, lhs := opstack[top], output[top];
      TablesAgree(prev);
      TablesAgree(next);
      var first := Binary(prev.ToAstBinop().value, lhs, ex);
      var below, left, finish := ReduceLeft(output[..top], opstack[..top], first);
      out, ops := below + [finish], left + [next];
      ReducedAll(opstack, left);
      if left == [] {
        assert opstack[..top][0..] == opstack[..top] && output[..top][0..] == output[..top];
        assert opstack == opstack[..top] + [prev] && output == output[..top] + [lhs];
        NestPop(output[..top], opstack[..top], lhs, prev, ex);
      }
      AllLeftPush(left, next);
    } else {
      if opstack != [] {
        TablesAgree(opstack[top]);
        TablesAgree(next);
      }
      out, ops := output + [ex], opstack + [next];
      AllLeftPush(opstack, next);
    }
  }

  lemma AllLeftPush(a: seq<AssocOp>, op: AssocOp)
    ensures AllLeft(a + [op]) <==> AllLeft(a) && op.Fix() == Left
  {
    hide AssocOp.Fix;
    var long := a + [op];
    assert long[|a|] == op && forall k :: 0 <= k < |a| ==> long[k] == a[k];
  }

  /** Stopping above the bottom means that a right-associative operator is left. */
  lemma ReducedAll(opstack: seq<AssocOp>, left: seq<AssocOp>)
    requires opstack != [] && opstack[|opstack| - 1].Fix() == Left
    requires left <= opstack[..|opstack| - 1] && AllLeft(opstack[..|opstack| - 1][|left|..])
    requires left != [] ==> left[|left| - 1].Fix() == Right
    ensures AllLeft(opstack) <==> left == []
    ensures AllLeft(left) <==> left == []
  {
    hide AssocOp.Fix;
    var below := opstack[..|opstack| - 1];
    assert opstack == below + [opstack[|opstack| - 1]];
    AllLeftPush(below, opstack[|opstack| - 1]);
    if left == [] {
      assert below[0..] == below;
    } else {
      assert below[|left| - 1] == left[|left| - 1];
    }
  }

  lemma NestPop(output: seq<Tree>, opstack: seq<AssocOp>, lhs: Tree, prev: AssocOp, ex: Tree)
    requires |output| == |opstack| && AllLeft(opstack + [prev]) && prev.ToAstBinop().Some?
    ensures AllLeft(opstack)
    ensures Nest(output + [Binary(prev.ToAstBinop().value, lhs, ex)], ToBinops(opstack))
            == Nest(output + [lhs] + [ex], ToBinops(opstack + [prev]))
  {
    hide AssocOp.Fix, AssocOp.ToAstBinop, Nest;
    AllLeftPush(opstack, prev);
    assert output + [lhs] + [ex] == output + [lhs, ex];
    assert ToBinops(opstack + [prev]) == ToBinops(opstack) + [prev.ToAstBinop().value];
    NestLast(output, ToBinops(opstack), prev.ToAstBinop().value, lhs, ex);
  }

  /** The loop at the end of the expression: reduce everything from the right. */
  method Finish(output: seq<Tree>, opstack: seq<AssocOp>) returns (r: Parsed)
    requires |output| == |opstack| + 1
    ensures AllLeft(opstack) ==> r == Ok(Nest(output, ToBinops(opstack)))
    ensures !AllLeft(opstack) ==> r == Panic
  {
    var out, ops := output, opstack;
    while ops != []
      invariant |out| == |ops| + 1
      invariant AllLeft(opstack) <==> AllLeft(ops)
      invariant AllLeft(ops) ==> Nest(out, ToBinops(ops)) == Nest(output, ToBinops(opstack))
      decreases |ops|
    {
      var top := |ops| - 1;
      var rhs, bin, first := out[top + 1], ops[top], out[top];
      TablesAgree(bin);
      if bin.ToAstBinop().None? {
        return Panic;
      }
      ghost var trees := out[..top];
      assert out == trees + [first, rhs];
      assert ops == ops[..top] + [bin];
      if AllLeft(ops) {
        NestLast(trees, ToBinops(ops[..top]), bin.ToAstBinop().value, first, rhs);
      }
      out := out[..top] + [Binary(bin.ToAstBinop().value, first, rhs)];
      ops := ops[..top];
    }
    return Ok(out[0]);
  }

  // ---------- the invariant of the main loop ----------

  /** The last run head before position `h`. */
  function LastHead(ops: seq<BinOp>, h: nat): (g: nat)
    requires 0 < h <= |ops|
    ensures g < h && RunHead(ops, g) && forall i :: g < i < h ==> !RunHead(ops, i)
  {
    if RunHead(ops, h - 1) then h - 1 else LastHead(ops, h - 1)
  }

  /** A tree of everything read so far: right exactly when the heads of the runs never rise, with the
      head of the last run at its root. */
  ghost predicate Reduced(tree: Tree, operands: seq<nat>, ops: seq<BinOp>) {
    && Reads(tree, operands, ops)
    && (Respects(tree) <==> HeadsNeverRise(ops))
    && (tree.Binary? <==> ops != [])
    && (ops != [] ==> tree.Binary? && Binds(tree.op) == Binds(ops[LastHead(ops, |ops|)]))
  }

  /** After the operators `ops`, each read after its operand: the operators of the last run, strictly
      rising, are on the stack; the bottom tree is what everything before was reduced to, and the
      other trees are single operands. */
  ghost predicate Stacked(output: seq<Tree>, opstack: seq<AssocOp>, operands: seq<nat>, ops: seq<BinOp>) {
    && |operands| == |ops| >= |opstack| == |output|
    && AllLeft(opstack)
    && (ops == [] || opstack != [])
    && var h := |ops| - |opstack|;
       && ToBinops(opstack) == ops[h..] && Rising(ops[h..])
       && (ops != [] ==>
             && RunHead(ops, h)
             && AtomsAfterFirst(output, operands[h + 1..])
             && Reduced(output[0], operands[..h + 1], ops[..h]))
  }

  /** Closing a run: the heads of the longer list never rise exactly when those before its last run do
      not and the new head does not bind tighter than the one before. */
  lemma HeadsExtend(ops: seq<BinOp>, h: nat)
    requires h < |ops| && RunHead(ops, h) && forall i :: h < i < |ops| ==> !RunHead(ops, i)
    ensures HeadsNeverRise(ops) <==>
            HeadsNeverRise(ops[..h]) && (h > 0 ==> Binds(ops[h]) <= Binds(ops[..h][LastHead(ops[..h], h)]))
    ensures LastHead(ops, |ops|) == h
  {
    hide Binds;
    assert LastHead(ops, |ops|) == h;
    hide LastHead;
    var before := ops[..h];
    forall i | 0 <= i < h ensures RunHead(before, i) == RunHead(ops, i) {
    }
    if HeadsNeverRise(ops) {
      forall i, j | 0 <= i < j < h && RunHead(before, i) && RunHead(before, j)
        ensures Binds(before[j]) <= Binds(before[i])
      {
        assert RunHead(ops, i) && RunHead(ops, j);
      }
    }
    if HeadsNeverRise(before) && (h > 0 ==> Binds(ops[h]) <= Binds(before[LastHead(before, h)])) {
      forall i, j | 0 <= i < j < |ops| && RunHead(ops, i) && RunHead(ops, j)
        ensures Binds(ops[j]) <= Binds(ops[i])
      {
        assert j <= h && RunHead(before, i);
        if j < h {
          assert RunHead(before, j) && before[j] == ops[j] && before[i] == ops[i];
        } else {
          var g := LastHead(before, h);
          assert i <= g && before[g] == ops[g] && before[i] == ops[i];
        }
      }
    }
  }

  lemma RisingHasNoHeads(ops: seq<BinOp>, h: nat)
    requires h < |ops| && Rising(ops[h..])
    ensures forall i :: h < i < |ops| ==> !RunHead(ops, i)
  {
    var run := ops[h..];
    forall i | h < i < |ops| ensures !RunHead(ops, i) {
      assert run[i - h - 1] == ops[i - 1] && run[i - h] == ops[i];
    }
  }

  lemma NestReadsAll(trees: seq<Tree>, operands: seq<nat>, ops: seq<BinOp>, h: nat)
    requires h < |ops| && |operands| == |ops| + 1 && |trees| == |ops| - h + 1
    requires AtomsAfterFirst(trees, operands[h + 1..]) && Reads(trees[0], operands[..h + 1], ops[..h])
    ensures Reads(Nest(trees, ops[h..]), operands, ops)
  {
    hide Nest, AtomsAfterFirst;
    NestReads(trees, ops[h..], operands[h + 1..]);
    assert operands[..h + 1] + operands[h + 1..] == operands;
    assert ops[..h] + ops[h..] == ops;
  }

  /** Reducing a run onto the tree before it. */
  lemma NestReduces(trees: seq<Tree>, operands: seq<nat>, ops: seq<BinOp>, h: nat)
    requires h < |ops| && |operands| == |ops| + 1 && |trees| == |ops| - h + 1
    requires RunHead(ops, h) && Rising(ops[h..])
    requires AtomsAfterFirst(trees, operands[h + 1..]) && Reduced(trees[0], operands[..h + 1], ops[..h])
    ensures Reduced(Nest(trees, ops[h..]), operands, ops)
  {
    hide Binds, Rising, HeadsNeverRise, RunHead, Respects, Reads, AtomsAfterFirst, Nest, LastHead;
    NestReadsAll(trees, operands, ops, h);
    RisingHasNoHeads(ops, h);
    HeadsExtend(ops, h);
    NestRespects(trees, ops[h..], operands[h + 1..]);
    assert h > 0 <==> ops[..h] != [];
    assert ops[h..][0] == ops[h];
  }

  lemma AtomsAppend(trees: seq<Tree>, operands: seq<nat>, operand: nat)
    requires AtomsAfterFirst(trees, operands)
    ensures AtomsAfterFirst(trees + [Operand(operand)], operands + [operand])
  {
    assert (trees + [Operand(operand)])[1..] == trees[1..] + [Operand(operand)] == Atoms(operands + [operand]);
  }

  /** What reducing everything gives, once the operand after the last operator has been read. */
  lemma StackedReduces(output: seq<Tree>, opstack: seq<AssocOp>, operands: seq<nat>, ops: seq<BinOp>, operand: nat)
    requires Stacked(output, opstack, operands, ops)
    ensures Reduced(Nest(output + [Operand(operand)], ToBinops(opstack)), operands + [operand], ops)
  {
    var trees, all := output + [Operand(operand)], operands + [operand];
    if ops == [] {
      assert trees == [Operand(operand)] && all == [operand];
      assert Reads(Operand(operand), [operand], []);
    } else {
      var h := |ops| - |opstack|;
      AtomsAppend(output, operands[h + 1..], operand);
      assert operands[h + 1..] + [operand] == all[h + 1..] && all[..h + 1] == operands[..h + 1];
      NestReduces(trees, all, ops, h);
    }
  }

  /** Pushing an operator that starts a new run on the reduced stack. */
  lemma StackedAfterReduce(tree: Tree, operands: seq<nat>, ops: seq<BinOp>, next: AssocOp, op: BinOp)
    requires |operands| == |ops| + 1 && ops != [] && next.ToAstBinop() == Lir.Some(op)
    requires Reduced(tree, operands, ops) && Binds(op) <= Binds(ops[|ops| - 1])
    ensures Stacked([tree], [next], operands, ops + [op])
  {
    hide Reduced;
    var all := ops + [op];
    TablesAgree(next);
    assert all[..|ops|] == ops && all[|ops|..] == [op];
    assert operands[..|ops| + 1] == operands;
    assert ToBinops([next]) == [op];
    assert AtomsAfterFirst([tree], operands[|ops| + 1..]);
  }

  /** Pushing the first operator. */
  lemma StackedFirst(operand: nat, next: AssocOp, op: BinOp)
    requires next.ToAstBinop() == Lir.Some(op)
    ensures Stacked([Operand(operand)], [next], [operand], [op])
  {
    hide Binds;
    var atom := Operand(operand);
    TablesAgree(next);
    assert ToBinops([next]) == [op] == [op][0..];
    assert [operand][1..] == [] && [operand][..1] == [operand] && [op][..0] == [];
    assert Reads(atom, [operand], []);
    assert AtomsAfterFirst([atom], []);
  }

  /** Pushing an operator that continues the run. */
  lemma StackedAfterPush(output: seq<Tree>, opstack: seq<AssocOp>, operands: seq<nat>, ops: seq<BinOp>,
                         operand: nat, next: AssocOp, op: BinOp)
    requires Stacked(output, opstack, operands, ops) && next.ToAstBinop() == Lir.Some(op)
    requires ops != [] && Binds(op) > Binds(ops[|ops| - 1])
    ensures Stacked(output + [Operand(operand)], opstack + [next], operands + [operand], ops + [op])
  {
    hide Binds, Reduced, Rising, RunHead;
    var all, words, h := ops + [op], operands + [operand], |ops| - |opstack|;
    TablesAgree(next);
    HeadStays(ops, op, h);
    assert ToBinops(opstack + [next]) == ToBinops(opstack) + [op];
    assert all[h..] == ops[h..] + [op] && all[..h] == ops[..h];
    RisingAppend(ops[h..], op);
    AtomsAppend(output, operands[h + 1..], operand);
    assert words[..h + 1] == operands[..h + 1] && words[h + 1..] == operands[h + 1..] + [operand];
  }

  lemma HeadStays(ops: seq<BinOp>, op: BinOp, h: nat)
    requires h < |ops| && RunHead(ops, h)
    ensures RunHead(ops + [op], h)
  {
    hide Binds;
    assert (ops + [op])[h] == ops[h] && (h > 0 ==> (ops + [op])[h - 1] == ops[h - 1]);
  }

  lemma RisingAppend(run: seq<BinOp>, op: BinOp)
    requires Rising(run) && (run != [] ==> Binds(op) > Binds(run[|run| - 1]))
    ensures Rising(run + [op])
  {
    var long := run + [op];
    forall k | 0 < k < |long| ensures Binds(long[k - 1]) < Binds(long[k]) {
      assert k < |run| ==> Binds(run[k - 1]) < Binds(run[k]);
    }
  }

  /** What one item does to the stacks when its operator makes a binary expression. */
  lemma StackedStep(output: seq<Tree>, opstack: seq<AssocOp>, operands: seq<nat>, ops: seq<BinOp>,
                    operand: nat, next: AssocOp, op: BinOp)
    requires Stacked(output, opstack, operands, ops) && next.ToAstBinop() == Lir.Some(op)
    ensures opstack != [] && next.Precedence() <= opstack[|opstack| - 1].Precedence() ==>
              Stacked([Nest(output + [Operand(operand)], ToBinops(opstack))], [next], operands + [operand], ops + [op])
    ensures opstack == [] || next.Precedence() > opstack[|opstack| - 1].Precedence() ==>
              Stacked(output + [Operand(operand)], opstack + [next], operands + [operand], ops + [op])
  {
    TablesAgree(next);
    if opstack == [] {
      assert output + [Operand(operand)] == [Operand(operand)] && opstack + [next] == [next];
      assert operands + [operand] == [operand] && ops + [op] == [op];
      StackedFirst(operand, next, op);
    } else {
      TopIsLast(output, opstack, operands, ops);
      if next.Precedence() <= opstack[|opstack| - 1].Precedence() {
        StackedReduces(output, opstack, operands, ops, operand);
        hide Stacked, Reduced, Binds, Nest;
        StackedAfterReduce(Nest(output + [Operand(operand)], ToBinops(opstack)), operands + [operand], ops, next, op);
      } else {
        StackedAfterPush(output, opstack, operands, ops, operand, next, op);
      }
    }
  }

  lemma TopIsLast(output: seq<Tree>, opstack: seq<AssocOp>, operands: seq<nat>, ops: seq<BinOp>)
    requires Stacked(output, opstack, operands, ops) && opstack != []
    ensures opstack[|opstack| - 1].Fix() == Left
    ensures Binds(ops[|ops| - 1]) == opstack[|opstack| - 1].Precedence()
  {
    var top := opstack[|opstack| - 1];
    TablesAgree(top);
    assert ToBinops(opstack)[|opstack| - 1] == ops[|ops| - 1];
  }

  /** What is left at the `;` when the expression ends with an operator. */
  lemma StackedTop(output: seq<Tree>, opstack: seq<AssocOp>, operands: seq<nat>, ops: seq<BinOp>)
    requires Stacked(output, opstack, operands, ops) && ops != []
    ensures RunHead(ops, |ops| - 1) ==> Reads(output[|output| - 1], operands, ops[..|ops| - 1])
    ensures !RunHead(ops, |ops| - 1) ==> output[|output| - 1] == Operand(operands[|operands| - 1])
  {
    var h := |ops| - |opstack|;
    RisingHasNoHeads(ops, h);
    if |opstack| == 1 {
      assert operands[..h + 1] == operands && h == |ops| - 1;
    } else {
      assert !RunHead(ops, |ops| - 1);
      assert output[1..][|output| - 2] == Operand(operands[h + 1..][|output| - 2]);
    }
  }

  lemma ReducedIsReference(tree: Tree, operands: seq<nat>, ops: seq<BinOp>)
    requires |operands| == |ops| + 1 && Reduced(tree, operands, ops)
    ensures Reads(tree, operands, ops)
    ensures tree == Reference(operands, ops) <==> HeadsNeverRise(ops)
  {
    ReferenceReads(operands, ops);
    ReferenceRespects(operands, ops);
    hide Reference, HeadsNeverRise;
    if HeadsNeverRise(ops) {
      RespectingTreeIsUnique(tree, Reference(operands, ops));
    }
  }

  // ---------- the result ----------

  /** The tree reads as the first `n + 1` operands and the `n` operators between them; it is the one
      precedence and left associativity prescribe exactly when the heads of the maximal rising runs
      never rise. */
  ghost predicate TreeOf(tree: Tree, items: seq<Item>, n: nat)
    requires n < |items| && AllBinary(items, n)
  {
    && Operands(tree) == OperandsOf(items, n + 1) && Symbols(Ops(tree)) == SymbolsOf(items, n)
    && (tree == Reference(Operands(tree), Ops(tree)) <==> HeadsNeverRise(Ops(tree)))
  }

  /** How operators of trees are written. */
  function Symbols(ops: seq<BinOp>): (symbols: seq<string>)
    ensures |symbols| == |ops|
  {
    if ops == [] then [] else Symbols(ops[..|ops| - 1]) + [Written(ops[|ops| - 1])]
  }

  /** How the operators behind the first `n` items were written. */
  function SymbolsOf(items: seq<Item>, n: nat): (symbols: seq<string>)
    requires n <= |items| && AllBinary(items, n)
    ensures |symbols| == n
  {
    if n == 0 then [] else SymbolsOf(items, n - 1) + [items[n - 1].next.value.Spelling()]
  }

  /** The operators of the tree are spelled like those that were read. */
  lemma {:induction false} SpelledAlike(items: seq<Item>, n: nat)
    requires n <= |items| && AllBinary(items, n)
    ensures Symbols(BinopsOf(items, n)) == SymbolsOf(items, n)
  {
    if n > 0 {
      SpelledAlike(items, n - 1);
      TablesAgree(items[n - 1].next.value);
      hide Written, AssocOp.Spelling, AssocOp.ToAstBinop;
      assert BinopsOf(items, n)[..n - 1] == BinopsOf(items, n - 1);
    }
  }

  lemma {:induction false} SpelledPrefix(items: seq<Item>, n: nat, m: nat)
    requires m <= n <= |items| && AllBinary(items, n)
    ensures BinopsOf(items, n)[..m] == BinopsOf(items, m)
  {
    if m < n {
      SpelledPrefix(items, n - 1, m);
      assert BinopsOf(items, n)[..m] == BinopsOf(items, n - 1)[..m];
    }
  }

  /** The tree of an expression that ends with an operator: that operator is dropped, and when it binds
      tighter than the one before it so is everything but the last operand. */
  ghost predicate TreeWithoutEnd(tree: Tree, items: seq<Item>)
    requires items != [] && AllBinary(items, |items|)
  {
    var n := |items|;
    if n == 1 || items[n - 1].next.value.Precedence() <= items[n - 2].next.value.Precedence()
    then Operands(tree) == OperandsOf(items, n) && Symbols(Ops(tree)) == SymbolsOf(items, n - 1)
    else tree == Operand(items[n - 1].operand)
  }

  lemma AllBinaryNext(items: seq<Item>, i: nat)
    requires i < |items| && items[i].next.Some?
    ensures AllBinary(items, i + 1) <==> AllBinary(items, i) && items[i].next.value.Fix() == Left
  {
    TablesAgree(items[i].next.value);
  }

  ghost predicate StackedAt(items: seq<Item>, i: nat, output: seq<Tree>, opstack: seq<AssocOp>) {
    i <= |items| && AllBinary(items, i) && Stacked(output, opstack, OperandsOf(items, i), BinopsOf(items, i))
  }

  lemma StackedStart(items: seq<Item>)
    ensures AllBinary(items, 0) && AllLeft([]) && StackedAt(items, 0, [], [])
  {
  }

  lemma StackedNext(items: seq<Item>, i: nat, output: seq<Tree>, opstack: seq<AssocOp>)
    requires i < |items| && AllBinary(items, i + 1) && StackedAt(items, i, output, opstack)
    ensures var ex, next := Operand(items[i].operand), items[i].next.value;
            if opstack != [] && next.Precedence() <= opstack[|opstack| - 1].Precedence()
            then StackedAt(items, i + 1, [Nest(output + [ex], ToBinops(opstack))], [next])
            else StackedAt(items, i + 1, output + [ex], opstack + [next])
  {
    hide Stacked, Nest, AssocOp.Precedence, AssocOp.ToAstBinop;
    var next := items[i].next.value;
    StackedStep(output, opstack, OperandsOf(items, i), BinopsOf(items, i), items[i].operand, next, next.ToAstBinop().value);
  }

  lemma StackedEnds(items: seq<Item>, i: nat, output: seq<Tree>, opstack: seq<AssocOp>)
    requires i < |items| && StackedAt(items, i, output, opstack)
    ensures TreeOf(Nest(output + [Operand(items[i].operand)], ToBinops(opstack)), items, i)
  {
    StackedReduces(output, opstack, OperandsOf(items, i), BinopsOf(items, i), items[i].operand);
    hide Stacked, Nest, Reduced, HeadsNeverRise, Reference, Symbols, SymbolsOf, OperandsOf, BinopsOf, ToBinops, AllBinary;
    ReducedIsReference(Nest(output + [Operand(items[i].operand)], ToBinops(opstack)),
                       OperandsOf(items, i + 1), BinopsOf(items, i));
    SpelledAlike(items, i);
  }

  lemma StackedLeft(items: seq<Item>, output: seq<Tree>, opstack: seq<AssocOp>)
    requires items != [] && StackedAt(items, |items|, output, opstack)
    ensures TreeWithoutEnd(output[|output| - 1], items)
  {
    hide Stacked, Binds, Symbols, SymbolsOf, Written, AssocOp.Precedence;
    var n := |items|;
    StackedTop(output, opstack, OperandsOf(items, n), BinopsOf(items, n));
    TablesAgree(items[n - 1].next.value);
    if n > 1 {
      TablesAgree(items[n - 2].next.value);
    }
    SpelledAlike(items, n - 1);
    SpelledPrefix(items, n, n - 1);
  }

  /** Parses the items up to the first one without an operator. When every item has one, the expression
      ends with an operator just before the `;`. */
  method MakeExpr(items: seq<Item>) returns (r: Parsed)
    ensures var n := Consumed(items);
            n < |items| && AllBinary(items, n) ==> r.Ok? && TreeOf(r.tree, items, n)
    ensures var n := Consumed(items);
            n < |items| && !AllBinary(items, n) ==> r == Panic
    ensures items == [] ==> r == Error
    ensures items != [] && Consumed(items) == |items| && AllBinary(items, |items|) ==>
              r.Ok? && TreeWithoutEnd(r.tree, items)
    ensures items != [] && Consumed(items) == |items| ==> r.Ok?
  {
    hide StackedAt, AllLeft, TreeOf, TreeWithoutEnd, Nest, AssocOp.Precedence, AssocOp.ToAstBinop, AssocOp.Fix;
    var output: seq<Tree>, opstack: seq<AssocOp> := [], [];
    var i := 0;
    StackedStart(items);
    while i < |items|
      invariant 0 <= i <= |items| && |output| == |opstack| && (i > 0 <==> opstack != [])
      invariant forall k :: 0 <= k < i ==> items[k].next.Some?
      invariant AllBinary(items, i) <==> AllLeft(opstack)
      invariant AllBinary(items, i) ==> StackedAt(items, i, output, opstack)
    {
      var ex := Operand(items[i].operand);
      match items[i].next {
        case Some(next) =>
          AllBinaryNext(items, i);
          if AllBinary(items, i + 1) {
            StackedNext(items, i, output, opstack);
          }
          output, opstack := Take(output, opstack, ex, next);
        case None =>
          if AllBinary(items, i) {
            StackedEnds(items, i, output, opstack);
          }
          r := Finish(output + [ex], opstack);
          return;
      }
      i := i + 1;
    }
    if output == [] {
      return Error;
    }
    if AllBinary(items, i) {
      StackedLeft(items, output, opstack);
    }
    return Ok(output[|output| - 1]);
  }

  /** `a == b * c + d` is not parsed as prescribed: the second run starts at `+`, which binds tighter
      than `==`. */
  lemma SumAfterComparison(a: nat, b: nat, c: nat, d: nat)
    ensures !HeadsNeverRise([Lir.Eq, Lir.Mul, Lir.Add])
    ensures Reference([a, b, c, d], [Lir.Eq, Lir.Mul, Lir.Add])
            == Binary(Lir.Eq, Operand(a), Binary(Lir.Add, Binary(Lir.Mul, Operand(b), Operand(c)), Operand(d)))
  {
    var ops := [Lir.Eq, Lir.Mul, Lir.Add];
    assert RunHead(ops, 0) && RunHead(ops, 2) && Binds(ops[2]) > Binds(ops[0]);
    var product := Binary(Lir.Mul, Operand(b), Operand(c));
    var sum := Binary(Lir.Add, product, Operand(d));
    var tree := Binary(Lir.Eq, Operand(a), sum);
    assert Operands(product) == [b, c] && Ops(product) == [Lir.Mul];
    assert Operands(sum) == [b, c, d] && Ops(sum) == [Lir.Mul, Lir.Add];
    assert Operands(tree) == [a, b, c, d] && Ops(tree) == ops;
    assert Respects(product) && Respects(sum) && Respects(tree);
    ReferenceReads([a, b, c, d], ops);
    ReferenceRespects([a, b, c, d], ops);
    RespectingTreeIsUnique(tree, Reference([a, b, c, d], ops));
  }
}
