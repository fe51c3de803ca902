/** The iterator over the generic dependents of an item: a queue that is refilled with the children of
    the dependent handed out last. */
module ParamIter {
  import Lir

  type Ident = Lir.Ident

  datatype Node = Func(Ident) | Trait(Ident) | Enum(Ident) | Struct(Ident) | Builtin(Ident)

  /** A generic parameter with the items that depend on it. */
  datatype GenericParam = GenericParam(children: seq<Child>)

  datatype Child = Child(node: Node, param: GenericParam)

  // ---------- what is listed ----------

  function Weight(queue: seq<Child>): nat
    decreases queue
  {
    if queue == [] then 0
    else
      assert queue decreases to queue[0];
      1 + Weight(queue[0].param.children) + Weight(queue[1..])
  }

  lemma {:induction false} WeightAppend(a: seq<Child>, b: seq<Child>)
    ensures Weight(a + b) == Weight(a) + Weight(b)
    decreases |a|
  {
    if a == [] {
      assert a + b == b;
    } else {
      assert (a + b)[1..] == a[1..] + b;
      WeightAppend(a[1..], b);
    }
  }

  /** The nodes in the order in which the queue hands them out. */
  function Pending(queue: seq<Child>): seq<Node>
    decreases Weight(queue)
  {
    if queue == [] then []
    else
      WeightAppend(queue[1..], queue[0].param.children);
      [queue[0].node] + Pending(queue[1..] + queue[0].param.children)
  }

  function Names(level: seq<Child>): seq<Node> {
    if level == [] then [] else [level[0].node] + Names(level[1..])
  }

  /** The children of a level, from left to right. */
  function NextLevel(level: seq<Child>): seq<Child> {
    if level == [] then [] else level[0].param.children + NextLevel(level[1..])
  }

  lemma {:induction false} NextLevelWeight(level: seq<Child>)
    ensures Weight(NextLevel(level)) + |level| == Weight(level)
  {
    if level != [] {
      WeightAppend(level[0].param.children, NextLevel(level[1..]));
      NextLevelWeight(level[1..]);
    }
  }

  /** Level by level, each from left to right. */
  function LevelOrder(level: seq<Child>): seq<Node>
    decreases Weight(level)
  {
    if level == [] then []
    else
      NextLevelWeight(level);
      Names(level) + LevelOrder(NextLevel(level))
  }

  /** Depth first: a node, then everything below it. */
  function Below(forest: seq<Child>): seq<Node>
    decreases forest
  {
    if forest == [] then []
    else
      assert forest decreases to forest[0];
      [forest[0].node] + Below(forest[0].param.children) + Below(forest[1..])
  }

  lemma PendingStep(queue: seq<Child>)
    requires queue != []
    ensures Pending(queue) == [queue[0].node] + Pending(queue[1..] + queue[0].param.children)
  {
  }

  /** While a level is handed out the queue collects the next one. */
  lemma {:induction false} LevelFirst(level: seq<Child>, queued: seq<Child>)
    ensures Pending(level + queued) == Names(level) + Pending(queued + NextLevel(level))
    decreases |level|
  {
    if level == [] {
      assert level + queued == queued && queued + NextLevel(level) == queued;
    } else {
      PendingStep(level + queued);
      hide Pending;
      var children := level[0].param.children;
      assert (level + queued)[1..] + children == level[1..] + (queued + children);
      LevelFirst(level[1..], queued + children);
      assert queued + children + NextLevel(level[1..]) == queued + NextLevel(level);
    }
  }

  /** The queue lists the nodes in level order. */
  lemma {:induction false} PendingIsLevelOrder(queue: seq<Child>)
    ensures Pending(queue) == LevelOrder(queue)
    decreases Weight(queue)
  {
    if queue != [] {
      LevelFirst(queue, []);
      assert queue + [] == queue && [] + NextLevel(queue) == NextLevel(queue);
      NextLevelWeight(queue);
      PendingIsLevelOrder(NextLevel(queue));
    }
  }

  lemma {:induction false} BelowAppend(a: seq<Child>, b: seq<Child>)
    ensures Below(a + b) == Below(a) + Below(b)
    decreases |a|
  {
    if a == [] {
      assert a + b == b;
    } else {
      assert (a + b)[1..] == a[1..] + b;
      BelowAppend(a[1..], b);
    }
  }

  /** Every descendant is listed as often as it occurs below the item. */
  lemma {:induction false} PendingListsAll(queue: seq<Child>)
    ensures multiset(Pending(queue)) == multiset(Below(queue))
    decreases Weight(queue)
  {
    if queue != [] {
      var children := queue[0].param.children;
      WeightAppend(queue[1..], children);
      PendingListsAll(queue[1..] + children);
      BelowAppend(queue[1..], children);
    }
  }

  // ---------- the iterator ----------

  class GenericParamIter {
    var curr: GenericParam
    var stack: seq<Child>

    constructor (param: GenericParam)
      ensures Remaining() == Pending(param.children)
    {
      curr, stack := param, [];
      assert [] + param.children == param.children;
    }

    /** What the iterator will still yield. */
    ghost function Remaining(): seq<Node>
      reads this
    {
      Pending(stack + curr.children)
    }

    /** Yields the next node; once there is none it stays finished. */
    method Next() returns (r: Lir.Option<Node>)
      modifies this
      ensures if old(Remaining()) == [] then r == Lir.None && Remaining() == []
              else r == Lir.Some(old(Remaining())[0]) && Remaining() == old(Remaining())[1..]
    {
      stack := stack + curr.children;
      if stack == [] {
        return Lir.None;
      }
      var next := stack[0];
      stack := stack[1..];
      curr := next.param;
      return Lir.Some(next.node);
    }

    /** Everything that is left, as a loop over the iterator sees it. */
    method Drain() returns (all: seq<Node>)
      modifies this
      ensures all == old(Remaining()) && Remaining() == []
    {
      all := [];
      var next := Next();
      while next.Some?
        invariant old(Remaining()) == all + (if next.Some? then [next.value] + Remaining() else [])
        invariant next.None? ==> Remaining() == []
        decreases if next.Some? then 1 + |Remaining()| else 0
      {
        all := all + [next.value];
        next := Next();
      }
    }
  }

  /** Visiting all dependents of an item visits its descendants in level order, each exactly as often as
      it occurs. */
  method AllDependents(param: GenericParam) returns (all: seq<Node>)
    ensures all == LevelOrder(param.children)
    ensures multiset(all) == multiset(Below(param.children))
  {
    var iter := new GenericParamIter(param);
    all := iter.Drain();
    PendingIsLevelOrder(param.children);
    PendingListsAll(param.children);
  }
}
