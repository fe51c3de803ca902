/** Operators of the expression parser, the trees it builds, and what a tree must look like to
    respect precedence and left associativity. */
module Precedence {
  import Lir

  type BinOp = Lir.BinOp

  datatype Fixity = Left | Right

  /** How an operator of a tree is written. */
  function Written(op: BinOp): string {
    match op
    case Mul => "*"
    case Div => "/"
    case Rem => "%"
    case Add => "+"
    case Sub => "-"
    case LeftShift => "<<"
    case RightShift => ">>"
    case Lt => "<"
    case Le => "<="
    case Ge => ">="
    case Gt => ">"
    case Eq => "=="
    case Ne => "!="
    case BitAnd => "&"
    case BitXor => "^"
    case BitOr => "|"
    case And => "&&"
    case Or => "||"
  }

  /** No two operators are written alike. */
  lemma WrittenApart(a: BinOp, b: BinOp)
    requires Written(a) == Written(b)
    ensures a == b
  {
    assert |Written(a)| == |Written(b)| && Written(a)[0] == Written(b)[0];
    assert |Written(a)| == 2 ==> Written(a)[1] == Written(b)[1];
  }

  datatype AssocOp =
    | Add | Subtract | Multiply | Divide | Modulus
    | LAnd | LOr | BitXor | BitAnd | BitOr
    | ShiftLeft | ShiftRight
    | Equal | Less | LessEqual | NotEqual | Greater | GreaterEqual
    | Assign | AssignOp(op: BinOp)
  {
    /** How the parser's operator is shown. */
    function Spelling(): string {
      match this
      case Add => "+"
      case Subtract => "-"
      case Multiply => "*"
      case Divide => "/"
      case Modulus => "%"
      case LAnd => "&&"
      case LOr => "||"
      case BitXor => "^"
      case BitAnd => "&"
      case BitOr => "|"
      case ShiftLeft => "<<"
      case ShiftRight => ">>"
      case Equal => "=="
      case Less => "<"
      case LessEqual => "<="
      case NotEqual => "!="
      case Greater => ">"
      case GreaterEqual => ">="
      case Assign => "="
      case AssignOp(op) => Written(op) + "="
    }

    function Precedence(): nat {
      match this
      case Multiply | Divide | Modulus => 13
      case Add | Subtract => 12
      case ShiftLeft | ShiftRight => 11
      case BitAnd => 10
      case BitXor => 9
      case BitOr => 8
      case Less | Greater | LessEqual | GreaterEqual | Equal | NotEqual => 7
      case LAnd => 6
      case LOr => 5
      case Assign | AssignOp(_) => 2
    }

    function Fix(): Fixity {
      match this
      case Assign | AssignOp(_) => Right
      case _ => Left
    }

    /** `None` for the assignment operators, which never become a binary expression. */
    function ToAstBinop(): Lir.Option<BinOp> {
      match this
      case Less => Lir.Some(Lir.Lt)
      case Greater => Lir.Some(Lir.Gt)
      case LessEqual => Lir.Some(Lir.Le)
      case GreaterEqual => Lir.Some(Lir.Ge)
      case Equal => Lir.Some(Lir.Eq)
      case NotEqual => Lir.Some(Lir.Ne)
      case Multiply => Lir.Some(Lir.Mul)
      case Divide => Lir.Some(Lir.Div)
      case Modulus => Lir.Some(Lir.Rem)
      case Add => Lir.Some(Lir.Add)
      case Subtract => Lir.Some(Lir.Sub)
      case ShiftLeft => Lir.Some(Lir.LeftShift)
      case ShiftRight => Lir.Some(Lir.RightShift)
      case BitAnd => Lir.Some(Lir.BitAnd)
      case BitXor => Lir.Some(Lir.BitXor)
      case BitOr => Lir.Some(Lir.BitOr)
      case LAnd => Lir.Some(Lir.And)
      case LOr => Lir.Some(Lir.Or)
      case Assign | AssignOp(_) => Lir.None
    }
  }

  /** How tightly an operator of a finished tree binds. */
  function Binds(op: BinOp): nat {
    match op
    case Mul | Div | Rem => 13
    case Add | Sub => 12
    case LeftShift | RightShift => 11
    case BitAnd => 10
    case BitXor => 9
    case BitOr => 8
    case Lt | Gt | Le | Ge | Eq | Ne => 7
    case And => 6
    case Or => 5
  }

  /** The operators of trees from loosest to tightest, level by level. */
  const LEVELS: seq<seq<string>> :=
    [["||"], ["&&"], ["<", "<=", ">=", ">", "==", "!="], ["|"], ["^"], ["&"], ["<<", ">>"], ["+", "-"], ["*", "/", "%"]]

  /** How tightly an operator binds is the level on which it is listed. */
  lemma LevelsAgree(op: BinOp)
    ensures Binds(op) >= 5 && Binds(op) - 5 < |LEVELS| && Written(op) in LEVELS[Binds(op) - 5]
  {
  }

  /** The parser's tables and those for trees agree: an operator keeps its spelling and its precedence in the tree,
      and only left-associative operators become tree nodes, which are all but the assignments. */
  lemma TablesAgree(op: AssocOp)
    ensures op.ToAstBinop().Some? ==> Written(op.ToAstBinop().value) == op.Spelling()
    ensures op.ToAstBinop().None? <==> op.Assign? || op.AssignOp?
    ensures op.Fix() == Left <==> op.ToAstBinop().Some?
    ensures op.ToAstBinop().Some? ==> Binds(op.ToAstBinop().value) == op.Precedence() >= 5
    ensures op.ToAstBinop().None? ==> op.Precedence() == 2
  {
  }

  /** Operands are atoms or parenthesised groups. */
  datatype Tree = Operand(id: nat) | Binary(op: BinOp, lhs: Tree, rhs: Tree)

  // ---------- reading a tree from left to right ----------

  function Operands(t: Tree): seq<nat> {
    match t
    case Operand(x) => [x]
    case Binary(_, l, r) => Operands(l) + Operands(r)
  }

  function Ops(t: Tree): (ops: seq<BinOp>)
    ensures |Operands(t)| == |ops| + 1
  {
    match t
    case Operand(_) => []
    case Binary(op, l, r) => Ops(l) + [op] + Ops(r)
  }

  /** What a tree says when its nodes are written from left to right. */
  predicate Reads(t: Tree, operands: seq<nat>, ops: seq<BinOp>) {
    Operands(t) == operands && Ops(t) == ops
  }

  /** No operand of an operator is an operator that binds less tightly, nor, on the right, equally tightly. */
  predicate Respects(t: Tree) {
    t.Binary? ==>
      && Respects(t.lhs) && Respects(t.rhs)
      && (t.lhs.Binary? ==> Binds(t.lhs.op) >= Binds(t.op))
      && (t.rhs.Binary? ==> Binds(t.rhs.op) > Binds(t.op))
  }

  lemma {:induction false} RootBindsLeast(t: Tree)
    requires Respects(t) && t.Binary?
    ensures forall i :: 0 <= i < |Ops(t.lhs)| ==> Binds(Ops(t.lhs)[i]) >= Binds(t.op)
    ensures forall i :: 0 <= i < |Ops(t.rhs)| ==> Binds(Ops(t.rhs)[i]) > Binds(t.op)
    decreases t
  {
    if t.lhs.Binary? {
      RootBindsLeast(t.lhs);
    }
    if t.rhs.Binary? {
      RootBindsLeast(t.rhs);
    }
  }

  /** `k` is the last position of an operator that binds least. */
  predicate Loosest(ops: seq<BinOp>, k: nat) {
    && k < |ops|
    && (forall i :: 0 <= i < k ==> Binds(ops[i]) >= Binds(ops[k]))
    && (forall i :: k < i < |ops| ==> Binds(ops[i]) > Binds(ops[k]))
  }

  lemma RootIsLoosest(t: Tree)
    requires Respects(t) && t.Binary?
    ensures Loosest(Ops(t), |Ops(t.lhs)|)
  {
    hide Binds, Operands, Loosest;
    RootBindsLeast(t);
    JoinIsLoosest(Ops(t.lhs), t.op, Ops(t.rhs));
  }

  lemma JoinIsLoosest(a: seq<BinOp>, op: BinOp, b: seq<BinOp>)
    requires forall i :: 0 <= i < |a| ==> Binds(a[i]) >= Binds(op)
    requires forall i :: 0 <= i < |b| ==> Binds(b[i]) > Binds(op)
    ensures Loosest(a + [op] + b, |a|)
  {
    hide Binds;
    var ops := a + [op] + b;
    forall i | |a| < i < |ops| ensures Binds(ops[i]) > Binds(ops[|a|]) {
      assert ops[i] == b[i - |a| - 1];
    }
  }

  lemma NoneLooserBehind(ops: seq<BinOp>, i: nat, j: nat)
    requires Loosest(ops, i) && i < j < |ops|
    ensures !Loosest(ops, j)
  {
    assert Binds(ops[j]) > Binds(ops[i]);
  }

  lemma LoosestIsUnique(ops: seq<BinOp>, i: nat, j: nat)
    requires Loosest(ops, i) && Loosest(ops, j)
    ensures i == j
  {
    if i < j {
      NoneLooserBehind(ops, i, j);
    } else if j < i {
      NoneLooserBehind(ops, j, i);
    }
  }

  /** At most one tree with a given reading respects precedence and associativity. */
  lemma {:induction false} RespectingTreeIsUnique(a: Tree, b: Tree)
    requires Respects(a) && Respects(b)
    requires Operands(a) == Operands(b) && Ops(a) == Ops(b)
    ensures a == b
    decreases a
  {
    if a.Operand? || b.Operand? {
      assert |Ops(a)| == |Ops(b)|;
    } else {
      hide Binds, Loosest;
      RootIsLoosest(a);
      RootIsLoosest(b);
      var i := |Ops(a.lhs)|;
      LoosestIsUnique(Ops(a), i, |Ops(b.lhs)|);
      assert Ops(a.lhs) == Ops(a)[..i] == Ops(b)[..i] == Ops(b.lhs);
      assert Ops(a.rhs) == Ops(a)[i + 1..] == Ops(b)[i + 1..] == Ops(b.rhs);
      assert Operands(a.lhs) == Operands(a)[..i + 1] == Operands(b)[..i + 1] == Operands(b.lhs);
      assert Operands(a.rhs) == Operands(a)[i + 1..] == Operands(b)[i + 1..] == Operands(b.rhs);
      RespectingTreeIsUnique(a.lhs, b.lhs);
      RespectingTreeIsUnique(a.rhs, b.rhs);
    }
  }

  // ---------- the reference: split at the last operator that binds least ----------

  function LastLoosest(ops: seq<BinOp>): (k: nat)
    requires ops != []
    ensures Loosest(ops, k)
  {
    if |ops| == 1 then 0
    else
      var k := LastLoosest(ops[..|ops| - 1]);
      if Binds(ops[|ops| - 1]) <= Binds(ops[k]) then |ops| - 1 else k
  }

  /** The tree that precedence and left associativity prescribe. */
  function Reference(operands: seq<nat>, ops: seq<BinOp>): Tree
    requires |operands| == |ops| + 1
    decreases |ops|
  {
    if ops == [] then Operand(operands[0])
    else
      var k := LastLoosest(ops);
      Binary(ops[k], Reference(operands[..k + 1], ops[..k]), Reference(operands[k + 1..], ops[k + 1..]))
  }

  lemma NodeReads(op: BinOp, l: Tree, r: Tree, operands: seq<nat>, ops: seq<BinOp>, k: nat)
    requires |operands| == |ops| + 1 && k < |ops| && op == ops[k]
    requires Reads(l, operands[..k + 1], ops[..k]) && Reads(r, operands[k + 1..], ops[k + 1..])
    ensures Reads(Binary(op, l, r), operands, ops)
  {
    assert operands == operands[..k + 1] + operands[k + 1..];
    assert ops == ops[..k] + [ops[k]] + ops[k + 1..];
  }

  lemma {:induction false} ReferenceReads(operands: seq<nat>, ops: seq<BinOp>)
    requires |operands| == |ops| + 1
    ensures Reads(Reference(operands, ops), operands, ops)
    decreases |ops|
  {
    if ops == [] {
      assert operands == [operands[0]];
      assert Reads(Operand(operands[0]), operands, ops);
    } else {
      var k := LastLoosest(ops);
      hide LastLoosest, Loosest, Reads;
      var l, r := Reference(operands[..k + 1], ops[..k]), Reference(operands[k + 1..], ops[k + 1..]);
      ReferenceReads(operands[..k + 1], ops[..k]);
      ReferenceReads(operands[k + 1..], ops[k + 1..]);
      NodeReads(ops[k], l, r, operands, ops, k);
    }
  }

  lemma {:induction false} ReferenceRespects(operands: seq<nat>, ops: seq<BinOp>)
    requires |operands| == |ops| + 1
    ensures Respects(Reference(operands, ops))
    ensures ops != [] ==> Reference(operands, ops).Binary? && Reference(operands, ops).op in ops
    decreases |ops|
  {
    if ops != [] {
      var k := LastLoosest(ops);
      ReferenceRespects(operands[..k + 1], ops[..k]);
      ReferenceRespects(operands[k + 1..], ops[k + 1..]);
      var l, r := Reference(operands[..k + 1], ops[..k]), Reference(operands[k + 1..], ops[k + 1..]);
      if k > 0 {
        var i :| 0 <= i < k && ops[..k][i] == l.op;
        assert ops[i] == l.op;
      }
      if k + 1 < |ops| {
        var i :| 0 <= i < |ops[k + 1..]| && ops[k + 1..][i] == r.op;
        assert ops[k + 1 + i] == r.op;
      }
      assert Reference(operands, ops) == Binary(ops[k], l, r);
    }
  }

  // ---------- runs of rising precedence ----------

  /** Position `i` starts a maximal run of strictly rising precedence. */
  predicate RunHead(ops: seq<BinOp>, i: nat)
    requires i < |ops|
  {
    i == 0 || Binds(ops[i]) <= Binds(ops[i - 1])
  }

  /** The heads of the runs bind less and less tightly, or equally. */
  ghost predicate HeadsNeverRise(ops: seq<BinOp>) {
    forall i, j :: 0 <= i < j < |ops| && RunHead(ops, i) && RunHead(ops, j) ==> Binds(ops[j]) <= Binds(ops[i])
  }
}
