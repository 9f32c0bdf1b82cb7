/** The numeric chain of a post: the arithmetic rule that gives each node its
    result, the invariant the node sequence keeps (every node after the root
    extends an earlier node), and what follows from it — the nodes form a tree
    rooted at index 0, and every result is the start number replayed through
    the operations on the way down from the root. */
module Chain {

  import opened Outcomes
  import opened JsValues
  import opened JsText
  import opened Schema

  /** One operation applied to a parent's result: an operator and its
      right operand. */
  datatype Step = Step(op: Op, operand: real)

  /** The one step the handler refuses: division by zero. */
  predicate Defined(st: Step) {
    st.op == Div ==> st.operand != 0.0
  }

  /** `parent.result op b`, with exact arithmetic in place of doubles. Each
      operator is undone by its inverse: the result minus `b`, plus `b`, or
      divided or multiplied by a non-zero `b` gives `a` back. */
  function Apply(a: real, op: Op, b: real): (r: real)
    requires Defined(Step(op, b))
    ensures op == Add ==> r - b == a
    ensures op == Sub ==> r + b == a
    ensures op == Mul && b != 0.0 ==> r / b == a
    ensures op == Mul && b == 0.0 ==> r == 0.0
    ensures op == Div ==> r * b == a
  {
    match op
    case Add => a + b
    case Sub => a - b
    case Mul => a * b
    case Div => a / b
  }

  /** A root node: no parent, no operator, no operand. */
  predicate IsRoot(n: Node) {
    n.parentId.None? && n.op.None? && n.rightOperand.None?
  }

  /** `nodes[i]` was appended as an extension of `nodes[j]`: it references
      that node's id, carries an operator and operand (never a zero
      divisor) and holds `nodes[j].result` combined with the operand. */
  predicate Extends(nodes: seq<Node>, i: nat, j: nat)
    requires j < i < |nodes|
  {
    var n := nodes[i];
    && n.parentId == Some(nodes[j].id)
    && n.op.Some? && n.rightOperand.Some?
    && Defined(Step(n.op.value, n.rightOperand.value))
    && n.result == Apply(nodes[j].result, n.op.value, n.rightOperand.value)
  }

  predicate DistinctIds(nodes: seq<Node>) {
    forall i, j :: 0 <= i < j < |nodes| ==> nodes[i].id != nodes[j].id
  }

  /** Some node before `nodes[i]` is the one it extends. */
  predicate HasParent(nodes: seq<Node>, i: nat)
    requires i < |nodes|
  {
    exists j :: 0 <= j < i && Extends(nodes, i, j)
  }

  /** The chain invariant: a root at index 0, distinct ids, and every
      later node extends some node before it. */
  predicate ChainOk(nodes: seq<Node>) {
    && (|nodes| > 0 ==> IsRoot(nodes[0]))
    && DistinctIds(nodes)
    && forall i :: 0 < i < |nodes| ==> HasParent(nodes, i)
  }

  /** The position of a non-root node's parent: it is earlier in the
      sequence, and it is the only node the child can extend. */
  ghost function ParentIndex(nodes: seq<Node>, i: nat): (j: nat)
    requires ChainOk(nodes) && 0 < i < |nodes|
    ensures j < i && Extends(nodes, i, j)
    ensures forall k :: 0 <= k < i && Extends(nodes, i, k) ==> k == j
  {
    assert HasParent(nodes, i);
    var j :| 0 <= j < i && Extends(nodes, i, j);
    j
  }

  /** Index 0 is the one and only root. */
  lemma RootIsUnique(nodes: seq<Node>, i: nat)
    requires ChainOk(nodes) && i < |nodes|
    ensures IsRoot(nodes[i]) <==> i == 0
  {
    if i > 0 {
      var j := ParentIndex(nodes, i);
    }
  }

  /** The path from node `i` up to the root, following parent links; each
      step goes to a strictly earlier index, so every node reaches index 0. */
  ghost function Ancestry(nodes: seq<Node>, i: nat): (path: seq<nat>)
    requires ChainOk(nodes) && i < |nodes|
    ensures |path| >= 1 && path[0] == i && path[|path| - 1] == 0
    ensures forall k :: 0 <= k < |path| ==> path[k] < |nodes|
    ensures forall k :: 0 < k < |path| ==> path[k] < path[k - 1] && Extends(nodes, path[k - 1], path[k])
    decreases i
  {
    if i == 0 then [0] else [i] + Ancestry(nodes, ParentIndex(nodes, i))
  }

  /** The start value with the steps applied left to right. */
  function Replay(start: real, steps: seq<Step>): real
    requires forall k :: 0 <= k < |steps| ==> Defined(steps[k])
  {
    if steps == [] then start
    else
      var last := steps[|steps| - 1];
      assert Defined(last);
      Apply(Replay(start, steps[..|steps| - 1]), last.op, last.operand)
  }

  /** The operations along node `i`'s ancestry, root first. Replaying them
      from the root's value yields exactly `nodes[i].result`. */
  ghost function History(nodes: seq<Node>, i: nat): (steps: seq<Step>)
    requires ChainOk(nodes) && i < |nodes|
    ensures |steps| == |Ancestry(nodes, i)| - 1
    ensures forall k :: 0 <= k < |steps| ==> Defined(steps[k])
    ensures Replay(nodes[0].result, steps) == nodes[i].result
    decreases i
  {
    if i == 0 then []
    else
      var j := ParentIndex(nodes, i);
      var n := nodes[i];
      var prefix := History(nodes, j);
      var steps := prefix + [Step(n.op.value, n.rightOperand.value)];
      assert steps[..|steps| - 1] == prefix;
      steps
  }

  /** `st` is the operation that node `n` applied to its parent's result. */
  predicate Records(n: Node, st: Step) {
    n.op == Some(st.op) && n.rightOperand == Some(st.operand)
  }

  /** The history is read off the ancestry: its `k`-th step is the operator
      and operand of the node `k + 1` links below the root on the path to
      node `i`, so replaying it applies exactly those nodes' operations, root
      first. */
  lemma {:induction false} HistoryFollowsAncestry(nodes: seq<Node>, i: nat)
    requires ChainOk(nodes) && i < |nodes|
    ensures forall k :: 0 <= k < |History(nodes, i)| ==>
      Records(nodes[Ancestry(nodes, i)[|Ancestry(nodes, i)| - 2 - k]], History(nodes, i)[k])
    decreases i
  {
    if i > 0 {
      var j := ParentIndex(nodes, i);
      HistoryFollowsAncestry(nodes, j);
      var path, steps := Ancestry(nodes, i), History(nodes, i);
      var up, prefix := Ancestry(nodes, j), History(nodes, j);
      assert path == [i] + up;
      assert steps == prefix + [Step(nodes[i].op.value, nodes[i].rightOperand.value)];
      forall k | 0 <= k < |steps|
        ensures Records(nodes[path[|path| - 2 - k]], steps[k])
      {
        if k < |prefix| {
          assert path[|path| - 2 - k] == up[|up| - 2 - k];
          assert steps[k] == prefix[k];
          assert Records(nodes[up[|up| - 2 - k]], prefix[k]);
        } else {
          assert path[|path| - 2 - k] == i;
          assert Extends(nodes, i, j);
        }
      }
    }
  }

  /** Appending a node that extends an existing one, under an id no node
      has, keeps the chain invariant. */
  lemma AppendKeepsChain(nodes: seq<Node>, j: nat, n: Node)
    requires ChainOk(nodes) && j < |nodes|
    requires forall k :: 0 <= k < |nodes| ==> nodes[k].id != n.id
    requires n.parentId == Some(nodes[j].id) && n.op.Some? && n.rightOperand.Some?
    requires Defined(Step(n.op.value, n.rightOperand.value))
    requires n.result == Apply(nodes[j].result, n.op.value, n.rightOperand.value)
    ensures ChainOk(nodes + [n])
  {
    var m := nodes + [n];
    forall i | 0 < i < |m|
      ensures HasParent(m, i)
    {
      if i < |nodes| {
        var k := ParentIndex(nodes, i);
        assert Extends(m, i, k);
      } else {
        assert Extends(m, i, j);
      }
    }
  }

  /** The node a `parentIndex` body value names, looked up the way
      `nodes[parentIndex]` does in JavaScript: an integral number in range,
      or the canonical decimal string of one. Anything else names no node. */
  function ResolveIndex(nodes: seq<Node>, v: Value): (r: Option<nat>)
    ensures r.Some? ==> r.value < |nodes|
    ensures r.Some? ==> v == Num(r.value as real) || v == Str(Decimal(r.value))
  {
    match v
    case Num(x) =>
      if x == x.Floor as real && 0 <= x.Floor < |nodes| then Some(x.Floor as nat) else None
    case Str(s) =>
      (match ParseIndex(s)
       case Some(i) =>
         ParseIndexRoundTrip(s, i);
         if i < |nodes| then Some(i) else None
       case None => None)
    case _ => None
  }

  /** Conversely, every node is named both by its index as a number and by
      its index's decimal string. */
  lemma ResolveEveryIndex(nodes: seq<Node>, i: nat)
    requires i < |nodes|
    ensures ResolveIndex(nodes, Num(i as real)) == Some(i)
    ensures ResolveIndex(nodes, Str(Decimal(i))) == Some(i)
  {
    ParseIndexRoundTrip(Decimal(i), i);
  }

  /** An empty node sequence (a text post's) resolves no index at all. */
  lemma ResolveInEmpty(v: Value)
    ensures ResolveIndex([], v).None?
  {
  }
}
