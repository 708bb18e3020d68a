/** The order in which the nodes of a graph are visited, shared by lowering and evaluation. */
module Traversal {
  import opened Graph

  /** The nodes lowered or evaluated after visiting `n` once `done` were: children first, left before
      right, each node once, folded scalars not at all. */
  function Visit(nodes: seq<Node>, scalars: map<Entity, int>, n: nat, done: seq<nat>): seq<nat>
    requires WellFormed(nodes) && n < |nodes|
    decreases n
  {
    if n in done then done
    else
      match nodes[n]
      case Other => done
      case Operand(_) => done + [n]
      case Operator(_, left, right) =>
        var afterLeft := Visit(nodes, scalars, left, done);
        var afterRight :=
          if right.Some? && !Folds(nodes, scalars, nodes[n]) then Visit(nodes, scalars, right.value, afterLeft)
          else afterLeft;
        afterRight + [n]
  }

  function VisitAll(nodes: seq<Node>, scalars: map<Entity, int>, roots: seq<nat>): seq<nat>
    requires WellFormed(nodes) && forall i :: 0 <= i < |roots| ==> roots[i] < |nodes|
  {
    if roots == [] then []
    else Visit(nodes, scalars, roots[|roots| - 1], VisitAll(nodes, scalars, roots[..|roots| - 1]))
  }

  /** A visiting order: no node twice, and every child that is not folded away comes first. */
  ghost predicate IsOrder(nodes: seq<Node>, scalars: map<Entity, int>, order: seq<nat>) {
    && (forall i :: 0 <= i < |order| ==> order[i] < |nodes| && !nodes[order[i]].Other?)
    && (forall i, j :: 0 <= i < j < |order| ==> order[i] != order[j])
    && (forall i :: 0 <= i < |order| && nodes[order[i]].Operator? ==> ChildrenIn(nodes, scalars, order[i], order[..i]))
  }

  ghost predicate ChildrenIn(nodes: seq<Node>, scalars: map<Entity, int>, n: nat, before: seq<nat>)
    requires n < |nodes| && nodes[n].Operator?
  {
    && nodes[n].left in before
    && (nodes[n].right.Some? && !Folds(nodes, scalars, nodes[n]) ==> nodes[n].right.value in before)
  }

  /** No node of an unknown kind is visited from `n`. */
  ghost predicate Expressible(nodes: seq<Node>, scalars: map<Entity, int>, n: nat)
    requires WellFormed(nodes) && n < |nodes|
    decreases n
  {
    match nodes[n]
    case Other => false
    case Operand(_) => true
    case Operator(_, left, right) =>
      && Expressible(nodes, scalars, left)
      && (right.Some? && !Folds(nodes, scalars, nodes[n]) ==> Expressible(nodes, scalars, right.value))
  }

  /** Visiting keeps what was visited, adds only `n` and nodes below it, and reaches `n`. */
  lemma {:induction false} VisitExtends(nodes: seq<Node>, scalars: map<Entity, int>, n: nat, done: seq<nat>)
    requires WellFormed(nodes) && n < |nodes|
    ensures var order := Visit(nodes, scalars, n, done);
      && done <= order
      && (forall m :: m in order && m !in done ==> m <= n)
      && (Expressible(nodes, scalars, n) ==> n in order)
    decreases n
  {
    if n !in done && nodes[n].Operator? {
      var afterLeft := Visit(nodes, scalars, nodes[n].left, done);
      VisitExtends(nodes, scalars, nodes[n].left, done);
      if nodes[n].right.Some? && !Folds(nodes, scalars, nodes[n]) {
        VisitExtends(nodes, scalars, nodes[n].right.value, afterLeft);
      }
    }
  }

  lemma {:induction false} OrderSnoc(nodes: seq<Node>, scalars: map<Entity, int>, order: seq<nat>, n: nat)
    requires IsOrder(nodes, scalars, order) && n < |nodes| && n !in order && !nodes[n].Other?
    requires nodes[n].Operator? ==> ChildrenIn(nodes, scalars, n, order)
    ensures IsOrder(nodes, scalars, order + [n])
  {
    var longer := order + [n];
    forall i | 0 <= i < |longer| && nodes[longer[i]].Operator?
      ensures ChildrenIn(nodes, scalars, longer[i], longer[..i])
    {
      assert longer[..i] == order[..i];
      assert order[..|order|] == order;
    }
  }

  /** Memoised post-order visits every node once, after its children. */
  lemma {:induction false} VisitIsOrder(nodes: seq<Node>, scalars: map<Entity, int>, n: nat, done: seq<nat>)
    requires WellFormed(nodes) && n < |nodes| && IsOrder(nodes, scalars, done) && Expressible(nodes, scalars, n)
    ensures IsOrder(nodes, scalars, Visit(nodes, scalars, n, done))
    decreases n
  {
    if n !in done {
      if nodes[n].Operand? {
        OrderSnoc(nodes, scalars, done, n);
      } else {
        var left, right := nodes[n].left, nodes[n].right;
        VisitIsOrder(nodes, scalars, left, done);
        VisitExtends(nodes, scalars, left, done);
        var afterLeft := Visit(nodes, scalars, left, done);
        var afterRight := afterLeft;
        if right.Some? && !Folds(nodes, scalars, nodes[n]) {
          VisitIsOrder(nodes, scalars, right.value, afterLeft);
          VisitExtends(nodes, scalars, right.value, afterLeft);
          afterRight := Visit(nodes, scalars, right.value, afterLeft);
        }
        OrderSnoc(nodes, scalars, afterRight, n);
      }
    }
  }

  /** The operand nodes root `n` reads for the first time, left before right. */
  function FirstReads(nodes: seq<Node>, skip: map<Entity, int>, n: nat, done: seq<nat>): (r: seq<nat>)
    requires WellFormed(nodes) && n < |nodes| && nodes[n].Operator?
    ensures forall i :: 0 <= i < |r| ==> r[i] < n && nodes[r[i]].Operand? && r[i] !in done
    ensures |r| == 2 ==> r[0] != r[1]
  {
    var left, right := nodes[n].left, nodes[n].right;
    (if nodes[left].Operand? && left !in done then [left] else [])
    + (if right.Some? && !Folds(nodes, skip, nodes[n]) && nodes[right.value].Operand? && right.value != left
          && right.value !in done then [right.value] else [])
  }

  /** The children of a root are earlier roots or operand nodes. */
  lemma {:induction false} RootChildren(
      ops: seq<Operation>, scalars: map<Entity, int>, nodes: seq<Node>, roots: seq<nat>, i: nat)
    requires IsGraphOf(ops, scalars, nodes, roots) && i < |ops|
    ensures roots[i] < |nodes| && nodes[roots[i]].Operator? && nodes[roots[i]].op == ops[i]
    ensures nodes[roots[i]].right.Some?
    ensures nodes[nodes[roots[i]].left].Operand? || nodes[roots[i]].left in roots[..i]
    ensures nodes[nodes[roots[i]].right.value].Operand? || nodes[roots[i]].right.value in roots[..i]
  {
    hide IsGraphUpTo; hide WellFormed; hide LastDef;
    RecordAt(ops, scalars, nodes, roots, i);
  }

  /** Visiting a root whose predecessors were visited adds the operand nodes it reads first, then itself. */
  lemma {:induction false} VisitRoot(
      ops: seq<Operation>, scalars: map<Entity, int>, skip: map<Entity, int>, nodes: seq<Node>, roots: seq<nat>,
      i: nat, done: seq<nat>)
    requires IsGraphOf(ops, scalars, nodes, roots) && i < |ops|
    requires roots[i] !in done && forall j :: 0 <= j < i ==> roots[j] in done
    ensures WellFormed(nodes) && roots[i] < |nodes| && nodes[roots[i]].Operator?
    ensures Visit(nodes, skip, roots[i], done) == done + FirstReads(nodes, skip, roots[i], done) + [roots[i]]
  {
    hide IsGraphUpTo;
    RecordAt(ops, scalars, nodes, roots, i);
    RootChildren(ops, scalars, nodes, roots, i);
    hide Records;
  }

  lemma {:induction false} RootsDistinct(
      ops: seq<Operation>, scalars: map<Entity, int>, nodes: seq<Node>, roots: seq<nat>, i: nat)
    requires IsGraphOf(ops, scalars, nodes, roots) && i < |ops|
    ensures WellFormed(nodes) && |roots| == |ops|
    ensures roots[i] < |nodes| && nodes[roots[i]].Operator? && roots[i] !in roots[..i]
  {
    hide WellFormed; hide Records;
    RootChildren(ops, scalars, nodes, roots, i);
  }

  /** Every root can be visited: nothing of an unknown kind lies below it. */
  lemma {:induction false} RootExpressible(
      ops: seq<Operation>, scalars: map<Entity, int>, skip: map<Entity, int>, nodes: seq<Node>, roots: seq<nat>, i: nat)
    requires IsGraphOf(ops, scalars, nodes, roots) && i < |ops|
    ensures WellFormed(nodes) && roots[i] < |nodes| && Expressible(nodes, skip, roots[i])
  {
    hide IsGraphOf;
    RootChildren(ops, scalars, nodes, roots, i);
    RootsDistinct(ops, scalars, nodes, roots, i);
    var node := nodes[roots[i]];
    forall j | 0 <= j < i ensures roots[j] < |nodes| && Expressible(nodes, skip, roots[j]) {
      RootExpressible(ops, scalars, skip, nodes, roots, j);
    }
    assert Expressible(nodes, skip, node.left);
    assert Expressible(nodes, skip, node.right.value);
  }
}
