/** Lowering a graph to a flat program: a memoised post-order that numbers ids as it goes. */
module Lowering {
  import opened Fhn
  import opened Sets
  import opened Graph
  import opened Traversal
  import opened Evaluation

  /** What the lowering has produced: the program so far, the id of each lowered node, and the (id, entity)
      bindings in lowering order. */
  datatype Lowered = Lowered(
    insts: seq<Instruction>, inputs: seq<Id>, nextId: Id, ids: map<nat, Id>, bindings: seq<(Id, Entity)>)

  function IdOf(ids: map<nat, Id>, n: nat): Id {
    if n in ids then ids[n] else 0
  }

  function InstructionOf(
    nodes: seq<Node>, scalars: map<Entity, int>, node: Node, ids: map<nat, Id>, id: Id): Instruction
    requires node.Operator?
  {
    Instruction(OpcodeOf(nodes, scalars, node), id,
      [IdOf(ids, node.left), if node.right.Some? then IdOf(ids, node.right.value) else 0, 0, 0],
      ParamOf(node.op), ScalarOf(nodes, scalars, node))
  }

  /** The child whose value an assignment node stands for. */
  function ValueChild(node: Node): nat
    requires node.Operator?
  {
    if node.right.Some? then node.right.value else node.left
  }

  /** Lowering one node whose children were lowered. */
  function EmitNode(nodes: seq<Node>, scalars: map<Entity, int>, st: Lowered, n: nat): Lowered
    requires n < |nodes|
  {
    match nodes[n]
    case Other => st
    case Operand(e) =>
      Lowered(st.insts, st.inputs + [st.nextId], st.nextId + 1, st.ids[n := st.nextId], st.bindings + [(st.nextId, e)])
    case Operator(op, _, _) =>
      if op.kind == Assignment then
        var value := ValueChild(nodes[n]);
        if value !in st.ids then st
        else st.(ids := st.ids[n := st.ids[value]], bindings := st.bindings + [(st.ids[value], Target(op))])
      else
        Lowered(st.insts + [InstructionOf(nodes, scalars, nodes[n], st.ids, st.nextId)], st.inputs, st.nextId + 1,
          st.ids[n := st.nextId], st.bindings + [(st.nextId, Target(op))])
  }

  /** Lowering the nodes of a visiting order one by one. */
  function Emit(nodes: seq<Node>, scalars: map<Entity, int>, order: seq<nat>): Lowered
    requires forall i :: 0 <= i < |order| ==> order[i] < |nodes|
  {
    if order == [] then Lowered([], [], 1, map[], [])
    else EmitNode(nodes, scalars, Emit(nodes, scalars, order[..|order| - 1]), order[|order| - 1])
  }

  lemma EmitSnoc(nodes: seq<Node>, scalars: map<Entity, int>, order: seq<nat>, n: nat)
    requires n < |nodes| && forall i :: 0 <= i < |order| ==> order[i] < |nodes|
    ensures Emit(nodes, scalars, order + [n]) == EmitNode(nodes, scalars, Emit(nodes, scalars, order), n)
  {
    assert (order + [n])[..|order|] == order;
    hide EmitNode;
  }

  // ---- The bookkeeping of ids ------------------------------------------------------------------

  /** Ids are handed out from 1 upwards, each to one input or one instruction, and an instruction reads only
      ids smaller than its own. */
  ghost predicate Numbered(insts: seq<Instruction>, inputs: seq<Id>, nextId: Id) {
    && nextId >= 1
    && Increasing(inputs)
    && (forall k :: 0 <= k < |inputs| ==> 1 <= inputs[k] < nextId)
    && (forall i :: 0 <= i < |insts| ==> 1 <= insts[i].resultId < nextId && insts[i].resultId !in inputs)
    && (forall i, j :: 0 <= i < j < |insts| ==> insts[i].resultId < insts[j].resultId)
    && (forall x :: 1 <= x < nextId && x !in inputs ==> exists i :: 0 <= i < |insts| && insts[i].resultId == x)
    && (forall i, x :: 0 <= i < |insts| && x in OperandIds(insts[i]) ==> x < insts[i].resultId)
  }

  /** Every lowered node has an id in use, and exactly the visited nodes are lowered. */
  ghost predicate IdsFor(st: Lowered, order: seq<nat>) {
    && (forall m :: m in st.ids <==> m in order)
    && (forall m :: m in st.ids ==> 1 <= st.ids[m] < st.nextId)
    && (forall i :: 0 <= i < |st.bindings| ==> 1 <= st.bindings[i].0 < st.nextId)
  }

  /** Such a numbering makes a valid program. */
  lemma {:induction false} NumberedIsValid(p: Program, nextId: Id)
    requires Numbered(p.insts, p.inputs, nextId)
    ensures Valid(p)
  {
    hide DefinedBefore; hide OperandIds;
    forall i | 0 <= i < |p.insts|
      ensures p.insts[i].resultId != 0 && p.insts[i].resultId !in DefinedBefore(p, i)
      ensures OperandIds(p.insts[i]) <= DefinedBefore(p, i)
    {
      forall x | x in OperandIds(p.insts[i]) ensures x in DefinedBefore(p, i) {
        OperandDefined(p, nextId, i, x);
      }
      ResultNew(p, nextId, i);
    }
  }

  lemma {:induction false} OperandDefined(p: Program, nextId: Id, i: nat, x: Id)
    requires Numbered(p.insts, p.inputs, nextId) && i < |p.insts| && x in OperandIds(p.insts[i])
    ensures x in DefinedBefore(p, i)
  {
    if x !in p.inputs {
      assert x != 0;
      var j :| 0 <= j < |p.insts| && p.insts[j].resultId == x;
      assert j < i;
    }
  }

  lemma {:induction false} ResultNew(p: Program, nextId: Id, i: nat)
    requires Numbered(p.insts, p.inputs, nextId) && i < |p.insts|
    ensures p.insts[i].resultId !in DefinedBefore(p, i)
  {
    hide OperandIds;
  }

  lemma {:induction false} AddInput(insts: seq<Instruction>, inputs: seq<Id>, nextId: Id)
    requires Numbered(insts, inputs, nextId)
    ensures Numbered(insts, inputs + [nextId], nextId + 1)
  {
    hide OperandIds;
  }

  lemma {:induction false} AddInstruction(insts: seq<Instruction>, inputs: seq<Id>, nextId: Id, inst: Instruction)
    requires Numbered(insts, inputs, nextId) && inst.resultId == nextId
    requires forall j :: 0 <= j < 4 ==> inst.operands[j] < nextId
    ensures Numbered(insts + [inst], inputs, nextId + 1)
  {
    var more := insts + [inst];
    forall x | 1 <= x < nextId + 1 && x !in inputs ensures exists i :: 0 <= i < |more| && more[i].resultId == x {
      if x < nextId {
        var i :| 0 <= i < |insts| && insts[i].resultId == x;
        assert more[i].resultId == x;
      } else {
        assert more[|insts|].resultId == nextId;
      }
    }
  }

  lemma NumberedFromOne(insts: seq<Instruction>, inputs: seq<Id>, nextId: Id)
    requires Numbered(insts, inputs, nextId)
    ensures nextId >= 1
  {
  }

  /** Lowering a node keeps the numbering. */
  lemma {:induction false} EmitNodeNumbered(
      nodes: seq<Node>, scalars: map<Entity, int>, st: Lowered, order: seq<nat>, n: nat)
    requires Numbered(st.insts, st.inputs, st.nextId) && IdsFor(st, order)
    requires n < |nodes| && n !in order && !nodes[n].Other?
    requires nodes[n].Operator? ==> ChildrenIn(nodes, scalars, n, order)
    ensures var after := EmitNode(nodes, scalars, st, n);
      Numbered(after.insts, after.inputs, after.nextId) && IdsFor(after, order + [n])
  {
    hide Numbered;
    NumberedFromOne(st.insts, st.inputs, st.nextId);
    AddInput(st.insts, st.inputs, st.nextId);
    if nodes[n].Operator? {
      AddInstruction(st.insts, st.inputs, st.nextId, InstructionOf(nodes, scalars, nodes[n], st.ids, st.nextId));
    }
  }

  // ---- Which node an id stands for -------------------------------------------------------------

  /** The entity an id was first bound to. */
  function SourceOf(bindings: seq<(Id, Entity)>, id: Id): Option<Entity> {
    if bindings == [] then None
    else
      var earlier := SourceOf(bindings[..|bindings| - 1], id);
      if earlier.Some? then earlier
      else if bindings[|bindings| - 1].0 == id then Some(bindings[|bindings| - 1].1)
      else None
  }

  /** `inst` applies the operation of node `m` to the ids of its children. */
  ghost predicate Applies(nodes: seq<Node>, scalars: map<Entity, int>, ids: map<nat, Id>, m: nat, inst: Instruction)
    requires m < |nodes| && nodes[m].Operator? && m in ids
  {
    var node := nodes[m];
    && inst.resultId == ids[m]
    && inst.opcode == OpcodeOf(nodes, scalars, node)
    && inst.param == ParamOf(node.op) && inst.scalar == ScalarOf(nodes, scalars, node)
    && node.left in ids && inst.operands[0] == ids[node.left]
    && (node.right.None? ==> inst.operands[1] == 0)
    && (node.right.Some? && !Folds(nodes, scalars, node) ==>
          node.right.value in ids && inst.operands[1] == ids[node.right.value])
    && inst.operands[2] == 0 && inst.operands[3] == 0
  }

  /** The id of node `m` is an input bound to its entity, the id of the value assigned, or the result of an
      instruction that applies the node's operation. */
  ghost predicate Represents(nodes: seq<Node>, scalars: map<Entity, int>, st: Lowered, m: nat) {
    && m < |nodes| && m in st.ids
    && match nodes[m]
       case Other => false
       case Operand(e) => st.ids[m] in st.inputs && SourceOf(st.bindings, st.ids[m]) == Some(e)
       case Operator(op, _, _) =>
         if op.kind == Assignment then
           ValueChild(nodes[m]) in st.ids && st.ids[m] == st.ids[ValueChild(nodes[m])]
         else exists i :: 0 <= i < |st.insts| && Applies(nodes, scalars, st.ids, m, st.insts[i])
  }

  lemma {:induction false} SourceUnbound(bindings: seq<(Id, Entity)>, id: Id)
    requires forall i :: 0 <= i < |bindings| ==> bindings[i].0 != id
    ensures SourceOf(bindings, id) == None
  {
    if bindings != [] {
      SourceUnbound(bindings[..|bindings| - 1], id);
    }
  }

  lemma SourceSnoc(bindings: seq<(Id, Entity)>, last: (Id, Entity), id: Id)
    ensures SourceOf(bindings + [last], id) ==
      if SourceOf(bindings, id).Some? then SourceOf(bindings, id) else if last.0 == id then Some(last.1) else None
  {
    assert (bindings + [last])[..|bindings|] == bindings;
  }

  /** The new node is represented. */
  lemma {:induction false} EmitNodeRepresents(
      nodes: seq<Node>, scalars: map<Entity, int>, st: Lowered, order: seq<nat>, n: nat)
    requires WellFormed(nodes) && IdsFor(st, order) && n < |nodes| && n !in order && !nodes[n].Other?
    requires nodes[n].Operator? ==> ChildrenIn(nodes, scalars, n, order)
    ensures Represents(nodes, scalars, EmitNode(nodes, scalars, st, n), n)
  {
    var after := EmitNode(nodes, scalars, st, n);
    if nodes[n].Operand? {
      SourceUnbound(st.bindings, st.nextId);
      SourceSnoc(st.bindings, (st.nextId, nodes[n].entity), st.nextId);
    } else if nodes[n].op.kind != Assignment {
      assert Applies(nodes, scalars, after.ids, n, after.insts[|st.insts|]);
    }
  }

  /** The earlier nodes still are. */
  lemma {:induction false} EmitNodeKeeps(
      nodes: seq<Node>, scalars: map<Entity, int>, st: Lowered, n: nat, m: nat)
    requires n < |nodes| && n !in st.ids && Represents(nodes, scalars, st, m)
    ensures Represents(nodes, scalars, EmitNode(nodes, scalars, st, n), m)
  {
    var after := EmitNode(nodes, scalars, st, n);
    if nodes[m].Operand? {
      if after.bindings != st.bindings {
        SourceSnoc(st.bindings, after.bindings[|st.bindings|], st.ids[m]);
      }
    } else if nodes[m].op.kind != Assignment {
      var i :| 0 <= i < |st.insts| && Applies(nodes, scalars, st.ids, m, st.insts[i]);
      assert after.insts[i] == st.insts[i];
      assert Applies(nodes, scalars, after.ids, m, after.insts[i]);
    }
  }

  /** Binding `i` names the id and the entity of the `i`-th lowered node. */
  ghost predicate BindsInOrder(nodes: seq<Node>, st: Lowered, order: seq<nat>) {
    && |st.bindings| == |order|
    && (forall i :: 0 <= i < |order| ==>
          && order[i] in st.ids && order[i] < |nodes|
          && st.bindings[i] == (st.ids[order[i]], EntityOf(nodes[order[i]])))
  }

  /** Every input was first bound to the entity of an operand node. */
  ghost predicate InputsBound(nodes: seq<Node>, st: Lowered, order: seq<nat>) {
    forall x :: x in st.inputs ==> SourceOf(st.bindings, x).Some? && IsRead(nodes, order, SourceOf(st.bindings, x).value)
  }

  ghost predicate IsRead(nodes: seq<Node>, order: seq<nat>, e: Entity) {
    exists m :: m in order && m < |nodes| && nodes[m] == Operand(e)
  }

  /** Everything lowering a visiting order gives. */
  lemma {:induction false} EmitFacts(nodes: seq<Node>, scalars: map<Entity, int>, order: seq<nat>)
    requires WellFormed(nodes) && IsOrder(nodes, scalars, order)
    ensures var st := Emit(nodes, scalars, order);
      && Numbered(st.insts, st.inputs, st.nextId) && IdsFor(st, order)
      && BindsInOrder(nodes, st, order) && InputsBound(nodes, st, order)
      && (forall m :: m in order ==> Represents(nodes, scalars, st, m))
  {
    hide IsOrder; hide WellFormed; hide Represents; hide EmitNode; hide Numbered; hide ChildrenIn; hide BindsInOrder;
    hide InputsBound;
    if order == [] {
      NothingEmitted(nodes, scalars);
    } else {
      var before, n := order[..|order| - 1], order[|order| - 1];
      assert before + [n] == order;
      OrderPrefix(nodes, scalars, before, n);
      EmitFacts(nodes, scalars, before);
      var st := Emit(nodes, scalars, before);
      EmitSnoc(nodes, scalars, before, n);
      EmitNodeNumbered(nodes, scalars, st, before, n);
      EmitNodeRepresents(nodes, scalars, st, before, n);
      forall m | m in before { EmitNodeKeeps(nodes, scalars, st, n, m); }
      EmitNodeBinds(nodes, scalars, st, before, n);
      EmitNodeInputs(nodes, scalars, st, before, n);
    }
  }

  lemma NothingEmitted(nodes: seq<Node>, scalars: map<Entity, int>)
    ensures var st := Emit(nodes, scalars, []);
      && Numbered(st.insts, st.inputs, st.nextId) && IdsFor(st, [])
      && BindsInOrder(nodes, st, []) && InputsBound(nodes, st, [])
  {
  }

  lemma OrderPrefix(nodes: seq<Node>, scalars: map<Entity, int>, order: seq<nat>, n: nat)
    requires IsOrder(nodes, scalars, order + [n])
    ensures IsOrder(nodes, scalars, order) && n < |nodes| && n !in order && !nodes[n].Other?
    ensures forall i :: 0 <= i < |order| ==> order[i] < |nodes|
    ensures nodes[n].Operator? ==> ChildrenIn(nodes, scalars, n, order)
  {
    var longer := order + [n];
    assert longer[|order|] == n && longer[..|order|] == order;
    forall i | 0 <= i < |order| ensures order[i] == longer[i] && longer[..i] == order[..i] {}
    hide ChildrenIn;
  }

  lemma EmitNodeBinds(nodes: seq<Node>, scalars: map<Entity, int>, st: Lowered, order: seq<nat>, n: nat)
    requires IdsFor(st, order) && BindsInOrder(nodes, st, order) && n < |nodes| && n !in order && !nodes[n].Other?
    requires nodes[n].Operator? ==> ChildrenIn(nodes, scalars, n, order)
    ensures BindsInOrder(nodes, EmitNode(nodes, scalars, st, n), order + [n])
  {
  }

  lemma {:induction false} EmitNodeInputs(
      nodes: seq<Node>, scalars: map<Entity, int>, st: Lowered, order: seq<nat>, n: nat)
    requires InputsBound(nodes, st, order) && IdsFor(st, order) && n < |nodes|
    ensures InputsBound(nodes, EmitNode(nodes, scalars, st, n), order + [n])
  {
    var after := EmitNode(nodes, scalars, st, n);
    forall x | x in after.inputs
      ensures SourceOf(after.bindings, x).Some? && IsRead(nodes, order + [n], SourceOf(after.bindings, x).value)
    {
      if after.bindings != st.bindings {
        SourceSnoc(st.bindings, after.bindings[|st.bindings|], x);
      }
      if x in st.inputs {
        var m :| m in order && m < |nodes| && nodes[m] == Operand(SourceOf(st.bindings, x).value);
        assert m in order + [n];
      } else {
        SourceUnbound(st.bindings, st.nextId);
        assert n in order + [n];
      }
    }
  }

  // ---- What the program computes ---------------------------------------------------------------

  /** The input values a caller provisions: each input id gets what its entity holds. */
  ghost predicate InputsFrom<V>(st: Lowered, store: Entity -> V, inputs: map<Id, V>) {
    && inputs.Keys == SetOf(st.inputs)
    && (forall x :: x in st.inputs && SourceOf(st.bindings, x).Some? ==>
          inputs[x] == store(SourceOf(st.bindings, x).value))
  }

  /** The program computes, at the id of every lowered node, the value of the node. */
  lemma {:induction false} LoweredValue<V(!new)>(
      k: Kernel<V>, scalars: map<Entity, int>, nodes: seq<Node>, st: Lowered, p: Program, store: Entity -> V,
      inputs: map<Id, V>, order: seq<nat>, m: nat)
    requires WellFormed(nodes) && Valid(p) && p.insts == st.insts && p.inputs == st.inputs
    requires IdsFor(st, order) && (forall n :: n in order ==> Represents(nodes, scalars, st, n))
    requires InputsFrom(st, store, inputs) && ScalarsUnary(k)
    requires m in order && m < |nodes|
    ensures m in st.ids && st.ids[m] in Eval(Always(k), p, inputs, |p.insts|)
    ensures Eval(Always(k), p, inputs, |p.insts|)[st.ids[m]] == NodeValue(k, scalars, nodes, store, m)
    decreases m
  {
    hide Eval; hide Valid; hide ScalarsUnary;
    var node := nodes[m];
    assert Represents(nodes, scalars, st, m);
    if node.Operand? {
      InputValue(k, p, inputs, st.ids[m]);
    } else if node.op.kind == Assignment {
      LoweredValue(k, scalars, nodes, st, p, store, inputs, order, ValueChild(node));
    } else {
      var i :| 0 <= i < |st.insts| && Applies(nodes, scalars, st.ids, m, st.insts[i]);
      LoweredValue(k, scalars, nodes, st, p, store, inputs, order, node.left);
      if node.right.Some? && !Folds(nodes, scalars, node) {
        LoweredValue(k, scalars, nodes, st, p, store, inputs, order, node.right.value);
      }
      EvalSatisfies(Always(k), p, inputs, i);
      InstructionValue(k, scalars, nodes, st.ids, store, Eval(Always(k), p, inputs, |p.insts|), m, p.insts[i]);
    }
  }

  lemma {:induction false} InputValue<V>(k: Kernel<V>, p: Program, inputs: map<Id, V>, x: Id)
    requires Valid(p) && inputs.Keys == SetOf(p.inputs) && x in p.inputs
    ensures x in inputs && x in Eval(Always(k), p, inputs, |p.insts|)
    ensures Eval(Always(k), p, inputs, |p.insts|)[x] == inputs[x]
  {
    hide Valid;
    EvalKeeps(Always(k), p, inputs, 0, |p.insts|, x);
  }

  lemma {:induction false} InstructionValue<V(!new)>(
      k: Kernel<V>, scalars: map<Entity, int>, nodes: seq<Node>, ids: map<nat, Id>, store: Entity -> V,
      vals: map<Id, V>, m: nat, inst: Instruction)
    requires WellFormed(nodes) && m < |nodes| && nodes[m].Operator? && nodes[m].op.kind != Assignment && m in ids
    requires Applies(nodes, scalars, ids, m, inst) && ScalarsUnary(k)
    requires ids[nodes[m].left] != 0 && ids[nodes[m].left] in vals
    requires vals[ids[nodes[m].left]] == NodeValue(k, scalars, nodes, store, nodes[m].left)
    requires nodes[m].right.Some? && !Folds(nodes, scalars, nodes[m]) ==>
      (ids[nodes[m].right.value] != 0 && ids[nodes[m].right.value] in vals &&
       vals[ids[nodes[m].right.value]] == NodeValue(k, scalars, nodes, store, nodes[m].right.value))
    ensures Compute(k, inst, vals) == NodeValue(k, scalars, nodes, store, m)
  {
    var node := nodes[m];
    var x := NodeValue(k, scalars, nodes, store, node.left);
    var args := OperandValues(inst, vals);
    assert args == [Some(x), args[1], None, None];
    if Folds(nodes, scalars, node) {
      var e := nodes[node.right.value].entity;
      assert e in scalars;
      assert k(inst.opcode, [Some(x), args[1], None, None], 0, scalars[e]) ==
        k(inst.opcode, [Some(x), None, None, None], 0, scalars[e]);
    }
  }

  // ---- Writing back ----------------------------------------------------------------------------

  /** The id an entity is bound to last. */
  function Latest(bindings: seq<(Id, Entity)>, e: Entity): Option<Id> {
    if bindings == [] then None
    else if bindings[|bindings| - 1].1 == e then Some(bindings[|bindings| - 1].0)
    else Latest(bindings[..|bindings| - 1], e)
  }

  /** The node lowered last among those of an entity. */
  function LatestNode(nodes: seq<Node>, order: seq<nat>, e: Entity): Option<nat>
    requires forall i :: 0 <= i < |order| ==> order[i] < |nodes|
  {
    if order == [] then None
    else if EntityOf(nodes[order[|order| - 1]]) == e then Some(order[|order| - 1])
    else LatestNode(nodes, order[..|order| - 1], e)
  }

  lemma {:induction false} LatestIsNode(
      nodes: seq<Node>, order: seq<nat>, ids: map<nat, Id>, bindings: seq<(Id, Entity)>, e: Entity)
    requires |bindings| == |order|
    requires forall i :: 0 <= i < |order| ==> order[i] < |nodes| && order[i] in ids
    requires forall i :: 0 <= i < |order| ==> bindings[i] == (ids[order[i]], EntityOf(nodes[order[i]]))
    ensures LatestNode(nodes, order, e).None? ==> Latest(bindings, e).None?
    ensures LatestNode(nodes, order, e).Some? ==> (
      var m := LatestNode(nodes, order, e).value;
      m in order && m in ids && Latest(bindings, e) == Some(ids[m]))
  {
    if order != [] {
      LatestIsNode(nodes, order[..|order| - 1], ids, bindings[..|order| - 1], e);
    }
  }

  /** The last node of an entity has the entity's value, and an entity without a node was not written. */
  ghost predicate EntityHolds<V>(
    k: Kernel<V>, ops: seq<Operation>, scalars: map<Entity, int>, nodes: seq<Node>, store: Entity -> V, i: nat,
    order: seq<nat>, e: Entity)
    requires WellFormed(nodes) && i <= |ops| && forall j :: 0 <= j < |order| ==> order[j] < |nodes|
  {
    match LatestNode(nodes, order, e)
    case Some(m) => m < |nodes| && NodeValue(k, scalars, nodes, store, m) == ValueAfter(k, scalars, ops, store, i, e)
    case None => ValueAfter(k, scalars, ops, store, i, e) == store(e)
  }

  ghost predicate LatestHolds<V>(
    k: Kernel<V>, ops: seq<Operation>, scalars: map<Entity, int>, nodes: seq<Node>, store: Entity -> V, i: nat,
    order: seq<nat>)
    requires WellFormed(nodes) && i <= |ops|
  {
    && (forall j :: 0 <= j < |order| ==> order[j] < |nodes|)
    && (forall e :: EntityHolds(k, ops, scalars, nodes, store, i, order, e))
  }

  lemma {:induction false} LatestAppend(nodes: seq<Node>, order: seq<nat>, more: seq<nat>, e: Entity)
    requires forall i :: 0 <= i < |order| ==> order[i] < |nodes|
    requires forall i :: 0 <= i < |more| ==> more[i] < |nodes|
    ensures LatestNode(nodes, order + more, e) ==
      if LatestNode(nodes, more, e).Some? then LatestNode(nodes, more, e) else LatestNode(nodes, order, e)
    ensures LatestNode(nodes, more, e).Some? ==>
      LatestNode(nodes, more, e).value in more && EntityOf(nodes[LatestNode(nodes, more, e).value]) == e
  {
    if more == [] {
      assert order + more == order;
    } else {
      LatestAppend(nodes, order, more[..|more| - 1], e);
      assert (order + more)[..|order + more| - 1] == order + more[..|more| - 1];
    }
  }

  /** An operand node a root reads first holds its entity's initial value, which is still current. */
  lemma {:induction false} FirstReadIsCurrent<V(!new)>(
      k: Kernel<V>, ops: seq<Operation>, scalars: map<Entity, int>, nodes: seq<Node>, roots: seq<nat>,
      store: Entity -> V, i: nat, order: seq<nat>, m: nat)
    requires IsGraphOf(ops, scalars, nodes, roots) && i < |ops| && ScalarsConstant(ops, scalars)
    requires WellFormed(nodes) && i < |roots| && roots[i] < |nodes| && nodes[roots[i]].Operator?
    requires m in FirstReads(nodes, scalars, roots[i], order)
    ensures m < |nodes| && nodes[m].Operand?
    ensures NodeValue(k, scalars, nodes, store, m) == ValueAfter(k, scalars, ops, store, i, nodes[m].entity)
  {
    hide IsGraphOf; hide WellFormed; hide ScalarsConstant; hide ValueAfter; hide LastDef;
    RecordAt(ops, scalars, nodes, roots, i);
    forall j | 0 <= j < i ensures roots[j] < |nodes| && nodes[roots[j]].Operator? {
      RecordAt(ops, scalars, nodes, roots, j);
    }
    var e := nodes[m].entity;
    LastDefIsLast(k, scalars, ops, store, i, e);
    if e in scalars {
      ScalarNeverDefined(ops, scalars, i, e);
    }
  }

  /** One more root. */
  lemma {:induction false} LatestStep<V(!new)>(
      k: Kernel<V>, ops: seq<Operation>, scalars: map<Entity, int>, nodes: seq<Node>, roots: seq<nat>,
      store: Entity -> V, i: nat, order: seq<nat>)
    requires IsGraphOf(ops, scalars, nodes, roots) && i < |ops|
    requires ScalarsConstant(ops, scalars)
    requires VisitedUpTo(ops, nodes, roots, i, order)
    requires WellFormed(nodes) && LatestHolds(k, ops, scalars, nodes, store, i, order)
    ensures i < |roots| && roots[i] < |nodes|
    ensures LatestHolds(k, ops, scalars, nodes, store, i + 1, Visit(nodes, scalars, roots[i], order))
  {
    hide *;
    VisitNextRoot(ops, scalars, scalars, nodes, roots, i, order);
    RootsDistinct(ops, scalars, nodes, roots, i);
    VisitedRoots(ops, nodes, roots, i + 1, Visit(nodes, scalars, roots[i], order));
    var next, after := i + 1, Visit(nodes, scalars, roots[i], order);
    forall e: Entity ensures EntityHolds(k, ops, scalars, nodes, store, next, after, e) {
      EntityStep(k, ops, scalars, nodes, roots, store, i, order, e);
    }
    LatestIntro(k, ops, scalars, nodes, store, next, after);
  }

  lemma LatestIntro<V(!new)>(
      k: Kernel<V>, ops: seq<Operation>, scalars: map<Entity, int>, nodes: seq<Node>, store: Entity -> V, i: nat,
      order: seq<nat>)
    requires WellFormed(nodes) && i <= |ops| && (forall j :: 0 <= j < |order| ==> order[j] < |nodes|)
    requires forall e :: EntityHolds(k, ops, scalars, nodes, store, i, order, e)
    ensures LatestHolds(k, ops, scalars, nodes, store, i, order)
  {
    hide EntityHolds; hide WellFormed;
  }

  lemma LatestElim<V(!new)>(
      k: Kernel<V>, ops: seq<Operation>, scalars: map<Entity, int>, nodes: seq<Node>, store: Entity -> V, i: nat,
      order: seq<nat>, e: Entity)
    requires WellFormed(nodes) && i <= |ops| && LatestHolds(k, ops, scalars, nodes, store, i, order)
    ensures forall j :: 0 <= j < |order| ==> order[j] < |nodes|
    ensures EntityHolds(k, ops, scalars, nodes, store, i, order, e)
  {
    hide EntityHolds; hide WellFormed;
  }

  lemma {:induction false} EntityStep<V(!new)>(
      k: Kernel<V>, ops: seq<Operation>, scalars: map<Entity, int>, nodes: seq<Node>, roots: seq<nat>,
      store: Entity -> V, i: nat, order: seq<nat>, e: Entity)
    requires IsGraphOf(ops, scalars, nodes, roots) && i < |ops|
    requires ScalarsConstant(ops, scalars)
    requires VisitedUpTo(ops, nodes, roots, i, order)
    requires WellFormed(nodes) && LatestHolds(k, ops, scalars, nodes, store, i, order)
    ensures i < |roots| && roots[i] < |nodes|
    ensures forall j :: 0 <= j < |Visit(nodes, scalars, roots[i], order)| ==>
      Visit(nodes, scalars, roots[i], order)[j] < |nodes|
    ensures EntityHolds(k, ops, scalars, nodes, store, i + 1, Visit(nodes, scalars, roots[i], order), e)
  {
    hide IsGraphOf; hide WellFormed; hide ScalarsConstant; hide ScalarsUnary; hide Visit; hide NodeValue;
    hide FirstReads; hide VisitedUpTo; hide LatestHolds;
    RootsDistinct(ops, scalars, nodes, roots, i);
    RootChildren(ops, scalars, nodes, roots, i);
    VisitNextRoot(ops, scalars, scalars, nodes, roots, i, order);
    VisitedRoots(ops, nodes, roots, i, order);
    VisitRoot(ops, scalars, scalars, nodes, roots, i, order);
    LatestElim(k, ops, scalars, nodes, store, i, order, e);
    var first := FirstReads(nodes, scalars, roots[i], order);
    LatestAppend(nodes, order, first, e);
    LatestAppend(nodes, order + first, [roots[i]], e);
    if e == Target(ops[i]) {
      RootValue(k, ops, scalars, nodes, roots, store, i);
    } else if LatestNode(nodes, first, e).Some? {
      FirstReadIsCurrent(k, ops, scalars, nodes, roots, store, i, order, LatestNode(nodes, first, e).value);
    }
  }

  lemma VisitedRoots(ops: seq<Operation>, nodes: seq<Node>, roots: seq<nat>, i: nat, order: seq<nat>)
    requires i <= |ops| && i <= |roots| && VisitedUpTo(ops, nodes, roots, i, order)
    ensures forall j :: 0 <= j < i ==> roots[j] in order
    ensures forall j :: 0 <= j < |order| ==> order[j] < |nodes|
  {
  }

  /** The roots of a recorded list are visited children first. */
  lemma {:induction false} RootsInOrder(
      ops: seq<Operation>, scalars: map<Entity, int>, nodes: seq<Node>, roots: seq<nat>, i: nat)
    requires IsGraphOf(ops, scalars, nodes, roots) && i <= |ops|
    ensures WellFormed(nodes) && |roots| == |ops| && forall j :: 0 <= j < |roots| ==> roots[j] < |nodes|
    ensures IsOrder(nodes, scalars, VisitAll(nodes, scalars, roots[..i]))
  {
    hide IsGraphOf; hide WellFormed; hide Visit; hide IsOrder;
    GraphShape(ops, scalars, nodes, roots);
    if i == 0 {
      NothingVisited(nodes, scalars);
    } else {
      RootsInOrder(ops, scalars, nodes, roots, i - 1);
      RootExpressible(ops, scalars, scalars, nodes, roots, i - 1);
      VisitIsOrder(nodes, scalars, roots[i - 1], VisitAll(nodes, scalars, roots[..i - 1]));
      assert roots[..i][..i - 1] == roots[..i - 1];
    }
  }

  lemma NothingVisited(nodes: seq<Node>, scalars: map<Entity, int>)
    ensures IsOrder(nodes, scalars, [])
  {
  }

  /** Lowering the roots of a recorded list leaves the entities' values in their last nodes. */
  lemma {:induction false} LatestAlways<V(!new)>(
      k: Kernel<V>, ops: seq<Operation>, scalars: map<Entity, int>, nodes: seq<Node>, roots: seq<nat>,
      store: Entity -> V, i: nat)
    requires IsGraphOf(ops, scalars, nodes, roots) && i <= |ops|
    requires ScalarsConstant(ops, scalars)
    ensures WellFormed(nodes) && |roots| == |ops| && forall j :: 0 <= j < |roots| ==> roots[j] < |nodes|
    ensures LatestHolds(k, ops, scalars, nodes, store, i, VisitAll(nodes, scalars, roots[..i]))
  {
    hide IsGraphOf; hide WellFormed; hide ScalarsConstant; hide ScalarsUnary; hide VisitedUpTo; hide Visit;
    hide EntityHolds;
    GraphShape(ops, scalars, nodes, roots);
    if i == 0 {
      NothingLatest(k, ops, scalars, nodes, store);
    } else {
      var order := VisitAll(nodes, scalars, roots[..i - 1]);
      LatestAlways(k, ops, scalars, nodes, roots, store, i - 1);
      EachOperationOnceInOrder(ops, scalars, scalars, nodes, roots, i - 1);
      LatestStep(k, ops, scalars, nodes, roots, store, i - 1, order);
      assert roots[..i][..i - 1] == roots[..i - 1];
    }
  }

  lemma NothingLatest<V(!new)>(
      k: Kernel<V>, ops: seq<Operation>, scalars: map<Entity, int>, nodes: seq<Node>, store: Entity -> V)
    requires WellFormed(nodes)
    ensures LatestHolds(k, ops, scalars, nodes, store, 0, [])
  {
    hide WellFormed;
  }

  lemma GraphShape(ops: seq<Operation>, scalars: map<Entity, int>, nodes: seq<Node>, roots: seq<nat>)
    requires IsGraphOf(ops, scalars, nodes, roots)
    ensures WellFormed(nodes) && |roots| == |ops| && forall j :: 0 <= j < |roots| ==> roots[j] < |nodes|
  {
    forall j | 0 <= j < |ops| ensures |roots| == |ops| && roots[j] < |nodes| {
      RecordAt(ops, scalars, nodes, roots, j);
    }
    hide WellFormed; hide Increasing;
  }

  /** `st` is what lowering the roots in order produces. */
  ghost predicate LoweredTo(nodes: seq<Node>, scalars: map<Entity, int>, roots: seq<nat>, st: Lowered) {
    && WellFormed(nodes)
    && (forall j :: 0 <= j < |roots| ==> roots[j] < |nodes|)
    && var order := VisitAll(nodes, scalars, roots);
       (forall j :: 0 <= j < |order| ==> order[j] < |nodes|) && st == Emit(nodes, scalars, order)
  }

  /** Some operation reads the value `e` had before the run. A folded scalar is not read. */
  ghost predicate ReadInitially(ops: seq<Operation>, scalars: map<Entity, int>, e: Entity) {
    exists i :: 0 <= i < |ops| && ReadsInitial(ops, scalars, i, e)
  }

  ghost predicate ReadsInitial(ops: seq<Operation>, scalars: map<Entity, int>, i: nat, e: Entity)
    requires i < |ops|
  {
    || (e == ops[i].operand1 && LastDef(ops, i, e).None?)
    || (e == ops[i].operand2 && if e in scalars then ops[i].kind == Assignment else LastDef(ops, i, e).None?)
  }

  /** The operand nodes lowered are those of entities read with their initial value. */
  lemma {:induction false} OperandsAreRead(
      ops: seq<Operation>, scalars: map<Entity, int>, nodes: seq<Node>, roots: seq<nat>, i: nat, m: nat)
    requires IsGraphOf(ops, scalars, nodes, roots) && i <= |ops|
    requires WellFormed(nodes) && |roots| == |ops| && forall j :: 0 <= j < |roots| ==> roots[j] < |nodes|
    requires m in VisitAll(nodes, scalars, roots[..i]) && m < |nodes| && nodes[m].Operand?
    ensures ReadInitially(ops, scalars, nodes[m].entity)
  {
    hide IsGraphOf; hide WellFormed; hide Visit; hide FirstReads; hide ReadsInitial; hide VisitedUpTo;
    var before := VisitAll(nodes, scalars, roots[..i - 1]);
    assert roots[..i][..i - 1] == roots[..i - 1];
    EachOperationOnceInOrder(ops, scalars, scalars, nodes, roots, i - 1);
    VisitNextRoot(ops, scalars, scalars, nodes, roots, i - 1, before);
    VisitedRoots(ops, nodes, roots, i - 1, before);
    VisitRoot(ops, scalars, scalars, nodes, roots, i - 1, before);
    if m in before {
      OperandsAreRead(ops, scalars, nodes, roots, i - 1, m);
    } else {
      FirstReadIsInitial(ops, scalars, nodes, roots, i - 1, before, m);
    }
  }

  lemma {:induction false} FirstReadIsInitial(
      ops: seq<Operation>, scalars: map<Entity, int>, nodes: seq<Node>, roots: seq<nat>, i: nat, order: seq<nat>, m: nat)
    requires IsGraphOf(ops, scalars, nodes, roots) && i < |ops|
    requires WellFormed(nodes) && i < |roots| && roots[i] < |nodes| && nodes[roots[i]].Operator?
    requires m in FirstReads(nodes, scalars, roots[i], order)
    ensures m < |nodes| && nodes[m].Operand? && ReadsInitial(ops, scalars, i, nodes[m].entity)
  {
    hide IsGraphOf; hide WellFormed; hide LastDef;
    RecordAt(ops, scalars, nodes, roots, i);
    forall j | 0 <= j < i ensures roots[j] < |nodes| && nodes[roots[j]].Operator? {
      RecordAt(ops, scalars, nodes, roots, j);
    }
  }

  /** And every such entity is the source of an input. */
  lemma {:induction false} ReadsAreInputs(
      ops: seq<Operation>, scalars: map<Entity, int>, nodes: seq<Node>, roots: seq<nat>, st: Lowered, i: nat, e: Entity)
    returns (x: Id)
    requires IsGraphOf(ops, scalars, nodes, roots) && LoweredTo(nodes, scalars, roots, st)
    requires i < |ops| && ReadsInitial(ops, scalars, i, e)
    ensures x in st.inputs && SourceOf(st.bindings, x) == Some(e)
  {
    hide IsGraphOf; hide WellFormed; hide VisitAll; hide IsOrder; hide Emit; hide Numbered; hide LastDef;
    hide SourceOf; hide IdsFor; hide VisitedUpTo; hide InputsBound; hide BindsInOrder;
    RootsInOrder(ops, scalars, nodes, roots, |ops|);
    EachOperationOnceInOrder(ops, scalars, scalars, nodes, roots, |ops|);
    assert roots[..|ops|] == roots;
    var order := VisitAll(nodes, scalars, roots);
    VisitedRoots(ops, nodes, roots, |ops|, order);
    EmitFacts(nodes, scalars, order);
    RecordAt(ops, scalars, nodes, roots, i);
    ChildrenVisited(nodes, scalars, order, roots[i]);
    var node := nodes[roots[i]];
    var m := if e == ops[i].operand1 && LastDef(ops, i, e).None? then node.left else node.right.value;
    assert nodes[m] == Operand(e) && m in order;
    assert Represents(nodes, scalars, st, m);
    x := st.ids[m];
  }

  lemma ChildrenVisited(nodes: seq<Node>, scalars: map<Entity, int>, order: seq<nat>, n: nat)
    requires IsOrder(nodes, scalars, order) && n in order && n < |nodes| && nodes[n].Operator?
    ensures nodes[n].left in order
    ensures nodes[n].right.Some? && !Folds(nodes, scalars, nodes[n]) ==> nodes[n].right.value in order
  {
    var i :| 0 <= i < |order| && order[i] == n;
    assert ChildrenIn(nodes, scalars, n, order[..i]);
  }

  /** The lowered program of a recorded list is well formed, and every binding names an id it defines. */
  lemma {:induction false} LoweredIsValid(
      ops: seq<Operation>, scalars: map<Entity, int>, nodes: seq<Node>, roots: seq<nat>, st: Lowered, p: Program)
    requires IsGraphOf(ops, scalars, nodes, roots)
    requires LoweredTo(nodes, scalars, roots, st) && p.insts == st.insts && p.inputs == st.inputs
    ensures Valid(p)
    ensures forall i :: 0 <= i < |st.bindings| ==> st.bindings[i].0 in Defs(p)
    ensures ops != [] ==> st.bindings != []
    ensures forall x :: x in p.inputs ==>
      SourceOf(st.bindings, x).Some? && ReadInitially(ops, scalars, SourceOf(st.bindings, x).value)
  {
    hide IsGraphOf; hide WellFormed; hide VisitAll; hide IsOrder; hide Emit; hide Numbered; hide Represents;
    hide Valid; hide Defs; hide SourceOf; hide IdsFor;
    RootsInOrder(ops, scalars, nodes, roots, |ops|);
    assert roots[..|ops|] == roots;
    EmitFacts(nodes, scalars, VisitAll(nodes, scalars, roots));
    NumberedIsValid(p, st.nextId);
    BindingsDefined(st, VisitAll(nodes, scalars, roots), p);
    EachOperationOnceInOrder(ops, scalars, scalars, nodes, roots, |ops|);
    hide VisitedUpTo;
    if ops != [] {
      VisitedRoots(ops, nodes, roots, |ops|, VisitAll(nodes, scalars, roots));
      assert roots[0] in VisitAll(nodes, scalars, roots);
    }
    forall x | x in p.inputs
      ensures SourceOf(st.bindings, x).Some? && ReadInitially(ops, scalars, SourceOf(st.bindings, x).value)
    {
      var m :| m in VisitAll(nodes, scalars, roots) && m < |nodes|
        && nodes[m] == Operand(SourceOf(st.bindings, x).value);
      OperandsAreRead(ops, scalars, nodes, roots, |ops|, m);
    }
  }

  lemma BindingsDefined(st: Lowered, order: seq<nat>, p: Program)
    requires Numbered(st.insts, st.inputs, st.nextId) && IdsFor(st, order)
    requires p.insts == st.insts && p.inputs == st.inputs
    ensures forall i :: 0 <= i < |st.bindings| ==> st.bindings[i].0 in Defs(p)
  {
    forall i | 0 <= i < |st.bindings| ensures st.bindings[i].0 in Defs(p) {
      var x := st.bindings[i].0;
      if x !in p.inputs {
        var j :| 0 <= j < |p.insts| && p.insts[j].resultId == x;
      }
    }
  }

  // ---- Which kernels the program needs ---------------------------------------------------------

  /** The opcode an operation is lowered to; an assignment needs none. */
  function OpcodeFor(scalars: map<Entity, int>, op: Operation): Option<Opcode> {
    if op.kind == Assignment then None
    else if (op.kind == Add || op.kind == Multiply) && op.operand2 in scalars then
      Some(if op.kind == Add then ADD_CS else MULT_CS)
    else Some(MapOpType(op.kind))
  }

  /** The opcode some instruction has. */
  ghost predicate Needs(insts: seq<Instruction>, op: Opcode) {
    exists i :: 0 <= i < |insts| && insts[i].opcode == op
  }

  ghost predicate Lowers(nodes: seq<Node>, scalars: map<Entity, int>, m: nat, op: Opcode) {
    && m < |nodes| && nodes[m].Operator? && nodes[m].op.kind != Assignment
    && OpcodeOf(nodes, scalars, nodes[m]) == op
  }

  /** The instructions have the opcodes of the operator nodes lowered, and no others. */
  lemma {:induction false} EmitNeeds(nodes: seq<Node>, scalars: map<Entity, int>, order: seq<nat>, op: Opcode)
    requires forall i :: 0 <= i < |order| ==> order[i] < |nodes|
    ensures Needs(Emit(nodes, scalars, order).insts, op) <==> exists m :: m in order && Lowers(nodes, scalars, m, op)
  {
    if order != [] {
      var before, n := order[..|order| - 1], order[|order| - 1];
      EmitNeeds(nodes, scalars, before, op);
      assert before + [n] == order;
      EmitSnoc(nodes, scalars, before, n);
      var st := Emit(nodes, scalars, before);
      NeedsOne(nodes, scalars, st, n, op);
      assert forall m :: m in order <==> m in before || m == n;
      hide Emit; hide Needs; hide Lowers;
    }
  }

  lemma NeedsOne(nodes: seq<Node>, scalars: map<Entity, int>, st: Lowered, n: nat, op: Opcode)
    requires n < |nodes|
    ensures Needs(EmitNode(nodes, scalars, st, n).insts, op) <==>
      (Needs(st.insts, op) || Lowers(nodes, scalars, n, op))
  {
    hide Needs; hide OpcodeOf; hide IdOf; hide ParamOf; hide ScalarOf; hide Target;
    if nodes[n].Operator? && nodes[n].op.kind != Assignment {
      NeedsSnoc(st.insts, InstructionOf(nodes, scalars, nodes[n], st.ids, st.nextId), op);
    }
  }

  lemma NeedsSnoc(insts: seq<Instruction>, inst: Instruction, op: Opcode)
    ensures Needs(insts + [inst], op) <==> (Needs(insts, op) || inst.opcode == op)
  {
    var more := insts + [inst];
    assert more[|insts|] == inst;
    assert forall i :: 0 <= i < |insts| ==> more[i] == insts[i];
  }

  lemma {:induction false} RootOpcode(
      ops: seq<Operation>, scalars: map<Entity, int>, nodes: seq<Node>, roots: seq<nat>, i: nat, op: Opcode)
    requires IsGraphOf(ops, scalars, nodes, roots) && i < |ops|
    ensures i < |roots| && (Lowers(nodes, scalars, roots[i], op) <==> OpcodeFor(scalars, ops[i]) == Some(op))
  {
    hide IsGraphOf; hide WellFormed; hide LastDef;
    RecordAt(ops, scalars, nodes, roots, i);
    forall j | 0 <= j < i ensures roots[j] < |nodes| && nodes[roots[j]].Operator? {
      RecordAt(ops, scalars, nodes, roots, j);
    }
  }

  /** The program has an instruction with an opcode exactly when some recorded operation is lowered to it. */
  lemma {:induction false} OpcodesAreOperations(
      ops: seq<Operation>, scalars: map<Entity, int>, nodes: seq<Node>, roots: seq<nat>, st: Lowered, op: Opcode)
    requires IsGraphOf(ops, scalars, nodes, roots) && LoweredTo(nodes, scalars, roots, st)
    ensures Needs(st.insts, op) <==> exists i :: 0 <= i < |ops| && OpcodeFor(scalars, ops[i]) == Some(op)
  {
    var order := VisitAll(nodes, scalars, roots);
    hide IsGraphOf; hide WellFormed; hide VisitAll; hide Emit; hide Needs; hide OpcodeFor;
    EachOperationOnceInOrder(ops, scalars, scalars, nodes, roots, |ops|);
    assert roots[..|ops|] == roots by { GraphShape(ops, scalars, nodes, roots); }
    EmitNeeds(nodes, scalars, order, op);
    if m :| m in order && Lowers(nodes, scalars, m, op) {
      var j :| 0 <= j < |order| && order[j] == m;
      assert m in roots[..|ops|];
      var i :| 0 <= i < |roots| && roots[i] == m;
      RootOpcode(ops, scalars, nodes, roots, i, op);
    }
    if i :| 0 <= i < |ops| && OpcodeFor(scalars, ops[i]) == Some(op) {
      RootOpcode(ops, scalars, nodes, roots, i, op);
      assert roots[i] in order;
    }
  }

  /** The last binding of an entity names the value sequential execution leaves in it; an entity that is not
      bound was not written. */
  ghost predicate WritesBack<V>(
    k: Kernel<V>, scalars: map<Entity, int>, ops: seq<Operation>, store: Entity -> V, bindings: seq<(Id, Entity)>,
    vals: map<Id, V>, e: Entity)
  {
    match Latest(bindings, e)
    case Some(id) => id in vals && vals[id] == ValueAfter(k, scalars, ops, store, |ops|, e)
    case None => ValueAfter(k, scalars, ops, store, |ops|, e) == store(e)
  }

  /** Compilation preserves meaning: running the lowered program on the entities' values and writing back
      each entity's last binding leaves what running the recorded operations in order leaves. */
  lemma {:induction false} CompilationPreservesMeaning<V(!new)>(
      k: Kernel<V>, ops: seq<Operation>, scalars: map<Entity, int>, nodes: seq<Node>, roots: seq<nat>,
      store: Entity -> V, st: Lowered, p: Program, inputs: map<Id, V>, e: Entity)
    requires IsGraphOf(ops, scalars, nodes, roots)
    requires ScalarsConstant(ops, scalars) && ScalarsUnary(k)
    requires LoweredTo(nodes, scalars, roots, st) && p.insts == st.insts && p.inputs == st.inputs
    requires InputsFrom(st, store, inputs)
    ensures Valid(p)
    ensures WritesBack(k, scalars, ops, store, st.bindings, Eval(Always(k), p, inputs, |p.insts|), e)
  {
    hide IsGraphOf; hide WellFormed; hide ScalarsConstant; hide ScalarsUnary; hide LatestHolds; hide VisitAll;
    hide IsOrder; hide Emit; hide Numbered; hide IdsFor; hide Represents; hide InputsFrom; hide Valid; hide Eval;
    hide ValueAfter; hide NodeValue; hide LatestNode; hide Latest;
    LatestAlways(k, ops, scalars, nodes, roots, store, |ops|);
    RootsInOrder(ops, scalars, nodes, roots, |ops|);
    assert roots[..|ops|] == roots;
    var order := VisitAll(nodes, scalars, roots);
    LatestElim(k, ops, scalars, nodes, store, |ops|, order, e);
    EmitFacts(nodes, scalars, order);
    NumberedIsValid(p, st.nextId);
    LatestIsNode(nodes, order, st.ids, st.bindings, e);
    if LatestNode(nodes, order, e).Some? {
      LoweredValue(k, scalars, nodes, st, p, store, inputs, order, LatestNode(nodes, order, e).value);
    }
  }

  /** Both paths agree: when the operands read initially are encrypted, evaluating the graph meets no error, and
      leaves in each encrypted entity the value its last binding in the lowered program names. */
  lemma {:induction false} BothPathsAgree<V(!new)>(
      k: Kernel<V>, ops: seq<Operation>, scalars: map<Entity, int>, nodes: seq<Node>, roots: seq<nat>,
      start: map<Entity, V>, store: Entity -> V, st: Lowered, p: Program, inputs: map<Id, V>, e: Entity)
    requires IsGraphOf(ops, scalars, nodes, roots)
    requires ScalarsConstant(ops, scalars) && ScalarsUnary(k) && ScalarKernels(k, scalars, store)
    requires LoweredTo(nodes, scalars, roots, st) && p.insts == st.insts && p.inputs == st.inputs
    requires InputsFrom(st, store, inputs)
    requires OperandsEncrypted(ops, start.Keys) && forall x :: x in start ==> start[x] == store(x)
    ensures WellFormed(nodes) && forall j :: 0 <= j < |roots| ==> roots[j] < |nodes|
    ensures forall j :: 0 <= j < |VisitAll(nodes, map[], roots)| ==> VisitAll(nodes, map[], roots)[j] < |nodes|
    ensures var after := LegacyRun(k, Executed(nodes, VisitAll(nodes, map[], roots)), start);
      var vals := Eval(Always(k), p, inputs, |p.insts|);
      after.Some? && (e in after.value ==>
        match Latest(st.bindings, e)
        case Some(id) => id in vals && vals[id] == after.value[e]
        case None => e in start && after.value[e] == start[e])
  {
    hide *;
    CompilationPreservesMeaning(k, ops, scalars, nodes, roots, store, st, p, inputs, e);
    WritesBackMeans(k, scalars, ops, store, st.bindings, Eval(Always(k), p, inputs, |p.insts|), e);
    GraphRoots(ops, scalars, nodes, roots);
    LegacyIsSequential(k, ops, start, store, |ops|);
    FoldingIsPlain(k, scalars, ops, store, |ops|, e);
    assert ops[..|ops|] == ops;
    TargetsBound(ops, scalars, nodes, roots, st, e);
  }

  lemma WritesBackMeans<V>(
      k: Kernel<V>, scalars: map<Entity, int>, ops: seq<Operation>, store: Entity -> V, bindings: seq<(Id, Entity)>,
      vals: map<Id, V>, e: Entity)
    requires WritesBack(k, scalars, ops, store, bindings, vals, e)
    ensures match Latest(bindings, e)
      case Some(id) => id in vals && vals[id] == ValueAfter(k, scalars, ops, store, |ops|, e)
      case None => ValueAfter(k, scalars, ops, store, |ops|, e) == store(e)
  {
  }

  /** The target of an operation has a binding. */
  lemma {:induction false} TargetsBound(
      ops: seq<Operation>, scalars: map<Entity, int>, nodes: seq<Node>, roots: seq<nat>, st: Lowered, e: Entity)
    requires IsGraphOf(ops, scalars, nodes, roots) && LoweredTo(nodes, scalars, roots, st)
    ensures LastDef(ops, |ops|, e).Some? ==> Latest(st.bindings, e).Some?
  {
    var order := VisitAll(nodes, scalars, roots);
    hide IsGraphOf; hide WellFormed; hide Visit; hide VisitAll; hide IsOrder; hide Emit; hide Numbered; hide Represents;
    hide IdsFor; hide InputsBound; hide LastDef; hide Latest; hide VisitedUpTo;
    RootsInOrder(ops, scalars, nodes, roots, |ops|);
    EachOperationOnceInOrder(ops, scalars, scalars, nodes, roots, |ops|);
    assert roots[..|ops|] == roots;
    VisitedRoots(ops, nodes, roots, |ops|, order);
    EmitFacts(nodes, scalars, order);
    LastDefTarget(ops, |ops|, e);
    if LastDef(ops, |ops|, e).Some? {
      var j := LastDef(ops, |ops|, e).value;
      RootChildren(ops, scalars, nodes, roots, j);
      var i :| 0 <= i < |order| && order[i] == roots[j];
      BindingCounts(st.bindings, i, e);
    }
  }

  /** Nothing else but what the list reads before it writes it. */
  lemma {:induction false} BoundEntities(
      ops: seq<Operation>, scalars: map<Entity, int>, nodes: seq<Node>, roots: seq<nat>, st: Lowered, e: Entity)
    requires IsGraphOf(ops, scalars, nodes, roots) && LoweredTo(nodes, scalars, roots, st)
    ensures Latest(st.bindings, e).Some? ==> IsTarget(ops, e) || ReadInitially(ops, scalars, e)
    ensures IsTarget(ops, e) ==> Latest(st.bindings, e).Some?
  {
    var order := VisitAll(nodes, scalars, roots);
    hide IsGraphOf; hide WellFormed; hide Visit; hide VisitAll; hide IsOrder; hide Emit; hide Numbered; hide Represents;
    hide IdsFor; hide InputsBound; hide LastDef; hide Latest; hide ReadInitially;
    RootsInOrder(ops, scalars, nodes, roots, |ops|);
    EachOperationOnceInOrder(ops, scalars, scalars, nodes, roots, |ops|);
    assert roots[..|ops|] == roots;
    EmitFacts(nodes, scalars, order);
    if Latest(st.bindings, e).Some? {
      var i := LatestBinding(st.bindings, e);
      if nodes[order[i]].Operand? {
        OperandsAreRead(ops, scalars, nodes, roots, |ops|, order[i]);
      } else {
        var j :| 0 <= j < |roots| && roots[j] == order[i];
        RootChildren(ops, scalars, nodes, roots, j);
        assert Target(ops[j]) == e;
      }
    }
    if i: nat :| i < |ops| && Target(ops[i]) == e {
      SomeDef(ops, i, |ops|, e);
      TargetsBound(ops, scalars, nodes, roots, st, e);
    }
  }

  /** Some operation writes `e`. */
  ghost predicate IsTarget(ops: seq<Operation>, e: Entity) {
    exists i :: 0 <= i < |ops| && Target(ops[i]) == e
  }

  lemma {:induction false} LatestBinding(bindings: seq<(Id, Entity)>, e: Entity) returns (i: nat)
    requires Latest(bindings, e).Some?
    ensures i < |bindings| && bindings[i].1 == e
  {
    if bindings[|bindings| - 1].1 == e {
      i := |bindings| - 1;
    } else {
      i := LatestBinding(bindings[..|bindings| - 1], e);
    }
  }

  lemma {:induction false} SomeDef(ops: seq<Operation>, j: nat, i: nat, e: Entity)
    requires j < i <= |ops| && Target(ops[j]) == e
    ensures LastDef(ops, i, e).Some?
  {
    if Target(ops[i - 1]) != e {
      SomeDef(ops, j, i - 1, e);
    }
  }

  lemma {:induction false} BindingCounts(bindings: seq<(Id, Entity)>, i: nat, e: Entity)
    requires i < |bindings| && bindings[i].1 == e
    ensures Latest(bindings, e).Some?
  {
    if i < |bindings| - 1 {
      BindingCounts(bindings[..|bindings| - 1], i, e);
    }
  }

  lemma {:induction false} LastDefTarget(ops: seq<Operation>, i: nat, e: Entity)
    requires i <= |ops|
    ensures LastDef(ops, i, e).Some? ==> LastDef(ops, i, e).value < i && Target(ops[LastDef(ops, i, e).value]) == e
  {
    if i > 0 {
      LastDefTarget(ops, i - 1, e);
    }
  }

  // ---- The lowering itself ---------------------------------------------------------------------

  class Lowerer {
    const nodes: seq<Node>
    const scalars: map<Entity, int>
    var insts: seq<Instruction>
    var inputs: seq<Id>
    var nextId: Id
    var ids: map<nat, Id>
    var bindings: seq<(Id, Entity)>
    var supported: bool

    ghost var order: seq<nat>

    constructor (nodes: seq<Node>, scalars: map<Entity, int>)
      requires WellFormed(nodes)
      ensures this.nodes == nodes && this.scalars == scalars && Valid() && supported && order == []
    {
      this.nodes, this.scalars := nodes, scalars;
      insts, inputs, nextId, ids, bindings := [], [], 1, map[], [];
      supported, order := true, [];
    }

    function State(): Lowered
      reads this
    {
      Lowered(insts, inputs, nextId, ids, bindings)
    }

    /** Until an unknown node is met, the state is what lowering the visited nodes one by one produces. */
    ghost predicate Valid()
      reads this
    {
      && WellFormed(nodes)
      && (forall i :: 0 <= i < |order| ==> order[i] < |nodes|)
      && (supported ==> State() == Emit(nodes, scalars, order))
      && (supported ==> forall m :: m in ids <==> m in order)
      && (supported ==> forall m :: m in order ==> m < |nodes| && Expressible(nodes, scalars, m))
    }

    method LowerOperand(n: nat)
      requires Valid() && n < |nodes| && nodes[n].Operand?
      modifies this
      ensures Valid() && supported == old(supported) && order == old(order) + [n]
    {
      EmitSnoc(nodes, scalars, order, n);
      var id := nextId;
      nextId := nextId + 1;
      ids := ids[n := id];
      inputs := inputs + [id];
      bindings := bindings + [(id, nodes[n].entity)];
      order := order + [n];
    }

    /** An assignment makes no instruction: the assigned entity is bound to the value's id. */
    method LowerAssignment(n: nat)
      requires Valid() && n < |nodes| && nodes[n].Operator? && nodes[n].op.kind == Assignment
      requires supported ==> Expressible(nodes, scalars, n) && ValueChild(nodes[n]) in ids
      modifies this
      ensures Valid() && supported == old(supported) && order == old(order) + [n]
    {
      EmitSnoc(nodes, scalars, order, n);
      var value := ValueChild(nodes[n]);
      if value in ids {
        bindings := bindings + [(ids[value], Target(nodes[n].op))];
        ids := ids[n := ids[value]];
      }
      order := order + [n];
    }

    method LowerOperator(n: nat)
      requires Valid() && n < |nodes| && nodes[n].Operator? && nodes[n].op.kind != Assignment
      requires supported ==> Expressible(nodes, scalars, n)
      modifies this
      ensures Valid() && supported == old(supported) && order == old(order) + [n]
    {
      EmitSnoc(nodes, scalars, order, n);
      var inst := InstructionOf(nodes, scalars, nodes[n], ids, nextId);
      nextId := nextId + 1;
      insts := insts + [inst];
      ids := ids[n := inst.resultId];
      bindings := bindings + [(inst.resultId, Target(nodes[n].op))];
      order := order + [n];
    }

    /** Lowers a node after its children, unless it was lowered before. */
    method LowerNode(n: nat)
      requires Valid() && n < |nodes|
      modifies this
      ensures Valid() && supported == (old(supported) && Expressible(nodes, scalars, n))
      ensures supported ==> order == Visit(nodes, scalars, n, old(order))
      decreases n
    {
      if n in ids { return; }
      match nodes[n] {
        case Operand(_) => LowerOperand(n);
        case Operator(op, left, right) =>
          ghost var done := order;
          LowerNode(left);
          VisitExtends(nodes, scalars, left, done);
          if right.Some? && !Folds(nodes, scalars, nodes[n]) {
            done := order;
            LowerNode(right.value);
            VisitExtends(nodes, scalars, right.value, done);
          }
          if op.kind == Assignment { LowerAssignment(n); } else { LowerOperator(n); }
        case Other => supported := false;
      }
    }

    method LowerRoots(roots: seq<nat>)
      requires Valid() && supported && order == [] && forall i :: 0 <= i < |roots| ==> roots[i] < |nodes|
      modifies this
      ensures Valid()
      ensures supported == (forall i :: 0 <= i < |roots| ==> Expressible(nodes, scalars, roots[i]))
      ensures supported ==> order == VisitAll(nodes, scalars, roots)
      ensures supported ==> forall i :: 0 <= i < |roots| ==> roots[i] in order
    {
      hide Visit; hide Emit; hide Expressible; hide WellFormed;
      for i := 0 to |roots|
        invariant Valid()
        invariant supported == (forall j :: 0 <= j < i ==> Expressible(nodes, scalars, roots[j]))
        invariant supported ==> order == VisitAll(nodes, scalars, roots[..i])
        invariant supported ==> forall j :: 0 <= j < i ==> roots[j] in order
      {
        ghost var before := order;
        LowerNode(roots[i]);
        VisitExtends(nodes, scalars, roots[i], before);
        assert roots[..i + 1][..i] == roots[..i];
      }
      assert roots[..|roots|] == roots;
    }

    method CollectOutputs(roots: seq<nat>) returns (outputs: seq<Id>)
      requires forall i :: 0 <= i < |roots| ==> roots[i] in ids
      ensures |outputs| == |roots| && forall i :: 0 <= i < |roots| ==> outputs[i] == ids[roots[i]]
    {
      outputs := [];
      for i := 0 to |roots|
        invariant |outputs| == i && forall j :: 0 <= j < i ==> outputs[j] == ids[roots[j]]
      {
        if roots[i] in ids { outputs := outputs + [ids[roots[i]]]; }
      }
    }

    /** Lowers the roots in order and collects their ids as outputs. A plan with a node of an unknown kind
        fails whole and binds nothing. */
    method Lower(roots: seq<nat>) returns (r: Option<Program>)
      requires Valid() && supported && order == [] && forall i :: 0 <= i < |roots| ==> roots[i] < |nodes|
      modifies this
      ensures r.Some? <==> forall i :: 0 <= i < |roots| ==> Expressible(nodes, scalars, roots[i])
      ensures r.None? ==> bindings == []
      ensures r.Some? ==> LoweredTo(nodes, scalars, roots, State())
      ensures r.Some? ==> r.value.insts == insts && r.value.inputs == inputs
      ensures r.Some? ==> |r.value.outputs| == |roots|
      ensures r.Some? ==> forall i :: 0 <= i < |roots| ==> roots[i] in ids && r.value.outputs[i] == ids[roots[i]]
    {
      hide Visit; hide VisitAll; hide Emit; hide Expressible; hide WellFormed;
      LowerRoots(roots);
      if !supported {
        bindings := [];
        return None;
      }
      var outputs := CollectOutputs(roots);
      return Some(Program(insts, inputs, outputs));
    }
  }
}
