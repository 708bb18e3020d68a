/** Recorded operations, what running them one by one means, and the graph the scheduler builds of them. */
module Graph {
  import opened Fhn

  /** An encrypted variable; the repository identifies it by its address. */
  type Entity = nat

  datatype OpType = Assignment | Refresh | LeftRotate | RightRotate | Conjugate | Add | Sub | Multiply

  datatype Operation = Operation(kind: OpType, operand1: Entity, operand2: Entity, result: Entity, param: int)

  /** The entity an operation writes. */
  function Target(op: Operation): Entity {
    if op.kind == Assignment then op.operand1 else op.result
  }

  /** The kinds the graph builder accepts. */
  predicate Supported(op: Operation) {
    op.kind == Add || op.kind == Multiply || op.kind == Assignment
  }

  // ---- Running the recorded list in order ------------------------------------------------------

  /** What executing one operation leaves in its target, from its operands' values. A scalar right operand of an
      addition or multiplication is folded into the operation; without scalars nothing is. */
  function Combine<V>(k: Kernel<V>, scalars: map<Entity, int>, op: Operation, x: V, y: V): V {
    match op.kind
    case Assignment => y
    case Add =>
      if op.operand2 in scalars then k(ADD_CS, [Some(x), None, None, None], 0, scalars[op.operand2])
      else k(ADD_CC, [Some(x), Some(y), None, None], 0, 0)
    case Multiply =>
      if op.operand2 in scalars then k(MULT_CS, [Some(x), None, None, None], 0, scalars[op.operand2])
      else k(HMULT, [Some(x), Some(y), None, None], 0, 0)
    case _ => x
  }

  /** The value of `e` after the first `i` operations ran in recording order, scalars folded. */
  function ValueAfter<V>(
    k: Kernel<V>, scalars: map<Entity, int>, ops: seq<Operation>, store: Entity -> V, i: nat, e: Entity): V
    requires i <= |ops|
    decreases i
  {
    if i == 0 then store(e)
    else if Target(ops[i - 1]) != e then ValueAfter(k, scalars, ops, store, i - 1, e)
    else Combine(k, scalars, ops[i - 1], ValueAfter(k, scalars, ops, store, i - 1, ops[i - 1].operand1),
      ValueAfter(k, scalars, ops, store, i - 1, ops[i - 1].operand2))
  }

  /** The last operation before `i` that wrote `e`. */
  function LastDef(ops: seq<Operation>, i: nat, e: Entity): Option<nat>
    requires i <= |ops|
  {
    if i == 0 then None
    else if Target(ops[i - 1]) == e then Some(i - 1)
    else LastDef(ops, i - 1, e)
  }

  lemma {:induction false} LastDefIsLast<V>(
      k: Kernel<V>, scalars: map<Entity, int>, ops: seq<Operation>, store: Entity -> V, i: nat, e: Entity)
    requires i <= |ops|
    ensures LastDef(ops, i, e).None? ==> ValueAfter(k, scalars, ops, store, i, e) == store(e)
    ensures LastDef(ops, i, e).Some? ==>
      (var j := LastDef(ops, i, e).value;
       j < i && Target(ops[j]) == e &&
       ValueAfter(k, scalars, ops, store, i, e) == ValueAfter(k, scalars, ops, store, j + 1, e))
  {
    if i > 0 {
      LastDefIsLast(k, scalars, ops, store, i - 1, e);
    }
  }

  // ---- Graphs ----------------------------------------------------------------------------------

  /** Nodes live in a list and are identified by their position, as the repository's are by their address.
      `Other` is any node kind the lowering does not know. */
  datatype Node = Operand(entity: Entity) | Operator(op: Operation, left: nat, right: Option<nat>) | Other

  /** The entity a node's value is bound to. */
  function EntityOf(node: Node): Entity {
    match node
    case Operand(e) => e
    case Operator(op, _, _) => Target(op)
    case Other => 0
  }

  /** Children come before their parents. */
  ghost predicate WellFormed(nodes: seq<Node>) {
    forall n :: 0 <= n < |nodes| && nodes[n].Operator? ==>
      nodes[n].left < n && (nodes[n].right.Some? ==> nodes[n].right.value < n)
  }

  /** A scalar right operand of an addition or multiplication folds into the instruction. */
  predicate Folds(nodes: seq<Node>, scalars: map<Entity, int>, node: Node) {
    && node.Operator?
    && (node.op.kind == Add || node.op.kind == Multiply)
    && node.right.Some?
    && node.right.value < |nodes|
    && nodes[node.right.value].Operand?
    && nodes[node.right.value].entity in scalars
  }

  // ---- The graph of a recorded list ------------------------------------------------------------

  /** Node `n` stands for the value `e` has before operation `i`. */
  ghost predicate Resolves(ops: seq<Operation>, nodes: seq<Node>, roots: seq<nat>, i: nat, e: Entity, n: nat)
    requires i <= |ops| && i <= |roots|
  {
    && n < |nodes|
    && match LastDef(ops, i, e)
       case Some(j) => j < i && n == roots[j]
       case None => nodes[n] == Operand(e)
  }

  /** Node `n` stands for the right operand of operation `i`. */
  ghost predicate IsRight(
    ops: seq<Operation>, scalars: map<Entity, int>, nodes: seq<Node>, roots: seq<nat>, i: nat, n: nat)
    requires i < |ops| && i <= |roots|
  {
    if ops[i].operand2 in scalars then n < |nodes| && nodes[n] == Operand(ops[i].operand2)
    else Resolves(ops, nodes, roots, i, ops[i].operand2, n)
  }

  /** Root `i` applies operation `i` to the nodes of its operands; a scalar right operand has a node of its own. */
  ghost predicate Records(ops: seq<Operation>, scalars: map<Entity, int>, nodes: seq<Node>, roots: seq<nat>, i: nat)
    requires i < |ops| && i < |roots|
  {
    && roots[i] < |nodes|
    && nodes[roots[i]].Operator?
    && nodes[roots[i]].op == ops[i]
    && Resolves(ops, nodes, roots, i, ops[i].operand1, nodes[roots[i]].left)
    && nodes[roots[i]].right.Some?
    && IsRight(ops, scalars, nodes, roots, i, nodes[roots[i]].right.value)
  }

  ghost predicate Increasing(s: seq<nat>) {
    forall i, j :: 0 <= i < j < |s| ==> s[i] < s[j]
  }

  /** The graph of the first `i` operations. */
  ghost predicate IsGraphUpTo(
    ops: seq<Operation>, scalars: map<Entity, int>, nodes: seq<Node>, roots: seq<nat>, i: nat)
    requires i <= |ops|
  {
    && WellFormed(nodes)
    && |roots| == i
    && Increasing(roots)
    && (forall j :: 0 <= j < i ==> Supported(ops[j]) && Records(ops, scalars, nodes, roots, j))
  }

  ghost predicate IsGraphOf(ops: seq<Operation>, scalars: map<Entity, int>, nodes: seq<Node>, roots: seq<nat>) {
    IsGraphUpTo(ops, scalars, nodes, roots, |ops|)
  }

  lemma {:induction false} RecordAt(
      ops: seq<Operation>, scalars: map<Entity, int>, nodes: seq<Node>, roots: seq<nat>, i: nat)
    requires IsGraphOf(ops, scalars, nodes, roots) && i < |ops|
    ensures WellFormed(nodes) && |roots| == |ops| && Supported(ops[i]) && Records(ops, scalars, nodes, roots, i)
  {
    hide WellFormed; hide Records; hide Increasing;
  }

  /** An operand node is shared by everything that reads its entity, unless the entity is a scalar. */
  ghost predicate OperandsShared(scalars: map<Entity, int>, nodes: seq<Node>) {
    forall m, n :: 0 <= m < n < |nodes| && nodes[m].Operand? && nodes[n].Operand? && nodes[m].entity == nodes[n].entity
      ==> nodes[m].entity in scalars
  }

  // ---- What a node denotes ---------------------------------------------------------------------

  function MapOpType(kind: OpType): Opcode {
    match kind
    case Add => ADD_CC
    case Sub => SUB_CC
    case Multiply => HMULT
    case Conjugate => CONJUGATE
    case LeftRotate => ROTATE
    case RightRotate => ROTATE
    case _ => NOP
  }

  function OpcodeOf(nodes: seq<Node>, scalars: map<Entity, int>, node: Node): Opcode
    requires node.Operator?
  {
    if !Folds(nodes, scalars, node) then MapOpType(node.op.kind)
    else if node.op.kind == Add then ADD_CS else MULT_CS
  }

  function ScalarOf(nodes: seq<Node>, scalars: map<Entity, int>, node: Node): int {
    if Folds(nodes, scalars, node) then scalars[nodes[node.right.value].entity] else 0
  }

  function ParamOf(op: Operation): int {
    match op.kind
    case LeftRotate => op.param
    case RightRotate => -op.param
    case _ => 0
  }

  /** The value of a node when operand nodes read the initial store. */
  function NodeValue<V>(k: Kernel<V>, scalars: map<Entity, int>, nodes: seq<Node>, store: Entity -> V, n: nat): V
    requires WellFormed(nodes) && n < |nodes|
    decreases n
  {
    match nodes[n]
    case Other => store(0)
    case Operand(e) => store(e)
    case Operator(op, left, right) =>
      if op.kind == Assignment then
        NodeValue(k, scalars, nodes, store, if right.Some? then right.value else left)
      else
        k(OpcodeOf(nodes, scalars, nodes[n]),
          [Some(NodeValue(k, scalars, nodes, store, left)),
           if right.Some? && !Folds(nodes, scalars, nodes[n]) then Some(NodeValue(k, scalars, nodes, store, right.value))
           else None, None, None],
          ParamOf(op), ScalarOf(nodes, scalars, nodes[n]))
  }

  /** The scalar kernels read their first operand only. */
  ghost predicate ScalarsUnary<V(!new)>(k: Kernel<V>) {
    forall op, x, y: Option<V>, c :: op == ADD_CS || op == MULT_CS ==>
      k(op, [Some(x), y, None, None], 0, c) == k(op, [Some(x), None, None, None], 0, c)
  }

  /** They compute what the ciphertext kernels do with the encryption of the constant, which is what a scalar entity
      holds. */
  ghost predicate ScalarKernels<V(!new)>(k: Kernel<V>, scalars: map<Entity, int>, store: Entity -> V) {
    && (forall e, x :: e in scalars ==>
          k(ADD_CS, [Some(x), None, None, None], 0, scalars[e]) ==
          k(ADD_CC, [Some(x), Some(store(e)), None, None], 0, 0))
    && (forall e, x :: e in scalars ==>
          k(MULT_CS, [Some(x), None, None, None], 0, scalars[e]) ==
          k(HMULT, [Some(x), Some(store(e)), None, None], 0, 0))
  }

  /** Scalar entities are never written. */
  ghost predicate ScalarsConstant(ops: seq<Operation>, scalars: map<Entity, int>) {
    forall i :: 0 <= i < |ops| ==> Target(ops[i]) !in scalars
  }

  lemma {:induction false} ScalarNeverDefined(ops: seq<Operation>, scalars: map<Entity, int>, i: nat, e: Entity)
    requires i <= |ops| && ScalarsConstant(ops, scalars) && e in scalars
    ensures LastDef(ops, i, e).None?
  {
    if i > 0 {
      ScalarNeverDefined(ops, scalars, i - 1, e);
    }
  }

  /** Folding changes no value when the scalar kernels agree with the ciphertext kernels. */
  lemma {:induction false} FoldingIsPlain<V(!new)>(
      k: Kernel<V>, scalars: map<Entity, int>, ops: seq<Operation>, store: Entity -> V, i: nat, e: Entity)
    requires i <= |ops| && ScalarsConstant(ops, scalars) && ScalarKernels(k, scalars, store)
    ensures ValueAfter(k, scalars, ops, store, i, e) == ValueAfter(k, map[], ops, store, i, e)
    decreases i
  {
    hide ScalarsConstant; hide ScalarKernels;
    if i > 0 {
      var op := ops[i - 1];
      FoldingIsPlain(k, scalars, ops, store, i - 1, e);
      FoldingIsPlain(k, scalars, ops, store, i - 1, op.operand1);
      FoldingIsPlain(k, scalars, ops, store, i - 1, op.operand2);
      if op.operand2 in scalars {
        ScalarNeverDefined(ops, scalars, i - 1, op.operand2);
        LastDefIsLast(k, map[], ops, store, i - 1, op.operand2);
        FoldedOperation(k, scalars, op, store, ValueAfter(k, scalars, ops, store, i - 1, op.operand1));
      }
    }
  }

  lemma FoldedOperation<V(!new)>(k: Kernel<V>, scalars: map<Entity, int>, op: Operation, store: Entity -> V, x: V)
    requires ScalarKernels(k, scalars, store) && op.operand2 in scalars
    ensures Combine(k, scalars, op, x, store(op.operand2)) == Combine(k, map[], op, x, store(op.operand2))
  {
  }

  /** The graph denotes the list: root `i` has the value operation `i` leaves in its target. */
  lemma {:induction false} RootValue<V(!new)>(
      k: Kernel<V>, ops: seq<Operation>, scalars: map<Entity, int>, nodes: seq<Node>, roots: seq<nat>,
      store: Entity -> V, i: nat)
    requires IsGraphOf(ops, scalars, nodes, roots) && i < |ops| && ScalarsConstant(ops, scalars)
    ensures roots[i] < |nodes|
    ensures NodeValue(k, scalars, nodes, store, roots[i]) == ValueAfter(k, scalars, ops, store, i + 1, Target(ops[i]))
    decreases i, 1
  {
    RecordAt(ops, scalars, nodes, roots, i);
    hide IsGraphUpTo;
    var op, node := ops[i], nodes[roots[i]];
    EntityValue(k, ops, scalars, nodes, roots, store, i, op.operand1, node.left);
    var right := node.right.value;
    if op.operand2 in scalars {
      ScalarNeverDefined(ops, scalars, i, op.operand2);
      LastDefIsLast(k, scalars, ops, store, i, op.operand2);
    } else {
      EntityValue(k, ops, scalars, nodes, roots, store, i, op.operand2, right);
    }
    assert NodeValue(k, scalars, nodes, store, right) == ValueAfter(k, scalars, ops, store, i, op.operand2);
    RootCombines(k, ops, scalars, nodes, roots, store, i);
  }

  /** One root, its children's values known. */
  lemma {:induction false} RootCombines<V(!new)>(
      k: Kernel<V>, ops: seq<Operation>, scalars: map<Entity, int>, nodes: seq<Node>, roots: seq<nat>,
      store: Entity -> V, i: nat)
    requires IsGraphOf(ops, scalars, nodes, roots) && i < |ops|
    requires ops[i].operand2 in scalars ==> LastDef(ops, i, ops[i].operand2).None?
    ensures Records(ops, scalars, nodes, roots, i)
    ensures NodeValue(k, scalars, nodes, store, roots[i]) ==
      Combine(k, scalars, ops[i], NodeValue(k, scalars, nodes, store, nodes[roots[i]].left),
        NodeValue(k, scalars, nodes, store, nodes[roots[i]].right.value))
  {
    RecordAt(ops, scalars, nodes, roots, i);
    RightIsFoldedIff(ops, scalars, nodes, roots, i);
    hide IsGraphUpTo; hide IsGraphOf;
  }

  /** The right operand of a root is folded exactly when it is a scalar entity. */
  lemma {:induction false} RightIsFoldedIff(
      ops: seq<Operation>, scalars: map<Entity, int>, nodes: seq<Node>, roots: seq<nat>, i: nat)
    requires IsGraphOf(ops, scalars, nodes, roots) && i < |ops|
    ensures i < |roots| && roots[i] < |nodes| && nodes[roots[i]].Operator? && nodes[roots[i]].op == ops[i]
    ensures Folds(nodes, scalars, nodes[roots[i]]) <==>
      (ops[i].kind == Add || ops[i].kind == Multiply) && ops[i].operand2 in scalars
    ensures Folds(nodes, scalars, nodes[roots[i]]) ==>
      nodes[nodes[roots[i]].right.value] == Operand(ops[i].operand2)
  {
    hide IsGraphOf; hide WellFormed; hide LastDef;
    RecordAt(ops, scalars, nodes, roots, i);
    forall j | 0 <= j < i ensures roots[j] < |nodes| && nodes[roots[j]].Operator? {
      RecordAt(ops, scalars, nodes, roots, j);
    }
  }

  /** Any node an operand resolves to has the value the operand has at that point. */
  lemma {:induction false} EntityValue<V(!new)>(
      k: Kernel<V>, ops: seq<Operation>, scalars: map<Entity, int>, nodes: seq<Node>, roots: seq<nat>,
      store: Entity -> V, i: nat, e: Entity, n: nat)
    requires IsGraphOf(ops, scalars, nodes, roots) && i <= |ops| && Resolves(ops, nodes, roots, i, e, n)
    requires ScalarsConstant(ops, scalars)
    ensures NodeValue(k, scalars, nodes, store, n) == ValueAfter(k, scalars, ops, store, i, e)
    decreases i, 0
  {
    hide IsGraphOf; hide ScalarsConstant; hide ValueAfter; hide LastDef;
    LastDefIsLast(k, scalars, ops, store, i, e);
    if LastDef(ops, i, e).Some? {
      RootValue(k, ops, scalars, nodes, roots, store, LastDef(ops, i, e).value);
    }
  }

  /** Plain integers: the additions, and products for everything else. */
  function PlainSum(op: Opcode, args: seq<Option<int>>, param: int, scalar: int): int {
    if |args| != 4 || args[0].None? then 0
    else
      match op
      case ADD_CS => args[0].value + scalar
      case ADD_CC => if args[1].Some? then args[0].value + args[1].value else 0
      case MULT_CS => args[0].value * scalar
      case _ => if args[1].Some? then args[0].value * args[1].value else 0
  }

  /** The list `s = y; r = x + s` with `s` the scalar entity 5, which holds 5. */
  const WRITTEN: seq<Operation> := [Operation(Assignment, 5, 2, 0, 0), Operation(Add, 0, 5, 3, 0)]
  const WRITTEN_NODES: seq<Node> := [Operand(5), Operand(2), Operator(Operation(Assignment, 5, 2, 0, 0), 0, Some(1)),
    Operand(0), Operand(5), Operator(Operation(Add, 0, 5, 3, 0), 3, Some(4))]
  const WRITTEN_SCALARS: map<Entity, int> := map[5 := 5]

  function OwnNumber(e: Entity): int { e }

  lemma WrittenGraph()
    ensures IsGraphOf(WRITTEN, WRITTEN_SCALARS, WRITTEN_NODES, [2, 5])
  {
    assert LastDef(WRITTEN, 0, 5) == LastDef(WRITTEN, 0, 2) == LastDef(WRITTEN, 1, 0) == None;
    hide LastDef;
    assert Records(WRITTEN, WRITTEN_SCALARS, WRITTEN_NODES, [2, 5], 0);
    assert Records(WRITTEN, WRITTEN_SCALARS, WRITTEN_NODES, [2, 5], 1);
    hide Records;
  }

  lemma WrittenValues()
    ensures WellFormed(WRITTEN_NODES) && |WRITTEN_NODES| == 6 && |WRITTEN| == 2
    ensures NodeValue(PlainSum, WRITTEN_SCALARS, WRITTEN_NODES, OwnNumber, 5) == 5
    ensures ValueAfter(PlainSum, map[], WRITTEN, OwnNumber, 2, 3) == 2
  {
    var nodes := WRITTEN_NODES;
    assert nodes[5] == Operator(Operation(Add, 0, 5, 3, 0), 3, Some(4)) && nodes[3] == Operand(0);
    assert Folds(nodes, WRITTEN_SCALARS, nodes[5]);
    assert NodeValue(PlainSum, WRITTEN_SCALARS, nodes, OwnNumber, 3) == 0;
    assert ValueAfter(PlainSum, map[], WRITTEN, OwnNumber, 0, 2) == 2;
    assert ValueAfter(PlainSum, map[], WRITTEN, OwnNumber, 0, 0) == 0;
    assert ValueAfter(PlainSum, map[], WRITTEN, OwnNumber, 1, 5) == 2;
    assert ValueAfter(PlainSum, map[], WRITTEN, OwnNumber, 1, 0) == 0;
  }

  /** Why scalars must not be written: the graph folds the constant the scalar entity had when it was lowered, so
      `s = y; r = x + s` adds the old value of `s`. */
  lemma WrittenScalarBreaksFolding()
    ensures IsGraphOf(WRITTEN, WRITTEN_SCALARS, WRITTEN_NODES, [2, 5])
    ensures ScalarKernels(PlainSum, WRITTEN_SCALARS, OwnNumber)
    ensures WellFormed(WRITTEN_NODES) && |WRITTEN_NODES| == 6 && |WRITTEN| == 2
    ensures NodeValue(PlainSum, WRITTEN_SCALARS, WRITTEN_NODES, OwnNumber, 5) == 5
    ensures ValueAfter(PlainSum, map[], WRITTEN, OwnNumber, 2, Target(WRITTEN[1])) == 2
  {
    WrittenGraph();
    WrittenValues();
    hide IsGraphOf; hide WellFormed; hide NodeValue; hide ValueAfter;
  }

  // ---- Building the graph ----------------------------------------------------------------------

  /** The builder's state before operation `i`: `defs` maps each entity read or written so far to the node it
      resolves to. */
  ghost predicate Building(
    ops: seq<Operation>, scalars: map<Entity, int>, nodes: seq<Node>, roots: seq<nat>, defs: map<Entity, nat>, i: nat)
    requires i <= |ops|
  {
    && IsGraphUpTo(ops, scalars, nodes, roots, i)
    && (forall e :: e in defs ==> Resolves(ops, nodes, roots, i, e, defs[e]))
    && (forall e :: e !in defs ==> LastDef(ops, i, e).None?)
    && OperandsShared(scalars, nodes)
    && (forall n :: 0 <= n < |nodes| && nodes[n].Operand? ==> nodes[n].entity in defs || nodes[n].entity in scalars)
  }

  lemma {:induction false} StartBuilding(ops: seq<Operation>, scalars: map<Entity, int>)
    ensures Building(ops, scalars, [], [], map[], 0)
  {
  }

  lemma {:induction false} DoneBuilding(
      ops: seq<Operation>, scalars: map<Entity, int>, nodes: seq<Node>, roots: seq<nat>, defs: map<Entity, nat>)
    requires Building(ops, scalars, nodes, roots, defs, |ops|)
    ensures IsGraphOf(ops, scalars, nodes, roots) && OperandsShared(scalars, nodes)
  {
  }

  /** A new operand node disturbs nothing. */
  lemma {:induction false} AddOperand(
      ops: seq<Operation>, scalars: map<Entity, int>, nodes: seq<Node>, roots: seq<nat>, defs: map<Entity, nat>, i: nat,
      e: Entity)
    requires i <= |ops| && Building(ops, scalars, nodes, roots, defs, i)
    ensures e !in defs ==>
      Building(ops, scalars, nodes + [Operand(e)], roots, defs[e := |nodes|], i) &&
      Resolves(ops, nodes + [Operand(e)], roots, i, e, |nodes|)
    ensures e in scalars ==> Building(ops, scalars, nodes + [Operand(e)], roots, defs, i)
    ensures forall x, n :: Resolves(ops, nodes, roots, i, x, n) ==> Resolves(ops, nodes + [Operand(e)], roots, i, x, n)
  {
    hide IsGraphUpTo;
    OperandGrows(ops, scalars, nodes, roots, i, e);
  }

  lemma {:induction false} OperandGrows(
      ops: seq<Operation>, scalars: map<Entity, int>, nodes: seq<Node>, roots: seq<nat>, i: nat, e: Entity)
    requires i <= |ops| && IsGraphUpTo(ops, scalars, nodes, roots, i)
    ensures |roots| == i && IsGraphUpTo(ops, scalars, nodes + [Operand(e)], roots, i)
  {
    forall j | 0 <= j < i ensures Records(ops, scalars, nodes + [Operand(e)], roots, j) {
      assert Records(ops, scalars, nodes, roots, j);
    }
    hide Records;
  }

  /** Earlier facts do not see a new root. */
  lemma {:induction false} RecordsGrow(
      ops: seq<Operation>, scalars: map<Entity, int>, nodes: seq<Node>, roots: seq<nat>, node: Node, j: nat)
    requires j < |roots| && j < |ops| && Records(ops, scalars, nodes, roots, j)
    ensures roots[j] < |nodes|
    ensures Records(ops, scalars, nodes + [node], roots + [|nodes|], j)
  {
  }

  lemma {:induction false} ResolvesGrow(
      ops: seq<Operation>, nodes: seq<Node>, roots: seq<nat>, node: Node, i: nat, e: Entity, n: nat)
    requires i < |ops| && i <= |roots| && Resolves(ops, nodes, roots, i, e, n) && e != Target(ops[i])
    ensures Resolves(ops, nodes + [node], roots + [|nodes|], i + 1, e, n)
  {
  }

  /** A new root for operation `i`. */
  lemma {:induction false} AddRoot(
      ops: seq<Operation>, scalars: map<Entity, int>, nodes: seq<Node>, roots: seq<nat>, defs: map<Entity, nat>, i: nat,
      left: nat, right: nat)
    requires i < |ops| && Building(ops, scalars, nodes, roots, defs, i) && Supported(ops[i])
    requires Resolves(ops, nodes, roots, i, ops[i].operand1, left)
    requires IsRight(ops, scalars, nodes, roots, i, right)
    ensures |nodes| !in roots
    ensures Building(ops, scalars, nodes + [Operator(ops[i], left, Some(right))], roots + [|nodes|],
      defs[Target(ops[i]) := |nodes|], i + 1)
  {
    hide IsGraphUpTo; hide IsRight; hide OperandsShared;
    var node := Operator(ops[i], left, Some(right));
    var more, longer := nodes + [node], roots + [|nodes|];
    var newer := defs[Target(ops[i]) := |nodes|];
    GraphGrows(ops, scalars, nodes, roots, i, left, right);
    SharedGrows(scalars, nodes, node);
    forall e | e in newer ensures Resolves(ops, more, longer, i + 1, e, newer[e]) {
      if e != Target(ops[i]) {
        ResolvesGrow(ops, nodes, roots, node, i, e, defs[e]);
      }
    }
    hide Resolves;
  }

  lemma {:induction false} SharedGrows(scalars: map<Entity, int>, nodes: seq<Node>, node: Node)
    requires OperandsShared(scalars, nodes) && node.Operator?
    ensures OperandsShared(scalars, nodes + [node])
  {
  }

  lemma {:induction false} GraphGrows(
      ops: seq<Operation>, scalars: map<Entity, int>, nodes: seq<Node>, roots: seq<nat>, i: nat, left: nat, right: nat)
    requires i < |ops| && IsGraphUpTo(ops, scalars, nodes, roots, i) && Supported(ops[i])
    requires Resolves(ops, nodes, roots, i, ops[i].operand1, left) && IsRight(ops, scalars, nodes, roots, i, right)
    ensures |roots| == i && |nodes| !in roots
    ensures IsGraphUpTo(ops, scalars, nodes + [Operator(ops[i], left, Some(right))], roots + [|nodes|], i + 1)
  {
    hide Resolves; hide IsRight;
    var node := Operator(ops[i], left, Some(right));
    NewRoot(ops, scalars, nodes, roots, i, left, right);
    forall j | 0 <= j < i ensures roots[j] < |nodes| && Records(ops, scalars, nodes + [node], roots + [|nodes|], j) {
      RecordsGrow(ops, scalars, nodes, roots, node, j);
    }
    hide Records;
  }

  lemma {:induction false} NewRoot(
      ops: seq<Operation>, scalars: map<Entity, int>, nodes: seq<Node>, roots: seq<nat>, i: nat, left: nat, right: nat)
    requires i < |ops| && i == |roots|
    requires Resolves(ops, nodes, roots, i, ops[i].operand1, left) && IsRight(ops, scalars, nodes, roots, i, right)
    ensures left < |nodes| && right < |nodes|
    ensures Records(ops, scalars, nodes + [Operator(ops[i], left, Some(right))], roots + [|nodes|], i)
  {
  }

  /** The plan of a recording, and the current node of each entity while it is built. */
  class Planner {
    var nodes: seq<Node>
    var roots: seq<nat>
    var defs: map<Entity, nat>

    constructor ()
      ensures nodes == [] && roots == [] && defs == map[]
    {
      nodes, roots, defs := [], [], map[];
    }

    /** The node an entity resolves to, created on first use. */
    method NodeFor(e: Entity, ghost ops: seq<Operation>, ghost scalars: map<Entity, int>, ghost i: nat)
      returns (n: nat)
      requires i <= |ops| && Building(ops, scalars, nodes, roots, defs, i)
      modifies this`nodes, this`defs
      ensures Building(ops, scalars, nodes, roots, defs, i) && Resolves(ops, nodes, roots, i, e, n)
      ensures forall x, m :: Resolves(ops, old(nodes), roots, i, x, m) ==> Resolves(ops, nodes, roots, i, x, m)
    {
      if e in defs {
        n := defs[e];
      } else {
        n := |nodes|;
        AddOperand(ops, scalars, nodes, roots, defs, i, e);
        nodes := nodes + [Operand(e)];
        defs := defs[e := n];
      }
    }

    /** Builds the graph of a recorded list; fails, leaving a partial graph, at an unsupported operation. */
    method BuildAST(ops: seq<Operation>, scalars: map<Entity, int>) returns (ok: bool)
      requires nodes == [] && roots == [] && defs == map[]
      modifies this
      ensures ok == (forall i :: 0 <= i < |ops| ==> ops[i].kind in {Add, Multiply, Assignment})
      ensures ok ==> IsGraphOf(ops, scalars, nodes, roots) && OperandsShared(scalars, nodes)
    {
      hide Building; hide Resolves; hide IsGraphOf; hide OperandsShared;
      StartBuilding(ops, scalars);
      for i := 0 to |ops|
        invariant i <= |ops| && Building(ops, scalars, nodes, roots, defs, i)
        invariant forall j :: 0 <= j < i ==> Supported(ops[j])
      {
        var op := ops[i];
        var left := NodeFor(op.operand1, ops, scalars, i);
        var right;
        if op.operand2 in scalars {
          right := |nodes|;
          AddOperand(ops, scalars, nodes, roots, defs, i, op.operand2);
          nodes := nodes + [Operand(op.operand2)];
        } else {
          right := NodeFor(op.operand2, ops, scalars, i);
        }
        if !Supported(op) { return false; }
        AddRoot(ops, scalars, nodes, roots, defs, i, left, right);
        var root := |nodes|;
        nodes := nodes + [Operator(op, left, Some(right))];
        defs := defs[Target(op) := root];
        if root !in roots { roots := roots + [root]; }
      }
      DoneBuilding(ops, scalars, nodes, roots, defs);
      return true;
    }
  }
}
