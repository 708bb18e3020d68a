/** The per-operation path: evaluating the roots of a graph with memo flags. */
module Evaluation {
  import opened Fhn
  import opened Graph
  import opened Traversal

  /** The operations of the operator nodes in a visiting order. */
  function Executed(nodes: seq<Node>, order: seq<nat>): seq<Operation>
    requires forall i :: 0 <= i < |order| ==> order[i] < |nodes|
  {
    if order == [] then []
    else
      var node := nodes[order[|order| - 1]];
      var earlier := Executed(nodes, order[..|order| - 1]);
      if node.Operator? then earlier + [node.op] else earlier
  }

  lemma {:induction false} ExecutedSnoc(nodes: seq<Node>, order: seq<nat>, n: nat)
    requires n < |nodes| && forall i :: 0 <= i < |order| ==> order[i] < |nodes|
    ensures Executed(nodes, order + [n]) ==
      if nodes[n].Operator? then Executed(nodes, order) + [nodes[n].op] else Executed(nodes, order)
  {
    assert (order + [n])[..|order|] == order;
  }

  lemma {:induction false} ExecutedOperands(nodes: seq<Node>, order: seq<nat>, more: seq<nat>)
    requires forall i :: 0 <= i < |order| ==> order[i] < |nodes|
    requires forall i :: 0 <= i < |more| ==> more[i] < |nodes| && nodes[more[i]].Operand?
    ensures Executed(nodes, order + more) == Executed(nodes, order)
  {
    if more == [] {
      assert order + more == order;
    } else {
      ExecutedOperands(nodes, order, more[..|more| - 1]);
      ExecutedSnoc(nodes, order + more[..|more| - 1], more[|more| - 1]);
      assert order + more[..|more| - 1] + [more[|more| - 1]] == order + more;
    }
  }

  /** The order in which the first `i` roots are visited. */
  ghost predicate VisitedUpTo(
    ops: seq<Operation>, nodes: seq<Node>, roots: seq<nat>, i: nat, order: seq<nat>)
    requires i <= |ops| && i <= |roots|
  {
    && (forall j :: 0 <= j < |order| ==> order[j] < |nodes|)
    && (forall j :: 0 <= j < i ==> roots[j] in order)
    && (forall j :: 0 <= j < |order| ==> nodes[order[j]].Operand? || order[j] in roots[..i])
    && Executed(nodes, order) == ops[..i]
  }

  lemma {:induction false} VisitNextRoot(
      ops: seq<Operation>, scalars: map<Entity, int>, skip: map<Entity, int>, nodes: seq<Node>, roots: seq<nat>, i: nat,
      order: seq<nat>)
    requires IsGraphOf(ops, scalars, nodes, roots) && i < |ops| && VisitedUpTo(ops, nodes, roots, i, order)
    ensures WellFormed(nodes) && roots[i] < |nodes| && roots[i] !in order
    ensures VisitedUpTo(ops, nodes, roots, i + 1, Visit(nodes, skip, roots[i], order))
  {
    hide IsGraphOf; hide Visit; hide Executed; hide WellFormed;
    RootsDistinct(ops, scalars, nodes, roots, i);
    RootChildren(ops, scalars, nodes, roots, i);
    VisitRoot(ops, scalars, skip, nodes, roots, i, order);
    var first := FirstReads(nodes, skip, roots[i], order);
    ExecutedOperands(nodes, order, first);
    ExecutedSnoc(nodes, order + first, roots[i]);
    assert ops[..i + 1] == ops[..i] + [ops[i]];
  }

  /** Visiting the roots executes the recorded operations: each once, in recording order. */
  lemma {:induction false} EachOperationOnceInOrder(
      ops: seq<Operation>, scalars: map<Entity, int>, skip: map<Entity, int>, nodes: seq<Node>, roots: seq<nat>, i: nat)
    requires IsGraphOf(ops, scalars, nodes, roots) && i <= |ops|
    ensures forall j :: 0 <= j < |roots| ==> roots[j] < |nodes|
    ensures VisitedUpTo(ops, nodes, roots, i, VisitAll(nodes, skip, roots[..i]))
  {
    hide IsGraphOf; hide VisitedUpTo; hide Visit; hide WellFormed;
    forall j | 0 <= j < |ops| ensures |roots| == |ops| && WellFormed(nodes) && roots[j] < |nodes| {
      RootsDistinct(ops, scalars, nodes, roots, j);
    }
    GraphSize(ops, scalars, nodes, roots);
    if i == 0 {
      NothingVisitedYet(ops, nodes, roots);
    } else {
      EachOperationOnceInOrder(ops, scalars, skip, nodes, roots, i - 1);
      VisitNextRoot(ops, scalars, skip, nodes, roots, i - 1, VisitAll(nodes, skip, roots[..i - 1]));
      assert roots[..i][..i - 1] == roots[..i - 1];
    }
  }

  lemma GraphSize(ops: seq<Operation>, scalars: map<Entity, int>, nodes: seq<Node>, roots: seq<nat>)
    requires IsGraphOf(ops, scalars, nodes, roots)
    ensures WellFormed(nodes) && |roots| == |ops|
  {
    hide WellFormed; hide Records;
  }

  lemma NothingVisitedYet(ops: seq<Operation>, nodes: seq<Node>, roots: seq<nat>)
    ensures VisitedUpTo(ops, nodes, roots, 0, [])
  {
  }

  // ---- Executing operations one by one ---------------------------------------------------------

  /** What executing one operation does to the ciphertexts; None when it raises an error. Assigning from an
      entity that is not encrypted leaves the target's ciphertext as it was. */
  function LegacyStep<V>(k: Kernel<V>, op: Operation, store: map<Entity, V>): Option<map<Entity, V>> {
    if op.kind == Assignment then
      Some(if op.operand2 in store then store[op.operand1 := store[op.operand2]] else store)
    else if op.kind == Refresh then Some(store)
    else if (op.kind == Add || op.kind == Multiply) && op.operand1 in store && op.operand2 in store then
      Some(store[op.result := Combine(k, map[], op, store[op.operand1], store[op.operand2])])
    else None
  }

  function LegacyRun<V>(k: Kernel<V>, ops: seq<Operation>, store: map<Entity, V>): Option<map<Entity, V>> {
    if ops == [] then Some(store)
    else
      match LegacyRun(k, ops[..|ops| - 1], store)
      case None => None
      case Some(before) => LegacyStep(k, ops[|ops| - 1], before)
  }

  lemma LegacySnoc<V>(k: Kernel<V>, ops: seq<Operation>, op: Operation, store: map<Entity, V>)
    ensures LegacyRun(k, ops + [op], store) ==
      match LegacyRun(k, ops, store) case None => None case Some(before) => LegacyStep(k, op, before)
  {
    assert (ops + [op])[..|ops|] == ops;
    hide LegacyStep;
  }

  /** An error ends the run. */
  lemma {:induction false} LegacyStuck<V>(k: Kernel<V>, ops: seq<Operation>, i: nat, store: map<Entity, V>)
    requires i <= |ops| && LegacyRun(k, ops[..i], store).None?
    ensures LegacyRun(k, ops, store).None?
  {
    hide LegacyStep;
    if i == |ops| {
      assert ops[..i] == ops;
    } else {
      assert ops[..|ops| - 1][..i] == ops[..i];
      LegacyStuck(k, ops[..|ops| - 1], i, store);
    }
  }

  /** The entities that are encrypted after the first `i` operations ran. */
  function EncryptedAfter(ops: seq<Operation>, encrypted: set<Entity>, i: nat): set<Entity>
    requires i <= |ops|
  {
    if i == 0 then encrypted
    else
      var before := EncryptedAfter(ops, encrypted, i - 1);
      var op := ops[i - 1];
      if op.kind == Assignment then (if op.operand2 in before then before + {op.operand1} else before)
      else if op.kind == Refresh then before
      else before + {op.result}
  }

  /** What operation `i` computes with is encrypted by then. */
  ghost predicate Computes(ops: seq<Operation>, encrypted: set<Entity>, i: nat)
    requires i < |ops|
  {
    var before := EncryptedAfter(ops, encrypted, i);
    ops[i].kind == Assignment || ops[i].kind == Refresh ||
      ((ops[i].kind == Add || ops[i].kind == Multiply) && ops[i].operand1 in before && ops[i].operand2 in before)
  }

  lemma {:induction false} EncryptedPrefix(ops: seq<Operation>, n: nat, encrypted: set<Entity>, i: nat)
    requires i <= n <= |ops|
    ensures EncryptedAfter(ops[..n], encrypted, i) == EncryptedAfter(ops, encrypted, i)
  {
    if i > 0 {
      EncryptedPrefix(ops, n, encrypted, i - 1);
    }
  }

  /** Executing a list in order meets no error exactly when no addition or multiplication reads an entity that is
      not encrypted by then; what is encrypted in the end does not depend on the values. */
  lemma {:induction false} LegacyRunsIff<V>(k: Kernel<V>, ops: seq<Operation>, store: map<Entity, V>)
    ensures LegacyRun(k, ops, store).Some? <==> forall i :: 0 <= i < |ops| ==> Computes(ops, store.Keys, i)
    ensures LegacyRun(k, ops, store).Some? ==>
      LegacyRun(k, ops, store).value.Keys == EncryptedAfter(ops, store.Keys, |ops|)
  {
    if ops != [] {
      var n := |ops| - 1;
      LegacyRunsIff(k, ops[..n], store);
      forall i | 0 <= i < n ensures Computes(ops[..n], store.Keys, i) <==> Computes(ops, store.Keys, i) {
        EncryptedPrefix(ops, n, store.Keys, i);
      }
      EncryptedPrefix(ops, n, store.Keys, n);
      LegacyStepIs(k, ops, store.Keys, LegacyRun(k, ops[..n], store));
      hide Computes; hide EncryptedAfter; hide LegacyStep;
    }
  }

  lemma LegacyStepIs<V>(k: Kernel<V>, ops: seq<Operation>, encrypted: set<Entity>, before: Option<map<Entity, V>>)
    requires ops != [] && (before.Some? ==> before.value.Keys == EncryptedAfter(ops, encrypted, |ops| - 1))
    ensures before.Some? ==>
      (LegacyStep(k, ops[|ops| - 1], before.value).Some? <==> Computes(ops, encrypted, |ops| - 1))
    ensures before.Some? && LegacyStep(k, ops[|ops| - 1], before.value).Some? ==>
      LegacyStep(k, ops[|ops| - 1], before.value).value.Keys == EncryptedAfter(ops, encrypted, |ops|)
  {
    hide Combine;
  }

  /** An assignment changes its target only, and only if what is assigned is encrypted; no operation takes a
      ciphertext away. */
  lemma {:induction false} LegacyKeeps<V>(k: Kernel<V>, ops: seq<Operation>, store: map<Entity, V>, i: nat, e: Entity)
    requires i < |ops| && LegacyRun(k, ops[..i + 1], store).Some?
    ensures LegacyRun(k, ops[..i], store).Some?
    ensures var before, after := LegacyRun(k, ops[..i], store).value, LegacyRun(k, ops[..i + 1], store).value;
      && (e in before ==> e in after)
      && (e in before && (e != Target(ops[i]) || ops[i].kind == Refresh) ==> after[e] == before[e])
      && (ops[i].kind == Assignment && ops[i].operand2 !in before ==> after == before)
      && (ops[i].kind == Assignment && ops[i].operand2 in before ==>
            Target(ops[i]) in after && after[Target(ops[i])] == before[ops[i].operand2])
  {
    assert ops[..i + 1] == ops[..i] + [ops[i]];
    LegacySnoc(k, ops[..i], ops[i], store);
    hide LegacyRun; hide Combine;
  }

  /** No operation reads, before anything wrote it, an entity that is not encrypted. The target of an assignment
      is not read. */
  ghost predicate OperandsEncrypted(ops: seq<Operation>, encrypted: set<Entity>) {
    forall i :: 0 <= i < |ops| ==> OperandsEncryptedAt(ops, encrypted, i)
  }

  ghost predicate OperandsEncryptedAt(ops: seq<Operation>, encrypted: set<Entity>, i: nat)
    requires i < |ops|
  {
    && Supported(ops[i])
    && (LastDef(ops, i, ops[i].operand2).None? ==> ops[i].operand2 in encrypted)
    && (ops[i].kind != Assignment && LastDef(ops, i, ops[i].operand1).None? ==> ops[i].operand1 in encrypted)
  }

  /** Then executing them one by one meets no error and leaves in each encrypted entity its sequential value. */
  lemma {:induction false} LegacyIsSequential<V>(
      k: Kernel<V>, ops: seq<Operation>, store: map<Entity, V>, initial: Entity -> V, i: nat)
    requires i <= |ops| && OperandsEncrypted(ops, store.Keys) && forall e :: e in store ==> store[e] == initial(e)
    ensures LegacyRun(k, ops[..i], store).Some?
    ensures forall e :: e in LegacyRun(k, ops[..i], store).value <==> e in store || LastDef(ops, i, e).Some?
    ensures forall e :: e in LegacyRun(k, ops[..i], store).value ==>
      LegacyRun(k, ops[..i], store).value[e] == ValueAfter(k, map[], ops, initial, i, e)
  {
    if i > 0 {
      LegacyIsSequential(k, ops, store, initial, i - 1);
      assert ops[..i] == ops[..i - 1] + [ops[i - 1]];
      LegacySnoc(k, ops[..i - 1], ops[i - 1], store);
      assert OperandsEncryptedAt(ops, store.Keys, i - 1);
      hide LegacyRun; hide Combine;
    }
  }

  // ---- The evaluation of a graph ---------------------------------------------------------------

  lemma {:induction false} ExecutedPrefix(nodes: seq<Node>, order: seq<nat>, full: seq<nat>)
    requires order <= full && forall i :: 0 <= i < |full| ==> full[i] < |nodes|
    ensures Executed(nodes, order) <= Executed(nodes, full)
  {
    if |order| == |full| {
      assert order == full;
    } else {
      ExecutedPrefix(nodes, order, full[..|full| - 1]);
    }
  }

  /** Node `m` is an operation, and the next to be visited. */
  ghost predicate Next(nodes: seq<Node>, order: seq<nat>, full: seq<nat>, m: nat) {
    m < |nodes| && nodes[m].Operator? && order + [m] <= full
  }

  lemma NextInLonger(nodes: seq<Node>, order: seq<nat>, some: seq<nat>, full: seq<nat>, m: nat)
    requires Next(nodes, order, some, m) && some <= full
    ensures Next(nodes, order, full, m)
  {
    assert full[..|some|] == some;
    assert full[..|order| + 1] == order + [m];
  }

  /** What was executed is then a prefix of the list, and the node's operation comes after it. */
  lemma {:induction false} NextOperation(
      nodes: seq<Node>, order: seq<nat>, full: seq<nat>, m: nat, ops: seq<Operation>)
    requires Next(nodes, order, full, m) && forall i :: 0 <= i < |full| ==> full[i] < |nodes|
    requires Executed(nodes, full) == ops
    ensures forall i :: 0 <= i < |order| ==> order[i] < |nodes|
    ensures var i := |Executed(nodes, order)|;
      i < |ops| && ops[..i] == Executed(nodes, order) && ops[i] == nodes[m].op
  {
    forall i | 0 <= i < |order| ensures order[i] == full[i] {
      assert (order + [m])[i] == order[i];
    }
    ExecutedPrefix(nodes, order + [m], full);
    ExecutedSnoc(nodes, order, m);
    var i := |Executed(nodes, order)|;
    assert ops[..i + 1] == Executed(nodes, order) + [nodes[m].op];
  }

  /** An operation that raises an error after what was executed is one the list cannot run past. */
  lemma {:induction false} StuckAt<V>(k: Kernel<V>, ops: seq<Operation>, i: nat, start: map<Entity, V>)
    requires i < |ops| && LegacyRun(k, ops[..i], start).Some?
    requires LegacyStep(k, ops[i], LegacyRun(k, ops[..i], start).value).None?
    ensures LegacyRun(k, ops, start).None?
  {
    hide LegacyStep;
    assert ops[..i + 1] == ops[..i] + [ops[i]];
    LegacySnoc(k, ops[..i], ops[i], start);
    LegacyStuck(k, ops, i + 1, start);
  }

  /** Visiting more roots extends the order. */
  lemma {:induction false} VisitAllExtends(nodes: seq<Node>, skip: map<Entity, int>, roots: seq<nat>, i: nat)
    requires WellFormed(nodes) && (forall j :: 0 <= j < |roots| ==> roots[j] < |nodes|) && i <= |roots|
    ensures VisitAll(nodes, skip, roots[..i]) <= VisitAll(nodes, skip, roots)
  {
    hide Visit; hide WellFormed;
    if i == |roots| {
      assert roots[..i] == roots;
    } else {
      assert roots[..|roots| - 1][..i] == roots[..i];
      VisitAllExtends(nodes, skip, roots[..|roots| - 1], i);
      VisitExtends(nodes, skip, roots[|roots| - 1], VisitAll(nodes, skip, roots[..|roots| - 1]));
    }
  }

  /** Where an evaluation that stops at node `at` below root `i` stands in the list. */
  lemma {:induction false} StoppedAt(
      ops: seq<Operation>, nodes: seq<Node>, roots: seq<nat>, i: nat, order: seq<nat>, at: nat)
    returns (done: nat)
    requires WellFormed(nodes) && (forall j :: 0 <= j < |roots| ==> roots[j] < |nodes|) && i < |roots|
    requires var full := VisitAll(nodes, map[], roots);
      (forall j :: 0 <= j < |full| ==> full[j] < |nodes|) && Executed(nodes, full) == ops
    requires Next(nodes, order, Visit(nodes, map[], roots[i], VisitAll(nodes, map[], roots[..i])), at)
    ensures at < |nodes| && nodes[at].Operator? && forall j :: 0 <= j < |order| ==> order[j] < |nodes|
    ensures done == |Executed(nodes, order)| < |ops| && ops[..done] == Executed(nodes, order)
    ensures ops[done] == nodes[at].op
  {
    hide Visit; hide Executed; hide WellFormed;
    assert roots[..i + 1][..i] == roots[..i];
    var full := VisitAll(nodes, map[], roots);
    VisitAllExtends(nodes, map[], roots, i + 1);
    NextInLonger(nodes, order, VisitAll(nodes, map[], roots[..i + 1]), full, at);
    NextOperation(nodes, order, full, at, ops);
    done := |Executed(nodes, order)|;
  }

  lemma GraphRoots(ops: seq<Operation>, scalars: map<Entity, int>, nodes: seq<Node>, roots: seq<nat>)
    requires IsGraphOf(ops, scalars, nodes, roots)
    ensures WellFormed(nodes) && |roots| == |ops| && (forall j :: 0 <= j < |roots| ==> roots[j] < |nodes|)
    ensures var full := VisitAll(nodes, map[], roots);
      (forall j :: 0 <= j < |full| ==> full[j] < |nodes|) && Executed(nodes, full) == ops
  {
    hide Visit; hide VisitAll; hide Executed; hide WellFormed; hide Records; hide Increasing;
    EachOperationOnceInOrder(ops, scalars, map[], nodes, roots, |ops|);
    assert roots[..|roots|] == roots && ops[..|ops|] == ops;
  }

  /** The entities' ciphertext values, and the memo flags of the nodes, while a graph is evaluated. A kernel may
      fail at any call. */
  class Evaluator<V(!new)> {
    const nodes: seq<Node>
    const k: Kernel<V>
    /** The encrypted entities' values; an entity without an entry has no ciphertext. */
    var store: map<Entity, V>
    var evaluated: set<nat>

    ghost const start: map<Entity, V>
    ghost var order: seq<nat>
    /** What the environment returns from each kernel call, in order; 0 is success. */
    const codes: nat -> int
    var calls: nat
    ghost var faults: nat

    constructor (nodes: seq<Node>, k: Kernel<V>, store: map<Entity, V>, codes: nat -> int)
      requires WellFormed(nodes)
      ensures this.nodes == nodes && this.k == k && start == store && order == [] && Valid()
      ensures this.codes == codes && calls == 0 && faults == 0
    {
      this.nodes, this.k, this.store, this.start, this.codes := nodes, k, store, store, codes;
      evaluated, order, calls, faults := {}, [], 0, 0;
    }

    ghost predicate Faultless() {
      forall i :: codes(i) == 0
    }

    /** The flags say what was visited, and the store is what executing the operations visited leaves. */
    ghost predicate Valid()
      reads this
    {
      && WellFormed(nodes)
      && (forall i :: 0 <= i < |order| ==> order[i] < |nodes|)
      && (forall n :: n in evaluated <==> n in order)
      && LegacyRun(k, Executed(nodes, order), start) == Some(store)
    }

    method Execute(n: nat) returns (ok: bool)
      requires Valid() && n < |nodes| && nodes[n].Operator?
      modifies this
      ensures Valid() && faults >= old(faults) && (Faultless() ==> faults == old(faults))
      ensures ok <==> faults == old(faults) && LegacyStep(k, nodes[n].op, old(store)).Some?
      ensures ok ==> order == old(order) + [n]
      ensures !ok ==> order == old(order) && store == old(store)
    {
      var op := nodes[n].op;
      ExecutedSnoc(nodes, order, n);
      LegacySnoc(k, Executed(nodes, order), op, start);
      if op.kind == Assignment {
        if op.operand2 in store {
          store := store[op.operand1 := store[op.operand2]];
        }
      } else if op.kind != Refresh {
        if (op.kind != Add && op.kind != Multiply) || op.operand1 !in store || op.operand2 !in store {
          return false;
        }
        var rc := codes(calls);
        calls := calls + 1;
        if rc != 0 {
          faults := faults + 1;
          return false;
        }
        store := store[op.result := Combine(k, map[], op, store[op.operand1], store[op.operand2])];
      }
      evaluated, order := evaluated + {n}, order + [n];
      ok := true;
    }

    /** Evaluates the children of a node, then the node, unless its flag is set. An error ends it there. */
    method Evaluate(n: nat) returns (ok: bool, ghost at: nat)
      requires Valid() && n < |nodes| && Expressible(nodes, map[], n)
      modifies this
      ensures Valid() && faults >= old(faults) && (Faultless() ==> faults == old(faults))
      ensures ok ==> faults == old(faults) && order == Visit(nodes, map[], n, old(order))
      ensures !ok ==> Next(nodes, order, Visit(nodes, map[], n, old(order)), at)
      ensures !ok ==> faults > old(faults) || LegacyStep(k, nodes[at].op, store).None?
      decreases n
    {
      at := n;
      if n in evaluated { return true, at; }
      if nodes[n].Operand? {
        ExecutedSnoc(nodes, order, n);
        evaluated, order := evaluated + {n}, order + [n];
        return true, at;
      }
      ghost var whole := Visit(nodes, map[], n, order);
      ghost var afterLeft := Visit(nodes, map[], nodes[n].left, order);
      VisitExtends(nodes, map[], nodes[n].left, order);
      if nodes[n].right.Some? { VisitExtends(nodes, map[], nodes[n].right.value, afterLeft); }
      assert afterLeft <= whole;
      hide LegacyStep; hide LegacyRun;
      ok, at := Evaluate(nodes[n].left);
      if !ok {
        NextInLonger(nodes, order, afterLeft, whole, at);
        return;
      }
      if nodes[n].right.Some? {
        ok, at := Evaluate(nodes[n].right.value);
        if !ok {
          NextInLonger(nodes, order, Visit(nodes, map[], nodes[n].right.value, afterLeft), whole, at);
          return;
        }
      }
      at := n;
      ok := Execute(n);
    }

    /** Evaluates all roots; an empty graph is an error. It succeeds exactly when no kernel fails and no operation
        computes with an entity that is not encrypted by then, and leaves what executing the recorded operations
        in order leaves. Otherwise the operations before the one that failed have been executed. */
    method EvaluateGraph(roots: seq<nat>, ghost ops: seq<Operation>, ghost scalars: map<Entity, int>)
      returns (ok: bool, ghost done: nat)
      requires Valid() && order == [] && IsGraphOf(ops, scalars, nodes, roots)
      modifies this
      ensures Valid() && faults >= old(faults) && (Faultless() ==> faults == old(faults))
      ensures ok <==> (ops != [] && faults == old(faults) && LegacyRun(k, ops, start).Some?)
      ensures ok ==> Executed(nodes, order) == ops && LegacyRun(k, ops, start) == Some(store)
      ensures !ok && ops != [] ==>
        (done < |ops| && LegacyRun(k, ops[..done], start) == Some(store) &&
         (faults > old(faults) || LegacyStep(k, ops[done], store).None?))
    {
      done := 0;
      hide Visit; hide Executed; hide LegacyRun; hide LegacyStep; hide IsGraphOf; hide WellFormed; hide Next;
      GraphRoots(ops, scalars, nodes, roots);
      if roots == [] { return false, done; }
      for i := 0 to |roots|
        invariant Valid() && faults == old(faults) && order == VisitAll(nodes, map[], roots[..i])
      {
        RootExpressible(ops, scalars, map[], nodes, roots, i);
        assert roots[..i + 1][..i] == roots[..i];
        ghost var at;
        ok, at := Evaluate(roots[i]);
        if !ok {
          done := StoppedAt(ops, nodes, roots, i, order, at);
          if faults == old(faults) { StuckAt(k, ops, done, start); }
          return;
        }
      }
      assert roots[..|roots|] == roots;
      return true, |ops|;
    }
  }
}
