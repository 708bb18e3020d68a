/** Running a recorded graph through the executor and writing the results back into the entities. */
module Session {
  import opened Fhn
  import opened Sets
  import opened MovementPlan
  import opened Lifetimes
  import opened Analyzer
  import opened Decomposition
  import opened Memory
  import opened Executor
  import opened Graph
  import opened Traversal
  import opened Lowering

  datatype Outcome = Done | Unsupported | NotLowered | PlanRejected | ForeignOperand | NotEncrypted | ExecutorFailed

  /** The first encrypted entity bound to an id: the one whose buffer the session hands to the executor. */
  function FirstEncrypted(bindings: seq<(Id, Entity)>, encrypted: set<Entity>, id: Id): Option<Entity> {
    if bindings == [] then None
    else
      var earlier := FirstEncrypted(bindings[..|bindings| - 1], encrypted, id);
      var last := bindings[|bindings| - 1];
      if earlier.Some? then earlier
      else if last.0 == id && last.1 in encrypted then Some(last.1)
      else None
  }

  /** An input gets the buffer of the entity the graph reads exactly when that entity is encrypted. */
  lemma {:induction false} FirstEncryptedIsSource(bindings: seq<(Id, Entity)>, encrypted: set<Entity>, id: Id)
    ensures SourceOf(bindings, id).Some? ==>
      (FirstEncrypted(bindings, encrypted, id) == SourceOf(bindings, id) <==> SourceOf(bindings, id).value in encrypted)
    ensures SourceOf(bindings, id).None? ==> FirstEncrypted(bindings, encrypted, id).None?
    ensures FirstEncrypted(bindings, encrypted, id).Some? ==> FirstEncrypted(bindings, encrypted, id).value in encrypted
  {
    if bindings != [] {
      FirstEncryptedIsSource(bindings[..|bindings| - 1], encrypted, id);
    }
  }

  /** The list `x = y`, with `x` and `y` the entities 1 and 2. */
  const COPY: Operation := Operation(Assignment, 1, 2, 0, 0)
  const COPY_NODES: seq<Node> := [Operand(1), Operand(2), Operator(COPY, 0, Some(1))]

  /** What is handed to the executor for an input is not always the entity the graph reads: in `x = y` with
      `y` not encrypted, the session takes the buffer of `x` for it and raises no error. The target of the
      assignment is an input too, although its value is not used. */
  lemma UnencryptedSourceIsReplaced()
    ensures var st := Emit(COPY_NODES, map[], [0, 1, 2]);
      && IsGraphOf([COPY], map[], COPY_NODES, [2]) && LoweredTo(COPY_NODES, map[], [2], st)
      && st.inputs == [1, 2] && SourceOf(st.bindings, 1) == Some(1)
      && SourceOf(st.bindings, 2) == Some(2) && FirstEncrypted(st.bindings, {1}, 2) == Some(1)
  {
    CopyGraph();
    CopyLowered();
    ReplacedBinding();
    hide *;
    LoweredToEmit(COPY_NODES, map[], [2], [0, 1, 2]);
  }

  lemma LoweredToEmit(nodes: seq<Node>, scalars: map<Entity, int>, roots: seq<nat>, order: seq<nat>)
    requires WellFormed(nodes) && (forall j :: 0 <= j < |roots| ==> roots[j] < |nodes|)
    requires VisitAll(nodes, scalars, roots) == order && forall j :: 0 <= j < |order| ==> order[j] < |nodes|
    ensures LoweredTo(nodes, scalars, roots, Emit(nodes, scalars, order))
  {
    hide Emit; hide VisitAll;
  }

  lemma CopyGraph()
    ensures WellFormed(COPY_NODES) && |COPY_NODES| == 3 && IsGraphOf([COPY], map[], COPY_NODES, [2])
    ensures VisitAll(COPY_NODES, map[], [2]) == [0, 1, 2]
  {
    assert Records([COPY], map[], COPY_NODES, [2], 0);
    assert VisitAll(COPY_NODES, map[], [2][..0]) == [];
    assert Visit(COPY_NODES, map[], 2, []) == [0, 1, 2];
  }

  lemma CopyLowered()
    ensures |COPY_NODES| == 3
    ensures Emit(COPY_NODES, map[], [0, 1, 2]).inputs == [1, 2]
    ensures Emit(COPY_NODES, map[], [0, 1, 2]).bindings == [] + [(1, 1)] + [(2, 2)] + [(2, 1)]
  {
    EmitSnoc(COPY_NODES, map[], [], 0);
    EmitSnoc(COPY_NODES, map[], [0], 1);
    EmitSnoc(COPY_NODES, map[], [0, 1], 2);
    assert [] + [0] == [0] && [0] + [1] == [0, 1] && [0, 1] + [2] == [0, 1, 2];
    assert Emit(COPY_NODES, map[], []) == Lowered([], [], 1, map[], []);
    hide Emit;
  }

  lemma FirstEncryptedSnoc(bindings: seq<(Id, Entity)>, last: (Id, Entity), encrypted: set<Entity>, id: Id)
    ensures FirstEncrypted(bindings + [last], encrypted, id) ==
      if FirstEncrypted(bindings, encrypted, id).Some? then FirstEncrypted(bindings, encrypted, id)
      else if last.0 == id && last.1 in encrypted then Some(last.1) else None
  {
    assert (bindings + [last])[..|bindings|] == bindings;
  }

  lemma ReplacedBinding()
    ensures SourceOf([] + [(1, 1)] + [(2, 2)] + [(2, 1)], 1) == Some(1)
    ensures SourceOf([] + [(1, 1)] + [(2, 2)] + [(2, 1)], 2) == Some(2)
    ensures FirstEncrypted([] + [(1, 1)] + [(2, 2)] + [(2, 1)], {1}, 2) == Some(1)
  {
    SourceSnoc([], (1, 1), 1);
    SourceSnoc([] + [(1, 1)], (2, 2), 1);
    SourceSnoc([] + [(1, 1)] + [(2, 2)], (2, 1), 1);
    SourceSnoc([], (1, 1), 2);
    SourceSnoc([] + [(1, 1)], (2, 2), 2);
    SourceSnoc([] + [(1, 1)] + [(2, 2)], (2, 1), 2);
    FirstEncryptedSnoc([], (1, 1), {1}, 2);
    FirstEncryptedSnoc([] + [(1, 1)], (2, 2), {1}, 2);
    FirstEncryptedSnoc([] + [(1, 1)] + [(2, 2)], (2, 1), {1}, 2);
  }

  /** Each input some encrypted entity is bound to holds the buffer of the first of them. */
  ghost predicate Held(
    cts: map<Entity, Handle>, encrypted: set<Entity>, hold: map<Id, Handle>, inputs: seq<Id>,
    bindings: seq<(Id, Entity)>)
  {
    && (forall x :: x in hold <==> x in inputs && FirstEncrypted(bindings, encrypted, x).Some?)
    && (forall x :: x in hold ==> HeldFor(cts, encrypted, hold, bindings, x))
  }

  ghost predicate HeldFor(
    cts: map<Entity, Handle>, encrypted: set<Entity>, hold: map<Id, Handle>, bindings: seq<(Id, Entity)>, x: Id)
    requires x in hold
  {
    var e := FirstEncrypted(bindings, encrypted, x);
    e.Some? && e.value in cts && hold[x] == cts[e.value]
  }

  /** Some input would be provisioned from a ciphertext of another backend. */
  ghost predicate TakesForeign(
    inputs: seq<Id>, bindings: seq<(Id, Entity)>, encrypted: set<Entity>, foreign: set<Entity>)
  {
    exists x :: x in inputs && FromForeign(bindings, encrypted, foreign, x)
  }

  ghost predicate FromForeign(bindings: seq<(Id, Entity)>, encrypted: set<Entity>, foreign: set<Entity>, x: Id) {
    FirstEncrypted(bindings, encrypted, x).Some? && FirstEncrypted(bindings, encrypted, x).value in foreign
  }

  /** Some input is bound to no encrypted entity. */
  ghost predicate MissesEncryption(inputs: seq<Id>, bindings: seq<(Id, Entity)>, encrypted: set<Entity>) {
    exists x :: x in inputs && FirstEncrypted(bindings, encrypted, x).None?
  }

  /** The kernel table can run every recorded operation. */
  ghost predicate TableRuns(registered: set<Opcode>, scalars: map<Entity, int>, ops: seq<Operation>) {
    forall i :: 0 <= i < |ops| && OpcodeFor(scalars, ops[i]).Some? ==>
      Dispatchable(registered, OpcodeFor(scalars, ops[i]).value)
  }

  /** A lowered program runs exactly when the table has the kernels its operations need. */
  lemma {:induction false} LoweredRuns<V>(
      ops: seq<Operation>, scalars: map<Entity, int>, nodes: seq<Node>, roots: seq<nat>, st: Lowered, p: Program,
      registered: set<Opcode>, ks: Kernels<V>, inputs: map<Id, V>)
    requires IsGraphOf(ops, scalars, nodes, roots)
    requires LoweredTo(nodes, scalars, roots, st) && p.insts == st.insts
    ensures Runs(registered, ks, p, inputs, |p.insts|) <==> TableRuns(registered, scalars, ops)
  {
    hide *;
    forall op { OpcodesAreOperations(ops, scalars, nodes, roots, st, op); }
    NeedsSupported(ops, scalars, nodes, roots);
    RunsIff(registered, ks, p, inputs, scalars, ops);
  }

  lemma NeedsSupported(ops: seq<Operation>, scalars: map<Entity, int>, nodes: seq<Node>, roots: seq<nat>)
    requires IsGraphOf(ops, scalars, nodes, roots)
    ensures forall i :: 0 <= i < |ops| ==> OpcodeFor(scalars, ops[i]) != Some(MAD)
  {
    hide IsGraphOf;
    forall i | 0 <= i < |ops| ensures OpcodeFor(scalars, ops[i]) != Some(MAD) {
      RecordAt(ops, scalars, nodes, roots, i);
    }
  }

  lemma {:induction false} RunsIff<V>(
      registered: set<Opcode>, ks: Kernels<V>, p: Program, inputs: map<Id, V>, scalars: map<Entity, int>,
      ops: seq<Operation>)
    requires forall op :: Needs(p.insts, op) <==> exists i :: 0 <= i < |ops| && OpcodeFor(scalars, ops[i]) == Some(op)
    requires forall i :: 0 <= i < |ops| ==> OpcodeFor(scalars, ops[i]) != Some(MAD)
    ensures Runs(registered, ks, p, inputs, |p.insts|) <==> TableRuns(registered, scalars, ops)
  {
    hide Dispatched; hide Dispatchable; hide EffectiveAll; hide Eval; hide OpcodeFor;
    forall i | 0 <= i < |p.insts|
      ensures RunsHere(registered, ks, p, inputs, i) <==> Dispatchable(registered, p.insts[i].opcode)
    {
      var inst := p.insts[i];
      assert Needs(p.insts, inst.opcode);
      DispatchedIff(registered, ks(inst.resultId), inst.opcode,
        OperandValues(inst, Eval(EffectiveAll(registered, ks), p, inputs, i)), inst.param, inst.scalar);
    }
    if TableRuns(registered, scalars, ops) {
      forall i | 0 <= i < |p.insts| ensures RunsHere(registered, ks, p, inputs, i) {
        assert Needs(p.insts, p.insts[i].opcode);
      }
    }
    if Runs(registered, ks, p, inputs, |p.insts|) {
      forall i | 0 <= i < |ops| && OpcodeFor(scalars, ops[i]).Some?
        ensures Dispatchable(registered, OpcodeFor(scalars, ops[i]).value)
      {
        assert Needs(p.insts, OpcodeFor(scalars, ops[i]).value);
        var j :| 0 <= j < |p.insts| && p.insts[j].opcode == OpcodeFor(scalars, ops[i]).value;
        assert RunsHere(registered, ks, p, inputs, j);
      }
    }
  }

  /** The values the entities' ciphertexts hold. */
  ghost function StoreOf<V>(cts: map<Entity, Handle>, heap: map<Handle, Buffer<V>>, blank: V): Entity -> V {
    (e: Entity) => if e in cts && cts[e] in heap then heap[cts[e]].value else blank
  }

  /** The plan a session asks for: Belady, slots, no budget, everything it must keep pinned. */
  function SessionConfig(p: Program, pinned: set<Id>): Config {
    Config(p, pinned, 0, Belady, Slots)
  }

  /** The write-back: every bound entity takes the buffer of its last id. */
  ghost predicate WrittenBack(
    cts: map<Entity, Handle>, latest: map<Entity, Id>, table: map<Id, Handle>, after: map<Entity, Handle>)
  {
    && after.Keys == cts.Keys + latest.Keys
    && (forall e :: e in latest ==> e in after && latest[e] in table && after[e] == table[latest[e]])
    && (forall e :: e in cts && e !in latest ==> e in after && after[e] == cts[e])
  }

  ghost predicate IsLatest(bindings: seq<(Id, Entity)>, latest: map<Entity, Id>) {
    && (forall e :: e in latest <==> Latest(bindings, e).Some?)
    && (forall e :: e in latest ==> Latest(bindings, e) == Some(latest[e]))
  }

  /** Lowered programs always plan: nothing a recorded list lowers to is rejected without a budget. */
  lemma {:induction false} LoweredPlans(
      ops: seq<Operation>, scalars: map<Entity, int>, nodes: seq<Node>, roots: seq<nat>, st: Lowered, p: Program,
      pinned: set<Id>, policy: Policy)
    requires IsGraphOf(ops, scalars, nodes, roots)
    requires LoweredTo(nodes, scalars, roots, st) && p.insts == st.insts && p.inputs == st.inputs
    ensures Valid(p) && Analysis(p, pinned, 0, policy, None).Some?
  {
    hide *;
    LoweredIsValid(ops, scalars, nodes, roots, st, p);
    ValidPlans(p, pinned, policy);
  }

  lemma ValidPlans(p: Program, pinned: set<Id>, policy: Policy)
    requires Valid(p)
    ensures Analysis(p, pinned, 0, policy, None).Some?
    ensures Analysis(p, pinned, 0, policy, None) == PlanOf(Config(p, pinned, 0, policy, Slots))
  {
    hide PlanOf; hide Valid;
    PlannedExactlyWhenFeasible(p, pinned, 0, policy, None);
  }

  /** Encrypted entities have a live buffer, on the device when there is only one memory space. */
  ghost predicate EntitiesLive<V>(cts: map<Entity, Handle>, moves: bool, heap: map<Handle, Buffer<V>>) {
    forall e :: e in cts ==> cts[e] in heap && (moves || heap[cts[e]].place == Device)
  }

  /** Entities may share buffers: what the session hands over is still a legal table, since every input is
      pinned and nothing is evicted. */
  lemma {:induction false} HeldIsSupplied<V>(
      p: Program, pinned: set<Id>, moves: bool, heap: map<Handle, Buffer<V>>, cts: map<Entity, Handle>,
      encrypted: set<Entity>, bindings: seq<(Id, Entity)>, hold: map<Id, Handle>)
    requires EntitiesLive(cts, moves, heap) && Held(cts, encrypted, hold, p.inputs, bindings)
    requires SetOf(p.inputs) <= pinned && forall x :: x in p.inputs ==> x in hold
    ensures Supplied(SessionConfig(p, pinned), moves, heap, hold)
  {
    forall x | x in hold ensures hold[x] in heap && (moves || heap[hold[x]].place == Device) {
      assert HeldFor(cts, encrypted, hold, bindings, x);
    }
  }

  /** When every entity read is encrypted, the inputs hold what the entities do. */
  lemma {:induction false} HeldFromSources<V>(
      st: Lowered, heap: map<Handle, Buffer<V>>, cts: map<Entity, Handle>, encrypted: set<Entity>,
      hold: map<Id, Handle>, blank: V)
    requires Held(cts, encrypted, hold, st.inputs, st.bindings) && (forall x :: x in st.inputs ==> x in hold)
    requires forall x :: x in hold ==> hold[x] in heap
    requires SourcesEncrypted(st, encrypted)
    ensures InputsFrom(st, StoreOf(cts, heap, blank), InputValues(heap, hold))
  {
    forall x | x in st.inputs && SourceOf(st.bindings, x).Some?
      ensures InputValues(heap, hold)[x] == StoreOf(cts, heap, blank)(SourceOf(st.bindings, x).value)
    {
      FirstEncryptedIsSource(st.bindings, encrypted, x);
      assert HeldFor(cts, encrypted, hold, st.bindings, x);
    }
    hide SourceOf; hide FirstEncrypted; hide HeldFor;
  }

  ghost predicate SourcesEncrypted(st: Lowered, encrypted: set<Entity>) {
    forall x :: x in st.inputs && SourceOf(st.bindings, x).Some? ==> SourceOf(st.bindings, x).value in encrypted
  }

  lemma {:induction false} LatestIsBound(bindings: seq<(Id, Entity)>, e: Entity)
    ensures Latest(bindings, e).Some? ==>
      exists i :: 0 <= i < |bindings| && bindings[i].0 == Latest(bindings, e).value
  {
    if bindings != [] && bindings[|bindings| - 1].1 != e {
      LatestIsBound(bindings[..|bindings| - 1], e);
    }
  }

  /** After a successful run every write-back id is an input or a live buffer of its own, and the plan's
      surviving allocations are exactly the write-back ids that are not inputs. */
  lemma {:induction false} WriteBackIdsLive<V>(
      p: Program, pinned: set<Id>, ks: Kernels<V>, moves: bool, heap0: map<Handle, Buffer<V>>,
      table0: map<Id, Handle>, heap: map<Handle, Buffer<V>>, table: map<Id, Handle>, bindings: seq<(Id, Entity)>,
      latest: map<Entity, Id>)
    requires table0.Keys == SetOf(p.inputs) && forall x :: x in table0 ==> table0[x] in heap0
    requires Finished(SessionConfig(p, pinned), ks, moves, heap0, table0, heap, table)
    requires forall i :: 0 <= i < |bindings| ==> bindings[i].0 in Defs(p)
    requires IsLatest(bindings, latest) && pinned == SetOf(p.inputs) + latest.Values
    ensures SetOf(p.inputs) + latest.Values == table.Keys
    ensures forall x :: x in p.inputs ==> x in table0 && x in table && table[x] == table0[x]
    ensures forall x :: x in table ==> table[x] in heap && (moves || heap[table[x]].place == Device)
    ensures heap.Keys == heap0.Keys + HandlesOf(table, latest.Values - SetOf(p.inputs))
    ensures forall x, y :: x in table && y in table && x != y && table[x] == table[y] ==> x in p.inputs && y in p.inputs
    ensures forall h :: h in heap0 && h !in table0.Values ==> h in heap && heap[h] == heap0[h]
  {
    hide Latest; hide Defs; hide SetOf; hide Eval; hide HandlesOf; hide IsLatest; hide Sharing; hide InputValues;
    LatestDefined(p, bindings, latest);
    InputsDefined(p);
    NoHandles(table0);
    var inputs := SetOf(p.inputs);
    assert Defs(p) * pinned == pinned;
    assert table.Keys == pinned;
    assert inputs - table.Keys == {} && table.Keys - inputs == latest.Values - inputs;
    SharedAreInputs(SessionConfig(p, pinned), table);
    InputHas(p.inputs);
  }

  lemma InputHas(s: seq<Id>)
    ensures forall x :: x in s <==> x in SetOf(s)
  {
  }

  lemma SharedAreInputs(c: Config, table: map<Id, Handle>)
    requires Sharing(c, table)
    ensures forall x, y :: x in table && y in table && x != y && table[x] == table[y] ==>
      x in c.p.inputs && y in c.p.inputs
  {
  }

  lemma {:induction false} LatestDefined(p: Program, bindings: seq<(Id, Entity)>, latest: map<Entity, Id>)
    requires IsLatest(bindings, latest) && forall i :: 0 <= i < |bindings| ==> bindings[i].0 in Defs(p)
    ensures latest.Values <= Defs(p)
  {
    hide Defs; hide Latest;
    forall e | e in latest ensures latest[e] in Defs(p) {
      LatestIsBound(bindings, e);
    }
  }

  lemma NoHandles(table: map<Id, Handle>)
    ensures HandlesOf(table, {}) == {}
  {
  }

  lemma InputsDefined(p: Program)
    ensures SetOf(p.inputs) <= Defs(p) && (p.insts == [] ==> Defs(p) == SetOf(p.inputs))
  {
  }

  /** What a run of the lowered program leaves in the entities: each that is bound holds the program's value at its
      last id, and the others hold what they did. */
  ghost predicate HoldsRun<V>(
    ks: Kernels<V>, st: Lowered, store: Entity -> V, p: Program, inputs: map<Id, V>, cts: map<Entity, Handle>,
    heap: map<Handle, Buffer<V>>)
  {
    && p.insts == st.insts && p.inputs == st.inputs && InputsFrom(st, store, inputs)
    && forall e :: e in cts ==> HoldsResult(ks, st, store, p, inputs, cts, heap, e)
  }

  ghost predicate HoldsResult<V>(
    ks: Kernels<V>, st: Lowered, store: Entity -> V, p: Program, inputs: map<Id, V>, cts: map<Entity, Handle>,
    heap: map<Handle, Buffer<V>>, e: Entity)
    requires e in cts
  {
    var vals := Eval(ks, p, inputs, |p.insts|);
    && cts[e] in heap
    && match Latest(st.bindings, e)
       case Some(id) => id in vals && heap[cts[e]].value == vals[id]
       case None => heap[cts[e]].value == store(e)
  }

  ghost predicate RunDelivered<V(!new)>(
    ks: Kernels<V>, st: Lowered, store: Entity -> V, cts: map<Entity, Handle>, heap: map<Handle, Buffer<V>>)
  {
    exists p, inputs :: HoldsRun(ks, st, store, p, inputs, cts, heap)
  }

  /** An entity bound by the program takes the value at its last id. */
  lemma {:induction false} BoundHolds<V(!new)>(
      st: Lowered, p: Program, pinned: set<Id>, ks: Kernels<V>, moves: bool, store: Entity -> V,
      cts: map<Entity, Handle>, heap0: map<Handle, Buffer<V>>, table0: map<Id, Handle>, heap: map<Handle, Buffer<V>>,
      table: map<Id, Handle>, e: Entity, id: Id)
    requires forall x :: x in table0 ==> table0[x] in heap0
    requires Finished(SessionConfig(p, pinned), ks, moves, heap0, table0, heap, table)
    requires Latest(st.bindings, e) == Some(id) && id in table && e in cts && cts[e] == table[id]
    ensures HoldsResult(ks, st, store, p, InputValues(heap0, table0), cts, heap, e)
  {
    hide Eval; hide InputValues; hide Sharing; hide HandlesOf; hide SetOf; hide Defs; hide Latest;
  }

  /** An entity the program does not bind keeps its value, even if an input shares its buffer. */
  lemma {:induction false} UnboundHolds<V(!new)>(
      st: Lowered, p: Program, pinned: set<Id>, ks: Kernels<V>, moves: bool, store: Entity -> V,
      cts: map<Entity, Handle>, heap0: map<Handle, Buffer<V>>, table0: map<Id, Handle>, heap: map<Handle, Buffer<V>>,
      table: map<Id, Handle>, e: Entity)
    requires Valid(p) && table0.Keys == SetOf(p.inputs) && forall x :: x in table0 ==> table0[x] in heap0
    requires Finished(SessionConfig(p, pinned), ks, moves, heap0, table0, heap, table)
    requires forall x :: x in table0 ==> x in table && table[x] == table0[x]
    requires Latest(st.bindings, e) == None && e in cts && cts[e] in heap0 && heap0[cts[e]].value == store(e)
    ensures HoldsResult(ks, st, store, p, InputValues(heap0, table0), cts, heap, e)
  {
    hide Eval; hide Sharing; hide HandlesOf; hide SetOf; hide Defs; hide Valid; hide Latest; hide DefinedBefore;
    if cts[e] in table0.Values {
      var x :| x in table0 && table0[x] == cts[e];
      InputHas(p.inputs);
      InputsComeFirst(p);
      EvalStart(ks, p, InputValues(heap0, table0));
      EvalKeeps(ks, p, InputValues(heap0, table0), 0, |p.insts|, x);
    }
  }

  /** Every encrypted entity holds, in a live buffer, what running the recorded list leaves in it. */
  ghost predicate Delivered<V>(
    k: Kernel<V>, scalars: map<Entity, int>, ops: seq<Operation>, store: Entity -> V, cts: map<Entity, Handle>,
    heap: map<Handle, Buffer<V>>)
  {
    forall e :: e in cts ==> cts[e] in heap && heap[cts[e]].value == ValueAfter(k, scalars, ops, store, |ops|, e)
  }

  lemma {:induction false} BindOne(
      cts: map<Entity, Handle>, bound: map<Entity, Id>, table: map<Id, Handle>, after: map<Entity, Handle>, e: Entity,
      id: Id)
    requires WrittenBack(cts, bound, table, after) && e !in bound && id in table
    ensures WrittenBack(cts, bound[e := id], table, after[e := table[id]])
    ensures bound[e := id].Values == bound.Values + {id}
  {
    ValuesGrow(bound, e, id);
    hide IsLatest;
  }

  /** Binding one more of the remaining entities. */
  lemma {:induction false} BindNext(latest: map<Entity, Id>, rest: set<Entity>, e: Entity, held: set<Id>)
    requires e in rest && rest <= latest.Keys
    ensures e !in latest - rest && (latest - rest)[e := latest[e]] == latest - (rest - {e})
    ensures (latest - (rest - {e})).Keys == (latest - rest).Keys + {e}
    ensures (latest - (rest - {e})).Values - held == (latest - rest).Values - held + ({latest[e]} - held)
  {
    ValuesGrow(latest - rest, e, latest[e]);
    assert (latest - rest)[e := latest[e]] == latest - (rest - {e});
  }

  lemma {:induction false} ValuesGrow(bound: map<Entity, Id>, e: Entity, id: Id)
    requires e !in bound
    ensures bound[e := id].Values == bound.Values + {id}
  {
    var more := bound[e := id];
    assert more[e] == id;
    forall v | v in bound.Values ensures v in more.Values {
      var x :| x in bound && bound[x] == v;
      assert x in more && more[x] == v;
    }
    forall v | v in more.Values ensures v in bound.Values + {id} {
      var x :| x in more && more[x] == v;
      assert x != e ==> x in bound && bound[x] == v;
    }
  }

  /** The plan-allocated buffers wrapped so far, one owner each. */
  ghost predicate Adopted(table: map<Id, Handle>, adopted: map<Id, Handle>, wrapped: seq<Id>) {
    && (forall x :: x in adopted ==> x in table && adopted[x] == table[x])
    && NoDup(wrapped)
    && SetOf(wrapped) == adopted.Keys
  }

  lemma AdoptedOnce(table: map<Id, Handle>, adopted: map<Id, Handle>, wrapped: seq<Id>)
    requires Adopted(table, adopted, wrapped)
    ensures NoDup(wrapped) && SetOf(wrapped) == adopted.Keys
  {
  }

  lemma NothingAdopted(cts: map<Entity, Handle>, table: map<Id, Handle>)
    ensures Adopted(table, map[], []) && WrittenBack(cts, map[], table, cts)
  {
  }

  /** Scalar kernels that read one operand deliver the values of the list with its scalars folded; if they also
      agree with the ciphertext kernels, those are the values of the list as recorded. */
  ghost predicate DeliveredIfScalars<V(!new)>(
    k: Kernel<V>, ops: seq<Operation>, scalars: map<Entity, int>, store: Entity -> V, cts: map<Entity, Handle>,
    heap: map<Handle, Buffer<V>>)
  {
    && (ScalarsUnary(k) ==> Delivered(k, scalars, ops, store, cts, heap))
    && (ScalarsUnary(k) && ScalarKernels(k, scalars, store) ==> Delivered(k, map[], ops, store, cts, heap))
  }

  lemma HeldMeans(
      cts: map<Entity, Handle>, encrypted: set<Entity>, hold: map<Id, Handle>, inputs: seq<Id>,
      bindings: seq<(Id, Entity)>)
    requires Held(cts, encrypted, hold, inputs, bindings)
    ensures hold.Keys <= SetOf(inputs)
    ensures (forall x :: x in inputs ==> x in hold) ==> hold.Keys == SetOf(inputs)
    ensures (forall x :: x in inputs ==> x in hold) <==> !MissesEncryption(inputs, bindings, encrypted)
  {
    hide FirstEncrypted;
  }

  lemma NothingBound(scalars: map<Entity, int>, nodes: seq<Node>, roots: seq<nat>, st: Lowered)
    requires LoweredTo(nodes, scalars, roots, st) && roots == []
    ensures st.bindings == []
  {
  }

  /** Every recorded list lowers whole. */
  lemma {:induction false} LowersWhole(
      ops: seq<Operation>, scalars: map<Entity, int>, nodes: seq<Node>, roots: seq<nat>)
    requires IsGraphOf(ops, scalars, nodes, roots)
    ensures WellFormed(nodes) && |roots| == |ops|
    ensures forall i :: 0 <= i < |roots| ==> roots[i] < |nodes| && Expressible(nodes, scalars, roots[i])
  {
    hide *;
    GraphShape(ops, scalars, nodes, roots);
    forall i | 0 <= i < |roots| ensures roots[i] < |nodes| && Expressible(nodes, scalars, roots[i]) {
      RootExpressible(ops, scalars, scalars, nodes, roots, i);
    }
  }

  /** Exactly the entities that were encrypted, and those the program binds, are; and the latter by the session's
      backend. */
  ghost predicate IsBackedBy(
    bindings: seq<(Id, Entity)>, cts0: map<Entity, Handle>, foreign0: set<Entity>, cts: map<Entity, Handle>,
    foreign: set<Entity>)
  {
    && (forall e :: e in cts <==> e in cts0 || Latest(bindings, e).Some?)
    && (forall e :: e in foreign <==> e in foreign0 && Latest(bindings, e).None?)
  }

  lemma LatestMeans(
      bindings: seq<(Id, Entity)>, latest: map<Entity, Id>, cts0: map<Entity, Handle>, foreign0: set<Entity>)
    requires IsLatest(bindings, latest)
    ensures forall cts: map<Entity, Handle>, foreign ::
      cts.Keys == cts0.Keys + latest.Keys && foreign == foreign0 - latest.Keys ==>
        IsBackedBy(bindings, cts0, foreign0, cts, foreign)
  {
    hide Latest;
  }

  lemma ConfigIs(p: Program, pinned: set<Id>)
    ensures SessionConfig(p, pinned) == Config(p, pinned, 0, Belady, Slots)
  {
  }

  /** No buffer came or went, and every entity's buffer holds what it did, where kernels can reach it. */
  ghost predicate Unharmed<V>(
    cts: map<Entity, Handle>, moves: bool, heap0: map<Handle, Buffer<V>>, heap: map<Handle, Buffer<V>>)
  {
    && heap.Keys == heap0.Keys
    && (forall e :: e in cts ==> SameValue(heap0, heap, cts[e]))
    && EntitiesLive(cts, moves, heap)
  }

  lemma UnharmedSoFar<V>(cts: map<Entity, Handle>, moves: bool, heap: map<Handle, Buffer<V>>)
    requires EntitiesLive(cts, moves, heap)
    ensures Unharmed(cts, moves, heap, heap)
  {
  }

  /** A failed run with every input pinned harms no entity. */
  lemma {:induction false} FailureHarmsNothing<V>(
      p: Program, pinned: set<Id>, moves: bool, cts: map<Entity, Handle>, heap0: map<Handle, Buffer<V>>,
      table0: map<Id, Handle>, heap: map<Handle, Buffer<V>>, table: map<Id, Handle>)
    requires CleanedUp(SessionConfig(p, pinned), heap0, table0, heap, table) && SetOf(p.inputs) <= pinned
    requires InPlace(moves, heap, table) && table0.Keys == SetOf(p.inputs) && EntitiesLive(cts, moves, heap0)
    ensures Unharmed(cts, moves, heap0, heap)
  {
    hide SetOf; hide HandlesOf;
    assert SetOf(p.inputs) - table.Keys == {};
    NoHandles(table0);
    forall e | e in cts ensures SameValue(heap0, heap, cts[e]) && (moves || heap[cts[e]].place == Device) {
      if cts[e] in table0.Values {
        var x :| x in table0 && table0[x] == cts[e];
        assert x in table && table[x] == table0[x];
      }
    }
  }

  lemma WrittenBackKeys(
      cts: map<Entity, Handle>, latest: map<Entity, Id>, table: map<Id, Handle>, after: map<Entity, Handle>)
    requires WrittenBack(cts, latest, table, after)
    ensures after.Keys == cts.Keys + latest.Keys
  {
  }

  /** What a successful run and the write-back leave in the entities is live. */
  lemma {:induction false} WrittenBackLive<V>(
      moves: bool, cts: map<Entity, Handle>, heap0: map<Handle, Buffer<V>>, table0: map<Id, Handle>,
      heap: map<Handle, Buffer<V>>, table: map<Id, Handle>, latest: map<Entity, Id>, after: map<Entity, Handle>)
    requires EntitiesLive(cts, moves, heap0) && WrittenBack(cts, latest, table, after)
    requires forall x :: x in table0 ==> x in table && table[x] == table0[x]
    requires forall x :: x in table ==> table[x] in heap && (moves || heap[table[x]].place == Device)
    requires heap0.Keys <= heap.Keys && forall h :: h in heap0 && h !in table0.Values ==> heap[h] == heap0[h]
    ensures EntitiesLive(after, moves, heap)
  {
    forall e | e in after ensures after[e] in heap && (moves || heap[after[e]].place == Device) {
      if e !in latest && after[e] in table0.Values {
        var x :| x in table0 && table0[x] == after[e];
      }
    }
  }

  /** After the write-back every entity holds what the run left. */
  lemma {:induction false} AllHold<V(!new)>(
      st: Lowered, p: Program, pinned: set<Id>, ks: Kernels<V>, moves: bool, blank: V, cts: map<Entity, Handle>,
      encrypted: set<Entity>, heap0: map<Handle, Buffer<V>>, table0: map<Id, Handle>, heap: map<Handle, Buffer<V>>,
      table: map<Id, Handle>, latest: map<Entity, Id>, after: map<Entity, Handle>)
    requires Valid(p) && p.insts == st.insts && p.inputs == st.inputs
    requires EntitiesLive(cts, moves, heap0) && Held(cts, encrypted, table0, p.inputs, st.bindings)
    requires SourcesEncrypted(st, encrypted) && table0.Keys == SetOf(p.inputs)
    requires (forall x :: x in p.inputs ==> x in table0) && (forall x :: x in table0 ==> table0[x] in heap0)
    requires Finished(SessionConfig(p, pinned), ks, moves, heap0, table0, heap, table)
    requires forall x :: x in table0 ==> x in table && table[x] == table0[x]
    requires IsLatest(st.bindings, latest) && WrittenBack(cts, latest, table, after)
    ensures RunDelivered(ks, st, StoreOf(cts, heap0, blank), after, heap)
  {
    hide Held; hide SourcesEncrypted; hide Finished; hide SetOf; hide Latest; hide HoldsResult; hide InputsFrom;
    hide Valid; hide InputValues;
    var store, inputs := StoreOf(cts, heap0, blank), InputValues(heap0, table0);
    HeldFromSources(st, heap0, cts, encrypted, table0, blank);
    forall e | e in after ensures HoldsResult(ks, st, store, p, inputs, after, heap, e) {
      if e in latest {
        BoundHolds(st, p, pinned, ks, moves, store, after, heap0, table0, heap, table, e, latest[e]);
      } else {
        UnboundHolds(st, p, pinned, ks, moves, store, after, heap0, table0, heap, table, e);
      }
    }
    assert HoldsRun(ks, st, store, p, inputs, after, heap);
  }

  /** A run with one kernel leaves the values of running the list. */
  lemma {:induction false} RunIsSequential<V(!new)>(
      registered: set<Opcode>, k: Kernel<V>, ops: seq<Operation>, scalars: map<Entity, int>, nodes: seq<Node>,
      roots: seq<nat>, st: Lowered, store: Entity -> V, cts: map<Entity, Handle>, heap: map<Handle, Buffer<V>>)
    requires IsGraphOf(ops, scalars, nodes, roots) && LoweredTo(nodes, scalars, roots, st)
    requires ScalarsConstant(ops, scalars)
    requires RunDelivered(EffectiveAll(registered, Always(k)), st, store, cts, heap)
    ensures DeliveredIfScalars(Effective(registered, k), ops, scalars, store, cts, heap)
  {
    hide *;
    var ks, one := EffectiveAll(registered, Always(k)), Effective(registered, k);
    var p, inputs := RunOf(ks, st, store, cts, heap);
    OneKernel(registered, k, p, inputs, |p.insts|);
    if ScalarsUnary(one) {
      forall e | e in cts
        ensures cts[e] in heap && heap[cts[e]].value == ValueAfter(one, scalars, ops, store, |ops|, e)
      {
        CompilationPreservesMeaning(one, ops, scalars, nodes, roots, store, st, p, inputs, e);
        WritesBackMeans(one, scalars, ops, store, st.bindings, Eval(Always(one), p, inputs, |p.insts|), e);
        HoldsRunMeans(ks, st, store, p, inputs, cts, heap, e);
      }
      DeliveredMeans(one, scalars, ops, store, cts, heap);
      if ScalarKernels(one, scalars, store) {
        forall e { FoldingIsPlain(one, scalars, ops, store, |ops|, e); }
        DeliveredMeans(one, map[], ops, store, cts, heap);
      }
    }
    DeliveredIfScalarsMeans(one, ops, scalars, store, cts, heap);
  }

  lemma RunOf<V(!new)>(
      ks: Kernels<V>, st: Lowered, store: Entity -> V, cts: map<Entity, Handle>, heap: map<Handle, Buffer<V>>)
    returns (p: Program, inputs: map<Id, V>)
    requires RunDelivered(ks, st, store, cts, heap)
    ensures HoldsRun(ks, st, store, p, inputs, cts, heap)
    ensures p.insts == st.insts && p.inputs == st.inputs && InputsFrom(st, store, inputs)
  {
    hide HoldsResult; hide InputsFrom;
    p, inputs :| HoldsRun(ks, st, store, p, inputs, cts, heap);
  }

  lemma HoldsRunMeans<V>(
      ks: Kernels<V>, st: Lowered, store: Entity -> V, p: Program, inputs: map<Id, V>, cts: map<Entity, Handle>,
      heap: map<Handle, Buffer<V>>, e: Entity)
    requires HoldsRun(ks, st, store, p, inputs, cts, heap) && e in cts
    ensures cts[e] in heap
    ensures match Latest(st.bindings, e)
      case Some(id) => id in Eval(ks, p, inputs, |p.insts|) &&
        heap[cts[e]].value == Eval(ks, p, inputs, |p.insts|)[id]
      case None => heap[cts[e]].value == store(e)
  {
    hide Eval; hide Latest; hide InputsFrom;
    assert HoldsResult(ks, st, store, p, inputs, cts, heap, e);
  }

  lemma DeliveredMeans<V>(
      k: Kernel<V>, scalars: map<Entity, int>, ops: seq<Operation>, store: Entity -> V, cts: map<Entity, Handle>,
      heap: map<Handle, Buffer<V>>)
    ensures Delivered(k, scalars, ops, store, cts, heap) <==>
      forall e :: e in cts ==> cts[e] in heap && heap[cts[e]].value == ValueAfter(k, scalars, ops, store, |ops|, e)
  {
    hide ValueAfter;
  }

  lemma DeliveredIfScalarsMeans<V(!new)>(
      k: Kernel<V>, ops: seq<Operation>, scalars: map<Entity, int>, store: Entity -> V, cts: map<Entity, Handle>,
      heap: map<Handle, Buffer<V>>)
    requires ScalarsUnary(k) ==> Delivered(k, scalars, ops, store, cts, heap)
    requires ScalarsUnary(k) && ScalarKernels(k, scalars, store) ==> Delivered(k, map[], ops, store, cts, heap)
    ensures DeliveredIfScalars(k, ops, scalars, store, cts, heap)
  {
    hide ScalarsUnary; hide ScalarKernels; hide Delivered;
  }

  /** Every entity read before it is written is encrypted. */
  ghost predicate ReadsEncrypted(ops: seq<Operation>, scalars: map<Entity, int>, encrypted: set<Entity>) {
    forall e :: ReadInitially(ops, scalars, e) ==> e in encrypted
  }

  lemma {:induction false} ReadsAreSources(
      ops: seq<Operation>, scalars: map<Entity, int>, nodes: seq<Node>, roots: seq<nat>, st: Lowered,
      encrypted: set<Entity>)
    requires IsGraphOf(ops, scalars, nodes, roots) && LoweredTo(nodes, scalars, roots, st)
    requires ReadsEncrypted(ops, scalars, encrypted)
    ensures SourcesEncrypted(st, encrypted) && !MissesEncryption(st.inputs, st.bindings, encrypted)
  {
    hide IsGraphOf; hide LoweredTo; hide ReadInitially; hide SourceOf; hide FirstEncrypted; hide Valid; hide Defs;
    LoweredIsValid(ops, scalars, nodes, roots, st, Program(st.insts, st.inputs, []));
    forall x | x in st.inputs ensures FirstEncrypted(st.bindings, encrypted, x).Some? {
      FirstEncryptedIsSource(st.bindings, encrypted, x);
    }
  }

  /** Then a ciphertext of another backend is taken exactly when one is read. */
  lemma {:induction false} ForeignReads(
      ops: seq<Operation>, scalars: map<Entity, int>, nodes: seq<Node>, roots: seq<nat>, st: Lowered,
      encrypted: set<Entity>, foreign: set<Entity>)
    requires IsGraphOf(ops, scalars, nodes, roots) && LoweredTo(nodes, scalars, roots, st)
    requires ReadsEncrypted(ops, scalars, encrypted)
    ensures TakesForeign(st.inputs, st.bindings, encrypted, foreign) <==>
      exists e :: e in foreign && ReadInitially(ops, scalars, e)
  {
    hide IsGraphOf; hide LoweredTo; hide ReadsInitial; hide SourceOf; hide FirstEncrypted; hide Valid; hide Defs;
    LoweredIsValid(ops, scalars, nodes, roots, st, Program(st.insts, st.inputs, []));
    forall x { FirstEncryptedIsSource(st.bindings, encrypted, x); }
    if e :| e in foreign && ReadInitially(ops, scalars, e) {
      var i :| 0 <= i < |ops| && ReadsInitial(ops, scalars, i, e);
      var x := ReadsAreInputs(ops, scalars, nodes, roots, st, i, e);
      assert FromForeign(st.bindings, encrypted, foreign, x);
    }
  }

  /** What an operation list lowers to. */
  ghost predicate LoweredFrom(ops: seq<Operation>, scalars: map<Entity, int>, st: Lowered) {
    exists nodes, roots :: IsGraphOf(ops, scalars, nodes, roots) && LoweredTo(nodes, scalars, roots, st)
  }

  lemma LoweredFromGraph(
      ops: seq<Operation>, scalars: map<Entity, int>, nodes: seq<Node>, roots: seq<nat>, st: Lowered)
    requires IsGraphOf(ops, scalars, nodes, roots) && LoweredTo(nodes, scalars, roots, st)
    ensures LoweredFrom(ops, scalars, st)
  {
    hide IsGraphOf; hide LoweredTo;
  }

  ghost predicate AllSupported(ops: seq<Operation>) {
    forall i :: 0 <= i < |ops| ==> Supported(ops[i])
  }

  lemma SupportedMeans(ops: seq<Operation>)
    ensures AllSupported(ops) <==> forall i :: 0 <= i < |ops| ==> ops[i].kind in {Add, Multiply, Assignment}
  {
  }

  lemma ReadsAreEncrypted(ops: seq<Operation>, scalars: map<Entity, int>, encrypted: set<Entity>)
    requires ReadsEncrypted(ops, scalars, encrypted)
    ensures forall e :: ReadInitially(ops, scalars, e) ==> e in encrypted
  {
    hide ReadInitially;
  }

  lemma NothingToLower(
      scalars: map<Entity, int>, encrypted: set<Entity>, foreign: set<Entity>, registered: set<Opcode>)
    returns (st: Lowered)
    ensures AllSupported([]) && LoweredFrom([], scalars, st) && TableRuns(registered, scalars, [])
    ensures !TakesForeign(st.inputs, st.bindings, encrypted, foreign)
    ensures !MissesEncryption(st.inputs, st.bindings, encrypted)
    ensures st == Lowered([], [], 1, map[], []) && IsGraphOf([], scalars, [], []) && LoweredTo([], scalars, [], st)
    ensures forall e :: !ReadInitially([], scalars, e)
  {
    st := Lowered([], [], 1, map[], []);
    assert IsGraphOf([], scalars, [], []) && LoweredTo([], scalars, [], st);
  }

  /** The first encrypted entity of a prefix of the bindings stays the first. */
  lemma {:induction false} FirstStays(bindings: seq<(Id, Entity)>, encrypted: set<Entity>, id: Id, i: nat)
    requires i <= |bindings| && FirstEncrypted(bindings[..i], encrypted, id).Some?
    ensures FirstEncrypted(bindings, encrypted, id) == FirstEncrypted(bindings[..i], encrypted, id)
    decreases |bindings|
  {
    if i == |bindings| {
      assert bindings[..i] == bindings;
    } else {
      assert bindings[..|bindings| - 1][..i] == bindings[..i];
      FirstStays(bindings[..|bindings| - 1], encrypted, id, i);
    }
  }

  /** Provisioning is right exactly when every entity read before it is written is encrypted. */
  lemma {:induction false} ProvisioningIsRightIff(
      ops: seq<Operation>, scalars: map<Entity, int>, nodes: seq<Node>, roots: seq<nat>, st: Lowered,
      encrypted: set<Entity>)
    requires IsGraphOf(ops, scalars, nodes, roots) && LoweredTo(nodes, scalars, roots, st)
    ensures (forall x :: x in st.inputs ==> FirstEncrypted(st.bindings, encrypted, x) == SourceOf(st.bindings, x))
      <==> ReadsEncrypted(ops, scalars, encrypted)
  {
    hide IsGraphOf; hide LoweredTo; hide ReadsInitial; hide SourceOf; hide FirstEncrypted; hide Valid; hide Defs;
    LoweredIsValid(ops, scalars, nodes, roots, st, Program(st.insts, st.inputs, []));
    forall x { FirstEncryptedIsSource(st.bindings, encrypted, x); }
    if forall x :: x in st.inputs ==> FirstEncrypted(st.bindings, encrypted, x) == SourceOf(st.bindings, x) {
      forall e | ReadInitially(ops, scalars, e) ensures e in encrypted {
        var i :| 0 <= i < |ops| && ReadsInitial(ops, scalars, i, e);
        var x := ReadsAreInputs(ops, scalars, nodes, roots, st, i, e);
      }
    }
  }

  /** Running nothing leaves everything. */
  lemma {:induction false} NothingRecorded<V(!new)>(
      ks: Kernels<V>, moves: bool, blank: V, cts: map<Entity, Handle>, heap: map<Handle, Buffer<V>>)
    requires EntitiesLive(cts, moves, heap)
    ensures RunDelivered(ks, Lowered([], [], 1, map[], []), StoreOf(cts, heap, blank), cts, heap)
  {
    var st := Lowered([], [], 1, map[], []);
    var p := Program([], [], []);
    assert SetOf<Id>([]) == {};
    assert HoldsRun(ks, st, StoreOf(cts, heap, blank), p, map[], cts, heap);
  }

  /** The entities a list writes. */
  ghost function Targets(ops: seq<Operation>): set<Entity> {
    set i | 0 <= i < |ops| :: Target(ops[i])
  }

  /** When every entity read initially is encrypted by the session's backend, the run leaves encrypted exactly what
      was, and what the list writes, the latter by the session's backend. */
  lemma {:induction false} WritesEncrypted(
      ops: seq<Operation>, scalars: map<Entity, int>, nodes: seq<Node>, roots: seq<nat>, st: Lowered,
      cts0: map<Entity, Handle>, foreign0: set<Entity>, cts: map<Entity, Handle>, foreign: set<Entity>)
    requires IsGraphOf(ops, scalars, nodes, roots) && LoweredTo(nodes, scalars, roots, st)
    requires IsBackedBy(st.bindings, cts0, foreign0, cts, foreign)
    requires forall e :: ReadInitially(ops, scalars, e) ==> e in cts0 && e !in foreign0
    ensures cts.Keys == cts0.Keys + Targets(ops) && foreign == foreign0 - Targets(ops)
  {
    hide IsGraphOf; hide LoweredTo; hide ReadInitially; hide Latest;
    forall e ensures Latest(st.bindings, e).Some? ==> e in Targets(ops) || ReadInitially(ops, scalars, e)
      ensures e in Targets(ops) ==> Latest(st.bindings, e).Some?
    {
      BoundEntities(ops, scalars, nodes, roots, st, e);
    }
  }

  lemma NothingBacked(cts: map<Entity, Handle>, foreign: set<Entity>)
    ensures IsBackedBy([], cts, foreign, cts, foreign) && Targets([]) == {}
  {
  }

  /** Every buffer that is new belongs to some entity. */
  lemma {:induction false} NewBuffersOwned(
      cts0: map<Entity, Handle>, latest: map<Entity, Id>, table: map<Id, Handle>, cts: map<Entity, Handle>,
      wrapped: set<Id>)
    requires WrittenBack(cts0, latest, table, cts) && wrapped <= latest.Values
    ensures HandlesOf(table, wrapped) <= cts.Values
  {
    forall h | h in HandlesOf(table, wrapped) ensures h in cts.Values {
      var x :| x in wrapped && x in table && table[x] == h;
      var e :| e in latest && latest[e] == x;
      assert cts[e] == h;
    }
  }

  class Session<V(!new)> {
    const rt: Runtime<V>
    /** The backend's kernel, when it does not draw samples. */
    ghost const kernel: Kernel<V>
    /** The entities encrypted by the session's backend, and their buffers. */
    var cts: map<Entity, Handle>
    /** The entities encrypted by another backend. */
    var foreign: set<Entity>

    constructor (rt: Runtime<V>, ghost kernel: Kernel<V>, cts: map<Entity, Handle>, foreign: set<Entity>)
      ensures this.rt == rt && this.kernel == kernel && this.cts == cts && this.foreign == foreign
    {
      this.rt, this.kernel, this.cts, this.foreign := rt, kernel, cts, foreign;
    }

    /** Every instruction runs the same kernel. */
    ghost predicate Deterministic() {
      rt.kernels == Always(kernel)
    }

    lemma DeterministicMeans()
      ensures Deterministic() <==> rt.kernels == Always(kernel)
    {
    }

    function Encrypted(): set<Entity>
      reads this
    {
      cts.Keys + foreign
    }

    lemma EncryptedIs()
      ensures Encrypted() == cts.Keys + foreign
    {
    }

    /** The last binding of each entity. */
    method CollectLatest(bindings: seq<(Id, Entity)>) returns (latest: map<Entity, Id>)
      ensures IsLatest(bindings, latest)
    {
      latest := map[];
      for i := 0 to |bindings|
        invariant forall e :: e in latest <==> Latest(bindings[..i], e).Some?
        invariant forall e :: e in latest ==> Latest(bindings[..i], e) == Some(latest[e])
      {
        assert bindings[..i + 1][..i] == bindings[..i];
        latest := latest[bindings[i].1 := bindings[i].0];
      }
      assert bindings[..|bindings|] == bindings;
    }

    /** The ids that must survive: the inputs and every write-back target. */
    method CollectPinned(inputs: seq<Id>, latest: map<Entity, Id>) returns (pinned: seq<Id>)
      ensures SetOf(pinned) == SetOf(inputs) + latest.Values
    {
      pinned := inputs;
      var rest := latest.Keys;
      while rest != {}
        invariant rest <= latest.Keys
        invariant SetOf(pinned) == SetOf(inputs) + set e | e in latest.Keys - rest :: latest[e]
      {
        var e :| e in rest;
        SetOfSnoc(pinned, latest[e]);
        pinned := pinned + [latest[e]];
        rest := rest - {e};
      }
    }

    /** Hands each input id the buffer of the first encrypted entity bound to it; stops if another backend owns
        that. */
    method Provision(inputs: seq<Id>, bindings: seq<(Id, Entity)>) returns (ok: bool, hold: map<Id, Handle>)
      ensures ok <==> !TakesForeign(inputs, bindings, Encrypted(), foreign)
      ensures ok ==> Held(cts, Encrypted(), hold, inputs, bindings)
    {
      hold := map[];
      for i := 0 to |bindings|
        invariant Held(cts, Encrypted(), hold, inputs, bindings[..i])
        invariant !TakesForeign(inputs, bindings[..i], Encrypted(), foreign)
      {
        assert bindings[..i + 1][..i] == bindings[..i];
        var (id, e) := bindings[i];
        if id in inputs && id !in hold {
          if e in foreign {
            FirstStays(bindings, Encrypted(), id, i + 1);
            assert FromForeign(bindings, Encrypted(), foreign, id);
            return false, hold;
          }
          if e in cts {
            hold := hold[id := cts[e]];
          }
        }
      }
      assert bindings[..|bindings|] == bindings;
      ok := true;
    }

    /** The owner of an id's buffer: an input's entity, or one wrapper per id, made on first use. */
    method AdoptId(id: Id, hold: map<Id, Handle>, adopted: map<Id, Handle>, wrapped: seq<Id>)
      returns (h: Handle, adoptedNow: map<Id, Handle>, wrappedNow: seq<Id>)
      requires id in rt.table && (id in hold ==> rt.table[id] == hold[id]) && Adopted(rt.table, adopted, wrapped)
      ensures h == rt.table[id] && Adopted(rt.table, adoptedNow, wrappedNow)
      ensures adoptedNow.Keys == adopted.Keys + ({id} - hold.Keys)
    {
      if id in hold {
        return hold[id], adopted, wrapped;
      }
      if id in adopted {
        return adopted[id], adopted, wrapped;
      }
      SetOfSnoc(wrapped, id);
      NoDupAppend(wrapped, [id]);
      return rt.table[id], adopted[id := rt.table[id]], wrapped + [id];
    }

    /** Gives every bound entity the buffer of its last id. A buffer the plan allocated is wrapped once, however
        many entities share it; an input's buffer keeps its owner. */
    method Adopt(latest: map<Entity, Id>, hold: map<Id, Handle>) returns (wrapped: seq<Id>)
      requires forall e :: e in latest ==> latest[e] in rt.table
      requires forall x :: x in hold ==> x in rt.table && rt.table[x] == hold[x]
      modifies this
      ensures WrittenBack(old(cts), latest, rt.table, cts) && foreign == old(foreign) - latest.Keys
      ensures NoDup(wrapped) && SetOf(wrapped) == latest.Values - hold.Keys
    {
      hide *;
      var adopted: map<Id, Handle> := map[];
      wrapped := [];
      NothingAdopted(cts, rt.table);
      var rest := latest.Keys;
      ghost var bound: map<Entity, Id> := map[];
      while rest != {}
        invariant rest <= latest.Keys && bound == latest - rest
        invariant Adopted(rt.table, adopted, wrapped) && adopted.Keys == bound.Values - hold.Keys
        invariant WrittenBack(old(cts), bound, rt.table, cts) && foreign == old(foreign) - bound.Keys
      {
        var e :| e in rest;
        BindNext(latest, rest, e, hold.Keys);
        var h;
        h, adopted, wrapped := AdoptId(latest[e], hold, adopted, wrapped);
        BindOne(old(cts), bound, rt.table, cts, e, latest[e]);
        cts, foreign := cts[e := h], foreign - {e};
        bound := bound[e := latest[e]];
        rest := rest - {e};
      }
      assert bound == latest;
      AdoptedOnce(rt.table, adopted, wrapped);
    }

    method LowerGraph(nodes: seq<Node>, scalars: map<Entity, int>, roots: seq<nat>, ghost ops: seq<Operation>)
      returns (p: Program, bindings: seq<(Id, Entity)>, ghost st: Lowered)
      requires IsGraphOf(ops, scalars, nodes, roots)
      ensures LoweredTo(nodes, scalars, roots, st)
      ensures p.insts == st.insts && p.inputs == st.inputs && bindings == st.bindings
      ensures Valid(p) && (bindings == [] <==> ops == [])
      ensures forall i :: 0 <= i < |bindings| ==> bindings[i].0 in Defs(p)
    {
      hide *;
      LowersWhole(ops, scalars, nodes, roots);
      var lowerer := new Lowerer(nodes, scalars);
      var lowered := lowerer.Lower(roots);
      st := lowerer.State();
      p, bindings := lowered.value, lowerer.bindings;
      StateIs(lowerer);
      LoweredIsValid(ops, scalars, nodes, roots, st, p);
      if ops == [] { NothingBound(scalars, nodes, roots, st); }
    }

    lemma StateIs(lowerer: Lowerer)
      ensures lowerer.State() == Lowered(lowerer.insts, lowerer.inputs, lowerer.nextId, lowerer.ids, lowerer.bindings)
    {
    }

    method AllHeld(inputs: seq<Id>, hold: map<Id, Handle>) returns (all: bool)
      ensures all == (forall x :: x in inputs ==> x in hold)
    {
      for i := 0 to |inputs|
        invariant forall j :: 0 <= j < i ==> inputs[j] in hold
      {
        if inputs[i] !in hold { return false; }
      }
      return true;
    }

    /** Runs the plan over the held buffers; on success adopts what survived. */
    method RunAndAdopt(
        p: Program, plan: Plan, ghost pinned: set<Id>, latest: map<Entity, Id>, hold: map<Id, Handle>,
        ghost ops: seq<Operation>, ghost scalars: map<Entity, int>, ghost nodes: seq<Node>, ghost roots: seq<nat>,
        ghost st: Lowered)
      returns (outcome: Outcome, wrapped: seq<Id>)
      requires IsGraphOf(ops, scalars, nodes, roots) && LoweredTo(nodes, scalars, roots, st)
      requires p.insts == st.insts && p.inputs == st.inputs && Valid(p)
      requires forall i :: 0 <= i < |st.bindings| ==> st.bindings[i].0 in Defs(p)
      requires IsLatest(st.bindings, latest) && pinned == SetOf(p.inputs) + latest.Values
      requires PlanOf(SessionConfig(p, pinned)) == Some(plan)
      requires EntitiesLive(cts, rt.moves, rt.heap) && Held(cts, Encrypted(), hold, p.inputs, st.bindings)
      requires hold.Keys == SetOf(p.inputs) && Supplied(SessionConfig(p, pinned), rt.moves, rt.heap, hold)
      modifies this, rt
      ensures outcome == (
        if rt.faults == old(rt.faults) && TableRuns(rt.registered, scalars, ops) then Done else ExecutorFailed)
      ensures rt.faults >= old(rt.faults) && (rt.Faultless() ==> rt.faults == old(rt.faults))
      ensures outcome != Done ==>
        cts == old(cts) && foreign == old(foreign) && Unharmed(cts, rt.moves, old(rt.heap), rt.heap)
      ensures outcome == Done ==> cts.Keys == old(cts).Keys + latest.Keys && foreign == old(foreign) - latest.Keys
      ensures outcome == Done ==> EntitiesLive(cts, rt.moves, rt.heap)
      ensures outcome == Done ==> NoDup(wrapped) && SetOf(wrapped) <= rt.table.Keys
      ensures outcome == Done ==> forall x, y :: x in wrapped && y in wrapped && x != y ==> rt.table[x] != rt.table[y]
      ensures outcome == Done ==> rt.heap.Keys == old(rt.heap).Keys + HandlesOf(rt.table, SetOf(wrapped))
      ensures outcome == Done ==> rt.heap.Keys - old(rt.heap).Keys <= cts.Values
      ensures outcome == Done && SourcesEncrypted(st, old(Encrypted())) ==>
        RunDelivered(EffectiveAll(rt.registered, rt.kernels), st, StoreOf(old(cts), old(rt.heap), rt.blank), cts,
          rt.heap)
    {
      hide *;
      ghost var c, cts0, encrypted, heap0 := SessionConfig(p, pinned), cts, Encrypted(), rt.heap;
      ConfigIs(p, pinned);
      SuppliedFacts(c, rt.moves, rt.heap, hold);
      OneActionEach(c);
      LoweredRuns(
        ops, scalars, nodes, roots, st, p, rt.registered, rt.kernels, InputValues(heap0, hold));
      rt.table := hold;
      var rc := rt.ExecutePlan(p, plan, c);
      wrapped := [];
      if rc != 0 {
        FailureHarmsNothing(p, pinned, rt.moves, cts0, heap0, hold, rt.heap, rt.table);
        return ExecutorFailed, wrapped;
      }
      ghost var ks := EffectiveAll(rt.registered, rt.kernels);
      WriteBackIdsLive(p, pinned, ks, rt.moves, heap0, hold, rt.heap, rt.table, st.bindings, latest);
      InputHas(p.inputs);
      wrapped := Adopt(latest, hold);
      InputHas(wrapped);
      WrittenBackKeys(cts0, latest, rt.table, cts);
      WrittenBackLive(rt.moves, cts0, heap0, hold, rt.heap, rt.table, latest, cts);
      NewBuffersOwned(cts0, latest, rt.table, cts, SetOf(wrapped));
      if SourcesEncrypted(st, encrypted) {
        AllHold(st, p, pinned, ks, rt.moves, rt.blank, cts0, encrypted, heap0, hold, rt.heap, rt.table, latest, cts);
      }
      outcome := Done;
    }

    /** Lowers the graph, plans it with its inputs and write-back targets pinned, hands the executor the
        encrypted entities' buffers, and writes back. Planning never fails; a run stops exactly when an input
        would be taken from another backend or some input is bound to no encrypted entity, and otherwise fails
        exactly when a hook or a kernel does or the table lacks a kernel for some operation. A run that stops or
        fails leaves every entity with its buffer and its value, and leaks nothing; after a successful one every
        surviving buffer of the plan has one owner, and, provided every entity the graph reads was encrypted, every
        bound entity holds the lowered program's value at its last id and every other what it did. */
    method ExecuteThroughFhnRuntime(
        nodes: seq<Node>, scalars: map<Entity, int>, roots: seq<nat>, ghost ops: seq<Operation>)
      returns (outcome: Outcome, ghost st: Lowered, wrapped: seq<Id>)
      requires IsGraphOf(ops, scalars, nodes, roots) && EntitiesLive(cts, rt.moves, rt.heap)
      modifies this, rt
      ensures LoweredTo(nodes, scalars, roots, st)
      ensures outcome == (
        if ops == [] then NotLowered
        else if TakesForeign(st.inputs, st.bindings, old(Encrypted()), old(foreign)) then ForeignOperand
        else if MissesEncryption(st.inputs, st.bindings, old(Encrypted())) then NotEncrypted
        else if rt.faults == old(rt.faults) && TableRuns(rt.registered, scalars, ops) then Done
        else ExecutorFailed)
      ensures rt.faults >= old(rt.faults) && (rt.Faultless() ==> rt.faults == old(rt.faults))
      ensures outcome != Done ==>
        cts == old(cts) && foreign == old(foreign) && Unharmed(cts, rt.moves, old(rt.heap), rt.heap)
      ensures outcome == Done ==> IsBackedBy(st.bindings, old(cts), old(foreign), cts, foreign)
      ensures outcome == Done ==> EntitiesLive(cts, rt.moves, rt.heap)
      ensures outcome == Done ==> NoDup(wrapped) && SetOf(wrapped) <= rt.table.Keys
      ensures outcome == Done ==> forall x, y :: x in wrapped && y in wrapped && x != y ==> rt.table[x] != rt.table[y]
      ensures outcome == Done ==> rt.heap.Keys == old(rt.heap).Keys + HandlesOf(rt.table, SetOf(wrapped))
      ensures outcome == Done ==> rt.heap.Keys - old(rt.heap).Keys <= cts.Values
      ensures outcome == Done && SourcesEncrypted(st, old(Encrypted())) ==>
        RunDelivered(EffectiveAll(rt.registered, rt.kernels), st, StoreOf(old(cts), old(rt.heap), rt.blank), cts,
          rt.heap)
    {
      hide *;
      wrapped := [];
      UnharmedSoFar(cts, rt.moves, rt.heap);
      var p, bindings;
      p, bindings, st := LowerGraph(nodes, scalars, roots, ops);
      if bindings == [] { return NotLowered, st, wrapped; }
      var latest := CollectLatest(bindings);
      LatestMeans(bindings, latest, cts, foreign);
      var pinned := CollectPinned(p.inputs, latest);
      var plan := Analyze(p, pinned, 0, Belady, None);
      ValidPlans(p, SetOf(pinned), Belady);
      ConfigIs(p, SetOf(pinned));
      if plan.None? { return PlanRejected, st, wrapped; }
      var ok, hold := Provision(p.inputs, bindings);
      if !ok { return ForeignOperand, st, wrapped; }
      HeldMeans(cts, Encrypted(), hold, p.inputs, bindings);
      var all := AllHeld(p.inputs, hold);
      if !all { return NotEncrypted, st, wrapped; }
      HeldIsSupplied(p, SetOf(pinned), rt.moves, rt.heap, cts, Encrypted(), bindings, hold);
      outcome, wrapped := RunAndAdopt(p, plan.value, SetOf(pinned), latest, hold, ops, scalars, nodes, roots, st);
    }

    /** A whole run of a recording over the runtime: build the graph, execute it, write back. Which outcome a run
        has is determined; one that is not `Done` leaves every entity with its buffer and its value. When every
        entity read before it is written is encrypted, encryption is never missing and the run is refused exactly
        when one of them belongs to another backend; a run that is `Done` leaves encrypted exactly what was and
        what the list writes, the latter by this backend, every new buffer with an entity, and in every entity
        what running the operations in order leaves. */
    method Optimize(ops: seq<Operation>, scalars: map<Entity, int>) returns (outcome: Outcome, ghost st: Lowered)
      requires EntitiesLive(cts, rt.moves, rt.heap)
      modifies this, rt
      ensures AllSupported(ops) ==> LoweredFrom(ops, scalars, st)
      ensures outcome == (
        if !AllSupported(ops) then Unsupported
        else if TakesForeign(st.inputs, st.bindings, old(Encrypted()), old(foreign)) then ForeignOperand
        else if MissesEncryption(st.inputs, st.bindings, old(Encrypted())) then NotEncrypted
        else if rt.faults == old(rt.faults) && TableRuns(rt.registered, scalars, ops) then Done
        else ExecutorFailed)
      ensures rt.faults >= old(rt.faults) && (rt.Faultless() ==> rt.faults == old(rt.faults))
      ensures ReadsEncrypted(ops, scalars, old(Encrypted())) ==> outcome != NotEncrypted
      ensures ReadsEncrypted(ops, scalars, old(Encrypted())) && AllSupported(ops) ==>
        (outcome == ForeignOperand <==> exists e :: e in old(foreign) && ReadInitially(ops, scalars, e))
      ensures outcome != Done ==>
        cts == old(cts) && foreign == old(foreign) && Unharmed(cts, rt.moves, old(rt.heap), rt.heap)
      ensures outcome == Done ==> EntitiesLive(cts, rt.moves, rt.heap)
      ensures outcome == Done ==> IsBackedBy(st.bindings, old(cts), old(foreign), cts, foreign)
      ensures outcome == Done ==> rt.heap.Keys - old(rt.heap).Keys <= cts.Values
      ensures outcome == Done && ReadsEncrypted(ops, scalars, old(Encrypted())) ==>
        cts.Keys == old(cts).Keys + Targets(ops) && foreign == old(foreign) - Targets(ops)
      ensures outcome == Done && ReadsEncrypted(ops, scalars, old(Encrypted())) ==>
        RunDelivered(EffectiveAll(rt.registered, rt.kernels), st, StoreOf(old(cts), old(rt.heap), rt.blank), cts,
          rt.heap)
      ensures (outcome == Done && Deterministic() &&
        ReadsEncrypted(ops, scalars, old(Encrypted())) && ScalarsConstant(ops, scalars)) ==>
        DeliveredIfScalars(Effective(rt.registered, kernel), ops, scalars,
          StoreOf(old(cts), old(rt.heap), rt.blank), cts, rt.heap)
    {
      hide *;
      UnharmedSoFar(cts, rt.moves, rt.heap);
      ghost var encrypted, cts0, others := Encrypted(), cts, foreign;
      EncryptedIs();
      ghost var nodes: seq<Node>, roots: seq<nat> := [], [];
      ghost var store := StoreOf(cts, rt.heap, rt.blank);
      if ops == [] {
        st := NothingToLower(scalars, encrypted, foreign, rt.registered);
        NothingRecorded(EffectiveAll(rt.registered, rt.kernels), rt.moves, rt.blank, cts, rt.heap);
        NothingBacked(cts, foreign);
        outcome := Done;
      } else {
        var planner := new Planner();
        var ok := planner.BuildAST(ops, scalars);
        SupportedMeans(ops);
        st := Lowered([], [], 1, map[], []);
        if !ok { return Unsupported, st; }
        var wrapped;
        outcome, st, wrapped := ExecuteThroughFhnRuntime(planner.nodes, scalars, planner.roots, ops);
        nodes, roots := planner.nodes, planner.roots;
        LoweredFromGraph(ops, scalars, nodes, roots, st);
      }
      if ReadsEncrypted(ops, scalars, encrypted) {
        ReadsAreSources(ops, scalars, nodes, roots, st, encrypted);
        ForeignReads(ops, scalars, nodes, roots, st, encrypted, others);
        if outcome == Done {
          ReadsAreEncrypted(ops, scalars, encrypted);
          WritesEncrypted(ops, scalars, nodes, roots, st, cts0, others, cts, foreign);
          if Deterministic() && ScalarsConstant(ops, scalars) {
            DeterministicMeans();
            RunIsSequential(rt.registered, kernel, ops, scalars, nodes, roots, st, store, cts, rt.heap);
          }
        }
      }
    }
  }
}
