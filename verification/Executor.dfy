/** The executor: plain dispatch, and plan-aware dispatch over buffers that physically leave the device.
    Hooks and kernels may fail at any call; the preconditions of the hooks state that no freed buffer is
    used and that kernels find their operands on the device. */
module Executor {
  import opened Fhn
  import opened Sets
  import opened MovementPlan
  import opened Residency
  import opened Lifetimes
  import opened Liveness
  import opened Decomposition
  import opened Memory

  /** The values behind a kernel's operand buffers. */
  function ArgValues<V>(heap: map<Handle, Buffer<V>>, args: seq<Option<Handle>>): (r: seq<Option<V>>)
    requires |args| == 4 && forall j :: 0 <= j < 4 && args[j].Some? ==> args[j].value in heap
  {
    seq(4, j requires 0 <= j < 4 => if args[j].Some? then Some(heap[args[j].value].value) else None)
  }

  ghost predicate Ready<V>(heap: map<Handle, Buffer<V>>, args: seq<Option<Handle>>) {
    && |args| == 4
    && forall j :: 0 <= j < 4 && args[j].Some? ==> args[j].value in heap && heap[args[j].value].place == Device
  }

  lemma FreshHandle(s: set<Handle>)
    ensures exists h: Handle :: h !in s
  {
    var bound := AllBelow(s);
    assert bound !in s;
  }

  lemma {:induction false} AllBelow(s: set<Handle>) returns (bound: Handle)
    ensures forall h :: h in s ==> h < bound
  {
    if s == {} {
      bound := 0;
    } else {
      var h :| h in s;
      var rest := AllBelow(s - {h});
      bound := if h < rest then rest else h + 1;
      assert forall g :: g in s ==> g == h || g in s - {h};
    }
  }

  function OperandSlot(table: map<Id, Handle>, id: Id): Option<Handle> {
    if id != 0 && id in table then Some(table[id]) else None
  }

  /** The operand buffers of an instruction; an unused slot, or an id without a buffer, is null. */
  function OperandSlots(table: map<Id, Handle>, inst: Instruction): (r: seq<Option<Handle>>)
    ensures |r| == 4
  {
    seq(4, j requires 0 <= j < 4 => OperandSlot(table, inst.operands[j]))
  }

  /** The instruction's operands and result have buffers on the device, and the result's is none of the
      operands'. */
  ghost predicate CanRun<V>(heap: map<Handle, Buffer<V>>, table: map<Id, Handle>, inst: Instruction) {
    && OperandIds(inst) <= table.Keys
    && inst.resultId in table && table[inst.resultId] in heap && heap[table[inst.resultId]].place == Device
    && Ready(heap, OperandSlots(table, inst))
    && forall j :: 0 <= j < 4 ==> OperandSlots(table, inst)[j] != Some(table[inst.resultId])
  }

  /** What the instruction computes from the buffers as they are. */
  ghost function Outcome<V>(
      registered: set<Opcode>, k: Kernel<V>, heap: map<Handle, Buffer<V>>, table: map<Id, Handle>, inst: Instruction)
    : Option<V>
    requires CanRun(heap, table, inst)
  {
    Dispatched(registered, k, inst.opcode, ArgValues(heap, OperandSlots(table, inst)), inst.param, inst.scalar)
  }

  /** Buffers that hold the operands' values make the outcome the instruction's value. */
  lemma {:induction false} OutcomeIsValue<V>(
      registered: set<Opcode>, k: Kernel<V>, heap: map<Handle, Buffer<V>>, table: map<Id, Handle>,
      inst: Instruction, vals: map<Id, V>)
    requires CanRun(heap, table, inst) && OperandIds(inst) <= vals.Keys
    requires forall x :: x in OperandIds(inst) ==> table[x] in heap && heap[table[x]].value == vals[x]
    ensures Outcome(registered, k, heap, table, inst) ==
      Dispatched(registered, k, inst.opcode, OperandValues(inst, vals), inst.param, inst.scalar)
    ensures Outcome(registered, k, heap, table, inst).Some? ==>
      Outcome(registered, k, heap, table, inst).value == Compute(Effective(registered, k), inst, vals)
  {
    hide Dispatched;
    var args := ArgValues(heap, OperandSlots(table, inst));
    forall j | 0 <= j < 4 ensures args[j] == OperandValues(inst, vals)[j] {
      assert inst.operands[j] != 0 ==> inst.operands[j] in OperandIds(inst);
    }
    assert args == OperandValues(inst, vals);
  }

  // ----- the plan-aware run, on values -----

  /** The table the planner's caller supplies: exactly the inputs, each with a buffer; two inputs may share
      a buffer only if both are pinned and nothing will be evicted. */
  ghost predicate Supplied<V>(c: Config, moves: bool, heap: map<Handle, Buffer<V>>, table: map<Id, Handle>) {
    && table.Keys == SetOf(c.p.inputs)
    && (forall x :: x in table ==> table[x] in heap && (moves || heap[table[x]].place == Device))
    && Sharing(c, table)
  }

  ghost function InputValues<V>(heap: map<Handle, Buffer<V>>, table: map<Id, Handle>): map<Id, V>
    requires forall x :: x in table ==> table[x] in heap
  {
    map x | x in table :: heap[table[x]].value
  }

  /** Where a run stands before instruction `i`. */
  ghost predicate Midway<V>(
      c: Config, ks: Kernels<V>, moves: bool, inputs: map<Id, V>, heap: map<Handle, Buffer<V>>, table: map<Id, Handle>,
      i: nat)
    requires i <= |c.p.insts| && PlanOf(c).Some? && |PlanOf(c).value.actions| == |c.p.insts|
  {
    Holds(c, moves, heap, table, Live(c, i), Resident(c, i), Eval(ks, c.p, inputs, i))
  }

  lemma {:induction false} StartsMidway<V>(
      c: Config, ks: Kernels<V>, moves: bool, heap: map<Handle, Buffer<V>>, table: map<Id, Handle>)
    requires Supplied(c, moves, heap, table)
    requires PlanOf(c).Some? && |PlanOf(c).value.actions| == |c.p.insts|
    ensures Midway(c, ks, moves, InputValues(heap, table), heap, table, 0)
    ensures Owns(c, heap, table, heap, table, [])
  {
    hide *;
    LiveAtStart(c);
    ResidentAtStart(c);
    SuppliedFacts(c, moves, heap, table);
    InPlaceAtStart(c, moves, heap, table);
    EvalStart(ks, c.p, InputValues(heap, table));
    MidwayMeans(c, ks, moves, InputValues(heap, table), heap, table, 0);
    StartsHeld(c, moves, heap, table, Live(c, 0), InputValues(heap, table));
    OwnsNothing(c, heap, table);
  }

  lemma LiveAtStart(c: Config)
    requires PlanOf(c).Some? && |PlanOf(c).value.actions| == |c.p.insts|
    ensures Live(c, 0) == SetOf(c.p.inputs)
  {
    hide PlanOf;
  }

  lemma InPlaceAtStart<V>(c: Config, moves: bool, heap: map<Handle, Buffer<V>>, table: map<Id, Handle>)
    requires Supplied(c, moves, heap, table)
    ensures InPlace(moves, heap, table)
  {
    hide Sharing; hide SetOf;
  }

  lemma StartsHeld<V>(
      c: Config, moves: bool, heap: map<Handle, Buffer<V>>, table: map<Id, Handle>, live: set<Id>, vals: map<Id, V>)
    requires table.Keys == live && Sharing(c, table) && InPlace(moves, heap, table)
    requires (forall x :: x in table ==> table[x] in heap) && vals == InputValues(heap, table)
    ensures Holds(c, moves, heap, table, live, {}, vals)
  {
    hide Sharing;
  }

  lemma OwnsNothing<V>(c: Config, heap: map<Handle, Buffer<V>>, table: map<Id, Handle>)
    requires table.Keys == SetOf(c.p.inputs) && forall x :: x in table ==> table[x] in heap
    ensures Owns(c, heap, table, heap, table, [])
  {
    hide HandlesOf;
    assert SetOf<Id>([]) == {};
    EmptyHandles(table);
    assert SetOf(c.p.inputs) - table.Keys == {};
  }

  lemma EmptyHandles(table: map<Id, Handle>)
    ensures HandlesOf(table, {}) == {}
  {
  }

  lemma ResidentAtStart(c: Config)
    requires PlanOf(c).Some?
    ensures Resident(c, 0) == {}
  {
  }

  lemma {:induction false} CanRunHere<V>(
      c: Config, moves: bool, heap: map<Handle, Buffer<V>>, table: map<Id, Handle>,
      live: set<Id>, onDevice: set<Id>, vals: map<Id, V>, inst: Instruction)
    requires Holds(c, moves, heap, table, live, onDevice, vals)
    requires WorkingSet(inst) <= onDevice && inst.resultId !in OperandIds(inst) && inst.resultId !in c.p.inputs
    requires OperandIds(inst) <= vals.Keys
    ensures CanRun(heap, table, inst)
    ensures forall x :: x in OperandIds(inst) ==> x in table && table[x] in heap && heap[table[x]].value == vals[x]
  {
    forall j | 0 <= j < 4 && inst.operands[j] != 0
      ensures inst.operands[j] in table && table[inst.operands[j]] in heap
      ensures heap[table[inst.operands[j]]].place == Device && table[inst.operands[j]] != table[inst.resultId]
    {
      assert inst.operands[j] in OperandIds(inst);
    }
  }

  /** A finished run: the pinned ids hold what plain evaluation computes, and the live buffers are the
      caller's, less its unpinned inputs, plus one for each pinned result. */
  ghost predicate Finished<V>(
      c: Config, ks: Kernels<V>, moves: bool, heap0: map<Handle, Buffer<V>>, table0: map<Id, Handle>,
      heap: map<Handle, Buffer<V>>, table: map<Id, Handle>)
    requires forall x :: x in table0 ==> table0[x] in heap0
  {
    var inputs := SetOf(c.p.inputs);
    var vals := Eval(ks, c.p, InputValues(heap0, table0), |c.p.insts|);
    && table.Keys == (if c.p.insts == [] then inputs else Defs(c.p) * c.pinned)
    && (forall x :: x in table ==> x in vals && table[x] in heap && heap[table[x]].value == vals[x])
    && (forall x :: x in table && !moves ==> heap[table[x]].place == Device)
    && Sharing(c, table)
    && (forall x :: x in table && x in inputs ==> x in table0 && table[x] == table0[x])
    && heap.Keys == heap0.Keys - HandlesOf(table0, inputs - table.Keys) + HandlesOf(table, table.Keys - inputs)
    && HandlesOf(table0, inputs * table.Keys) !! HandlesOf(table, table.Keys - inputs)
    && (forall h :: h in heap0 && h !in table0.Values ==> h in heap && heap[h] == heap0[h])
  }

  /** A failed run: every buffer the plan allocated is gone from heap and table; what the caller owned is
      there and holds what it did, less the unpinned inputs already released. */
  ghost predicate CleanedUp<V>(
      c: Config, heap0: map<Handle, Buffer<V>>, table0: map<Id, Handle>,
      heap: map<Handle, Buffer<V>>, table: map<Id, Handle>)
  {
    var inputs := SetOf(c.p.inputs);
    && table.Keys <= inputs
    && KeepsInputs(c, heap0, table0, heap, table)
    && inputs - table.Keys !! c.pinned
    && heap.Keys == heap0.Keys - HandlesOf(table0, inputs - table.Keys)
    && (forall h :: h in heap0 && h !in table0.Values ==> h in heap && heap[h] == heap0[h])
  }

  /** Without hooks everything in the table is where kernels can reach it. */
  ghost predicate InPlace<V>(moves: bool, heap: map<Handle, Buffer<V>>, table: map<Id, Handle>) {
    forall x :: x in table && table[x] in heap && !moves ==> heap[table[x]].place == Device
  }

  // ----- plain execution, on values -----

  /** Every id of the program has a buffer on the device, and no result shares one. */
  ghost predicate Provisioned<V>(heap: map<Handle, Buffer<V>>, table: map<Id, Handle>, p: Program) {
    && (forall x :: x in Defs(p) ==> x in table && table[x] in heap && heap[table[x]].place == Device)
    && (forall x, i :: x in Defs(p) && 0 <= i < |p.insts| && x != p.insts[i].resultId ==>
          table[x] != table[p.insts[i].resultId])
  }

  ghost predicate HasValues<V>(heap: map<Handle, Buffer<V>>, table: map<Id, Handle>, vals: map<Id, V>) {
    forall x :: x in vals ==> x in table && table[x] in heap && heap[table[x]].value == vals[x]
  }

  lemma {:induction false} ReadyToRun<V>(
      heap: map<Handle, Buffer<V>>, table: map<Id, Handle>, p: Program, i: nat, vals: map<Id, V>)
    requires Valid(p) && Provisioned(heap, table, p) && HasValues(heap, table, vals)
    requires i < |p.insts| && vals.Keys == DefinedBefore(p, i)
    ensures CanRun(heap, table, p.insts[i])
    ensures p.insts[i].resultId in Defs(p) && DefinedBefore(p, i) <= Defs(p)
    ensures OperandIds(p.insts[i]) <= vals.Keys
    ensures forall x :: x in OperandIds(p.insts[i]) ==> x in table && table[x] in heap && heap[table[x]].value == vals[x]
  {
    var inst := p.insts[i];
    ResultIsNew(p, i);
    DefinedBeforeMonotone(p, i, |p.insts|);
    DefinedBeforeMonotone(p, i + 1, |p.insts|);
    DefinedBeforeGrows(p, i);
    assert inst.resultId in Defs(p) && OperandIds(inst) <= Defs(p);
    hide Valid; hide DefinedBefore; hide Defs;
    forall j | 0 <= j < 4 && inst.operands[j] != 0
      ensures inst.operands[j] in table && table[inst.operands[j]] in heap
      ensures heap[table[inst.operands[j]]].place == Device && table[inst.operands[j]] != table[inst.resultId]
    {
      assert inst.operands[j] in OperandIds(inst);
    }
  }

  lemma PlainStart<V>(registered: set<Opcode>, ks: Kernels<V>, p: Program, inputs: map<Id, V>)
    ensures Runs(registered, ks, p, inputs, 0)
    ensures Eval(EffectiveAll(registered, ks), p, inputs, 0) == inputs
  {
  }

  /** Writing a result leaves every other id's value alone. */
  lemma {:induction false} PlainStep<V>(
      heap: map<Handle, Buffer<V>>, table: map<Id, Handle>, p: Program, i: nat, vals: map<Id, V>, written: Buffer<V>)
    requires Provisioned(heap, table, p) && HasValues(heap, table, vals) && written.place == Device
    requires i < |p.insts| && p.insts[i].resultId in Defs(p)
    requires vals.Keys <= Defs(p)
    ensures p.insts[i].resultId in table
    ensures Provisioned(heap[table[p.insts[i].resultId] := written], table, p)
    ensures HasValues(heap[table[p.insts[i].resultId] := written], table, vals[p.insts[i].resultId := written.value])
  {
    hide Defs;
  }

  class Runtime<V(!new)> {
    /** The backend's kernels. */
    const kernels: Kernels<V>
    const registered: set<Opcode>
    /** Whether the backend has movement hooks; without them there is one memory space. */
    const moves: bool
    const blank: V
    /** What the environment returns from each call of a hook or kernel, in order; 0 is success. */
    const codes: nat -> int

    var heap: map<Handle, Buffer<V>>
    /** The caller's buffer table; an id without an entry is null. */
    var table: map<Id, Handle>
    /** The most device units the program's buffers ever took while an instruction ran. */
    ghost var peak: nat
    /** How many calls of hooks and kernels were made, and how many of them failed. */
    var calls: nat
    ghost var faults: nat
    /** The opcodes of the kernels called, in order. */
    ghost var log: seq<Opcode>

    constructor (kernels: Kernels<V>, registered: set<Opcode>, moves: bool, blank: V, codes: nat -> int,
        heap: map<Handle, Buffer<V>>, table: map<Id, Handle>)
      ensures this.kernels == kernels && this.registered == registered && this.moves == moves && this.codes == codes
      ensures this.heap == heap && this.table == table && peak == 0 && calls == 0 && faults == 0 && log == []
    {
      this.kernels, this.registered, this.moves, this.blank, this.codes := kernels, registered, moves, blank, codes;
      this.heap, this.table, this.peak, this.calls, this.faults, this.log := heap, table, 0, 0, 0, [];
    }

    /** An environment in which nothing fails. */
    ghost predicate Faultless() {
      forall k :: codes(k) == 0
    }

    /** The return code of a call. */
    method Call() returns (rc: int)
      modifies `calls, `faults
      ensures rc == codes(old(calls)) && calls == old(calls) + 1
      ensures faults == old(faults) + if rc == 0 then 0 else 1
      ensures Faultless() ==> rc == 0
    {
      rc := codes(calls);
      calls := calls + 1;
      if rc != 0 { faults := faults + 1; }
    }

    // ----- hooks -----

    method AllocBuffer() returns (h: Option<Handle>)
      modifies `heap, `calls, `faults
      ensures faults == old(faults) + (if h.Some? then 0 else 1) && (Faultless() ==> h.Some?)
      ensures h.None? ==> heap == old(heap)
      ensures h.Some? ==> h.value !in old(heap) && heap == old(heap)[h.value := Buffer(blank, Device)]
    {
      var rc := Call();
      if rc != 0 {
        return None;
      }
      FreshHandle(heap.Keys);
      var handle: Handle :| handle !in heap.Keys;
      heap := heap[handle := Buffer(blank, Device)];
      h := Some(handle);
    }

    method FreeBuffer(h: Handle)
      requires h in heap
      modifies `heap
      ensures heap == old(heap) - {h}
    {
      heap := heap - {h};
    }

    /** Moves a buffer, preserving its contents. */
    method MoveBuffer(h: Handle, place: Place) returns (rc: int)
      requires h in heap
      modifies `heap, `calls, `faults
      ensures faults == old(faults) + (if rc == 0 then 0 else 1) && (Faultless() ==> rc == 0)
      ensures h in heap && heap == old(heap)[h := heap[h]] && heap[h].value == old(heap)[h].value
      ensures rc == 0 ==> heap[h].place == place
    {
      rc := Call();
      if rc == 0 {
        heap := heap[h := heap[h].(place := place)];
      }
    }

    /** A kernel reads its operands on the device and writes its result there; it may also fail, leaving
        anything in the result. */
    method CallKernel(id: Id, op: Opcode, result: Handle, args: seq<Option<Handle>>, param: int, scalar: int)
      returns (rc: int)
      requires op in registered && result in heap && heap[result].place == Device && Ready(heap, args)
      modifies `heap, `calls, `faults, `log
      ensures faults == old(faults) + (if rc == 0 then 0 else 1) && (Faultless() ==> rc == 0)
      ensures log == old(log) + [op]
      ensures result in heap && heap == old(heap)[result := heap[result]] && heap[result].place == Device
      ensures rc == 0 ==> heap[result].value == kernels(id)(op, ArgValues(old(heap), args), param, scalar)
    {
      rc := Call();
      log := log + [op];
      if rc == 0 {
        var v := kernels(id)(op, ArgValues(heap, args), param, scalar);
        heap := heap[result := Buffer(v, Device)];
      } else {
        heap := heap[result := Buffer(blank, Device)];
      }
    }

    /** Two kernels in a row, in place: the second reads the first's result and an operand. */
    method CallInPlace(first: Opcode, second: Opcode, inst: Instruction) returns (ok: bool)
      requires first in registered && second in registered && CanRun(heap, table, inst)
      modifies `heap, `calls, `faults, `log
      ensures ok <==> faults == old(faults)
      ensures ok ==> log == old(log) + [first, second]
      ensures faults >= old(faults) && (Faultless() ==> faults == old(faults))
      ensures heap.Keys == old(heap).Keys
      ensures heap == old(heap)[table[inst.resultId] := heap[table[inst.resultId]]]
      ensures heap[table[inst.resultId]].place == Device
      ensures ok ==> heap[table[inst.resultId]].value == kernels(inst.resultId)(second, Binary(
        Some(kernels(inst.resultId)(
          first, Unary(ArgValues(old(heap), OperandSlots(table, inst))[0]), inst.param, inst.scalar)),
        ArgValues(old(heap), OperandSlots(table, inst))[1]), inst.param, inst.scalar)
    {
      var result := table[inst.resultId];
      var slots := OperandSlots(table, inst);
      ghost var before := heap;
      var rc := CallKernel(inst.resultId, first, result, Unary(slots[0]), inst.param, inst.scalar);
      assert ArgValues(before, Unary(slots[0])) == Unary(ArgValues(before, slots)[0]);
      if rc != 0 {
        return false;
      }
      ghost var between := heap;
      rc := CallKernel(inst.resultId, second, result, Binary(Some(result), slots[1]), inst.param, inst.scalar);
      assert ArgValues(between, Binary(Some(result), slots[1]))
        == Binary(Some(between[result].value), ArgValues(before, slots)[1]);
      ok := rc == 0;
    }

    /** Applies an optional in-place kernel: skipped when it is not registered. */
    method CallIfRegistered(op: Opcode, inst: Instruction, result: Handle) returns (ok: bool)
      requires result in heap && heap[result].place == Device
      modifies `heap, `calls, `faults, `log
      ensures ok <==> faults == old(faults)
      ensures ok ==> log == old(log) + if op in registered then [op] else []
      ensures faults >= old(faults) && (Faultless() ==> faults == old(faults))
      ensures result in heap && heap == old(heap)[result := heap[result]] && heap[result].place == Device
      ensures ok ==> (heap[result].value ==
        if op in registered then
          kernels(inst.resultId)(op, Unary(Some(old(heap)[result].value)), inst.param, inst.scalar)
        else old(heap)[result].value)
    {
      if op !in registered {
        return true;
      }
      assert ArgValues(heap, Unary(Some(result))) == Unary(Some(heap[result].value));
      var rc := CallKernel(inst.resultId, op, result, Unary(Some(result)), inst.param, inst.scalar);
      ok := rc == 0;
    }

    /** Multiply, then relinearize and rescale in place where those kernels are registered. */
    method DecomposeMultiply(inst: Instruction) returns (ok: bool)
      requires CanRun(heap, table, inst) && inst.opcode == HMULT && HMULT !in registered
      modifies `heap, `calls, `faults, `log
      ensures ok <==> faults == old(faults) && old(Outcome(registered, kernels(inst.resultId), heap, table, inst)).Some?
      ensures ok ==> (log == old(log) + [MULT_CC] +
        (if RELINEARIZE in registered then [RELINEARIZE] else []) +
        (if RESCALE in registered then [RESCALE] else []))
      ensures faults >= old(faults) && (Faultless() ==> faults == old(faults))
      ensures heap.Keys == old(heap).Keys
      ensures heap == old(heap)[table[inst.resultId] := heap[table[inst.resultId]]]
      ensures heap[table[inst.resultId]].place == Device
      ensures ok ==>
        old(Outcome(registered, kernels(inst.resultId), heap, table, inst)) == Some(heap[table[inst.resultId]].value)
    {
      var result := table[inst.resultId];
      var slots := OperandSlots(table, inst);
      if MULT_CC !in registered {
        return false;
      }
      assert ArgValues(heap, Binary(slots[0], slots[1])) ==
        Binary(ArgValues(heap, slots)[0], ArgValues(heap, slots)[1]);
      var rc := CallKernel(inst.resultId, MULT_CC, result, Binary(slots[0], slots[1]), inst.param, inst.scalar);
      if rc != 0 {
        return false;
      }
      ok := CallIfRegistered(RELINEARIZE, inst, result);
      if ok {
        ok := CallIfRegistered(RESCALE, inst, result);
      }
    }

    /** Rotate with whichever rotation is registered, then add. */
    method DecomposeRotateAdd(inst: Instruction) returns (ok: bool)
      requires CanRun(heap, table, inst) && inst.opcode == HROT_ADD && HROT_ADD !in registered
      modifies `heap, `calls, `faults, `log
      ensures ok <==> faults == old(faults) && old(Outcome(registered, kernels(inst.resultId), heap, table, inst)).Some?
      ensures ok ==> log == old(log) + [if HROT in registered then HROT else ROTATE, ADD_CC]
      ensures faults >= old(faults) && (Faultless() ==> faults == old(faults))
      ensures heap.Keys == old(heap).Keys
      ensures heap == old(heap)[table[inst.resultId] := heap[table[inst.resultId]]]
      ensures heap[table[inst.resultId]].place == Device
      ensures ok ==>
        old(Outcome(registered, kernels(inst.resultId), heap, table, inst)) == Some(heap[table[inst.resultId]].value)
    {
      var rotate := if HROT in registered then HROT else ROTATE;
      ok := false;
      if rotate in registered && ADD_CC in registered {
        ok := CallInPlace(rotate, ADD_CC, inst);
      } else if rotate in registered {
        // the rotation runs before the missing addition is noticed
        var slots := OperandSlots(table, inst);
        var rc := CallKernel(inst.resultId, rotate, table[inst.resultId], Unary(slots[0]), inst.param, inst.scalar);
      }
    }

    /** Rewrites a fused opcode into primitives over the result buffer. */
    method Decompose(inst: Instruction) returns (ok: bool)
      requires CanRun(heap, table, inst) && inst.opcode !in registered
      modifies `heap, `calls, `faults, `log
      ensures ok <==> faults == old(faults) && old(Outcome(registered, kernels(inst.resultId), heap, table, inst)).Some?
      ensures ok ==> log == old(log) + KernelsFor(registered, inst.opcode)
      ensures faults >= old(faults) && (Faultless() ==> faults == old(faults))
      ensures heap.Keys == old(heap).Keys
      ensures heap == old(heap)[table[inst.resultId] := heap[table[inst.resultId]]]
      ensures heap[table[inst.resultId]].place == Device
      ensures ok ==>
        old(Outcome(registered, kernels(inst.resultId), heap, table, inst)) == Some(heap[table[inst.resultId]].value)
    {
      var result := table[inst.resultId];
      var slots := OperandSlots(table, inst);
      ghost var before := heap;
      ok := false;
      match inst.opcode {
        case HMULT =>
          ok := DecomposeMultiply(inst);
        case HROT =>
          if ROTATE in registered {
            assert ArgValues(before, Unary(slots[0])) == Unary(ArgValues(before, slots)[0]);
            var rc := CallKernel(inst.resultId, ROTATE, result, Unary(slots[0]), inst.param, inst.scalar);
            ok := rc == 0;
          }
        case HROT_ADD =>
          ok := DecomposeRotateAdd(inst);
        case HCONJ_ADD =>
          if CONJUGATE in registered && ADD_CC in registered {
            ok := CallInPlace(CONJUGATE, ADD_CC, inst);
          }
        case MAD =>
          if inst.operands[1] != 0 && inst.operands[1] != inst.resultId
             && MULT_CS in registered && ADD_CC in registered {
            ok := CallInPlace(MULT_CS, ADD_CC, inst);
          }
        case _ =>
      }
    }

    /** Runs one instruction: its own kernel, or its decomposition. */
    method Dispatch(inst: Instruction) returns (rc: int)
      requires CanRun(heap, table, inst)
      modifies `heap, `calls, `faults, `log
      ensures rc == 0 <==>
        faults == old(faults) && old(Outcome(registered, kernels(inst.resultId), heap, table, inst)).Some?
      ensures rc == 0 ==> log == old(log) + KernelsFor(registered, inst.opcode)
      ensures faults >= old(faults) && (Faultless() ==> faults == old(faults))
      ensures heap.Keys == old(heap).Keys
      ensures heap == old(heap)[table[inst.resultId] := heap[table[inst.resultId]]]
      ensures heap[table[inst.resultId]].place == Device
      ensures rc == 0 ==>
        old(Outcome(registered, kernels(inst.resultId), heap, table, inst)) == Some(heap[table[inst.resultId]].value)
    {
      if inst.opcode in registered {
        rc := CallKernel(
          inst.resultId, inst.opcode, table[inst.resultId], OperandSlots(table, inst), inst.param, inst.scalar);
      } else {
        var ok := Decompose(inst);
        rc := if ok then 0 else -1;
      }
    }

    // ----- plain execution -----

    /** Dispatches the instructions in order over a fully provisioned table. */
    method Execute(p: Program, ghost inputs: map<Id, V>) returns (rc: int)
      requires Valid(p) && Provisioned(heap, table, p)
      requires HasValues(heap, table, inputs) && inputs.Keys == SetOf(p.inputs)
      modifies `heap, `calls, `faults, `log
      ensures heap.Keys == old(heap).Keys
      ensures rc == 0 <==> faults == old(faults) && Runs(registered, kernels, p, inputs, |p.insts|)
      ensures rc == 0 ==> log == old(log) + KernelsRun(registered, p, |p.insts|)
      ensures faults >= old(faults) && (Faultless() ==> faults == old(faults))
      ensures rc == 0 ==> HasValues(heap, table, Eval(EffectiveAll(registered, kernels), p, inputs, |p.insts|))
    {
      hide Effective; hide Dispatched; hide Outcome; hide CanRun; hide Valid; hide DefinedBefore; hide Compute;
      hide OperandValues; hide Eval; hide Runs; hide OperandIds; hide OperandSlots; hide Provisioned; hide HasValues;
      hide KernelsFor;
      ghost var ks := EffectiveAll(registered, kernels);
      PlainStart(registered, kernels, p, inputs);
      for i := 0 to |p.insts|
        invariant heap.Keys == old(heap).Keys && Provisioned(heap, table, p) && faults == old(faults)
        invariant HasValues(heap, table, Eval(ks, p, inputs, i))
        invariant Runs(registered, kernels, p, inputs, i) && log == old(log) + KernelsRun(registered, p, i)
      {
        var inst := p.insts[i];
        ghost var vals := Eval(ks, p, inputs, i);
        EvalDomain(ks, p, inputs, i);
        ReadyToRun(heap, table, p, i, vals);
        OutcomeIsValue(registered, kernels(inst.resultId), heap, table, inst, vals);
        ResultOnDevice(heap, table, inst);
        ghost var before := heap;
        rc := Dispatch(inst);
        ghost var written := heap[table[inst.resultId]];
        PlainStep(before, table, p, i, vals, written);
        if rc != 0 {
          StuckMeans(registered, kernels, p, inputs, i);
          return;
        }
        EvalStep(ks, p, inputs, i);
        KernelsStep(registered, p, i);
        RunsStep(registered, kernels, p, inputs, i);
      }
      rc := 0;
    }

    // ----- plan-aware execution -----

    /** Frees and nulls everything the run allocated and still owns. */
    method ReleaseOwned(
        ghost c: Config, ghost heap0: map<Handle, Buffer<V>>, ghost table0: map<Id, Handle>, owned: seq<Id>)
      requires Owns(c, heap0, table0, heap, table, owned) && Sharing(c, table) && Sharing(c, table0)
      requires table0.Keys == SetOf(c.p.inputs) && HandlesOf(table0, table0.Keys) <= heap0.Keys
      modifies `heap, `table
      ensures CleanedUp(c, heap0, table0, heap, table)
      ensures old(InPlace(moves, heap, table)) ==> InPlace(moves, heap, table)
    {
      hide Owns; hide Sharing; hide HandlesOf; hide NoDup;
      assert owned[0..] == owned;
      OwnsIsNoDup(c, heap0, table0, heap, table, owned);
      for k := 0 to |owned|
        invariant Owns(c, heap0, table0, heap, table, owned[k..]) && Sharing(c, table)
        invariant old(InPlace(moves, heap, table)) ==> InPlace(moves, heap, table)
      {
        var id := owned[k];
        OwnedAreLive(c, heap0, table0, heap, table, owned[k..], id);
        FreeOwns(c, heap0, table0, heap, table, owned[k..], id);
        RestOfOwned(c, heap0, table0, heap - {table[id]}, table - {id}, owned, k);
        SharingShrinks(c, table, id);
        FreeBuffer(table[id]);
        table := table - {id};
      }
      NothingOwned(c, heap0, table0, heap, table, owned[|owned|..]);
    }

    /** The device holds exactly `residents`, when that is being tracked. */
    ghost predicate Tracks(tracked: bool, residents: set<Id>)
      reads `heap, `table
    {
      tracked ==> OnDevice(heap, table) == residents
    }

    /** Moves the listed ids to `place`. Without hooks there is nothing to do. */
    method MoveAll(ids: seq<Id>, place: Place, ghost c: Config, ghost heap0: map<Handle, Buffer<V>>,
        ghost table0: map<Id, Handle>, owned: seq<Id>, ghost live: set<Id>, ghost residents: set<Id>,
        ghost vals: map<Id, V>, ghost tracked: bool)
      returns (rc: int)
      requires Holds(c, moves, heap, table, live, residents, vals) && SetOf(ids) <= live
      requires Owns(c, heap0, table0, heap, table, owned) && table0.Keys == SetOf(c.p.inputs)
      requires (place == Host && ids != []) || tracked ==> c.budget > 0
      requires (tracked ==> moves) && Tracks(tracked, residents)
      modifies `heap, `calls, `faults
      ensures rc == 0 <==> faults == old(faults)
      ensures faults >= old(faults) && (Faultless() ==> faults == old(faults))
      ensures Owns(c, heap0, table0, heap, table, owned) && InPlace(moves, heap, table)
      ensures rc == 0 ==>
        var after := if place == Device then residents + SetOf(ids) else residents - SetOf(ids);
        Holds(c, moves, heap, table, live, after, vals) && Tracks(tracked, after)
    {
      hide Owns; hide Holds; hide OnDevice; hide Sharing;
      ghost var now := residents;
      assert ids[..0] == [];
      assert residents - SetOf(ids[..0]) == residents == residents + SetOf(ids[..0]);
      for k := 0 to |ids|
        invariant now == if place == Device then residents + SetOf(ids[..k]) else residents - SetOf(ids[..k])
        invariant Owns(c, heap0, table0, heap, table, owned) && faults == old(faults)
        invariant Holds(c, moves, heap, table, live, now, vals) && Tracks(tracked, now)
      {
        var id := ids[k];
        assert id in SetOf(ids);
        assert ids[..k + 1] == ids[..k] + [id];
        SetOfSnoc(ids[..k], id);
        ghost var next := if place == Device then now + {id} else now - {id};
        LiveHasBuffer(c, moves, heap, table, live, now, vals, id);
        if moves {
          MoveHolds(c, moves, heap, table, live, now, vals, id, place);
          MoveOwns(c, heap0, table0, heap, table, owned, id, heap[table[id]].(place := place));
          if tracked {
            MoveOnDevice(c, heap, table, id, place);
          }
          ghost var before := heap;
          rc := MoveBuffer(table[id], place);
          if rc != 0 {
            MoveOwns(c, heap0, table0, before, table, owned, id, heap[table[id]]);
            return -1;
          }
          assert heap == before[table[id] := before[table[id]].(place := place)];
        } else if place == Device {
          MoreOnDevice(c, heap, table, live, now, id, vals);
        } else {
          FewerOnDevice(c, moves, heap, table, live, now, next, vals);
        }
        now := next;
      }
      assert ids[..|ids|] == ids;
      LiveTable(c, moves, heap, table, live, now, vals);
      rc := 0;
    }

    /** Allocates the result's buffer. */
    method AllocResult(id: Id, ghost c: Config, ghost heap0: map<Handle, Buffer<V>>,
        ghost table0: map<Id, Handle>, ghost owned: seq<Id>, ghost live: set<Id>, ghost residents: set<Id>,
        ghost vals: map<Id, V>, ghost tracked: bool)
      returns (ok: bool)
      requires Holds(c, moves, heap, table, live, residents, vals) && Owns(c, heap0, table0, heap, table, owned)
      requires id !in live && id !in vals && id !in c.p.inputs && Tracks(tracked, residents)
      modifies `heap, `table, `calls, `faults
      ensures ok <==> faults == old(faults)
      ensures faults >= old(faults) && (Faultless() ==> faults == old(faults))
      ensures !ok ==> Owns(c, heap0, table0, heap, table, owned) && Sharing(c, table) && InPlace(moves, heap, table)
      ensures ok ==> Owns(c, heap0, table0, heap, table, owned + [id])
      ensures ok ==> Holds(c, moves, heap, table, live + {id}, residents + {id}, vals)
      ensures ok ==> Tracks(tracked, residents + {id})
    {
      LiveTable(c, moves, heap, table, live, residents, vals);
      hide Owns; hide Holds; hide OnDevice; hide Sharing;
      ghost var before := heap;
      var h := AllocBuffer();
      if h.None? {
        return false;
      }
      AllocHolds(c, moves, before, table, live, residents, vals, id, h.value, blank);
      AllocOwns(c, heap0, table0, before, table, owned, id, h.value, Buffer(blank, Device));
      AllocOnDevice(before, table, id, h.value, blank);
      table := table[id := h.value];
      ok := true;
    }

    /** Frees the listed ids and forgets that they were owned. */
    method FreeAll(ids: seq<Id>, ghost c: Config, ghost heap0: map<Handle, Buffer<V>>,
        ghost table0: map<Id, Handle>, owned: seq<Id>, ghost live: set<Id>, ghost residents: set<Id>,
        ghost vals: map<Id, V>, ghost tracked: bool)
      returns (left: seq<Id>)
      requires Holds(c, moves, heap, table, live, residents, vals) && Owns(c, heap0, table0, heap, table, owned)
      requires NoDup(ids) && SetOf(ids) <= live && SetOf(ids) !! c.pinned && Tracks(tracked, residents)
      requires table0.Keys == SetOf(c.p.inputs) && HandlesOf(table0, table0.Keys) <= heap0.Keys && Sharing(c, table0)
      requires tracked ==> c.budget > 0
      modifies `heap, `table
      ensures Owns(c, heap0, table0, heap, table, left)
      ensures Holds(c, moves, heap, table, live - SetOf(ids), residents - SetOf(ids), vals)
      ensures Tracks(tracked, residents - SetOf(ids))
    {
      hide Owns; hide Holds; hide OnDevice; hide Sharing; hide HandlesOf; hide NoDup;
      left := owned;
      assert ids[..0] == [];
      assert live - SetOf(ids[..0]) == live && residents - SetOf(ids[..0]) == residents;
      for k := 0 to |ids|
        invariant Owns(c, heap0, table0, heap, table, left)
        invariant Holds(c, moves, heap, table, live - SetOf(ids[..k]), residents - SetOf(ids[..k]), vals)
        invariant Tracks(tracked, residents - SetOf(ids[..k]))
      {
        var id := ids[k];
        assert id in SetOf(ids);
        assert ids[..k + 1] == ids[..k] + [id];
        SetOfSnoc(ids[..k], id);
        NotBefore(ids, k);
        assert live - SetOf(ids[..k + 1]) == live - SetOf(ids[..k]) - {id};
        assert residents - SetOf(ids[..k + 1]) == residents - SetOf(ids[..k]) - {id};
        LiveTable(c, moves, heap, table, live - SetOf(ids[..k]), residents - SetOf(ids[..k]), vals);
        FreeHolds(c, moves, heap, table, live - SetOf(ids[..k]), residents - SetOf(ids[..k]), vals, id);
        FreeOwns(c, heap0, table0, heap, table, left, id);
        if tracked {
          FreeOnDevice(c, heap, table, id);
        }
        FreeBuffer(table[id]);
        table := table - {id};
        left := Without(left, id);
      }
      assert ids[..|ids|] == ids;
    }

    /** One instruction of a plan: evict, alloc, prefetch, dispatch, free. A failure leaves everything that
        was allocated owned. */
    method RunInstruction(i: nat, inst: Instruction, act: Actions, ghost c: Config,
        ghost heap0: map<Handle, Buffer<V>>, ghost table0: map<Id, Handle>, owned: seq<Id>, ghost live: set<Id>,
        ghost residents: set<Id>, ghost nextLive: set<Id>, ghost nextResidents: set<Id>, ghost vals: map<Id, V>,
        ghost tracked: bool)
      returns (rc: int, left: seq<Id>)
      requires i < |c.p.insts| && c.p.insts[i] == inst && inst.resultId !in OperandIds(inst)
      requires Executes(c, i, act, residents, live, nextResidents, nextLive)
      requires Holds(c, moves, heap, table, live, residents, vals) && Owns(c, heap0, table0, heap, table, owned)
      requires inst.resultId !in vals && OperandIds(inst) <= vals.Keys
      requires table0.Keys == SetOf(c.p.inputs) && HandlesOf(table0, table0.Keys) <= heap0.Keys && Sharing(c, table0)
      requires Tracks(tracked, residents) && (tracked ==> moves && c.budget > 0)
      requires tracked ==> peak <= c.budget
      requires tracked ==>
        SumCost(c.units, residents - SetOf(act.evict) + {inst.resultId} + SetOf(act.prefetch)) <= c.budget
      modifies this
      ensures Owns(c, heap0, table0, heap, table, left) && Sharing(c, table) && InPlace(moves, heap, table)
      ensures tracked ==> peak <= c.budget
      ensures rc == 0 <==> (faults == old(faults) &&
        Dispatched(registered, kernels(inst.resultId), inst.opcode, OperandValues(inst, vals), inst.param,
          inst.scalar).Some?)
      ensures rc == 0 ==> log == old(log) + KernelsFor(registered, inst.opcode)
      ensures faults >= old(faults) && (Faultless() ==> faults == old(faults))
      ensures rc == 0 ==> Holds(c, moves, heap, table, nextLive, nextResidents,
        vals[inst.resultId := Compute(Effective(registered, kernels(inst.resultId)), inst, vals)])
      ensures rc == 0 ==> Tracks(tracked, nextResidents)
    {
      hide *;
      Unpack(c, i, act, residents, live, nextResidents, nextLive);
      LiveTable(c, moves, heap, table, live, residents, vals);
      left := owned;
      rc := MoveAll(act.evict, Host, c, heap0, table0, owned, live, residents, vals, tracked);
      if rc != 0 {
        return -1, left;
      }
      ghost var kept := residents - SetOf(act.evict);
      var ok := AllocResult(inst.resultId, c, heap0, table0, owned, live, kept, vals, tracked);
      if !ok {
        return -1, left;
      }
      left := owned + [inst.resultId];
      LiveTable(c, moves, heap, table, live + {inst.resultId}, kept + {inst.resultId}, vals);
      rc := MoveAll(
        act.prefetch, Device, c, heap0, table0, left, live + {inst.resultId}, kept + {inst.resultId}, vals, tracked);
      if rc != 0 {
        return -1, left;
      }
      ghost var device := kept + {inst.resultId} + SetOf(act.prefetch);
      rc := DispatchOnDevice(inst, c, heap0, table0, left, live + {inst.resultId}, device, vals, tracked);
      if rc != 0 {
        return;
      }
      left := FreeAll(act.free, c, heap0, table0, left, live + {inst.resultId}, device,
        vals[inst.resultId := Compute(Effective(registered, kernels(inst.resultId)), inst, vals)], tracked);
      LiveTable(c, moves, heap, table, nextLive, nextResidents,
        vals[inst.resultId := Compute(Effective(registered, kernels(inst.resultId)), inst, vals)]);
    }

    /** Dispatches with everything on the device, recording how full it is. */
    method DispatchOnDevice(inst: Instruction, ghost c: Config, ghost heap0: map<Handle, Buffer<V>>,
        ghost table0: map<Id, Handle>, ghost owned: seq<Id>, ghost live: set<Id>, ghost device: set<Id>,
        ghost vals: map<Id, V>, ghost tracked: bool)
      returns (rc: int)
      requires Holds(c, moves, heap, table, live, device, vals) && Owns(c, heap0, table0, heap, table, owned)
      requires WorkingSet(inst) <= device && inst.resultId !in OperandIds(inst) && inst.resultId !in c.p.inputs
      requires OperandIds(inst) <= vals.Keys && table0.Keys == SetOf(c.p.inputs)
      requires Tracks(tracked, device) && (tracked ==> peak <= c.budget && SumCost(c.units, device) <= c.budget)
      modifies `heap, `peak, `calls, `faults, `log
      ensures Owns(c, heap0, table0, heap, table, owned) && InPlace(moves, heap, table)
      ensures tracked ==> peak <= c.budget
      ensures rc == 0 <==> (faults == old(faults) &&
        Dispatched(registered, kernels(inst.resultId), inst.opcode, OperandValues(inst, vals), inst.param,
          inst.scalar).Some?)
      ensures rc == 0 ==> log == old(log) + KernelsFor(registered, inst.opcode)
      ensures faults >= old(faults) && (Faultless() ==> faults == old(faults))
      ensures rc == 0 ==> Holds(c, moves, heap, table, live, device,
        vals[inst.resultId := Compute(Effective(registered, kernels(inst.resultId)), inst, vals)])
      ensures rc == 0 ==> Tracks(tracked, device)
    {
      hide Holds; hide Owns; hide Sharing; hide OnDevice; hide CanRun; hide Outcome; hide Dispatched; hide Compute;
      hide Effective; hide OperandIds; hide OperandValues; hide WorkingSet; hide SumCost; hide SetOf;
      InWorkingSet(inst);
      peak := Max(peak, SumCost(c.units, OnDevice(heap, table)));
      CanRunHere(c, moves, heap, table, live, device, vals, inst);
      OutcomeIsValue(registered, kernels(inst.resultId), heap, table, inst, vals);
      ComputeHolds(c, moves, heap, table, live, device, vals, inst.resultId,
        Compute(Effective(registered, kernels(inst.resultId)), inst, vals));
      LiveTable(c, moves, heap, table, live, device, vals);
      ghost var before := heap;
      ResultOnDevice(heap, table, inst);
      rc := Dispatch(inst);
      ghost var written := heap[table[inst.resultId]];
      MoveOwns(c, heap0, table0, before, table, owned, inst.resultId, written);
      ComputeOnDevice(before, table, inst.resultId, written);
    }

    /** Where a plan-aware run stands before instruction `i`. */
    ghost predicate InProgress(c: Config, heap0: map<Handle, Buffer<V>>, table0: map<Id, Handle>, owned: seq<Id>,
        inputs: map<Id, V>, tracked: bool, i: nat)
      requires i <= |c.p.insts| && PlanOf(c).Some? && |PlanOf(c).value.actions| == |c.p.insts|
      reads this
    {
      && Midway(c, EffectiveAll(registered, kernels), moves, inputs, heap, table, i)
      && Owns(c, heap0, table0, heap, table, owned)
      && Tracks(tracked, Resident(c, i))
      && (tracked ==> peak <= c.budget)
      && Runs(registered, kernels, c.p, inputs, i)
    }

    /** One step of a plan-aware run. */
    method StepPlan(i: nat, p: Program, act: Actions, ghost c: Config, ghost heap0: map<Handle, Buffer<V>>,
        ghost table0: map<Id, Handle>, owned: seq<Id>, ghost inputs: map<Id, V>, ghost tracked: bool)
      returns (rc: int, left: seq<Id>)
      requires Valid(p) && c.p == p && i < |p.insts| && PlanOf(c).Some? && |PlanOf(c).value.actions| == |p.insts|
      requires act == PlanOf(c).value.actions[i] && inputs.Keys == SetOf(p.inputs)
      requires table0.Keys == SetOf(c.p.inputs) && HandlesOf(table0, table0.Keys) <= heap0.Keys && Sharing(c, table0)
      requires tracked ==> moves && c.budget > 0
      requires InProgress(c, heap0, table0, owned, inputs, tracked, i)
      modifies this
      ensures Owns(c, heap0, table0, heap, table, left) && Sharing(c, table) && InPlace(moves, heap, table)
      ensures tracked ==> peak <= c.budget
      ensures rc == 0 ==> log == old(log) + KernelsFor(registered, p.insts[i].opcode)
      ensures faults >= old(faults) && (Faultless() ==> faults == old(faults))
      ensures rc == 0 ==> faults == old(faults) && InProgress(c, heap0, table0, left, inputs, tracked, i + 1)
      ensures rc != 0 ==> faults > old(faults) || !Runs(registered, kernels, p, inputs, |p.insts|)
    {
      hide PlanOf; hide Owns; hide Midway; hide Runs; hide Tracks; hide Sharing; hide Valid; hide Live; hide Resident;
      hide Eval; hide Effective; hide Compute; hide Dispatched; hide OperandIds; hide OperandValues; hide DefinedBefore;
      hide HandlesOf; hide SumCost; hide SetOf; hide Executes; hide Holds;
      ghost var ks := EffectiveAll(registered, kernels);
      ghost var vals := Eval(ks, p, inputs, i);
      EvalDomain(ks, p, inputs, i);
      ResultIsNew(p, i);
      OwnResult(p, i);
      PlanExecutes(c, i);
      DeviceFits(c, i, act);
      MidwayMeans(c, ks, moves, inputs, heap, table, i);
      rc, left := RunInstruction(i, p.insts[i], act, c, heap0, table0, owned,
        Live(c, i), Resident(c, i), Live(c, i + 1), Resident(c, i + 1), vals, tracked);
      if rc == 0 {
        EvalStep(ks, p, inputs, i);
        MidwayMeans(c, ks, moves, inputs, heap, table, i + 1);
        RunsStep(registered, kernels, p, inputs, i);
      } else {
        StuckMeans(registered, kernels, p, inputs, i);
      }
    }

    /** Executes a program under a plan analysed for it. A plan with another instruction count is refused.
        Otherwise it succeeds exactly when no hook or kernel fails and the table can run every instruction. On
        success the pinned ids hold what plain evaluation computes; on any failure everything the plan allocated
        has been freed and the inputs still there hold what they did. When the inputs start on the host, the
        device never holds more than the budget. */
    method ExecutePlan(p: Program, plan: Plan, ghost c: Config) returns (rc: int)
      requires Valid(p) && c.p == p && Supplied(c, moves, heap, table)
      requires |plan.actions| == |p.insts| ==> PlanOf(c) == Some(plan)
      modifies this
      ensures |plan.actions| != |p.insts| ==> rc != 0 && heap == old(heap) && table == old(table)
      ensures rc == 0 <==> (|plan.actions| == |p.insts| && faults == old(faults) &&
        Runs(registered, kernels, p, InputValues(old(heap), old(table)), |p.insts|))
      ensures rc == 0 ==> log == old(log) + KernelsRun(registered, p, |p.insts|)
      ensures faults >= old(faults) && (Faultless() ==> faults == old(faults))
      ensures rc == 0 ==> Finished(c, EffectiveAll(registered, kernels), moves, old(heap), old(table), heap, table)
      ensures rc != 0 ==> CleanedUp(c, old(heap), old(table), heap, table) && InPlace(moves, heap, table)
      ensures |plan.actions| == |p.insts| && moves && c.budget > 0 && OnDevice(old(heap), old(table)) == {} ==>
        peak <= c.budget
    {
      hide PlanOf; hide Owns; hide Midway; hide Runs; hide Sharing; hide Valid; hide Live; hide Resident;
      hide Eval; hide Effective; hide EffectiveAll; hide DefinedBefore; hide HandlesOf; hide SetOf; hide Holds;
      hide OnDevice;
      hide Supplied; hide Finished; hide CleanedUp; hide InPlace;
      hide KernelsFor;
      ghost var heap0, table0 := heap, table;
      SuppliedFacts(c, moves, heap, table);
      ghost var inputs := InputValues(heap, table);
      ghost var ks := EffectiveAll(registered, kernels);
      ghost var tracked := moves && c.budget > 0 && OnDevice(heap, table) == {};
      NothingChanged(c, moves, heap, table);
      if |plan.actions| != |p.insts| {
        return -1;
      }
      peak := 0;
      StartsMidway(c, ks, moves, heap, table);
      StartTracked(c, heap, table, tracked);
      var owned: seq<Id> := [];
      assert InProgress(c, heap0, table0, owned, inputs, tracked, 0);
      for i := 0 to |p.insts|
        invariant InProgress(c, heap0, table0, owned, inputs, tracked, i) && faults == old(faults)
        invariant log == old(log) + KernelsRun(registered, p, i)
      {
        KernelsStep(registered, p, i);
        rc, owned := StepPlan(i, p, plan.actions[i], c, heap0, table0, owned, inputs, tracked);
        if rc != 0 {
          ReleaseOwned(c, heap0, table0, owned);
          return;
        }
      }
      FinishedNow(c, ks, moves, heap0, table0, heap, table, owned);
      rc := 0;
    }
  }

  lemma KernelsStep(table: set<Opcode>, p: Program, i: nat)
    requires i < |p.insts|
    ensures KernelsRun(table, p, i + 1) == KernelsRun(table, p, i) + KernelsFor(table, p.insts[i].opcode)
    ensures KernelsRun(table, p, 0) == []
  {
    hide KernelsFor;
  }

  lemma OwnResult(p: Program, i: nat)
    requires Valid(p) && i < |p.insts|
    ensures p.insts[i].resultId !in OperandIds(p.insts[i])
  {
  }

  lemma {:induction false} SuppliedFacts<V>(c: Config, moves: bool, heap: map<Handle, Buffer<V>>, table: map<Id, Handle>)
    requires Supplied(c, moves, heap, table)
    ensures table.Keys == SetOf(c.p.inputs) && HandlesOf(table, table.Keys) <= heap.Keys && Sharing(c, table)
    ensures (forall x :: x in table ==> table[x] in heap)
    ensures InputValues(heap, table).Keys == SetOf(c.p.inputs)
  {
  }

  lemma NothingChanged<V>(c: Config, moves: bool, heap: map<Handle, Buffer<V>>, table: map<Id, Handle>)
    requires Supplied(c, moves, heap, table)
    ensures CleanedUp(c, heap, table, heap, table) && InPlace(moves, heap, table)
  {
    assert HandlesOf(table, {}) == {};
    assert SetOf(c.p.inputs) - table.Keys == {};
  }

  lemma StartTracked<V>(c: Config, heap: map<Handle, Buffer<V>>, table: map<Id, Handle>, tracked: bool)
    requires PlanOf(c).Some? && (tracked ==> OnDevice(heap, table) == {})
    ensures tracked ==> OnDevice(heap, table) == Resident(c, 0)
    ensures forall registered, ks: Kernels<V>, p: Program, inputs :: Runs(registered, ks, p, inputs, 0)
  {
    ResidentAtStart(c);
  }

  lemma MidwayMeans<V>(
      c: Config, ks: Kernels<V>, moves: bool, inputs: map<Id, V>, heap: map<Handle, Buffer<V>>, table: map<Id, Handle>,
      i: nat)
    requires i <= |c.p.insts| && PlanOf(c).Some? && |PlanOf(c).value.actions| == |c.p.insts|
    ensures Midway(c, ks, moves, inputs, heap, table, i) <==>
      Holds(c, moves, heap, table, Live(c, i), Resident(c, i), Eval(ks, c.p, inputs, i))
  {
  }

  lemma RunsStep<V>(registered: set<Opcode>, ks: Kernels<V>, p: Program, inputs: map<Id, V>, i: nat)
    requires i < |p.insts| && Runs(registered, ks, p, inputs, i)
    requires var inst := p.insts[i];
      var vals := Eval(EffectiveAll(registered, ks), p, inputs, i);
      Dispatched(registered, ks(inst.resultId), inst.opcode, OperandValues(inst, vals), inst.param, inst.scalar).Some?
    ensures Runs(registered, ks, p, inputs, i + 1)
  {
    hide Dispatched; hide OperandValues; hide Effective; hide EffectiveAll;
  }

  /** A program with an instruction that cannot be dispatched does not run. */
  lemma StuckMeans<V>(registered: set<Opcode>, ks: Kernels<V>, p: Program, inputs: map<Id, V>, i: nat)
    requires i < |p.insts|
    ensures var inst := p.insts[i];
      var vals := Eval(EffectiveAll(registered, ks), p, inputs, i);
      var args := OperandValues(inst, vals);
      var r := Dispatched(registered, ks(inst.resultId), inst.opcode, args, inst.param, inst.scalar);
      r.None? ==> !Runs(registered, ks, p, inputs, |p.insts|)
  {
    hide Dispatched; hide OperandValues; hide Effective; hide EffectiveAll; hide Eval;
    if Runs(registered, ks, p, inputs, |p.insts|) {
      assert RunsHere(registered, ks, p, inputs, i);
    }
  }

  /** The planned residents of a dispatch are within budget. */
  lemma {:induction false} DeviceFits(c: Config, i: nat, act: Actions)
    requires Valid(c.p) && PlanOf(c).Some? && i < |c.p.insts| == |PlanOf(c).value.actions|
    requires act == PlanOf(c).value.actions[i]
    ensures c.budget > 0 ==>
      SumCost(c.units, Resident(c, i) - SetOf(act.evict) + {c.p.insts[i].resultId} + SetOf(act.prefetch)) <= c.budget
  {
    hide *;
    var n := |c.p.insts|;
    PlanActions(c, i);
    var t := Trace(c, n);
    PlannedActions(c, t, i);
    ResidentIs(c, t, i);
    DeviceFlow(c, t, i);
    EveryDispatchIsResident(c, t, i);
    SortedEnumerates(Missing(c, i, t[i].resident));
    SameActions(c, t, i);
  }

  lemma {:induction false} SameActions(c: Config, t: seq<State>, i: nat)
    requires Valid(c.p) && IsRun(c, t) && i + 1 < |t|
    ensures |t[|t| - 1].actions| == |t| - 1 && |t[i + 1].actions| == i + 1
    ensures t[i + 1].actions[i] == t[|t| - 1].actions[i]
  {
    hide IsRun; hide Valid;
    ActionsGrow(c, t, i + 1, |t| - 1);
  }

  /** What is left when every instruction has run. */
  lemma {:induction false} FinishedNow<V>(
      c: Config, ks: Kernels<V>, moves: bool, heap0: map<Handle, Buffer<V>>, table0: map<Id, Handle>,
      heap: map<Handle, Buffer<V>>, table: map<Id, Handle>, owned: seq<Id>)
    requires Valid(c.p) && Supplied(c, moves, heap0, table0)
    requires PlanOf(c).Some? && |PlanOf(c).value.actions| == |c.p.insts|
    requires Midway(c, ks, moves, InputValues(heap0, table0), heap, table, |c.p.insts|)
    requires Owns(c, heap0, table0, heap, table, owned)
    ensures Finished(c, ks, moves, heap0, table0, heap, table)
  {
    hide PlanOf; hide Sharing; hide NoDup; hide Live; hide Resident; hide Valid; hide Eval; hide Run;
    hide DefinedBefore; hide Defs; hide HandlesOf; hide Supplied; hide InputValues; hide SetOf;
    SuppliedFacts(c, moves, heap0, table0);
    EvalDomain(ks, c.p, InputValues(heap0, table0), |c.p.insts|);
    LiveAtEnd(c);
    ApartFromResults(c, heap0, table0, heap, table, owned);
  }

  lemma LiveAtEnd(c: Config)
    requires Valid(c.p) && PlanOf(c).Some? && |PlanOf(c).value.actions| == |c.p.insts|
    ensures Live(c, |c.p.insts|) == (if c.p.insts == [] then SetOf(c.p.inputs) else Defs(c.p) * c.pinned)
    ensures Live(c, |c.p.insts|) <= DefinedBefore(c.p, |c.p.insts|)
  {
    hide PlanOf; hide Valid;
    if c.p.insts == [] {
      assert DefinedBefore(c.p, 0) == SetOf(c.p.inputs);
    } else {
      AllFreed(c);
    }
  }

  lemma ApartFromResults<V>(
      c: Config, heap0: map<Handle, Buffer<V>>, table0: map<Id, Handle>,
      heap: map<Handle, Buffer<V>>, table: map<Id, Handle>, owned: seq<Id>)
    requires Owns(c, heap0, table0, heap, table, owned) && table0.Keys == SetOf(c.p.inputs)
    requires Sharing(c, table0) && HandlesOf(table0, table0.Keys) <= heap0.Keys
    ensures HandlesOf(table0, SetOf(c.p.inputs) * table.Keys) !! HandlesOf(table, table.Keys - SetOf(c.p.inputs))
  {
    var inputs := SetOf(c.p.inputs);
    forall x | x in inputs * table.Keys ensures table0[x] !in HandlesOf(table, table.Keys - inputs) {
      assert table0[x] in HandlesOf(table0, table0.Keys);
      assert table0[x] !in HandlesOf(table0, inputs - table.Keys) by {
        forall y | y in inputs - table.Keys ensures table0[y] != table0[x] {
        }
      }
      forall y | y in table.Keys - inputs ensures table[y] != table0[x] {
        assert y in owned;
      }
    }
  }

  lemma InWorkingSet(inst: Instruction)
    ensures inst.resultId in WorkingSet(inst) && OperandIds(inst) <= WorkingSet(inst)
  {
  }

  lemma ResultOnDevice<V>(heap: map<Handle, Buffer<V>>, table: map<Id, Handle>, inst: Instruction)
    requires CanRun(heap, table, inst)
    ensures inst.resultId in table && table[inst.resultId] in heap && heap[table[inst.resultId]].place == Device
  {
  }

  /** The set facts an executor needs from one instruction's actions. */
  lemma Unpack(
      c: Config, i: nat, act: Actions, residents: set<Id>, live: set<Id>, nextResidents: set<Id>, nextLive: set<Id>)
    requires i < |c.p.insts| && Executes(c, i, act, residents, live, nextResidents, nextLive)
    ensures var inst := c.p.insts[i];
      var device := residents - SetOf(act.evict) + {inst.resultId} + SetOf(act.prefetch);
      && SetOf(act.evict) <= live && (act.evict != [] ==> c.budget > 0)
      && inst.resultId !in live && inst.resultId !in c.p.inputs
      && SetOf(act.prefetch) <= live + {inst.resultId}
      && WorkingSet(inst) <= device
      && NoDup(act.free) && SetOf(act.free) <= live + {inst.resultId} && SetOf(act.free) !! c.pinned
      && nextLive == live + {inst.resultId} - SetOf(act.free) && nextResidents == device - SetOf(act.free)
  {
    hide NoDup; hide SetOf; hide OperandIds;
  }

  lemma NotBefore(ids: seq<Id>, k: nat)
    requires NoDup(ids) && k < |ids|
    ensures ids[k] !in SetOf(ids[..k])
  {
  }

  lemma LiveHasBuffer<V>(
      c: Config, moves: bool, heap: map<Handle, Buffer<V>>, table: map<Id, Handle>,
      live: set<Id>, onDevice: set<Id>, vals: map<Id, V>, x: Id)
    requires Holds(c, moves, heap, table, live, onDevice, vals) && x in live
    ensures x in table && table[x] in heap && Sharing(c, table)
  {
  }

  lemma LiveTable<V>(
      c: Config, moves: bool, heap: map<Handle, Buffer<V>>, table: map<Id, Handle>,
      live: set<Id>, onDevice: set<Id>, vals: map<Id, V>)
    requires Holds(c, moves, heap, table, live, onDevice, vals)
    ensures table.Keys == live && Sharing(c, table) && InPlace(moves, heap, table)
    ensures forall x :: x in table ==> table[x] in heap
  {
  }

  lemma OwnsIsNoDup<V>(
      c: Config, heap0: map<Handle, Buffer<V>>, table0: map<Id, Handle>,
      heap: map<Handle, Buffer<V>>, table: map<Id, Handle>, owned: seq<Id>)
    requires Owns(c, heap0, table0, heap, table, owned)
    ensures NoDup(owned)
  {
  }

  lemma SharingShrinks(c: Config, table: map<Id, Handle>, x: Id)
    requires Sharing(c, table)
    ensures Sharing(c, table - {x})
  {
  }

  lemma {:induction false} RestOfOwned<V>(
      c: Config, heap0: map<Handle, Buffer<V>>, table0: map<Id, Handle>,
      heap: map<Handle, Buffer<V>>, table: map<Id, Handle>, owned: seq<Id>, k: nat)
    requires NoDup(owned) && k < |owned| && Owns(c, heap0, table0, heap, table, Without(owned[k..], owned[k]))
    ensures Owns(c, heap0, table0, heap, table, owned[k + 1..])
  {
    WithoutDrops(owned[k..], owned[k]);
    assert owned[k..] == [owned[k]] + owned[k + 1..];
    SetOfCons(owned[k], owned[k + 1..]);
    assert owned[k] !in SetOf(owned[k + 1..]);
    hide Owns; hide Without;
    OwnsSameIds(c, heap0, table0, heap, table, Without(owned[k..], owned[k]), owned[k + 1..]);
  }

  lemma NothingOwned<V>(
      c: Config, heap0: map<Handle, Buffer<V>>, table0: map<Id, Handle>,
      heap: map<Handle, Buffer<V>>, table: map<Id, Handle>, owned: seq<Id>)
    requires Owns(c, heap0, table0, heap, table, owned) && owned == []
    ensures CleanedUp(c, heap0, table0, heap, table)
  {
    assert SetOf(owned) == {};
    assert HandlesOf(table, {}) == {};
  }
}
