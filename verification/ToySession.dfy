/** A recorded list run over the toy backend decrypts to what the list computes on integers. */
module ToySession {
  import opened Fhn
  import opened Sets
  import opened Modular
  import opened ToyFhe
  import opened Decomposition
  import opened Simulation
  import opened ToyKernels
  import opened ToyMeaning
  import opened Memory
  import opened Executor
  import opened Graph
  import opened Lowering
  import opened Session

  // ---- The list on integers --------------------------------------------------------------------

  /** The integer in `e` after the first `i` operations. */
  function IntAfter(ops: seq<Operation>, ints: Entity -> int, i: nat, e: Entity): int
    requires i <= |ops|
    decreases i
  {
    if i == 0 then ints(e)
    else if Target(ops[i - 1]) != e then IntAfter(ops, ints, i - 1, e)
    else
      var x, y := IntAfter(ops, ints, i - 1, ops[i - 1].operand1), IntAfter(ops, ints, i - 1, ops[i - 1].operand2);
      match ops[i - 1].kind
      case Add => x + y
      case Multiply => x * y
      case Assignment => y
      case _ => x
  }

  lemma {:induction false} IntUnwritten(ops: seq<Operation>, ints: Entity -> int, i: nat, e: Entity)
    requires i <= |ops| && LastDef(ops, i, e).None?
    ensures IntAfter(ops, ints, i, e) == ints(e)
  {
    if i > 0 {
      IntUnwritten(ops, ints, i - 1, e);
    }
  }

  /** What the entities' buffers are known to hold: one slot with the entity's integer. */
  function KnownOf(encrypted: set<Entity>, ints: Entity -> int, bounds: Entity -> nat): Entity -> Noisy {
    (e: Entity) => if e in encrypted then Known(false, [Slot(ints(e), bounds(e))]) else Lost
  }

  /** One slot. */
  function One(m: int, bound: nat): Noisy {
    Known(false, [Slot(m, bound)])
  }

  /** Constants are what their entities hold. */
  ghost predicate ScalarsHold(scalars: map<Entity, int>, ints: Entity -> int) {
    forall e :: e in scalars ==> ints(e) == scalars[e]
  }

  // ---- The noise of the list -------------------------------------------------------------------

  /** The noise bound of `e` after the first `i` operations: kept by an assignment or a constant added, added up by a
      sum, multiplied by a constant factor, and that of a product otherwise. */
  function BoundAfter(
    p: Params, scalars: map<Entity, int>, ops: seq<Operation>, ints: Entity -> int, bounds: Entity -> nat, i: nat,
    e: Entity): nat
    requires i <= |ops|
    decreases i
  {
    if i == 0 then bounds(e)
    else if Target(ops[i - 1]) != e then BoundAfter(p, scalars, ops, ints, bounds, i - 1, e)
    else
      var op := ops[i - 1];
      var b := BoundAfter(p, scalars, ops, ints, bounds, i - 1, op.operand1);
      var c := BoundAfter(p, scalars, ops, ints, bounds, i - 1, op.operand2);
      match op.kind
      case Add => if op.operand2 in scalars then b else b + c
      case Multiply =>
        if op.operand2 in scalars then
          NonnegativeParts(Abs(scalars[op.operand2]), b, 1);
          Abs(scalars[op.operand2]) * b
        else
          ProductBound(p, IntAfter(ops, ints, i - 1, op.operand1), b, IntAfter(ops, ints, i - 1, op.operand2), c)
      case _ => c
  }

  /** An entity's message and noise before operation `i` are where multiplication keeps them apart. */
  ghost predicate FactorFits(
    p: Params, scalars: map<Entity, int>, ops: seq<Operation>, ints: Entity -> int, bounds: Entity -> nat, i: nat,
    e: Entity)
    requires i <= |ops|
  {
    2 * BoundAfter(p, scalars, ops, ints, bounds, i, e) < Delta(p) && 2 * Abs(IntAfter(ops, ints, i, e)) < p.t
  }

  /** The factors of every product of two ciphertexts fit. */
  ghost predicate FactorsFit(
    p: Params, scalars: map<Entity, int>, ops: seq<Operation>, ints: Entity -> int, bounds: Entity -> nat)
  {
    forall i :: 0 <= i < |ops| && ops[i].kind == Multiply && ops[i].operand2 !in scalars ==>
      FactorFits(p, scalars, ops, ints, bounds, i, ops[i].operand1) &&
      FactorFits(p, scalars, ops, ints, bounds, i, ops[i].operand2)
  }

  lemma NoisyKernelIs(p: Params, op: Opcode, args: seq<Option<Noisy>>, param: int, scalar: int)
    requires |args| == 4
    ensures NoisyKernel(p)(op, args, param, scalar) ==
      if args[0].None? then Lost
      else if NoisyUnary(op, args[0].value, param, scalar).Some? then
        NoisyUnary(op, args[0].value, param, scalar).value
      else if args[1].None? then Lost
      else NoisyBinary(p, op, args[0].value, args[1].value, param)
  {
    hide NoisyUnary; hide NoisyBinary;
  }

  /** Operations with a constant. */
  lemma ScalarKnown(x: int, b: nat, k: int)
    ensures NoisyUnary(ADD_CS, One(x, b), 0, k) == Some(One(x + k, b))
    ensures Abs(k) * b >= 0 && NoisyUnary(MULT_CS, One(x, b), 0, k) == Some(One(x * k, Abs(k) * b))
  {
    NonnegativeParts(Abs(k), b, 1);
  }

  /** Operations of two ciphertexts. */
  lemma PairKnown(p: Params, x: int, b: nat, y: int, c: nat)
    ensures NoisyUnary(ADD_CC, One(x, b), 0, 0).None? && NoisyUnary(HMULT, One(x, b), 0, 0).None?
    ensures NoisyBinary(p, ADD_CC, One(x, b), One(y, c), 0) == One(x + y, b + c)
    ensures SlotInRange(p, Slot(x, b)) && SlotInRange(p, Slot(y, c)) ==>
      NoisyBinary(p, HMULT, One(x, b), One(y, c), 0) == One(x * y, ProductBound(p, x, b, y, c))
  {
    hide ProductBound;
    var a, d := One(x, b).slots, One(y, c).slots;
    assert ZipSlots(SumSlot, a, d) == [SumSlot(Slot(x, b), Slot(y, c))];
    assert ZipSlots((v, w) => ProductSlot(p, v, w), a, d) == [ProductSlot(p, Slot(x, b), Slot(y, c))];
  }

  /** One operation, its operands known. */
  lemma {:induction false} CombineKnown(
      p: Params, scalars: map<Entity, int>, op: Operation, v: Noisy, w: Noisy, x: int, b: nat, y: int, c: nat)
    requires Supported(op) && (op.kind != Assignment ==> v == One(x, b))
    requires op.kind == Assignment || op.operand2 !in scalars ==> w == One(y, c)
    requires op.operand2 in scalars ==> scalars[op.operand2] == y
    requires op.kind == Multiply && op.operand2 !in scalars ==>
      SlotInRange(p, Slot(x, b)) && SlotInRange(p, Slot(y, c))
    ensures Abs(y) * b >= 0
    ensures Combine(NoisyKernel(p), scalars, op, v, w) ==
      match op.kind
      case Add => One(x + y, if op.operand2 in scalars then b else b + c)
      case Multiply => One(x * y, if op.operand2 in scalars then Abs(y) * b else ProductBound(p, x, b, y, c))
      case _ => One(y, c)
  {
    hide NoisyKernel; hide NoisyUnary; hide NoisyBinary; hide One; hide ProductBound; hide SlotInRange;
    ScalarKnown(x, b, y);
    PairKnown(p, x, b, y, c);
    if op.kind != Assignment {
      var args := if op.operand2 in scalars then [Some(v), None, None, None] else [Some(v), Some(w), None, None];
      var code := if op.operand2 in scalars then (if op.kind == Add then ADD_CS else MULT_CS)
        else if op.kind == Add then ADD_CC else HMULT;
      NoisyKernelIs(p, code, args, 0, if op.operand2 in scalars then y else 0);
    }
  }

  /** Every entity that is encrypted, or written by then, is known to hold the integer and the noise of the list. */
  lemma {:induction false} KnownAfter(
      p: Params, scalars: map<Entity, int>, ops: seq<Operation>, encrypted: set<Entity>, ints: Entity -> int,
      bounds: Entity -> nat, i: nat, e: Entity)
    requires i <= |ops| && AllSupported(ops) && ScalarsConstant(ops, scalars) && ScalarsHold(scalars, ints)
    requires ReadsEncrypted(ops, scalars, encrypted) && FactorsFit(p, scalars, ops, ints, bounds)
    requires e in encrypted || LastDef(ops, i, e).Some?
    ensures ValueAfter(NoisyKernel(p), scalars, ops, KnownOf(encrypted, ints, bounds), i, e) ==
      One(IntAfter(ops, ints, i, e), BoundAfter(p, scalars, ops, ints, bounds, i, e))
    decreases i
  {
    hide NoisyKernel; hide Combine; hide ProductBound; hide ScalarsConstant; hide ReadInitially; hide Delta;
    if i > 0 {
      var op := ops[i - 1];
      if Target(op) != e {
        KnownAfter(p, scalars, ops, encrypted, ints, bounds, i - 1, e);
      } else {
        var known := KnownOf(encrypted, ints, bounds);
        OperandsKnown(ops, scalars, encrypted, i - 1);
        KnownAfter(p, scalars, ops, encrypted, ints, bounds, i - 1, op.operand1);
        if op.operand2 in scalars {
          ScalarNeverDefined(ops, scalars, i - 1, op.operand2);
          IntUnwritten(ops, ints, i - 1, op.operand2);
        }
        if op.kind == Assignment || op.operand2 !in scalars {
          KnownAfter(p, scalars, ops, encrypted, ints, bounds, i - 1, op.operand2);
        }
        FactorsFitAt(p, scalars, ops, ints, bounds, i - 1);
        CombineKnown(p, scalars, op,
          ValueAfter(NoisyKernel(p), scalars, ops, known, i - 1, op.operand1),
          ValueAfter(NoisyKernel(p), scalars, ops, known, i - 1, op.operand2),
          IntAfter(ops, ints, i - 1, op.operand1), BoundAfter(p, scalars, ops, ints, bounds, i - 1, op.operand1),
          IntAfter(ops, ints, i - 1, op.operand2), BoundAfter(p, scalars, ops, ints, bounds, i - 1, op.operand2));
      }
    }
  }

  lemma OperandsKnown(ops: seq<Operation>, scalars: map<Entity, int>, encrypted: set<Entity>, i: nat)
    requires i < |ops| && ReadsEncrypted(ops, scalars, encrypted)
    ensures ops[i].operand1 in encrypted || LastDef(ops, i, ops[i].operand1).Some?
    ensures ops[i].kind == Assignment || ops[i].operand2 !in scalars ==>
      ops[i].operand2 in encrypted || LastDef(ops, i, ops[i].operand2).Some?
  {
    hide LastDef;
    if LastDef(ops, i, ops[i].operand1).None? {
      assert ReadsInitial(ops, scalars, i, ops[i].operand1);
      assert ReadInitially(ops, scalars, ops[i].operand1);
    }
    if (ops[i].kind == Assignment || ops[i].operand2 !in scalars) && LastDef(ops, i, ops[i].operand2).None? {
      assert ReadsInitial(ops, scalars, i, ops[i].operand2);
      assert ReadInitially(ops, scalars, ops[i].operand2);
    }
  }

  lemma FactorsFitAt(
      p: Params, scalars: map<Entity, int>, ops: seq<Operation>, ints: Entity -> int, bounds: Entity -> nat, i: nat)
    requires i < |ops| && FactorsFit(p, scalars, ops, ints, bounds)
    ensures ops[i].kind == Multiply && ops[i].operand2 !in scalars ==> forall e ::
      e == ops[i].operand1 || e == ops[i].operand2 ==>
        SlotInRange(p, Slot(IntAfter(ops, ints, i, e), BoundAfter(p, scalars, ops, ints, bounds, i, e)))
  {
    hide IntAfter; hide BoundAfter; hide Delta;
  }

  lemma NoisyScalarsUnary(p: Params)
    ensures ScalarsUnary(NoisyKernel(p))
  {
    hide ProductBound;
  }

  // ---- The run ---------------------------------------------------------------------------------

  /** Every entity's buffer holds its integer, with noise within its bound. */
  ghost predicate HoldInts(
    p: Params, s: int, cts: map<Entity, Handle>, heap: map<Handle, Buffer<Buf>>, ints: Entity -> int,
    bounds: Entity -> nat)
  {
    forall e :: e in cts ==>
      cts[e] in heap && BufHolds(p, s, heap[cts[e]].value, Known(false, [Slot(ints(e), bounds(e))]))
  }

  /** The inputs of the lowered program hold what their source entities are known to. */
  lemma {:induction false} InputsHold(
      p: Params, s: int, st: Lowered, cts: map<Entity, Handle>, heap: map<Handle, Buffer<Buf>>, blank: Buf,
      ints: Entity -> int, bounds: Entity -> nat, inputs: map<Id, Buf>)
    returns (known: map<Id, Noisy>)
    requires HoldInts(p, s, cts, heap, ints, bounds) && InputsFrom(st, StoreOf(cts, heap, blank), inputs)
    requires forall x :: x in st.inputs ==> SourceOf(st.bindings, x).Some?
    ensures InputsFrom(st, KnownOf(cts.Keys, ints, bounds), known)
    ensures AllRelated(HoldsKnown(p, s), inputs, known)
  {
    hide SourceOf; hide SlotHolds;
    var of := KnownOf(cts.Keys, ints, bounds);
    assert forall x :: x in inputs ==> x in st.inputs;
    known := map x | x in inputs :: if SourceOf(st.bindings, x).Some? then of(SourceOf(st.bindings, x).value) else Lost;
    forall x | x in inputs ensures HoldsKnown(p, s)(inputs[x], known[x]) {
      var e := SourceOf(st.bindings, x).value;
      assert inputs[x] == StoreOf(cts, heap, blank)(e);
    }
  }

  /** The opcodes of a lowered list are in the backend's table. */
  lemma {:induction false} LoweredIsToy(
      ops: seq<Operation>, scalars: map<Entity, int>, nodes: seq<Node>, roots: seq<nat>, st: Lowered,
      registered: set<Opcode>)
    requires IsGraphOf(ops, scalars, nodes, roots) && LoweredTo(nodes, scalars, roots, st) && AllSupported(ops)
    requires Conforming(registered)
    ensures forall j :: 0 <= j < |st.insts| ==> st.insts[j].opcode in TOY_TABLE
    ensures TableRuns(registered, scalars, ops)
  {
    hide IsGraphOf; hide LoweredTo;
    forall j | 0 <= j < |st.insts| ensures st.insts[j].opcode in TOY_TABLE {
      OpcodesAreOperations(ops, scalars, nodes, roots, st, st.insts[j].opcode);
      assert Needs(st.insts, st.insts[j].opcode);
    }
  }

  /** Every entity holds what the noise analysis of the list knows. */
  lemma {:induction false} EntitiesHold(
      p: Params, s: int, rnd: Randomness, registered: set<Opcode>, ops: seq<Operation>, scalars: map<Entity, int>,
      nodes: seq<Node>, roots: seq<nat>, st: Lowered, cts0: map<Entity, Handle>, heap0: map<Handle, Buffer<Buf>>,
      blank: Buf, ints: Entity -> int, bounds: Entity -> nat, cts: map<Entity, Handle>, heap: map<Handle, Buffer<Buf>>,
      e: Entity)
    requires IsGraphOf(ops, scalars, nodes, roots) && LoweredTo(nodes, scalars, roots, st) && AllSupported(ops)
    requires Conforming(registered) && AllSampled(p, rnd) && ScalarsConstant(ops, scalars)
    requires HoldInts(p, s, cts0, heap0, ints, bounds) && e in cts
    requires RunDelivered(EffectiveAll(registered, ToyFamily(p, s, rnd)), st, StoreOf(cts0, heap0, blank), cts, heap)
    ensures cts[e] in heap
    ensures BufHolds(p, s, heap[cts[e]].value,
      ValueAfter(NoisyKernel(p), scalars, ops, KnownOf(cts0.Keys, ints, bounds), |ops|, e))
  {
    hide *;
    var ks, of := EffectiveAll(registered, ToyFamily(p, s, rnd)), KnownOf(cts0.Keys, ints, bounds);
    var store := StoreOf(cts0, heap0, blank);
    var prog, inputs := RunOf(ks, st, store, cts, heap);
    LoweredIsValid(ops, scalars, nodes, roots, st, prog);
    var known := InputsHold(p, s, st, cts0, heap0, blank, ints, bounds, inputs);
    LoweredIsToy(ops, scalars, nodes, roots, st, registered);
    ProgramHolds(p, s, rnd, registered, prog, inputs, known);
    NoisyScalarsUnary(p);
    CompilationPreservesMeaning(NoisyKernel(p), ops, scalars, nodes, roots, of, st, prog, known, e);
    var final := Eval(Always(NoisyKernel(p)), prog, known, |prog.insts|);
    WritesBackMeans(NoisyKernel(p), scalars, ops, of, st.bindings, final, e);
    HoldsRunMeans(ks, st, store, prog, inputs, cts, heap, e);
    if Latest(st.bindings, e).Some? {
      RelatedAt(p, s, Eval(ks, prog, inputs, |prog.insts|), final, Latest(st.bindings, e).value);
    } else {
      StoreHolds(p, s, cts0, heap0, blank, ints, bounds, e);
    }
  }

  lemma RelatedAt(p: Params, s: int, vals: map<Id, Buf>, known: map<Id, Noisy>, id: Id)
    requires AllRelated(HoldsKnown(p, s), vals, known) && id in vals
    ensures id in known && BufHolds(p, s, vals[id], known[id])
  {
    hide BufHolds;
    assert HoldsKnown(p, s)(vals[id], known[id]);
  }

  lemma StoreHolds(
      p: Params, s: int, cts: map<Entity, Handle>, heap: map<Handle, Buffer<Buf>>, blank: Buf, ints: Entity -> int,
      bounds: Entity -> nat, e: Entity)
    requires HoldInts(p, s, cts, heap, ints, bounds)
    ensures BufHolds(p, s, StoreOf(cts, heap, blank)(e), KnownOf(cts.Keys, ints, bounds)(e))
  {
    hide SlotHolds;
  }

  /** The buffer is a single ciphertext that decrypts to `x` exactly when `x` is a plaintext. */
  ghost predicate DecryptsAs(p: Params, s: int, b: Buf, x: int) {
    b.Single? && (DecryptInt(p, s, b.ct) == x <==> -p.t < 2 * x <= p.t)
  }

  /** A recorded list over the toy backend, with the fused kernels or without and whatever is sampled: a run that is
      not refused fails exactly when a hook or kernel does, and leaves encrypted exactly what was and what the list
      writes; where the factors of every product fit, every entity whose noise the list leaves below half of delta
      then decrypts to the integer that running the list on integers leaves in it, exactly when that is a plaintext. */
  method RunRecording(
      session: Session<Buf>, ops: seq<Operation>, scalars: map<Entity, int>, ghost p: Params, ghost s: int,
      ghost rnd: Randomness, ghost ints: Entity -> int, ghost bounds: Entity -> nat)
    returns (outcome: Outcome)
    requires EntitiesLive(session.cts, session.rt.moves, session.rt.heap)
    requires Conforming(session.rt.registered) && session.rt.kernels == ToyFamily(p, s, rnd) && AllSampled(p, rnd)
    requires HoldInts(p, s, session.cts, session.rt.heap, ints, bounds)
    requires ScalarsConstant(ops, scalars) && ScalarsHold(scalars, ints)
    modifies session, session.rt
    ensures !AllSupported(ops) ==> outcome == Unsupported
    ensures AllSupported(ops) && ReadsEncrypted(ops, scalars, old(session.cts).Keys - old(session.foreign)) ==>
      outcome == if session.rt.faults == old(session.rt.faults) then Done else ExecutorFailed
    ensures session.rt.Faultless() ==> session.rt.faults == old(session.rt.faults)
    ensures outcome == Done && ReadsEncrypted(ops, scalars, old(session.Encrypted())) ==>
      session.cts.Keys == old(session.cts).Keys + Targets(ops) && session.foreign == old(session.foreign) - Targets(ops)
    ensures (outcome == Done && ReadsEncrypted(ops, scalars, old(session.cts).Keys - old(session.foreign)) &&
      FactorsFit(p, scalars, ops, ints, bounds)) ==>
      forall e :: e in session.cts ==>
        Decrypted(p, s, scalars, ops, ints, bounds, session.cts, session.rt.heap, e)
  {
    hide *;
    ghost var cts0, heap0, blank, foreign0 := session.cts, session.rt.heap, session.rt.blank, session.foreign;
    ghost var encrypted := session.Encrypted();
    session.EncryptedIs();
    ghost var st;
    outcome, st := session.Optimize(ops, scalars);
    if AllSupported(ops) {
      var nodes, roots := GraphOf(ops, scalars, st);
      LoweredIsToy(ops, scalars, nodes, roots, st, session.rt.registered);
      ReadsOwn(ops, scalars, cts0.Keys, foreign0);
      if outcome == Done && ReadsEncrypted(ops, scalars, cts0.Keys - foreign0) &&
        FactorsFit(p, scalars, ops, ints, bounds)
      {
        forall e | e in session.cts
          ensures Decrypted(p, s, scalars, ops, ints, bounds, session.cts, session.rt.heap, e)
        {
          EntitiesHold(p, s, rnd, session.rt.registered, ops, scalars, nodes, roots, st, cts0, heap0, blank, ints,
            bounds, session.cts, session.rt.heap, e);
          WrittenOrThere(ops, cts0.Keys, e);
          KnownAfter(p, scalars, ops, cts0.Keys, ints, bounds, |ops|, e);
          DecryptedIf(p, s, scalars, ops, ints, bounds, session.cts, session.rt.heap, e);
        }
      }
    }
  }

  lemma {:induction false} WrittenOrThere(ops: seq<Operation>, there: set<Entity>, e: Entity)
    requires e in there + Targets(ops)
    ensures e in there || LastDef(ops, |ops|, e).Some?
  {
    if e in Targets(ops) {
      var j: nat :| j < |ops| && Target(ops[j]) == e;
      SomeDef(ops, j, |ops|, e);
    }
  }

  /** The entity's buffer decrypts to its integer if the list leaves its noise in range. */
  ghost predicate Decrypted(
    p: Params, s: int, scalars: map<Entity, int>, ops: seq<Operation>, ints: Entity -> int, bounds: Entity -> nat,
    cts: map<Entity, Handle>, heap: map<Handle, Buffer<Buf>>, e: Entity)
    requires e in cts
  {
    && cts[e] in heap
    && (2 * BoundAfter(p, scalars, ops, ints, bounds, |ops|, e) < Delta(p) ==>
          DecryptsAs(p, s, heap[cts[e]].value, IntAfter(ops, ints, |ops|, e)))
  }

  lemma {:induction false} DecryptedIf(
      p: Params, s: int, scalars: map<Entity, int>, ops: seq<Operation>, ints: Entity -> int, bounds: Entity -> nat,
      cts: map<Entity, Handle>, heap: map<Handle, Buffer<Buf>>, e: Entity)
    requires e in cts && cts[e] in heap
    requires BufHolds(p, s, heap[cts[e]].value,
      One(IntAfter(ops, ints, |ops|, e), BoundAfter(p, scalars, ops, ints, bounds, |ops|, e)))
    ensures Decrypted(p, s, scalars, ops, ints, bounds, cts, heap, e)
  {
    hide IntAfter; hide BoundAfter; hide Delta; hide DecryptInt; hide SlotHolds;
    var x, b := IntAfter(ops, ints, |ops|, e), BoundAfter(p, scalars, ops, ints, bounds, |ops|, e);
    if 2 * b < Delta(p) {
      HeldDecrypts(p, s, heap[cts[e]].value.ct, Slot(x, b));
    }
  }

  lemma GraphOf(ops: seq<Operation>, scalars: map<Entity, int>, st: Lowered) returns (nodes: seq<Node>, roots: seq<nat>)
    requires LoweredFrom(ops, scalars, st)
    ensures IsGraphOf(ops, scalars, nodes, roots) && LoweredTo(nodes, scalars, roots, st)
  {
    hide IsGraphOf; hide LoweredTo;
    nodes, roots :| IsGraphOf(ops, scalars, nodes, roots) && LoweredTo(nodes, scalars, roots, st);
  }

  /** A list that reads only what the session's backend encrypted reads nothing of another's. */
  lemma ReadsOwn(ops: seq<Operation>, scalars: map<Entity, int>, own: set<Entity>, foreign: set<Entity>)
    ensures ReadsEncrypted(ops, scalars, own - foreign) ==>
      ReadsEncrypted(ops, scalars, own + foreign) && ReadsEncrypted(ops, scalars, own) &&
      !exists e :: e in foreign && ReadInitially(ops, scalars, e)
  {
    hide ReadInitially;
  }
}
