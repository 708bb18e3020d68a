/** What an instruction computes under a kernel table that may lack fused opcodes. */
module Decomposition {
  import opened Fhn

  const FUSED: set<Opcode> := {HMULT, HROT, HROT_ADD, HCONJ_ADD, MAD}

  function Unary<V>(a: Option<V>): (r: seq<Option<V>>) { [a, None, None, None] }

  function Binary<V>(a: Option<V>, b: Option<V>): (r: seq<Option<V>>) { [a, b, None, None] }

  /** The primitive sequence a missing fused opcode stands for; None when the table lacks a primitive it
      needs. Relinearize and rescale are applied only when registered. */
  function Decomposed<V>(table: set<Opcode>, k: Kernel<V>, op: Opcode, args: seq<Option<V>>, param: int, scalar: int)
    : Option<V>
    requires |args| == 4
  {
    match op
    case HMULT =>
      if MULT_CC !in table then None
      else
        var product := k(MULT_CC, Binary(args[0], args[1]), param, scalar);
        var relined := if RELINEARIZE in table then k(RELINEARIZE, Unary(Some(product)), param, scalar) else product;
        Some(if RESCALE in table then k(RESCALE, Unary(Some(relined)), param, scalar) else relined)
    case HROT =>
      if ROTATE !in table then None else Some(k(ROTATE, Unary(args[0]), param, scalar))
    case HROT_ADD =>
      if ADD_CC !in table || (HROT !in table && ROTATE !in table) then None
      else
        var rotated := k(if HROT in table then HROT else ROTATE, Unary(args[0]), param, scalar);
        Some(k(ADD_CC, Binary(Some(rotated), args[1]), param, scalar))
    case HCONJ_ADD =>
      if CONJUGATE !in table || ADD_CC !in table then None
      else Some(k(ADD_CC, Binary(Some(k(CONJUGATE, Unary(args[0]), param, scalar)), args[1]), param, scalar))
    case MAD =>
      if args[1].None? || MULT_CS !in table || ADD_CC !in table then None
      else Some(k(ADD_CC, Binary(Some(k(MULT_CS, Unary(args[0]), param, scalar)), args[1]), param, scalar))
    case _ => None
  }

  /** What an instruction computes: its own kernel if registered, else its decomposition. */
  function Dispatched<V>(table: set<Opcode>, k: Kernel<V>, op: Opcode, args: seq<Option<V>>, param: int, scalar: int)
    : Option<V>
    requires |args| == 4
  {
    if op in table then Some(k(op, args, param, scalar)) else Decomposed(table, k, op, args, param, scalar)
  }

  /** The kernels run for an opcode, in order. */
  function KernelsFor(table: set<Opcode>, op: Opcode): seq<Opcode> {
    if op in table then [op]
    else
      match op
      case HMULT =>
        [MULT_CC] + (if RELINEARIZE in table then [RELINEARIZE] else []) + (if RESCALE in table then [RESCALE] else [])
      case HROT => [ROTATE]
      case HROT_ADD => [if HROT in table then HROT else ROTATE, ADD_CC]
      case HCONJ_ADD => [CONJUGATE, ADD_CC]
      case MAD => [MULT_CS, ADD_CC]
      case _ => []
  }

  /** The kernels run for the first `n` instructions. */
  function KernelsRun(table: set<Opcode>, p: Program, n: nat): seq<Opcode>
    requires n <= |p.insts|
  {
    if n == 0 then [] else KernelsRun(table, p, n - 1) + KernelsFor(table, p.insts[n - 1].opcode)
  }

  /** The table has the kernels an opcode needs. */
  predicate Dispatchable(table: set<Opcode>, op: Opcode) {
    || op in table
    || (op == HMULT && MULT_CC in table)
    || (op == HROT && ROTATE in table)
    || (op == HROT_ADD && ADD_CC in table && (HROT in table || ROTATE in table))
    || (op == HCONJ_ADD && CONJUGATE in table && ADD_CC in table)
    || (op == MAD && MULT_CS in table && ADD_CC in table)
  }

  /** Whether an instruction can be run depends on the table alone, save that a multiply-add without a kernel of
      its own needs its addend; the table runs a fused opcode exactly when it has it or runs all its parts. */
  lemma DispatchedIff<V>(table: set<Opcode>, k: Kernel<V>, op: Opcode, args: seq<Option<V>>, param: int, scalar: int)
    requires |args| == 4
    ensures Dispatched(table, k, op, args, param, scalar).Some? <==>
      (Dispatchable(table, op) && (op == MAD && op !in table ==> args[1].Some?))
    ensures Dispatchable(table, op) <==>
      op in table || (op in FUSED && forall part :: part in Parts(op) ==> Dispatchable(table, part))
  {
  }

  /** What an opcode is made of and cannot be run without. */
  function Parts(op: Opcode): set<Opcode> {
    match op
    case HMULT => {MULT_CC}
    case HROT => {ROTATE}
    case HROT_ADD => {HROT, ADD_CC}
    case HCONJ_ADD => {CONJUGATE, ADD_CC}
    case MAD => {MULT_CS, ADD_CC}
    case _ => {}
  }

  /** The table as one kernel. Where the table cannot run an opcode the value does not matter. */
  function Effective<V>(table: set<Opcode>, k: Kernel<V>): Kernel<V>
  {
    (op: Opcode, args: seq<Option<V>>, param: int, scalar: int) =>
      if |args| == 4 && Dispatched(table, k, op, args, param, scalar).Some?
      then Dispatched(table, k, op, args, param, scalar).value
      else k(op, args, param, scalar)
  }

  /** The table as the kernels of a program. */
  function EffectiveAll<V>(table: set<Opcode>, ks: Kernels<V>): Kernels<V> {
    (id: Id) => Effective(table, ks(id))
  }

  /** Instruction `i` can be run on its operands' values. */
  ghost predicate RunsHere<V>(table: set<Opcode>, ks: Kernels<V>, p: Program, inputs: map<Id, V>, i: nat)
    requires i < |p.insts|
  {
    var inst := p.insts[i];
    var args := OperandValues(inst, Eval(EffectiveAll(table, ks), p, inputs, i));
    Dispatched(table, ks(inst.resultId), inst.opcode, args, inst.param, inst.scalar).Some?
  }

  /** Each of the first `n` instructions can be. */
  ghost predicate Runs<V>(table: set<Opcode>, ks: Kernels<V>, p: Program, inputs: map<Id, V>, n: nat)
    requires n <= |p.insts|
  {
    forall i :: 0 <= i < n ==> RunsHere(table, ks, p, inputs, i)
  }

  /** Each fused kernel of `full` is the composition of the other kernels it stands for. */
  ghost predicate FusedAreCompositions<V(!new)>(full: set<Opcode>, k: Kernel<V>) {
    forall op, args: seq<Option<V>>, param, scalar ::
      op in FUSED && op in full && |args| == 4 && Decomposed(full - {op}, k, op, args, param, scalar).Some? ==>
        Decomposed(full - {op}, k, op, args, param, scalar).value == k(op, args, param, scalar)
  }

  /** One instruction under a table with some fused kernels removed: if it can still be run, it computes
      what the full table computes. */
  lemma {:induction false} RemovingFusedKernels<V(!new)>(
      full: set<Opcode>, some: set<Opcode>, k: Kernel<V>, op: Opcode, args: seq<Option<V>>, param: int, scalar: int)
    requires |args| == 4 && FusedAreCompositions(full, k) && full - FUSED <= some <= full && op in full
    requires Dispatched(some, k, op, args, param, scalar).Some?
    ensures Dispatched(some, k, op, args, param, scalar) == Dispatched(full, k, op, args, param, scalar)
  {
    if op !in some {
      assert op in FUSED;
      assert Decomposed(full - {op}, k, op, args, param, scalar).Some?;
      if op == HROT_ADD && HROT in full && HROT !in some {
        var rotation := Unary(args[0]);
        assert Decomposed(full - {HROT}, k, HROT, rotation, param, scalar).Some?;
        assert Unary(rotation[0]) == rotation;
      }
    }
  }

  lemma {:induction false} SameComputation<V(!new)>(
      full: set<Opcode>, some: set<Opcode>, k: Kernel<V>, inst: Instruction, vals: map<Id, V>)
    requires FusedAreCompositions(full, k) && full - FUSED <= some <= full && inst.opcode in full
    requires Dispatched(some, k, inst.opcode, OperandValues(inst, vals), inst.param, inst.scalar).Some?
    ensures Compute(Effective(some, k), inst, vals) == Compute(k, inst, vals)
  {
    hide FusedAreCompositions; hide Decomposed;
    RemovingFusedKernels(full, some, k, inst.opcode, OperandValues(inst, vals), inst.param, inst.scalar);
  }

  lemma RunsAt<V>(table: set<Opcode>, ks: Kernels<V>, p: Program, inputs: map<Id, V>, n: nat, i: nat)
    requires i < n <= |p.insts| && Runs(table, ks, p, inputs, n)
    ensures var inst := p.insts[i];
      var args := OperandValues(inst, Eval(EffectiveAll(table, ks), p, inputs, i));
      Dispatched(table, ks(inst.resultId), inst.opcode, args, inst.param, inst.scalar).Some?
  {
    hide Dispatched; hide EffectiveAll; hide OperandValues; hide Eval;
    assert RunsHere(table, ks, p, inputs, i);
  }

  /** A program computes the same values with and without fused kernels. */
  lemma {:induction false} DecompositionPreservesMeaning<V(!new)>(
      full: set<Opcode>, some: set<Opcode>, ks: Kernels<V>, p: Program, inputs: map<Id, V>, i: nat)
    requires i <= |p.insts| && (forall j :: 0 <= j < |p.insts| ==> p.insts[j].opcode in full)
    requires forall id: Id :: FusedAreCompositions(full, ks(id))
    requires full - FUSED <= some <= full && Runs(some, ks, p, inputs, |p.insts|)
    ensures Eval(EffectiveAll(some, ks), p, inputs, i) == Eval(ks, p, inputs, i)
  {
    hide FusedAreCompositions; hide Dispatched; hide Effective; hide OperandValues; hide Compute; hide Runs; hide Eval;
    if i == 0 {
      EvalStart(ks, p, inputs);
      EvalStart(EffectiveAll(some, ks), p, inputs);
    } else {
      var inst := p.insts[i - 1];
      DecompositionPreservesMeaning(full, some, ks, p, inputs, i - 1);
      RunsAt(some, ks, p, inputs, |p.insts|, i - 1);
      EvalStep(ks, p, inputs, i - 1);
      EvalStep(EffectiveAll(some, ks), p, inputs, i - 1);
      SameComputation(full, some, ks(inst.resultId), inst, Eval(ks, p, inputs, i - 1));
    }
  }

  /** Where all instructions run one kernel, so they do under a table. */
  lemma {:induction false} OneKernel<V>(table: set<Opcode>, k: Kernel<V>, p: Program, inputs: map<Id, V>, i: nat)
    requires i <= |p.insts|
    ensures Eval(EffectiveAll(table, Always(k)), p, inputs, i) == Eval(Always(Effective(table, k)), p, inputs, i)
  {
    hide Effective; hide Compute;
    if i > 0 {
      OneKernel(table, k, p, inputs, i - 1);
    }
  }
}
