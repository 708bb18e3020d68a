/** The flat program IR: straight-line, single-assignment instructions over buffer ids. */
module Fhn {
  import opened Sets

  datatype Option<+T> = None | Some(value: T)

  /** A buffer id. Id 0 is reserved: in an operand slot it means "unused". */
  type Id = nat

  datatype Opcode =
    | NOP
    | ADD_CC | ADD_CP | ADD_CS | SUB_CC | SUB_CP | SUB_SC | NEGATE | MULT_CC | MULT_CP | MULT_CS
    | RELINEARIZE | RESCALE | ROTATE | CONJUGATE | MULT_KEY
    | MOD_DOWN | LEVEL_DOWN
    | HMULT | HROT | HROT_ADD | HCONJ_ADD | MAD
    | AND | OR | XOR | EQ | LT | LE

  /** The four operand slots of an instruction. */
  type Operands = s: seq<Id> | |s| == 4 witness [0, 0, 0, 0]

  /** `param` is params[0] and `scalar` is fparams[0]: no modelled code reads the other entries. */
  datatype Instruction = Instruction(
    opcode: Opcode, resultId: Id, operands: Operands, param: int, scalar: int)

  datatype Program = Program(insts: seq<Instruction>, inputs: seq<Id>, outputs: seq<Id>)

  /** The ids an instruction reads. */
  function OperandIds(inst: Instruction): set<Id>
  {
    set j | 0 <= j < 4 && inst.operands[j] != 0 :: inst.operands[j]
  }

  /** The ids that must be on the device while an instruction runs. */
  function WorkingSet(inst: Instruction): set<Id>
  {
    {inst.resultId} + OperandIds(inst)
  }

  /** Ids defined before instruction `i` runs: the inputs and the earlier results. */
  function DefinedBefore(p: Program, i: nat): set<Id>
    requires i <= |p.insts|
  {
    (set k | 0 <= k < |p.inputs| :: p.inputs[k]) + (set j | 0 <= j < i :: p.insts[j].resultId)
  }

  function Defs(p: Program): set<Id>
  {
    DefinedBefore(p, |p.insts|)
  }

  /** Definitions are nonzero and distinct, and every operand is defined earlier. */
  ghost predicate Valid(p: Program)
  {
    && (forall k :: 0 <= k < |p.inputs| ==> p.inputs[k] != 0)
    && (forall k, l :: 0 <= k < l < |p.inputs| ==> p.inputs[k] != p.inputs[l])
    && (forall i :: 0 <= i < |p.insts| ==>
          p.insts[i].resultId != 0 && p.insts[i].resultId !in DefinedBefore(p, i))
    && (forall i :: 0 <= i < |p.insts| ==> OperandIds(p.insts[i]) <= DefinedBefore(p, i))
  }

  /** The first position at or after `i` that reads `x`, or the program length when there is none. */
  function NextUse(p: Program, x: Id, i: nat): (pos: nat)
    ensures i <= |p.insts| ==> i <= pos <= |p.insts|
    decreases |p.insts| - i
  {
    if i >= |p.insts| then |p.insts|
    else if x in OperandIds(p.insts[i]) then i
    else NextUse(p, x, i + 1)
  }

  lemma DefinedBeforeGrows(p: Program, i: nat)
    requires i < |p.insts|
    ensures DefinedBefore(p, i + 1) == DefinedBefore(p, i) + {p.insts[i].resultId}
  {
  }

  lemma {:induction false} DefinedBeforeMonotone(p: Program, i: nat, j: nat)
    requires i <= j <= |p.insts|
    ensures DefinedBefore(p, i) <= DefinedBefore(p, j)
  {
  }

  /** What NextUse means: a read at the position it names, and none before it. */
  lemma {:induction false} NextUseIsFirst(p: Program, x: Id, i: nat)
    requires i <= |p.insts|
    ensures NextUse(p, x, i) < |p.insts| ==> x in OperandIds(p.insts[NextUse(p, x, i)])
    ensures forall k :: i <= k < NextUse(p, x, i) ==> x !in OperandIds(p.insts[k])
    decreases |p.insts| - i
  {
    if i < |p.insts| && x !in OperandIds(p.insts[i]) {
      NextUseIsFirst(p, x, i + 1);
    }
  }

  /** Later starting points see later uses. */
  lemma {:induction false} NextUseMonotone(p: Program, x: Id, i: nat, j: nat)
    requires i <= j <= |p.insts|
    ensures NextUse(p, x, i) <= NextUse(p, x, j)
    ensures (forall k :: i <= k < j ==> x !in OperandIds(p.insts[k])) ==> NextUse(p, x, i) == NextUse(p, x, j)
    decreases j - i
  {
    if i < j {
      NextUseMonotone(p, x, i + 1, j);
    }
  }

  /** A kernel's result as a function of its operand values and parameters; None is an unused slot. */
  type Kernel<!V> = (Opcode, seq<Option<V>>, int, int) -> V

  /** The kernel each instruction runs, by the id of its result: where kernels draw random samples, no two
      instructions need draw the same. */
  type Kernels<!V> = Id -> Kernel<V>

  /** One kernel for every instruction. */
  function Always<V>(k: Kernel<V>): Kernels<V> {
    (id: Id) => k
  }

  function OperandValues<V>(inst: Instruction, vals: map<Id, V>): (r: seq<Option<V>>)
  {
    seq(4, j requires 0 <= j < 4 =>
      if inst.operands[j] != 0 && inst.operands[j] in vals then Some(vals[inst.operands[j]]) else None)
  }

  /** The value an instruction computes from the values of its operands. */
  function Compute<V>(k: Kernel<V>, inst: Instruction, vals: map<Id, V>): V
  {
    k(inst.opcode, OperandValues(inst, vals), inst.param, inst.scalar)
  }

  /** The values of all ids after the first `i` instructions. */
  function Eval<V>(ks: Kernels<V>, p: Program, inputs: map<Id, V>, i: nat): (vals: map<Id, V>)
    requires i <= |p.insts|
  {
    if i == 0 then inputs
    else
      var before := Eval(ks, p, inputs, i - 1);
      before[p.insts[i - 1].resultId := Compute(ks(p.insts[i - 1].resultId), p.insts[i - 1], before)]
  }

  lemma {:induction false} EvalDomain<V>(ks: Kernels<V>, p: Program, inputs: map<Id, V>, i: nat)
    requires inputs.Keys == SetOf(p.inputs) && i <= |p.insts|
    ensures Eval(ks, p, inputs, i).Keys == DefinedBefore(p, i)
  {
    hide *;
    if i == 0 {
      EvalStart(ks, p, inputs);
      InputsComeFirst(p);
    } else {
      EvalDomain(ks, p, inputs, i - 1);
      DefinedBeforeGrows(p, i - 1);
      EvalStep(ks, p, inputs, i - 1);
    }
  }

  lemma InputsComeFirst(p: Program)
    ensures DefinedBefore(p, 0) == SetOf(p.inputs)
  {
  }

  lemma EvalStart<V>(ks: Kernels<V>, p: Program, inputs: map<Id, V>)
    ensures Eval(ks, p, inputs, 0) == inputs
  {
  }

  lemma EvalStep<V>(ks: Kernels<V>, p: Program, inputs: map<Id, V>, i: nat)
    requires i < |p.insts|
    ensures Eval(ks, p, inputs, i + 1) ==
      Eval(ks, p, inputs, i)[p.insts[i].resultId := Compute(ks(p.insts[i].resultId), p.insts[i], Eval(ks, p, inputs, i))]
  {
    hide Compute;
  }

  lemma ValidAt(p: Program, i: nat)
    requires Valid(p) && i < |p.insts|
    ensures p.insts[i].resultId != 0 && p.insts[i].resultId !in DefinedBefore(p, i)
    ensures OperandIds(p.insts[i]) <= DefinedBefore(p, i)
  {
    hide DefinedBefore; hide OperandIds;
  }

  /** In a single-assignment program a value is never overwritten. */
  lemma {:induction false} EvalKeeps<V>(ks: Kernels<V>, p: Program, inputs: map<Id, V>, i: nat, j: nat, x: Id)
    requires Valid(p) && i <= j <= |p.insts| && inputs.Keys == SetOf(p.inputs) && x in DefinedBefore(p, i)
    ensures x in Eval(ks, p, inputs, i) && x in Eval(ks, p, inputs, j)
    ensures Eval(ks, p, inputs, j)[x] == Eval(ks, p, inputs, i)[x]
    decreases j
  {
    hide *;
    EvalDomain(ks, p, inputs, i);
    if i < j {
      EvalKeeps(ks, p, inputs, i, j - 1, x);
      DefinedBeforeMonotone(p, i, j - 1);
      EvalStep(ks, p, inputs, j - 1);
      ValidAt(p, j - 1);
    }
  }

  lemma {:induction false} SameOperandValues<V>(inst: Instruction, vals: map<Id, V>, more: map<Id, V>)
    requires forall x :: x in OperandIds(inst) ==> x in vals && x in more && vals[x] == more[x]
    ensures OperandValues(inst, vals) == OperandValues(inst, more)
  {
    forall j | 0 <= j < 4 && inst.operands[j] != 0 ensures inst.operands[j] in OperandIds(inst) {}
  }

  /** The final values satisfy every instruction: its result is computed from its operands' final values. */
  lemma {:induction false} EvalSatisfies<V>(ks: Kernels<V>, p: Program, inputs: map<Id, V>, i: nat)
    requires Valid(p) && i < |p.insts| && inputs.Keys == SetOf(p.inputs)
    ensures p.insts[i].resultId in Eval(ks, p, inputs, |p.insts|)
    ensures Eval(ks, p, inputs, |p.insts|)[p.insts[i].resultId] ==
      Compute(ks(p.insts[i].resultId), p.insts[i], Eval(ks, p, inputs, |p.insts|))
  {
    hide Valid; hide Eval; hide DefinedBefore; hide OperandIds; hide SetOf; hide OperandValues;
    EvalStep(ks, p, inputs, i);
    ValidAt(p, i);
    DefinedBeforeGrows(p, i);
    EvalKeeps(ks, p, inputs, i + 1, |p.insts|, p.insts[i].resultId);
    forall x | x in OperandIds(p.insts[i]) {
      EvalKeeps(ks, p, inputs, i, |p.insts|, x);
    }
    SameOperandValues(p.insts[i], Eval(ks, p, inputs, i), Eval(ks, p, inputs, |p.insts|));
  }
}
