/** Programs over the toy backend decrypt to what the plaintext oracle computes. */
module ToyOracle {
  import opened Fhn
  import opened Sets
  import opened Slots
  import opened ToyFhe
  import opened Decomposition
  import opened Simulation
  import opened ToyKernels
  import opened ToyMeaning
  import opened Corpus

  function Messages(slots: seq<Slot>): (ms: Vector)
    ensures |ms| == |slots|
  {
    seq(|slots|, i requires 0 <= i < |slots| => slots[i].m)
  }

  /** The opcodes both the backend and the oracle have. */
  const SHARED: set<Opcode> := {ADD_CC, ADD_CS, SUB_CC, NEGATE, MULT_CC, MULT_CS, ROTATE}

  /** Where something is known, the oracle has its messages. */
  ghost predicate OracleHas(known: map<Id, Noisy>, vals: map<Id, Vector>) {
    forall x :: x in known && known[x].Known? ==> x in vals && vals[x] == Messages(known[x].slots)
  }

  lemma {:induction false} RotatedMessages(slots: seq<Slot>, d: int)
    requires slots != []
    ensures Messages(Rotate(slots, d)) == Rotate(Messages(slots), d)
  {
    hide Rotate;
    RotateAt(slots, d, 0);
    RotateAt(Messages(slots), d, 0);
    forall i | 0 <= i < |slots|
      ensures |Rotate(slots, d)| == |Rotate(Messages(slots), d)| == |slots|
      ensures Messages(Rotate(slots, d))[i] == Rotate(Messages(slots), d)[i]
    {
      RotateAt(slots, d, i);
      RotateAt(Messages(slots), d, i);
    }
  }

  /** One operand: the messages are the oracle's. */
  lemma {:induction false} UnaryIsOracle(op: Opcode, w: Noisy, param: int, scalar: int)
    requires op in SHARED && w.Known?
    ensures UnaryRule(op, scalar).Some? || op == ROTATE <==> NoisyUnary(op, w, param, scalar).Some?
    ensures UnaryRule(op, scalar).Some? && NoisyUnary(op, w, param, scalar).value.Known? ==>
      Messages(NoisyUnary(op, w, param, scalar).value.slots) == Each(UnaryRule(op, scalar).value, Messages(w.slots))
    ensures op == ROTATE && NoisyUnary(op, w, param, scalar).value.Known? ==>
      w.slots != [] && Messages(NoisyUnary(op, w, param, scalar).value.slots) == Rotate(Messages(w.slots), param)
  {
    hide Rotate; hide Messages; hide Each;
    var r := NoisyUnary(op, w, param, scalar);
    if op == ROTATE {
      if w.slots != [] { RotatedMessages(w.slots, param); }
    } else if r.Some? && r.value.Known? {
      OneMessage(w.slots, r.value.slots, UnaryRule(op, scalar).value);
    }
  }

  lemma OneMessage(v: seq<Slot>, w: seq<Slot>, f: int -> int)
    ensures |v| == |w| == 1 && w[0].m == f(v[0].m) ==> Messages(w) == Each(f, Messages(v))
  {
  }

  lemma ZipMessages(f: (Slot, Slot) -> Slot, g: (int, int) -> int, a: seq<Slot>, b: seq<Slot>)
    requires |a| == |b| && forall x, y :: f(x, y).m == g(x.m, y.m)
    ensures Messages(ToyMeaning.ZipSlots(f, a, b)) == Zip(g, Messages(a), Messages(b))
  {
  }

  /** Two operands. */
  lemma {:induction false} BinaryIsOracle(p: Params, op: Opcode, v: Noisy, w: Noisy, param: int, bits: Bitwise)
    requires op in SHARED && v.Known? && w.Known? && NoisyBinary(p, op, v, w, param).Known?
    ensures BinaryRule(op, bits).Some? && |v.slots| == |w.slots|
    ensures Messages(NoisyBinary(p, op, v, w, param).slots) ==
      Zip(BinaryRule(op, bits).value, Messages(v.slots), Messages(w.slots))
  {
    hide ProductBound; hide Rotate; hide Messages; hide ToyMeaning.ZipSlots; hide Zip;
    var f := BinaryRule(op, bits).value;
    if op == ADD_CC {
      ZipMessages(SumSlot, f, v.slots, w.slots);
    } else if op == SUB_CC {
      ZipMessages(DifferenceSlot, f, v.slots, w.slots);
    } else {
      ZipMessages((x, y) => ProductSlot(p, x, y), f, v.slots, w.slots);
    }
  }

  lemma SharedRules(op: Opcode, scalar: int, bits: Bitwise)
    requires op in SHARED
    ensures op == ADD_CC || op == SUB_CC || op == MULT_CC <==> BinaryRule(op, bits).Some?
    ensures op == ADD_CS || op == MULT_CS || op == NEGATE <==> UnaryRule(op, scalar).Some?
  {
  }

  /** What is known of an instruction's result has the messages the oracle computes. */
  lemma {:induction false} InstructionIsOracle(
      p: Params, inst: Instruction, known: map<Id, Noisy>, vals: map<Id, Vector>, bits: Bitwise)
    requires inst.opcode in SHARED && OracleHas(known, vals) && Compute(NoisyKernel(p), inst, known).Known?
    ensures OracleValue(inst, vals, bits) == Some(Messages(Compute(NoisyKernel(p), inst, known).slots))
  {
    hide NoisyUnary; hide NoisyBinary; hide BinaryRule; hide UnaryRule; hide Rotate; hide Zip; hide Each;
    var a, b := inst.operands[0], inst.operands[1];
    var args := OperandValues(inst, known);
    SharedRules(inst.opcode, inst.scalar, bits);
    assert args[0].Some? && args[0].value == known[a];
    if known[a].Known? {
      UnaryIsOracle(inst.opcode, known[a], inst.param, inst.scalar);
    }
    KnownFromKnown(p, inst.opcode, args, inst.param, inst.scalar);
    if BinaryRule(inst.opcode, bits).Some? {
      assert args[1].Some? && args[1].value == known[b];
      BinaryIsOracle(p, inst.opcode, known[a], known[b], inst.param, bits);
    }
  }

  /** Nothing is known of a result unless it is of the operands. */
  lemma KnownFromKnown(p: Params, op: Opcode, args: seq<Option<Noisy>>, param: int, scalar: int)
    requires |args| == 4 && op in SHARED && NoisyKernel(p)(op, args, param, scalar).Known?
    ensures args[0].Some? && args[0].value.Known?
    ensures op == ADD_CC || op == SUB_CC || op == MULT_CC ==>
      args[1].Some? && args[1].value.Known? && NoisyUnary(op, args[0].value, param, scalar).None? &&
      NoisyKernel(p)(op, args, param, scalar) == NoisyBinary(p, op, args[0].value, args[1].value, param)
    ensures op == ADD_CS || op == MULT_CS || op == NEGATE || op == ROTATE ==>
      NoisyKernel(p)(op, args, param, scalar) == NoisyUnary(op, args[0].value, param, scalar).value
  {
    hide Rotate; hide ProductBound; hide ToyMeaning.ZipSlots;
  }

  /** When the noise analysis keeps an instruction's result: operands of one kind and size, factors in range; single
      ciphertexts only for subtraction, negation and constants, vectors only for rotation. */
  ghost predicate Kept(p: Params, inst: Instruction, known: map<Id, Noisy>) {
    var a, b := inst.operands[0], inst.operands[1];
    && a != 0 && a in known && known[a].Known?
    && match inst.opcode
       case ADD_CC => b != 0 && b in known && Fit(known[a], known[b])
       case SUB_CC => b != 0 && b in known && Fit(known[a], known[b]) && !known[a].vector
       case MULT_CC =>
         b != 0 && b in known && Fit(known[a], known[b]) &&
         AllInRange(p, known[a].slots) && AllInRange(p, known[b].slots)
       case ROTATE => known[a].vector && known[a].slots != []
       case _ => !known[a].vector && |known[a].slots| == 1
  }

  lemma {:induction false} KeptIff(p: Params, inst: Instruction, known: map<Id, Noisy>)
    requires inst.opcode in SHARED
    ensures Compute(NoisyKernel(p), inst, known).Known? <==> Kept(p, inst, known)
  {
    hide Rotate; hide ProductBound; hide ToyMeaning.ZipSlots; hide SlotInRange;
    var a, b := inst.operands[0], inst.operands[1];
    var args := OperandValues(inst, known);
    assert args[0] == if a != 0 && a in known then Some(known[a]) else None;
    assert args[1] == if b != 0 && b in known then Some(known[b]) else None;
  }

  lemma OracleRunOne(inst: Instruction, vals: map<Id, Vector>, bits: Bitwise)
    ensures OracleRun([inst], vals, bits) ==
      match OracleValue(inst, vals, bits) case None => None case Some(out) => Some(vals[inst.resultId := out])
  {
    hide OracleValue;
    assert [inst][1..] == [];
  }

  /** The oracle runs as long as everything is known. */
  lemma {:induction false} RunIsOracle(
      p: Params, prog: Program, known: map<Id, Noisy>, vals: map<Id, Vector>, bits: Bitwise, i: nat)
    requires i <= |prog.insts| && OracleHas(known, vals)
    requires forall j :: 0 <= j < |prog.insts| ==> prog.insts[j].opcode in SHARED
    requires forall j: nat :: j < |prog.insts| ==>
      Compute(NoisyKernel(p), prog.insts[j], Eval(Always(NoisyKernel(p)), prog, known, j)).Known?
    ensures OracleRun(prog.insts[..i], vals, bits).Some?
    ensures OracleHas(Eval(Always(NoisyKernel(p)), prog, known, i), OracleRun(prog.insts[..i], vals, bits).value)
  {
    hide NoisyKernel; hide Compute; hide OracleValue; hide Eval; hide OracleRun; hide Messages;
    var ks := Always(NoisyKernel(p));
    if i == 0 {
      assert prog.insts[..0] == [];
      EvalStart(ks, prog, known);
      NothingToRun(vals, bits);
    } else {
      var inst := prog.insts[i - 1];
      RunIsOracle(p, prog, known, vals, bits, i - 1);
      EvalStep(ks, prog, known, i - 1);
      assert prog.insts[..i] == prog.insts[..i - 1] + [inst];
      OracleRunAppend(prog.insts[..i - 1], [inst], vals, bits);
      var before := OracleRun(prog.insts[..i - 1], vals, bits).value;
      OracleRunOne(inst, before, bits);
      InstructionIsOracle(p, inst, Eval(ks, prog, known, i - 1), before, bits);
    }
  }

  lemma NothingToRun(vals: map<Id, Vector>, bits: Bitwise)
    ensures OracleRun([], vals, bits) == Some(vals)
  {
  }

  /** In a valid program everything computed is still there in the end. */
  lemma {:induction false} KnownThroughout(p: Params, prog: Program, known: map<Id, Noisy>, j: nat)
    requires Valid(prog) && j < |prog.insts| && known.Keys == SetOf(prog.inputs)
    requires var final := Eval(Always(NoisyKernel(p)), prog, known, |prog.insts|);
      forall x :: x in final ==> final[x].Known?
    ensures Compute(NoisyKernel(p), prog.insts[j], Eval(Always(NoisyKernel(p)), prog, known, j)).Known?
  {
    hide *;
    var ks, id := Always(NoisyKernel(p)), prog.insts[j].resultId;
    DefinedBeforeGrows(prog, j);
    EvalStep(ks, prog, known, j);
    EvalKeeps(ks, prog, known, j + 1, |prog.insts|, id);
    AlwaysIs(NoisyKernel(p), id);
  }

  lemma AlwaysIs<V>(k: Kernel<V>, id: Id)
    ensures Always(k)(id) == k
  {
  }

  /** A program of opcodes the backend and the oracle share, over the toy backend with or without its fused kernels,
      whatever is sampled: if the noise analysis loses nothing, the oracle evaluates the program, and every slot of
      every buffer whose noise is in range decrypts to the oracle's slot exactly when that is a plaintext. */
  lemma {:induction false} ToyDecryptsOracle(
      p: Params, s: int, rnd: Randomness, table: set<Opcode>, prog: Program, inputs: map<Id, Buf>,
      known: map<Id, Noisy>, vals: map<Id, Vector>, bits: Bitwise, x: Id, i: nat)
    requires Valid(prog) && Conforming(table) && AllSampled(p, rnd) && known.Keys == SetOf(prog.inputs)
    requires forall j :: 0 <= j < |prog.insts| ==> prog.insts[j].opcode in SHARED
    requires AllRelated(HoldsKnown(p, s), inputs, known) && OracleHas(known, vals)
    requires var final := Eval(Always(NoisyKernel(p)), prog, known, |prog.insts|);
      (forall y :: y in final ==> final[y].Known?) && x in final && i < |final[x].slots|
    ensures var slots := Eval(Always(NoisyKernel(p)), prog, known, |prog.insts|)[x].slots;
      var after := Eval(EffectiveAll(table, ToyFamily(p, s, rnd)), prog, inputs, |prog.insts|);
      var oracle := OracleRun(prog.insts, vals, bits);
      && oracle.Some? && x in oracle.value && |oracle.value[x]| == |slots| && x in after
      && i < |CiphertextsOf(after[x])|
      && (2 * slots[i].bound < Delta(p) ==>
            (DecryptInt(p, s, CiphertextsOf(after[x])[i]) == oracle.value[x][i] <==>
               -p.t < 2 * oracle.value[x][i] <= p.t))
  {
    hide *;
    var n, ks := |prog.insts|, Always(NoisyKernel(p));
    forall j: nat | j < n ensures Compute(NoisyKernel(p), prog.insts[j], Eval(ks, prog, known, j)).Known? {
      KnownThroughout(p, prog, known, j);
    }
    RunIsOracle(p, prog, known, vals, bits, n);
    assert prog.insts[..n] == prog.insts;
    SharedIsToy();
    ProgramHolds(p, s, rnd, table, prog, inputs, known);
    var final := Eval(ks, prog, known, n);
    var after := Eval(EffectiveAll(table, ToyFamily(p, s, rnd)), prog, inputs, n);
    HeldSlot(p, s, after, final, x, i);
    HasMessages(final, OracleRun(prog.insts, vals, bits).value, x, i);
    var c := CiphertextsOf(after[x])[i];
    if 2 * final[x].slots[i].bound < Delta(p) { HeldDecrypts(p, s, c, final[x].slots[i]); }
  }

  lemma SharedIsToy()
    ensures SHARED <= TOY_TABLE
  {
  }

  function CiphertextsOf(b: Buf): seq<Ciphertext> {
    match b case Bad => [] case Single(_, ct) => [ct] case Vec(slots) => slots
  }

  lemma HeldSlot(p: Params, s: int, after: map<Id, Buf>, final: map<Id, Noisy>, x: Id, i: nat)
    requires AllRelated(HoldsKnown(p, s), after, final) && x in final && final[x].Known? && i < |final[x].slots|
    ensures x in after && |CiphertextsOf(after[x])| == |final[x].slots|
    ensures SlotHolds(p, s, CiphertextsOf(after[x])[i], final[x].slots[i])
  {
    hide SlotHolds;
    assert HoldsKnown(p, s)(after[x], final[x]);
  }

  lemma HasMessages(final: map<Id, Noisy>, vals: map<Id, Vector>, x: Id, i: nat)
    requires OracleHas(final, vals) && x in final && final[x].Known? && i < |final[x].slots|
    ensures x in vals && |vals[x]| == |final[x].slots| && vals[x][i] == final[x].slots[i].m
  {
  }
}
