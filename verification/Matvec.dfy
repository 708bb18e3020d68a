/** The encrypted matrix-vector benchmark: its program, and why every slot of every row is exact. */
module Matvec {
  import opened Fhn
  import opened Sets
  import opened Modular
  import opened Slots
  import opened ToyFhe
  import opened Decomposition
  import opened ToyKernels
  import opened ToyMeaning
  import MovementPlan
  import Residency
  import Analyzer
  import Memory
  import Executor
  import Lifetimes
  import Lowering

  // ---- The program -----------------------------------------------------------------------------

  function Hmult(id: Id, a: Id, b: Id): Instruction { Instruction(HMULT, id, [a, b, 0, 0], 0, 0) }
  function HrotAddInst(id: Id, a: Id, d: int): Instruction { Instruction(HROT_ADD, id, [a, a, 0, 0], d, 0) }

  /** The rotate-and-add reduction of id `t` from distance `d`. */
  function ReductionInsts(t: Id, next: Id, d: nat): seq<Instruction>
    decreases d
  {
    if d == 0 then [] else [HrotAddInst(next, t, d)] + ReductionInsts(next, next + 1, d / 2)
  }

  function Log2(n: nat): nat
    decreases n
  {
    if n <= 1 then 0 else 1 + Log2(n / 2)
  }

  function RowInsts(n: nat, row: nat, next: Id): seq<Instruction> {
    [Hmult(next, row + 1, n + 1)] + ReductionInsts(next, next + 1, n / 2)
  }

  /** The id of a row's result. */
  function RowId(n: nat, next: Id): Id {
    next + Log2(n)
  }

  /** Rows `row`, `row + 1`, ..., n - 1. */
  function MatvecInsts(n: nat, row: nat, next: Id): seq<Instruction>
    requires row <= n
    decreases n - row
  {
    if row == n then [] else RowInsts(n, row, next) + MatvecInsts(n, row + 1, RowId(n, next) + 1)
  }

  /** The first id of row `row`. */
  function FirstId(n: nat, row: nat): Id {
    n + 2 + row * (1 + Log2(n))
  }

  lemma {:induction false} ReductionLength(t: Id, next: Id, d: nat)
    ensures |ReductionInsts(t, next, d)| == if d == 0 then 0 else 1 + Log2(d)
    decreases d
  {
    if d > 1 {
      ReductionLength(next, next + 1, d / 2);
    } else if d == 1 {
      assert ReductionInsts(next, next + 1, 0) == [];
    }
  }

  lemma {:induction false} RowLength(n: nat, row: nat, next: Id)
    requires n > 0
    ensures |RowInsts(n, row, next)| == 1 + Log2(n)
  {
    ReductionLength(next, next + 1, n / 2);
  }

  lemma {:induction false} NextRow(n: nat, row: nat)
    ensures FirstId(n, row + 1) == RowId(n, FirstId(n, row)) + 1
    ensures (row + 1) * (1 + Log2(n)) == row * (1 + Log2(n)) + (1 + Log2(n))
  {
  }

  /** The instructions of one row, and the id they leave the row's result in. */
  method BuildRow(n: nat, row: nat, next: Id) returns (insts: seq<Instruction>, t: Id)
    requires n > 0
    ensures insts == RowInsts(n, row, next) && t == RowId(n, next)
  {
    hide *;
    t := next;
    insts := [Hmult(t, row + 1, n + 1)];
    var d: nat := n / 2;
    RowUnrolls(n, row, next);
    while d >= 1
      invariant insts + ReductionInsts(t, t + 1, d) == RowInsts(n, row, next)
      invariant ReductionId(t, d) == RowId(n, next)
      decreases d
    {
      ReductionUnrolls(t, t + 1, d);
      var r := t + 1;
      insts := insts + [HrotAddInst(r, t, d)];
      t := r;
      d := d / 2;
    }
    ReductionUnrolls(t, t + 1, d);
    assert insts + [] == insts;
  }

  /** The id a reduction from distance `d` ends at, when its ids follow that of what it reduces. */
  function ReductionId(t: Id, d: nat): Id {
    t + if d == 0 then 0 else 1 + Log2(d)
  }

  lemma ReductionUnrolls(t: Id, next: Id, d: nat)
    ensures d == 0 ==> ReductionInsts(t, next, d) == [] && ReductionId(t, d) == t
    ensures d > 0 ==>
      ReductionInsts(t, next, d) == [HrotAddInst(next, t, d)] + ReductionInsts(next, next + 1, d / 2) &&
      ReductionId(t, d) == ReductionId(t + 1, d / 2)
  {
    hide ReductionInsts;
    ReductionInstsUnroll(t, next, d);
  }

  lemma ReductionInstsUnroll(t: Id, next: Id, d: nat)
    ensures ReductionInsts(t, next, d) ==
      if d == 0 then [] else [HrotAddInst(next, t, d)] + ReductionInsts(next, next + 1, d / 2)
  {
  }

  /** The program: the inputs are the rows and the vector, the outputs the rows' results. */
  function MatvecProgram(n: nat): Program {
    Program(MatvecInsts(n, 0, n + 2), InputIds(n), OutputIds(n, n))
  }

  function InputIds(n: nat): seq<Id> {
    seq(n + 1, i requires 0 <= i < n + 1 => i + 1)
  }

  function OutputIds(n: nat, rows: nat): seq<Id> {
    seq(rows, row requires 0 <= row < rows => RowId(n, FirstId(n, row)))
  }

  /** Builds the program: one product per row, then a rotate-and-add per halving. The instruction array has
      room for exactly n * (1 + log2 n) instructions. */
  method BuildProgram(n: nat) returns (p: Program)
    requires n > 0
    ensures p == MatvecProgram(n) && |p.insts| == n * (1 + Log2(n))
  {
    hide Log2; hide RowInsts; hide FirstId; hide RowId;
    var inputs: seq<Id> := [];
    for i := 0 to n + 1
      invariant |inputs| == i && forall j :: 0 <= j < i ==> inputs[j] == j + 1
    {
      inputs := inputs + [i + 1];
    }
    assert inputs == InputIds(n);
    var insts: seq<Instruction> := [];
    var outputs: seq<Id> := [];
    var next: Id := n + 2;
    FirstRow(n);
    for row := 0 to n
      invariant next == FirstId(n, row) && |insts| == row * (1 + Log2(n))
      invariant insts + MatvecInsts(n, row, next) == MatvecInsts(n, 0, n + 2)
      invariant outputs == OutputIds(n, row)
    {
      var rowInsts, out := BuildRow(n, row, next);
      RowLength(n, row, next);
      NextRow(n, row);
      ghost var rest := MatvecInsts(n, row + 1, out + 1);
      assert insts + (rowInsts + rest) == (insts + rowInsts) + rest;
      insts := insts + rowInsts;
      outputs := outputs + [out];
      next := out + 1;
    }
    assert insts + [] == insts;
    return Program(insts, inputs, outputs);
  }

  lemma FirstRow(n: nat)
    ensures FirstId(n, 0) == n + 2 && 0 * (1 + Log2(n)) == 0
  {
  }

  // ---- Running it over ciphertexts -------------------------------------------------------------

  /** What one instruction writes under a kernel table. */
  function StepValue(
    p: Params, s: int, table: set<Opcode>, rnd: Randomness, inst: Instruction, vals: map<Id, Buf>): Buf
  {
    Compute(EffectiveAll(table, ToyFamily(p, s, rnd))(inst.resultId), inst, vals)
  }

  function ToyRun(
    p: Params, s: int, table: set<Opcode>, rnd: Randomness, insts: seq<Instruction>, vals: map<Id, Buf>): map<Id, Buf>
  {
    if insts == [] then vals
    else ToyRun(p, s, table, rnd, insts[1..],
      vals[insts[0].resultId := StepValue(p, s, table, rnd, insts[0], vals)])
  }

  lemma RunOne(
      p: Params, s: int, table: set<Opcode>, rnd: Randomness, inst: Instruction, rest: seq<Instruction>,
      vals: map<Id, Buf>)
    ensures ToyRun(p, s, table, rnd, [inst] + rest, vals) ==
      ToyRun(p, s, table, rnd, rest, vals[inst.resultId := StepValue(p, s, table, rnd, inst, vals)])
  {
    assert ([inst] + rest)[1..] == rest;
    hide StepValue;
  }

  lemma {:induction false} RunAppend(
      p: Params, s: int, table: set<Opcode>, rnd: Randomness, first: seq<Instruction>, second: seq<Instruction>,
      vals: map<Id, Buf>)
    ensures ToyRun(p, s, table, rnd, first + second, vals) ==
      ToyRun(p, s, table, rnd, second, ToyRun(p, s, table, rnd, first, vals))
  {
    hide StepValue;
    if first == [] {
      assert first + second == second;
    } else {
      assert (first + second)[1..] == first[1..] + second;
      RunAppend(p, s, table, rnd, first[1..], second,
        vals[first[0].resultId := StepValue(p, s, table, rnd, first[0], vals)]);
    }
  }

  /** Under any such table an instruction writes what the fused kernel does. */
  lemma {:induction false} StepIsKernel(
      p: Params, s: int, table: set<Opcode>, rnd: Randomness, inst: Instruction, vals: map<Id, Buf>)
    requires Conforming(table) && (inst.opcode == HMULT || inst.opcode == HROT_ADD)
    ensures StepValue(p, s, table, rnd, inst, vals) ==
      ToyKernel(p, s, SamplesOf(rnd, inst.resultId))(inst.opcode, OperandValues(inst, vals), inst.param, inst.scalar)
  {
    hide ToyKernel; hide OperandValues; hide SamplesOf; hide FusedAreCompositions;
    var r := SamplesOf(rnd, inst.resultId);
    var args := OperandValues(inst, vals);
    ToyFusedAreCompositions(p, s, r);
    FourOperands(inst, vals);
    assert Dispatched(table, ToyKernel(p, s, r), inst.opcode, args, inst.param, inst.scalar).Some?;
    RemovingFusedKernels(TOY_TABLE, table, ToyKernel(p, s, r), inst.opcode, args, inst.param, inst.scalar);
  }

  lemma FourOperands(inst: Instruction, vals: map<Id, Buf>)
    ensures |OperandValues(inst, vals)| == 4
  {
  }

  lemma {:induction false} HmultValue(
      p: Params, s: int, table: set<Opcode>, rnd: Randomness, id: Id, a: Id, b: Id, vals: map<Id, Buf>)
    requires Conforming(table) && a != 0 && b != 0 && a in vals && b in vals
    ensures StepValue(p, s, table, rnd, Hmult(id, a, b), vals) ==
      Products(p, s, SamplesOf(rnd, id), vals[a], vals[b])
  {
    hide StepValue; hide Products; hide SamplesOf;
    StepIsKernel(p, s, table, rnd, Hmult(id, a, b), vals);
  }

  lemma {:induction false} HrotAddValue(
      p: Params, s: int, table: set<Opcode>, rnd: Randomness, id: Id, a: Id, d: int, vals: map<Id, Buf>)
    requires Conforming(table) && a != 0 && a in vals
    ensures StepValue(p, s, table, rnd, HrotAddInst(id, a, d), vals) == HrotAdd(p, vals[a], vals[a], d)
  {
    hide StepValue; hide HrotAdd; hide SamplesOf;
    StepIsKernel(p, s, table, rnd, HrotAddInst(id, a, d), vals);
  }

  // ---- Messages and noise, slot by slot --------------------------------------------------------

  ghost predicate VecCarries(p: Params, s: int, b: Buf, ms: seq<int>, es: seq<int>) {
    && b.Vec? && |b.slots| == |ms| == |es|
    && (forall i :: 0 <= i < |ms| ==> Plain(b.slots[i]) && Carries(p, s, b.slots[i], ms[i], es[i]))
  }

  lemma {:induction false} RotAddCarriesAt(p: Params, s: int, b: Buf, ms: seq<int>, es: seq<int>, d: int, i: nat)
    requires VecCarries(p, s, b, ms, es) && i < |ms|
    ensures |AddRot(ms, d)| == |ms| && |AddRot(es, d)| == |ms| && HrotAddSlots(p, b.slots, d) != []
    ensures |HrotAddSlots(p, b.slots, d)| == |ms|
    ensures Plain(HrotAddSlots(p, b.slots, d)[i])
    ensures Carries(p, s, HrotAddSlots(p, b.slots, d)[i], AddRot(ms, d)[i], AddRot(es, d)[i])
  {
    hide Add; hide Carries; hide Plain; hide AddRot; hide NormRot; hide HrotAddSlots;
    var n := |ms|;
    AddRotAt(ms, d, i);
    AddRotAt(es, d, i);
    HrotAddSlotAt(p, b.slots, d, i);
    var j := (i + d) % n;
    AddCarries(p, s, b.slots[j], b.slots[i], ms[j], es[j], ms[i], es[i]);
  }

  lemma {:induction false} HrotAddSlotAt(p: Params, slots: seq<Ciphertext>, d: int, i: nat)
    requires i < |slots|
    ensures |HrotAddSlots(p, slots, d)| == |slots|
    ensures HrotAddSlots(p, slots, d)[i] == Add(p, slots[(i + d) % |slots|], slots[i])
  {
    hide Add; hide Rotate;
    RotateAt(slots, d, i);
  }

  /** A vector rotated and added to itself. */
  function HrotAddSlots(p: Params, slots: seq<Ciphertext>, d: int): seq<Ciphertext>
    requires slots != []
  {
    seq(|slots|, i requires 0 <= i < |slots| => Add(p, Rotate(slots, d)[i], slots[i]))
  }

  lemma HrotAddIs(p: Params, b: Buf, d: int)
    requires b.Vec? && b.slots != []
    ensures HrotAdd(p, b, b, d) == Vec(HrotAddSlots(p, b.slots, d))
  {
    hide Add; hide NormRot;
    assert HrotAdd(p, b, b, d).slots == HrotAddSlots(p, b.slots, d);
  }

  /** A rotate-and-add of ciphertexts rotates and adds messages and noise. */
  lemma {:induction false} RotAddCarries(p: Params, s: int, b: Buf, ms: seq<int>, es: seq<int>, d: int)
    requires VecCarries(p, s, b, ms, es) && ms != []
    ensures es != [] && VecCarries(p, s, HrotAdd(p, b, b, d), AddRot(ms, d), AddRot(es, d))
  {
    hide Carries; hide Plain; hide AddRot; hide HrotAdd; hide HrotAddSlots; hide Accepted;
    HrotAddIs(p, b, d);
    RotAddCarriesAt(p, s, b, ms, es, d, 0);
    forall i | 0 <= i < |ms|
      ensures Plain(HrotAddSlots(p, b.slots, d)[i])
      ensures Carries(p, s, HrotAddSlots(p, b.slots, d)[i], AddRot(ms, d)[i], AddRot(es, d)[i])
    {
      RotAddCarriesAt(p, s, b, ms, es, d, i);
    }
  }

  function Hadamard(a: seq<int>, b: seq<int>): (r: seq<int>)
    requires |a| == |b|
    ensures |r| == |a|
  {
    seq(|a|, i requires 0 <= i < |a| => a[i] * b[i])
  }

  function ProductNoises(p: Params, a: seq<int>, ea: seq<int>, b: seq<int>, eb: seq<int>, r: Samples)
    : (noises: seq<int>)
    requires |a| == |ea| == |b| == |eb|
    ensures |noises| == |a|
  {
    seq(|a|, i requires 0 <= i < |a| => ProductNoise(p, a[i], ea[i], b[i], eb[i], r(i)))
  }

  lemma {:induction false} ProductsCarry(
      p: Params, s: int, x: Buf, y: Buf, a: seq<int>, ea: seq<int>, b: seq<int>, eb: seq<int>, r: Samples)
    requires VecCarries(p, s, x, a, ea) && VecCarries(p, s, y, b, eb) && |a| == |b| && a != []
    requires forall i :: 0 <= i < |a| ==> InRange(p, a[i], ea[i]) && InRange(p, b[i], eb[i])
    ensures VecCarries(p, s, Products(p, s, r, x, y), Hadamard(a, b), ProductNoises(p, a, ea, b, eb, r))
  {
    hide Multiply; hide Carries; hide Plain; hide InRange; hide ProductNoise;
    forall i | 0 <= i < |a|
      ensures Plain(Multiply(p, s, x.slots[i], y.slots[i], r(i)))
      ensures Carries(p, s, Multiply(p, s, x.slots[i], y.slots[i], r(i)), a[i] * b[i],
        ProductNoise(p, a[i], ea[i], b[i], eb[i], r(i)))
    {
      MultiplyCarries(p, s, x.slots[i], y.slots[i], a[i], ea[i], b[i], eb[i], r(i));
    }
  }

  /** Ids below `next` are left alone. */
  ghost predicate Keeps(before: map<Id, Buf>, after: map<Id, Buf>, next: Id) {
    forall x :: x in before && x < next ==> x in after && after[x] == before[x]
  }

  /** The reduction over ciphertexts is the reduction of messages and of noise. */
  lemma {:induction false} ReductionRuns(
      p: Params, s: int, table: set<Opcode>, rnd: Randomness, t: Id, next: Id, d: nat, vals: map<Id, Buf>,
      ms: seq<int>, es: seq<int>)
    requires Conforming(table) && 0 < t < next && t in vals && ms != [] && VecCarries(p, s, vals[t], ms, es)
    ensures es != []
    ensures var after := ToyRun(p, s, table, rnd, ReductionInsts(t, next, d), vals);
      var out := if d == 0 then t else next + Log2(d);
      && Keeps(vals, after, next) && out in after
      && VecCarries(p, s, after[out], Reduced(ms, d), Reduced(es, d))
    decreases d
  {
    hide ToyRun; hide StepValue; hide VecCarries; hide HrotAdd; hide AddRot;
    SameSize(p, s, vals[t], ms, es);
    if d == 0 {
      RunNothing(p, s, table, rnd, vals);
    } else {
      var inst := HrotAddInst(next, t, d);
      HrotAddValue(p, s, table, rnd, next, t, d, vals);
      RotAddCarries(p, s, vals[t], ms, es, d);
      RunOne(p, s, table, rnd, inst, ReductionInsts(next, next + 1, d / 2), vals);
      AddRotAt(ms, d, 0);
      AddRotAt(es, d, 0);
      var one := vals[next := StepValue(p, s, table, rnd, inst, vals)];
      ReductionRuns(p, s, table, rnd, next, next + 1, d / 2, one, AddRot(ms, d), AddRot(es, d));
    }
  }

  lemma SameSize(p: Params, s: int, b: Buf, ms: seq<int>, es: seq<int>)
    requires VecCarries(p, s, b, ms, es)
    ensures b.Vec? && |b.slots| == |ms| == |es|
  {
  }

  lemma RunNothing(p: Params, s: int, table: set<Opcode>, rnd: Randomness, vals: map<Id, Buf>)
    ensures ToyRun(p, s, table, rnd, [], vals) == vals
  {
  }

  // ---- The result ------------------------------------------------------------------------------

  function EncryptVec(s: int, ms: seq<int>, r: Samples): Buf {
    Vec(seq(|ms|, i requires 0 <= i < |ms| => EncryptInt(DEFAULTS, s, ms[i], r(i))))
  }

  function Noises(r: Samples, n: nat): (noises: seq<int>)
    ensures |noises| == n
  {
    seq(n, i requires 0 <= i < n => r(i).noise)
  }

  function Dot(a: seq<int>, b: seq<int>): int
    requires |a| == |b|
  {
    Total(Hadamard(a, b))
  }

  /** Entries are digits. */
  predicate Digits(ms: seq<int>) {
    forall i :: 0 <= i < |ms| ==> 0 <= ms[i] <= 9
  }

  predicate DrawnUpTo(r: Samples, n: nat) {
    forall i :: 0 <= i < n ==> Drawn(DEFAULTS, r(i))
  }

  /** Every slot decrypts to `x`. */
  predicate EverySlot(s: int, b: Buf, n: nat, x: int) {
    b.Vec? && |b.slots| == n && forall i :: 0 <= i < n ==> DecryptInt(DEFAULTS, s, b.slots[i]) == x
  }

  lemma {:induction false} EncryptVecCarries(s: int, ms: seq<int>, r: Samples)
    ensures VecCarries(DEFAULTS, s, EncryptVec(s, ms, r), ms, Noises(r, |ms|))
  {
    hide EncryptInt; hide Carries; hide Plain;
    forall i | 0 <= i < |ms|
      ensures Plain(EncryptInt(DEFAULTS, s, ms[i], r(i)))
      ensures Carries(DEFAULTS, s, EncryptInt(DEFAULTS, s, ms[i], r(i)), ms[i], r(i).noise)
    {
      EncryptCarries(DEFAULTS, s, ms[i], r(i));
    }
  }

  /** Fresh digits are in range, and their products carry at most 9 * 8 + 9 * 8 + 8 = 152 of noise. */
  lemma {:induction false} DigitNoise(a: int, ea: int, b: int, eb: int, r: Sample)
    requires 0 <= a <= 9 && 0 <= b <= 9 && Abs(ea) <= 8 && Abs(eb) <= 8 && Drawn(DEFAULTS, r)
    ensures InRange(DEFAULTS, a, ea) && InRange(DEFAULTS, b, eb)
    ensures Abs(ProductNoise(DEFAULTS, a, ea, b, eb, r)) <= 152
    ensures 0 <= a * b <= 81
  {
    hide ProductNoise; hide ProductBound; hide Delta;
    DefaultDelta();
    ProductNoiseBounded(DEFAULTS, a, ea, 8, b, eb, 8, r);
    DigitBound(a, b);
    AbsProductAtMost(a, b, 9, 9);
    MulMonotone(a, 0, b);
  }

  lemma {:induction false} DigitBound(a: int, b: int)
    requires 0 <= a <= 9 && 0 <= b <= 9
    ensures ProductBound(DEFAULTS, a, 8, b, 8) <= 152
  {
    DefaultDelta();
  }

  lemma {:induction false} SumAtMost(v: seq<int>, bound: nat)
    requires forall i :: 0 <= i < |v| ==> Abs(v[i]) <= bound
    ensures Abs(Total(v)) <= |v| * bound
  {
    if v != [] {
      SumAtMost(v[..|v| - 1], bound);
      assert |v| * bound == (|v| - 1) * bound + bound;
    }
  }

  /** The noise claim: for n <= 512 the summed noise is at most 77824, far below 2^25. */
  lemma {:induction false} RowInRange(ms: seq<int>, es: seq<int>)
    requires |ms| == |es| <= 512
    requires forall i :: 0 <= i < |ms| ==> Abs(ms[i]) <= 81 && Abs(es[i]) <= 152
    ensures Abs(Total(es)) <= 77824 && InRange(DEFAULTS, Total(ms), Total(es))
  {
    DefaultDelta();
    SumAtMost(ms, 81);
    SumAtMost(es, 152);
    MulMonotone(152, |es|, 512);
    MulMonotone(81, |ms|, 512);
    hide Total;
  }

  /** A reduced vector of products decrypts to the sum of the products in every slot. */
  lemma {:induction false} ReducedDecrypts(s: int, b: Buf, ms: seq<int>, es: seq<int>)
    requires PowerOfTwo(|ms|) && |ms| == |es| <= 512
    requires forall i :: 0 <= i < |ms| ==> Abs(ms[i]) <= 81 && Abs(es[i]) <= 152
    requires VecCarries(DEFAULTS, s, b, Reduced(ms, |ms| / 2), Reduced(es, |es| / 2))
    ensures EverySlot(s, b, |ms|, Total(ms))
  {
    hide DecryptInt; hide Carries; hide Plain; hide Reduced; hide Total; hide InRange;
    RowInRange(ms, es);
    ReductionSumsAll(ms, 0);
    forall i | 0 <= i < |ms| ensures b.Vec? && |b.slots| == |ms| && DecryptInt(DEFAULTS, s, b.slots[i]) == Total(ms) {
      ReductionSumsAll(ms, i);
      ReductionSumsAll(es, i);
      CarriesMeans(DEFAULTS, s, b.slots[i], Total(ms), Total(es));
      DecryptsTo(DEFAULTS, s, b.slots[i], Total(ms), Total(es));
    }
  }

  lemma {:induction false} DigitProducts(m: seq<int>, v: seq<int>, rm: Samples, rv: Samples, r: Samples)
    requires |m| == |v| && Digits(m) && Digits(v)
    requires DrawnUpTo(rm, |m|) && DrawnUpTo(rv, |m|) && DrawnUpTo(r, |m|)
    ensures forall i :: 0 <= i < |m| ==>
      InRange(DEFAULTS, m[i], Noises(rm, |m|)[i]) && InRange(DEFAULTS, v[i], Noises(rv, |m|)[i])
    ensures forall i :: 0 <= i < |m| ==> Abs(Hadamard(m, v)[i]) <= 81
    ensures forall i :: 0 <= i < |m| ==>
      Abs(ProductNoises(DEFAULTS, m, Noises(rm, |m|), v, Noises(rv, |m|), r)[i]) <= 152
  {
    hide InRange; hide ProductNoise;
    forall i | 0 <= i < |m|
      ensures InRange(DEFAULTS, m[i], rm(i).noise) && InRange(DEFAULTS, v[i], rv(i).noise)
      ensures 0 <= m[i] * v[i] <= 81
      ensures Abs(ProductNoise(DEFAULTS, m[i], rm(i).noise, v[i], rv(i).noise, r(i))) <= 152
    {
      DigitNoise(m[i], rm(i).noise, v[i], rv(i).noise, r(i));
    }
  }

  /** The slot-wise product of two fresh vectors of digits. */
  lemma {:induction false} FreshProducts(
      s: int, m: seq<int>, v: seq<int>, rm: Samples, rv: Samples, r: Samples)
    requires |m| == |v| > 0 && Digits(m) && Digits(v)
    requires DrawnUpTo(rm, |m|) && DrawnUpTo(rv, |m|) && DrawnUpTo(r, |m|)
    ensures VecCarries(DEFAULTS, s, Products(DEFAULTS, s, r, EncryptVec(s, m, rm), EncryptVec(s, v, rv)),
      Hadamard(m, v), ProductNoises(DEFAULTS, m, Noises(rm, |m|), v, Noises(rv, |m|), r))
  {
    hide *;
    EncryptVecCarries(s, m, rm);
    EncryptVecCarries(s, v, rv);
    DigitProducts(m, v, rm, rv, r);
    ProductsCarry(
      DEFAULTS, s, EncryptVec(s, m, rm), EncryptVec(s, v, rv), m, Noises(rm, |m|), v, Noises(rv, |m|), r);
  }

  lemma Halved(n: nat, row: nat, next: Id)
    requires PowerOfTwo(n)
    ensures RowId(n, next) == if n / 2 == 0 then next else next + 1 + Log2(n / 2)
    ensures RowInsts(n, row, next) == [Hmult(next, row + 1, n + 1)] + ReductionInsts(next, next + 1, n / 2)
    ensures Hmult(next, row + 1, n + 1).resultId == next && n > 0
  {
  }

  /** One row: the result is exact in every slot, and earlier ids are left alone. */
  lemma {:induction false} RowRuns(
      s: int, table: set<Opcode>, rnd: Randomness, n: nat, row: nat, next: Id, vals: map<Id, Buf>,
      m: seq<int>, v: seq<int>, rm: Samples, rv: Samples)
    requires Conforming(table) && PowerOfTwo(n) && n <= 512 && row < n && next > n + 1
    requires |m| == |v| == n && Digits(m) && Digits(v) && DrawnUpTo(rm, n) && DrawnUpTo(rv, n)
    requires DrawnUpTo(SamplesOf(rnd, next), n)
    requires row + 1 in vals && vals[row + 1] == EncryptVec(s, m, rm)
    requires n + 1 in vals && vals[n + 1] == EncryptVec(s, v, rv)
    ensures var after := ToyRun(DEFAULTS, s, table, rnd, RowInsts(n, row, next), vals);
      Keeps(vals, after, next) && RowId(n, next) in after && EverySlot(s, after[RowId(n, next)], n, Dot(m, v))
  {
    hide *;
    Halved(n, row, next);
    var r := SamplesOf(rnd, next);
    var em, ev := Noises(rm, n), Noises(rv, n);
    var ms, es := Hadamard(m, v), ProductNoises(DEFAULTS, m, em, v, ev, r);
    FreshProducts(s, m, v, rm, rv, r);
    DigitProducts(m, v, rm, rv, r);
    HmultValue(DEFAULTS, s, table, rnd, next, row + 1, n + 1, vals);
    var inst := Hmult(next, row + 1, n + 1);
    RunOne(DEFAULTS, s, table, rnd, inst, ReductionInsts(next, next + 1, n / 2), vals);
    var one := vals[next := StepValue(DEFAULTS, s, table, rnd, inst, vals)];
    ReductionRuns(DEFAULTS, s, table, rnd, next, next + 1, n / 2, one, ms, es);
    var after := ToyRun(DEFAULTS, s, table, rnd, RowInsts(n, row, next), vals);
    KeepsAcross(vals, one, after, next);
    ReducedDecrypts(s, after[RowId(n, next)], ms, es);
    DotIs(m, v);
  }

  lemma KeepsAcross(vals: map<Id, Buf>, one: map<Id, Buf>, after: map<Id, Buf>, next: Id)
    requires next in one && one == vals[next := one[next]] && Keeps(one, after, next + 1)
    ensures Keeps(vals, after, next)
  {
  }

  lemma DotIs(a: seq<int>, b: seq<int>)
    requires |a| == |b|
    ensures Dot(a, b) == Total(Hadamard(a, b))
  {
  }

  ghost predicate HoldsVec(s: int, vals: map<Id, Buf>, id: Id, ms: seq<int>, r: Samples) {
    id in vals && vals[id] == EncryptVec(s, ms, r)
  }

  /** The inputs: row i of the matrix under id i + 1, the vector under id n + 1. */
  ghost predicate Encrypts(
    s: int, n: nat, vals: map<Id, Buf>, m: seq<seq<int>>, v: seq<int>, rm: nat -> Samples, rv: Samples)
    requires |m| == n
  {
    && (forall i :: 0 <= i < n ==> HoldsVec(s, vals, i + 1, m[i], rm(i)))
    && n + 1 in vals && vals[n + 1] == EncryptVec(s, v, rv)
  }

  /** Digits, with every sample in its range. */
  ghost predicate Sampled(
    n: nat, m: seq<seq<int>>, v: seq<int>, rm: nat -> Samples, rv: Samples, rnd: Randomness)
    requires |m| == n
  {
    && (forall i :: 0 <= i < n ==> |m[i]| == n && Digits(m[i]) && DrawnUpTo(rm(i), n))
    && |v| == n && Digits(v) && DrawnUpTo(rv, n)
    && (forall id: Id :: DrawnUpTo(SamplesOf(rnd, id), n))
  }

  lemma EncryptsKept(
      s: int, n: nat, vals: map<Id, Buf>, after: map<Id, Buf>, next: Id, m: seq<seq<int>>, v: seq<int>,
      rm: nat -> Samples, rv: Samples)
    requires |m| == n && Encrypts(s, n, vals, m, v, rm, rv) && Keeps(vals, after, next) && next > n + 1
    ensures Encrypts(s, n, after, m, v, rm, rv)
  {
    hide EncryptVec;
    forall i | 0 <= i < n ensures HoldsVec(s, after, i + 1, m[i], rm(i)) {
      assert HoldsVec(s, vals, i + 1, m[i], rm(i));
    }
  }

  /** The remaining rows. */
  lemma {:induction false} RowsRun(
      s: int, table: set<Opcode>, rnd: Randomness, n: nat, row: nat, vals: map<Id, Buf>,
      m: seq<seq<int>>, v: seq<int>, rm: nat -> Samples, rv: Samples, i: nat)
    requires Conforming(table) && PowerOfTwo(n) && n <= 512 && row <= n == |m|
    requires Sampled(n, m, v, rm, rv, rnd) && Encrypts(s, n, vals, m, v, rm, rv)
    ensures var after := ToyRun(DEFAULTS, s, table, rnd, MatvecInsts(n, row, FirstId(n, row)), vals);
      && Keeps(vals, after, FirstId(n, row))
      && (row <= i < n ==> (
            |m[i]| == |v| && RowId(n, FirstId(n, i)) in after &&
            EverySlot(s, after[RowId(n, FirstId(n, i))], n, Dot(m[i], v))))
    decreases n - row
  {
    hide *;
    var next := FirstId(n, row);
    if row == n {
      MatvecEnds(n, next);
      RunNothing(DEFAULTS, s, table, rnd, vals);
      KeepsItself(vals, next);
    } else {
      FirstIdAbove(n, row);
      NextRow(n, row);
      MatvecUnrolls(n, row, next);
      SampledRow(n, m, v, rm, rv, rnd, s, vals, row, next);
      RowRuns(s, table, rnd, n, row, next, vals, m[row], v, rm(row), rv);
      var one := ToyRun(DEFAULTS, s, table, rnd, RowInsts(n, row, next), vals);
      RunAppend(DEFAULTS, s, table, rnd, RowInsts(n, row, next), MatvecInsts(n, row + 1, FirstId(n, row + 1)), vals);
      EncryptsKept(s, n, vals, one, next, m, v, rm, rv);
      RowsRun(s, table, rnd, n, row + 1, one, m, v, rm, rv, i);
      var after := ToyRun(DEFAULTS, s, table, rnd, MatvecInsts(n, row, next), vals);
      KeepsTwice(vals, one, after, next, FirstId(n, row + 1));
      KeptRow(one, after, RowId(n, next), FirstId(n, row + 1));
    }
  }

  /** The encrypted product is exact: for every power of two n up to 512, every matrix and vector of digits,
      every key, everything that may be sampled, and with or without the fused kernels, evaluation leaves in every
      slot of every row's output a ciphertext that decrypts to the dot product; and the table can run every
      instruction. */
  lemma {:induction false} MatvecIsExact(
      s: int, table: set<Opcode>, rnd: Randomness, n: nat, vals: map<Id, Buf>,
      m: seq<seq<int>>, v: seq<int>, rm: nat -> Samples, rv: Samples, row: nat)
    requires Conforming(table) && PowerOfTwo(n) && n <= 512 && row < n == |m|
    requires Sampled(n, m, v, rm, rv, rnd) && Encrypts(s, n, vals, m, v, rm, rv)
    ensures |m[row]| == |v| && |MatvecProgram(n).outputs| == n
    ensures var p, ks := MatvecProgram(n), ToyFamily(DEFAULTS, s, rnd);
      var after := Eval(EffectiveAll(table, ks), p, vals, |p.insts|);
      && Runs(table, ks, p, vals, |p.insts|)
      && p.outputs[row] in after && EverySlot(s, after[p.outputs[row]], n, Dot(m[row], v))
  {
    hide *;
    var p, ks := MatvecProgram(n), ToyFamily(DEFAULTS, s, rnd);
    FirstRow(n);
    MatvecProgramIs(n);
    RowsRun(s, table, rnd, n, 0, vals, m, v, rm, rv, row);
    RunIsEval(DEFAULTS, s, table, rnd, p, vals, |p.insts|);
    assert p.insts[..|p.insts|] == p.insts;
    TableRunsMatvec(n, table, ks, vals);
  }

  lemma MatvecProgramIs(n: nat)
    ensures var p := MatvecProgram(n);
      && p.insts == MatvecInsts(n, 0, n + 2)
      && |p.inputs| == n + 1 && (forall i :: 0 <= i < n + 1 ==> p.inputs[i] == i + 1)
      && |p.outputs| == n && forall row :: 0 <= row < n ==> p.outputs[row] == RowId(n, FirstId(n, row))
  {
    hide MatvecInsts; hide RowId; hide FirstId;
  }

  /** Running from the front is evaluating. */
  lemma {:induction false} RunIsEval(
      p: Params, s: int, table: set<Opcode>, rnd: Randomness, prog: Program, vals: map<Id, Buf>, i: nat)
    requires i <= |prog.insts|
    ensures ToyRun(p, s, table, rnd, prog.insts[..i], vals) ==
      Eval(EffectiveAll(table, ToyFamily(p, s, rnd)), prog, vals, i)
  {
    hide *;
    var ks := EffectiveAll(table, ToyFamily(p, s, rnd));
    if i == 0 {
      EvalStart(ks, prog, vals);
      RunNothing(p, s, table, rnd, vals);
      assert prog.insts[..0] == [];
    } else {
      var before, inst := prog.insts[..i - 1], prog.insts[i - 1];
      RunIsEval(p, s, table, rnd, prog, vals, i - 1);
      assert prog.insts[..i] == before + [inst];
      RunAppend(p, s, table, rnd, before, [inst], vals);
      var mid := ToyRun(p, s, table, rnd, before, vals);
      RunOne(p, s, table, rnd, inst, [], mid);
      assert [inst] + [] == [inst];
      RunNothing(p, s, table, rnd, mid[inst.resultId := StepValue(p, s, table, rnd, inst, mid)]);
      EvalStep(ks, prog, vals, i - 1);
      StepValueIs(p, s, table, rnd, inst, mid);
    }
  }

  lemma StepValueIs(p: Params, s: int, table: set<Opcode>, rnd: Randomness, inst: Instruction, vals: map<Id, Buf>)
    ensures StepValue(p, s, table, rnd, inst, vals) ==
      Compute(EffectiveAll(table, ToyFamily(p, s, rnd))(inst.resultId), inst, vals)
  {
  }

  // ---- What its instructions look like ---------------------------------------------------------

  ghost predicate IsMatvecInst(inst: Instruction) {
    && (inst.opcode == HMULT || inst.opcode == HROT_ADD)
    && inst.operands[2] == 0 && inst.operands[3] == 0
  }

  ghost predicate AreMatvecInsts(insts: seq<Instruction>) {
    forall i :: 0 <= i < |insts| ==> IsMatvecInst(insts[i])
  }

  lemma {:induction false} ReductionShape(t: Id, next: Id, d: nat)
    ensures AreMatvecInsts(ReductionInsts(t, next, d))
    decreases d
  {
    if d > 0 {
      ReductionShape(next, next + 1, d / 2);
      ShapeAppend([HrotAddInst(next, t, d)], ReductionInsts(next, next + 1, d / 2));
    }
  }

  lemma {:induction false} MatvecShape(n: nat, row: nat, next: Id)
    requires row <= n
    ensures AreMatvecInsts(MatvecInsts(n, row, next))
    decreases n - row
  {
    hide AreMatvecInsts; hide RowId; hide ReductionInsts;
    if row == n {
      NoInsts();
    } else {
      ReductionShape(next, next + 1, n / 2);
      OneInst(Hmult(next, row + 1, n + 1));
      ShapeAppend([Hmult(next, row + 1, n + 1)], ReductionInsts(next, next + 1, n / 2));
      MatvecShape(n, row + 1, RowId(n, next) + 1);
      ShapeAppend(RowInsts(n, row, next), MatvecInsts(n, row + 1, RowId(n, next) + 1));
    }
  }

  lemma NoInsts()
    ensures AreMatvecInsts([])
  {
  }

  lemma OneInst(inst: Instruction)
    ensures IsMatvecInst(inst) ==> AreMatvecInsts([inst])
  {
  }

  lemma ShapeAppend(a: seq<Instruction>, b: seq<Instruction>)
    requires AreMatvecInsts(a) && AreMatvecInsts(b)
    ensures AreMatvecInsts(a + b)
  {
    hide IsMatvecInst;
  }

  /** Every conforming table runs the program. */
  lemma {:induction false} TableRunsMatvec(n: nat, table: set<Opcode>, ks: Kernels<Buf>, vals: map<Id, Buf>)
    requires Conforming(table)
    ensures Runs(table, ks, MatvecProgram(n), vals, |MatvecProgram(n).insts|)
  {
    var p := MatvecProgram(n);
    MatvecProgramIs(n);
    MatvecShape(n, 0, n + 2);
    hide MatvecInsts; hide MatvecProgram; hide Dispatched; hide EffectiveAll; hide Eval; hide OperandValues;
    hide Dispatchable;
    ConformingRuns(table);
    forall i | 0 <= i < |p.insts| ensures RunsHere(table, ks, p, vals, i) {
      var inst := p.insts[i];
      assert IsMatvecInst(inst);
      FourOperands(inst, Eval(EffectiveAll(table, ks), p, vals, i));
      DispatchedIff(table, ks(inst.resultId), inst.opcode,
        OperandValues(inst, Eval(EffectiveAll(table, ks), p, vals, i)), inst.param, inst.scalar);
    }
  }

  lemma ConformingRuns(table: set<Opcode>)
    requires Conforming(table)
    ensures Dispatchable(table, HMULT) && Dispatchable(table, HROT_ADD)
  {
  }

  /** At most three buffers at a time, and exactly three for a product. */
  lemma SmallWorkingSet(inst: Instruction)
    requires IsMatvecInst(inst)
    ensures |WorkingSet(inst)| <= 3
  {
    assert WorkingSet(inst) <= {inst.resultId, inst.operands[0], inst.operands[1]};
    AtMostThree(WorkingSet(inst), inst.resultId, inst.operands[0], inst.operands[1]);
  }

  lemma SmallWorkingSets(insts: seq<Instruction>)
    requires AreMatvecInsts(insts)
    ensures forall i :: 0 <= i < |insts| ==> |WorkingSet(insts[i])| <= 3
  {
    hide IsMatvecInst; hide WorkingSet;
    forall i | 0 <= i < |insts| ensures |WorkingSet(insts[i])| <= 3 {
      SmallWorkingSet(insts[i]);
    }
  }

  lemma AtMostThree(s: set<Id>, a: Id, b: Id, c: Id)
    requires s <= {a, b, c}
    ensures |s| <= 3
  {
    SubsetCardinality(s, {a, b, c});
  }

  lemma ProductWorkingSet(id: Id, a: Id, b: Id)
    requires id != a && id != b && a != b && a != 0 && b != 0
    ensures |WorkingSet(Hmult(id, a, b))| == 3
  {
    var inst := Hmult(id, a, b);
    assert inst.operands[0] == a && inst.operands[1] == b;
    assert WorkingSet(inst) == {id, a, b};
  }

  lemma FirstProduct(n: nat)
    requires n > 0
    ensures |MatvecProgram(n).insts| > 0 && MatvecProgram(n).insts[0] == Hmult(n + 2, 1, n + 1)
  {
  }

  // ---- How many kernels it takes ---------------------------------------------------------------

  function KernelCount(table: set<Opcode>, insts: seq<Instruction>): nat {
    if insts == [] then 0 else |KernelsFor(table, insts[0].opcode)| + KernelCount(table, insts[1..])
  }

  lemma {:induction false} CountAppend(table: set<Opcode>, a: seq<Instruction>, b: seq<Instruction>)
    ensures KernelCount(table, a + b) == KernelCount(table, a) + KernelCount(table, b)
  {
    hide KernelsFor;
    if a == [] {
      assert a + b == b;
    } else {
      assert (a + b)[1..] == a[1..] + b;
      CountAppend(table, a[1..], b);
    }
  }

  lemma {:induction false} KernelsRunCounted(table: set<Opcode>, p: Program, i: nat)
    requires i <= |p.insts|
    ensures |KernelsRun(table, p, i)| == KernelCount(table, p.insts[..i])
  {
    hide KernelsFor;
    if i > 0 {
      KernelsRunCounted(table, p, i - 1);
      assert p.insts[..i] == p.insts[..i - 1] + [p.insts[i - 1]];
      CountAppend(table, p.insts[..i - 1], [p.insts[i - 1]]);
      assert [p.insts[i - 1]][1..] == [];
    }
  }

  lemma {:induction false} ReductionCount(table: set<Opcode>, t: Id, next: Id, d: nat)
    ensures KernelCount(table, ReductionInsts(t, next, d)) ==
      |KernelsFor(table, HROT_ADD)| * if d == 0 then 0 else 1 + Log2(d)
    decreases d
  {
    hide KernelsFor; hide ReductionInsts; hide Log2;
    ReductionInstsUnroll(t, next, d);
    Log2Half(d);
    if d > 0 {
      var inst, rest := HrotAddInst(next, t, d), ReductionInsts(next, next + 1, d / 2);
      ReductionCount(table, next, next + 1, d / 2);
      CountAppend(table, [inst], rest);
      assert [inst][1..] == [];
      OneFactorMore(|KernelsFor(table, HROT_ADD)|, if d / 2 == 0 then 0 else 1 + Log2(d / 2));
    }
  }

  lemma OneFactorMore(a: int, b: int)
    ensures a * (1 + b) == a + a * b
  {
  }

  lemma {:induction false} MatvecCount(table: set<Opcode>, n: nat, row: nat, next: Id)
    requires 0 < n && row <= n
    ensures KernelCount(table, MatvecInsts(n, row, next)) ==
      (n - row) * (|KernelsFor(table, HMULT)| + |KernelsFor(table, HROT_ADD)| * Log2(n))
    decreases n - row
  {
    hide *;
    var each := |KernelsFor(table, HMULT)| + |KernelsFor(table, HROT_ADD)| * Log2(n);
    if row == n {
      MatvecEnds(n, next);
      CountNothing(table);
    } else {
      MatvecUnrolls(n, row, next);
      RowUnrolls(n, row, next);
      Log2Half(n);
      var inst, reduction := Hmult(next, row + 1, n + 1), ReductionInsts(next, next + 1, n / 2);
      var rest := MatvecInsts(n, row + 1, RowId(n, next) + 1);
      MatvecCount(table, n, row + 1, RowId(n, next) + 1);
      ReductionCount(table, next, next + 1, n / 2);
      CountAppend(table, [inst] + reduction, rest);
      CountAppend(table, [inst], reduction);
      CountOne(table, inst);
      HmultOpcode(next, row + 1, n + 1);
      RowsLeft(n - row, each);
    }
  }

  lemma RowsLeft(rows: int, each: int)
    ensures each + (rows - 1) * each == rows * each
  {
  }

  lemma CountNothing(table: set<Opcode>)
    ensures KernelCount(table, []) == 0
  {
  }

  lemma CountOne(table: set<Opcode>, inst: Instruction)
    ensures KernelCount(table, [inst]) == |KernelsFor(table, inst.opcode)|
  {
    assert [inst][1..] == [];
  }

  lemma HmultOpcode(id: Id, a: Id, b: Id)
    ensures Hmult(id, a, b).opcode == HMULT
  {
  }

  /** One kernel per instruction with the fused kernels, and without them three per product and two per
      rotate-and-add. */
  lemma {:induction false} MatvecKernels(n: nat)
    requires n > 0
    ensures var p := MatvecProgram(n);
      && |KernelsRun(TOY_TABLE, p, |p.insts|)| == n * (1 + Log2(n))
      && |KernelsRun(TOY_TABLE - FUSED, p, |p.insts|)| == n * (3 + 2 * Log2(n))
  {
    hide *;
    var p := MatvecProgram(n);
    MatvecProgramIs(n);
    assert p.insts[..|p.insts|] == p.insts;
    KernelsRunCounted(TOY_TABLE, p, |p.insts|);
    KernelsRunCounted(TOY_TABLE - FUSED, p, |p.insts|);
    MatvecCount(TOY_TABLE, n, 0, n + 2);
    MatvecCount(TOY_TABLE - FUSED, n, 0, n + 2);
    ToyKernelCounts();
  }

  lemma ToyKernelCounts()
    ensures |KernelsFor(TOY_TABLE, HMULT)| == 1 && |KernelsFor(TOY_TABLE, HROT_ADD)| == 1
    ensures |KernelsFor(TOY_TABLE - FUSED, HMULT)| == 3 && |KernelsFor(TOY_TABLE - FUSED, HROT_ADD)| == 2
  {
  }

  // ---- Its numbering ---------------------------------------------------------------------------

  lemma Log2Half(d: nat)
    ensures d > 0 ==> Log2(d) == if d / 2 == 0 then 0 else 1 + Log2(d / 2)
  {
  }

  lemma {:induction false} ReductionNumbered(insts: seq<Instruction>, inputs: seq<Id>, t: Id, next: Id, d: nat)
    requires Lowering.Numbered(insts, inputs, next) && 0 < t < next
    ensures Lowering.Numbered(insts + ReductionInsts(t, next, d), inputs, if d == 0 then next else next + 1 + Log2(d))
    decreases d
  {
    hide Lowering.Numbered; hide ReductionInsts; hide Log2;
    ReductionInstsUnroll(t, next, d);
    Log2Half(d);
    if d == 0 {
      assert insts + [] == insts;
    } else {
      var inst, rest := HrotAddInst(next, t, d), ReductionInsts(next, next + 1, d / 2);
      Lowering.AddInstruction(insts, inputs, next, inst);
      ReductionNumbered(insts + [inst], inputs, next, next + 1, d / 2);
      assert insts + [inst] + rest == insts + ([inst] + rest);
    }
  }

  lemma {:induction false} MatvecNumbered(insts: seq<Instruction>, inputs: seq<Id>, n: nat, row: nat)
    requires 0 < n && row <= n && Lowering.Numbered(insts, inputs, FirstId(n, row))
    ensures Lowering.Numbered(insts + MatvecInsts(n, row, FirstId(n, row)), inputs, FirstId(n, n))
    decreases n - row
  {
    hide *;
    var next := FirstId(n, row);
    FirstIdAbove(n, row);
    if row == n {
      MatvecEnds(n, next);
      assert insts + [] == insts;
    } else {
      MatvecUnrolls(n, row, next);
      NextRow(n, row);
      RowUnrolls(n, row, next);
      HmultBelow(next, row + 1, n + 1);
      var inst := Hmult(next, row + 1, n + 1);
      var reduction, rest := ReductionInsts(next, next + 1, n / 2), MatvecInsts(n, row + 1, FirstId(n, row + 1));
      Lowering.AddInstruction(insts, inputs, next, inst);
      ReductionNumbered(insts + [inst], inputs, next, next + 1, n / 2);
      MatvecNumbered(insts + [inst] + reduction, inputs, n, row + 1);
      assert insts + [inst] + reduction + rest == insts + ([inst] + reduction + rest);
    }
  }

  lemma HmultBelow(id: Id, a: Id, b: Id)
    requires a < id && b < id
    ensures forall j :: 0 <= j < 4 ==> Hmult(id, a, b).operands[j] < id
  {
  }

  lemma RowUnrolls(n: nat, row: nat, next: Id)
    requires 0 < n
    ensures RowInsts(n, row, next) == [Hmult(next, row + 1, n + 1)] + ReductionInsts(next, next + 1, n / 2)
    ensures Hmult(next, row + 1, n + 1).resultId == next
    ensures RowId(n, next) + 1 == if n / 2 == 0 then next + 1 else next + 2 + Log2(n / 2)
    ensures RowId(n, next) == ReductionId(next, n / 2)
  {
    hide ReductionInsts;
  }

  /** The program is valid. */
  lemma {:induction false} MatvecValid(n: nat)
    requires n > 0
    ensures Valid(MatvecProgram(n))
  {
    hide *;
    InputsNumbered(n);
    FirstRow(n);
    MatvecProgramIs(n);
    var p := MatvecProgram(n);
    MatvecNumbered([], p.inputs, n, 0);
    assert [] + p.insts == p.insts;
    Lowering.NumberedIsValid(p, FirstId(n, n));
  }

  lemma InputsNumbered(n: nat)
    ensures Lowering.Numbered([], MatvecProgram(n).inputs, n + 2)
  {
    var inputs := MatvecProgram(n).inputs;
    forall x | 1 <= x < n + 2 ensures x in inputs {
      assert inputs[x - 1] == x;
    }
  }

  /** A slot budget runs the program exactly when it is unlimited or at least three. */
  lemma {:induction false} MatvecFeasible(n: nat, c: MovementPlan.Config)
    requires n > 0 && c.p == MatvecProgram(n) && c.units == MovementPlan.Slots
    ensures MovementPlan.PlanOf(c).Some? <==> c.budget == 0 || c.budget >= 3
  {
    hide *;
    MatvecValid(n);
    MatvecShape(n, 0, n + 2);
    MatvecProgramIs(n);
    FirstProduct(n);
    ProductWorkingSet(n + 2, 1, n + 1);
    SmallWorkingSets(c.p.insts);
    Residency.PlanExistsIff(c);
    FitsThree(c);
  }

  lemma FitsThree(c: MovementPlan.Config)
    requires c.units == MovementPlan.Slots && |c.p.insts| > 0 && |WorkingSet(c.p.insts[0])| == 3
    requires forall i :: 0 <= i < |c.p.insts| ==> |WorkingSet(c.p.insts[i])| <= 3
    ensures Residency.Fits(c) <==> c.budget == 0 || c.budget >= 3
  {
    hide WorkingSet; hide MovementPlan.SumCost;
    forall i | 0 <= i < |c.p.insts|
      ensures MovementPlan.SumCost(c.units, WorkingSet(c.p.insts[i])) == |WorkingSet(c.p.insts[i])|
    {
      Residency.SumSlots(WorkingSet(c.p.insts[i]));
    }
  }

  // ---- Running it ------------------------------------------------------------------------------

  /** Every row's output buffer decrypts, in every slot, to the row's dot product with the vector. */
  ghost predicate Exact(
    s: int, n: nat, heap: map<Memory.Handle, Memory.Buffer<Buf>>, table: map<Id, Memory.Handle>, m: seq<seq<int>>,
    v: seq<int>)
    requires |m| == n
  {
    forall row :: 0 <= row < n ==> RowExact(s, n, heap, table, m[row], v, RowId(n, FirstId(n, row)))
  }

  ghost predicate RowExact(
    s: int, n: nat, heap: map<Memory.Handle, Memory.Buffer<Buf>>, table: map<Id, Memory.Handle>, a: seq<int>,
    v: seq<int>, id: Id)
  {
    |a| == |v| && id in table && table[id] in heap && EverySlot(s, heap[table[id]].value, n, Dot(a, v))
  }

  lemma {:induction false} ExactFromValues(
      s: int, registered: set<Opcode>, rnd: Randomness, n: nat, inputs: map<Id, Buf>, m: seq<seq<int>>, v: seq<int>,
      rm: nat -> Samples, rv: Samples, heap: map<Memory.Handle, Memory.Buffer<Buf>>, table: map<Id, Memory.Handle>)
    requires Conforming(registered) && PowerOfTwo(n) && n <= 512 && |m| == n
    requires Sampled(n, m, v, rm, rv, rnd) && Encrypts(s, n, inputs, m, v, rm, rv)
    requires var p := MatvecProgram(n);
      var vals := Eval(EffectiveAll(registered, ToyFamily(DEFAULTS, s, rnd)), p, inputs, |p.insts|);
      forall x :: x in p.outputs && x in vals ==> x in table && table[x] in heap && heap[table[x]].value == vals[x]
    ensures Exact(s, n, heap, table, m, v)
  {
    MatvecProgramIs(n);
    hide MatvecProgram; hide EffectiveAll; hide ToyFamily; hide Eval; hide Conforming; hide PowerOfTwo; hide Sampled;
    hide Encrypts; hide EverySlot; hide Dot; hide RowId; hide FirstId; hide Runs;
    forall row | 0 <= row < n ensures RowExact(s, n, heap, table, m[row], v, RowId(n, FirstId(n, row))) {
      MatvecIsExact(s, registered, rnd, n, inputs, m, v, rm, rv, row);
      assert MatvecProgram(n).outputs[row] in MatvecProgram(n).outputs;
    }
  }

  /** Plain execution over provisioned buffers, as the benchmark checks it before timing, with the fused kernels or
      without: it succeeds exactly when no kernel fails, and then every output is exact. */
  method RunMatvec(
      rt: Executor.Runtime<Buf>, n: nat, ghost s: int, ghost rnd: Randomness, ghost inputs: map<Id, Buf>,
      ghost m: seq<seq<int>>, ghost v: seq<int>, ghost rm: nat -> Samples, ghost rv: Samples)
    returns (rc: int)
    requires PowerOfTwo(n) && n <= 512 && |m| == n && Sampled(n, m, v, rm, rv, rnd)
    requires Conforming(rt.registered) && rt.kernels == ToyFamily(DEFAULTS, s, rnd)
    requires Executor.Provisioned(rt.heap, rt.table, MatvecProgram(n))
    requires inputs.Keys == SetOf(MatvecProgram(n).inputs) && Executor.HasValues(rt.heap, rt.table, inputs)
    requires Encrypts(s, n, inputs, m, v, rm, rv)
    modifies rt
    ensures rc == 0 <==> rt.faults == old(rt.faults)
    ensures rt.Faultless() ==> rc == 0
    ensures rc == 0 ==> rt.log == old(rt.log) + KernelsRun(rt.registered, MatvecProgram(n), |MatvecProgram(n).insts|)
    ensures rc == 0 ==> Exact(s, n, rt.heap, rt.table, m, v)
  {
    hide *;
    PositivePower(n);
    var p := BuildProgram(n);
    MatvecValid(n);
    TableRunsMatvec(n, rt.registered, rt.kernels, inputs);
    rc := rt.Execute(p, inputs);
    if rc == 0 {
      var vals := Eval(EffectiveAll(rt.registered, rt.kernels), p, inputs, |p.insts|);
      ValuesHeld(rt.heap, rt.table, vals);
      ExactFromValues(s, rt.registered, rnd, n, inputs, m, v, rm, rv, rt.heap, rt.table);
    }
  }

  lemma PositivePower(n: nat)
    requires PowerOfTwo(n)
    ensures n > 0
  {
  }

  lemma ValuesHeld(heap: map<Memory.Handle, Memory.Buffer<Buf>>, table: map<Id, Memory.Handle>, vals: map<Id, Buf>)
    requires Executor.HasValues(heap, table, vals)
    ensures forall x :: x in vals ==> x in table && table[x] in heap && heap[table[x]].value == vals[x]
  {
  }

  /** Plan-aware execution under a slot budget, with movement hooks or without, the outputs pinned. A budget of one or
      two buffers is rejected; otherwise the run succeeds exactly when no hook or kernel fails, and then every output
      is exact, wherever it was evicted to in between. */
  method RunMatvecPlanned(
      rt: Executor.Runtime<Buf>, n: nat, budget: nat, policy: MovementPlan.Policy, ghost s: int, ghost rnd: Randomness,
      ghost m: seq<seq<int>>, ghost v: seq<int>, ghost rm: nat -> Samples, ghost rv: Samples)
    returns (planned: bool, rc: int)
    requires PowerOfTwo(n) && n <= 512 && |m| == n && Sampled(n, m, v, rm, rv, rnd)
    requires Conforming(rt.registered) && rt.kernels == ToyFamily(DEFAULTS, s, rnd)
    requires Executor.Supplied(PlannedConfig(n, budget, policy), rt.moves, rt.heap, rt.table)
    requires forall x :: x in rt.table ==> rt.table[x] in rt.heap
    requires Encrypts(s, n, Executor.InputValues(rt.heap, rt.table), m, v, rm, rv)
    modifies rt
    ensures planned <==> budget == 0 || budget >= 3
    ensures planned ==> (rc == 0 <==> rt.faults == old(rt.faults))
    ensures planned && rt.Faultless() ==> rc == 0
    ensures planned && rc == 0 ==> Exact(s, n, rt.heap, rt.table, m, v)
    ensures planned && rt.moves && budget > 0 && Memory.OnDevice(old(rt.heap), old(rt.table)) == {} ==> rt.peak <= budget
  {
    hide *;
    PositivePower(n);
    ghost var inputs, c := Executor.InputValues(rt.heap, rt.table), PlannedConfig(n, budget, policy);
    ghost var heap0, table0 := rt.heap, rt.table;
    PlannedConfigIs(n, budget, policy);
    var p := BuildProgram(n);
    MatvecValid(n);
    MatvecFeasible(n, c);
    TableRunsMatvec(n, rt.registered, rt.kernels, inputs);
    var plan := Analyzer.Analyze(p, p.outputs, budget, policy, None);
    PlannedIs(n, budget, policy);
    if plan.None? { return false, -1; }
    planned := true;
    PlannedLength(c);
    Executor.SuppliedFacts(c, rt.moves, rt.heap, rt.table);
    rc := rt.ExecutePlan(p, plan.value, c);
    if rc == 0 {
      PinnedHeld(n, budget, policy, EffectiveAll(rt.registered, rt.kernels), rt.moves, heap0, table0, rt.heap, rt.table);
      ExactFromValues(s, rt.registered, rnd, n, inputs, m, v, rm, rv, rt.heap, rt.table);
    }
  }

  ghost function PlannedConfig(n: nat, budget: nat, policy: MovementPlan.Policy): MovementPlan.Config {
    MovementPlan.Config(MatvecProgram(n), SetOf(MatvecProgram(n).outputs), budget, policy, MovementPlan.Slots)
  }

  lemma PlannedConfigIs(n: nat, budget: nat, policy: MovementPlan.Policy)
    ensures var c := PlannedConfig(n, budget, policy);
      c.p == MatvecProgram(n) && c.units == MovementPlan.Slots && c.budget == budget
  {
    hide MatvecProgram; hide SetOf;
  }

  lemma PlannedIs(n: nat, budget: nat, policy: MovementPlan.Policy)
    requires Valid(MatvecProgram(n))
    ensures Analyzer.Analysis(MatvecProgram(n), SetOf(MatvecProgram(n).outputs), budget, policy, None) ==
      MovementPlan.PlanOf(PlannedConfig(n, budget, policy))
  {
    hide MatvecProgram; hide SetOf; hide MovementPlan.PlanOf; hide Valid;
  }

  lemma PlannedLength(c: MovementPlan.Config)
    requires MovementPlan.PlanOf(c).Some?
    ensures |MovementPlan.PlanOf(c).value.actions| == |c.p.insts|
  {
    Lifetimes.OneActionEach(c);
  }

  lemma PinnedHeld(
      n: nat, budget: nat, policy: MovementPlan.Policy, ks: Kernels<Buf>, moves: bool,
      heap0: map<Memory.Handle, Memory.Buffer<Buf>>, table0: map<Id, Memory.Handle>,
      heap: map<Memory.Handle, Memory.Buffer<Buf>>, table: map<Id, Memory.Handle>)
    requires n > 0 && forall x :: x in table0 ==> table0[x] in heap0
    requires Executor.Finished(PlannedConfig(n, budget, policy), ks, moves, heap0, table0, heap, table)
    requires table0.Keys == SetOf(MatvecProgram(n).inputs)
    ensures var p := MatvecProgram(n);
      var vals := Eval(ks, p, Executor.InputValues(heap0, table0), |p.insts|);
      forall x :: x in p.outputs && x in vals ==> x in table && table[x] in heap && heap[table[x]].value == vals[x]
  {
    FirstProduct(n);
    EvalDomain(ks, MatvecProgram(n), Executor.InputValues(heap0, table0), |MatvecProgram(n).insts|);
    hide MatvecProgram; hide Eval; hide Memory.Sharing; hide Memory.HandlesOf; hide DefinedBefore;
  }

  lemma MatvecEnds(n: nat, next: Id)
    ensures MatvecInsts(n, n, next) == []
  {
  }

  lemma MatvecUnrolls(n: nat, row: nat, next: Id)
    requires row < n
    ensures MatvecInsts(n, row, next) == RowInsts(n, row, next) + MatvecInsts(n, row + 1, RowId(n, next) + 1)
  {
  }

  lemma FirstIdAbove(n: nat, row: nat)
    ensures n + 1 < FirstId(n, row) <= RowId(n, FirstId(n, row)) < FirstId(n, row + 1)
  {
  }

  lemma KeepsItself(vals: map<Id, Buf>, next: Id)
    ensures Keeps(vals, vals, next)
  {
  }

  lemma KeepsTwice(vals: map<Id, Buf>, one: map<Id, Buf>, after: map<Id, Buf>, next: Id, later: Id)
    requires Keeps(vals, one, next) && Keeps(one, after, later) && next <= later
    ensures Keeps(vals, after, next)
  {
  }

  lemma KeptRow(one: map<Id, Buf>, after: map<Id, Buf>, id: Id, later: Id)
    requires Keeps(one, after, later) && id in one && id < later
    ensures id in after && after[id] == one[id]
  {
  }

  lemma SampledRow(
      n: nat, m: seq<seq<int>>, v: seq<int>, rm: nat -> Samples, rv: Samples, rnd: Randomness,
      s: int, vals: map<Id, Buf>, row: nat, next: Id)
    requires |m| == n && row < n && Sampled(n, m, v, rm, rv, rnd) && Encrypts(s, n, vals, m, v, rm, rv)
    ensures |m[row]| == |v| == n && Digits(m[row]) && Digits(v) && DrawnUpTo(rm(row), n) && DrawnUpTo(rv, n)
    ensures DrawnUpTo(SamplesOf(rnd, next), n)
    ensures row + 1 in vals && vals[row + 1] == EncryptVec(s, m[row], rm(row))
    ensures n + 1 in vals && vals[n + 1] == EncryptVec(s, v, rv)
  {
    hide Digits; hide DrawnUpTo; hide EncryptVec; hide SamplesOf;
    assert HoldsVec(s, vals, row + 1, m[row], rm(row));
  }
}
