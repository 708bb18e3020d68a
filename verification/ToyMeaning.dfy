/** What the toy backend's table computes, told in messages and noise. */
module ToyMeaning {
  import opened Fhn
  import opened Modular
  import opened Slots
  import opened ToyFhe
  import opened Decomposition
  import opened Simulation
  import opened ToyKernels

  /** A message, and a bound on the noise it is carried with. */
  datatype Slot = Slot(m: int, bound: nat)

  /** What a buffer is known to hold: one slot, a vector of slots, or nothing. */
  datatype Noisy = Lost | Known(vector: bool, slots: seq<Slot>)

  /** The ciphertext carries the message with noise within the bound. */
  ghost predicate SlotHolds(p: Params, s: int, c: Ciphertext, x: Slot) {
    Plain(c) && exists e :: Abs(e) <= x.bound && Carries(p, s, c, x.m, e)
  }

  ghost predicate BufHolds(p: Params, s: int, b: Buf, w: Noisy) {
    match w
    case Lost => true
    case Known(true, slots) =>
      && slots != [] && b.Vec? && |b.slots| == |slots|
      && forall i :: 0 <= i < |slots| ==> SlotHolds(p, s, b.slots[i], slots[i])
    case Known(false, slots) =>
      |slots| == 1 && b.Single? && b.loaded && SlotHolds(p, s, b.ct, slots[0])
  }

  ghost function HoldsKnown(p: Params, s: int): (Buf, Noisy) -> bool {
    (b: Buf, w: Noisy) => BufHolds(p, s, b, w)
  }

  // ---- Messages and noise under each opcode ----------------------------------------------------

  function SumSlot(x: Slot, y: Slot): Slot { Slot(x.m + y.m, x.bound + y.bound) }
  function DifferenceSlot(x: Slot, y: Slot): Slot { Slot(x.m - y.m, x.bound + y.bound) }
  function ProductSlot(p: Params, x: Slot, y: Slot): Slot {
    Slot(x.m * y.m, ProductBound(p, x.m, x.bound, y.m, y.bound))
  }
  function ShiftedSlot(x: Slot, k: int): Slot { Slot(x.m + k, x.bound) }
  function ScaledSlot(x: Slot, k: int): Slot {
    NonnegativeParts(Abs(k), x.bound, 1);
    Slot(k * x.m, Abs(k) * x.bound)
  }
  function NegatedSlot(x: Slot): Slot { Slot(-x.m, x.bound) }

  /** Message and noise are where multiplication keeps them apart. */
  predicate SlotInRange(p: Params, x: Slot) {
    2 * x.bound < Delta(p) && 2 * Abs(x.m) < p.t
  }

  function ZipSlots(f: (Slot, Slot) -> Slot, a: seq<Slot>, b: seq<Slot>): (r: seq<Slot>)
    requires |a| == |b|
    ensures |r| == |a|
  {
    seq(|a|, i requires 0 <= i < |a| => f(a[i], b[i]))
  }

  predicate Fit(a: Noisy, b: Noisy) {
    a.Known? && b.Known? && a.vector == b.vector && |a.slots| == |b.slots|
  }

  predicate AllInRange(p: Params, slots: seq<Slot>) {
    forall i :: 0 <= i < |slots| ==> SlotInRange(p, slots[i])
  }

  function OnOne(f: Slot -> Slot, a: Noisy): Noisy {
    if a.Known? && !a.vector && |a.slots| == 1 then Known(false, [f(a.slots[0])]) else Lost
  }

  /** The opcodes of one operand; on single ciphertexts but for rotation, which is for vectors. */
  function NoisyUnary(op: Opcode, a: Noisy, param: int, scalar: int): Option<Noisy> {
    match op
    case ADD_CS => Some(OnOne(x => ShiftedSlot(x, scalar), a))
    case MULT_CS => Some(OnOne(x => ScaledSlot(x, scalar), a))
    case NEGATE => Some(OnOne(x => NegatedSlot(x), a))
    case RELINEARIZE => Some(a)
    case RESCALE => Some(a)
    case ROTATE => Some(if a.Known? && a.vector && a.slots != [] then Known(true, Rotate(a.slots, param)) else Lost)
    case _ => None
  }

  /** The opcodes of two operands of one kind and size; products only of what is in range. */
  function NoisyBinary(p: Params, op: Opcode, a: Noisy, b: Noisy, param: int): Noisy {
    if !Fit(a, b) then Lost
    else
      match op
      case ADD_CC => Known(a.vector, ZipSlots(SumSlot, a.slots, b.slots))
      case SUB_CC => if a.vector then Lost else Known(false, ZipSlots(DifferenceSlot, a.slots, b.slots))
      case MULT_CC => NoisyProduct(p, a, b)
      case HMULT => NoisyProduct(p, a, b)
      case HROT_ADD =>
        if a.vector && a.slots != [] then Known(true, ZipSlots(SumSlot, Rotate(a.slots, param), b.slots)) else Lost
      case _ => Lost
  }

  function NoisyProduct(p: Params, a: Noisy, b: Noisy): Noisy
    requires Fit(a, b)
  {
    if AllInRange(p, a.slots) && AllInRange(p, b.slots) then
      Known(a.vector, ZipSlots((x, y) => ProductSlot(p, x, y), a.slots, b.slots))
    else Lost
  }

  /** The table in messages and noise: what each opcode makes of what its operands are known to hold. */
  function NoisyKernel(p: Params): Kernel<Noisy> {
    (op: Opcode, args: seq<Option<Noisy>>, param: int, scalar: int) =>
      if |args| != 4 || args[0].None? then Lost
      else if NoisyUnary(op, args[0].value, param, scalar).Some? then
        NoisyUnary(op, args[0].value, param, scalar).value
      else if args[1].None? then Lost
      else NoisyBinary(p, op, args[0].value, args[1].value, param)
  }

  // ---- One slot --------------------------------------------------------------------------------

  lemma HoldsBy(p: Params, s: int, c: Ciphertext, x: Slot, e: int)
    requires Plain(c) && Abs(e) <= x.bound && Carries(p, s, c, x.m, e)
    ensures SlotHolds(p, s, c, x)
  {
    hide Carries; hide Plain;
  }

  lemma NoiseOf(p: Params, s: int, c: Ciphertext, x: Slot) returns (e: int)
    requires SlotHolds(p, s, c, x)
    ensures Plain(c) && Abs(e) <= x.bound && Carries(p, s, c, x.m, e)
  {
    hide Carries; hide Plain;
    e :| Abs(e) <= x.bound && Carries(p, s, c, x.m, e);
  }

  lemma {:induction false} SumHolds(p: Params, s: int, a: Ciphertext, b: Ciphertext, x: Slot, y: Slot)
    requires SlotHolds(p, s, a, x) && SlotHolds(p, s, b, y)
    ensures SlotHolds(p, s, Add(p, a, b), SumSlot(x, y))
  {
    hide Carries; hide Plain; hide Add; hide SlotHolds;
    var e := NoiseOf(p, s, a, x);
    var f := NoiseOf(p, s, b, y);
    AddCarries(p, s, a, b, x.m, e, y.m, f);
    HoldsBy(p, s, Add(p, a, b), SumSlot(x, y), e + f);
  }

  lemma {:induction false} NegationHolds(p: Params, s: int, a: Ciphertext, x: Slot)
    requires SlotHolds(p, s, a, x)
    ensures SlotHolds(p, s, Negate(a), NegatedSlot(x))
  {
    hide Carries; hide SlotHolds;
    var e := NoiseOf(p, s, a, x);
    NegateCarries(p, s, a, x.m, e);
    HoldsBy(p, s, Negate(a), NegatedSlot(x), -e);
  }

  /** Subtraction adds the negation: messages are subtracted, noises at most added. */
  lemma {:induction false} DifferenceHolds(p: Params, s: int, a: Ciphertext, b: Ciphertext, x: Slot, y: Slot)
    requires SlotHolds(p, s, a, x) && SlotHolds(p, s, b, y)
    ensures SlotHolds(p, s, Add(p, a, Negate(b)), DifferenceSlot(x, y))
  {
    hide SlotHolds; hide Add; hide Negate;
    NegationHolds(p, s, b, y);
    SumHolds(p, s, a, Negate(b), x, NegatedSlot(y));
  }

  lemma {:induction false} ShiftHolds(p: Params, s: int, a: Ciphertext, x: Slot, k: int)
    requires SlotHolds(p, s, a, x)
    ensures SlotHolds(p, s, AddPlain(p, a, k), ShiftedSlot(x, k))
  {
    hide Carries; hide Plain; hide AddPlain; hide SlotHolds;
    var e := NoiseOf(p, s, a, x);
    AddPlainCarries(p, s, a, x.m, e, k);
    HoldsBy(p, s, AddPlain(p, a, k), ShiftedSlot(x, k), e);
  }

  lemma {:induction false} ScaleHolds(p: Params, s: int, a: Ciphertext, x: Slot, k: int)
    requires SlotHolds(p, s, a, x)
    ensures SlotHolds(p, s, MultiplyPlain(p, a, k), ScaledSlot(x, k))
  {
    hide Carries; hide Plain; hide MultiplyPlain; hide SlotHolds;
    var e := NoiseOf(p, s, a, x);
    MultiplyPlainCarries(p, s, a, x.m, e, k);
    AbsProductAtMost(k, e, Abs(k), x.bound);
    HoldsBy(p, s, MultiplyPlain(p, a, k), ScaledSlot(x, k), k * e);
  }

  lemma {:induction false} ProductHolds(
      p: Params, s: int, a: Ciphertext, b: Ciphertext, x: Slot, y: Slot, r: Sample)
    requires SlotHolds(p, s, a, x) && SlotHolds(p, s, b, y) && SlotInRange(p, x) && SlotInRange(p, y) && Drawn(p, r)
    ensures SlotHolds(p, s, Multiply(p, s, a, b, r), ProductSlot(p, x, y))
  {
    hide Carries; hide Plain; hide Multiply; hide SlotHolds; hide ProductNoise; hide ProductBound; hide Delta;
    var e := NoiseOf(p, s, a, x);
    var f := NoiseOf(p, s, b, y);
    MultiplyCarries(p, s, a, b, x.m, e, y.m, f, r);
    ProductNoiseBounded(p, x.m, e, x.bound, y.m, f, y.bound, r);
    HoldsBy(p, s, Multiply(p, s, a, b, r), ProductSlot(p, x, y), ProductNoise(p, x.m, e, y.m, f, r));
  }

  /** What is known decrypts, while the noise is in range, exactly when it is a plaintext. */
  lemma {:induction false} HeldDecrypts(p: Params, s: int, c: Ciphertext, x: Slot)
    requires SlotHolds(p, s, c, x) && 2 * x.bound < Delta(p)
    ensures DecryptInt(p, s, c) == x.m <==> -p.t < 2 * x.m <= p.t
  {
    hide Carries; hide DecryptInt; hide SlotHolds; hide Delta;
    var e := NoiseOf(p, s, c, x);
    DecryptsTo(p, s, c, x.m, e);
  }

  lemma {:induction false} FreshHolds(p: Params, s: int, value: int, r: Sample)
    requires Drawn(p, r)
    ensures SlotHolds(p, s, EncryptInt(p, s, value, r), Slot(value, p.noiseBound))
  {
    hide Carries; hide EncryptInt; hide Plain;
    EncryptCarries(p, s, value, r);
    HoldsBy(p, s, EncryptInt(p, s, value, r), Slot(value, p.noiseBound), r.noise);
  }

  // ---- The table -------------------------------------------------------------------------------

  lemma {:induction false} UnaryHolds(p: Params, s: int, op: Opcode, a: Buf, w: Noisy, param: int, scalar: int)
    requires BufHolds(p, s, a, w)
    ensures UnaryKernel(p, op, a, param, scalar).Some? <==> NoisyUnary(op, w, param, scalar).Some?
    ensures UnaryKernel(p, op, a, param, scalar).Some? ==>
      BufHolds(p, s, UnaryKernel(p, op, a, param, scalar).value, NoisyUnary(op, w, param, scalar).value)
  {
    hide SlotHolds; hide AddPlain; hide MultiplyPlain; hide Negate; hide NormRot; hide Rotate; hide ScaledSlot;
    if w.Known? && !w.vector {
      ShiftHolds(p, s, a.ct, w.slots[0], scalar);
      ScaleHolds(p, s, a.ct, w.slots[0], scalar);
      NegationHolds(p, s, a.ct, w.slots[0]);
    }
    if w.Known? && w.vector { RotationHolds(p, s, a, w, param); }
  }

  lemma {:induction false} RotationHolds(p: Params, s: int, a: Buf, w: Noisy, d: int)
    requires w.Known? && w.vector && BufHolds(p, s, a, w)
    ensures w.slots != [] && a.Vec? && a.slots != []
    ensures BufHolds(p, s, Vec(Rotate(a.slots, d)), Known(true, Rotate(w.slots, d)))
  {
    hide SlotHolds; hide Rotate;
    RotateAt(a.slots, d, 0);
    RotateAt(w.slots, d, 0);
    forall i | 0 <= i < |w.slots|
      ensures |Rotate(a.slots, d)| == |Rotate(w.slots, d)| == |w.slots|
      ensures SlotHolds(p, s, Rotate(a.slots, d)[i], Rotate(w.slots, d)[i])
    {
      RotateAt(a.slots, d, i);
      RotateAt(w.slots, d, i);
    }
  }

  lemma {:induction false} PairsHold(
      p: Params, s: int, f: (nat, Ciphertext, Ciphertext) -> Ciphertext, g: (Slot, Slot) -> Slot, a: Buf, b: Buf,
      v: Noisy, w: Noisy)
    requires Fit(v, w) && BufHolds(p, s, a, v) && BufHolds(p, s, b, w)
    requires forall i: nat, x, y, c, d ::
      i < |v.slots| && x == v.slots[i] && y == w.slots[i] && SlotHolds(p, s, c, x) && SlotHolds(p, s, d, y) ==>
        SlotHolds(p, s, f(i, c, d), g(x, y))
    ensures BufHolds(p, s, Pairwise(f, a, b), Known(v.vector, ZipSlots(g, v.slots, w.slots)))
  {
    hide SlotHolds;
  }

  lemma {:induction false} SumsHold(p: Params, s: int, a: Buf, b: Buf, v: Noisy, w: Noisy)
    requires Fit(v, w) && BufHolds(p, s, a, v) && BufHolds(p, s, b, w)
    ensures BufHolds(p, s, Sums(p, a, b), Known(v.vector, ZipSlots(SumSlot, v.slots, w.slots)))
  {
    hide BufHolds; hide SlotHolds; hide Add; hide SumSlot; hide Pairwise; hide ZipSlots;
    forall i: nat, x, y, c, d |
      i < |v.slots| && x == v.slots[i] && y == w.slots[i] && SlotHolds(p, s, c, x) && SlotHolds(p, s, d, y)
      ensures SlotHolds(p, s, Add(p, c, d), SumSlot(x, y))
    {
      SumHolds(p, s, c, d, x, y);
    }
    PairsHold(p, s, (i: nat, x: Ciphertext, y: Ciphertext) => Add(p, x, y), SumSlot, a, b, v, w);
  }

  lemma {:induction false} ProductsHold(p: Params, s: int, r: Samples, a: Buf, b: Buf, v: Noisy, w: Noisy)
    requires Fit(v, w) && BufHolds(p, s, a, v) && BufHolds(p, s, b, w)
    requires forall i :: Drawn(p, r(i))
    ensures BufHolds(p, s, Products(p, s, r, a, b), NoisyProduct(p, v, w))
  {
    hide BufHolds; hide SlotHolds; hide Multiply; hide ProductSlot; hide Pairwise; hide ZipSlots; hide Drawn;
    if AllInRange(p, v.slots) && AllInRange(p, w.slots) {
      forall i: nat, x, y, c, d |
        i < |v.slots| && x == v.slots[i] && y == w.slots[i] && SlotHolds(p, s, c, x) && SlotHolds(p, s, d, y)
        ensures SlotHolds(p, s, Multiply(p, s, c, d, r(i)), ProductSlot(p, x, y))
      {
        ProductHolds(p, s, c, d, x, y, r(i));
      }
      PairsHold(p, s, (i: nat, x: Ciphertext, y: Ciphertext) => Multiply(p, s, x, y, r(i)),
        (x, y) => ProductSlot(p, x, y), a, b, v, w);
    } else {
      LostHolds(p, s, Products(p, s, r, a, b));
    }
  }

  lemma LostHolds(p: Params, s: int, b: Buf)
    ensures BufHolds(p, s, b, Lost)
  {
  }

  lemma {:induction false} RotatedSumHolds(p: Params, s: int, a: Buf, b: Buf, v: Noisy, w: Noisy, d: int)
    requires Fit(v, w) && v.vector && v.slots != [] && BufHolds(p, s, a, v) && BufHolds(p, s, b, w)
    ensures |Rotate(v.slots, d)| == |w.slots|
    ensures BufHolds(p, s, HrotAdd(p, a, b, d), Known(true, ZipSlots(SumSlot, Rotate(v.slots, d), w.slots)))
  {
    hide SlotHolds; hide Add; hide SumSlot; hide Sums; hide ZipSlots; hide HrotAdd; hide Rotate;
    RotateAt(v.slots, d, 0);
    RotationHolds(p, s, a, v, d);
    HrotAddComposes(p, a, b, d);
    var rotated := Known(true, Rotate(v.slots, d));
    SumsHold(p, s, Vec(Rotate(a.slots, d)), b, rotated, w);
  }

  lemma {:induction false} BinaryHolds(
      p: Params, s: int, r: Samples, op: Opcode, a: Buf, b: Buf, v: Noisy, w: Noisy, param: int)
    requires BufHolds(p, s, a, v) && BufHolds(p, s, b, w) && forall i :: Drawn(p, r(i))
    ensures BufHolds(p, s, BinaryKernel(p, s, r, op, a, b, param), NoisyBinary(p, op, v, w, param))
  {
    LostHolds(p, s, BinaryKernel(p, s, r, op, a, b, param));
    hide SlotHolds; hide Sums; hide Products; hide HrotAdd; hide NoisyProduct; hide SumSlot; hide Drawn; hide Rotate;
    hide Add; hide Negate;
    if Fit(v, w) {
      if op == ADD_CC {
        SumsHold(p, s, a, b, v, w);
      } else if op == SUB_CC && !v.vector {
        DifferenceHolds(p, s, a.ct, b.ct, v.slots[0], w.slots[0]);
      } else if op == MULT_CC || op == HMULT {
        ProductsHold(p, s, r, a, b, v, w);
      } else if op == HROT_ADD && v.vector {
        RotatedSumHolds(p, s, a, b, v, w, param);
      }
    }
  }

  /** Every opcode of the table does to messages and noise what the noisy kernel says, whatever is sampled. */
  lemma {:induction false} ToyFollows(p: Params, s: int, r: Samples, op: Opcode)
    requires forall i :: Drawn(p, r(i))
    ensures Follows(HoldsKnown(p, s), ToyKernel(p, s, r), NoisyKernel(p), op)
  {
    hide UnaryKernel; hide BinaryKernel; hide NoisyUnary; hide NoisyBinary; hide Drawn; hide BufHolds;
    forall args: seq<Option<Buf>>, others: seq<Option<Noisy>>, param, scalar | Matches(HoldsKnown(p, s), args, others)
      ensures HoldsKnown(p, s)(ToyKernel(p, s, r)(op, args, param, scalar), NoisyKernel(p)(op, others, param, scalar))
    {
      assert args[0].Some? <==> others[0].Some?;
      assert args[1].Some? <==> others[1].Some?;
      LostHolds(p, s, ToyKernel(p, s, r)(op, args, param, scalar));
      if args[0].Some? {
        UnaryHolds(p, s, op, args[0].value, others[0].value, param, scalar);
        if args[1].Some? {
          BinaryHolds(p, s, r, op, args[0].value, args[1].value, others[0].value, others[1].value, param);
        }
      }
    }
  }

  /** The opcodes the backend offers, whichever fused kernels a table keeps. */
  predicate Conforming(table: set<Opcode>) {
    TOY_TABLE - FUSED <= table <= TOY_TABLE
  }

  lemma {:induction false} ConformingFollows(p: Params, s: int, r: Samples, table: set<Opcode>, op: Opcode)
    requires Conforming(table) && op in TOY_TABLE && forall i :: Drawn(p, r(i))
    ensures Follows(HoldsKnown(p, s), Effective(table, ToyKernel(p, s, r)), NoisyKernel(p), op)
  {
    hide ToyKernel; hide NoisyKernel; hide HoldsKnown; hide FusedAreCompositions; hide Drawn; hide Dispatched;
    hide Matches;
    ToyFollows(p, s, r, op);
    ToyFusedAreCompositions(p, s, r);
    var k := ToyKernel(p, s, r);
    forall args, others, param, scalar | Matches(HoldsKnown(p, s), args, others)
      ensures HoldsKnown(p, s)(Effective(table, k)(op, args, param, scalar), NoisyKernel(p)(op, others, param, scalar))
    {
      FourMatch(HoldsKnown(p, s), args, others);
      ConformingDispatches(table, k, op, args, param, scalar);
      RemovingFusedKernels(TOY_TABLE, table, k, op, args, param, scalar);
      FullDispatch(k, op, args, param, scalar);
    }
  }

  lemma FourMatch(related: (Buf, Noisy) -> bool, args: seq<Option<Buf>>, others: seq<Option<Noisy>>)
    requires Matches(related, args, others)
    ensures |args| == |others| == 4
  {
  }

  lemma ConformingDispatches<V>(
      table: set<Opcode>, k: Kernel<V>, op: Opcode, args: seq<Option<V>>, param: int, scalar: int)
    requires Conforming(table) && op in TOY_TABLE && |args| == 4
    ensures Dispatched(table, k, op, args, param, scalar).Some?
  {
    DispatchedIff(table, k, op, args, param, scalar);
    hide Dispatched;
  }

  lemma FullDispatch<V>(k: Kernel<V>, op: Opcode, args: seq<Option<V>>, param: int, scalar: int)
    requires op in TOY_TABLE && |args| == 4
    ensures Dispatched(TOY_TABLE, k, op, args, param, scalar) == Some(k(op, args, param, scalar))
  {
  }

  /** What each instruction draws, slot by slot. */
  type Randomness = (Id, nat) -> Sample

  function SamplesOf(rnd: Randomness, id: Id): Samples {
    (slot: nat) => rnd(id, slot)
  }

  /** The backend's kernels: each instruction draws samples of its own. */
  function ToyFamily(p: Params, s: int, rnd: Randomness): Kernels<Buf> {
    (id: Id) => ToyKernel(p, s, SamplesOf(rnd, id))
  }

  /** Everything that is sampled is in its range. */
  ghost predicate AllSampled(p: Params, rnd: Randomness) {
    forall id, slot :: Drawn(p, rnd(id, slot))
  }

  /** A program over the toy backend, with or without its fused kernels: every buffer holds the messages, within the
      noise, that the noisy kernel computes. */
  lemma {:induction false} ProgramHolds(
      p: Params, s: int, rnd: Randomness, table: set<Opcode>, prog: Program, inputs: map<Id, Buf>,
      known: map<Id, Noisy>)
    requires Conforming(table) && AllSampled(p, rnd) && AllRelated(HoldsKnown(p, s), inputs, known)
    requires forall j :: 0 <= j < |prog.insts| ==> prog.insts[j].opcode in TOY_TABLE
    ensures AllRelated(HoldsKnown(p, s), Eval(EffectiveAll(table, ToyFamily(p, s, rnd)), prog, inputs, |prog.insts|),
      Eval(Always(NoisyKernel(p)), prog, known, |prog.insts|))
  {
    hide ToyKernel; hide NoisyKernel; hide HoldsKnown; hide Drawn; hide Follows; hide AllRelated; hide Effective;
    hide Conforming;
    forall j | 0 <= j < |prog.insts|
      ensures Follows(HoldsKnown(p, s), EffectiveAll(table, ToyFamily(p, s, rnd))(prog.insts[j].resultId),
        NoisyKernel(p), prog.insts[j].opcode)
    {
      var id := prog.insts[j].resultId;
      forall i ensures Drawn(p, SamplesOf(rnd, id)(i)) { assert Drawn(p, rnd(id, i)); }
      ConformingFollows(p, s, SamplesOf(rnd, id), table, prog.insts[j].opcode);
    }
    EvalFollows(HoldsKnown(p, s), EffectiveAll(table, ToyFamily(p, s, rnd)), NoisyKernel(p), prog, inputs, known,
      |prog.insts|);
  }
}
