/** The reference backend's kernels over single ciphertexts and slot vectors. */
module ToyKernels {
  import opened Fhn
  import opened Slots
  import opened ToyFhe
  import opened Decomposition

  /** What a buffer holds: one ciphertext (`loaded` unless nothing was ever written), a vector, or the outcome
      of a kernel that failed. */
  datatype Buf = Bad | Single(loaded: bool, ct: Ciphertext) | Vec(slots: seq<Ciphertext>)

  /** The opcodes of the backend's table. */
  const TOY_TABLE: set<Opcode> :=
    {ADD_CC, ADD_CS, SUB_CC, NEGATE, MULT_CC, MULT_CS, RELINEARIZE, RESCALE, ROTATE, HMULT, HROT_ADD}

  /** The randomness of one instruction, slot by slot. */
  type Samples = nat -> Sample

  /** A slot-wise operation on two vectors of one size, or on two single ciphertexts; nothing mixed. */
  function Pairwise(f: (nat, Ciphertext, Ciphertext) -> Ciphertext, a: Buf, b: Buf): Buf {
    if a.Vec? && b.Vec? && a.slots != [] && |a.slots| == |b.slots| then
      Vec(seq(|a.slots|, i requires 0 <= i < |a.slots| => f(i, a.slots[i], b.slots[i])))
    else if a.Single? && b.Single? then Single(true, f(0, a.ct, b.ct))
    else Bad
  }

  function RotateBuf(a: Buf, d: int): Buf {
    if a.Vec? && a.slots != [] then Vec(Rotate(a.slots, d)) else Bad
  }

  /** Rotate and add in one pass. */
  function HrotAdd(p: Params, a: Buf, b: Buf, d: int): Buf {
    if a.Vec? && b.Vec? && a.slots != [] && |a.slots| == |b.slots| then
      Vec(seq(|a.slots|, i requires 0 <= i < |a.slots| =>
        Add(p, a.slots[(i + NormRot(d, |a.slots|)) % |a.slots|], b.slots[i])))
    else Bad
  }

  function Passthrough(a: Buf): Buf {
    if a.Vec? || (a.Single? && a.loaded) then a else Bad
  }

  /** A vector is not an operand of the single-ciphertext kernels; `SingleOp` says what they do with one. */
  function OnSingle(f: Ciphertext -> Ciphertext, a: Buf): Buf {
    if a.Single? then Single(true, f(a.ct)) else Bad
  }

  function Sums(p: Params, a: Buf, b: Buf): Buf {
    Pairwise((i: nat, x: Ciphertext, y: Ciphertext) => Add(p, x, y), a, b)
  }

  function Products(p: Params, s: int, r: Samples, a: Buf, b: Buf): Buf {
    Pairwise((i: nat, x: Ciphertext, y: Ciphertext) => Multiply(p, s, x, y, r(i)), a, b)
  }

  function Difference(p: Params, a: Buf, b: Buf): Buf {
    if a.Single? && b.Single? then Single(true, Add(p, a.ct, Negate(b.ct))) else Bad
  }

  /** Kernels that read one operand. */
  function UnaryKernel(p: Params, op: Opcode, a: Buf, param: int, scalar: int): Option<Buf> {
    match op
    case ADD_CS => Some(OnSingle(x => AddPlain(p, x, scalar), a))
    case MULT_CS => Some(OnSingle(x => MultiplyPlain(p, x, scalar), a))
    case NEGATE => Some(OnSingle(x => Negate(x), a))
    case RELINEARIZE => Some(Passthrough(a))
    case RESCALE => Some(Passthrough(a))
    case ROTATE => Some(RotateBuf(a, param))
    case _ => None
  }

  function BinaryKernel(p: Params, s: int, r: Samples, op: Opcode, a: Buf, b: Buf, param: int): Buf {
    match op
    case ADD_CC => Sums(p, a, b)
    case SUB_CC => Difference(p, a, b)
    case MULT_CC => Products(p, s, r, a, b)
    case HMULT => Products(p, s, r, a, b)
    case HROT_ADD => HrotAdd(p, a, b, param)
    case _ => Bad
  }

  /** The backend's kernels, with the randomness an instruction draws made explicit. A missing operand fails. */
  function ToyKernel(p: Params, s: int, r: Samples): Kernel<Buf> {
    (op: Opcode, args: seq<Option<Buf>>, param: int, scalar: int) =>
      if |args| != 4 || args[0].None? then Bad
      else if UnaryKernel(p, op, args[0].value, param, scalar).Some? then
        UnaryKernel(p, op, args[0].value, param, scalar).value
      else if args[1].None? then Bad
      else BinaryKernel(p, s, r, op, args[0].value, args[1].value, param)
  }

  lemma {:induction false} ProductsPass(p: Params, s: int, r: Samples, a: Buf, b: Buf)
    ensures Passthrough(Products(p, s, r, a, b)) == Products(p, s, r, a, b)
  {
    hide Multiply;
  }

  lemma {:induction false} HrotAddComposes(p: Params, a: Buf, b: Buf, d: int)
    ensures HrotAdd(p, a, b, d) == Sums(p, RotateBuf(a, d), b)
  {
    hide Add; hide NormRot;
    if a.Vec? && b.Vec? && a.slots != [] && |a.slots| == |b.slots| {
      assert |Rotate(a.slots, d)| == |a.slots|;
      assert HrotAdd(p, a, b, d).slots == Sums(p, RotateBuf(a, d), b).slots;
    }
  }

  /** The backend's fused kernels are the compositions the executor would run in their place. */
  lemma {:induction false} ToyFusedAreCompositions(p: Params, s: int, r: Samples)
    ensures FusedAreCompositions(TOY_TABLE, ToyKernel(p, s, r))
  {
    var k := ToyKernel(p, s, r);
    forall op, args: seq<Option<Buf>>, param, scalar |
      op in FUSED && op in TOY_TABLE && |args| == 4 && Decomposed(TOY_TABLE - {op}, k, op, args, param, scalar).Some?
      ensures Decomposed(TOY_TABLE - {op}, k, op, args, param, scalar).value == k(op, args, param, scalar)
    {
      ToyComposes(p, s, r, op, args, param, scalar);
    }
  }

  lemma {:induction false} ToyComposes(
      p: Params, s: int, r: Samples, op: Opcode, args: seq<Option<Buf>>, param: int, scalar: int)
    requires op == HMULT || op == HROT_ADD
    requires |args| == 4 && Decomposed(TOY_TABLE - {op}, ToyKernel(p, s, r), op, args, param, scalar).Some?
    ensures Decomposed(TOY_TABLE - {op}, ToyKernel(p, s, r), op, args, param, scalar).value ==
      ToyKernel(p, s, r)(op, args, param, scalar)
  {
    hide HrotAdd; hide RotateBuf; hide Sums; hide Products; hide Passthrough;
    if args[0].Some? && args[1].Some? {
      HrotAddComposes(p, args[0].value, args[1].value, param);
      ProductsPass(p, s, r, args[0].value, args[1].value);
    }
    BadPasses(p);
  }

  lemma BadPasses(p: Params)
    ensures Passthrough(Bad) == Bad && forall b :: Sums(p, Bad, b) == Bad
  {
  }

  // ---- The kernels as they run: they write a result buffer that may be an operand ---------------

  datatype BufKind = Empty | CiphertextKind | CiphertextVec

  class FhnBuffer {
    var kind: BufKind
    var ct: Ciphertext
    var ctVec: seq<Ciphertext>

    constructor ()
      ensures kind == Empty && ctVec == []
    {
      kind, ct, ctVec := Empty, Ciphertext(0, 0, 0, Integer), [];
    }

    function Contents(): Buf
      reads this
    {
      match kind
      case CiphertextVec => Vec(ctVec)
      case CiphertextKind => Single(true, ct)
      case Empty => Single(false, ct)
    }
  }

  /** Slot by slot into a local vector first, so the result may alias either operand. */
  method VecBinary(result: FhnBuffer, a: FhnBuffer, b: FhnBuffer, f: (nat, Ciphertext, Ciphertext) -> Ciphertext)
    returns (rc: int)
    requires a.kind == CiphertextVec && b.kind == CiphertextVec
    modifies result
    ensures rc == 0 <==> old(a.ctVec) != [] && |old(a.ctVec)| == |old(b.ctVec)|
    ensures rc == 0 ==> result.kind == CiphertextVec && |result.ctVec| == |old(a.ctVec)|
    ensures rc == 0 ==> forall i :: 0 <= i < |result.ctVec| ==>
      result.ctVec[i] == f(i, old(a.ctVec)[i], old(b.ctVec)[i])
    ensures rc == 0 <==> Pairwise(f, old(a.Contents()), old(b.Contents())) != Bad
    ensures rc == 0 ==> result.Contents() == Pairwise(f, old(a.Contents()), old(b.Contents()))
    ensures rc != 0 ==> result.Contents() == old(result.Contents())
  {
    if a.ctVec == [] || |a.ctVec| != |b.ctVec| { return -1; }
    var out := [];
    for i := 0 to |a.ctVec|
      invariant |out| == i && forall j :: 0 <= j < i ==> out[j] == f(j, a.ctVec[j], b.ctVec[j])
    {
      out := out + [f(i, a.ctVec[i], b.ctVec[i])];
    }
    result.ctVec, result.kind := out, CiphertextVec;
    return 0;
  }

  /** Addition and multiplication: vectors with vectors, single ciphertexts with single ciphertexts. */
  method BinaryOp(result: FhnBuffer, a: FhnBuffer?, b: FhnBuffer?, f: (nat, Ciphertext, Ciphertext) -> Ciphertext)
    returns (rc: int)
    modifies result
    ensures rc == 0 <==> (a != null && b != null && old(a.kind == CiphertextVec) == old(b.kind == CiphertextVec) &&
      (old(a.kind) == CiphertextVec ==> old(a.ctVec) != [] && |old(a.ctVec)| == |old(b.ctVec)|))
    ensures rc == 0 <==> a != null && b != null && Pairwise(f, old(a.Contents()), old(b.Contents())) != Bad
    ensures rc == 0 ==> result.Contents() == Pairwise(f, old(a.Contents()), old(b.Contents()))
    ensures rc != 0 ==> result.Contents() == old(result.Contents())
  {
    if a == null || b == null { return -1; }
    if a.kind == CiphertextVec || b.kind == CiphertextVec {
      if a.kind != CiphertextVec || b.kind != CiphertextVec { return -1; }
      rc := VecBinary(result, a, b, f);
      return;
    }
    result.ct := f(0, a.ct, b.ct);
    result.kind := CiphertextKind;
    return 0;
  }

  /** The kernels of one ciphertext do not look at the kind: they compute on the ciphertext the buffer held last,
      and leave the result a single one. */
  method SingleOp(result: FhnBuffer, a: FhnBuffer, f: Ciphertext -> Ciphertext) returns (rc: int)
    modifies result
    ensures rc == 0 && result.kind == CiphertextKind && result.ct == f(old(a.ct)) && result.ctVec == old(result.ctVec)
    ensures old(a.kind) != CiphertextVec ==> result.Contents() == OnSingle(f, old(a.Contents()))
  {
    result.ct, result.kind := f(a.ct), CiphertextKind;
    return 0;
  }

  /** Subtraction negates a copy of the second operand, then adds; it does not look at the kinds either. */
  method SubtractOp(p: Params, result: FhnBuffer, a: FhnBuffer, b: FhnBuffer) returns (rc: int)
    modifies result
    ensures rc == 0 && result.kind == CiphertextKind && result.ctVec == old(result.ctVec)
    ensures result.ct == Add(p, old(a.ct), Negate(old(b.ct)))
    ensures old(a.kind) != CiphertextVec && old(b.kind) != CiphertextVec ==>
      result.Contents() == Difference(p, old(a.Contents()), old(b.Contents()))
  {
    var negated := b.ct;
    negated := negated.(c0 := -negated.c0, c1 := -negated.c1);
    result.ct, result.kind := Add(p, a.ct, negated), CiphertextKind;
    return 0;
  }

  lemma RotatedSlots<T>(v: seq<T>, d: int)
    requires v != []
    ensures |Rotate(v, d)| == |v|
    ensures forall i :: 0 <= i < |v| ==> Rotate(v, d)[i] == v[(i + d) % |v|]
  {
    hide *;
    if |Rotate(v, d)| != |v| { RotateAt(v, d, 0); }
    forall i | 0 <= i < |v|
      ensures Rotate(v, d)[i] == v[(i + d) % |v|]
    {
      RotateAt(v, d, i);
    }
  }

  method RotateOp(result: FhnBuffer, src: FhnBuffer?, d: int) returns (rc: int)
    modifies result
    ensures rc == 0 <==> src != null && old(src.kind) == CiphertextVec && old(src.ctVec) != []
    ensures rc == 0 ==> result.kind == CiphertextVec && |result.ctVec| == |old(src.ctVec)|
    ensures rc == 0 ==> forall i :: 0 <= i < |result.ctVec| ==>
      result.ctVec[i] == old(src.ctVec)[(i + d) % |result.ctVec|]
    ensures rc == 0 <==> src != null && RotateBuf(old(src.Contents()), d) != Bad
    ensures rc == 0 ==> result.Contents() == RotateBuf(old(src.Contents()), d)
    ensures rc != 0 ==> result.Contents() == old(result.Contents())
  {
    hide NormRot;
    if src == null || src.kind != CiphertextVec || src.ctVec == [] { return -1; }
    var n := |src.ctVec|;
    var shift := NormRot(d, n);
    var out := [];
    for i := 0 to n
      invariant |out| == i && forall j :: 0 <= j < i ==> out[j] == src.ctVec[(j + shift) % n]
    {
      out := out + [src.ctVec[(i + shift) % n]];
    }
    assert out == Rotate(src.ctVec, d);
    RotatedSlots(src.ctVec, d);
    result.ctVec, result.kind := out, CiphertextVec;
    return 0;
  }

  method HrotAddOp(p: Params, result: FhnBuffer, a: FhnBuffer?, b: FhnBuffer?, d: int) returns (rc: int)
    modifies result
    ensures rc == 0 <==> a != null && b != null && HrotAdd(p, old(a.Contents()), old(b.Contents()), d) != Bad
    ensures rc == 0 ==> result.Contents() == HrotAdd(p, old(a.Contents()), old(b.Contents()), d)
    ensures rc != 0 ==> result.Contents() == old(result.Contents())
  {
    hide Add; hide NormRot;
    if a == null || b == null || a.kind != CiphertextVec || b.kind != CiphertextVec { return -1; }
    if a.ctVec == [] || |a.ctVec| != |b.ctVec| { return -1; }
    var n := |a.ctVec|;
    var shift := NormRot(d, n);
    var out := [];
    for i := 0 to n
      invariant |out| == i && forall j :: 0 <= j < i ==> out[j] == Add(p, a.ctVec[(j + shift) % n], b.ctVec[j])
    {
      out := out + [Add(p, a.ctVec[(i + shift) % n], b.ctVec[i])];
    }
    assert Vec(out) == HrotAdd(p, a.Contents(), b.Contents(), d);
    result.ctVec, result.kind := out, CiphertextVec;
    return 0;
  }

  method PassthroughOp(result: FhnBuffer, src: FhnBuffer?) returns (rc: int)
    modifies result
    ensures rc == 0 <==> src != null && old(src.kind) != Empty
    ensures rc == 0 <==> src != null && Passthrough(old(src.Contents())) != Bad
    ensures rc == 0 ==> result.Contents() == Passthrough(old(src.Contents()))
    ensures rc != 0 ==> result.Contents() == old(result.Contents())
  {
    if src == null || (src.kind != CiphertextKind && src.kind != CiphertextVec) { return -1; }
    if result != src {
      result.kind, result.ct, result.ctVec := src.kind, src.ct, src.ctVec;
    }
    return 0;
  }
}
