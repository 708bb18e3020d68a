/** What the opcodes mean on slots, and that decomposing a fused opcode keeps its meaning whatever the backend. */
module Meaning {
  import opened Fhn
  import opened Slots
  import opened Decomposition
  import opened Simulation
  import opened Graph

  /** The value of a slot. */
  datatype Gauss = Gauss(re: int, im: int)

  function Plus(x: Gauss, y: Gauss): Gauss { Gauss(x.re + y.re, x.im + y.im) }
  function Times(x: Gauss, y: Gauss): Gauss { Gauss(x.re * y.re - x.im * y.im, x.re * y.im + x.im * y.re) }
  function Conjugate(x: Gauss): Gauss { Gauss(x.re, -x.im) }
  function ScaledBy(x: Gauss, c: int): Gauss { Gauss(x.re * c, x.im * c) }

  /** What a ciphertext stands for: its slots, its degree (1 when fresh or relinearized, the sum for a tensor
      product) and how many scale factors it carries. */
  datatype Cipher = Cipher(slots: seq<Gauss>, degree: nat, scale: nat)

  function SlotWise(f: (Gauss, Gauss) -> Gauss, a: seq<Gauss>, b: seq<Gauss>): (r: seq<Gauss>)
    requires |a| == |b|
  {
    seq(|a|, i requires 0 <= i < |a| => f(a[i], b[i]))
  }

  function EachSlot(f: Gauss -> Gauss, a: seq<Gauss>): (r: seq<Gauss>)
    ensures |r| == |a|
  {
    seq(|a|, i requires 0 <= i < |a| => f(a[i]))
  }

  /** Added when they agree in size, degree and scale. */
  function Added(a: Cipher, b: Cipher): Option<Cipher> {
    if |a.slots| == |b.slots| && a.degree == b.degree && a.scale == b.scale then
      Some(a.(slots := SlotWise(Plus, a.slots, b.slots)))
    else None
  }

  /** Multiplied, with the degree and the scale the product is left with. */
  function Multiplied(a: Cipher, b: Cipher, relinearized: bool, rescaled: bool): Option<Cipher> {
    if |a.slots| == |b.slots| && (rescaled ==> a.scale + b.scale > 0) then
      Some(Cipher(SlotWise(Times, a.slots, b.slots), if relinearized then 1 else a.degree + b.degree,
        a.scale + b.scale - if rescaled then 1 else 0))
    else None
  }

  function Rotated(a: Cipher, d: int): Option<Cipher> {
    if a.slots == [] then None else Some(a.(slots := Rotate(a.slots, d)))
  }

  /** What an opcode means under a table: a fused product is relinearized and rescaled by a kernel of its own, or
      where the kernel for it is registered. None where there is no meaning. */
  function Meant(table: set<Opcode>, op: Opcode, a: Cipher, b: Option<Cipher>, param: int, scalar: int): Option<Cipher>
  {
    match op
    case ADD_CC => if b.Some? then Added(a, b.value) else None
    case SUB_CC => if b.Some? then Added(a, b.value.(slots := EachSlot(x => ScaledBy(x, -1), b.value.slots))) else None
    case MULT_CC => if b.Some? then Multiplied(a, b.value, false, false) else None
    case RELINEARIZE => Some(a.(degree := 1))
    case RESCALE => if a.scale > 0 then Some(a.(scale := a.scale - 1)) else None
    case ROTATE => Rotated(a, param)
    case CONJUGATE => Some(a.(slots := EachSlot(Conjugate, a.slots)))
    case MULT_CS => Some(a.(slots := EachSlot(x => ScaledBy(x, scalar), a.slots)))
    case HMULT =>
      if b.Some? then
        Multiplied(a, b.value, HMULT in table || RELINEARIZE in table, HMULT in table || RESCALE in table)
      else None
    case HROT => Rotated(a, param)
    case HROT_ADD =>
      if b.Some? && Rotated(a, param).Some? then Added(Rotated(a, param).value, b.value) else None
    case HCONJ_ADD =>
      if b.Some? then Added(a.(slots := EachSlot(Conjugate, a.slots)), b.value) else None
    case MAD =>
      if b.Some? then Added(a.(slots := EachSlot(x => ScaledBy(x, scalar), a.slots)), b.value) else None
    case _ => None
  }

  /** The meanings as a kernel: no meaning without the meaning of the first operand. */
  function MeantKernel(table: set<Opcode>): Kernel<Option<Cipher>> {
    (op: Opcode, args: seq<Option<Option<Cipher>>>, param: int, scalar: int) =>
      if |args| == 4 && args[0].Some? && args[0].value.Some? then
        Meant(table, op, args[0].value.value, if args[1].Some? then args[1].value else None, param, scalar)
      else None
  }

  /** A backend's value stands for what is meant, where something is. */
  ghost function Stands<V(!new)>(read: V -> Cipher): (V, Option<Cipher>) -> bool {
    (v: V, meant: Option<Cipher>) => meant.Some? ==> read(v) == meant.value
  }

  lemma StandsMeans<V(!new)>(read: V -> Cipher, v: V, meant: Option<Cipher>)
    ensures Stands(read)(v, meant) <==> (meant.Some? ==> read(v) == meant.value)
  {
  }

  lemma MeantIs(table: set<Opcode>, op: Opcode, args: seq<Option<Option<Cipher>>>, param: int, scalar: int)
    requires |args| == 4
    ensures MeantKernel(table)(op, args, param, scalar) ==
      if args[0].Some? && args[0].value.Some? then
        Meant(table, op, args[0].value.value, if args[1].Some? then args[1].value else None, param, scalar)
      else None
  {
    hide Meant;
  }

  /** Every registered kernel means what it says. */
  ghost predicate Honest<V(!new)>(table: set<Opcode>, k: Kernel<V>, read: V -> Cipher) {
    forall op :: op in table ==> Follows(Stands(read), k, MeantKernel(table), op)
  }

  /** One registered kernel on operands that stand for their meanings. */
  lemma HonestStep<V(!new)>(
      table: set<Opcode>, k: Kernel<V>, read: V -> Cipher, op: Opcode, args: seq<Option<V>>,
      meant: seq<Option<Option<Cipher>>>, param: int, scalar: int)
    requires Honest(table, k, read) && op in table && Matches(Stands(read), args, meant)
    ensures Stands(read)(k(op, args, param, scalar), MeantKernel(table)(op, meant, param, scalar))
  {
    hide Matches; hide MeantKernel; hide Stands;
    assert Follows(Stands(read), k, MeantKernel(table), op);
  }

  lemma MatchesFour<V(!new)>(read: V -> Cipher, args: seq<Option<V>>, meant: seq<Option<Option<Cipher>>>)
    requires Matches(Stands(read), args, meant)
    ensures |args| == |meant| == 4
  {
    hide Stands;
  }

  lemma MatchesUnary<V(!new)>(read: V -> Cipher, v: V, meant: Option<Cipher>)
    ensures Stands(read)(v, meant) ==> Matches(Stands(read), Unary(Some(v)), Unary(Some(meant)))
  {
  }

  lemma MatchesBinary<V(!new)>(
      read: V -> Cipher, args: seq<Option<V>>, meant: seq<Option<Option<Cipher>>>, v: V, w: Option<Cipher>)
    requires Matches(Stands(read), args, meant)
    ensures Matches(Stands(read), Unary(args[0]), Unary(meant[0]))
    ensures Matches(Stands(read), Binary(args[0], args[1]), Binary(meant[0], meant[1]))
    ensures Stands(read)(v, w) ==> Matches(Stands(read), Binary(Some(v), args[1]), Binary(Some(w), meant[1]))
  {
    hide Stands;
  }

  /** A decomposed product: multiplied, then relinearized and rescaled where those kernels are registered. */
  lemma {:induction false} ProductMeans<V(!new)>(
      table: set<Opcode>, k: Kernel<V>, read: V -> Cipher, args: seq<Option<V>>, meant: seq<Option<Option<Cipher>>>,
      param: int, scalar: int)
    requires Honest(table, k, read) && Matches(Stands(read), args, meant) && HMULT !in table
    requires Decomposed(table, k, HMULT, args, param, scalar).Some?
    ensures Stands(read)(Decomposed(table, k, HMULT, args, param, scalar).value,
      MeantKernel(table)(HMULT, meant, param, scalar))
  {
    hide Honest; hide Matches;
    MatchesFour(read, args, meant);
    var product := k(MULT_CC, Binary(args[0], args[1]), param, scalar);
    var w := MeantKernel(table)(MULT_CC, Binary(meant[0], meant[1]), param, scalar);
    MatchesBinary(read, args, meant, product, w);
    HonestStep(table, k, read, MULT_CC, Binary(args[0], args[1]), Binary(meant[0], meant[1]), param, scalar);
    MatchesUnary(read, product, w);
    if RELINEARIZE in table {
      HonestStep(table, k, read, RELINEARIZE, Unary(Some(product)), Unary(Some(w)), param, scalar);
      product, w := k(RELINEARIZE, Unary(Some(product)), param, scalar),
        MeantKernel(table)(RELINEARIZE, Unary(Some(w)), param, scalar);
      MatchesUnary(read, product, w);
    }
    if RESCALE in table {
      HonestStep(table, k, read, RESCALE, Unary(Some(product)), Unary(Some(w)), param, scalar);
      product, w := k(RESCALE, Unary(Some(product)), param, scalar),
        MeantKernel(table)(RESCALE, Unary(Some(w)), param, scalar);
    }
    if MeantKernel(table)(HMULT, meant, param, scalar).Some? { ProductMeant(table, meant, param, scalar); }
    StandsMeans(read, product, w);
    StandsMeans(read, product, MeantKernel(table)(HMULT, meant, param, scalar));
  }

  /** On meanings: a product is its tensor product, relinearized and rescaled. */
  lemma ProductMeant(table: set<Opcode>, args: seq<Option<Option<Cipher>>>, param: int, scalar: int)
    requires |args| == 4 && HMULT !in table && MeantKernel(table)(HMULT, args, param, scalar).Some?
    ensures var k := MeantKernel(table);
      var tensor := k(MULT_CC, Binary(args[0], args[1]), param, scalar);
      var linear := if RELINEARIZE in table then k(RELINEARIZE, Unary(Some(tensor)), param, scalar) else tensor;
      k(HMULT, args, param, scalar) ==
        if RESCALE in table then k(RESCALE, Unary(Some(linear)), param, scalar) else linear
  {
    hide SlotWise;
    var k := MeantKernel(table);
    var tensor := k(MULT_CC, Binary(args[0], args[1]), param, scalar);
    var linear := if RELINEARIZE in table then k(RELINEARIZE, Unary(Some(tensor)), param, scalar) else tensor;
    MeantIs(table, HMULT, args, param, scalar);
    MeantIs(table, MULT_CC, Binary(args[0], args[1]), param, scalar);
    MeantIs(table, RELINEARIZE, Unary(Some(tensor)), param, scalar);
    MeantIs(table, RESCALE, Unary(Some(linear)), param, scalar);
  }

  /** A decomposed addition of a rotated, conjugated or scaled operand. */
  lemma {:induction false} SumMeans<V(!new)>(
      table: set<Opcode>, k: Kernel<V>, read: V -> Cipher, op: Opcode, args: seq<Option<V>>,
      meant: seq<Option<Option<Cipher>>>, param: int, scalar: int)
    requires Honest(table, k, read) && Matches(Stands(read), args, meant) && op !in table
    requires op == HROT_ADD || op == HCONJ_ADD || op == MAD
    requires Decomposed(table, k, op, args, param, scalar).Some?
    ensures Stands(read)(Decomposed(table, k, op, args, param, scalar).value,
      MeantKernel(table)(op, meant, param, scalar))
  {
    hide Honest; hide Matches; hide SlotWise; hide EachSlot; hide Rotate;
    MatchesFour(read, args, meant);
    var first := match op
      case HROT_ADD => if HROT in table then HROT else ROTATE
      case HCONJ_ADD => CONJUGATE
      case _ => MULT_CS;
    var v := k(first, Unary(args[0]), param, scalar);
    var w := MeantKernel(table)(first, Unary(meant[0]), param, scalar);
    MatchesBinary(read, args, meant, v, w);
    HonestStep(table, k, read, first, Unary(args[0]), Unary(meant[0]), param, scalar);
    HonestStep(table, k, read, ADD_CC, Binary(Some(v), args[1]), Binary(Some(w), meant[1]), param, scalar);
    var sum := k(ADD_CC, Binary(Some(v), args[1]), param, scalar);
    if MeantKernel(table)(op, meant, param, scalar).Some? { SumMeant(table, op, first, meant, param, scalar); }
    StandsMeans(read, sum, MeantKernel(table)(ADD_CC, Binary(Some(w), meant[1]), param, scalar));
    StandsMeans(read, sum, MeantKernel(table)(op, meant, param, scalar));
  }

  lemma SumMeant(
      table: set<Opcode>, op: Opcode, first: Opcode, args: seq<Option<Option<Cipher>>>, param: int, scalar: int)
    requires |args| == 4 && MeantKernel(table)(op, args, param, scalar).Some?
    requires (op == HROT_ADD && (first == HROT || first == ROTATE)) || (op == HCONJ_ADD && first == CONJUGATE)
      || (op == MAD && first == MULT_CS)
    ensures var k := MeantKernel(table);
      k(op, args, param, scalar) ==
        k(ADD_CC, Binary(Some(k(first, Unary(args[0]), param, scalar)), args[1]), param, scalar)
  {
    hide SlotWise; hide Rotate; hide EachSlot;
    var moved := MeantKernel(table)(first, Unary(args[0]), param, scalar);
    MeantIs(table, op, args, param, scalar);
    MeantIs(table, first, Unary(args[0]), param, scalar);
    MeantIs(table, ADD_CC, Binary(Some(moved), args[1]), param, scalar);
  }

  /** Whatever is dispatched, by a kernel of its own or decomposed, stands for what the opcode means. */
  lemma {:induction false} DispatchMeans<V(!new)>(
      table: set<Opcode>, k: Kernel<V>, read: V -> Cipher, op: Opcode, args: seq<Option<V>>,
      meant: seq<Option<Option<Cipher>>>, param: int, scalar: int)
    requires Honest(table, k, read) && Matches(Stands(read), args, meant)
    requires Dispatched(table, k, op, args, param, scalar).Some?
    ensures Stands(read)(Dispatched(table, k, op, args, param, scalar).value,
      MeantKernel(table)(op, meant, param, scalar))
  {
    hide Honest; hide Matches; hide Rotate; hide SlotWise; hide EachSlot;
    MatchesFour(read, args, meant);
    if op in table {
      HonestStep(table, k, read, op, args, meant, param, scalar);
    } else if op == HMULT {
      ProductMeans(table, k, read, args, meant, param, scalar);
    } else if op == HROT {
      MatchesBinary(read, args, meant, k(ROTATE, Unary(args[0]), param, scalar), None);
      HonestStep(table, k, read, ROTATE, Unary(args[0]), Unary(meant[0]), param, scalar);
      MeantIs(table, ROTATE, Unary(meant[0]), param, scalar);
      MeantIs(table, HROT, meant, param, scalar);
    } else {
      SumMeans(table, k, read, op, args, meant, param, scalar);
    }
  }

  /** The table as one kernel follows the meanings, for every opcode it can run. */
  lemma {:induction false} EffectiveMeans<V(!new)>(table: set<Opcode>, k: Kernel<V>, read: V -> Cipher, op: Opcode)
    requires Honest(table, k, read) && Dispatchable(table, op)
    ensures Follows(Stands(read), Effective(table, k), MeantKernel(table), op)
  {
    hide Honest; hide Dispatched; hide Dispatchable; hide Stands; hide Matches;
    forall args, meant, param, scalar | Matches(Stands(read), args, meant)
      ensures Stands(read)(Effective(table, k)(op, args, param, scalar), MeantKernel(table)(op, meant, param, scalar))
    {
      MatchesFour(read, args, meant);
      DispatchedIff(table, k, op, args, param, scalar);
      if Dispatched(table, k, op, args, param, scalar).Some? {
        DispatchMeans(table, k, read, op, args, meant, param, scalar);
      } else {
        NoAddend(table, read, k(op, args, param, scalar), args, meant, param, scalar);
      }
    }
  }

  lemma NoAddend<V(!new)>(
      table: set<Opcode>, read: V -> Cipher, v: V, args: seq<Option<V>>, meant: seq<Option<Option<Cipher>>>,
      param: int, scalar: int)
    requires Matches(Stands(read), args, meant) && args[1].None?
    ensures Stands(read)(v, MeantKernel(table)(MAD, meant, param, scalar))
  {
    assert args[1].Some? <==> meant[1].Some?;
    MeantIs(table, MAD, meant, param, scalar);
    StandsMeans(read, v, MeantKernel(table)(MAD, meant, param, scalar));
  }

  /** Under any table whose kernels are honest, a program computes what its opcodes mean, whichever of them are
      decomposed. */
  lemma {:induction false} ProgramMeans<V(!new)>(
      table: set<Opcode>, ks: Kernels<V>, read: V -> Cipher, p: Program, inputs: map<Id, V>,
      meant: map<Id, Option<Cipher>>)
    requires forall id: Id :: Honest(table, ks(id), read)
    requires forall j :: 0 <= j < |p.insts| ==> Dispatchable(table, p.insts[j].opcode)
    requires AllRelated(Stands(read), inputs, meant)
    ensures AllRelated(Stands(read), Eval(EffectiveAll(table, ks), p, inputs, |p.insts|),
      Eval(Always(MeantKernel(table)), p, meant, |p.insts|))
  {
    hide Honest; hide Dispatchable; hide Stands; hide AllRelated; hide Follows; hide Effective; hide MeantKernel;
    forall j | 0 <= j < |p.insts|
      ensures Follows(Stands(read), EffectiveAll(table, ks)(p.insts[j].resultId), MeantKernel(table), p.insts[j].opcode)
    {
      EffectiveMeans(table, ks(p.insts[j].resultId), read, p.insts[j].opcode);
    }
    EvalFollows(Stands(read), EffectiveAll(table, ks), MeantKernel(table), p, inputs, meant, |p.insts|);
  }

  function Slot(meant: Option<Cipher>, i: nat): Gauss {
    if meant.Some? && i < |meant.value.slots| then meant.value.slots[i] else Gauss(0, 0)
  }

  function Lowered(table: set<Opcode>, op: Operation, a: Cipher, b: Cipher): Option<Cipher> {
    Meant(table, MapOpType(op.kind), a, Some(b), ParamOf(op), 0)
  }

  /** The opcode and parameter an operation is lowered to mean the operation, slot by slot: a left rotation by d brings
      slot i + d to slot i, a right rotation slot i - d. */
  lemma {:induction false} OperationMeans(table: set<Opcode>, op: Operation, a: Cipher, b: Cipher, i: nat)
    requires |a.slots| == |b.slots| && a.degree == b.degree && a.scale == b.scale && a.scale > 0 && i < |a.slots|
    requires op.kind != Assignment && op.kind != Refresh
    ensures Lowered(table, op, a, b).Some? && |Lowered(table, op, a, b).value.slots| == |a.slots|
    ensures op.kind == Add ==> Slot(Lowered(table, op, a, b), i) == Plus(a.slots[i], b.slots[i])
    ensures op.kind == Sub ==>
      Slot(Lowered(table, op, a, b), i) == Gauss(a.slots[i].re - b.slots[i].re, a.slots[i].im - b.slots[i].im)
    ensures op.kind == Multiply ==> Slot(Lowered(table, op, a, b), i) == Times(a.slots[i], b.slots[i])
    ensures op.kind.Conjugate? ==> Slot(Lowered(table, op, a, b), i) == Gauss(a.slots[i].re, -a.slots[i].im)
    ensures op.kind == LeftRotate ==> Slot(Lowered(table, op, a, b), i) == a.slots[(i + op.param) % |a.slots|]
    ensures op.kind == RightRotate ==> Slot(Lowered(table, op, a, b), i) == a.slots[(i - op.param) % |a.slots|]
  {
    hide Rotate;
    RotateAt(a.slots, ParamOf(op), i);
    var r := Lowered(table, op, a, b).value.slots[i];
    if op.kind == LeftRotate || op.kind == RightRotate {
      assert r == a.slots[(i + ParamOf(op)) % |a.slots|];
    } else if op.kind == Add || op.kind == Multiply {
      assert op.kind == Add ==> r == Plus(a.slots[i], b.slots[i]);
    } else if op.kind == Sub {
      assert r == Plus(a.slots[i], ScaledBy(b.slots[i], -1));
    } else {
      assert r == Conjugate(a.slots[i]);
    }
  }
}
