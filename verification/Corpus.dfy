/** The plaintext oracle, the shape builder, and what the shapes built from them compute. */
module Corpus {
  import opened Fhn
  import opened Slots

  type Vector = seq<int>

  /** The bitwise opcodes on machine words, which the model leaves to the caller. */
  type Bitwise = (Opcode, int, int) -> int

  function Zip(f: (int, int) -> int, a: Vector, b: Vector): (r: Vector)
    requires |a| == |b|
  {
    seq(|a|, i requires 0 <= i < |a| => f(a[i], b[i]))
  }

  function Each(f: int -> int, a: Vector): (r: Vector) {
    seq(|a|, i requires 0 <= i < |a| => f(a[i]))
  }

  /** What two slots combine to; None for an opcode the oracle has no binary rule for. */
  function BinaryRule(op: Opcode, bits: Bitwise): Option<(int, int) -> int> {
    match op
    case ADD_CC => Some((x, y) => x + y)
    case SUB_CC => Some((x, y) => x - y)
    case MULT_CC => Some((x, y) => x * y)
    case EQ => Some((x, y) => if x == y then 1 else 0)
    case LT => Some((x, y) => if x < y then 1 else 0)
    case LE => Some((x, y) => if x <= y then 1 else 0)
    case AND => Some((x, y) => bits(AND, x, y))
    case OR => Some((x, y) => bits(OR, x, y))
    case XOR => Some((x, y) => bits(XOR, x, y))
    case _ => None
  }

  function UnaryRule(op: Opcode, scalar: int): Option<int -> int> {
    match op
    case ADD_CS => Some(x => x + scalar)
    case MULT_CS => Some(x => x * scalar)
    case SUB_SC => Some(x => scalar - x)
    case NEGATE => Some(x => -x)
    case _ => None
  }

  /** The comparisons are truth values that agree with each other, and a constant less a slot is its negation and the
      constant. */
  lemma ComparisonsAgree(x: int, y: int, c: int, bits: Bitwise)
    ensures var eq, lt, le := BinaryRule(EQ, bits), BinaryRule(LT, bits), BinaryRule(LE, bits);
      && eq.Some? && lt.Some? && le.Some?
      && eq.value(x, y) + lt.value(x, y) + lt.value(y, x) == 1 && eq.value(x, y) >= 0 && lt.value(x, y) >= 0
      && (eq.value(x, y) == 1 <==> x == y) && (lt.value(x, y) == 1 <==> x < y)
      && le.value(x, y) == eq.value(x, y) + lt.value(x, y)
    ensures var sub, neg, add := UnaryRule(SUB_SC, c), UnaryRule(NEGATE, c), UnaryRule(ADD_CS, c);
      sub.Some? && neg.Some? && add.Some? && sub.value(x) == add.value(neg.value(x))
  {
  }

  /** The slots an instruction leaves; None when an operand is missing, sizes differ, or the opcode is not
      modelled by the oracle. An empty vector cannot be rotated. */
  function OracleValue(inst: Instruction, vals: map<Id, Vector>, bits: Bitwise): Option<Vector> {
    if inst.operands[0] !in vals then None
    else
      var a := vals[inst.operands[0]];
      if BinaryRule(inst.opcode, bits).Some? then
        if inst.operands[1] !in vals || |vals[inst.operands[1]]| != |a| then None
        else Some(Zip(BinaryRule(inst.opcode, bits).value, a, vals[inst.operands[1]]))
      else if UnaryRule(inst.opcode, inst.scalar).Some? then
        Some(Each(UnaryRule(inst.opcode, inst.scalar).value, a))
      else if inst.opcode == ROTATE && a != [] then Some(Rotate(a, inst.param))
      else None
  }

  /** Running instructions one after the other. */
  function OracleRun(insts: seq<Instruction>, vals: map<Id, Vector>, bits: Bitwise): Option<map<Id, Vector>> {
    if insts == [] then Some(vals)
    else
      match OracleValue(insts[0], vals, bits)
      case None => None
      case Some(out) => OracleRun(insts[1..], vals[insts[0].resultId := out], bits)
  }

  lemma {:induction false} OracleRunAppend(
      first: seq<Instruction>, second: seq<Instruction>, vals: map<Id, Vector>, bits: Bitwise)
    ensures OracleRun(first + second, vals, bits) ==
      match OracleRun(first, vals, bits)
      case None => None
      case Some(after) => OracleRun(second, after, bits)
  {
    if first == [] {
      assert first + second == second;
    } else {
      assert (first + second)[1..] == first[1..] + second;
      if OracleValue(first[0], vals, bits).Some? {
        OracleRunAppend(first[1..], second, vals[first[0].resultId := OracleValue(first[0], vals, bits).value], bits);
      }
    }
  }

  method ZipSlots(f: (int, int) -> int, a: Vector, b: Vector) returns (out: Vector)
    requires |a| == |b|
    ensures out == Zip(f, a, b)
  {
    out := [];
    for i := 0 to |a|
      invariant |out| == i && forall j :: 0 <= j < i ==> out[j] == f(a[j], b[j])
    {
      out := out + [f(a[i], b[i])];
    }
  }

  method EachSlot(f: int -> int, a: Vector) returns (out: Vector)
    ensures out == Each(f, a)
  {
    out := [];
    for i := 0 to |a|
      invariant |out| == i && forall j :: 0 <= j < i ==> out[j] == f(a[j])
    {
      out := out + [f(a[i])];
    }
  }

  method RotateSlots(a: Vector, d: int) returns (out: Vector)
    requires a != []
    ensures out == Rotate(a, d)
  {
    var shift := NormRot(d, |a|);
    out := [];
    for i := 0 to |a|
      invariant |out| == i && forall j :: 0 <= j < i ==> out[j] == a[(j + shift) % |a|]
    {
      out := out + [a[(i + shift) % |a|]];
    }
  }

  /** The oracle: all values after the program, or nothing if some instruction cannot be evaluated. */
  method Evaluate(p: Program, inputs: map<Id, Vector>, bits: Bitwise) returns (r: Option<map<Id, Vector>>)
    ensures r == OracleRun(p.insts, inputs, bits)
  {
    var vals: map<Id, Vector> := inputs;
    for i := 0 to |p.insts|
      invariant OracleRun(p.insts, inputs, bits) == OracleRun(p.insts[i..], vals, bits)
    {
      hide Zip; hide Each; hide Rotate; hide BinaryRule; hide UnaryRule;
      var inst := p.insts[i];
      assert p.insts[i..][1..] == p.insts[i + 1..];
      if inst.operands[0] !in vals { return None; }
      var a := vals[inst.operands[0]];
      var binary, unary := BinaryRule(inst.opcode, bits), UnaryRule(inst.opcode, inst.scalar);
      var out;
      if binary.Some? {
        if inst.operands[1] !in vals || |vals[inst.operands[1]]| != |a| { return None; }
        out := ZipSlots(binary.value, a, vals[inst.operands[1]]);
      } else if unary.Some? {
        out := EachSlot(unary.value, a);
      } else if inst.opcode == ROTATE && a != [] {
        out := RotateSlots(a, inst.param);
      } else {
        return None;
      }
      vals := vals[inst.resultId := out];
    }
    return Some(vals);
  }

  // ---- Building programs -----------------------------------------------------------------------

  function Binary(op: Opcode, id: Id, a: Id, b: Id): Instruction { Instruction(op, id, [a, b, 0, 0], 0, 0) }
  function Scalar(op: Opcode, id: Id, a: Id, scalar: int): Instruction { Instruction(op, id, [a, 0, 0, 0], 0, scalar) }
  function Rotation(id: Id, a: Id, dist: int): Instruction { Instruction(ROTATE, id, [a, 0, 0, 0], dist, 0) }

  /** The halving reduction from stride k: the instructions, and the id of the result. */
  function ReduceInsts(s: Id, next: Id, k: nat): seq<Instruction>
    decreases k
  {
    if k == 0 then []
    else [Rotation(next, s, k), Binary(ADD_CC, next + 1, s, next)] + ReduceInsts(next + 1, next + 2, k / 2)
  }

  lemma ReduceUnrolls(s: Id, next: Id, k: nat, v: Vector)
    requires k > 0 && v != []
    ensures |AddRot(v, k)| == |v| && Reduced(v, k) == Reduced(AddRot(v, k), k / 2)
    ensures ReduceId(s, next, k) == ReduceId(next + 1, next + 2, k / 2)
    ensures ReduceInsts(s, next, k) ==
      [Rotation(next, s, k)] + ([Binary(ADD_CC, next + 1, s, next)] + ReduceInsts(next + 1, next + 2, k / 2))
  {
    hide AddRot;
    SameLength(v, k);
  }

  lemma NothingToReduce(s: Id, next: Id)
    ensures ReduceInsts(s, next, 0) == [] && ReduceId(s, next, 0) == s
  {
  }

  function ReduceId(s: Id, next: Id, k: nat): Id
    decreases k
  {
    if k == 0 then s else ReduceId(next + 1, next + 2, k / 2)
  }

  /** The scalar of diagonal d. */
  function Coefficient(d: nat, seed: nat): int {
    (d * 3 + seed) % 7 - 3
  }

  /** The diagonals d, d + 1, ..., n - 1 added to an accumulator: the instructions, and the id of the result. */
  function DiagonalInsts(x: Id, acc: Id, next: Id, d: nat, n: nat, seed: nat): seq<Instruction>
    decreases n - d
  {
    if d >= n then []
    else if d == 0 then
      [Scalar(MULT_CS, next, x, Coefficient(0, seed))] + DiagonalInsts(x, next, next + 1, 1, n, seed)
    else
      [Rotation(next, x, d), Scalar(MULT_CS, next + 1, next, Coefficient(d, seed)),
       Binary(ADD_CC, next + 2, acc, next + 1)]
      + DiagonalInsts(x, next + 2, next + 3, d + 1, n, seed)
  }

  function DiagonalId(acc: Id, next: Id, d: nat, n: nat): Id
    decreases n - d
  {
    if d >= n then acc
    else if d == 0 then DiagonalId(next, next + 1, 1, n)
    else DiagonalId(next + 2, next + 3, d + 1, n)
  }

  /** Allocates ids in order; every id is defined once. */
  class ShapeBuilder {
    var nextId: Id
    var insts: seq<Instruction>
    var inputIds: seq<Id>
    var inputs: map<Id, Vector>

    constructor ()
      ensures nextId == 1 && insts == [] && inputIds == [] && inputs == map[]
    {
      nextId, insts, inputIds, inputs := 1, [], [], map[];
    }

    method Input(v: Vector) returns (id: Id)
      modifies this
      ensures id == old(nextId) && nextId == id + 1 && insts == old(insts)
      ensures inputIds == old(inputIds) + [id] && inputs == old(inputs)[id := v]
    {
      id := nextId;
      nextId, inputIds, inputs := nextId + 1, inputIds + [id], inputs[id := v];
    }

    method CC(op: Opcode, a: Id, b: Id) returns (id: Id)
      modifies `nextId, `insts
      ensures id == old(nextId) && nextId == id + 1 && insts == old(insts) + [Binary(op, id, a, b)]
    {
      id := nextId;
      nextId, insts := nextId + 1, insts + [Binary(op, id, a, b)];
    }

    method CS(op: Opcode, a: Id, scalar: int) returns (id: Id)
      modifies `nextId, `insts
      ensures id == old(nextId) && nextId == id + 1 && insts == old(insts) + [Scalar(op, id, a, scalar)]
    {
      id := nextId;
      nextId, insts := nextId + 1, insts + [Scalar(op, id, a, scalar)];
    }

    method Rot(a: Id, dist: int) returns (id: Id)
      modifies `nextId, `insts
      ensures id == old(nextId) && nextId == id + 1 && insts == old(insts) + [Rotation(id, a, dist)]
    {
      id := nextId;
      nextId, insts := nextId + 1, insts + [Rotation(id, a, dist)];
    }

    /** Rotate and accumulate, halving the distance. */
    method ReduceTree(x: Id, n: nat) returns (s: Id)
      modifies `nextId, `insts
      ensures insts == old(insts) + ReduceInsts(x, old(nextId), n / 2)
      ensures s == ReduceId(x, old(nextId), n / 2)
    {
      hide *;
      s := x;
      var k: nat := n / 2;
      while k >= 1
        invariant insts + ReduceInsts(s, nextId, k) == old(insts) + ReduceInsts(x, old(nextId), n / 2)
        invariant ReduceId(s, nextId, k) == ReduceId(x, old(nextId), n / 2)
        decreases k
      {
        ghost var before, rest := insts, ReduceInsts(s, nextId, k);
        ReduceUnrolls(s, nextId, k, [0]);
        var r := Rot(s, k);
        s := CC(ADD_CC, s, r);
        k := k / 2;
        assert insts + ReduceInsts(s, nextId, k) == before + rest;
      }
      NothingToReduce(s, nextId);
      assert insts + [] == insts;
    }

    /** One rotation and scalar product per diagonal, accumulated. */
    method MatvecOnce(x: Id, n: nat, seed: nat) returns (acc: Id)
      modifies `nextId, `insts
      ensures insts == old(insts) + DiagonalInsts(x, 0, old(nextId), 0, n, seed)
      ensures acc == DiagonalId(0, old(nextId), 0, n)
    {
      hide DiagonalInsts; hide DiagonalId; hide Coefficient;
      acc := 0;
      for d := 0 to n
        invariant insts + DiagonalInsts(x, acc, nextId, d, n, seed) ==
          old(insts) + DiagonalInsts(x, 0, old(nextId), 0, n, seed)
        invariant DiagonalId(acc, nextId, d, n) == DiagonalId(0, old(nextId), 0, n)
        invariant d == 0 ==> acc == 0
      {
        if d == 0 { DiagonalBegins(x, nextId, n, seed); } else { DiagonalUnrolls(x, acc, nextId, d, n, seed); }
        ghost var before, rest := insts, DiagonalInsts(x, acc, nextId, d, n, seed);
        var r := x;
        if d != 0 { r := Rot(x, d); }
        var m := CS(MULT_CS, r, Coefficient(d, seed));
        if d == 0 { acc := m; } else { acc := CC(ADD_CC, acc, m); }
        assert insts + DiagonalInsts(x, acc, nextId, d + 1, n, seed) == before + rest;
      }
      DiagonalEnd(x, acc, nextId, n, seed);
      assert insts + [] == insts;
    }
  }

  // ---- What the shapes compute -----------------------------------------------------------------

  /** `after` knows every id below `next` as `before` does. */
  ghost predicate Keeps(before: map<Id, Vector>, after: map<Id, Vector>, next: Id) {
    forall x :: x in before && x < next ==> x in after && after[x] == before[x]
  }

  lemma {:induction false} RotateThenAdd(v: Vector, k: nat)
    requires v != []
    ensures |Rotate(v, k)| == |v| && |AddRot(v, k)| == |v|
    ensures forall bits :: Zip(BinaryRule(ADD_CC, bits).value, v, Rotate(v, k)) == AddRot(v, k)
  {
  }

  lemma {:induction false} RunFirst(
      inst: Instruction, rest: seq<Instruction>, vals: map<Id, Vector>, bits: Bitwise)
    requires OracleValue(inst, vals, bits).Some?
    ensures OracleRun([inst] + rest, vals, bits) ==
      OracleRun(rest, vals[inst.resultId := OracleValue(inst, vals, bits).value], bits)
  {
    hide OracleValue;
    assert ([inst] + rest)[1..] == rest;
  }

  lemma {:induction false} RotationValue(id: Id, s: Id, k: nat, vals: map<Id, Vector>, bits: Bitwise)
    requires s in vals && vals[s] != []
    ensures OracleValue(Rotation(id, s, k), vals, bits) == Some(Rotate(vals[s], k))
  {
    hide Rotate;
  }

  lemma {:induction false} SumValue(id: Id, a: Id, b: Id, k: nat, vals: map<Id, Vector>, bits: Bitwise)
    requires a in vals && b in vals && vals[a] != [] && vals[b] == Rotate(vals[a], k)
    ensures OracleValue(Binary(ADD_CC, id, a, b), vals, bits) == Some(AddRot(vals[a], k))
  {
    RotateThenAdd(vals[a], k);
    hide Rotate; hide AddRot; hide Zip;
  }

  /** Evaluated by the oracle, the instructions of the reduction compute the reduction. */
  lemma {:induction false} ReduceEvaluates(
      s: Id, next: Id, k: nat, v: Vector, vals: map<Id, Vector>, bits: Bitwise)
    requires v != [] && s in vals && vals[s] == v && s < next
    ensures var after := OracleRun(ReduceInsts(s, next, k), vals, bits);
      && after.Some? && Keeps(vals, after.value, next)
      && ReduceId(s, next, k) in after.value && after.value[ReduceId(s, next, k)] == Reduced(v, k)
    decreases k
  {
    hide *;
    if k == 0 {
      ReduceEnds(s, next, v);
      RunNothing(vals, bits);
      KeepsItself(vals, next);
    } else {
      SameLength(v, k);
      ReduceUnrolls(s, next, k, v);
      var rotate, add := Rotation(next, s, k), Binary(ADD_CC, next + 1, s, next);
      ReduceResults(next, s, k);
      var rest := ReduceInsts(next + 1, next + 2, k / 2);
      RotationValue(next, s, k, vals, bits);
      RunFirst(rotate, [add] + rest, vals, bits);
      var one := vals[next := Rotate(v, k)];
      SumValue(next + 1, s, next, k, one, bits);
      RunFirst(add, rest, one, bits);
      var two := one[next + 1 := AddRot(v, k)];
      ReduceEvaluates(next + 1, next + 2, k / 2, AddRot(v, k), two, bits);
      KeepsFrom(vals, two, OracleRun(rest, two, bits).value, next);
    }
  }

  lemma SameLength(v: Vector, k: nat)
    requires v != []
    ensures |Rotate(v, k)| == |v| && |AddRot(v, k)| == |v|
  {
  }

  lemma ReduceEnds(s: Id, next: Id, v: Vector)
    requires v != []
    ensures ReduceInsts(s, next, 0) == [] && ReduceId(s, next, 0) == s && Reduced(v, 0) == v
  {
  }

  lemma ReduceResults(next: Id, s: Id, k: nat)
    ensures Rotation(next, s, k).resultId == next && Binary(ADD_CC, next + 1, s, next).resultId == next + 1
  {
  }

  lemma KeepsItself(vals: map<Id, Vector>, next: Id)
    ensures Keeps(vals, vals, next)
  {
  }

  lemma KeepsFrom(vals: map<Id, Vector>, two: map<Id, Vector>, after: map<Id, Vector>, next: Id)
    requires Keeps(two, after, next + 2)
    requires forall x :: x in vals && x < next ==> x in two && two[x] == vals[x]
    ensures Keeps(vals, after, next)
  {
  }

  lemma RunNothing(vals: map<Id, Vector>, bits: Bitwise)
    ensures OracleRun([], vals, bits) == Some(vals)
  {
  }

  /** For every power of two n, the oracle finds the sum of all slots in every slot of the reduction's result. */
  lemma {:induction false} ReduceTreeSums(
      x: Id, next: Id, v: Vector, vals: map<Id, Vector>, bits: Bitwise, i: nat)
    requires PowerOfTwo(|v|) && x in vals && vals[x] == v && x < next && i < |v|
    ensures var after := OracleRun(ReduceInsts(x, next, |v| / 2), vals, bits);
      && after.Some? && ReduceId(x, next, |v| / 2) in after.value
      && var out := after.value[ReduceId(x, next, |v| / 2)]; |out| == |v| && out[i] == Total(v)
  {
    hide OracleRun; hide Reduced;
    ReduceEvaluates(x, next, |v| / 2, v, vals, bits);
    ReductionSumsAll(v, i);
  }

  /** The first `count` diagonals of the product, at slot i. */
  function DiagonalSum(v: Vector, i: nat, count: nat, seed: nat): int
    requires v != []
  {
    if count == 0 then 0
    else DiagonalSum(v, i, count - 1, seed) + v[(i + count - 1) % |v|] * Coefficient(count - 1, seed)
  }

  ghost predicate HoldsDiagonals(v: Vector, w: Vector, count: nat, seed: nat)
    requires v != []
  {
    |w| == |v| && forall i :: 0 <= i < |v| ==> w[i] == DiagonalSum(v, i, count, seed)
  }

  /** One scaled diagonal. */
  function Diagonal(v: Vector, d: nat, seed: nat): Vector
    requires v != []
  {
    Each(UnaryRule(MULT_CS, Coefficient(d, seed)).value, Rotate(v, d))
  }

  lemma {:induction false} DiagonalAt(v: Vector, d: nat, seed: nat, i: nat)
    requires i < |v|
    ensures |Diagonal(v, d, seed)| == |v| && Diagonal(v, d, seed)[i] == v[(i + d) % |v|] * Coefficient(d, seed)
  {
    RotateAt(v, d, i);
  }

  lemma {:induction false} AddDiagonal(v: Vector, w: Vector, d: nat, seed: nat, bits: Bitwise)
    requires v != [] && HoldsDiagonals(v, w, d, seed)
    ensures |Diagonal(v, d, seed)| == |w|
    ensures HoldsDiagonals(v, Zip(BinaryRule(ADD_CC, bits).value, w, Diagonal(v, d, seed)), d + 1, seed)
  {
    hide Diagonal;
    DiagonalAt(v, d, seed, 0);
    forall i | 0 <= i < |v|
      ensures w[i] + Diagonal(v, d, seed)[i] == DiagonalSum(v, i, d + 1, seed)
    {
      DiagonalAt(v, d, seed, i);
    }
  }

  lemma {:induction false} FirstDiagonal(v: Vector, seed: nat)
    requires v != []
    ensures HoldsDiagonals(v, Each(UnaryRule(MULT_CS, Coefficient(0, seed)).value, v), 1, seed)
  {
    forall i | 0 <= i < |v| ensures v[i] * Coefficient(0, seed) == DiagonalSum(v, i, 1, seed) {
      assert DiagonalSum(v, i, 0, seed) == 0;
      InRing(i, |v|);
    }
  }

  lemma {:induction false} ScaledValue(op: Id, a: Id, scalar: int, vals: map<Id, Vector>, bits: Bitwise)
    requires a in vals
    ensures OracleValue(Scalar(MULT_CS, op, a, scalar), vals, bits) ==
      Some(Each(UnaryRule(MULT_CS, scalar).value, vals[a]))
  {
    hide Each;
  }

  lemma {:induction false} AddedValue(id: Id, a: Id, b: Id, vals: map<Id, Vector>, bits: Bitwise)
    requires a in vals && b in vals && |vals[a]| == |vals[b]|
    ensures OracleValue(Binary(ADD_CC, id, a, b), vals, bits) ==
      Some(Zip(BinaryRule(ADD_CC, bits).value, vals[a], vals[b]))
  {
    hide Zip;
  }

  lemma DiagonalUnrolls(x: Id, acc: Id, next: Id, d: nat, n: nat, seed: nat)
    requires 0 < d < n
    ensures DiagonalInsts(x, acc, next, d, n, seed) ==
      [Rotation(next, x, d)] + ([Scalar(MULT_CS, next + 1, next, Coefficient(d, seed))] +
        ([Binary(ADD_CC, next + 2, acc, next + 1)] + DiagonalInsts(x, next + 2, next + 3, d + 1, n, seed)))
    ensures DiagonalId(acc, next, d, n) == DiagonalId(next + 2, next + 3, d + 1, n)
  {
    hide Coefficient;
  }

  lemma DiagonalBegins(x: Id, next: Id, n: nat, seed: nat)
    requires n > 0
    ensures DiagonalInsts(x, 0, next, 0, n, seed) ==
      [Scalar(MULT_CS, next, x, Coefficient(0, seed))] + DiagonalInsts(x, next, next + 1, 1, n, seed)
    ensures DiagonalId(0, next, 0, n) == DiagonalId(next, next + 1, 1, n)
  {
    hide Coefficient;
  }

  /** From diagonal d on, d > 0. */
  lemma {:induction false} DiagonalsEvaluate(
      x: Id, acc: Id, next: Id, d: nat, n: nat, seed: nat, v: Vector, vals: map<Id, Vector>, bits: Bitwise)
    requires 0 < d <= n && v != [] && x in vals && vals[x] == v && acc in vals && x < next && acc < next
    requires HoldsDiagonals(v, vals[acc], d, seed)
    ensures var after := OracleRun(DiagonalInsts(x, acc, next, d, n, seed), vals, bits);
      && after.Some? && DiagonalId(acc, next, d, n) in after.value
      && HoldsDiagonals(v, after.value[DiagonalId(acc, next, d, n)], n, seed)
    decreases n - d
  {
    hide *;
    DiagonalEnd(x, acc, next, n, seed);
    if d == n {
      RunNothing(vals, bits);
    } else {
      DiagonalUnrolls(x, acc, next, d, n, seed);
      var rotate, scale := Rotation(next, x, d), Scalar(MULT_CS, next + 1, next, Coefficient(d, seed));
      var add := Binary(ADD_CC, next + 2, acc, next + 1);
      Results(next, x, d, acc, Coefficient(d, seed));
      var rest := DiagonalInsts(x, next + 2, next + 3, d + 1, n, seed);
      RotationValue(next, x, d, vals, bits);
      RunFirst(rotate, [scale] + ([add] + rest), vals, bits);
      var one := vals[next := Rotate(v, d)];
      ScaledValue(next + 1, next, Coefficient(d, seed), one, bits);
      DiagonalIs(v, d, seed);
      RunFirst(scale, [add] + rest, one, bits);
      var two := one[next + 1 := Diagonal(v, d, seed)];
      AddDiagonal(v, vals[acc], d, seed, bits);
      AddedValue(next + 2, acc, next + 1, two, bits);
      RunFirst(add, rest, two, bits);
      var three := two[next + 2 := OracleValue(add, two, bits).value];
      DiagonalsEvaluate(x, next + 2, next + 3, d + 1, n, seed, v, three, bits);
    }
  }

  lemma Results(id: Id, x: Id, d: nat, acc: Id, scalar: int)
    ensures Rotation(id, x, d).resultId == id
    ensures Scalar(MULT_CS, id + 1, id, scalar).resultId == id + 1
    ensures Binary(ADD_CC, id + 2, acc, id + 1).resultId == id + 2
  {
  }

  lemma DiagonalIs(v: Vector, d: nat, seed: nat)
    requires v != []
    ensures Some(Diagonal(v, d, seed)) == Some(Each(UnaryRule(MULT_CS, Coefficient(d, seed)).value, Rotate(v, d)))
  {
  }

  lemma DiagonalEnd(x: Id, acc: Id, next: Id, n: nat, seed: nat)
    ensures DiagonalInsts(x, acc, next, n, n, seed) == [] && DiagonalId(acc, next, n, n) == acc
  {
  }

  /** The diagonal product: slot i of the result is the sum over all diagonals d < n of coefficient d times
      slot i + d of the input. */
  lemma {:induction false} MatvecOnceComputes(
      x: Id, next: Id, n: nat, seed: nat, v: Vector, vals: map<Id, Vector>, bits: Bitwise)
    requires n > 0 && v != [] && x in vals && vals[x] == v && x < next
    ensures var after := OracleRun(DiagonalInsts(x, 0, next, 0, n, seed), vals, bits);
      && after.Some? && DiagonalId(0, next, 0, n) in after.value
      && HoldsDiagonals(v, after.value[DiagonalId(0, next, 0, n)], n, seed)
  {
    hide *;
    DiagonalBegins(x, next, n, seed);
    var scale := Scalar(MULT_CS, next, x, Coefficient(0, seed));
    ScaledValue(next, x, Coefficient(0, seed), vals, bits);
    RunFirst(scale, DiagonalInsts(x, next, next + 1, 1, n, seed), vals, bits);
    FirstDiagonal(v, seed);
    ScalarResult(next, x, Coefficient(0, seed));
    var one := vals[next := OracleValue(scale, vals, bits).value];
    DiagonalsEvaluate(x, next, next + 1, 1, n, seed, v, one, bits);
  }

  lemma ScalarResult(id: Id, x: Id, scalar: int)
    ensures Scalar(MULT_CS, id, x, scalar).resultId == id
  {
  }
}
