/** The single-slot toy scheme, integer path. Sampled masks and noise are arguments of the functions. */
module ToyFhe {
  import opened Modular

  datatype Encoding = Integer | FixedPoint

  datatype Parameters = Parameters(q: int, t: int, scale: int, noiseBound: int)

  /** A ciphertext; c0 and c1 need not be reduced (negation leaves them negative). */
  datatype Ciphertext = Ciphertext(c0: int, c1: int, scalePower: nat, encoding: Encoding)

  /** What `initialize` accepts. */
  predicate Initializable(p: Parameters) {
    p.q > p.t && p.t != 0 && TruncRem(p.q, Abs(p.t)) == 0 && p.scale > 1
  }

  /** And what keys, masks and noise can be sampled with. */
  predicate Accepted(p: Parameters) {
    p.q > p.t >= 2 && p.q % p.t == 0 && p.scale > 1 && p.noiseBound >= 0
  }

  lemma {:induction false} AcceptedIff(p: Parameters)
    ensures Accepted(p) <==> Initializable(p) && p.t >= 2 && p.noiseBound >= 0
  {
    if p.t >= 2 && p.q > p.t {
      assert p.q == p.t * (p.q / p.t) + p.q % p.t;
    }
  }

  type Params = p: Parameters | Accepted(p) witness Parameters(4, 2, 2, 0)

  /** The defaults of the engine: q = 2^58, t = 2^32. */
  const DEFAULTS: Params := Parameters(0x400_0000_0000_0000, 0x1_0000_0000, 0x1_0000, 8)

  function Delta(p: Params): (d: int)
    ensures d >= 1
  {
    p.q / p.t
  }

  lemma DeltaTimesT(p: Params)
    ensures Delta(p) * p.t == p.q
  {
  }

  /** The randomness of one encryption. */
  datatype Sample = Sample(mask: int, noise: int)

  predicate Drawn(p: Params, r: Sample) {
    0 <= r.mask < p.q && -p.noiseBound <= r.noise <= p.noiseBound
  }

  // ---- The engine's operations -----------------------------------------------------------------

  /** The 128-bit `mulMod`. */
  function MulMod(lhs: int, rhs: int, modulus: int): int
    requires modulus > 0
  {
    Mod(lhs * rhs, modulus)
  }

  function EncodeRaw(p: Params, s: int, value: int, encoding: Encoding, scalePower: nat, r: Sample): Ciphertext {
    Ciphertext(Mod(value - MulMod(r.mask, s, p.q) + r.noise, p.q), r.mask, scalePower, encoding)
  }

  function EncryptInt(p: Params, s: int, value: int, r: Sample): Ciphertext {
    EncodeRaw(p, s, MulMod(Delta(p), Mod(value, p.t), p.q), Integer, 0, r)
  }

  function DecodeRaw(p: Params, s: int, c: Ciphertext): int {
    Mod(c.c0 + MulMod(c.c1, s, p.q), p.q)
  }

  function MultiplyPlainInternal(p: Params, c: Ciphertext, scalar: int, scalePowerIncrease: nat): Ciphertext {
    Ciphertext(MulMod(c.c0, scalar, p.q), MulMod(c.c1, scalar, p.q), c.scalePower + scalePowerIncrease,
      if scalePowerIncrease > 0 || c.encoding == FixedPoint then FixedPoint else Integer)
  }

  /** Raises a ciphertext to a scale power, one multiplication by `scale` at a time. */
  function AlignScale(p: Params, c: Ciphertext, target: nat): Ciphertext
    decreases target - c.scalePower
  {
    if c.scalePower >= target then c else AlignScale(p, MultiplyPlainInternal(p, c, p.scale, 1), target)
  }

  function Add(p: Params, lhs: Ciphertext, rhs: Ciphertext): Ciphertext {
    var target := if lhs.scalePower >= rhs.scalePower then lhs.scalePower else rhs.scalePower;
    var left, right := AlignScale(p, lhs, target), AlignScale(p, rhs, target);
    Ciphertext(Mod(left.c0 + right.c0, p.q), Mod(left.c1 + right.c1, p.q), target,
      if left.encoding == FixedPoint || right.encoding == FixedPoint then FixedPoint else Integer)
  }

  /** Division rounding to nearest, halves away from zero. */
  function RoundDiv(n: int, d: int): int
    requires d > 0
  {
    var quotient, remainder := TruncDiv(n, d), TruncRem(n, d);
    if 2 * remainder >= d then quotient + 1
    else if 2 * remainder <= -d then quotient - 1
    else quotient
  }

  function MultiplyDecoded(
    p: Params, s: int, c: Ciphertext, factor: int, divisor: int, encoding: Encoding, scalePower: nat, r: Sample)
    : Ciphertext
    requires divisor > 0
  {
    var product := CenteredMod(DecodeRaw(p, s, c), p.q) * factor;
    var value := TruncRem(TruncRem(RoundDiv(product, divisor), p.q) + p.q, p.q);
    EncodeRaw(p, s, value, encoding, scalePower, r)
  }

  /** The divisor that brings a product back to one scale level. */
  function Rescale(p: Params, divisor: int, scalePower: nat): (int, nat)
    decreases scalePower
  {
    if scalePower <= 1 then (divisor, scalePower) else Rescale(p, divisor * p.scale, scalePower - 1)
  }

  lemma {:induction false} RescalePositive(p: Params, divisor: int, scalePower: nat)
    requires divisor > 0
    ensures Rescale(p, divisor, scalePower).0 > 0
    decreases scalePower
  {
    if scalePower > 1 {
      RescalePositive(p, divisor * p.scale, scalePower - 1);
    }
  }

  function Multiply(p: Params, s: int, lhs: Ciphertext, rhs: Ciphertext, r: Sample): Ciphertext {
    var factor := CenteredMod(DecodeRaw(p, s, rhs), p.q);
    var encoding := if lhs.encoding == FixedPoint || rhs.encoding == FixedPoint then FixedPoint else Integer;
    var scalePower := lhs.scalePower + rhs.scalePower;
    if encoding == FixedPoint then
      RescalePositive(p, Delta(p), scalePower);
      var (divisor, power) := Rescale(p, Delta(p), scalePower);
      MultiplyDecoded(p, s, lhs, factor, divisor, encoding, power, r)
    else
      MultiplyDecoded(p, s, lhs, factor, Delta(p), encoding, scalePower, r)
  }

  function ScaleFactor(p: Params, scalePower: nat): int {
    if scalePower == 0 then 1 else ScaleFactor(p, scalePower - 1) * p.scale
  }

  /** `addPlain` of an integer. */
  function AddPlain(p: Params, c: Ciphertext, scalar: int): Ciphertext {
    c.(c0 := Mod(c.c0 + MulMod(Delta(p), Mod(scalar * ScaleFactor(p, c.scalePower), p.t), p.q), p.q))
  }

  /** `multiplyPlain` by an integer. */
  function MultiplyPlain(p: Params, c: Ciphertext, scalar: int): Ciphertext {
    MultiplyPlainInternal(p, c, scalar, 0)
  }

  function Negate(c: Ciphertext): Ciphertext {
    c.(c0 := -c.c0, c1 := -c.c1)
  }

  /** Decryption divides by delta rounding to nearest; the decoded value is not negative. */
  function DecryptInt(p: Params, s: int, c: Ciphertext): int {
    CenteredMod(RoundDiv(DecodeRaw(p, s, c), Delta(p)), p.t)
  }

  // ---- What a ciphertext carries ---------------------------------------------------------------

  function Phase(s: int, c: Ciphertext): int {
    c.c0 + c.c1 * s
  }

  /** The invariant of the scheme: c0 + c1*s = delta*m + e modulo q. */
  predicate Carries(p: Params, s: int, c: Ciphertext, m: int, e: int) {
    Congruent(Phase(s, c), Delta(p) * m + e, p.q)
  }

  /** The noise and the message are where decoding can tell them apart. */
  predicate InRange(p: Params, m: int, e: int) {
    2 * Abs(e) < Delta(p) && 2 * Abs(m) < p.t
  }

  lemma {:induction false} EncodeRawPhase(
      p: Params, s: int, value: int, encoding: Encoding, scalePower: nat, r: Sample)
    ensures Congruent(Phase(s, EncodeRaw(p, s, value, encoding, scalePower, r)), value + r.noise, p.q)
  {
    var product := r.mask * s;
    ModIsRemainder(product, p.q);
    ModIsRemainder(value - Mod(product, p.q) + r.noise, p.q);
    var c0 := Mod(value - Mod(product, p.q) + r.noise, p.q);
    CongruentAdd(c0, value - Mod(product, p.q) + r.noise, Mod(product, p.q), product, p.q);
    assert Congruent(c0 + Mod(product, p.q), value - Mod(product, p.q) + r.noise + product, p.q);
    CongruentAdd(product, product, Mod(product, p.q), product, p.q);
    CongruentAdd(c0, value - Mod(product, p.q) + r.noise, product, product, p.q);
    CongruentAdd(value + r.noise, value + r.noise, product - Mod(product, p.q), 0, p.q);
    CongruentTrans(c0 + product, value - Mod(product, p.q) + r.noise + product, value + r.noise, p.q);
  }

  lemma {:induction false} DecodeRawPhase(p: Params, s: int, c: Ciphertext)
    ensures 0 <= DecodeRaw(p, s, c) < p.q && Congruent(DecodeRaw(p, s, c), Phase(s, c), p.q)
  {
    var product := MulMod(c.c1, s, p.q);
    ModIsRemainder(c.c1 * s, p.q);
    ModIsRemainder(c.c0 + product, p.q);
    CongruentAdd(c.c0, c.c0, product, c.c1 * s, p.q);
    CongruentTrans(DecodeRaw(p, s, c), c.c0 + product, Phase(s, c), p.q);
  }

  /** A message and noise in range fit in half the modulus. */
  lemma {:induction false} RangeFits(p: Params, m: int, e: int)
    requires InRange(p, m, e)
    ensures 2 * Abs(Delta(p) * m + e) < p.q
  {
    var d := Delta(p);
    DeltaTimesT(p);
    hide Delta;
    MulMonotone(d, 2 * Abs(m), p.t - 1);
    AbsMul(d, m);
    Doubled(d, Abs(m), p.t);
  }

  lemma Doubled(d: int, x: int, t: int)
    ensures d * (2 * x) == 2 * (d * x) && d * (t - 1) == d * t - d
  {
  }

  lemma MulMonotone(d: int, a: int, b: int)
    requires d >= 0 && a <= b
    ensures d * a <= d * b
  {
  }

  lemma AbsMul(a: int, b: int)
    ensures Abs(a * b) == Abs(a) * Abs(b)
  {
  }

  /** Decoding recovers delta*m + e exactly. */
  lemma {:induction false} CenteredDecode(p: Params, s: int, c: Ciphertext, m: int, e: int)
    requires Carries(p, s, c, m, e) && InRange(p, m, e)
    ensures CenteredMod(DecodeRaw(p, s, c), p.q) == Delta(p) * m + e
  {
    DecodeRawPhase(p, s, c);
    CongruentTrans(DecodeRaw(p, s, c), Phase(s, c), Delta(p) * m + e, p.q);
    RangeFits(p, m, e);
    CenteredIs(DecodeRaw(p, s, c), Delta(p) * m + e, p.q);
  }

  /** Rounded division is within one half of the quotient. */
  lemma {:induction false} RoundDivNearest(n: int, d: int)
    requires d > 0
    ensures 2 * Abs(d * RoundDiv(n, d) - n) <= d
  {
    var quotient, remainder := TruncDiv(n, d), TruncRem(n, d);
    assert n == d * quotient + remainder;
    if n < 0 {
      assert -n == d * (-n / d) + -n % d;
      assert d * quotient == -(d * (-n / d));
    }
    assert -d < remainder < d;
    assert d * (quotient + 1) == d * quotient + d && d * (quotient - 1) == d * quotient - d;
  }

  /** Halves are rounded away from zero. */
  lemma {:induction false} RoundDivHalves(n: int, d: int)
    requires d > 0
    ensures RoundDiv(-n, d) == -RoundDiv(n, d)
    ensures n >= 0 ==> d * RoundDiv(n, d) <= n + d / 2 && 2 * (n - d * RoundDiv(n, d)) < d
  {
    RoundDivNearest(n, d);
    var quotient, remainder := TruncDiv(n, d), TruncRem(n, d);
    assert n == d * quotient + remainder;
    assert d * (quotient + 1) == d * quotient + d && d * (quotient - 1) == d * quotient - d;
    NegatedDivision(n, d);
  }

  lemma NegatedDivision(n: int, d: int)
    requires d > 0
    ensures TruncDiv(-n, d) == -TruncDiv(n, d) && TruncRem(-n, d) == -TruncRem(n, d)
    ensures n >= 0 ==> 0 <= TruncRem(n, d) < d
  {
    if n == 0 { assert 0 / d == 0; }
    assert d * -TruncDiv(n, d) == -(d * TruncDiv(n, d));
  }

  lemma Distribute(d: int, r: int, k: int)
    ensures d * (r - k) == d * r - d * k
  {
  }

  lemma Regroup(d: int, m: int, t: int, k: int)
    ensures d * (m + t * k) == d * m + (d * t) * k
  {
  }

  /** A number less than half the divisor away from a multiple rounds to it. */
  lemma {:induction false} RoundDivExact(n: int, d: int, k: int)
    requires d > 0 && 2 * Abs(n - d * k) < d
    ensures RoundDiv(n, d) == k
  {
    RoundDivNearest(n, d);
    hide RoundDiv;
    var r := RoundDiv(n, d);
    Distribute(d, r, k);
    MulGrows(d, r - k);
  }

  /** Decryption rounds whatever a ciphertext holds to the nearest multiple of delta. */
  lemma {:induction false} DecryptsNear(p: Params, s: int, c: Ciphertext, x: int)
    requires Congruent(Phase(s, c), x, p.q) && 2 * Abs(x) + Delta(p) < p.q
    ensures 2 * Abs(Delta(p) * DecryptInt(p, s, c) - x) <= Delta(p)
  {
    hide *;
    var d, raw := Delta(p), DecodeRaw(p, s, c);
    DecodeRawPhase(p, s, c);
    CongruentTrans(raw, Phase(s, c), x, p.q);
    var k := Quotient(raw, x, p.q);
    DeltaTimesT(p);
    RoundDivNearest(raw, d);
    var y := RoundDiv(raw, d);
    var m := y - p.t * k;
    Distribute(d, y, p.t * k);
    assert d * (p.t * k) == p.q * k;
    AbsIs(d * y - raw); AbsIs(x); AbsIs(d * m - x);
    assert d * m - x == d * y - raw;
    Between(d, m, p.t);
    CongruentBy(y, m, p.t, k);
    CenteredIs(y, m, p.t);
    DecryptIs(p, s, c);
  }

  lemma AbsIs(x: int)
    ensures Abs(x) == if x < 0 then -x else x
  {
  }

  lemma Larger(d: int, x: int, y: int)
    requires d > 0
    ensures x >= y ==> d * x >= d * y
  {
    if x >= y { assert d * (x - y) >= 0; }
  }

  lemma Between(d: int, m: int, t: int)
    requires d > 0 && -(d * t) < 2 * (d * m) < d * t
    ensures -t < 2 * m <= t
  {
    Larger(d, 2 * m, t);
    Larger(d, -t, 2 * m);
  }

  /** While the noise is in range decryption returns exactly the messages in (-t/2, t/2]. */
  lemma {:induction false} DecryptsTo(p: Params, s: int, c: Ciphertext, m: int, e: int)
    requires Carries(p, s, c, m, e) && 2 * Abs(e) < Delta(p)
    ensures DecryptInt(p, s, c) == m <==> -p.t < 2 * m <= p.t
  {
    hide *;
    var d, x := Delta(p), DecodeRaw(p, s, c);
    DecodeRawPhase(p, s, c);
    CarriesMeans(p, s, c, m, e);
    CongruentTrans(x, Phase(s, c), d * m + e, p.q);
    var k := Quotient(x, d * m + e, p.q);
    DeltaTimesT(p);
    Regroup(d, m, p.t, k);
    RoundDivExact(x, d, m + p.t * k);
    CongruentBy(m + p.t * k, m, p.t, k);
    CenteredIs(m + p.t * k, m, p.t);
    DecryptIs(p, s, c);
    assert x - d * (m + p.t * k) == e;
  }

  lemma CarriesMeans(p: Params, s: int, c: Ciphertext, m: int, e: int)
    ensures Carries(p, s, c, m, e) <==> Congruent(Phase(s, c), Delta(p) * m + e, p.q)
    ensures InRange(p, m, e) <==> 2 * Abs(e) < Delta(p) && 2 * Abs(m) < p.t
  {
  }

  lemma DecryptIs(p: Params, s: int, c: Ciphertext)
    ensures DecryptInt(p, s, c) == CenteredMod(RoundDiv(DecodeRaw(p, s, c), Delta(p)), p.t)
  {
  }

  // ---- What each operation does to message and noise -------------------------------------------

  /** Integer-encoded at scale power 0. */
  predicate Plain(c: Ciphertext) {
    c.scalePower == 0 && c.encoding == Integer
  }

  /** delta times a value reduced mod t is delta times the value, mod q. */
  lemma {:induction false} DeltaAbsorbs(p: Params, value: int)
    ensures Congruent(MulMod(Delta(p), Mod(value, p.t), p.q), Delta(p) * value, p.q)
  {
    var d, v := Delta(p), Mod(value, p.t);
    hide Delta; hide Mod;
    ModIsRemainder(value, p.t);
    var k := Quotient(v, value, p.t);
    DeltaTimesT(p);
    Regroup(d, value, p.t, k);
    CongruentBy(d * v, d * value, p.q, k);
    ModIsRemainder(d * v, p.q);
    CongruentTrans(MulMod(d, v, p.q), d * v, d * value, p.q);
  }

  lemma {:induction false} EncryptCarries(p: Params, s: int, value: int, r: Sample)
    ensures Plain(EncryptInt(p, s, value, r)) && Carries(p, s, EncryptInt(p, s, value, r), value, r.noise)
  {
    var encoded := MulMod(Delta(p), Mod(value, p.t), p.q);
    DeltaAbsorbs(p, value);
    EncodeRawPhase(p, s, encoded, Integer, 0, r);
    hide MulMod; hide Delta; hide Congruent; hide Phase;
    Same(r.noise, p.q);
    CongruentAdd(encoded, Delta(p) * value, r.noise, r.noise, p.q);
    CongruentTrans(Phase(s, EncryptInt(p, s, value, r)), encoded + r.noise, Delta(p) * value + r.noise, p.q);
  }

  lemma Same(x: int, q: int)
    requires q > 0
    ensures Congruent(x, x, q)
  {
  }

  lemma {:induction false} AddCarries(
      p: Params, s: int, lhs: Ciphertext, rhs: Ciphertext, m1: int, e1: int, m2: int, e2: int)
    requires Plain(lhs) && Plain(rhs) && Carries(p, s, lhs, m1, e1) && Carries(p, s, rhs, m2, e2)
    ensures Plain(Add(p, lhs, rhs)) && Carries(p, s, Add(p, lhs, rhs), m1 + m2, e1 + e2)
  {
    hide Congruent; hide Mod; hide Delta; hide Add;
    var sum := Add(p, lhs, rhs);
    AddShape(p, lhs, rhs);
    ModIsRemainder(lhs.c0 + rhs.c0, p.q);
    ModIsRemainder(lhs.c1 + rhs.c1, p.q);
    CongruentScale(sum.c1, lhs.c1 + rhs.c1, s, p.q);
    CongruentAdd(sum.c0, lhs.c0 + rhs.c0, sum.c1 * s, (lhs.c1 + rhs.c1) * s, p.q);
    CongruentAdd(Phase(s, lhs), Delta(p) * m1 + e1, Phase(s, rhs), Delta(p) * m2 + e2, p.q);
    Rearrange(lhs.c1, rhs.c1, 1, s);
    CongruentTrans(Phase(s, sum), Phase(s, lhs) + Phase(s, rhs), Delta(p) * m1 + e1 + Delta(p) * m2 + e2, p.q);
    Regroup(Delta(p), m1, 1, m2);
  }

  lemma AddShape(p: Params, lhs: Ciphertext, rhs: Ciphertext)
    requires Plain(lhs) && Plain(rhs)
    ensures Add(p, lhs, rhs) == Ciphertext(Mod(lhs.c0 + rhs.c0, p.q), Mod(lhs.c1 + rhs.c1, p.q), 0, Integer)
  {
    hide Mod;
  }

  /** Multiplying by a constant multiplies message and noise, whatever the scale. */
  lemma {:induction false} PlainInternalCarries(
      p: Params, s: int, c: Ciphertext, m: int, e: int, k: int, increase: nat)
    requires Carries(p, s, c, m, e)
    ensures Carries(p, s, MultiplyPlainInternal(p, c, k, increase), k * m, k * e)
  {
    var product := MultiplyPlainInternal(p, c, k, increase);
    ModIsRemainder(c.c0 * k, p.q);
    ModIsRemainder(c.c1 * k, p.q);
    hide Congruent; hide Mod; hide Delta;
    CongruentScale(product.c1, c.c1 * k, s, p.q);
    CongruentAdd(product.c0, c.c0 * k, product.c1 * s, c.c1 * k * s, p.q);
    CongruentScale(Phase(s, c), Delta(p) * m + e, k, p.q);
    assert c.c0 * k + c.c1 * k * s == Phase(s, c) * k by { Rearrange(c.c0, c.c1, s, k); }
    assert (Delta(p) * m + e) * k == Delta(p) * (k * m) + k * e by { Rearrange2(Delta(p), m, e, k); }
    CongruentTrans(Phase(s, product), Phase(s, c) * k, Delta(p) * (k * m) + k * e, p.q);
  }

  lemma {:induction false} MultiplyPlainCarries(p: Params, s: int, c: Ciphertext, m: int, e: int, k: int)
    requires Plain(c) && Carries(p, s, c, m, e)
    ensures Plain(MultiplyPlain(p, c, k)) && Carries(p, s, MultiplyPlain(p, c, k), k * m, k * e)
  {
    hide Carries; hide MulMod;
    PlainInternalCarries(p, s, c, m, e, k, 0);
  }

  lemma Rearrange(a: int, b: int, s: int, k: int)
    ensures a * k + b * k * s == (a + b * s) * k
  {
  }

  lemma Rearrange2(d: int, m: int, e: int, k: int)
    ensures (d * m + e) * k == d * (k * m) + k * e
  {
  }

  /** An added integer is encoded at the ciphertext's scale. */
  lemma {:induction false} AddPlainCarries(p: Params, s: int, c: Ciphertext, m: int, e: int, k: int)
    requires Carries(p, s, c, m, e)
    ensures Carries(p, s, AddPlain(p, c, k), m + k * ScaleFactor(p, c.scalePower), e)
    ensures AddPlain(p, c, k).scalePower == c.scalePower && AddPlain(p, c, k).encoding == c.encoding
    ensures Plain(c) ==> Plain(AddPlain(p, c, k)) && Carries(p, s, AddPlain(p, c, k), m + k, e)
  {
    var sum, encoded := AddPlain(p, c, k), k * ScaleFactor(p, c.scalePower);
    var scaled := MulMod(Delta(p), Mod(encoded, p.t), p.q);
    assert Plain(c) ==> encoded == k;
    ModIsRemainder(c.c0 + scaled, p.q);
    DeltaAbsorbs(p, encoded);
    hide Congruent; hide Mod; hide Delta; hide MulMod; hide ScaleFactor;
    Same(c.c1 * s, p.q);
    CongruentAdd(sum.c0, c.c0 + scaled, c.c1 * s, c.c1 * s, p.q);
    CongruentAdd(Phase(s, c), Delta(p) * m + e, scaled, Delta(p) * encoded, p.q);
    Regroup(Delta(p), m, 1, encoded);
    CongruentTrans(Phase(s, sum), Phase(s, c) + scaled, Delta(p) * (m + encoded) + e, p.q);
  }

  lemma {:induction false} NegateCarries(p: Params, s: int, c: Ciphertext, m: int, e: int)
    requires Plain(c) && Carries(p, s, c, m, e)
    ensures Plain(Negate(c)) && Carries(p, s, Negate(c), -m, -e)
  {
    hide Congruent; hide Delta;
    CongruentScale(Phase(s, c), Delta(p) * m + e, -1, p.q);
    Rearrange(c.c0, c.c1, s, -1);
    Rearrange2(Delta(p), m, e, -1);
  }

  /** The noise of a product, exactly. */
  function ProductNoise(p: Params, m1: int, e1: int, m2: int, e2: int, r: Sample): int {
    RoundDiv((Delta(p) * m1 + e1) * (Delta(p) * m2 + e2), Delta(p)) - Delta(p) * (m1 * m2) + r.noise
  }

  /** Folding a value into [0, q) with two truncated remainders. */
  lemma {:induction false} FoldsIntoRange(x: int, q: int)
    requires q > 0
    ensures Congruent(TruncRem(TruncRem(x, q) + q, q), x, q)
  {
    hide TruncRem; hide TruncDiv; hide Congruent;
    var r := TruncRem(x, q);
    var v := TruncRem(r + q, q);
    TruncRemCongruent(x, q);
    TruncRemCongruent(r + q, q);
    CongruentBy(r + q, r, q, 1);
    CongruentTrans(v, r + q, r, q);
    CongruentTrans(v, r, x, q);
  }

  lemma {:induction false} TruncRemCongruent(x: int, q: int)
    requires q > 0
    ensures Congruent(TruncRem(x, q), x, q)
  {
    hide TruncDiv; hide Congruent;
    var k := TruncDiv(x, q);
    assert q * -k == -(q * k);
    CongruentBy(TruncRem(x, q), x, q, -k);
  }

  lemma {:induction false} MultiplyCarries(
      p: Params, s: int, lhs: Ciphertext, rhs: Ciphertext, m1: int, e1: int, m2: int, e2: int, r: Sample)
    requires Plain(lhs) && Plain(rhs) && Carries(p, s, lhs, m1, e1) && Carries(p, s, rhs, m2, e2)
    requires InRange(p, m1, e1) && InRange(p, m2, e2)
    ensures Plain(Multiply(p, s, lhs, rhs, r))
    ensures Carries(p, s, Multiply(p, s, lhs, rhs, r), m1 * m2, ProductNoise(p, m1, e1, m2, e2, r))
  {
    hide Congruent; hide DecodeRaw; hide CenteredMod; hide InRange; hide TruncRem; hide RoundDiv; hide EncodeRaw;
    hide Carries; hide Phase; hide Delta; hide Multiply; hide ProductNoise; hide Plain;
    CenteredDecode(p, s, lhs, m1, e1);
    CenteredDecode(p, s, rhs, m2, e2);
    var d := Delta(p);
    var scaled := RoundDiv((d * m1 + e1) * (d * m2 + e2), d);
    var value := TruncRem(TruncRem(scaled, p.q) + p.q, p.q);
    var c := EncodeRaw(p, s, value, Integer, 0, r);
    MultiplyIs(p, s, lhs, rhs, r);
    EncodeRawShape(p, s, value, Integer, 0, r);
    CarriesMeans(p, s, c, m1 * m2, ProductNoise(p, m1, e1, m2, e2, r));
    ProductNoiseIs(p, m1, e1, m2, e2, r);
    FoldsIntoRange(scaled, p.q);
    EncodeRawPhase(p, s, value, Integer, 0, r);
    Same(r.noise, p.q);
    CongruentAdd(value, scaled, r.noise, r.noise, p.q);
    CongruentTrans(Phase(s, c), value + r.noise, scaled + r.noise, p.q);
  }

  lemma ProductNoiseIs(p: Params, m1: int, e1: int, m2: int, e2: int, r: Sample)
    ensures Delta(p) * (m1 * m2) + ProductNoise(p, m1, e1, m2, e2, r) ==
      RoundDiv((Delta(p) * m1 + e1) * (Delta(p) * m2 + e2), Delta(p)) + r.noise
  {
    hide RoundDiv; hide Delta;
  }

  lemma MultiplyIs(p: Params, s: int, lhs: Ciphertext, rhs: Ciphertext, r: Sample)
    requires Plain(lhs) && Plain(rhs)
    ensures var n := CenteredMod(DecodeRaw(p, s, lhs), p.q) * CenteredMod(DecodeRaw(p, s, rhs), p.q);
      var value := TruncRem(TruncRem(RoundDiv(n, Delta(p)), p.q) + p.q, p.q);
      Multiply(p, s, lhs, rhs, r) == EncodeRaw(p, s, value, Integer, 0, r)
  {
    hide DecodeRaw; hide CenteredMod; hide TruncRem; hide RoundDiv; hide EncodeRaw; hide Delta;
  }

  lemma EncodeRawShape(p: Params, s: int, value: int, encoding: Encoding, scalePower: nat, r: Sample)
    ensures EncodeRaw(p, s, value, encoding, scalePower, r).scalePower == scalePower
    ensures EncodeRaw(p, s, value, encoding, scalePower, r).encoding == encoding
    ensures encoding == Integer && scalePower == 0 ==> Plain(EncodeRaw(p, s, value, encoding, scalePower, r))
  {
  }

  // ---- Fixed point -----------------------------------------------------------------------------

  // ---- How large the noise gets ----------------------------------------------------------------

  lemma NonnegativeParts(a: nat, b: nat, d: nat)
    requires d > 0
    ensures a * b >= 0 && (2 * (a * b) + d) / (2 * d) >= 0
  {
  }

  /** Bounds on the operands' noise give a bound on the product's: each message scales the other's noise, and
      the noise product is divided by delta, rounded to nearest. */
  function ProductBound(p: Params, m1: int, bound1: nat, m2: int, bound2: nat): nat {
    NonnegativeParts(Abs(m1), bound2, Delta(p));
    NonnegativeParts(Abs(m2), bound1, Delta(p));
    NonnegativeParts(bound1, bound2, Delta(p));
    Abs(m1) * bound2 + Abs(m2) * bound1 + (2 * (bound1 * bound2) + Delta(p)) / (2 * Delta(p)) + p.noiseBound
  }

  lemma Expand(d: int, m1: int, e1: int, m2: int, e2: int)
    ensures (d * m1 + e1) * (d * m2 + e2) == d * (d * (m1 * m2) + m1 * e2 + m2 * e1) + e1 * e2
  {
    assert (d * m1 + e1) * (d * m2 + e2) == (d * m1) * (d * m2) + (d * m1) * e2 + e1 * (d * m2) + e1 * e2;
    assert (d * m1) * (d * m2) == d * (d * (m1 * m2));
  }

  lemma {:induction false} AbsProductAtMost(a: int, b: int, x: nat, y: nat)
    requires Abs(a) <= x && Abs(b) <= y
    ensures Abs(a * b) <= x * y
  {
    AbsMul(a, b);
    MulMonotone(Abs(a), Abs(b), y);
    MulMonotone(y, Abs(a), x);
  }

  lemma {:induction false} DivAtLeast(x: nat, d: int, y: nat)
    requires d > 0 && d * x <= y
    ensures x <= y / d
  {
    if y / d < x {
      MulMonotone(d, y / d + 1, x);
    }
  }

  lemma {:induction false} HalfAtLeast(x: nat, d: int, y: nat)
    requires d > 0 && 2 * (d * x) <= y
    ensures x <= y / (2 * d)
  {
    assert (2 * d) * x == 2 * (d * x);
    DivAtLeast(x, 2 * d, y);
  }

  /** Rounding a decoded product loses no more than its noise term over delta, and a half. */
  lemma {:induction false} RoundingLoss(n: int, d: int, main: int, extra: int, most: nat)
    requires d > 0 && n == d * main + extra && Abs(extra) <= most
    ensures Abs(RoundDiv(n, d) - main) <= (2 * most + d) / (2 * d)
  {
    RoundDivNearest(n, d);
    hide RoundDiv;
    var rounded := RoundDiv(n, d);
    var rest := rounded - main;
    Distribute(d, rounded, main);
    AbsMul(d, rest);
    assert Abs(d) == d;
    HalfAtLeast(Abs(rest), d, 2 * most + d);
  }

  lemma {:induction false} ProductNoiseBounded(
      p: Params, m1: int, e1: int, bound1: nat, m2: int, e2: int, bound2: nat, r: Sample)
    requires Abs(e1) <= bound1 && Abs(e2) <= bound2 && Abs(r.noise) <= p.noiseBound
    ensures Abs(ProductNoise(p, m1, e1, m2, e2, r)) <= ProductBound(p, m1, bound1, m2, bound2)
  {
    hide Delta; hide RoundDiv;
    var d := Delta(p);
    Expand(d, m1, e1, m2, e2);
    AbsProductAtMost(e1, e2, bound1, bound2);
    RoundingLoss((d * m1 + e1) * (d * m2 + e2), d, d * (m1 * m2) + m1 * e2 + m2 * e1, e1 * e2, bound1 * bound2);
    AbsProductAtMost(m1, e2, Abs(m1), bound2);
    AbsProductAtMost(m2, e1, Abs(m2), bound1);
  }

  // ---- Circuits --------------------------------------------------------------------------------

  /** An integer circuit with the randomness of every encryption and re-encryption in it. */
  datatype Circuit =
    | Input(value: int, sample: Sample)
    | Sum(left: Circuit, right: Circuit)
    | Product(left: Circuit, right: Circuit, sample: Sample)
    | Shifted(arg: Circuit, amount: int)
    | Scaled(arg: Circuit, factor: int)
    | Negated(arg: Circuit)

  /** What the circuit means on integers. */
  function Value(c: Circuit): int {
    match c
    case Input(v, _) => v
    case Sum(l, r) => Value(l) + Value(r)
    case Product(l, r, _) => Value(l) * Value(r)
    case Shifted(a, k) => Value(a) + k
    case Scaled(a, k) => k * Value(a)
    case Negated(a) => -Value(a)
  }

  /** The same circuit on ciphertexts. */
  function Encrypted(p: Params, s: int, c: Circuit): Ciphertext {
    match c
    case Input(v, r) => EncryptInt(p, s, v, r)
    case Sum(l, r) => Add(p, Encrypted(p, s, l), Encrypted(p, s, r))
    case Product(l, r, sample) => Multiply(p, s, Encrypted(p, s, l), Encrypted(p, s, r), sample)
    case Shifted(a, k) => AddPlain(p, Encrypted(p, s, a), k)
    case Scaled(a, k) => MultiplyPlain(p, Encrypted(p, s, a), k)
    case Negated(a) => Negate(Encrypted(p, s, a))
  }

  /** The worst noise, node by node. */
  function Bound(p: Params, c: Circuit): nat {
    match c
    case Input(_, _) => p.noiseBound
    case Sum(l, r) => Bound(p, l) + Bound(p, r)
    case Product(l, r, _) => ProductBound(p, Value(l), Bound(p, l), Value(r), Bound(p, r))
    case Shifted(a, _) => Bound(p, a)
    case Scaled(a, k) => Abs(k) * Bound(p, a)
    case Negated(a) => Bound(p, a)
  }

  /** The worst noise stays below delta/2 and the value inside t/2. */
  predicate Fits(p: Params, c: Circuit) {
    2 * Bound(p, c) < Delta(p) && 2 * Abs(Value(c)) < p.t
  }

  /** The factors of every product fit. */
  predicate FactorsFit(p: Params, c: Circuit) {
    match c
    case Input(_, _) => true
    case Sum(l, r) => FactorsFit(p, l) && FactorsFit(p, r)
    case Product(l, r, _) => Fits(p, l) && Fits(p, r) && FactorsFit(p, l) && FactorsFit(p, r)
    case Shifted(a, _) => FactorsFit(p, a)
    case Scaled(a, _) => FactorsFit(p, a)
    case Negated(a) => FactorsFit(p, a)
  }

  /** Every sample is in the range it is drawn from. */
  predicate AllDrawn(p: Params, c: Circuit) {
    match c
    case Input(_, r) => Drawn(p, r)
    case Sum(l, r) => AllDrawn(p, l) && AllDrawn(p, r)
    case Product(l, r, sample) => AllDrawn(p, l) && AllDrawn(p, r) && Drawn(p, sample)
    case Shifted(a, _) => AllDrawn(p, a)
    case Scaled(a, _) => AllDrawn(p, a)
    case Negated(a) => AllDrawn(p, a)
  }

  /** The ciphertext of a circuit carries its value, with noise within the bound. */
  lemma {:induction false} CircuitCarries(p: Params, s: int, c: Circuit) returns (e: int)
    requires FactorsFit(p, c) && AllDrawn(p, c)
    ensures Plain(Encrypted(p, s, c)) && Carries(p, s, Encrypted(p, s, c), Value(c), e) && Abs(e) <= Bound(p, c)
  {
    hide EncryptInt; hide Add; hide Multiply; hide AddPlain; hide MultiplyPlain; hide Negate; hide Carries; hide Plain;
    hide ProductNoise; hide ProductBound; hide Delta;
    match c {
      case Input(v, r) =>
        EncryptCarries(p, s, v, r);
        e := r.noise;
      case Sum(l, r) =>
        var e1 := CircuitCarries(p, s, l);
        var e2 := CircuitCarries(p, s, r);
        AddCarries(p, s, Encrypted(p, s, l), Encrypted(p, s, r), Value(l), e1, Value(r), e2);
        e := e1 + e2;
      case Product(l, r, sample) =>
        var e1 := CircuitCarries(p, s, l);
        var e2 := CircuitCarries(p, s, r);
        MultiplyCarries(p, s, Encrypted(p, s, l), Encrypted(p, s, r), Value(l), e1, Value(r), e2, sample);
        ProductNoiseBounded(p, Value(l), e1, Bound(p, l), Value(r), e2, Bound(p, r), sample);
        e := ProductNoise(p, Value(l), e1, Value(r), e2, sample);
      case Shifted(a, k) =>
        e := CircuitCarries(p, s, a);
        AddPlainCarries(p, s, Encrypted(p, s, a), Value(a), e, k);
      case Scaled(a, k) =>
        var e1 := CircuitCarries(p, s, a);
        MultiplyPlainCarries(p, s, Encrypted(p, s, a), Value(a), e1, k);
        AbsProductAtMost(k, e1, Abs(k), Bound(p, a));
        e := k * e1;
      case Negated(a) =>
        var e1 := CircuitCarries(p, s, a);
        NegateCarries(p, s, Encrypted(p, s, a), Value(a), e1);
        e := -e1;
    }
  }

  /** Homomorphic correctness: whatever is sampled, a circuit whose worst noise stays in range decrypts to its
      value exactly when the value is a plaintext. */
  lemma {:induction false} CircuitDecrypts(p: Params, s: int, c: Circuit)
    requires FactorsFit(p, c) && AllDrawn(p, c) && 2 * Bound(p, c) < Delta(p)
    ensures DecryptInt(p, s, Encrypted(p, s, c)) == Value(c) <==> -p.t < 2 * Value(c) <= p.t
  {
    hide Encrypted; hide DecryptInt; hide Carries; hide FactorsFit; hide AllDrawn; hide Bound; hide Value; hide Delta;
    var e := CircuitCarries(p, s, c);
    DecryptsTo(p, s, Encrypted(p, s, c), Value(c), e);
  }

  // ---- Machine words ---------------------------------------------------------------------------

  /** Components of ciphertexts stay strictly within q of zero. */
  predicate Bounded(p: Params, c: Ciphertext) {
    Abs(c.c0) < p.q && Abs(c.c1) < p.q
  }

  predicate FitsWord(x: int, bits: nat)
    requires bits == 64 || bits == 128
  {
    var half := if bits == 64 then 0x8000_0000_0000_0000 else 0x8000_0000_0000_0000_0000_0000_0000_0000;
    -half <= x < half
  }

  /** What a node computes in 64-bit words, and its products in 128-bit words. */
  predicate NodeFits(p: Params, s: int, c: Circuit) {
    match c
    case Input(v, r) => FitsWord(Delta(p) * Mod(v, p.t), 128) && EncodingFits(p, s, r)
    case Sum(l, r) =>
      var a, b := Encrypted(p, s, l), Encrypted(p, s, r);
      FitsWord(a.c0 + b.c0, 64) && FitsWord(a.c1 + b.c1, 64)
    case Product(l, r, sample) =>
      var a, b := Encrypted(p, s, l), Encrypted(p, s, r);
      && DecodingFits(p, s, a) && DecodingFits(p, s, b) && EncodingFits(p, s, sample)
      && RoundingFits(p, CenteredMod(DecodeRaw(p, s, a), p.q) * CenteredMod(DecodeRaw(p, s, b), p.q), Delta(p))
    case Shifted(a, k) =>
      FitsWord(Delta(p) * Mod(k * ScaleFactor(p, 0), p.t), 128) &&
      FitsWord(Encrypted(p, s, a).c0 + MulMod(Delta(p), Mod(k * ScaleFactor(p, 0), p.t), p.q), 64)
    case Scaled(a, k) =>
      FitsWord(k, 64) ==> FitsWord(Encrypted(p, s, a).c0 * k, 128) && FitsWord(Encrypted(p, s, a).c1 * k, 128)
    case Negated(a) => FitsWord(-Encrypted(p, s, a).c0, 64) && FitsWord(-Encrypted(p, s, a).c1, 64)
  }

  /** The rounded division of a product, and the reduction of what it yields. */
  predicate RoundingFits(p: Params, product: int, divisor: int)
    requires divisor > 0
  {
    && FitsWord(product, 128) && FitsWord(2 * TruncRem(product, divisor), 128)
    && FitsWord(TruncDiv(product, divisor) + 1, 128) && FitsWord(TruncDiv(product, divisor) - 1, 128)
    && FitsWord(TruncRem(RoundDiv(product, divisor), p.q) + p.q, 128)
  }

  predicate DecryptionFits(p: Params, s: int, c: Ciphertext) {
    DecodingFits(p, s, c) && FitsWord(RoundDiv(DecodeRaw(p, s, c), Delta(p)), 64)
  }

  /** For the least and the largest value an encoding may wrap. */
  predicate EncodingFits(p: Params, s: int, r: Sample) {
    var product := MulMod(r.mask, s, p.q);
    FitsWord(r.mask * s, 128) && FitsWord(-product + r.noise, 64) && FitsWord(p.q - product + r.noise, 64)
  }

  predicate DecodingFits(p: Params, s: int, c: Ciphertext) {
    FitsWord(c.c1 * s, 128) && FitsWord(c.c0 + MulMod(c.c1, s, p.q), 64)
  }

  lemma {:induction false} ModBelow(x: int, q: int)
    requires q > 0
    ensures 0 <= Mod(x, q) < q && Abs(CenteredMod(x, q)) < q
  {
    ModIsRemainder(x, q);
  }

  /** Whatever is sampled, every ciphertext a circuit produces is reduced. */
  lemma {:induction false} CircuitReduced(p: Params, s: int, c: Circuit)
    requires AllDrawn(p, c)
    ensures Plain(Encrypted(p, s, c)) && Bounded(p, Encrypted(p, s, c))
  {
    hide Mod; hide CenteredMod; hide MulMod; hide Delta; hide TruncRem; hide RoundDiv; hide DecodeRaw;
    match c {
      case Input(v, r) =>
        ModBelow(MulMod(Delta(p), Mod(v, p.t), p.q) - MulMod(r.mask, s, p.q) + r.noise, p.q);
      case Sum(l, r) =>
        var a, b := Encrypted(p, s, l), Encrypted(p, s, r);
        CircuitReduced(p, s, l);
        CircuitReduced(p, s, r);
        AddShape(p, a, b);
        ModBelow(a.c0 + b.c0, p.q);
        ModBelow(a.c1 + b.c1, p.q);
      case Product(l, r, sample) =>
        CircuitReduced(p, s, l);
        CircuitReduced(p, s, r);
        ProductReduced(p, s, Encrypted(p, s, l), Encrypted(p, s, r), sample);
      case Shifted(a, k) =>
        CircuitReduced(p, s, a);
        var x := Encrypted(p, s, a);
        ModBelow(x.c0 + MulMod(Delta(p), Mod(k * ScaleFactor(p, x.scalePower), p.t), p.q), p.q);
      case Scaled(a, k) =>
        CircuitReduced(p, s, a);
        ModBelow(Encrypted(p, s, a).c0 * k, p.q);
        ModBelow(Encrypted(p, s, a).c1 * k, p.q);
        MulModIs(p, Encrypted(p, s, a), k);
      case Negated(a) =>
        CircuitReduced(p, s, a);
    }
  }

  lemma MulModIs(p: Params, c: Ciphertext, k: int)
    ensures MulMod(c.c0, k, p.q) == Mod(c.c0 * k, p.q) && MulMod(c.c1, k, p.q) == Mod(c.c1 * k, p.q)
  {
  }

  lemma {:induction false} ProductReduced(p: Params, s: int, a: Ciphertext, b: Ciphertext, r: Sample)
    requires Plain(a) && Plain(b) && Drawn(p, r)
    ensures Plain(Multiply(p, s, a, b, r)) && Bounded(p, Multiply(p, s, a, b, r))
  {
    hide Mod; hide CenteredMod; hide MulMod; hide Delta; hide TruncRem; hide RoundDiv; hide DecodeRaw;
    var n := CenteredMod(DecodeRaw(p, s, a), p.q) * CenteredMod(DecodeRaw(p, s, b), p.q);
    var value := TruncRem(TruncRem(RoundDiv(n, Delta(p)), p.q) + p.q, p.q);
    assert Multiply(p, s, a, b, r) == EncodeRaw(p, s, value, Integer, 0, r);
    ModBelow(value - MulMod(r.mask, s, p.q) + r.noise, p.q);
  }

  lemma {:induction false} DecodingFitsWord(s: int, c: Ciphertext)
    requires 1 <= s < DEFAULTS.t && Bounded(DEFAULTS, c)
    ensures DecodingFits(DEFAULTS, s, c)
  {
    hide Mod;
    ModBelow(c.c1 * s, DEFAULTS.q);
    AbsProductAtMost(c.c1, s, DEFAULTS.q, DEFAULTS.t);
  }

  lemma {:induction false} EncodingFitsWord(s: int, r: Sample)
    requires 1 <= s < DEFAULTS.t && Drawn(DEFAULTS, r)
    ensures EncodingFits(DEFAULTS, s, r)
  {
    hide Mod;
    ModBelow(r.mask * s, DEFAULTS.q);
    AbsProductAtMost(r.mask, s, DEFAULTS.q, DEFAULTS.t);
  }

  lemma DefaultDelta()
    ensures Delta(DEFAULTS) == 0x400_0000
  {
  }

  lemma {:induction false} TruncBelow(n: int, d: int)
    requires d > 0
    ensures Abs(TruncRem(n, d)) < d && Abs(TruncDiv(n, d)) <= Abs(n)
  {
    var a: nat := Abs(n);
    DivBelow(a, d);
    if n < 0 { NegatedFactor(d, a / d); }
  }

  lemma NegatedFactor(a: int, b: int)
    ensures a * -b == -(a * b)
  {
  }

  lemma DivBelow(a: nat, d: int)
    requires d > 0
    ensures 0 <= a / d <= a && 0 <= a - d * (a / d) < d
  {
    assert a == d * (a / d) + a % d;
    MulMonotone(a / d, 1, d);
  }

  lemma {:induction false} RoundingFitsWord(product: int)
    requires Abs(product) < 0x10_0000_0000_0000_0000_0000_0000_0000
    ensures RoundingFits(DEFAULTS, product, Delta(DEFAULTS))
  {
    DefaultDelta();
    hide TruncRem; hide TruncDiv; hide Delta;
    TruncBelow(product, Delta(DEFAULTS));
    TruncBelow(RoundDiv(product, Delta(DEFAULTS)), DEFAULTS.q);
  }

  lemma {:induction false} DecryptionFitsWord(s: int, c: Ciphertext)
    requires 1 <= s < DEFAULTS.t && Bounded(DEFAULTS, c)
    ensures DecryptionFits(DEFAULTS, s, c)
  {
    DecodingFitsWord(s, c);
    DecodeRawPhase(DEFAULTS, s, c);
    DefaultDelta();
    hide TruncRem; hide TruncDiv; hide Delta; hide DecodingFits; hide DecodeRaw; hide Congruent;
    TruncBelow(DecodeRaw(DEFAULTS, s, c), Delta(DEFAULTS));
  }

  /** delta times a plaintext, and its reduction. */
  lemma {:induction false} EncodedFitsWord(v: int)
    ensures FitsWord(Delta(DEFAULTS) * Mod(v, DEFAULTS.t), 128)
  {
    DefaultDelta();
    ModBelow(v, DEFAULTS.t);
    hide Mod; hide Delta;
    AbsProductAtMost(Delta(DEFAULTS), Mod(v, DEFAULTS.t), 0x400_0000, DEFAULTS.t);
  }

  /** With the default parameters nothing a circuit or its decryption computes leaves its machine word: sums stay
      within 64 bits, products, their rounding and their reduction within 128. */
  lemma {:induction false} WordsSuffice(s: int, c: Circuit)
    requires 1 <= s < DEFAULTS.t && AllDrawn(DEFAULTS, c)
    ensures NodeFits(DEFAULTS, s, c) && DecryptionFits(DEFAULTS, s, Encrypted(DEFAULTS, s, c))
  {
    hide Mod; hide CenteredMod; hide Delta; hide Encrypted; hide DecodeRaw; hide EncodingFits; hide DecodingFits;
    hide RoundingFits; hide DecryptionFits;
    CircuitReduced(DEFAULTS, s, c);
    DecryptionFitsWord(s, Encrypted(DEFAULTS, s, c));
    match c {
      case Input(v, r) =>
        EncodedFitsWord(v);
        EncodingFitsWord(s, r);
      case Sum(l, r) =>
        CircuitReduced(DEFAULTS, s, l);
        CircuitReduced(DEFAULTS, s, r);
      case Product(l, r, sample) =>
        CircuitReduced(DEFAULTS, s, l);
        CircuitReduced(DEFAULTS, s, r);
        var a, b := Encrypted(DEFAULTS, s, l), Encrypted(DEFAULTS, s, r);
        DecodingFitsWord(s, a);
        DecodingFitsWord(s, b);
        EncodingFitsWord(s, sample);
        ModBelow(DecodeRaw(DEFAULTS, s, a), DEFAULTS.q);
        ModBelow(DecodeRaw(DEFAULTS, s, b), DEFAULTS.q);
        var x := CenteredMod(DecodeRaw(DEFAULTS, s, a), DEFAULTS.q);
        var y := CenteredMod(DecodeRaw(DEFAULTS, s, b), DEFAULTS.q);
        AbsProductAtMost(x, y, DEFAULTS.q - 1, DEFAULTS.q - 1);
        RoundingFitsWord(x * y);
      case Shifted(a, k) =>
        CircuitReduced(DEFAULTS, s, a);
        EncodedFitsWord(k * ScaleFactor(DEFAULTS, 0));
        ModBelow(Delta(DEFAULTS) * Mod(k * ScaleFactor(DEFAULTS, 0), DEFAULTS.t), DEFAULTS.q);
      case Scaled(a, k) =>
        CircuitReduced(DEFAULTS, s, a);
        if FitsWord(k, 64) {
          AbsProductAtMost(Encrypted(DEFAULTS, s, a).c0, k, DEFAULTS.q, 0x8000_0000_0000_0000);
          AbsProductAtMost(Encrypted(DEFAULTS, s, a).c1, k, DEFAULTS.q, 0x8000_0000_0000_0000);
        }
      case Negated(a) => CircuitReduced(DEFAULTS, s, a);
    }
  }

  lemma {:induction false} ThreeDigitBound(a: int, b: int)
    requires Abs(a) <= 999 && Abs(b) <= 999
    ensures ProductBound(DEFAULTS, a, 8, b, 8) <= 15992
  {
    DefaultDelta();
  }

  lemma {:induction false} ThreeDigitBound2(ab: int, eab: nat, c: int)
    requires Abs(ab) <= 998001 && Abs(c) <= 999 && eab <= 15992
    ensures ProductBound(DEFAULTS, ab, eab, c, 8) <= 23960024
  {
    DefaultDelta();
    AbsProductAtMost(Abs(c), eab, 999, 15992);
  }

  lemma FitsBelow(c: Circuit, bound: nat)
    requires Bound(DEFAULTS, c) <= bound < 0x200_0000 && Abs(Value(c)) < 0x8000_0000
    ensures Fits(DEFAULTS, c) && 2 * Bound(DEFAULTS, c) < Delta(DEFAULTS)
    ensures -DEFAULTS.t < 2 * Value(c) <= DEFAULTS.t
  {
    hide Bound; hide Value;
    DefaultDelta();
  }

  lemma SmallInput(v: int, r: Sample)
    requires Abs(v) <= 999 && Drawn(DEFAULTS, r)
    ensures Fits(DEFAULTS, Input(v, r)) && FactorsFit(DEFAULTS, Input(v, r)) && AllDrawn(DEFAULTS, Input(v, r))
    ensures Bound(DEFAULTS, Input(v, r)) == 8 && Value(Input(v, r)) == v
  {
    DefaultDelta();
  }

  lemma ProductOf(c: Circuit)
    requires c.Product?
    ensures Bound(DEFAULTS, c) ==
      ProductBound(DEFAULTS, Value(c.left), Bound(DEFAULTS, c.left), Value(c.right), Bound(DEFAULTS, c.right))
    ensures Value(c) == Value(c.left) * Value(c.right)
    ensures FactorsFit(DEFAULTS, c) <==> (
      Fits(DEFAULTS, c.left) && Fits(DEFAULTS, c.right) && FactorsFit(DEFAULTS, c.left) && FactorsFit(DEFAULTS, c.right))
    ensures AllDrawn(DEFAULTS, c) <==> (
      AllDrawn(DEFAULTS, c.left) && AllDrawn(DEFAULTS, c.right) && Drawn(DEFAULTS, c.sample))
  {
  }

  /** In particular chained products of three three-digit integers, with the default parameters. */
  lemma {:induction false} ThreeDigitProducts(s: int, a: int, b: int, c: int, ra: Sample, rb: Sample, rc: Sample,
      rab: Sample, rabc: Sample)
    requires Abs(a) <= 999 && Abs(b) <= 999 && Abs(c) <= 999
    requires Drawn(DEFAULTS, ra) && Drawn(DEFAULTS, rb) && Drawn(DEFAULTS, rc)
    requires Drawn(DEFAULTS, rab) && Drawn(DEFAULTS, rabc)
    ensures DecryptInt(DEFAULTS, s,
      Multiply(DEFAULTS, s, Multiply(DEFAULTS, s, EncryptInt(DEFAULTS, s, a, ra), EncryptInt(DEFAULTS, s, b, rb), rab),
        EncryptInt(DEFAULTS, s, c, rc), rabc)) == a * b * c
  {
    hide *;
    var ab := Product(Input(a, ra), Input(b, rb), rab);
    var abc := Product(ab, Input(c, rc), rabc);
    SmallInput(a, ra);
    SmallInput(b, rb);
    SmallInput(c, rc);
    ProductOf(ab);
    ProductOf(abc);
    AbsProductAtMost(a, b, 999, 999);
    AbsProductAtMost(a * b, c, 998001, 999);
    ThreeDigitBound(a, b);
    ThreeDigitBound2(a * b, Bound(DEFAULTS, ab), c);
    FitsBelow(ab, 15992);
    FitsBelow(abc, 23960024);
    CircuitDecrypts(DEFAULTS, s, abc);
    ProductsEncrypted(s, a, b, c, ra, rb, rc, rab, rabc);
  }

  lemma ProductsEncrypted(s: int, a: int, b: int, c: int, ra: Sample, rb: Sample, rc: Sample, rab: Sample,
      rabc: Sample)
    ensures Encrypted(DEFAULTS, s, Product(Product(Input(a, ra), Input(b, rb), rab), Input(c, rc), rabc)) ==
      Multiply(DEFAULTS, s, Multiply(DEFAULTS, s, EncryptInt(DEFAULTS, s, a, ra), EncryptInt(DEFAULTS, s, b, rb), rab),
        EncryptInt(DEFAULTS, s, c, rc), rabc)
  {
    hide Multiply; hide EncryptInt;
    var ab := Product(Input(a, ra), Input(b, rb), rab);
    assert Encrypted(DEFAULTS, s, ab) ==
      Multiply(DEFAULTS, s, Encrypted(DEFAULTS, s, Input(a, ra)), Encrypted(DEFAULTS, s, Input(b, rb)), rab);
  }
}
