/** Fixed-point ciphertexts of the toy scheme: mantissas at a scale level. */
module FixedPoint {
  import opened Modular
  import opened ToyFhe

  /** Raising a ciphertext to a scale power multiplies message and noise by the scale once for each level. */
  lemma {:induction false} AlignScaleCarries(p: Params, s: int, c: Ciphertext, m: int, e: int, target: nat)
    requires Carries(p, s, c, m, e) && c.scalePower <= target
    ensures AlignScale(p, c, target).scalePower == target
    ensures AlignScale(p, c, target).encoding == if c.scalePower < target then FixedPoint else c.encoding
    ensures Carries(p, s, AlignScale(p, c, target), ScaleFactor(p, target - c.scalePower) * m,
      ScaleFactor(p, target - c.scalePower) * e)
    decreases target - c.scalePower
  {
    hide Carries; hide ScaleFactor; hide MulMod;
    ScaleFactorIs(p, target - c.scalePower);
    if c.scalePower < target {
      var up := MultiplyPlainInternal(p, c, p.scale, 1);
      PlainInternalCarries(p, s, c, m, e, p.scale, 1);
      AlignScaleCarries(p, s, up, p.scale * m, p.scale * e, target);
      Associate(ScaleFactor(p, target - up.scalePower), p.scale, m);
      Associate(ScaleFactor(p, target - up.scalePower), p.scale, e);
    }
  }

  lemma ScaleFactorIs(p: Params, k: nat)
    ensures ScaleFactor(p, k) == if k == 0 then 1 else ScaleFactor(p, k - 1) * p.scale
  {
  }

  lemma Associate(a: int, b: int, c: int)
    ensures a * (b * c) == a * b * c
  {
  }

  /** Sums of ciphertexts at any scales: both are brought to the larger scale and added there. */
  lemma {:induction false} ScaledSumCarries(
      p: Params, s: int, lhs: Ciphertext, rhs: Ciphertext, m1: int, e1: int, m2: int, e2: int)
    requires Carries(p, s, lhs, m1, e1) && Carries(p, s, rhs, m2, e2)
    ensures var target := if lhs.scalePower >= rhs.scalePower then lhs.scalePower else rhs.scalePower;
      var f, g := ScaleFactor(p, target - lhs.scalePower), ScaleFactor(p, target - rhs.scalePower);
      Add(p, lhs, rhs).scalePower == target && Carries(p, s, Add(p, lhs, rhs), f * m1 + g * m2, f * e1 + g * e2)
    ensures Add(p, lhs, rhs).encoding == FixedPoint <==>
      lhs.encoding == FixedPoint || rhs.encoding == FixedPoint || lhs.scalePower != rhs.scalePower
  {
    hide Congruent; hide Mod; hide Delta; hide AlignScale; hide ScaleFactor;
    var target := if lhs.scalePower >= rhs.scalePower then lhs.scalePower else rhs.scalePower;
    var f, g := ScaleFactor(p, target - lhs.scalePower), ScaleFactor(p, target - rhs.scalePower);
    AlignScaleCarries(p, s, lhs, m1, e1, target);
    AlignScaleCarries(p, s, rhs, m2, e2, target);
    var left, right, sum := AlignScale(p, lhs, target), AlignScale(p, rhs, target), Add(p, lhs, rhs);
    ModIsRemainder(left.c0 + right.c0, p.q);
    ModIsRemainder(left.c1 + right.c1, p.q);
    CongruentScale(sum.c1, left.c1 + right.c1, s, p.q);
    CongruentAdd(sum.c0, left.c0 + right.c0, sum.c1 * s, (left.c1 + right.c1) * s, p.q);
    CongruentAdd(Phase(s, left), Delta(p) * (f * m1) + f * e1, Phase(s, right), Delta(p) * (g * m2) + g * e2, p.q);
    Rearrange(left.c1, right.c1, 1, s);
    CongruentTrans(Phase(s, sum), Phase(s, left) + Phase(s, right),
      Delta(p) * (f * m1) + f * e1 + Delta(p) * (g * m2) + g * e2, p.q);
    Regroup(Delta(p), f * m1, 1, g * m2);
  }

  /** Rescaling multiplies the divisor by the scale for every level above one. */
  lemma {:induction false} RescaleIs(p: Params, divisor: int, scalePower: nat)
    requires scalePower >= 1
    ensures Rescale(p, divisor, scalePower) == (divisor * ScaleFactor(p, scalePower - 1), 1)
    decreases scalePower
  {
    hide ScaleFactor;
    ScaleFactorIs(p, scalePower - 1);
    if scalePower > 1 {
      RescaleIs(p, divisor * p.scale, scalePower - 1);
      ScaledDivisor(divisor, p.scale, ScaleFactor(p, scalePower - 2));
    }
  }

  lemma ScaledDivisor(d: int, scale: int, f: int)
    ensures d * scale * f == d * (f * scale)
  {
  }

  /** A product of fixed-point ciphertexts is back at one scale level: it carries, to the nearest, the product of what
      its factors carry divided by delta and by the scale for every level above one. */
  lemma {:induction false} FixedProductCarries(
      p: Params, s: int, lhs: Ciphertext, rhs: Ciphertext, m1: int, e1: int, m2: int, e2: int, r: Sample)
    requires Carries(p, s, lhs, m1, e1) && Carries(p, s, rhs, m2, e2)
    requires InRange(p, m1, e1) && InRange(p, m2, e2)
    requires (lhs.encoding == FixedPoint || rhs.encoding == FixedPoint) && lhs.scalePower + rhs.scalePower >= 1
    ensures var c := Multiply(p, s, lhs, rhs, r);
      c.scalePower == 1 && c.encoding == FixedPoint
    ensures var d := Delta(p) * ScaleFactor(p, lhs.scalePower + rhs.scalePower - 1);
      var product := (Delta(p) * m1 + e1) * (Delta(p) * m2 + e2);
      d > 0 && 2 * Abs(d * RoundDiv(product, d) - product) <= d &&
      Congruent(Phase(s, Multiply(p, s, lhs, rhs, r)), RoundDiv(product, d) + r.noise, p.q)
  {
    hide Congruent; hide DecodeRaw; hide CenteredMod; hide InRange; hide TruncRem; hide RoundDiv; hide EncodeRaw;
    hide Carries; hide Phase; hide Delta; hide Multiply; hide ScaleFactor; hide Rescale;
    var power := lhs.scalePower + rhs.scalePower;
    CenteredDecode(p, s, lhs, m1, e1);
    CenteredDecode(p, s, rhs, m2, e2);
    RescalePositive(p, Delta(p), power);
    RescaleIs(p, Delta(p), power);
    var d := Delta(p) * ScaleFactor(p, power - 1);
    var product := (Delta(p) * m1 + e1) * (Delta(p) * m2 + e2);
    var value := TruncRem(TruncRem(RoundDiv(product, d), p.q) + p.q, p.q);
    FixedMultiplyIs(p, s, lhs, rhs, r);
    EncodeRawShape(p, s, value, FixedPoint, 1, r);
    RoundDivNearest(product, d);
    FoldsIntoRange(RoundDiv(product, d), p.q);
    EncodeRawPhase(p, s, value, FixedPoint, 1, r);
    Same(r.noise, p.q);
    CongruentAdd(value, RoundDiv(product, d), r.noise, r.noise, p.q);
    CongruentTrans(Phase(s, EncodeRaw(p, s, value, FixedPoint, 1, r)), value + r.noise, RoundDiv(product, d) + r.noise,
      p.q);
  }

  /** A product of mantissas is divided by the scale: while the noise is small enough and the quotient fits, it decrypts
      to one of the two integers next to it, and to the quotient itself where the division is exact. */
  lemma {:induction false} FixedProductDecrypts(
      p: Params, s: int, lhs: Ciphertext, rhs: Ciphertext, m1: int, e1: int, m2: int, e2: int, r: Sample)
    requires Carries(p, s, lhs, m1, e1) && Carries(p, s, rhs, m2, e2)
    requires InRange(p, m1, e1) && InRange(p, m2, e2)
    requires (lhs.encoding == FixedPoint || rhs.encoding == FixedPoint) && lhs.scalePower + rhs.scalePower >= 1
    requires var f := ScaleFactor(p, lhs.scalePower + rhs.scalePower - 1);
      && 2 * Abs(m1 * m2) + 2 * f <= f * p.t
      && 2 * Abs(m1 * e2 + m2 * e1) * Delta(p) + 2 * Abs(e1 * e2) + Delta(p) * f * (2 * Abs(r.noise) + 1)
           < Delta(p) * (Delta(p) * f)
    ensures var f := ScaleFactor(p, lhs.scalePower + rhs.scalePower - 1);
      Abs(f * DecryptInt(p, s, Multiply(p, s, lhs, rhs, r)) - m1 * m2) < f
  {
    hide *;
    var d, f := Delta(p), ScaleFactor(p, lhs.scalePower + rhs.scalePower - 1);
    var c, product := Multiply(p, s, lhs, rhs, r), (d * m1 + e1) * (d * m2 + e2);
    FixedProductCarries(p, s, lhs, rhs, m1, e1, m2, e2, r);
    var w := RoundDiv(product, d * f);
    DeltaTimesT(p);
    Expand(d, m1, e1, m2, e2);
    Linear(d, d * (m1 * m2), m1 * e2 + m2 * e1);
    Slack(d, f, m1 * m2, m1 * e2 + m2 * e1, e1 * e2, w, r.noise);
    QuotientFits(d, f, m1 * m2, w + r.noise, p.t);
    DecryptsNear(p, s, c, w + r.noise);
    Quantum(d, f, m1 * m2, w + r.noise, DecryptInt(p, s, c));
  }

  lemma Scaled(a: int, x: int)
    requires a > 0
    ensures Abs(a * x) == a * Abs(x)
  {
    if x >= 0 { assert a * x >= 0; } else { assert a * -x > 0; }
  }

  lemma Linear(a: int, x: int, y: int)
    ensures a * (x + y) == a * x + a * y && a * (2 * x) == 2 * (a * x) && a * (x - y) == a * x - a * y
  {
  }

  /** What the rounding and the noises move a product by. */
  lemma {:induction false} Slack(d: int, f: int, m: int, cross: int, ee: int, w: int, noise: int)
    requires d > 0 && d * f > 0
    requires 2 * Abs(d * f * w - (d * (d * m) + d * cross + ee)) <= d * f
    requires 2 * Abs(cross) * d + 2 * Abs(ee) + d * f * (2 * Abs(noise) + 1) < d * (d * f)
    ensures 2 * Abs(d * f * (w + noise) - d * (d * m)) < d * (d * f)
  {
    var g := d * f;
    Linear(g, w, noise);
    Linear(g, Abs(noise), 0);
    Linear(g, 2 * Abs(noise), 1);
    Scaled(g, noise);
    Scaled(d, cross);
    AddsUp(g * w, d * (d * m), d * cross, ee, g, g * noise, d * g);
  }

  lemma AddsUp(x: int, m: int, cross: int, ee: int, half: int, noise: int, limit: int)
    requires 2 * Abs(x - (m + cross + ee)) <= half && 2 * Abs(cross) + 2 * Abs(ee) + 2 * Abs(noise) + half < limit
    ensures 2 * Abs(x + noise - m) < limit
  {
  }

  lemma {:induction false} QuotientFits(d: int, f: int, m: int, x: int, t: int)
    requires d > 0 && d * f > 0
    requires 2 * Abs(d * f * x - d * (d * m)) < d * (d * f)
    requires 2 * Abs(m) + 2 * f <= f * t
    ensures 2 * Abs(x) + d < d * t
  {
    hide Abs;
    var g, a := d * f, Abs(m);
    Scaled(d, m);
    Scaled(d, d * m);
    Scaled(g, x);
    Nearer(g * x, d * (d * m), d * g);
    var ax := Abs(x);
    Larger(d, f * t, 2 * a + 2 * f);
    Larger(d, d * (f * t), d * (2 * a + 2 * f));
    Spread(d, a, f);
    Regrouped(d, f, t);
    Linear(g, 2 * ax, d);
    Linear(g, ax, 0);
    Commutes(g, d);
    Larger(g, 2 * ax + d, d * t);
  }

  lemma Commutes(x: int, y: int)
    ensures x * y == y * x
  {
  }

  lemma Nearer(x: int, y: int, limit: int)
    requires 2 * Abs(x - y) < limit
    ensures 2 * Abs(x) < 2 * Abs(y) + limit
  {
  }

  lemma Spread(d: int, a: int, f: int)
    ensures d * (d * (2 * a + 2 * f)) == 2 * (d * (d * a)) + 2 * (d * (d * f))
  {
    Linear(d, 2 * a, 2 * f);
    Linear(d, a, 0);
    Linear(d, f, 0);
    Linear(d, 2 * (d * a), 2 * (d * f));
    Linear(d, d * a, 0);
    Linear(d, d * f, 0);
  }

  lemma Regrouped(d: int, f: int, t: int)
    ensures d * f * (d * t) == d * (d * (f * t))
  {
    assert d * f * (d * t) == d * (f * (d * t)) && f * (d * t) == d * (f * t);
  }

  lemma {:induction false} Quantum(d: int, f: int, m: int, x: int, v: int)
    requires d > 0 && d * f > 0
    requires 2 * Abs(d * f * x - d * (d * m)) < d * (d * f) && 2 * Abs(d * v - x) <= d
    ensures Abs(f * v - m) < f
  {
    hide Abs;
    RoundedAway(d, d * f, x, v);
    Regrouped(d, f, v);
    Commutes(d * f, d);
    Apart(d * f * (d * v), d * f * x, d * (d * m), d * (d * f));
    TwiceScaled(d, f * v, m);
    Larger(d, Abs(f * v - m), f);
    Larger(d, d * Abs(f * v - m), d * f);
  }

  lemma RoundedAway(d: int, g: int, x: int, v: int)
    requires d > 0 && g > 0 && 2 * Abs(d * v - x) <= d
    ensures 2 * Abs(g * (d * v) - g * x) <= g * d
  {
    hide Abs;
    Linear(g, d * v, x);
    Scaled(g, d * v - x);
    Linear(g, Abs(d * v - x), 0);
    Larger(g, d, 2 * Abs(d * v - x));
  }

  lemma TwiceScaled(d: int, x: int, y: int)
    requires d > 0
    ensures Abs(d * (d * x) - d * (d * y)) == d * (d * Abs(x - y))
  {
    hide Abs;
    Linear(d, x, y);
    Linear(d, d * x, d * y);
    Scaled(d, x - y);
    Scaled(d, d * (x - y));
  }

  lemma Apart(x: int, y: int, z: int, limit: int)
    requires 2 * Abs(x - y) <= limit && 2 * Abs(y - z) < limit
    ensures Abs(x - z) < limit
  {
  }

  lemma FixedMultiplyIs(p: Params, s: int, lhs: Ciphertext, rhs: Ciphertext, r: Sample)
    requires lhs.encoding == FixedPoint || rhs.encoding == FixedPoint
    ensures var (d, power) := Rescale(p, Delta(p), lhs.scalePower + rhs.scalePower);
      var n := CenteredMod(DecodeRaw(p, s, lhs), p.q) * CenteredMod(DecodeRaw(p, s, rhs), p.q);
      d > 0 && Multiply(p, s, lhs, rhs, r) ==
        EncodeRaw(p, s, TruncRem(TruncRem(RoundDiv(n, d), p.q) + p.q, p.q), FixedPoint, power, r)
  {
    RescalePositive(p, Delta(p), lhs.scalePower + rhs.scalePower);
    hide DecodeRaw; hide CenteredMod; hide TruncRem; hide RoundDiv; hide EncodeRaw; hide Delta; hide Rescale;
  }
}
