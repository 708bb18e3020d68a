/** The engine around the scheme: its state, its loops and its sampling. */
module ToyEngine {
  import opened Fhn
  import opened Modular
  import T = ToyFhe

  /** The double-and-add `mulMod` for platforms without 128-bit integers. */
  method MulMod(lhs: int, rhs: int, modulus: int) returns (result: int)
    requires modulus > 0
    ensures result == T.MulMod(lhs, rhs, modulus)
  {
    ModIsRemainder(lhs, modulus);
    ModIsRemainder(rhs, modulus);
    ModIsRemainder(lhs * rhs, modulus);
    var a, b := Mod(lhs, modulus), Mod(rhs, modulus);
    ReducedProduct(lhs, rhs, modulus);
    result := 0;
    while b > 0
      invariant b >= 0 && 0 <= result < modulus
      invariant Congruent(result + a * b, lhs * rhs, modulus)
    {
      DoubleAndAdd(result, a, b, lhs * rhs, modulus);
      if b % 2 == 1 {
        result := Mod(result + a, modulus);
      }
      a := Mod(a + a, modulus);
      b := b / 2;
    }
    var k := Quotient(result, lhs * rhs, modulus);
    DivUnique(lhs * rhs, modulus, -k, result) by { assert modulus * -k == -(modulus * k); }
  }

  lemma {:induction false} ReducedProduct(lhs: int, rhs: int, modulus: int)
    requires modulus > 0
    ensures Congruent(Mod(lhs, modulus) * Mod(rhs, modulus), lhs * rhs, modulus)
  {
    var a, b := Mod(lhs, modulus), Mod(rhs, modulus);
    ModIsRemainder(lhs, modulus);
    ModIsRemainder(rhs, modulus);
    hide Mod; hide Congruent;
    CongruentScale(a, lhs, b, modulus);
    CongruentScale(b, rhs, lhs, modulus);
    assert lhs * b == b * lhs && rhs * lhs == lhs * rhs;
    CongruentTrans(a * b, lhs * b, lhs * rhs, modulus);
  }

  /** One round keeps result + a*b in its class. */
  lemma {:induction false} DoubleAndAdd(result: int, a: int, b: int, target: int, modulus: int)
    requires modulus > 0 && b > 0 && Congruent(result + a * b, target, modulus)
    ensures 0 <= Mod(result + a, modulus) < modulus
    ensures var next := if b % 2 == 1 then Mod(result + a, modulus) else result;
      Congruent(next + Mod(a + a, modulus) * (b / 2), target, modulus)
  {
    hide *;
    var bit, half := b % 2, b / 2;
    var step := if bit == 1 then result + a else result;
    var next := if bit == 1 then Mod(result + a, modulus) else result;
    ModIsRemainder(result + a, modulus);
    ModIsRemainder(a + a, modulus);
    T.Same(result, modulus);
    CongruentScale(Mod(a + a, modulus), a + a, half, modulus);
    CongruentAdd(next, step, Mod(a + a, modulus) * half, (a + a) * half, modulus);
    Halves(result, a, b);
    CongruentTrans(next + Mod(a + a, modulus) * half, result + a * b, target, modulus);
  }

  lemma {:induction false} Halves(result: int, a: int, b: int)
    ensures (if b % 2 == 1 then result + a else result) + (a + a) * (b / 2) == result + a * b
  {
    var half := b / 2;
    if b % 2 == 1 {
      assert b == half + half + 1;
      assert a * (half + half + 1) == a * half + a * half + a;
    } else {
      assert b == half + half;
      assert a * (half + half) == a * half + a * half;
    }
    assert (a + a) * half == a * half + a * half;
  }

  lemma Positive(a: int, b: int)
    requires a > 0 && b > 0
    ensures a * b > 0
  {
  }

  class Engine {
    var params: T.Parameters
    var initialized: bool
    var keysGenerated: bool
    var secretKey: int

    constructor ()
      ensures !initialized && !keysGenerated && Valid()
    {
      params, initialized, keysGenerated, secretKey := T.DEFAULTS, false, false, 0;
    }

    ghost predicate Valid()
      reads this
    {
      && (initialized ==> T.Initializable(params))
      && (keysGenerated ==> initialized)
    }

    /** Where there are keys, the parameters leave something to sample from. */
    ghost predicate Ready()
      reads this
    {
      Valid() && (keysGenerated ==> T.Accepted(params))
    }

    /** Rejects parameters decryption and rescaling cannot work with; says nothing of sampling ranges. A zero
        plaintext modulus would divide by zero. */
    method Initialize(ps: T.Parameters) returns (ok: bool)
      requires Valid() && ps.t != 0
      modifies this
      ensures Valid() && ok == T.Initializable(ps)
      ensures ok ==> initialized && params == ps
      ensures !ok ==> initialized == old(initialized) && params == old(params)
      ensures keysGenerated == old(keysGenerated) && secretKey == old(secretKey)
    {
      if ps.q <= ps.t { return false; }
      if TruncRem(ps.q, Abs(ps.t)) != 0 { return false; }
      if ps.scale <= 1 { return false; }
      params, initialized := ps, true;
      return true;
    }

    /** The range a key is drawn from must not be empty. */
    method GenerateKeys() returns (ok: bool)
      requires Valid() && (initialized ==> params.t >= 2)
      modifies this
      ensures Valid() && ok == initialized == old(initialized) && params == old(params)
      ensures ok ==> keysGenerated && 1 <= secretKey < params.t
      ensures ok && params.noiseBound >= 0 ==> Ready()
      ensures !ok ==> secretKey == old(secretKey) && keysGenerated == old(keysGenerated)
    {
      if !initialized { return false; }
      var key: int :| 1 <= key < params.t by { assert 1 <= 1 < params.t; }
      secretKey, keysGenerated := key, true;
      T.AcceptedIff(params);
      return true;
    }

    method Draw() returns (r: T.Sample)
      requires Ready() && keysGenerated
      ensures T.Drawn(params, r)
    {
      var mask: int :| 0 <= mask < params.q by { assert 0 <= 0 < params.q; }
      var noise: int :| -params.noiseBound <= noise <= params.noiseBound by { assert -params.noiseBound <= 0; }
      r := T.Sample(mask, noise);
    }

    method EncryptInt(value: int) returns (c: Option<T.Ciphertext>, ghost r: T.Sample)
      requires Ready()
      ensures c.Some? == keysGenerated
      ensures c.Some? ==> T.Drawn(params, r) && c.value == T.EncryptInt(params, secretKey, value, r)
    {
      if !keysGenerated { return None, T.Sample(0, 0); }
      var drawn := Draw();
      return Some(T.EncryptInt(params, secretKey, value, drawn)), drawn;
    }

    method AlignScale(c: T.Ciphertext, target: nat) returns (current: T.Ciphertext)
      requires Ready() && keysGenerated
      ensures current == T.AlignScale(params, c, target)
    {
      current := c;
      while current.scalePower < target
        invariant T.AlignScale(params, current, target) == T.AlignScale(params, c, target)
        decreases target - current.scalePower
      {
        current := T.MultiplyPlainInternal(params, current, params.scale, 1);
      }
    }

    method Add(lhs: T.Ciphertext, rhs: T.Ciphertext) returns (c: Option<T.Ciphertext>)
      requires Ready()
      ensures c == if keysGenerated then Some(T.Add(params, lhs, rhs)) else None
    {
      if !keysGenerated { return None; }
      var target := if lhs.scalePower >= rhs.scalePower then lhs.scalePower else rhs.scalePower;
      var left := AlignScale(lhs, target);
      var right := AlignScale(rhs, target);
      return Some(T.Ciphertext(Mod(left.c0 + right.c0, params.q), Mod(left.c1 + right.c1, params.q), target,
        if left.encoding == T.FixedPoint || right.encoding == T.FixedPoint then T.FixedPoint else T.Integer));
    }

    /** Delta, times `scale` for every scale level above one in fixed point. */
    method RescaledDivisor(encoding: T.Encoding, power: nat) returns (divisor: int, scalePower: nat)
      requires Ready() && keysGenerated
      ensures divisor > 0
      ensures (divisor, scalePower) ==
        if encoding == T.FixedPoint then T.Rescale(params, T.Delta(params), power) else (T.Delta(params), power)
    {
      divisor, scalePower := T.Delta(params), power;
      while encoding == T.FixedPoint && scalePower > 1
        invariant divisor > 0
        invariant encoding == T.FixedPoint ==>
          T.Rescale(params, divisor, scalePower) == T.Rescale(params, T.Delta(params), power)
        invariant encoding == T.Integer ==> scalePower == power && divisor == T.Delta(params)
        decreases scalePower
      {
        Positive(divisor, params.scale);
        divisor, scalePower := divisor * params.scale, scalePower - 1;
      }
    }

    method Multiply(lhs: T.Ciphertext, rhs: T.Ciphertext) returns (c: Option<T.Ciphertext>, ghost r: T.Sample)
      requires Ready()
      ensures c.Some? == keysGenerated
      ensures c.Some? ==> T.Drawn(params, r) && c.value == T.Multiply(params, secretKey, lhs, rhs, r)
    {
      if !keysGenerated { return None, T.Sample(0, 0); }
      hide T.DecodeRaw; hide T.MultiplyDecoded; hide CenteredMod; hide T.Delta; hide T.Drawn; hide T.Rescale;
      var factor := CenteredMod(T.DecodeRaw(params, secretKey, rhs), params.q);
      var encoding := if lhs.encoding == T.FixedPoint || rhs.encoding == T.FixedPoint then T.FixedPoint else T.Integer;
      var divisor, scalePower := RescaledDivisor(encoding, lhs.scalePower + rhs.scalePower);
      var drawn := Draw();
      return Some(T.MultiplyDecoded(params, secretKey, lhs, factor, divisor, encoding, scalePower, drawn)), drawn;
    }

    method DecryptInt(c: T.Ciphertext) returns (m: Option<int>)
      requires Ready()
      ensures m == if keysGenerated then Some(T.DecryptInt(params, secretKey, c)) else None
    {
      if !keysGenerated { return None; }
      return Some(T.DecryptInt(params, secretKey, c));
    }

    /** Where delta leaves room for noise, fresh encryptions decrypt to what was encrypted exactly when that is in
        (-t/2, t/2]. */
    method RoundTrip(value: int) returns (m: Option<int>)
      requires Ready()
      ensures m.Some? == keysGenerated
      ensures keysGenerated && 2 * params.noiseBound < T.Delta(params) ==>
        (m == Some(value) <==> -params.t < 2 * value <= params.t)
    {
      var c, r := EncryptInt(value);
      if c.None? { return None; }
      m := DecryptInt(c.value);
      T.EncryptCarries(params, secretKey, value, r);
      if 2 * params.noiseBound < T.Delta(params) {
        T.DecryptsTo(params, secretKey, c.value, value, r.noise);
      }
    }
  }
}
