/** Integer division as C++ does it, and congruences. */
module Modular {
  /** C++ `/`: rounds toward zero. */
  function TruncDiv(a: int, b: int): int
    requires b > 0
  {
    if a >= 0 then a / b else -(-a / b)
  }

  /** C++ `%`: has the sign of the dividend. */
  function TruncRem(a: int, b: int): int
    requires b > 0
  {
    a - b * TruncDiv(a, b)
  }

  /** The repository's `mod`: a truncated remainder, lifted when negative. */
  function Mod(value: int, modulus: int): int
    requires modulus > 0
  {
    var r := TruncRem(value, modulus);
    if r < 0 then r + modulus else r
  }

  /** `mod`, then the upper half moved below zero. */
  function CenteredMod(value: int, modulus: int): int
    requires modulus > 0
  {
    var r := Mod(value, modulus);
    if r > modulus / 2 then r - modulus else r
  }

  function Abs(x: int): nat {
    if x >= 0 then x else -x
  }

  predicate Congruent(a: int, b: int, q: int)
    requires q > 0
  {
    (a - b) % q == 0
  }

  lemma {:induction false} MultipleIsZero(q: int, k: int)
    requires q > 0
    ensures (q * k) % q == 0
  {
    DivUnique(q * k, q, k, 0);
  }

  /** Quotient and remainder are unique. */
  lemma {:induction false} DivUnique(a: int, q: int, k: int, r: int)
    requires q > 0 && a == q * k + r && 0 <= r < q
    ensures a / q == k && a % q == r
  {
    var d := a / q - k;
    assert a == q * (a / q) + a % q;
    assert q * d == r - a % q by { assert q * d == q * (a / q) - q * k; }
    MulGrows(q, d);
  }

  lemma {:induction false} MulGrows(q: int, d: int)
    requires q > 0
    ensures d >= 1 ==> q * d >= q
    ensures d <= -1 ==> q * d <= -q
  {
  }

  /** Congruent numbers differ by a multiple of the modulus. */
  lemma {:induction false} Quotient(a: int, b: int, q: int) returns (k: int)
    requires q > 0 && Congruent(a, b, q)
    ensures a == b + q * k
  {
    k := (a - b) / q;
  }

  lemma {:induction false} CongruentBy(a: int, b: int, q: int, k: int)
    requires q > 0 && a == b + q * k
    ensures Congruent(a, b, q)
  {
    MultipleIsZero(q, k);
  }

  lemma {:induction false} CongruentAdd(a: int, b: int, c: int, d: int, q: int)
    requires q > 0 && Congruent(a, b, q) && Congruent(c, d, q)
    ensures Congruent(a + c, b + d, q) && Congruent(a - c, b - d, q)
  {
    var k := Quotient(a, b, q);
    var l := Quotient(c, d, q);
    assert q * (k + l) == q * k + q * l && q * (k - l) == q * k - q * l;
    CongruentBy(a + c, b + d, q, k + l);
    CongruentBy(a - c, b - d, q, k - l);
  }

  lemma {:induction false} CongruentScale(a: int, b: int, n: int, q: int)
    requires q > 0 && Congruent(a, b, q)
    ensures Congruent(a * n, b * n, q)
  {
    var k := Quotient(a, b, q);
    assert a * n == b * n + q * (k * n) by { assert (b + q * k) * n == b * n + q * (k * n); }
    CongruentBy(a * n, b * n, q, k * n);
  }

  lemma {:induction false} CongruentTrans(a: int, b: int, c: int, q: int)
    requires q > 0 && Congruent(a, b, q) && Congruent(b, c, q)
    ensures Congruent(a, c, q)
  {
    CongruentAdd(a, b, b, c, q);
    assert (a + b) - (b + c) == a - c;
  }

  /** `mod` is the remainder in [0, modulus) whatever the sign of its argument. */
  lemma {:induction false} ModIsRemainder(value: int, modulus: int)
    requires modulus > 0
    ensures 0 <= Mod(value, modulus) < modulus && Congruent(Mod(value, modulus), value, modulus)
    ensures Mod(value, modulus) == value % modulus
  {
    var k := TruncDiv(value, modulus);
    var r := TruncRem(value, modulus);
    if value >= 0 {
      assert r == value % modulus;
    } else {
      assert -value == modulus * (-value / modulus) + -value % modulus;
      assert r == -(-value % modulus) by { assert modulus * k == -(modulus * (-value / modulus)); }
    }
    var m := Mod(value, modulus);
    var l := if r < 0 then k - 1 else k;
    assert modulus * l == if r < 0 then modulus * k - modulus else modulus * k;
    DivUnique(value, modulus, l, m);
    CongruentBy(m, value, modulus, -l);
  }

  /** `centeredMod` finds the one representative x of a class with -modulus < 2x <= modulus. */
  lemma {:induction false} CenteredIs(value: int, x: int, modulus: int)
    requires modulus > 0
    ensures CenteredMod(value, modulus) == x <==> Congruent(value, x, modulus) && -modulus < 2 * x <= modulus
  {
    ModIsRemainder(value, modulus);
    hide Mod;
    var c := CenteredMod(value, modulus);
    var k := Quotient(Mod(value, modulus), value, modulus);
    CongruentBy(value, c, modulus, if c == Mod(value, modulus) then -k else -k + 1) by {
      assert modulus * (-k + 1) == -(modulus * k) + modulus && modulus * -k == -(modulus * k);
    }
    if Congruent(value, x, modulus) && -modulus < 2 * x <= modulus {
      var a := Quotient(value, x, modulus);
      var b := Quotient(value, c, modulus);
      assert modulus * (a - b) == modulus * a - modulus * b;
      MulGrows(modulus, a - b);
    }
  }
}
