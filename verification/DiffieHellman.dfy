/** The 64-bit Diffie-Hellman exchange of js-crypto.c, over the modulus 2^64 - 59. */
module DiffieHellman {
  import opened Wrappers
  import opened Bytes

  const DH_P: int := 0xffff_ffff_ffff_ffc5
  const DH_G: int := 5

  type U64 = n: int | 0 <= n < TWO_64

  function Pow(a: int, n: nat): int
  {
    if n == 0 then 1 else a * Pow(a, n - 1)
  }

  /* ---- modular arithmetic ---- */

  lemma ModShift(x: int, k: int)
    ensures (x + k * DH_P) % DH_P == x % DH_P
  {
  }

  lemma ModMul(a: int, b: int)
    ensures (a % DH_P * b) % DH_P == (a * b) % DH_P
  {
    var q := a / DH_P;
    assert a == a % DH_P + q * DH_P;
    assert a * b == a % DH_P * b + (q * b) * DH_P by {
      assert (a % DH_P + q * DH_P) * b == a % DH_P * b + q * DH_P * b;
      assert q * DH_P * b == (q * b) * DH_P;
    }
    ModShift(a % DH_P * b, q * b);
  }

  lemma {:induction false} PowMod(a: int, n: nat)
    ensures Pow(a % DH_P, n) % DH_P == Pow(a, n) % DH_P
  {
    if n > 0 {
      var r := a % DH_P;
      PowMod(a, n - 1);
      calc {
        Pow(r, n) % DH_P;
        (Pow(r, n - 1) * r) % DH_P;
        { ModMul(Pow(r, n - 1), r); }
        (Pow(r, n - 1) % DH_P * r) % DH_P;
        (Pow(a, n - 1) % DH_P * r) % DH_P;
        { ModMul(Pow(a, n - 1), r); }
        (Pow(a, n - 1) * r) % DH_P;
        (r * Pow(a, n - 1)) % DH_P;
        { ModMul(a, Pow(a, n - 1)); }
        Pow(a, n) % DH_P;
      }
    }
  }

  lemma {:induction false} PowAdd(a: int, m: nat, n: nat)
    ensures Pow(a, m + n) == Pow(a, m) * Pow(a, n)
  {
    if m > 0 {
      PowAdd(a, m - 1, n);
      assert a * (Pow(a, m - 1) * Pow(a, n)) == (a * Pow(a, m - 1)) * Pow(a, n);
    }
  }

  lemma {:induction false} PowPow(a: int, m: nat, n: nat)
    ensures m * n >= 0 && Pow(Pow(a, m), n) == Pow(a, m * n)
  {
    if n == 0 {
      assert m * n == 0;
    } else {
      PowPow(a, m, n - 1);
      assert m * n == m + m * (n - 1);
      PowAdd(a, m, m * (n - 1));
    }
  }

  lemma Regroup(a: int, b: int, x: int, y: int)
    ensures a * b * (x * y) == (a * x) * (b * y)
  {
    assert a * b * (x * y) == a * (b * (x * y));
    assert b * (x * y) == x * (b * y);
    assert a * (x * (b * y)) == (a * x) * (b * y);
  }

  lemma {:induction false} PowProduct(a: int, b: int, n: nat)
    ensures Pow(a * b, n) == Pow(a, n) * Pow(b, n)
  {
    if n > 0 {
      PowProduct(a, b, n - 1);
      Regroup(a, b, Pow(a, n - 1), Pow(b, n - 1));
    }
  }

  lemma {:induction false} PowOne(n: nat)
    ensures Pow(1, n) == 1
  {
    if n > 0 {
      PowOne(n - 1);
    }
  }

  /** The inverse of the generator: 5 * G_INVERSE == 1 + 2 * DH_P. */
  const G_INVERSE: int := (2 * DH_P + 1) / DH_G

  lemma ZeroTimes(r: int, y: int)
    ensures r == 0 ==> (r * y) % DH_P == 0
  {
  }

  /** No power of the generator is 0 modulo p, because the generator has an inverse. */
  lemma PowNonZero(n: nat)
    ensures Pow(DH_G, n) % DH_P != 0
  {
    var x, y := Pow(DH_G, n), Pow(G_INVERSE, n);
    assert DH_G * G_INVERSE == 2 * DH_P + 1;
    PowProduct(DH_G, G_INVERSE, n);
    PowMod(DH_G * G_INVERSE, n);
    ModShift(1, 2);
    PowOne(n);
    assert (x * y) % DH_P == 1;
    ModMul(x, y);
    ZeroTimes(x % DH_P, y);
  }

  /* ---- the algorithm, on 64-bit words ---- */

  /** Subtracting the modulus from a 64-bit word that has wrapped. */
  lemma WrapSub(x: int)
    requires DH_P <= x <= 2 * DH_P
    ensures (x % TWO_64 - DH_P) % TWO_64 == x - DH_P
  {
  }

  /** mul_mod_p: double and add, never letting a sum pass 2^64. Exact also when a is the modulus. */
  method MulModP(a0: U64, b0: U64) returns (m: U64)
    requires a0 <= DH_P
    ensures m == (a0 * b0) % DH_P
  {
    var a, b := a0, b0;
    m := 0;
    while b != 0
      invariant 0 <= a <= DH_P && 0 <= m < DH_P && 0 <= b
      invariant (m + a * b) % DH_P == (a0 * b0) % DH_P
      decreases b
    {
      ghost var m1, a1 := m, a;
      if b % 2 == 1 {
        var t := DH_P - a;
        if m >= t {
          m := m - t;
        } else {
          m := (m + a) % TWO_64;
        }
      }
      if a >= DH_P - a {
        WrapSub(a * 2);
        a := (a * 2 % TWO_64 - DH_P) % TWO_64;
      } else {
        a := a * 2 % TWO_64;
      }
      DoubleStep(m1, m, a1, a, b);
      b := b / 2;
    }
  }

  /** One round keeps m + a*b modulo p. */
  lemma DoubleStep(m: int, m1: int, a: int, a1: int, b: nat)
    requires m1 == m + b % 2 * a || m1 == m + b % 2 * a - DH_P
    requires a1 == 2 * a || a1 == 2 * a - DH_P
    ensures (m1 + a1 * (b / 2)) % DH_P == (m + a * b) % DH_P
  {
    var h, d := b / 2, b % 2;
    assert b == 2 * h + d;
    var i, j := if m1 == m + d * a then 0 else 1, if a1 == 2 * a then 0 else 1;
    assert a * b == 2 * a * h + d * a by {
      assert a * (2 * h + d) == 2 * a * h + d * a;
    }
    assert a1 * h == 2 * a * h - j * h * DH_P by {
      assert (2 * a - j * DH_P) * h == 2 * a * h - j * h * DH_P;
    }
    assert m1 + a1 * h == (m + a * b) + (-i - j * h) * DH_P by {
      assert (-i - j * h) * DH_P == -i * DH_P - j * h * DH_P;
    }
    ModShift(m + a * b, -i - j * h);
  }

  /** pow_mod_p: square and multiply down to b == 1, where the base is returned as it is. */
  method PowModP(a: U64, b: U64) returns (r: U64)
    requires a <= DH_P && b >= 1
    ensures r == if a == DH_P && b == 1 then DH_P else Pow(a, b) % DH_P
    decreases b
  {
    if b == 1 {
      assert Pow(a, 1) == a * Pow(a, 0);
      return a;
    }
    var h := b / 2;
    var t := PowModP(a, h);
    PowHalf(a, h, t);
    t := MulModP(t, t);
    if b % 2 == 1 {
      PowOdd(a, 2 * h);
      t := MulModP(t, a);
    }
    r := t;
  }

  lemma PowHalf(a: int, h: nat, t: int)
    requires t % DH_P == Pow(a, h) % DH_P
    ensures (t * t) % DH_P == Pow(a, 2 * h) % DH_P
  {
    var x := Pow(a, h);
    PowAdd(a, h, h);
    ModMul(t, t);
    ModMul(x, t);
    ModMul(t, x);
    ModMul(x, x);
  }

  lemma PowOdd(a: int, n: nat)
    ensures (Pow(a, n) % DH_P * a) % DH_P == Pow(a, n + 1) % DH_P
  {
    ModMul(Pow(a, n), a);
    assert Pow(a, n + 1) == a * Pow(a, n);
  }

  /** powmodp is the modular power, except for the one pair it does not reduce: the modulus
      itself to the power 1. */
  method PowerModP(a: U64, b: U64) returns (r: U64)
    requires b >= 1
    ensures r == Pow(a, b) % DH_P <==> !(a == DH_P && b == 1)
    ensures a == DH_P && b == 1 ==> r == DH_P
  {
    PowMod(a, b);
    if a > DH_P {
      r := PowModP(a % DH_P, b);
    } else {
      r := PowModP(a, b);
    }
  }

  /** js_crypt_dh_exchange: the public key of x; 0 is refused. */
  method Exchange(x: U64) returns (r: Option<U64>)
    ensures r == None <==> x == 0
    ensures r.Some? ==> r.value == Pow(5, x) % (TWO_64 - 59) && 0 < r.value < TWO_64 - 59
  {
    if x == 0 {
      return None;
    }
    var k := PowerModP(DH_G, x);
    PowNonZero(x);
    r := Some(k);
  }

  /** js_crypt_dh_secret, for the peer's public key and one's own private key. */
  method Secret(x: U64, y: U64) returns (r: Option<U64>)
    ensures r == None <==> x == 0 || y == 0
    ensures r.Some? ==> (r.value == Pow(x, y) % (TWO_64 - 59) <==> !(x == TWO_64 - 59 && y == 1))
  {
    if x == 0 || y == 0 {
      return None;
    }
    var k := PowerModP(x, y);
    r := Some(k);
  }

  function PublicKey(x: nat): int
  {
    Pow(DH_G, x) % DH_P
  }

  lemma SecretOfKey(x: nat, y: nat)
    ensures x * y >= 0 && Pow(PublicKey(x), y) % DH_P == Pow(DH_G, x * y) % DH_P
  {
    PowMod(Pow(DH_G, x), y);
    PowPow(DH_G, x, y);
  }

  /** Both sides reach the same secret, 5^(ab) mod p, each from the other's public key; the keys
      exchanged are never 0 and never the modulus, so neither is refused or left unreduced. */
  lemma KeysAgree(a: nat, b: nat)
    ensures var p, ka, kb := TWO_64 - 59, Pow(5, a) % (TWO_64 - 59), Pow(5, b) % (TWO_64 - 59);
            && 0 < ka < p && 0 < kb < p
            && a * b >= 0 && Pow(kb, a) % p == Pow(ka, b) % p == Pow(5, a * b) % p
  {
    PowNonZero(a);
    PowNonZero(b);
    SecretOfKey(b, a);
    SecretOfKey(a, b);
    assert b * a == a * b;
  }
}
