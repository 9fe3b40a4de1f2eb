/** Byte strings and the fixed-width integers the wire formats are made of. */
module Bytes {
  type Byte = b: int | 0 <= b < 256
  type Bytes = seq<Byte>

  const TWO_16: int := 0x1_0000
  const TWO_31: int := 0x8000_0000
  const TWO_32: int := 0x1_0000_0000
  const TWO_64: int := 0x1_0000_0000_0000_0000

  type U32 = n: int | 0 <= n < TWO_32

  /** Big-endian 16-bit word. */
  function BE16(n: int): (r: Bytes)
    requires 0 <= n < TWO_16
    ensures |r| == 2 && GetBE16(r) == n
  {
    [n / 256, n % 256]
  }

  function GetBE16(b: Bytes): (n: int)
    requires |b| >= 2
    ensures 0 <= n < TWO_16
  {
    b[0] as int * 256 + b[1] as int
  }

  /** `k` little-endian bytes of n. */
  function LE(n: nat, k: nat): (r: Bytes)
    ensures |r| == k
  {
    if k == 0 then [] else [n % 256] + LE(n / 256, k - 1)
  }

  function GetLE(b: Bytes): (n: nat)
  {
    if b == [] then 0 else b[0] as int + 256 * GetLE(b[1..])
  }

  function Pow256(k: nat): (p: nat)
    ensures p > 0
  {
    if k == 0 then 1 else 256 * Pow256(k - 1)
  }

  lemma {:induction false} Pow256Values()
    ensures Pow256(1) == 256 && Pow256(2) == TWO_16 && Pow256(4) == TWO_32 && Pow256(8) == TWO_64
  {
    assert Pow256(2) == 256 * Pow256(1);
    assert Pow256(4) == 256 * (256 * Pow256(2));
    assert Pow256(6) == 256 * (256 * Pow256(4));
    assert Pow256(8) == 256 * (256 * Pow256(6));
  }

  /** Reading back a little-endian word gives the number it was written from. */
  lemma {:induction false} LERoundTrip(n: nat, k: nat)
    requires n < Pow256(k)
    ensures GetLE(LE(n, k)) == n
  {
    if k > 0 {
      LERoundTrip(n / 256, k - 1);
      assert LE(n, k)[1..] == LE(n / 256, k - 1);
    }
  }

  /** Every byte string is the little-endian form of the number it denotes. */
  lemma {:induction false} LEOnto(b: Bytes)
    ensures GetLE(b) < Pow256(|b|) && LE(GetLE(b), |b|) == b
  {
    if b != [] {
      var n := GetLE(b[1..]);
      LEOnto(b[1..]);
      assert GetLE(b) % 256 == b[0] as int && GetLE(b) / 256 == n;
      assert b == [b[0]] + b[1..];
    }
  }

  function LE32(n: U32): (r: Bytes)
    ensures |r| == 4 && GetLE(r) == n
  {
    Pow256Values();
    LERoundTrip(n, 4);
    LE(n, 4)
  }

  function Get32(b: Bytes): (n: U32)
    requires |b| >= 4
  {
    Pow256Values();
    LEOnto(b[..4]);
    GetLE(b[..4])
  }

  /** `k` big-endian bytes of n. */
  function BE(n: nat, k: nat): (r: Bytes)
    ensures |r| == k
  {
    if k == 0 then [] else BE(n / 256, k - 1) + [n % 256]
  }

  function GetBE(b: Bytes): (n: nat)
  {
    if b == [] then 0 else 256 * GetBE(b[..|b| - 1]) + b[|b| - 1] as int
  }

  lemma {:induction false} BERoundTrip(n: nat, k: nat)
    requires n < Pow256(k)
    ensures GetBE(BE(n, k)) == n
  {
    if k > 0 {
      BERoundTrip(n / 256, k - 1);
      assert BE(n, k)[..k - 1] == BE(n / 256, k - 1);
    }
  }

  lemma DivDiv(n: nat, p: nat)
    requires p > 0
    ensures n / (256 * p) == n / 256 / p
  {
    var a := n / 256;
    var q, r := a / p, a % p;
    assert a == q * p + r;
    assert n == (256 * p) * q + (256 * r + n % 256) by {
      assert 256 * (q * p) == (256 * p) * q;
    }
    Quotient(n, 256 * p, q, 256 * r + n % 256);
  }

  lemma Quotient(n: int, d: int, q: int, r: int)
    requires 0 <= r < d && n == d * q + r
    ensures n / d == q
  {
    var e := n / d - q;
    assert d * (n / d) + n % d == n;
    assert d * e == r - n % d by {
      assert d * (n / d) - d * q == d * (n / d - q);
    }
    Multiples(d, e);
  }

  lemma Multiples(d: int, e: int)
    ensures d > 0 && e >= 1 ==> d * e >= d
    ensures d > 0 && e <= -1 ==> d * e <= -d
  {
    assert d > 0 && e >= 1 ==> d * (e - 1) >= 0;
    assert d > 0 && e <= -1 ==> d * (-e - 1) >= 0;
  }

  lemma Assoc<T>(a: seq<T>, b: seq<T>, c: seq<T>)
    ensures (a + b) + c == a + (b + c)
  {
  }

  function Flatten(ss: seq<Bytes>): (r: Bytes)
  {
    if ss == [] then [] else ss[0] + Flatten(ss[1..])
  }

  lemma {:induction false} FlattenAppend(a: seq<Bytes>, b: seq<Bytes>)
    ensures Flatten(a + b) == Flatten(a) + Flatten(b)
  {
    if a == [] {
      assert a + b == b;
    } else {
      FlattenAppend(a[1..], b);
      assert (a + b)[1..] == a[1..] + b && (a + b)[0] == a[0];
      Assoc(a[0], Flatten(a[1..]), Flatten(b));
    }
  }

  lemma FlattenOne(a: Bytes)
    ensures Flatten([a]) == a
  {
    assert [a][1..] == [];
  }

  lemma FlattenSnoc(a: seq<Bytes>, b: Bytes)
    ensures Flatten(a + [b]) == Flatten(a) + b
  {
    FlattenAppend(a, [b]);
    FlattenOne(b);
  }

  lemma Halves(a: Bytes, z: Bytes)
    ensures (a + z)[..|a|] == a && (a + z)[|a|..] == z
  {
  }

  /** Exclusive or of the low `bits` bits, bit by bit. */
  function XorBits(bits: nat, a: nat, b: nat): (r: nat)
    requires a < Pow2(bits) && b < Pow2(bits)
    ensures r < Pow2(bits)
  {
    if bits == 0 then 0 else (if a % 2 == b % 2 then 0 else 1) + 2 * XorBits(bits - 1, a / 2, b / 2)
  }

  function Pow2(n: nat): (p: nat)
    ensures p > 0
  {
    if n == 0 then 1 else 2 * Pow2(n - 1)
  }

  lemma Pow2Eight()
    ensures Pow2(8) == 256
  {
    assert Pow2(4) == 2 * (2 * (2 * (2 * Pow2(0))));
    assert Pow2(6) == 2 * (2 * Pow2(4));
    assert Pow2(8) == 2 * (2 * Pow2(6));
  }

  function Xor(a: Byte, b: Byte): Byte
  {
    Pow2Eight();
    XorBits(8, a as int, b as int)
  }

  lemma {:induction false} XorBitsTwice(bits: nat, a: nat, b: nat)
    requires a < Pow2(bits) && b < Pow2(bits)
    ensures XorBits(bits, XorBits(bits, a, b), b) == a
  {
    if bits > 0 {
      XorBitsTwice(bits - 1, a / 2, b / 2);
    }
  }

  lemma XorTwice(a: Byte, b: Byte)
    ensures Xor(Xor(a, b), b) == a
  {
    Pow2Eight();
    XorBitsTwice(8, a as int, b as int);
  }

  /** Bit j of n, 0 the lowest. */
  function Bit(n: nat, j: nat): (r: nat)
    ensures r < 2
  {
    if j == 0 then n % 2 else Bit(n / 2, j - 1)
  }

  /** A bit of an exclusive or is 1 exactly where the two bits differ. */
  lemma {:induction false} XorBitsAt(bits: nat, a: nat, b: nat, j: nat)
    requires a < Pow2(bits) && b < Pow2(bits) && j < bits
    ensures Bit(XorBits(bits, a, b), j) == if Bit(a, j) == Bit(b, j) then 0 else 1
  {
    if j > 0 {
      XorBitsAt(bits - 1, a / 2, b / 2, j - 1);
    }
  }

  lemma XorAt(a: Byte, b: Byte, j: nat)
    requires j < 8
    ensures Bit(Xor(a, b), j) == if Bit(a, j) == Bit(b, j) then 0 else 1
  {
    Pow2Eight();
    XorBitsAt(8, a, b, j);
  }
}
