/** The streaming hashes of js-crypto.c. The block transform is a parameter: what is modelled is the
    buffering, the length counters kept in machine words, the padding, and HMAC over the result. */
module Sha {
  import opened Bytes

  datatype Kind = Sha1 | Sha256 | Sha512

  /** Initial state, block transform and digest of a state. */
  datatype Alg<!S> = Alg(init: S, f: (S, Bytes) -> S, out: S -> Bytes)

  function BlockSize(kind: Kind): nat { if kind == Sha512 then 128 else 64 }
  function LengthSize(kind: Kind): nat { if kind == Sha512 then 16 else 8 }

  /* ---- the specification: sections 5.1 and 6 of FIPS 180-4 ---- */

  /** The transform folded over the whole blocks of m. */
  function Fold<S>(alg: Alg<S>, b: nat, s: S, m: Bytes): S
    requires b > 0
    decreases |m|
  {
    if |m| < b then s else Fold(alg, b, alg.f(s, m[..b]), m[b..])
  }

  /** The bytes after the last whole block. */
  function Rest(b: nat, m: Bytes): (r: Bytes)
    requires b > 0
    ensures |r| < b && |r| <= |m|
    decreases |m|
  {
    if |m| < b then m else Rest(b, m[b..])
  }

  function Zeros(n: nat): (r: Bytes)
    ensures |r| == n && forall i :: 0 <= i < n ==> r[i] == 0
  {
    seq(n, _ => 0)
  }

  /** How many bytes of an n-byte message its last, unfinished block holds. */
  function Used(kind: Kind, n: nat): (r: nat)
    ensures r < BlockSize(kind)
  {
    if kind == Sha512 then n % 128 else n % 64
  }

  /** The zero bytes between the marker and the length field: as few as end the field on a block. */
  function Gap(kind: Kind, n: nat): nat
  {
    var b, l, used := BlockSize(kind), LengthSize(kind), Used(kind, n) + 1;
    if used <= b - l then b - l - used else 2 * b - l - used
  }

  /** A one bit, zeros up to the length field, and the message length in bits. */
  function Padding(kind: Kind, n: nat): (r: Bytes)
  {
    [0x80] + Zeros(Gap(kind, n)) + BE(8 * n, LengthSize(kind))
  }

  function Padded(kind: Kind, m: Bytes): Bytes { m + Padding(kind, |m|) }

  function Digest<S>(kind: Kind, alg: Alg<S>, m: Bytes): Bytes
  {
    alg.out(Fold(alg, BlockSize(kind), alg.init, Padded(kind, m)))
  }

  /* ---- facts about folding ---- */

  /** Bytes may be folded in as they come: only the state and the unfinished block matter. */
  lemma {:induction false} FoldAppend<S>(alg: Alg<S>, b: nat, s: S, m: Bytes, d: Bytes)
    requires b > 0
    ensures Fold(alg, b, s, m + d) == Fold(alg, b, Fold(alg, b, s, m), Rest(b, m) + d)
    ensures Rest(b, m + d) == Rest(b, Rest(b, m) + d)
    decreases |m|
  {
    if |m| >= b {
      FoldAppend(alg, b, alg.f(s, m[..b]), m[b..], d);
      assert (m + d)[..b] == m[..b] && (m + d)[b..] == m[b..] + d;
    }
  }

  lemma {:induction false} RestLength64(m: Bytes)
    ensures |Rest(64, m)| == |m| % 64
    decreases |m|
  {
    if |m| >= 64 {
      RestLength64(m[64..]);
    }
  }

  lemma {:induction false} RestLength128(m: Bytes)
    ensures |Rest(128, m)| == |m| % 128
    decreases |m|
  {
    if |m| >= 128 {
      RestLength128(m[128..]);
    }
  }

  lemma RestLength(kind: Kind, m: Bytes)
    ensures |Rest(BlockSize(kind), m)| == Used(kind, |m|)
  {
    RestLength64(m);
    RestLength128(m);
  }

  lemma FoldOne<S>(alg: Alg<S>, b: nat, s: S, m: Bytes)
    requires |m| == b > 0
    ensures Fold(alg, b, s, m) == alg.f(s, m) && Rest(b, m) == []
  {
    assert m[..b] == m && m[b..] == [];
  }

  /** A padded message is whole blocks, fewer than one block longer than it must be. */
  lemma PaddedWhole(kind: Kind, m: Bytes)
    ensures Rest(BlockSize(kind), Padded(kind, m)) == []
    ensures |Padded(kind, m)| < |m| + 1 + LengthSize(kind) + BlockSize(kind)
  {
    RestLength(kind, Padded(kind, m));
    var n, z := |m|, |Padding(kind, |m|)|;
    if kind == Sha512 {
      Whole128(n, z);
    } else {
      Whole64(n, z);
    }
  }

  /** Sections 5.1.1 and 5.1.2 of FIPS 180-4: the message, a one bit, the fewest zeros that do, and the
      length in bits as one big-endian number of 64 or 128 bits, whole blocks in all. */
  lemma PaddedLayout(kind: Kind, m: Bytes)
    ensures var p, b, l := Padded(kind, m), if kind.Sha512? then 128 else 64, if kind.Sha512? then 16 else 8;
            && |p| % b == 0 && |m| + 1 + l <= |p| < |m| + 1 + l + b
            && p[..|m|] == m && p[|m|] == 0x80 && (forall i :: |m| < i < |p| - l ==> p[i] == 0)
            && (8 * |m| < Pow256(l) ==> GetBE(p[|p| - l..]) == 8 * |m|)
  {
    var p, l, z := Padded(kind, m), LengthSize(kind), Padding(kind, |m|);
    PaddedWhole(kind, m);
    RestLength(kind, p);
    assert z == [0x80] + (Zeros(Gap(kind, |m|)) + BE(8 * |m|, l));
    assert p[|p| - l..] == BE(8 * |m|, l);
    if 8 * |m| < Pow256(l) {
      BERoundTrip(8 * |m|, l);
    }
  }

  /** Section 6 of FIPS 180-4: H(0) is the initial value, and H(i) is made of H(i-1) and block i. */
  lemma FoldNext<S>(alg: Alg<S>, b: nat, s: S, m: Bytes, x: Bytes)
    requires b > 0 && Rest(b, m) == [] && |x| == b
    ensures Fold(alg, b, s, []) == s
    ensures Fold(alg, b, s, m + x) == alg.f(Fold(alg, b, s, m), x)
  {
    FoldAppend(alg, b, s, m, x);
    assert [] + x == x;
    FoldOne(alg, b, Fold(alg, b, s, m), x);
  }

  /** Block i of a message of whole blocks. */
  function BlockAt(b: nat, m: Bytes, i: nat): Bytes
    requires (b == 64 || b == 128) && b * i + b <= |m|
  {
    m[b * i..b * i + b]
  }

  lemma {:induction false} FoldChain<S>(alg: Alg<S>, b: nat, s: S, m: Bytes) returns (hs: seq<S>)
    requires (b == 64 || b == 128) && |m| % b == 0
    ensures |hs| == |m| / b + 1 && hs[0] == s && hs[|hs| - 1] == Fold(alg, b, s, m)
    ensures forall i :: 0 <= i < |m| / b ==> hs[i + 1] == alg.f(hs[i], BlockAt(b, m, i))
    decreases |m|
  {
    if |m| < b {
      hs := [s];
    } else {
      var more := FoldChain(alg, b, alg.f(s, m[..b]), m[b..]);
      hs := [s] + more;
      forall i | 0 <= i < |m| / b
        ensures hs[i + 1] == alg.f(hs[i], BlockAt(b, m, i))
      {
        if i > 0 {
          assert BlockAt(b, m[b..], i - 1) == BlockAt(b, m, i);
          assert hs[i + 1] == more[i] && hs[i] == more[i - 1];
        }
      }
    }
  }

  /** The digest, block by block: the chain starts at the initial value, each link is made of the one
      before and the next block of the padded message, and the digest is of the last. */
  lemma DigestChain<S>(kind: Kind, alg: Alg<S>, m: Bytes) returns (hs: seq<S>)
    ensures var p, b := Padded(kind, m), if kind.Sha512? then 128 else 64;
            && |p| % b == 0 && |hs| == |p| / b + 1 && hs[0] == alg.init
            && (forall i :: 0 <= i < |p| / b ==> hs[i + 1] == alg.f(hs[i], BlockAt(b, p, i)))
            && Digest(kind, alg, m) == alg.out(hs[|hs| - 1])
  {
    PaddedLayout(kind, m);
    hs := FoldChain(alg, BlockSize(kind), alg.init, Padded(kind, m));
  }

  lemma Whole64(n: nat, z: nat)
    requires n % 64 + z == 64 || n % 64 + z == 128
    ensures (n + z) % 64 == 0
  {
  }

  lemma Whole128(n: nat, z: nat)
    requires n % 128 + z == 128 || n % 128 + z == 256
    ensures (n + z) % 128 == 0
  {
  }

  lemma {:induction false} BEDenotes(n: nat, p: nat, k: nat)
    requires BE(n, k) == BE(p, k) && n < Pow256(k) && p < Pow256(k)
    ensures n == p
  {
    if k > 0 {
      var a, c := BE(n, k), BE(p, k);
      assert a[..k - 1] == BE(n / 256, k - 1) && a[k - 1] == n % 256;
      assert c[..k - 1] == BE(p / 256, k - 1) && c[k - 1] == p % 256;
      BEDenotes(n / 256, p / 256, k - 1);
    }
  }

  /** Within the length the standard allows, different messages are padded differently. */
  lemma PaddedInjective(kind: Kind, m: Bytes, m': Bytes)
    requires 8 * |m| < Pow256(LengthSize(kind)) && 8 * |m'| < Pow256(LengthSize(kind))
    requires Padded(kind, m) == Padded(kind, m')
    ensures m == m'
  {
    var p, l := Padded(kind, m), LengthSize(kind);
    assert p[|p| - l..] == BE(8 * |m|, l);
    assert Padded(kind, m')[|p| - l..] == BE(8 * |m'|, l);
    BEDenotes(8 * |m|, 8 * |m'|, l);
    assert p[..|m|] == m && Padded(kind, m')[..|m'|] == m';
  }

  /* ---- facts about length words ---- */

  lemma {:induction false} BEJoin(hi: nat, lo: nat, j: nat, k: nat)
    requires lo < Pow256(k)
    ensures BE(hi * Pow256(k) + lo, j + k) == BE(hi, j) + BE(lo, k)
  {
    if k == 0 {
      assert BE(hi, j) + [] == BE(hi, j);
    } else {
      var n := hi * Pow256(k) + lo;
      assert n == 256 * (hi * Pow256(k - 1)) + lo by {
        assert hi * (256 * Pow256(k - 1)) == 256 * (hi * Pow256(k - 1));
      }
      assert n / 256 == hi * Pow256(k - 1) + lo / 256 && n % 256 == lo % 256;
      BEJoin(hi, lo / 256, j, k - 1);
      Assoc(BE(hi, j), BE(lo / 256, k - 1), [lo % 256]);
    }
  }

  /** k bytes hold a number modulo 256^k. */
  lemma {:induction false} BEWraps(n: nat, q: nat, k: nat)
    ensures BE(n + q * Pow256(k), k) == BE(n, k)
  {
    if k > 0 {
      var p := q * Pow256(k - 1);
      assert q * Pow256(k) == 256 * p by {
        assert q * (256 * Pow256(k - 1)) == 256 * (q * Pow256(k - 1));
      }
      assert (n + 256 * p) / 256 == n / 256 + p && (n + 256 * p) % 256 == n % 256;
      BEWraps(n / 256, q, k - 1);
    }
  }

  /** Byte i of k, as the shifts of the final functions pick it. */
  lemma {:induction false} BEByte(n: nat, k: nat, i: nat)
    requires i < k
    ensures BE(n, k)[i] == n / Pow256(k - 1 - i) % 256
  {
    if i < k - 1 {
      BEByte(n / 256, k - 1, i);
      DivDiv(n, Pow256(k - 2 - i));
    }
  }

  /** What the two counter words of a context say about a message of n bytes. */
  predicate Counts(kind: Kind, lo: nat, hi: nat, n: nat)
  {
    match kind
    case Sha1 => lo < TWO_32 && hi < TWO_32 && hi * TWO_32 + lo == 8 * n % TWO_64
    case Sha256 => lo == n % TWO_64
    case Sha512 => lo < TWO_64 && hi < TWO_64 && hi * TWO_64 + lo == n % (TWO_64 * TWO_64)
  }

  /** The counters as the update functions advance them, in 32-bit or 64-bit words. */
  function CountUp(kind: Kind, lo: nat, hi: nat, len: nat): (r: (nat, nat))
  {
    match kind
    case Sha1 =>
      var bits := 8 * len % TWO_64 % TWO_32;
      var lo' := (lo + bits) % TWO_32;
      var hi' := if lo' < bits then (hi + 1) % TWO_32 else hi;
      (lo', (hi' + len / 0x2000_0000 % TWO_32) % TWO_32)
    case Sha256 => ((lo + len) % TWO_64, hi)
    case Sha512 =>
      var lo' := (lo + len) % TWO_64;
      (lo', if lo' < lo then (hi + 1) % TWO_64 else hi)
  }

  /** No carry is lost between the words, whatever the lengths of the pieces. */
  lemma CountsUp(kind: Kind, lo: nat, hi: nat, n: nat, len: nat)
    requires Counts(kind, lo, hi, n) && len < TWO_64
    ensures var (lo', hi') := CountUp(kind, lo, hi, len); Counts(kind, lo', hi', n + len)
  {
    match kind
    case Sha1 => CountsUp1(lo, hi, n, len);
    case Sha256 =>
    case Sha512 => CountsUp512(lo, hi, n, len);
  }

  lemma CountsUp1(lo: nat, hi: nat, n: nat, len: nat)
    requires Counts(Sha1, lo, hi, n) && len < TWO_64
    ensures var (lo', hi') := CountUp(Sha1, lo, hi, len); Counts(Sha1, lo', hi', n + len)
  {
    var bits, top := 8 * len % TWO_32, len / 0x2000_0000;
    Shifted(len);
    var (lo', hi') := CountUp(Sha1, lo, hi, len);
    var c := if lo + bits >= TWO_32 then 1 else 0;
    Wraps32(lo + bits, c);
    WrapsTwice(hi, c, top);
    var h := hi + c + top;
    var q := h / TWO_32;
    var p := 8 * n / TWO_64;
    assert hi' == h - q * TWO_32;
    assert hi' * TWO_32 + lo' + (q + p) * TWO_64 == 8 * (n + len);
    Wraps64(hi' * TWO_32 + lo', q + p, 8 * (n + len));
  }

  lemma Shifted(len: nat)
    ensures 8 * len == len / 0x2000_0000 * TWO_32 + 8 * len % TWO_32
    ensures 8 * len % TWO_64 % TWO_32 == 8 * len % TWO_32
  {
  }

  lemma Wraps32(n: nat, c: nat)
    requires n < 2 * TWO_32 && c == (if n >= TWO_32 then 1 else 0)
    ensures n % TWO_32 == n - c * TWO_32
  {
  }

  lemma WrapsTwice(hi: nat, c: nat, top: nat)
    requires hi < TWO_32 && c <= 1
    ensures ((if c == 1 then (hi + 1) % TWO_32 else hi) + top % TWO_32) % TWO_32 == (hi + c + top) % TWO_32
  {
  }

  lemma Wraps64(r: nat, q: nat, n: nat)
    requires r < TWO_64 && r + q * TWO_64 == n
    ensures r == n % TWO_64
  {
  }

  lemma CountsUp512(lo: nat, hi: nat, n: nat, len: nat)
    requires Counts(Sha512, lo, hi, n) && len < TWO_64
    ensures var (lo', hi') := CountUp(Sha512, lo, hi, len); Counts(Sha512, lo', hi', n + len)
  {
    var (lo', hi') := CountUp(Sha512, lo, hi, len);
    var c := if lo + len >= TWO_64 then 1 else 0;
    assert lo' == lo + len - c * TWO_64;
    var p := n / (TWO_64 * TWO_64);
    var q := (hi + c) / TWO_64;
    assert hi' == hi + c - q * TWO_64;
    assert hi' * TWO_64 + lo' + (q + p) * (TWO_64 * TWO_64) == n + len;
  }
}
