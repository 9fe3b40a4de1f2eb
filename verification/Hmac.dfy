/** Hashing a message handed over in pieces, and HMAC (section 2 of RFC 2104) built on it. */
module Hmac {
  import opened Bytes
  import opened Sha
  import opened ShaContext

  /** The digest must fit in a block, as the three digests of 20, 32 and 64 bytes do. */
  ghost predicate Fits<S(!new)>(kind: Kind, alg: Alg<S>)
  {
    forall s :: |alg.out(s)| <= BlockSize(kind)
  }

  method Final<S>(c: Context<S>) returns (digest: Bytes)
    requires c.Valid()
    modifies c, c.buffer
    ensures digest == Digest(c.kind, c.alg, old(c.taken))
  {
    if c.kind == Sha1 {
      digest := c.Final1();
    } else {
      digest := c.FinalDirect();
    }
  }

  /** However a message is cut into update calls, the digest is that of the whole. */
  method HashPieces<S>(kind: Kind, alg: Alg<S>, pieces: seq<Bytes>) returns (digest: Bytes)
    requires forall p :: p in pieces ==> |p| < TWO_64
    ensures digest == Digest(kind, alg, Flatten(pieces))
  {
    var c := new Context(kind, alg);
    var i := 0;
    assert pieces[..0] == [];
    while i < |pieces|
      invariant 0 <= i <= |pieces|
      invariant c.Valid() && c.kind == kind && c.alg == alg && fresh(c) && fresh(c.buffer)
      invariant c.taken == Flatten(pieces[..i])
    {
      assert pieces[i] in pieces;
      c.Update(pieces[i]);
      assert pieces[..i + 1] == pieces[..i] + [pieces[i]];
      FlattenAppend(pieces[..i], [pieces[i]]);
      FlattenOne(pieces[i]);
      i := i + 1;
    }
    assert pieces[..i] == pieces;
    digest := Final(c);
  }

  /* ---- the specification of HMAC ---- */

  function Masked(key: Bytes, v: Byte): (r: Bytes)
    ensures |r| == |key|
  {
    seq(|key|, i requires 0 <= i < |key| => Xor(key[i], v))
  }

  /** The key as one block: hashed first when it is longer, then filled up with zeros. */
  function BlockKey<S(!new)>(kind: Kind, alg: Alg<S>, key: Bytes): (r: Bytes)
    requires Fits(kind, alg)
    ensures |r| == BlockSize(kind)
  {
    var k := if |key| > BlockSize(kind) then Digest(kind, alg, key) else key;
    k + Zeros(BlockSize(kind) - |k|)
  }

  /** Byte i of the key as RFC 2104 takes it: of the key, or of its digest if it is longer than a block,
      and zero past the end. */
  function KeyByte<S>(kind: Kind, alg: Alg<S>, key: Bytes, i: nat): Byte
  {
    var k := if |key| > BlockSize(kind) then Digest(kind, alg, key) else key;
    if i < |k| then k[i] else 0
  }

  /** One block whose bytes are the key bytes xor v, bit by bit. */
  ghost predicate IsPad<S>(kind: Kind, alg: Alg<S>, key: Bytes, v: Byte, pad: Bytes)
  {
    |pad| == BlockSize(kind) &&
    forall i, j :: 0 <= i < |pad| && 0 <= j < 8 ==>
      Bit(pad[i], j) == if Bit(KeyByte(kind, alg, key, i), j) == Bit(v, j) then 0 else 1
  }

  lemma MaskIsPad<S(!new)>(kind: Kind, alg: Alg<S>, key: Bytes, v: Byte)
    requires Fits(kind, alg)
    ensures IsPad(kind, alg, key, v, Masked(BlockKey(kind, alg, key), v))
  {
    var k := BlockKey(kind, alg, key);
    forall i, j | 0 <= i < |k| && 0 <= j < 8
      ensures Bit(Masked(k, v)[i], j) == if Bit(KeyByte(kind, alg, key, i), j) == Bit(v, j) then 0 else 1
    {
      XorAt(k[i], v, j);
    }
  }

  /** A byte is its eight bits. */
  lemma {:induction false} SameBits(bits: nat, a: nat, b: nat)
    requires a < Pow2(bits) && b < Pow2(bits) && forall j :: 0 <= j < bits ==> Bit(a, j) == Bit(b, j)
    ensures a == b
  {
    if bits > 0 {
      assert Bit(a, 0) == Bit(b, 0);
      forall j | 0 <= j < bits - 1
        ensures Bit(a / 2, j) == Bit(b / 2, j)
      {
        assert Bit(a, j + 1) == Bit(b, j + 1);
      }
      SameBits(bits - 1, a / 2, b / 2);
    }
  }

  lemma PadBit<S>(kind: Kind, alg: Alg<S>, key: Bytes, v: Byte, p: Bytes, i: nat, j: nat)
    requires IsPad(kind, alg, key, v, p) && i < |p| && j < 8
    ensures Bit(p[i], j) == if Bit(KeyByte(kind, alg, key, i), j) == Bit(v, j) then 0 else 1
  {
  }

  /** There is one such block. */
  lemma PadIsOne<S>(kind: Kind, alg: Alg<S>, key: Bytes, v: Byte, p: Bytes, q: Bytes)
    requires IsPad(kind, alg, key, v, p) && IsPad(kind, alg, key, v, q)
    ensures p == q
  {
    Pow2Eight();
    forall i | 0 <= i < |p|
      ensures p[i] == q[i]
    {
      forall j | 0 <= j < 8
        ensures Bit(p[i], j) == Bit(q[i], j)
      {
        PadBit(kind, alg, key, v, p, i, j);
        PadBit(kind, alg, key, v, q, i, j);
      }
      SameBits(8, p[i], q[i]);
    }
  }

  lemma {:induction false} ZeroBits(bits: nat, v: nat)
    requires v < Pow2(bits)
    ensures XorBits(bits, 0, v) == v
  {
    if bits > 0 {
      ZeroBits(bits - 1, v / 2);
    }
  }

  /** For a key of zeros, or none, the pads are blocks of 0x36 and of 0x5c. */
  lemma ZeroKeyPads<S(!new)>(kind: Kind, alg: Alg<S>, key: Bytes, v: Byte, pad: Bytes)
    requires Fits(kind, alg) && |key| <= BlockSize(kind) && forall i :: 0 <= i < |key| ==> key[i] == 0
    requires IsPad(kind, alg, key, v, pad)
    ensures forall i :: 0 <= i < BlockSize(kind) ==> pad[i] == v
  {
    MaskIsPad(kind, alg, key, v);
    PadIsOne(kind, alg, key, v, pad, Masked(BlockKey(kind, alg, key), v));
    Pow2Eight();
    ZeroBits(8, v);
  }

  /** One digest over two updates. */
  method HashTwo<S>(kind: Kind, alg: Alg<S>, first: Bytes, second: Bytes) returns (digest: Bytes)
    requires |first| < TWO_64 && |second| < TWO_64
    ensures digest == Digest(kind, alg, first + second)
  {
    var c := new Context(kind, alg);
    c.Update(first);
    c.Update(second);
    assert [] + first == first;
    digest := Final(c);
  }

  method FillPad(rkey: array<Byte>, pad: array<Byte>, v: Byte)
    requires rkey.Length == pad.Length && rkey != pad
    modifies pad
    ensures pad[..] == Masked(rkey[..], v)
  {
    var i := 0;
    while i < pad.Length
      invariant 0 <= i <= pad.Length
      invariant forall j :: 0 <= j < i ==> pad[j] == Xor(rkey[j], v)
    {
      pad[i] := Xor(rkey[i], v);
      i := i + 1;
    }
  }

  /** The three functions HMAC_IMPL defines: H(K xor opad, H(K xor ipad, text)). */
  method HmacOf<S(!new)>(kind: Kind, alg: Alg<S>, key: Bytes, data: Bytes) returns (mac: Bytes)
    requires Fits(kind, alg)
    requires |key| < TWO_64 && |data| < TWO_64
    ensures exists ip, op :: IsPad(kind, alg, key, 0x36, ip) && IsPad(kind, alg, key, 0x5c, op)
                             && mac == Digest(kind, alg, op + Digest(kind, alg, ip + data))
  {
    var rkey := new Byte[BlockSize(kind)](_ => 0);
    var k := key;
    if |key| > BlockSize(kind) {
      k := HashPieces(kind, alg, [key]);
      FlattenOne(key);
    }
    forall i | 0 <= i < |k| {
      rkey[i] := k[i];
    }
    assert rkey[..] == BlockKey(kind, alg, key);
    var pad := new Byte[BlockSize(kind)];
    FillPad(rkey, pad, 0x36);
    ghost var ip := pad[..];
    var inner := HashTwo(kind, alg, pad[..], data);
    FillPad(rkey, pad, 0x5c);
    ghost var op := pad[..];
    mac := HashTwo(kind, alg, pad[..], inner);
    MaskIsPad(kind, alg, key, 0x36);
    MaskIsPad(kind, alg, key, 0x5c);
    assert IsPad(kind, alg, key, 0x36, ip) && IsPad(kind, alg, key, 0x5c, op);
  }

  /** A key longer than a block acts as its digest, and trailing zeros of a short key are not seen:
      exactly the keys that fill the block alike give the same masks. */
  lemma KeysAlike<S(!new)>(kind: Kind, alg: Alg<S>, k: Bytes, k': Bytes)
    requires Fits(kind, alg)
    ensures Masked(BlockKey(kind, alg, k), 0x36) == Masked(BlockKey(kind, alg, k'), 0x36) <==>
            BlockKey(kind, alg, k) == BlockKey(kind, alg, k')
    ensures |k| > BlockSize(kind) ==> BlockKey(kind, alg, k) == BlockKey(kind, alg, Digest(kind, alg, k))
    ensures |k| < BlockSize(kind) ==> BlockKey(kind, alg, k) == BlockKey(kind, alg, k + [0])
  {
    var a, b := BlockKey(kind, alg, k), BlockKey(kind, alg, k');
    MaskUndone(a, 0x36);
    MaskUndone(b, 0x36);
  }

  lemma MaskUndone(k: Bytes, v: Byte)
    ensures Masked(Masked(k, v), v) == k
  {
    forall i | 0 <= i < |k|
      ensures Masked(Masked(k, v), v)[i] == k[i]
    {
      XorTwice(k[i], v);
    }
  }
}
