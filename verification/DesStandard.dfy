/** A DES block in the terms of FIPS 46-3: bits are numbered from the left, from 1. The round tables are
    given, each already the S-box and the permutation P, turned left by one bit as js-crypto.c has them. */
module DesStandard {
  import opened DesText

  /** The eight lookup tables SB1 to SB8. */
  datatype SBoxes = SBoxes(s1: bv6 -> bv32, s2: bv6 -> bv32, s3: bv6 -> bv32, s4: bv6 -> bv32,
                           s5: bv6 -> bv32, s6: bv6 -> bv32, s7: bv6 -> bv32, s8: bv6 -> bv32)

  /** A round key as two words: the six bits for S-boxes 8, 6, 4, 2 end the bytes of k0 from the right,
      those for 7, 5, 3, 1 the bytes of k1. */
  datatype KeyPair = KeyPair(k0: bv32, k1: bv32)

  /* ---- the initial permutation, by bits ---- */

  type OctetNo = k: bv8 | 1 <= k <= 8 witness 1
  type HalfNo = j: bv32 | 1 <= j <= 32 witness 1

  /** Bit k of an octet, 1 the leftmost. */
  function OctetBit(o: bv8, k: OctetNo): bv32 { ((o >> (8 - k)) & 1) as bv32 }

  /** Bit k of each octet, the last octet first: one row of the table of IP. Row 1 of the table, bits 58,
      50, 42, 34, 26, 18, 10 and 2 of the block, is bit 2 of octets 8 to 1. */
  function Column(b: Octets8, k: OctetNo): bv32
  {
    (OctetBit(b[7], k) << 7) | (OctetBit(b[6], k) << 6) | (OctetBit(b[5], k) << 5) | (OctetBit(b[4], k) << 4) |
    (OctetBit(b[3], k) << 3) | (OctetBit(b[2], k) << 2) | (OctetBit(b[1], k) << 1) | OctetBit(b[0], k)
  }

  /** L0 and R0: rows 1 to 4, and rows 5 to 8, of the table of IP. */
  function Left(b: Octets8): bv32 { (Column(b, 2) << 24) | (Column(b, 4) << 16) | (Column(b, 6) << 8) | Column(b, 8) }
  function Right(b: Octets8): bv32 { (Column(b, 1) << 24) | (Column(b, 3) << 16) | (Column(b, 5) << 8) | Column(b, 7) }

  /* ---- the function f, by bits ---- */

  /** Bit j of a half, 1 the leftmost. */
  function Bit(w: bv32, j: HalfNo): bv6 { ((w >> (32 - j)) & 1) as bv6 }

  /** Six bits, the first one leftmost. */
  function Picked(w: bv32, a: HalfNo, b: HalfNo, c: HalfNo, d: HalfNo, e: HalfNo, f: HalfNo): bv6
  {
    (Bit(w, a) << 5) | (Bit(w, b) << 4) | (Bit(w, c) << 3) | (Bit(w, d) << 2) | (Bit(w, e) << 1) | Bit(w, f)
  }

  /** What S-box i of 8 looks up: its six bits of the expansion E, xor its six bits of the round key. */
  function Input1(r: bv32, k: KeyPair): bv6 { Picked(r, 32, 1, 2, 3, 4, 5) ^ Picked(k.k1, 3, 4, 5, 6, 7, 8) }
  function Input2(r: bv32, k: KeyPair): bv6 { Picked(r, 4, 5, 6, 7, 8, 9) ^ Picked(k.k0, 3, 4, 5, 6, 7, 8) }
  function Input3(r: bv32, k: KeyPair): bv6 { Picked(r, 8, 9, 10, 11, 12, 13) ^ Picked(k.k1, 11, 12, 13, 14, 15, 16) }
  function Input4(r: bv32, k: KeyPair): bv6 { Picked(r, 12, 13, 14, 15, 16, 17) ^ Picked(k.k0, 11, 12, 13, 14, 15, 16) }
  function Input5(r: bv32, k: KeyPair): bv6 { Picked(r, 16, 17, 18, 19, 20, 21) ^ Picked(k.k1, 19, 20, 21, 22, 23, 24) }
  function Input6(r: bv32, k: KeyPair): bv6 { Picked(r, 20, 21, 22, 23, 24, 25) ^ Picked(k.k0, 19, 20, 21, 22, 23, 24) }
  function Input7(r: bv32, k: KeyPair): bv6 { Picked(r, 24, 25, 26, 27, 28, 29) ^ Picked(k.k1, 27, 28, 29, 30, 31, 32) }
  function Input8(r: bv32, k: KeyPair): bv6 { Picked(r, 28, 29, 30, 31, 32, 1) ^ Picked(k.k0, 27, 28, 29, 30, 31, 32) }

  function Inputs(r: bv32, k: KeyPair): (i: seq<bv6>)
    ensures |i| == 8
  {
    [Input8(r, k), Input6(r, k), Input4(r, k), Input2(r, k), Input7(r, k), Input5(r, k), Input3(r, k), Input1(r, k)]
  }

  function Lookups(s: SBoxes, i: seq<bv6>): seq<bv32>
    requires |i| == 8
  {
    [s.s8(i[0]), s.s6(i[1]), s.s4(i[2]), s.s2(i[3]), s.s7(i[4]), s.s5(i[5]), s.s3(i[6]), s.s1(i[7])]
  }

  function XorAll(ws: seq<bv32>): bv32 { if ws == [] then 0 else ws[0] ^ XorAll(ws[1..]) }

  /** The round function: the lookups of all eight, together. */
  function Mixed(s: SBoxes, r: bv32, k: KeyPair): bv32 { XorAll(Lookups(s, Inputs(r, k))) }

  function TurnedRight(w: bv32): bv32 { (w >> 1) | (w << 31) }

  /** What R(n) is made of: L(n-1), R(n-1) and K(n). */
  type Mixer = (bv32, bv32, KeyPair) -> bv32

  function MixerOf(s: SBoxes): Mixer
  {
    (l: bv32, r: bv32, k: KeyPair) => l ^ TurnedRight(Mixed(s, r, k))
  }

  /** L(n) = R(n-1) and R(n) = L(n-1) xor f(R(n-1), K(n)), for each round key in turn. */
  function HalvesOf(g: Mixer, ks: seq<KeyPair>, l: bv32, r: bv32): (bv32, bv32)
    decreases |ks|
  {
    if ks == [] then (l, r) else HalvesOf(g, ks[1..], r, g(l, r, ks[0]))
  }

  /** The output block: the one that IP takes to R16 followed by L16. */
  ghost predicate Enciphers(s: SBoxes, ks: seq<KeyPair>, input: Octets8, output: Octets8)
  {
    var (l, r) := HalvesOf(MixerOf(s), ks, Left(input), Right(input));
    Left(output) == r && Right(output) == l
  }

  /** There is only one. */
  lemma BlockByHalves(a: Octets8, b: Octets8)
    requires Left(a) == Left(b) && Right(a) == Right(b)
    ensures a == b
  {
  }
}
