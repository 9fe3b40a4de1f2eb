/** DES as js-crypto.c computes it: a 16-round Feistel network between two bit permutations, over
    blocks of a padded text. Nothing here depends on what the S-boxes or the key schedule hold. */
module Des {
  import opened Wrappers
  import opened DesText
  import opened Feistel
  import opened DesStandard

  type Words = Block<bv32>

  /* ---- the initial and final permutation ---- */

  function SwapA(b: Words): Words
  {
    var t := ((b.x >> 4) ^ b.y) & 0x0F0F0F0F;
    Block(b.x ^ (t << 4), b.y ^ t)
  }

  function SwapB(b: Words): Words
  {
    var t := ((b.x >> 16) ^ b.y) & 0x0000FFFF;
    Block(b.x ^ (t << 16), b.y ^ t)
  }

  function SwapC(b: Words): Words
  {
    var t := ((b.y >> 2) ^ b.x) & 0x33333333;
    Block(b.x ^ t, b.y ^ (t << 2))
  }

  function SwapD(b: Words): Words
  {
    var t := ((b.y >> 8) ^ b.x) & 0x00FF00FF;
    Block(b.x ^ t, b.y ^ (t << 8))
  }

  function SwapE(b: Words): Words
  {
    var t := (b.x ^ b.y) & 0xAAAAAAAA;
    Block(b.x ^ t, b.y ^ t)
  }

  function Rol(w: bv32): bv32 { (w << 1) | (w >> 31) }
  function Ror(w: bv32): bv32 { (w << 31) | (w >> 1) }

  /** DES_IP. */
  function IP(b: Words): Words
  {
    var d := SwapD(SwapC(SwapB(SwapA(b))));
    var e := SwapE(d.(y := Rol(d.y)));
    e.(x := Rol(e.x))
  }

  /** DES_FP. */
  function FP(b: Words): Words
  {
    var e := SwapE(b.(x := Ror(b.x)));
    SwapA(SwapB(SwapC(SwapD(e.(y := Ror(e.y))))))
  }

  lemma InvolutionA(b: Words) ensures SwapA(SwapA(b)) == b {}
  lemma InvolutionB(b: Words) ensures SwapB(SwapB(b)) == b {}
  lemma InvolutionC(b: Words) ensures SwapC(SwapC(b)) == b {}
  lemma InvolutionD(b: Words) ensures SwapD(SwapD(b)) == b {}
  lemma InvolutionE(b: Words) ensures SwapE(SwapE(b)) == b {}
  lemma Rotations(w: bv32) ensures Ror(Rol(w)) == w && Rol(Ror(w)) == w {}

  /** The two permutations are each other's inverse. */
  lemma PermutationsInverse(b: Words)
    ensures FP(IP(b)) == b && IP(FP(b)) == b
  {
    var a1 := SwapA(b);
    var b1 := SwapB(a1);
    var c1 := SwapC(b1);
    var d1 := SwapD(c1);
    InvolutionA(b);
    InvolutionB(a1);
    InvolutionC(b1);
    InvolutionD(c1);
    InvolutionE(d1.(y := Rol(d1.y)));
    Rotations(d1.y);
    Rotations(IP(b).x);
    Rotations(SwapE(d1.(y := Rol(d1.y))).x);
    var e2 := SwapE(b.(x := Ror(b.x)));
    var d2 := SwapD(e2.(y := Ror(e2.y)));
    var c2 := SwapC(d2);
    var b2 := SwapB(c2);
    InvolutionE(b.(x := Ror(b.x)));
    InvolutionD(e2.(y := Ror(e2.y)));
    InvolutionC(d2);
    InvolutionB(c2);
    InvolutionA(b2);
    Rotations(b.x);
    Rotations(e2.y);
  }

  /* ---- the Feistel network ---- */

  function Six(t: bv32): bv6 { (t & 0x3F) as bv6 }

  /** The places DES_ROUND looks up, from the tables 8, 6, 4, 2, 7, 5, 3 and 1: two key words against
      the half. */
  function Sixes(w: bv32, k: KeyPair): (r: seq<bv6>)
    ensures |r| == 8
  {
    var t := k.k0 ^ w;
    var u := k.k1 ^ ((w << 28) | (w >> 4));
    [Six(t), Six(t >> 8), Six(t >> 16), Six(t >> 24), Six(u), Six(u >> 8), Six(u >> 16), Six(u >> 24)]
  }

  /** What stands there. */
  function Found(s: SBoxes, i: seq<bv6>): seq<bv32>
    requires |i| == 8
  {
    [s.s8(i[0]), s.s6(i[1]), s.s4(i[2]), s.s2(i[3]), s.s7(i[4]), s.s5(i[5]), s.s3(i[6]), s.s1(i[7])]
  }

  /** What DES_ROUND mixes into the other half. */
  function F(s: SBoxes, w: bv32, k: KeyPair): bv32 { XorAll(Found(s, Sixes(w, k))) }

  /** DES_ROUND's masking, as the Feistel network takes it. */
  function MaskOf(s: SBoxes): Mask<bv32, KeyPair>
  {
    (x: bv32, w: bv32, k: KeyPair) => x ^ F(s, w, k)
  }

  lemma XorTwice(a: bv32, m: bv32)
    ensures (a ^ m) ^ m == a
  {
  }

  lemma MaskInvolutive(s: SBoxes)
    ensures Involutive(MaskOf(s))
  {
    forall x: bv32, w: bv32, k: KeyPair
      ensures MaskOf(s)(MaskOf(s)(x, w, k), w, k) == x
    {
      XorTwice(x, F(s, w, k));
    }
  }

  /** des_crypt on one block. */
  function Crypt(m: Mask<bv32, KeyPair>, ks: seq<KeyPair>, b: Words): Words
  {
    FP(Swap(Rounds(m, IP(b), ks)))
  }

  /** Decryption is encryption under the reversed key schedule, and the other way round. */
  lemma CryptUndone(m: Mask<bv32, KeyPair>, ks: seq<KeyPair>, b: Words)
    requires Involutive(m)
    ensures Crypt(m, Reversed(ks), Crypt(m, ks, b)) == b
  {
    PermutationsInverse(Swap(Rounds(m, IP(b), ks)));
    PermutationsInverse(b);
    RoundsUndone(m, IP(b), ks);
  }

  /* ---- words and bytes ---- */

  function GetWord(b: seq<bv8>): bv32
    requires |b| >= 4
  {
    ((b[0] as bv32) << 24) | ((b[1] as bv32) << 16) | ((b[2] as bv32) << 8) | (b[3] as bv32)
  }

  function PutWord(w: bv32): (r: seq<bv8>)
    ensures |r| == 4
  {
    [((w >> 24) & 0xFF) as bv8, ((w >> 16) & 0xFF) as bv8, ((w >> 8) & 0xFF) as bv8, (w & 0xFF) as bv8]
  }

  lemma WordRoundTrip(w: bv32)
    ensures GetWord(PutWord(w)) == w
  {
  }

  lemma ByteRoundTrip(a: bv8, b: bv8, c: bv8, d: bv8)
    ensures PutWord(GetWord([a, b, c, d])) == [a, b, c, d]
  {
  }

  function GetBlock(b: seq<bv8>): Words
    requires |b| >= 8
  {
    Block(GetWord(b), GetWord(b[4..]))
  }

  function PutBlock(b: Words): (r: seq<bv8>)
    ensures |r| == 8
  {
    PutWord(b.x) + PutWord(b.y)
  }

  lemma BlockRoundTrip(b: Words)
    ensures GetBlock(PutBlock(b)) == b
  {
    WordRoundTrip(b.x);
    WordRoundTrip(b.y);
    assert PutBlock(b)[4..] == PutWord(b.y) && PutBlock(b)[..4] == PutWord(b.x);
  }

  lemma OctetsRoundTrip(b: seq<bv8>)
    requires |b| == 8
    ensures PutBlock(GetBlock(b)) == b
  {
    ByteRoundTrip(b[0], b[1], b[2], b[3]);
    ByteRoundTrip(b[4], b[5], b[6], b[7]);
    assert [b[0], b[1], b[2], b[3]] == b[..4] && [b[4], b[5], b[6], b[7]] == b[4..];
    assert GetWord(b) == GetWord(b[..4]);
  }

  /** The cipher des_crypt computes under one key schedule. */
  function CipherOf(m: Mask<bv32, KeyPair>, ks: seq<KeyPair>): Cipher
  {
    (b: Octets8) => PutBlock(Crypt(m, ks, GetBlock(b)))
  }

  lemma CipherUndone(m: Mask<bv32, KeyPair>, ks: seq<KeyPair>, b: Octets8)
    requires Involutive(m)
    ensures CipherOf(m, Reversed(ks))(CipherOf(m, ks)(b)) == b
  {
    BlockRoundTrip(Crypt(m, ks, GetBlock(b)));
    CryptUndone(m, ks, GetBlock(b));
    OctetsRoundTrip(b);
  }

  lemma SchedulesInverse(m: Mask<bv32, KeyPair>, ks: seq<KeyPair>)
    requires Involutive(m)
    ensures forall b: Octets8 :: CipherOf(m, Reversed(ks))(CipherOf(m, ks)(b)) == b
  {
    forall b: Octets8
      ensures CipherOf(m, Reversed(ks))(CipherOf(m, ks)(b)) == b
    {
      CipherUndone(m, ks, b);
    }
  }

  /** For every key schedule, whatever the S-boxes hold, every text and both paddings: decoding
      under the reversed schedule undoes encoding. */
  lemma DecodeEncode(s: SBoxes, ks: seq<KeyPair>, text: seq<bv8>, mode: Padding)
    ensures ReadsBack(mode, CryptAll(CipherOf(MaskOf(s), Reversed(ks)),
                                     CryptAll(CipherOf(MaskOf(s), ks), Padded(mode, text))), text)
  {
    MaskInvolutive(s);
    SchedulesInverse(MaskOf(s), ks);
    DesText.DecodeEncode(CipherOf(MaskOf(s), ks), CipherOf(MaskOf(s), Reversed(ks)), text, mode);
  }

  /* ---- the same block, by the bits of the standard ---- */

  lemma Rows(b: Octets8)
    ensures IP(GetBlock(b)) == Block(Rol(Left(b)), Rol(Right(b)))
  {
  }

  /* Each table is looked up at the six bits the standard gives its S-box. */
  lemma Box1(r: bv32, k: KeyPair) ensures Six((k.k1 ^ ((Rol(r) << 28) | (Rol(r) >> 4))) >> 24) == Input1(r, k) {}
  lemma Box2(r: bv32, k: KeyPair) ensures Six((k.k0 ^ Rol(r)) >> 24) == Input2(r, k) {}
  lemma Box3(r: bv32, k: KeyPair) ensures Six((k.k1 ^ ((Rol(r) << 28) | (Rol(r) >> 4))) >> 16) == Input3(r, k) {}
  lemma Box4(r: bv32, k: KeyPair) ensures Six((k.k0 ^ Rol(r)) >> 16) == Input4(r, k) {}
  lemma Box5(r: bv32, k: KeyPair) ensures Six((k.k1 ^ ((Rol(r) << 28) | (Rol(r) >> 4))) >> 8) == Input5(r, k) {}
  lemma Box6(r: bv32, k: KeyPair) ensures Six((k.k0 ^ Rol(r)) >> 8) == Input6(r, k) {}
  lemma Box7(r: bv32, k: KeyPair) ensures Six(k.k1 ^ ((Rol(r) << 28) | (Rol(r) >> 4))) == Input7(r, k) {}
  lemma Box8(r: bv32, k: KeyPair) ensures Six(k.k0 ^ Rol(r)) == Input8(r, k) {}

  lemma SixesAreInputs(r: bv32, k: KeyPair)
    ensures Sixes(Rol(r), k) == Inputs(r, k)
  {
    Box1(r, k); Box2(r, k); Box3(r, k); Box4(r, k);
    Box5(r, k); Box6(r, k); Box7(r, k); Box8(r, k);
  }

  /** The eight lookups of a round are the standard's function f, on a half turned left by one bit. */
  lemma MixesByBits(s: SBoxes, r: bv32, k: KeyPair)
    ensures F(s, Rol(r), k) == Mixed(s, r, k)
  {
    SixesAreInputs(r, k);
    FoundIs(s, Inputs(r, k));
  }

  lemma FoundIs(s: SBoxes, i: seq<bv6>)
    requires |i| == 8
    ensures Found(s, i) == Lookups(s, i)
  {
  }

  function Nothing(): bv6 -> bv32 { (x: bv6) => 0 }

  lemma {:induction false} XorOnly(ws: seq<bv32>, j: nat)
    requires j < |ws| && forall l :: 0 <= l < |ws| && l != j ==> ws[l] == 0
    ensures XorAll(ws) == ws[j]
    decreases |ws|
  {
    if j > 0 {
      XorOnly(ws[1..], j - 1);
    } else {
      XorNone(ws[1..]);
    }
  }

  lemma {:induction false} XorNone(ws: seq<bv32>)
    requires forall l :: 0 <= l < |ws| ==> ws[l] == 0
    ensures XorAll(ws) == 0
  {
    if ws != [] {
      XorNone(ws[1..]);
    }
  }

  /** Each S-box by itself: with all the others empty, what a round mixes in is that S-box at its six bits
      of the expansion, xor its six key bits. */
  lemma BoxAlone(t: bv6 -> bv32, r: bv32, k: KeyPair)
    ensures F(EMPTY.(s1 := t), Rol(r), k) == t(Input1(r, k)) && F(EMPTY.(s2 := t), Rol(r), k) == t(Input2(r, k))
    ensures F(EMPTY.(s3 := t), Rol(r), k) == t(Input3(r, k)) && F(EMPTY.(s4 := t), Rol(r), k) == t(Input4(r, k))
    ensures F(EMPTY.(s5 := t), Rol(r), k) == t(Input5(r, k)) && F(EMPTY.(s6 := t), Rol(r), k) == t(Input6(r, k))
    ensures F(EMPTY.(s7 := t), Rol(r), k) == t(Input7(r, k)) && F(EMPTY.(s8 := t), Rol(r), k) == t(Input8(r, k))
  {
    SixesAreInputs(r, k);
    FoundAlone(t, Inputs(r, k));
  }

  lemma FoundAlone(t: bv6 -> bv32, i: seq<bv6>)
    requires |i| == 8
    ensures XorAll(Found(EMPTY.(s8 := t), i)) == t(i[0]) && XorAll(Found(EMPTY.(s6 := t), i)) == t(i[1])
    ensures XorAll(Found(EMPTY.(s4 := t), i)) == t(i[2]) && XorAll(Found(EMPTY.(s2 := t), i)) == t(i[3])
    ensures XorAll(Found(EMPTY.(s7 := t), i)) == t(i[4]) && XorAll(Found(EMPTY.(s5 := t), i)) == t(i[5])
    ensures XorAll(Found(EMPTY.(s3 := t), i)) == t(i[6]) && XorAll(Found(EMPTY.(s1 := t), i)) == t(i[7])
  {
    XorOnly(Found(EMPTY.(s8 := t), i), 0);
    XorOnly(Found(EMPTY.(s6 := t), i), 1);
    XorOnly(Found(EMPTY.(s4 := t), i), 2);
    XorOnly(Found(EMPTY.(s2 := t), i), 3);
    XorOnly(Found(EMPTY.(s7 := t), i), 4);
    XorOnly(Found(EMPTY.(s5 := t), i), 5);
    XorOnly(Found(EMPTY.(s3 := t), i), 6);
    XorOnly(Found(EMPTY.(s1 := t), i), 7);
  }

  const EMPTY: SBoxes := SBoxes(Nothing(), Nothing(), Nothing(), Nothing(), Nothing(), Nothing(), Nothing(), Nothing())

  lemma TurnedXor(l: bv32, m: bv32)
    ensures Rol(l) ^ m == Rol(l ^ TurnedRight(m))
  {
  }

  lemma MaskTurned(s: SBoxes, l: bv32, r: bv32, k: KeyPair)
    ensures MaskOf(s)(Rol(l), Rol(r), k) == Rol(l ^ TurnedRight(Mixed(s, r, k)))
  {
    MixesByBits(s, r, k);
    TurnedXor(l, Mixed(s, r, k));
  }

  function Turner(): bv32 -> bv32 { (w: bv32) => Rol(w) }

  lemma MasksTurned(s: SBoxes)
    ensures TurnsLike(MaskOf(s), MixerOf(s), Turner())
  {
    forall l: bv32, r: bv32, k: KeyPair
      ensures MaskOf(s)(Turner()(l), Turner()(r), k) == Turner()(MixerOf(s)(l, r, k))
    {
      MaskTurned(s, l, r, k);
    }
  }

  ghost predicate TurnsLike(m: Mask<bv32, KeyPair>, g: Mixer, turn: bv32 -> bv32)
  {
    forall l, r, k :: m(turn(l), turn(r), k) == turn(g(l, r, k))
  }

  /** Rounds on turned halves are the standard's rounds, turned. */
  lemma {:induction false} RoundsTurned(m: Mask<bv32, KeyPair>, g: Mixer, turn: bv32 -> bv32, ks: seq<KeyPair>, l: bv32, r: bv32)
    requires TurnsLike(m, g, turn)
    ensures var (l', r') := HalvesOf(g, ks, l, r);
            Rounds(m, Block(turn(l), turn(r)), ks) == Block(turn(l'), turn(r'))
    decreases |ks|
  {
    if ks != [] {
      RoundsTurned(m, g, turn, ks[1..], r, g(l, r, ks[0]));
    }
  }

  lemma RolInjective(a: bv32, b: bv32)
    requires Rol(a) == Rol(b)
    ensures a == b
  {
    Rotations(a);
    Rotations(b);
  }

  /** A block is enciphered as the standard says, bit for bit, whatever the tables and round keys. */
  lemma CipherIsStandard(s: SBoxes, ks: seq<KeyPair>, input: Octets8)
    ensures Enciphers(s, ks, input, CipherOf(MaskOf(s), ks)(input))
  {
    var (l, r) := HalvesOf(MixerOf(s), ks, Left(input), Right(input));
    Rows(input);
    MasksTurned(s);
    RoundsTurned(MaskOf(s), MixerOf(s), Turner(), ks, Left(input), Right(input));
    var pre := Block(Rol(r), Rol(l));
    var output := CipherOf(MaskOf(s), ks)(input);
    assert output == PutBlock(FP(pre));
    BlockRoundTrip(FP(pre));
    PermutationsInverse(pre);
    Rows(output);
    RolInjective(Left(output), r);
    RolInjective(Right(output), l);
  }

  /* ---- what runs ---- */

  function Pairs(sk: seq<bv32>): (r: seq<KeyPair>)
    requires |sk| == 32
    ensures |r| == 16 && forall i :: 0 <= i < 16 ==> r[i] == KeyPair(sk[2 * i], sk[2 * i + 1])
  {
    seq(16, i requires 0 <= i < 16 => KeyPair(sk[2 * i], sk[2 * i + 1]))
  }

  /** des_crypt: one block under one schedule. */
  method DesCrypt(s: SBoxes, sk: seq<bv32>, input: Octets8) returns (r: Octets8)
    requires |sk| == 32
    ensures r == CipherOf(MaskOf(s), Pairs(sk))(input) && Enciphers(s, Pairs(sk), input, r)
  {
    CipherIsStandard(s, Pairs(sk), input);
    var x, y := RunRounds(MaskOf(s), Pairs(sk), IP(GetBlock(input)));
    r := PutBlock(FP(Block(y, x)));
  }

  /** crypt_des_decode turns the schedule round pair by pair, keeping each pair's order. */
  method ReverseSchedule(esk: array<bv32>, sk: array<bv32>)
    requires esk.Length == 32 && sk.Length == 32 && esk != sk
    modifies sk
    ensures Pairs(sk[..]) == Reversed(Pairs(esk[..]))
  {
    var i := 0;
    while i < 32
      invariant 0 <= i <= 32 && i % 2 == 0
      invariant forall j :: 0 <= j < i / 2 ==> sk[2 * j] == esk[30 - 2 * j] && sk[2 * j + 1] == esk[31 - 2 * j]
    {
      sk[i], sk[i + 1] := esk[30 - i], esk[31 - i];
      i := i + 2;
    }
  }

  /** crypt_des_encode under a key schedule. */
  method DesEncode(s: SBoxes, sk: array<bv32>, text: seq<bv8>, mode: Padding) returns (out: array<bv8>)
    requires sk.Length == 32
    ensures fresh(out) && out[..] == CryptAll(CipherOf(MaskOf(s), Pairs(sk[..])), Padded(mode, text))
  {
    out := DesText.Encode(CipherOf(MaskOf(s), Pairs(sk[..])), text, mode);
  }

  /** crypt_des_decode under the same schedule, turned round first: what was encoded is given back. */
  method DesDecode(s: SBoxes, esk: array<bv32>, text: seq<bv8>, mode: Padding) returns (r: Option<seq<bv8>>)
    requires esk.Length == 32 && |text| > 0 && |text| % 8 == 0
    ensures forall t :: Encoded(s, Pairs(esk[..]), mode, t, text) ==> r == Some(t)
  {
    var sk := new bv32[32];
    ReverseSchedule(esk, sk);
    ghost var ks := Pairs(esk[..]);
    r := DesText.Decode(CipherOf(MaskOf(s), Pairs(sk[..])), text, mode);
    forall t | Encoded(s, ks, mode, t, text)
      ensures r == Some(t)
    {
      DecodeEncode(s, ks, t, mode);
    }
  }

  /** text is what encoding t under the schedule gives. */
  ghost predicate Encoded(s: SBoxes, ks: seq<KeyPair>, mode: Padding, t: seq<bv8>, text: seq<bv8>)
  {
    text == CryptAll(CipherOf(MaskOf(s), ks), Padded(mode, t))
  }
}
