/** The text level of crypt_des_encode and crypt_des_decode: whole blocks, a padded tail, and the
    padding checked on the way back. The block cipher is a parameter: des_crypt under one schedule. */
module DesText {
  import opened Wrappers

  type Octets8 = b: seq<bv8> | |b| == 8 witness [0, 0, 0, 0, 0, 0, 0, 0]

  type Cipher = Octets8 -> Octets8

  function CryptAll(c: Cipher, b: seq<bv8>): (r: seq<bv8>)
    ensures |r| == |b| / 8 * 8
  {
    if |b| < 8 then [] else c(b[..8]) + CryptAll(c, b[8..])
  }

  lemma {:induction false} CryptAllAppend(c: Cipher, a: seq<bv8>, b: seq<bv8>)
    requires |a| % 8 == 0
    ensures CryptAll(c, a + b) == CryptAll(c, a) + CryptAll(c, b)
  {
    if a == [] {
      assert a + b == b;
    } else {
      CryptAllAppend(c, a[8..], b);
      assert (a + b)[..8] == a[..8] && (a + b)[8..] == a[8..] + b;
    }
  }

  /** Each block of a text is enciphered by itself, in its place. */
  lemma {:induction false} CryptAllBlock(c: Cipher, b: seq<bv8>, i: nat)
    requires 8 * i + 8 <= |b|
    ensures CryptAll(c, b)[8 * i..8 * i + 8] == c(b[8 * i..8 * i + 8])
  {
    if i > 0 {
      CryptAllBlock(c, b[8..], i - 1);
      assert b[8..][8 * (i - 1)..8 * (i - 1) + 8] == b[8 * i..8 * i + 8];
      assert CryptAll(c, b)[8 * i..8 * i + 8] == CryptAll(c, b[8..])[8 * (i - 1)..8 * (i - 1) + 8];
    }
  }

  lemma CryptAllOne(c: Cipher, b: Octets8)
    ensures CryptAll(c, b) == c(b)
  {
    assert b[..8] == b && CryptAll(c, b[8..]) == [];
  }

  /** If d undoes c on every block then it does on every text of whole blocks. */
  lemma {:induction false} CryptAllUndone(c: Cipher, d: Cipher, b: seq<bv8>)
    requires forall x: Octets8 :: d(c(x)) == x
    requires |b| % 8 == 0
    ensures CryptAll(d, CryptAll(c, b)) == b
  {
    if |b| >= 8 {
      CryptAllUndone(c, d, b[8..]);
      var x: Octets8, z := c(b[..8]), CryptAll(c, b[8..]);
      assert (x + z)[..8] == x && (x + z)[8..] == z;
    }
  }

  datatype Padding = Iso7816 | Pkcs7

  function Fill(n: nat, v: bv8): (r: seq<bv8>)
    ensures |r| == n && forall i :: 0 <= i < n ==> r[i] == v
  {
    if n == 0 then [] else [v] + Fill(n - 1, v)
  }

  function Octet(n: nat): (b: bv8)
    requires 1 <= n <= 8
    ensures b as int == n
  {
    match n
    case 1 => 1
    case 2 => 2
    case 3 => 3
    case 4 => 4
    case 5 => 5
    case 6 => 6
    case 7 => 7
    case _ => 8
  }

  /** The bytes pad_add_iso or pad_add_pkcs7 put after `off` bytes of the last block. */
  function PadBytes(mode: Padding, off: nat): (r: seq<bv8>)
    requires off < 8
    ensures |r| == 8 - off
  {
    match mode
    case Iso7816 => [0x80] + Fill(7 - off, 0)
    case Pkcs7 => Fill(8 - off, Octet(8 - off))
  }

  function Padded(mode: Padding, text: seq<bv8>): (r: seq<bv8>)
    ensures |r| % 8 == 0 && |text| < |r| <= |text| + 8 && text <= r
  {
    text + PadBytes(mode, |text| % 8)
  }

  /** b ends in a padding of p bytes. */
  predicate EndsInPad(mode: Padding, b: seq<bv8>, p: int)
  {
    1 <= p <= 8 && p <= |b| &&
    match mode
    case Iso7816 => b[|b| - p] == 0x80 && forall i :: |b| - p < i < |b| ==> b[i] == 0
    case Pkcs7 => forall i :: |b| - p <= i < |b| ==> b[i] as int == p
  }

  /** A text ends in at most one padding. */
  lemma PadUnique(mode: Padding, b: seq<bv8>, p: int, q: int)
    requires EndsInPad(mode, b, p) && EndsInPad(mode, b, q)
    ensures p == q
  {
    var last := |b| - 1;
    if mode == Pkcs7 {
      assert b[last] as int == p;
    }
  }

  /** A padding is there, and every padding b could be read as leaves the text: what the outcome of
      Decode comes to. */
  ghost predicate ReadsBack(mode: Padding, b: seq<bv8>, text: seq<bv8>)
  {
    && (exists p :: EndsInPad(mode, b, p))
    && forall p :: EndsInPad(mode, b, p) ==> b[..|b| - p] == text
  }

  lemma PadRecognised(mode: Padding, text: seq<bv8>)
    ensures var p := 8 - |text| % 8;
            EndsInPad(mode, Padded(mode, text), p) && Padded(mode, text)[..|Padded(mode, text)| - p] == text
  {
  }

  /** pad_rm_iso: count zero bytes back from the end, up to the marker. */
  method RemoveIso(b: seq<bv8>) returns (p: int)
    requires |b| >= 8
    ensures p == 0 || EndsInPad(Iso7816, b, p)
    ensures p == 0 ==> forall q :: !EndsInPad(Iso7816, b, q)
  {
    p := 1;
    var i := 0;
    while i < 8
      invariant 0 <= i <= 8 && p == i + 1
      invariant forall j :: |b| - i <= j < |b| ==> b[j] == 0
    {
      var last := b[|b| - 1 - i];
      if last == 0x80 {
        return p;
      }
      if last != 0 {
        forall q
          ensures !EndsInPad(Iso7816, b, q)
        {
          assert 1 <= q <= i ==> b[|b| - q] == 0;
        }
        return 0;
      }
      p, i := p + 1, i + 1;
    }
    forall q
      ensures !EndsInPad(Iso7816, b, q)
    {
      assert 1 <= q <= 8 ==> b[|b| - q] == 0;
    }
    return 0;
  }

  /** pad_rm_pkcs7: the last byte says how many bytes must equal it. More than eight are refused by
      the caller whatever the bytes before the text hold, so the count stops at its front. */
  method RemovePkcs7(b: seq<bv8>) returns (p: int)
    requires |b| >= 8
    ensures 1 <= p <= 8 ==> EndsInPad(Pkcs7, b, p)
    ensures !(1 <= p <= 8) ==> forall q :: !EndsInPad(Pkcs7, b, q)
  {
    var v := b[|b| - 1];
    p := v as int;
    ghost var n := p;
    forall q | EndsInPad(Pkcs7, b, q)
      ensures q == n
    {
      assert b[|b| - 1] as int == q;
    }
    var i := 1;
    while i < p && i < |b|
      invariant 1 <= i <= |b| && p == n
      invariant forall j :: |b| - i <= j < |b| ==> b[j] == v
      invariant i <= p || p == 0
    {
      if b[|b| - 1 - i] != v {
        return 0;
      }
      i := i + 1;
    }
  }

  /** Encrypt one block of text to its place in out. */
  method PutCrypted(c: Cipher, block: Octets8, out: array<bv8>, at: nat)
    requires at + 8 <= out.Length
    modifies out
    ensures out[..at + 8] == old(out[..at]) + c(block)
  {
    var r := c(block);
    forall i | 0 <= i < 8 {
      out[at + i] := r[i];
    }
  }

  /** The loop both entry points share: every whole block of text, encrypted into out. */
  method CryptLoop(c: Cipher, text: seq<bv8>, out: array<bv8>) returns (i: nat)
    requires |text| / 8 * 8 <= out.Length
    modifies out
    ensures i == |text| / 8 * 8 && out[..i] == CryptAll(c, text[..i])
  {
    i := 0;
    while i + 7 < |text|
      invariant 0 <= i <= |text| / 8 * 8 && i % 8 == 0
      invariant out[..i] == CryptAll(c, text[..i])
    {
      var block := text[i..i + 8];
      PutCrypted(c, block, out, i);
      CryptAllAppend(c, text[..i], block);
      CryptAllOne(c, block);
      assert text[..i + 8] == text[..i] + block;
      i := i + 8;
    }
  }

  lemma Sizes(n: nat)
    ensures n / 8 * 8 + 8 == (n + 8) / 8 * 8 && n - n / 8 * 8 == n % 8 && n / 8 * 8 % 8 == 0 && n / 8 * 8 <= n
  {
  }

  lemma EncodedTail(c: Cipher, text: seq<bv8>, mode: Padding, i: nat, tail: Octets8)
    requires i <= |text| && i % 8 == 0 && |text| - i == |text| % 8 && tail == text[i..] + PadBytes(mode, |text| % 8)
    ensures CryptAll(c, Padded(mode, text)) == CryptAll(c, text[..i]) + c(tail)
  {
    CryptAllAppend(c, text[..i], tail);
    CryptAllOne(c, tail);
    assert Padded(mode, text) == text[..i] + tail;
  }

  /** crypt_des_encode: whole blocks, then the padded tail. */
  method Encode(c: Cipher, text: seq<bv8>, mode: Padding) returns (out: array<bv8>)
    ensures fresh(out) && out[..] == CryptAll(c, Padded(mode, text))
  {
    Sizes(|text|);
    out := new bv8[(|text| + 8) / 8 * 8];
    var i := CryptLoop(c, text, out);
    var tail := text[i..] + PadBytes(mode, |text| - i);
    PutCrypted(c, tail, out, i);
    EncodedTail(c, text, mode, i, tail);
    assert out[..] == out[..i + 8];
  }

  /** crypt_des_decode: every block deciphered, then the padding is checked. */
  method Decode(d: Cipher, text: seq<bv8>, mode: Padding) returns (r: Option<seq<bv8>>)
    requires |text| > 0 && |text| % 8 == 0
    ensures var b := CryptAll(d, text);
            if r.Some? then exists p :: EndsInPad(mode, b, p) && r.value == b[..|b| - p]
            else forall p :: !EndsInPad(mode, b, p)
  {
    var out := new bv8[|text|];
    var n := CryptLoop(d, text, out);
    var b := out[..];
    assert b == out[..n] && text[..n] == text;
    var p;
    if mode == Iso7816 {
      p := RemoveIso(b);
    } else {
      p := RemovePkcs7(b);
    }
    if p <= 0 || p > 8 {
      return None;
    }
    assert EndsInPad(mode, b, p);
    return Some(b[..|b| - p]);
  }

  /** If d undoes c, what Decode promises of an encoded text is the text: a padding is there, and
      every padding it could be read as leaves the text. */
  lemma DecodeEncode(c: Cipher, d: Cipher, text: seq<bv8>, mode: Padding)
    requires forall x: Octets8 :: d(c(x)) == x
    ensures ReadsBack(mode, CryptAll(d, CryptAll(c, Padded(mode, text))), text)
  {
    var b, n := Padded(mode, text), 8 - |text| % 8;
    CryptAllUndone(c, d, b);
    PadRecognised(mode, text);
    assert EndsInPad(mode, b, n);
    forall p | EndsInPad(mode, b, p)
      ensures p == n
    {
      PadUnique(mode, b, p, n);
    }
  }
}
