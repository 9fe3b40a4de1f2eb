/** text-codec.js and isUtf8 of buffer-core.js: 16-bit strings to UTF-8 and back (RFC 3629). */
module Utf8 {
  import opened Wrappers
  import opened Bytes

  type Unit = u: int | 0 <= u < 0x1_0000
  type Units = seq<Unit>

  /** The source's tests and shifts on single bytes, and the ranges and remainders used for them here. */
  lemma BitTests(b: bv8)
    ensures (b & 0xe0 == 0xc0) <==> 0xc0 <= b < 0xe0
    ensures (b & 0xf0 == 0xe0) <==> 0xe0 <= b < 0xf0
    ensures (b & 0xf8 == 0xf0) <==> 0xf0 <= b < 0xf8
    ensures (b & 0xc0 == 0x80) <==> 0x80 <= b < 0xc0
    ensures b & 0x3f == b % 64 && b & 0x1f == b % 32 && b & 0x0f == b % 16 && b & 0x07 == b % 8
  {
  }

  predicate High(u: int) { 0xd800 <= u <= 0xdbff }
  predicate Low(u: int) { 0xdc00 <= u <= 0xdfff }
  predicate Surrogate(u: int) { 0xd800 <= u <= 0xdfff }

  /* ---- one code point ---- */

  /** The code point a string starts with: a surrogate pair, or one unit, lone surrogates included. */
  function Lead(s: Units): (cp: int)
    requires s != []
    ensures 0 <= cp < 0x11_0000
  {
    if |s| >= 2 && High(s[0]) && Low(s[1]) then 0x1_0000 + (s[0] as int - 0xd800) * 0x400 + (s[1] as int - 0xdc00)
    else s[0]
  }

  /** String.fromCharCode for a code point, split in two above the basic plane. */
  function Spell(cp: int): (s: Units)
    requires 0 <= cp < 0x20_0000
    ensures 1 <= |s| <= 2
  {
    if cp > 0xffff then [(0xd800 + (cp - 0x1_0000) / 0x400) % 0x1_0000, 0xdc00 + (cp - 0x1_0000) % 0x400] else [cp]
  }

  lemma SpellLead(s: Units)
    requires s != []
    ensures Spell(Lead(s)) <= s
  {
  }

  /** cp without its low k groups of six bits. */
  function Top(cp: nat, k: nat): nat { if k == 0 then cp else Top(cp / 64, k - 1) }

  /** The low k groups of six bits, one in each continuation byte. */
  function Tail(cp: nat, k: nat): (b: Bytes)
    ensures |b| == k
  {
    if k == 0 then [] else Tail(cp / 64, k - 1) + [0x80 + cp % 64]
  }

  /** How many continuation bytes a code point takes. */
  function Need(cp: int): nat { if cp < 0x80 then 0 else if cp < 0x800 then 1 else if cp < 0x1_0000 then 2 else 3 }

  /** What marks the first byte of a code point of k continuation bytes. */
  function Mark(k: nat): Byte { if k == 0 then 0 else if k == 1 then 0xc0 else if k == 2 then 0xe0 else 0xf0 }

  function EncodePoint(cp: int): (b: Bytes)
    requires 0 <= cp < 0x11_0000
    ensures |b| == 1 + Need(cp)
  {
    TopFits(cp);
    [Mark(Need(cp)) as int + Top(cp, Need(cp))] + Tail(cp, Need(cp))
  }

  lemma TopFits(cp: nat)
    ensures cp < 0x800 ==> Top(cp, 1) < 32
    ensures cp < 0x1_0000 ==> Top(cp, 2) < 16
    ensures cp < 0x20_0000 ==> Top(cp, 3) < 8
  {
    assert Top(cp, 2) == Top(cp / 64, 1) == cp / 64 / 64;
    assert Top(cp, 3) == Top(cp / 64, 2) == Top(cp / 64 / 64, 1) == cp / 64 / 64 / 64;
  }

  /** The bytes as encodeUtf8 shifts them out. */
  lemma PointBytes(cp: int)
    requires 0 <= cp < 0x11_0000
    ensures EncodePoint(cp) ==
            if cp < 0x80 then [cp]
            else if cp < 0x800 then [0xc0 + cp / 64, 0x80 + cp % 64]
            else if cp < 0x1_0000 then [0xe0 + cp / 4096, 0x80 + cp / 64 % 64, 0x80 + cp % 64]
            else [0xf0 + cp / 262144, 0x80 + cp / 4096 % 64, 0x80 + cp / 64 % 64, 0x80 + cp % 64]
  {
    assert Top(cp, 0) == cp && Top(cp, 1) == Top(cp / 64, 0) == cp / 64;
    assert Tail(cp, 0) == [];
    assert cp / 64 / 64 == cp / 4096 && cp / 64 / 64 / 64 == cp / 262144;
    assert Top(cp, 2) == Top(cp / 64, 1) == cp / 64 / 64;
    assert Top(cp, 3) == Top(cp / 64, 2) == Top(cp / 64 / 64, 1) == cp / 64 / 64 / 64;
    assert Tail(cp, 1) == [0x80 + cp % 64];
    assert Tail(cp, 2) == Tail(cp / 64, 1) + [0x80 + cp % 64] == [0x80 + cp / 64 % 64, 0x80 + cp % 64];
    assert Tail(cp / 64, 2) == Tail(cp / 64 / 64, 1) + [0x80 + cp / 64 % 64];
    assert Tail(cp, 3) == Tail(cp / 64, 2) + [0x80 + cp % 64];
  }

  predicate Cont(b: Byte) { 0x80 <= b < 0xc0 }

  predicate Conts(b: Bytes, k: nat) { k <= |b| && forall i :: 0 <= i < k ==> Cont(b[i]) }

  /** Shift in the low six bits of k bytes. */
  function Gather(cp: nat, b: Bytes, k: nat): nat
    requires k <= |b|
  {
    if k == 0 then cp else Gather(cp, b, k - 1) * 64 + b[k - 1] as int % 64
  }

  lemma Gathered(cp: nat, b: Bytes)
    ensures |b| >= 1 ==> Gather(cp, b, 1) == cp * 64 + b[0] as int % 64
    ensures |b| >= 2 ==> Gather(cp, b, 2) == cp * 4096 + b[0] as int % 64 * 64 + b[1] as int % 64
    ensures |b| >= 3 ==>
              Gather(cp, b, 3) == cp * 262144 + b[0] as int % 64 * 4096 + b[1] as int % 64 * 64 + b[2] as int % 64
  {
    assert |b| >= 1 ==> Gather(cp, b, 1) == Gather(cp, b, 0) * 64 + b[0] as int % 64;
    assert |b| >= 2 ==> Gather(cp, b, 2) == Gather(cp, b, 1) * 64 + b[1] as int % 64;
    assert |b| >= 3 ==> Gather(cp, b, 3) == Gather(cp, b, 2) * 64 + b[2] as int % 64;
  }

  /** What a first byte announces: continuation bytes, its own bits, and the least code point. */
  function Head(b0: Byte): (r: Option<(nat, nat, nat)>)
    ensures r.Some? ==> r.value.0 <= 3
  {
    if b0 < 0x80 then Some((0, b0 as int, 0))
    else if 0xc0 <= b0 < 0xe0 then Some((1, b0 as int % 32, 0x80))
    else if 0xe0 <= b0 < 0xf0 then Some((2, b0 as int % 16, 0x800))
    else if 0xf0 <= b0 < 0xf8 then Some((3, b0 as int % 8, 0x1_0000))
    else None
  }

  /** What decodeUtf8 reads at the front: a code point and how many bytes it took. Anything malformed
      is U+FFFD for its first byte alone. */
  function DecodePoint(b: Bytes): (r: (int, nat))
    requires b != []
    ensures 0 <= r.0 < 0x20_0000 && 1 <= r.1 <= |b|
  {
    match Head(b[0])
    case None => (0xfffd, 1)
    case Some((need, top, _)) =>
      Gathered(top, b[1..]);
      if Conts(b[1..], need) then (Gather(top, b[1..], need), 1 + need) else (0xfffd, 1)
  }

  /** What decodeUtf8 reads at the front, in plain numbers: one byte below 0x80; two, three or four where
      the first announces them and the others continue it; and U+FFFD for the first byte alone where
      it announces nothing, or the bytes after it do not continue it. */
  lemma PointRead(b: Bytes)
    requires b != []
    ensures DecodePoint(b) ==
            if b[0] < 0x80 then (b[0] as int, 1)
            else if 0xc0 <= b[0] < 0xe0 && |b| >= 2 && 0x80 <= b[1] < 0xc0 then
              ((b[0] as int - 0xc0) * 64 + (b[1] as int - 0x80), 2)
            else if 0xe0 <= b[0] < 0xf0 && |b| >= 3 && 0x80 <= b[1] < 0xc0 && 0x80 <= b[2] < 0xc0 then
              ((b[0] as int - 0xe0) * 4096 + (b[1] as int - 0x80) * 64 + (b[2] as int - 0x80), 3)
            else if 0xf0 <= b[0] < 0xf8 && |b| >= 4 && 0x80 <= b[1] < 0xc0 && 0x80 <= b[2] < 0xc0 && 0x80 <= b[3] < 0xc0 then
              ((b[0] as int - 0xf0) * 262144 + (b[1] as int - 0x80) * 4096 + (b[2] as int - 0x80) * 64 + (b[3] as int - 0x80), 4)
            else (0xfffd, 1)
  {
    var h := Head(b[0]);
    if h.Some? {
      Gathered(h.value.1, b[1..]);
    }
  }

  lemma {:induction false} GatherTail(cp: nat, k: nat, s: Bytes)
    ensures Conts(Tail(cp, k) + s, k) && Gather(Top(cp, k), Tail(cp, k) + s, k) == cp
  {
    if k > 0 {
      var b := Tail(cp, k) + s;
      GatherTail(cp / 64, k - 1, [b[k - 1]] + s);
      assert b == Tail(cp / 64, k - 1) + ([b[k - 1]] + s);
    }
  }

  lemma {:induction false} TailGather(top: nat, c: Bytes, k: nat)
    requires Conts(c, k)
    ensures Tail(Gather(top, c, k), k) == c[..k] && Top(Gather(top, c, k), k) == top
  {
    if k > 0 {
      TailGather(top, c, k - 1);
      assert Gather(top, c, k) / 64 == Gather(top, c, k - 1);
      assert c[..k] == c[..k - 1] + [c[k - 1]];
    }
  }

  lemma HeadOfPoint(cp: int)
    requires 0 <= cp < 0x11_0000
    ensures var h := Head(EncodePoint(cp)[0]);
            h.Some? && h.value.0 == Need(cp) && h.value.1 == Top(cp, Need(cp)) && h.value.2 <= cp
  {
    TopFits(cp);
  }

  lemma PointRoundTrip(cp: int, s: Bytes)
    requires 0 <= cp < 0x11_0000
    ensures DecodePoint(EncodePoint(cp) + s) == (cp, |EncodePoint(cp)|)
  {
    var b := EncodePoint(cp) + s;
    HeadOfPoint(cp);
    assert b[1..] == Tail(cp, Need(cp)) + s;
    GatherTail(cp, Need(cp), s);
  }

  /* ---- strings ---- */

  function Encode(s: Units): Bytes
  {
    if s == [] then [] else EncodePoint(Lead(s)) + Encode(s[|Spell(Lead(s))|..])
  }

  function Decode(b: Bytes): Units
  {
    if b == [] then [] else Spell(DecodePoint(b).0) + Decode(b[DecodePoint(b).1..])
  }

  /** Decoding undoes encoding for every sequence of 16-bit units. */
  lemma {:induction false} DecodeEncode(s: Units)
    ensures Decode(Encode(s)) == s
  {
    if s != [] {
      var cp := Lead(s);
      SpellLead(s);
      var n, more := |Spell(cp)|, Encode(s[|Spell(cp)|..]);
      PointRoundTrip(cp, more);
      assert Encode(s)[|EncodePoint(cp)|..] == more;
      DecodeEncode(s[n..]);
      assert s == s[..n] + s[n..];
    }
  }

  /** Where no code point can be read, one U+FFFD stands for one byte, and reading goes on after it. */
  lemma MalformedRead(b: Bytes)
    requires b != [] && b[0] >= 0x80
    requires b[0] < 0xc0 || b[0] >= 0xf8 || |b| < 2 || b[1] < 0x80 || b[1] >= 0xc0
             || (b[0] >= 0xe0 && (|b| < 3 || b[2] < 0x80 || b[2] >= 0xc0))
             || (b[0] >= 0xf0 && (|b| < 4 || b[3] < 0x80 || b[3] >= 0xc0))
    ensures Decode(b) == [0xfffd] + Decode(b[1..])
  {
    PointRead(b);
  }

  lemma LeadIs(s: Units)
    requires s != []
    ensures if |s| >= 2 && 0xd800 <= s[0] <= 0xdbff && 0xdc00 <= s[1] <= 0xdfff
            then Lead(s) == 0x1_0000 + (s[0] as int - 0xd800) * 1024 + (s[1] as int - 0xdc00) && |Spell(Lead(s))| == 2
            else Lead(s) == s[0] as int && |Spell(Lead(s))| == 1
  {
  }

  lemma EncodeFirst(s: Units, cp: int, n: nat)
    requires s != [] && Lead(s) == cp && |Spell(cp)| == n
    ensures n <= |s| && Encode(s) == EncodePoint(cp) + Encode(s[n..])
  {
    SpellLead(s);
  }

  /** Units outside the pairs stand for themselves, and a pair for one code point above them. */
  lemma UnitsRead(s: Units)
    requires s != []
    ensures if |s| >= 2 && 0xd800 <= s[0] <= 0xdbff && 0xdc00 <= s[1] <= 0xdfff
            then Encode(s) == EncodePoint(0x1_0000 + (s[0] as int - 0xd800) * 1024 + (s[1] as int - 0xdc00)) + Encode(s[2..])
            else Encode(s) == EncodePoint(s[0]) + Encode(s[1..])
  {
    LeadIs(s);
    EncodeFirst(s, Lead(s), |Spell(Lead(s))|);
  }

  /** The examples of section 7 of RFC 3629: "A", not identical to, Alpha, "."; three Hangul letters; a
      Chinese character outside the basic plane. */
  lemma Section7()
    ensures Encode([0x41, 0x2262, 0x391, 0x2e]) == [0x41, 0xe2, 0x89, 0xa2, 0xce, 0x91, 0x2e]
    ensures Encode([0xd55c, 0xad6d, 0xc5b4]) == [0xed, 0x95, 0x9c, 0xea, 0xb5, 0xad, 0xec, 0x96, 0xb4]
    ensures Encode([0xd84c, 0xdfb4]) == [0xf0, 0xa3, 0x8e, 0xb4]
  {
    NotIdentical();
    Hangul();
    PointBytes(0x233b4);
    var none: Units := [];
    assert [0xd84c, 0xdfb4][2..] == none;
    assert Lead([0xd84c, 0xdfb4]) == 0x233b4;
  }

  lemma NotIdentical()
    ensures Encode([0x41, 0x2262, 0x391, 0x2e]) == [0x41, 0xe2, 0x89, 0xa2, 0xce, 0x91, 0x2e]
  {
    PointBytes(0x41);
    PointBytes(0x2262);
    PointBytes(0x391);
    PointBytes(0x2e);
    var none: Units := [];
    assert [0x41, 0x2262, 0x391, 0x2e][1..] == [0x2262, 0x391, 0x2e] && [0x2262, 0x391, 0x2e][1..] == [0x391, 0x2e];
    assert [0x391, 0x2e][1..] == [0x2e] && [0x2e][1..] == none && Encode([0x2e]) == [0x2e];
    assert Encode([0x391, 0x2e]) == [0xce, 0x91, 0x2e];
    assert Encode([0x2262, 0x391, 0x2e]) == [0xe2, 0x89, 0xa2, 0xce, 0x91, 0x2e];
  }

  lemma Hangul()
    ensures Encode([0xd55c, 0xad6d, 0xc5b4]) == [0xed, 0x95, 0x9c, 0xea, 0xb5, 0xad, 0xec, 0x96, 0xb4]
  {
    PointBytes(0xd55c);
    PointBytes(0xad6d);
    PointBytes(0xc5b4);
    var none: Units := [];
    assert [0xd55c, 0xad6d, 0xc5b4][1..] == [0xad6d, 0xc5b4] && [0xad6d, 0xc5b4][1..] == [0xc5b4] && [0xc5b4][1..] == none;
    assert Encode([0xc5b4]) == [0xec, 0x96, 0xb4];
    assert Encode([0xad6d, 0xc5b4]) == [0xea, 0xb5, 0xad, 0xec, 0x96, 0xb4];
  }

  /** No unpaired surrogate. */
  predicate WellFormed(s: Units)
  {
    s == [] || (!Surrogate(Lead(s)) && WellFormed(s[|Spell(Lead(s))|..]))
  }

  /* ---- validity ---- */

  predicate Allowed(cp: int, min: int) { min <= cp <= 0x10_ffff && !Surrogate(cp) }

  /** isUtf8. */
  predicate IsUtf8(b: Bytes)
  {
    b == [] ||
    match Head(b[0])
    case None => false
    case Some((need, cp, min)) =>
      Conts(b[1..], need) && Allowed(Gather(cp, b[1..], need), min) && IsUtf8(b[1 + need..])
  }

  lemma NeedOf(b0: Byte, c: Bytes)
    requires Head(b0).Some? && Conts(c, Head(b0).value.0)
    ensures var (need, top, min) := Head(b0).value;
            var cp := Gather(top, c, need);
            cp < 0x20_0000 && (min <= cp ==> Need(cp) == need) && b0 == Mark(need) as int + top
  {
    Gathered(Head(b0).value.1, c);
  }

  /** A code point isUtf8 accepts is one decodeUtf8 reads, and it is spelt as it was written. */
  lemma AcceptedPoint(b: Bytes)
    requires b != [] && Head(b[0]).Some?
    requires var (need, top, min) := Head(b[0]).value;
             Conts(b[1..], need) && Allowed(Gather(top, b[1..], need), min)
    ensures var (need, top, min) := Head(b[0]).value;
            && DecodePoint(b) == (Gather(top, b[1..], need), 1 + need)
            && EncodePoint(DecodePoint(b).0) == b[..1 + need]
  {
    var (need, top, min) := Head(b[0]).value;
    var cp := Gather(top, b[1..], need);
    TailGather(top, b[1..], need);
    NeedOf(b[0], b[1..]);
    assert b[..1 + need] == [b[0]] + b[1..][..need];
  }

  /** The encoding of a scalar value is accepted. */
  lemma PointAccepted(cp: int, s: Bytes)
    requires Allowed(cp, 0)
    ensures IsUtf8(EncodePoint(cp) + s) <==> IsUtf8(s)
  {
    var b := EncodePoint(cp) + s;
    HeadOfPoint(cp);
    assert b[1..] == Tail(cp, Need(cp)) + s;
    GatherTail(cp, Need(cp), s);
    assert b[1 + Need(cp)..] == s;
  }

  /** A spelt scalar value in front of well-formed text is read as itself. */
  lemma LeadSpell(cp: int, t: Units)
    requires Allowed(cp, 0) && WellFormed(t)
    ensures Lead(Spell(cp) + t) == cp && (Spell(cp) + t)[|Spell(cp)|..] == t
  {
  }

  lemma TextStep(cp: int, t: Units)
    requires Allowed(cp, 0) && WellFormed(t)
    ensures WellFormed(Spell(cp) + t) && Encode(Spell(cp) + t) == EncodePoint(cp) + Encode(t)
  {
    LeadSpell(cp, t);
  }

  lemma {:induction false} AcceptedText(b: Bytes)
    requires IsUtf8(b)
    ensures WellFormed(Decode(b)) && Encode(Decode(b)) == b
  {
    if b != [] {
      AcceptedPoint(b);
      var n := DecodePoint(b).1;
      AcceptedText(b[n..]);
      TextStep(DecodePoint(b).0, Decode(b[n..]));
      assert b == b[..n] + b[n..];
    }
  }

  lemma {:induction false} TextAccepted(s: Units)
    requires WellFormed(s)
    ensures IsUtf8(Encode(s))
  {
    if s != [] {
      TextAccepted(s[|Spell(Lead(s))|..]);
      PointAccepted(Lead(s), Encode(s[|Spell(Lead(s))|..]));
    }
  }

  /** isUtf8 accepts exactly the encodings of well-formed text, and then nothing is lost by decoding
      and encoding again. */
  lemma IsUtf8Iff(b: Bytes)
    ensures IsUtf8(b) <==> exists s :: WellFormed(s) && Encode(s) == b
    ensures IsUtf8(b) <==> WellFormed(Decode(b)) && Encode(Decode(b)) == b
  {
    if IsUtf8(b) {
      AcceptedText(b);
    }
    if s: Units :| WellFormed(s) && Encode(s) == b {
      TextAccepted(s);
    }
  }

  /* ---- the loops ---- */

  method EncodeUtf8(text: Units) returns (out: Bytes)
    ensures out == Encode(text)
  {
    out := [];
    var i := 0;
    while i < |text|
      invariant 0 <= i <= |text|
      invariant out + Encode(text[i..]) == Encode(text)
    {
      var cp := text[i] as int;
      ghost var rest, before := text[i..], out;
      if High(cp) && i + 1 < |text| {
        var lo := text[i + 1] as int;
        if Low(lo) {
          cp := 0x1_0000 + (cp - 0xd800) * 0x400 + (lo - 0xdc00);
          i := i + 1;
        }
      }
      i := i + 1;
      assert cp == Lead(rest) && rest[|Spell(cp)|..] == text[i..];
      if cp < 0x80 {
        out := out + [cp];
      } else if cp < 0x800 {
        out := out + [0xc0 + cp / 64, 0x80 + cp % 64];
      } else if cp < 0x1_0000 {
        out := out + [0xe0 + cp / 4096, 0x80 + cp / 64 % 64, 0x80 + cp % 64];
      } else {
        out := out + [0xf0 + cp / 262144, 0x80 + cp / 4096 % 64, 0x80 + cp / 64 % 64, 0x80 + cp % 64];
      }
      PointBytes(cp);
      assert out == before + EncodePoint(cp);
      Assoc(before, EncodePoint(cp), Encode(text[i..]));
    }
  }

  /** One turn of decodeUtf8's loop: one code point read at i, and where the next one starts. */
  method ReadPoint(bytes: Bytes, at: nat) returns (cp: int, i: nat)
    requires at < |bytes|
    ensures at < i <= |bytes| && 0 <= cp < 0x20_0000
    ensures Decode(bytes[at..]) == Spell(cp) + Decode(bytes[i..])
  {
    cp, i := TakePoint(bytes, at);
    assert bytes[at..][i - at..] == bytes[i..];
  }

  method TakePoint(bytes: Bytes, at: nat) returns (cp: int, i: nat)
    requires at < |bytes|
    ensures at < i <= |bytes| && (cp, i - at) == DecodePoint(bytes[at..])
  {
    ghost var c := bytes[at..][1..];
    assert forall j :: at < j < |bytes| ==> bytes[j] == c[j - at - 1];
    var b0 := bytes[at] as int;
    i := at + 1;
    cp := 0xfffd;
    if b0 < 0x80 {
      cp := b0;
    } else if 0xc0 <= b0 < 0xe0 {
      if i < |bytes| && Cont(bytes[i]) {
        Gathered(b0 % 32, c);
        cp := b0 % 32 * 64 + bytes[i] as int % 64;
        i := i + 1;
      }
    } else if 0xe0 <= b0 < 0xf0 {
      if i + 1 < |bytes| && Cont(bytes[i]) && Cont(bytes[i + 1]) {
        Gathered(b0 % 16, c);
        cp := b0 % 16 * 4096 + bytes[i] as int % 64 * 64 + bytes[i + 1] as int % 64;
        i := i + 2;
      }
    } else if 0xf0 <= b0 < 0xf8 {
      if i + 2 < |bytes| && Cont(bytes[i]) && Cont(bytes[i + 1]) && Cont(bytes[i + 2]) {
        Gathered(b0 % 8, c);
        cp := b0 % 8 * 262144 + bytes[i] as int % 64 * 4096 + bytes[i + 1] as int % 64 * 64 + bytes[i + 2] as int % 64;
        i := i + 3;
      }
    }
  }

  /** String.fromCharCode, of one unit or of a surrogate pair. */
  method FromCharCode(cp: int) returns (s: Units)
    requires 0 <= cp < 0x20_0000
    ensures s == Spell(cp)
  {
    if cp > 0xffff {
      var low := cp - 0x1_0000;
      return [(0xd800 + low / 0x400) % 0x1_0000, 0xdc00 + low % 0x400];
    }
    return [cp];
  }

  method DecodeUtf8(bytes: Bytes) returns (out: Units)
    ensures out == Decode(bytes)
  {
    out := [];
    var i := 0;
    while i < |bytes|
      invariant 0 <= i <= |bytes|
      invariant out + Decode(bytes[i..]) == Decode(bytes)
    {
      var cp;
      cp, i := ReadPoint(bytes, i);
      var s := FromCharCode(cp);
      Assoc(out, s, Decode(bytes[i..]));
      out := out + s;
    }
  }

  method CheckUtf8(bytes: Bytes) returns (ok: bool)
    ensures ok == IsUtf8(bytes)
  {
    var i := 0;
    while i < |bytes|
      invariant 0 <= i <= |bytes|
      invariant IsUtf8(bytes[i..]) == IsUtf8(bytes)
    {
      ghost var rest := bytes[i..];
      var b0 := bytes[i] as int;
      i := i + 1;
      if b0 < 0x80 {
        assert Gather(b0, rest[1..], 0) == b0;
        continue;
      }
      var need, cp, min;
      if 0xc0 <= b0 < 0xe0 {
        need, cp, min := 1, b0 % 32, 0x80;
      } else if 0xe0 <= b0 < 0xf0 {
        need, cp, min := 2, b0 % 16, 0x800;
      } else if 0xf0 <= b0 < 0xf8 {
        need, cp, min := 3, b0 % 8, 0x1_0000;
      } else {
        return false;
      }
      ghost var top, start := cp, i;
      assert Head(rest[0]) == Some((need, top, min));
      var k := 0;
      while k < need
        invariant 0 <= k <= need && i == start + k <= |bytes|
        invariant Conts(rest[1..], k) && cp == Gather(top, rest[1..], k)
      {
        if i >= |bytes| || !Cont(bytes[i]) {
          return false;
        }
        cp := cp * 64 + bytes[i] as int % 64;
        i, k := i + 1, k + 1;
      }
      if !Allowed(cp, min) {
        return false;
      }
      assert rest[1 + need..] == bytes[i..];
    }
    return true;
  }
}
