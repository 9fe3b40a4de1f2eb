/** The wire formats byte by byte, in plain numbers: the cluster protocol and the gate's packets
    (skyclusterd.c, js-net.c), the value format (js-seri.c) and websocket frames (RFC 6455). */
module Formats {
  import opened Wrappers
  import opened Bytes
  import opened Framing
  import opened ClusterWire
  import S = Seri
  import W = WebSocket

  /** A 32-bit number, its lowest byte first. */
  function D4(n: U32): (r: Bytes)
    ensures |r| == 4
  {
    [n % 256, n / 0x100 % 256, n / 0x1_0000 % 256, n / 0x100_0000]
  }

  lemma LowFirst(n: U32)
    ensures LE32(n) == D4(n)
  {
    assert n / 0x100 / 0x100 == n / 0x1_0000 && n / 0x1_0000 / 0x100 == n / 0x100_0000;
    assert LE(n / 0x100_0000, 1) == [n / 0x100_0000 % 256] + [];
    assert LE(n / 0x1_0000, 2) == [n / 0x1_0000 % 256] + LE(n / 0x100_0000, 1);
    assert LE(n / 0x100, 3) == [n / 0x100 % 256] + LE(n / 0x1_0000, 2);
  }

  lemma OneByte(n: nat)
    requires n < 256
    ensures LE(n, 1) == [n]
  {
    assert LE(n, 1) == [n % 256] + LE(n / 256, 0);
  }

  lemma LowFirst2(n: nat)
    requires n < 0x1_0000
    ensures LE(n, 2) == [n % 256, n / 256]
  {
    OneByte(n / 256);
    assert LE(n, 2) == [n % 256] + LE(n / 256, 1);
  }

  /** A frame: its length, high byte first, and its bytes. */
  lemma FrameBytes(p: Bytes)
    requires |p| < 65536
    ensures Pack(p) == [|p| / 256, |p| % 256] + p
  {
  }

  /* ---- cluster requests ---- */

  /** A request of fewer than 32768 bytes is one frame: type 0 and the address, or type 0x80 and the
      name behind its length; the session, 0 for a push; the payload. */
  lemma SmallRequestBytes(session: U32, t: Target, payload: Bytes, push: bool)
    requires ValidTarget(t) && |payload| < 32768
    ensures RequestFrames(session, t, payload, push) ==
            [(match t case Addr(a) => [0] + D4(a) case Named(n) => [0x80, |n|] + n) + D4(if push then 0 else session) + payload]
  {
    LowFirst(if push then 0 else session);
    if t.Addr? {
      LowFirst(t.addr);
    }
  }

  /** A longer one is a header with the total length, of type 1 or 0x81, or 0x41 or 0xc1 for a push,
      and then the parts. */
  lemma LargeRequestBytes(session: U32, t: Target, payload: Bytes, push: bool)
    requires ValidTarget(t) && 32768 <= |payload| < TWO_32
    ensures RequestFrames(session, t, payload, push) ==
            [(match t
              case Addr(a) => [if push then 0x41 else 1] + D4(a)
              case Named(n) => [if push then 0xc1 else 0x81, |n|] + n) + D4(if push then 0 else session) + D4(|payload|)]
            + Parts(session, payload)
  {
    LowFirst(if push then 0 else session);
    assert |payload| % TWO_32 == |payload|;
    LowFirst(|payload|);
    if t.Addr? {
      LowFirst(t.addr);
    }
  }

  /** Part i of a payload: 32768 bytes of it, or what is left. */
  function PartOf(p: Bytes, i: nat): Bytes
    requires 32768 * i <= |p|
  {
    if |p| - 32768 * i <= 32768 then p[32768 * i..] else p[32768 * i..32768 * i + 32768]
  }

  lemma PartOfRest(p: Bytes, i: nat)
    requires i > 0 && 32768 * i <= |p|
    ensures PartOf(p, i) == PartOf(p[32768..], i - 1)
  {
  }

  /** The parts of a payload: type 2, and 3 for the last; the session; 32768 bytes each but the last. */
  lemma {:induction false} PartBytes(session: U32, p: Bytes, i: nat)
    requires 32768 * i < |p|
    ensures i < |Parts(session, p)| && (i == |Parts(session, p)| - 1 <==> |p| - 32768 * i <= 32768)
    ensures Parts(session, p)[i] == [if |p| - 32768 * i <= 32768 then 3 else 2] + D4(session) + PartOf(p, i)
    decreases |p|
  {
    LowFirst(session);
    if |p| > 32768 {
      if i > 0 {
        PartBytes(session, p[32768..], i - 1);
        PartOfRest(p, i);
      } else {
        PartBytes(session, p[32768..], 0);
      }
    }
  }

  /* ---- cluster responses ---- */

  /** A response of 32768 bytes or fewer is one frame: the session, 1 for success and 0 for an error,
      the data. */
  lemma SmallResponseBytes(session: U32, ok: bool, payload: Bytes)
    requires |payload| <= 32768
    ensures ResponseFrames(session, ok, payload) == [D4(session) + [if ok then 1 else 0] + payload]
  {
    LowFirst(session);
  }

  /** A longer one is a frame of type 2 with the total length, and then the parts. */
  lemma LargeResponseBytes(session: U32, ok: bool, payload: Bytes)
    requires 32768 < |payload| < TWO_32
    ensures ResponseFrames(session, ok, payload) == [D4(session) + [2] + D4(|payload|)] + ResponseParts(session, payload)
  {
    LowFirst(session);
    assert |payload| % TWO_32 == |payload|;
    LowFirst(|payload|);
  }

  /** The parts of a response: type 3, and 4 for the last; 32768 bytes each but the last. */
  lemma {:induction false} ResponsePartBytes(session: U32, p: Bytes, i: nat)
    requires 32768 * i < |p|
    ensures i < |ResponseParts(session, p)| && (i == |ResponseParts(session, p)| - 1 <==> |p| - 32768 * i <= 32768)
    ensures ResponseParts(session, p)[i] == D4(session) + [if |p| - 32768 * i <= 32768 then 4 else 3] + PartOf(p, i)
    decreases |p|
  {
    LowFirst(session);
    if |p| > 32768 {
      if i > 0 {
        ResponsePartBytes(session, p[32768..], i - 1);
        PartOfRest(p, i);
      } else {
        ResponsePartBytes(session, p[32768..], 0);
      }
    }
  }

  /* ---- values ---- */

  /** Nil, booleans, integers of 0, 1, 2 and 4 bytes and beyond them of 8, and other numbers: a type in
      the low three bits of the first byte, and above it a cookie that says how many bytes follow. */
  lemma ScalarBytes(n: int, bits: Bytes)
    ensures S.Encode(S.Null) == [0] && S.Encode(S.Undefined) == [0]
    ensures S.Encode(S.Boolean(false)) == [1] && S.Encode(S.Boolean(true)) == [1 + 8]
    ensures S.Encode(S.Real(bits)) == [2 + 8 * 8] + bits
    ensures n == 0 ==> S.Encode(S.Number(n)) == [2]
    ensures 0 < n < 0x100 ==> S.Encode(S.Number(n)) == [2 + 8 * 1, n]
    ensures 0x100 <= n < 0x1_0000 ==> S.Encode(S.Number(n)) == [2 + 8 * 2, n % 256, n / 256]
    ensures 0x1_0000 <= n < 0x8000_0000 ==> S.Encode(S.Number(n)) == [2 + 8 * 4] + D4(n)
    ensures -0x8000_0000 <= n < 0 ==> S.Encode(S.Number(n)) == [2 + 8 * 4] + D4(n + TWO_32)
    ensures n < -0x8000_0000 || n >= 0x8000_0000 ==>
              var w := n % TWO_64; S.Encode(S.Number(n)) == [2 + 8 * 6] + D4(w % TWO_32) + D4(w / TWO_32)
    ensures S.Encode(S.BigInt(n)) == S.Encode(S.Number(n))
  {
    if 0 < n < 0x100 {
      OneByte(n);
    } else if 0x100 <= n < 0x1_0000 {
      LowFirst2(n);
    }
    if 0x1_0000 <= n < 0x8000_0000 {
      LowFirst(n);
    }
    if -0x8000_0000 <= n < 0 {
      assert n % TWO_32 == n + TWO_32;
      LowFirst(n + TWO_32);
    }
    if n < -0x8000_0000 || n >= 0x8000_0000 {
      EightBytes(n % TWO_64);
    }
  }

  lemma EightBytes(w: nat)
    requires w < TWO_64
    ensures LE(w, 8) == D4(w % TWO_32) + D4(w / TWO_32)
  {
    Pow256Values();
    LEJoin(w / TWO_32, w % TWO_32, 4, 4);
    LowFirst(w % TWO_32);
    LowFirst(w / TWO_32);
  }

  lemma {:induction false} LEJoin(hi: nat, lo: nat, j: nat, k: nat)
    requires lo < Pow256(j)
    ensures hi * Pow256(j) + lo >= 0 && LE(hi * Pow256(j) + lo, j + k) == LE(lo, j) + LE(hi, k)
  {
    if j == 0 {
      assert [] + LE(hi, k) == LE(hi, k);
    } else {
      var p, n := Pow256(j - 1), hi * Pow256(j) + lo;
      assert n == 256 * (hi * p) + lo by {
        assert hi * (256 * p) == 256 * (hi * p);
      }
      assert n % 256 == lo % 256 && n / 256 == hi * p + lo / 256;
      LEJoin(hi, lo / 256, j - 1, k);
      assert LE(n, j + k) == [n % 256] + LE(n / 256, j - 1 + k);
      Assoc([lo % 256], LE(lo / 256, j - 1), LE(hi, k));
    }
  }

  /** Strings of up to 31 bytes behind one byte, longer ones behind a length of 2 or of 4 bytes. */
  lemma TextBytes(t: Bytes)
    requires |t| < TWO_32
    ensures S.Encode(S.Text(t)) ==
            if |t| < 32 then [4 + 8 * |t|] + t
            else if |t| < 0x1_0000 then [5 + 8 * 2, |t| % 256, |t| / 256] + t
            else [5 + 8 * 4] + D4(|t|) + t
  {
    if |t| < 0x1_0000 {
      LowFirst2(|t|);
    } else {
      LowFirst(|t|);
    }
  }

  /** A table: how many items, the items, the keys and values in turn, nil. */
  lemma TableBytes(items: seq<S.Value>, flat: seq<S.Value>)
    ensures S.Encode(S.LuaTable(items, flat)) ==
            (if |items| < 31 then [6 + 8 * |items|] else [6 + 8 * 31] + S.Encode(S.Number(|items|)))
            + S.EncodeAll(items) + S.EncodeAll(flat) + [0]
    ensures S.Encode(S.Array(items)) ==
            (if |items| < 31 then [6 + 8 * |items|] else [6 + 8 * 31] + S.Encode(S.Number(|items|))) + S.EncodeAll(items) + [0]
    ensures S.Encode(S.Map(flat)) == [6] + S.EncodeAll(flat) + [0] && S.Encode(S.Object(flat)) == S.Encode(S.Map(flat))
  {
  }

  /** The number four bytes stand for, the lowest first. */
  function Low4(b: Bytes): (n: U32)
    requires |b| == 4
  {
    b[0] as int + 0x100 * b[1] as int + 0x1_0000 * b[2] as int + 0x100_0000 * b[3] as int
  }

  lemma ReadLow(b: Bytes)
    ensures |b| == 1 ==> GetLE(b) == b[0] as int
    ensures |b| == 2 ==> GetLE(b) == b[0] as int + 0x100 * b[1] as int
    ensures |b| == 4 ==> GetLE(b) == Low4(b)
  {
    if |b| >= 1 {
      assert |b| == 1 ==> b[1..] == [];
      assert |b| == 2 ==> b[1..] == [b[1]] && [b[1]][1..] == [];
      if |b| == 2 {
        ReadLow([b[1]]);
      }
      if |b| == 4 {
        var c := b[2..];
        ReadLow(c);
        assert b[1..][1..] == c && GetLE(b[1..]) == b[1] as int + 256 * GetLE(c);
      }
    }
  }

  lemma ReadLow8(b: Bytes)
    requires |b| == 8
    ensures GetLE(b) == Low4(b[..4]) + TWO_32 * Low4(b[4..])
  {
    ReadLow(b[..4]);
    ReadLow(b[4..]);
    ReadJoined(b[..4], b[4..]);
    assert b == b[..4] + b[4..];
    Pow256Values();
  }

  lemma {:induction false} ReadJoined(a: Bytes, b: Bytes)
    ensures GetLE(a + b) == GetLE(a) + Pow256(|a|) * GetLE(b)
  {
    if a == [] {
      assert a + b == b;
    } else {
      ReadJoined(a[1..], b);
      assert (a + b)[1..] == a[1..] + b;
      assert 256 * (Pow256(|a| - 1) * GetLE(b)) == Pow256(|a|) * GetLE(b);
    }
  }

  /** Nil, whatever the cookie; false for cookie 0 and true for any other. */
  lemma NilRead(b: Bytes)
    requires b != [] && b[0] % 8 < 2
    ensures S.Decode(b) == Some((if b[0] % 8 == 0 then S.Null else S.Boolean(b[0] >= 8), b[1..]))
  {
    assert S.Decode(b) == S.DecodeAs(b[0] as int % 8, b[0] as int / 8, b[1..]);
  }

  lemma ZeroRead(b: Bytes)
    requires b != []
    ensures b[0] == 2 ==> S.Decode(b) == Some((S.Number(0), b[1..]))
    ensures b[0] == 66 ==> S.Decode(b) == if |b| < 9 then None else Some((S.Real(b[1..9]), b[9..]))
  {
    var z := b[1..];
    if b[0] == 2 {
      assert S.Decode(b) == S.DecodeAs(2, 0, z);
    } else if b[0] == 66 {
      assert S.Decode(b) == S.DecodeAs(2, 8, z);
      if |b| >= 9 {
        assert z[..8] == b[1..9] && z[8..] == b[9..];
      }
    }
  }

  /** Types 3 and 7 are invalid, and so are the other cookies of an integer. */
  lemma InvalidRead(b: Bytes)
    requires b != []
    requires b[0] % 8 == 3 || b[0] % 8 == 7 || (b[0] % 8 == 2 && b[0] / 8 != 0 && b[0] / 8 != 1 && b[0] / 8 != 2 && b[0] / 8 != 4
                                                && b[0] / 8 != 6 && b[0] / 8 != 8)
    ensures S.Decode(b) == None
  {
    assert S.Decode(b) == S.DecodeAs(b[0] as int % 8, b[0] as int / 8, b[1..]);
  }

  function Signed32(w: int): int { if w >= 0x8000_0000 then w - 0x1_0000_0000 else w }
  function Signed64(w: int): int { if w >= 0x8000_0000_0000_0000 then w - 0x1_0000_0000_0000_0000 else w }

  /** Integers of one and two bytes are read as numbers from 0, of four and eight bytes as signed ones;
      of eight as big integers. With too few bytes left the stream is invalid. */
  lemma SmallIntegerRead(b: Bytes)
    requires b != []
    ensures b[0] == 10 ==> S.Decode(b) == if |b| < 2 then None else Some((S.Number(b[1] as int), b[2..]))
    ensures b[0] == 18 ==>
              S.Decode(b) == if |b| < 3 then None else Some((S.Number(b[1] as int + 256 * b[2] as int), b[3..]))
  {
    var z := b[1..];
    assert S.Decode(b) == S.DecodeAs(b[0] as int % 8, b[0] as int / 8, z);
    if |b| >= 2 {
      ReadLow(z[..1]);
      assert z[1..] == b[2..];
    }
    if |b| >= 3 {
      ReadLow(z[..2]);
      assert z[2..] == b[3..];
    }
  }

  lemma IntegerRead(b: Bytes)
    requires b != [] && b[0] == 34
    ensures S.Decode(b) == if |b| < 5 then None else Some((S.Number(Signed32(Low4(b[1..5]))), b[5..]))
  {
    var z := b[1..];
    assert S.Decode(b) == S.DecodeAs(2, 4, z);
    if |b| >= 5 {
      ReadLow(z[..4]);
      assert z[..4] == b[1..5] && z[4..] == b[5..];
    }
  }

  lemma BigIntegerFrom(z: Bytes)
    ensures S.DecodeAs(2, 6, z) == if |z| < 8 then None else Some((S.BigInt(Signed64(GetLE(z[..8]))), z[8..]))
  {
    assert TWO_64 / 2 == 0x8000_0000_0000_0000;
  }

  lemma EightRead(b: Bytes)
    requires |b| >= 9
    ensures GetLE(b[1..][..8]) == Low4(b[1..5]) + TWO_32 * Low4(b[5..9])
  {
    var z := b[1..][..8];
    assert z[..4] == b[1..5] && z[4..] == b[5..9];
    ReadLow8(z);
  }

  lemma BigIntegerRead(b: Bytes)
    requires b != [] && b[0] == 50
    ensures S.Decode(b) ==
            if |b| < 9 then None else Some((S.BigInt(Signed64(Low4(b[1..5]) + TWO_32 * Low4(b[5..9]))), b[9..]))
  {
    assert S.Decode(b) == S.DecodeAs(2, 6, b[1..]);
    BigIntegerFrom(b[1..]);
    if |b| >= 9 {
      EightRead(b);
      assert b[1..][8..] == b[9..];
    }
  }

  /* ---- websocket frames ---- */

  function Code(op: W.Opcode): nat
  {
    match op
    case Continuation => 0
    case TextOp => 1
    case Binary => 2
    case CloseOp => 8
    case Ping => 9
    case Pong => 10
  }

  /** Eight bytes, the highest first. */
  function High8(e: Bytes): nat
    requires |e| == 8
  {
    ((((((e[0] as int * 256 + e[1] as int) * 256 + e[2] as int) * 256 + e[3] as int) * 256 + e[4] as int) * 256 + e[5] as int)
     * 256 + e[6] as int) * 256 + e[7] as int
  }

  /** Where the payload length ends. */
  function HeadEnd(n: nat): nat { if n < 126 then 2 else if n <= 65535 then 4 else 10 }

  /** Section 5.2 of RFC 6455: the FIN bit and the opcode; the mask bit and the length, in 7 bits, or
      126 and 16 bits, or 127 and 64 bits, high byte first; the masking key; the payload, byte i of it
      xor byte i mod 4 of the key (section 5.3). */
  lemma FrameLayout(f: W.Frame, mask: Option<W.Key>)
    requires |f.payload| < W.EXACT
    ensures var e, n, k := W.EncodeFrame(f, mask), |f.payload|, HeadEnd(|f.payload|);
            && |e| == k + (if mask.Some? then 4 else 0) + n
            && e[0] as int == (if f.fin then 128 else 0) + Code(f.op)
            && e[1] as int == (if mask.Some? then 128 else 0) + (if n < 126 then n else if n <= 65535 then 126 else 127)
            && (126 <= n <= 65535 ==> e[2] as int * 256 + e[3] as int == n)
            && (n > 65535 ==> High8(e[2..10]) == n)
            && (mask.None? ==> e[k..] == f.payload)
            && (mask.Some? ==> e[k..k + 4] == mask.value
                               && forall i, j :: 0 <= i < n && 0 <= j < 8 ==>
                                    Bit(e[k + 4 + i], j) == if Bit(f.payload[i], j) == Bit(mask.value[i % 4], j) then 0 else 1)
  {
    var e, n, k := W.EncodeFrame(f, mask), |f.payload|, HeadEnd(|f.payload|);
    var l := W.LengthField(mask.Some?, n);
    LengthLayout(mask.Some?, n);
    FramePieces(W.FirstByte(f.fin, f.op), l, W.KeyField(mask), W.Masked(f.payload, mask), k);
    assert n > 65535 ==> e[2..10] == l[1..9];
    if mask.Some? {
      forall i, j | 0 <= i < n && 0 <= j < 8
        ensures Bit(e[k + 4 + i], j) == if Bit(f.payload[i], j) == Bit(mask.value[i % 4], j) then 0 else 1
      {
        MaskedByte(f.payload, mask.value, 0, i);
        XorAt(f.payload[i], mask.value[i % 4], j);
        assert e[k + 4 + i] == e[k..][4 + i];
      }
    }
  }

  lemma FramePieces(h: Byte, l: Bytes, key: Bytes, m: Bytes, k: nat)
    requires k == 1 + |l|
    ensures var e := [h] + l + key + m;
            e[..k] == [h] + l && e[k..] == key + m && e[k..k + |key|] == key && e[k + |key|..] == m
  {
    var e := [h] + l + key + m;
    assert e == ([h] + l) + (key + m);
    assert e[k..][..|key|] == key && e[k..][|key|..] == m;
  }

  lemma {:induction false} MaskedByte(data: Bytes, key: W.Key, i: nat, k: nat)
    requires k < |data|
    ensures W.XorFrom(data, key, i)[k] == Xor(data[k], key[(i + k) % 4])
    decreases |data|
  {
    if k > 0 {
      MaskedByte(data[1..], key, i + 1, k - 1);
    }
  }

  lemma LengthLayout(masked: bool, n: nat)
    requires n < W.EXACT
    ensures var l := W.LengthField(masked, n);
            && |l| == HeadEnd(n) - 1
            && l[0] as int == (if masked then 128 else 0) + (if n < 126 then n else if n <= 65535 then 126 else 127)
            && (126 <= n <= 65535 ==> l[1] as int * 256 + l[2] as int == n)
            && (n > 65535 ==> High8(l[1..9]) == n)
  {
    if 126 <= n <= 65535 {
      assert BE(n, 2) == BE(n / 256, 1) + [n % 256];
      assert BE(n / 256, 1) == [] + [n / 256 % 256];
    } else if n > 65535 {
      Four(n / TWO_32);
      Four(n % TWO_32);
    }
  }

  lemma Four(n: U32)
    ensures var b := BE(n, 4);
            |b| == 4 && ((b[0] as int * 256 + b[1] as int) * 256 + b[2] as int) * 256 + b[3] as int == n
  {
    assert BE(n, 4) == BE(n / 256, 3) + [n % 256];
    assert BE(n / 256, 3) == BE(n / 256 / 256, 2) + [n / 256 % 256];
    assert BE(n / 256 / 256, 2) == BE(n / 256 / 256 / 256, 1) + [n / 256 / 256 % 256];
    assert BE(n / 256 / 256 / 256, 1) == [] + [n / 256 / 256 / 256 % 256];
  }
}
