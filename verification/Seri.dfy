/** The lua-seri value format of js-seri.c: one head byte (type in the low three bits, cookie above
    it), then what the cookie announces. */
module Seri {
  import opened Wrappers
  import opened Bytes

  const MAX_DEPTH: nat := 32
  const EXACT: int := 0x20_0000_0000_0000
  const INT64_MIN: int := -0x8000_0000_0000_0000
  const INT64_END: int := 0x8000_0000_0000_0000

  /** A JavaScript value as pack sees it. Number holds an integral double, Real the eight bytes of
      any other; Text holds the UTF-8 form of a string. The entries of a map, of an object and of a
      LuaTable's hash are listed flat: key, value, key, value. */
  datatype Value =
    | Null
    | Undefined
    | Boolean(flag: bool)
    | Number(n: int)
    | BigInt(n: int)
    | Real(bits: Bytes)
    | Text(utf8: Bytes)
    | Array(items: seq<Value>)
    | Map(flat: seq<Value>)
    | Object(flat: seq<Value>)
    | LuaTable(items: seq<Value>, flat: seq<Value>)

  predicate IsTable(v: Value) { v.Array? || v.Map? || v.Object? || v.LuaTable? }

  /** The values JavaScript can hold, with big integers in 64 bits, strings and arrays below 2^32
      and fewer than 2^30 entries in a map. */
  predicate Held(v: Value)
    decreases v
  {
    match v
    case Number(n) => -EXACT <= n <= EXACT
    case BigInt(n) => INT64_MIN <= n < INT64_END
    case Real(bits) => |bits| == 8
    case Text(t) => |t| < TWO_32
    case Array(items) => |items| < TWO_32 && HeldAll(items)
    case Map(flat) => Entries(flat) && HeldAll(flat)
    case Object(flat) => Entries(flat) && HeldAll(flat)
    case LuaTable(items, flat) => |items| < TWO_32 && HeldAll(items) && Entries(flat) && HeldAll(flat)
    case _ => true
  }

  predicate HeldAll(vs: seq<Value>)
    decreases vs
  {
    vs == [] || (Held(vs[0]) && HeldAll(vs[1..]))
  }

  predicate Entries(flat: seq<Value>) { |flat| % 2 == 0 && |flat| < TWO_31 }

  /** What pack_one does not refuse: nesting within the limit, strings and arrays below 2^31. */
  predicate Packable(v: Value, depth: nat)
    decreases v
  {
    && depth <= MAX_DEPTH
    && match v
       case Text(t) => |t| < TWO_31
       case Array(items) => |items| < TWO_31 && PackableAll(items, depth + 1)
       case Map(flat) => PackableAll(flat, depth + 1)
       case Object(flat) => PackableAll(flat, depth + 1)
       case LuaTable(items, flat) => |items| < TWO_31 && PackableAll(items, depth + 1) && PackableAll(flat, depth + 1)
       case _ => true
  }

  predicate PackableAll(vs: seq<Value>, depth: nat)
    decreases vs
  {
    vs == [] || (Packable(vs[0], depth) && PackableAll(vs[1..], depth))
  }

  /** Arrays inside arrays, n of them around nothing. */
  function Nest(n: nat): Value { if n == 0 then Null else Array([Nest(n - 1)]) }

  lemma {:induction false} NestPackable(n: nat, depth: nat)
    ensures Packable(Nest(n), depth) <==> depth + n <= 32
  {
    if n > 0 {
      NestPackable(n - 1, depth + 1);
      var one := [Nest(n - 1)];
      assert one[1..] == [] && PackableAll(one[1..], depth + 1);
      assert PackableAll(one, depth + 1) == Packable(one[0], depth + 1);
    }
  }

  /* ---- writing ---- */

  predicate InInt32(v: int) { -TWO_31 <= v < TWO_31 }

  /** wb_integer, for a 64-bit integer. */
  function EncodeInt(v: int): (r: Bytes)
    ensures |r| > 0
  {
    if v == 0 then [2]
    else if !InInt32(v) then [50] + LE(v % TWO_64, 8)
    else if v < 0 then [34] + LE(v % TWO_32, 4)
    else if v < 0x100 then [10] + LE(v, 1)
    else if v < 0x10000 then [18] + LE(v, 2)
    else [34] + LE(v, 4)
  }

  /** wb_string. */
  function EncodeText(t: Bytes): (r: Bytes)
    ensures |r| > 0
  {
    if |t| < 32 then [4 + 8 * |t|] + t
    else if |t| < 0x10000 then [21] + LE(|t|, 2) + t
    else [37] + LE(|t|, 4) + t
  }

  /** wb_table_header: the number of items, in the cookie or after it. */
  function EncodeHeader(n: nat): (r: Bytes)
    ensures |r| > 0
  {
    if n >= 31 then [254] + EncodeInt(n) else [6 + 8 * n]
  }

  /** pack_one's bytes. */
  function Encode(v: Value): (r: Bytes)
    ensures |r| > 0
    decreases v
  {
    match v
    case Null => [0]
    case Undefined => [0]
    case Boolean(b) => [if b then 9 else 1]
    case Number(n) => EncodeInt(n)
    case BigInt(n) => EncodeInt(n)
    case Real(bits) => [66] + bits
    case Text(t) => EncodeText(t)
    case Array(items) => EncodeHeader(|items|) + EncodeAll(items) + [0]
    case Map(flat) => EncodeHeader(0) + EncodeAll(flat) + [0]
    case Object(flat) => EncodeHeader(0) + EncodeAll(flat) + [0]
    case LuaTable(items, flat) => EncodeHeader(|items|) + EncodeAll(items) + EncodeAll(flat) + [0]
  }

  function EncodeAll(vs: seq<Value>): Bytes
    decreases vs
  {
    if vs == [] then [] else Encode(vs[0]) + EncodeAll(vs[1..])
  }

  /* ---- what comes back ---- */

  function NormInt(n: int): Value { if InInt32(n) then Number(n) else BigInt(n) }

  /** The value a packed value is read back as: every container a LuaTable, no undefined, integers
      split by size. */
  function Norm(v: Value): Value
    decreases v
  {
    match v
    case Undefined => Null
    case Number(n) => NormInt(n)
    case BigInt(n) => NormInt(n)
    case Array(items) => LuaTable(NormAll(items), [])
    case Map(flat) => LuaTable([], BuildMap(NormAll(flat)))
    case Object(flat) => LuaTable([], BuildMap(NormAll(flat)))
    case LuaTable(items, flat) => LuaTable(NormAll(items), BuildMap(NormAll(flat)))
    case _ => v
  }

  function NormAll(vs: seq<Value>): (r: seq<Value>)
    ensures |r| == |vs|
    decreases vs
  {
    if vs == [] then [] else [Norm(vs[0])] + NormAll(vs[1..])
  }

  /** Two decoded keys are one Map key: equal, and not tables, which are compared by identity. */
  predicate SameKey(a: Value, b: Value) { a == b && !IsTable(a) }

  /** Map.prototype.set on insertion-ordered entries. */
  function MapSet(flat: seq<Value>, k: Value, v: Value): (r: seq<Value>)
  {
    if |flat| < 2 then [k, v]
    else if SameKey(flat[0], k) then [flat[0], v] + flat[2..]
    else flat[..2] + MapSet(flat[2..], k, v)
  }

  /** buildluatable: the entries read, set one after the other. */
  function BuildMap(flat: seq<Value>): seq<Value>
  {
    if |flat| < 2 then [] else MapSet(BuildMap(flat[..|flat| - 2]), flat[|flat| - 2], flat[|flat| - 1])
  }

  predicate HasKey(flat: seq<Value>, k: Value)
  {
    |flat| >= 2 && (SameKey(flat[0], k) || HasKey(flat[2..], k))
  }

  predicate DistinctKeys(flat: seq<Value>)
  {
    |flat| < 2 || (DistinctKeys(flat[..|flat| - 2]) && !HasKey(flat[..|flat| - 2], flat[|flat| - 2]))
  }

  lemma {:induction false} MapSetNew(flat: seq<Value>, k: Value, v: Value)
    requires |flat| % 2 == 0 && !HasKey(flat, k)
    ensures MapSet(flat, k, v) == flat + [k, v]
  {
    if |flat| >= 2 {
      MapSetNew(flat[2..], k, v);
      assert flat == flat[..2] + flat[2..];
    }
  }

  lemma MapSetPast(x: Value, y: Value, z: seq<Value>, k: Value, v: Value)
    requires !SameKey(x, k)
    ensures MapSet([x, y] + z, k, v) == [x, y] + MapSet(z, k, v)
  {
    assert ([x, y] + z)[..2] == [x, y] && ([x, y] + z)[2..] == z;
  }

  lemma MapSetHere(k: Value, was: Value, more: seq<Value>, v: Value)
    requires !IsTable(k)
    ensures MapSet([k, was] + more, k, v) == [k, v] + more
  {
    assert ([k, was] + more)[2..] == more;
  }

  /** A key that is there keeps its place and gets the new value. */
  lemma {:induction false} MapSetOld(flat: seq<Value>, k: Value, was: Value, more: seq<Value>, v: Value)
    requires |flat| % 2 == 0 && !HasKey(flat, k) && !IsTable(k)
    ensures MapSet(flat + ([k, was] + more), k, v) == flat + ([k, v] + more)
  {
    if flat == [] {
      assert flat + ([k, was] + more) == [k, was] + more && flat + ([k, v] + more) == [k, v] + more;
      MapSetHere(k, was, more, v);
    } else {
      var x, y, z := flat[0], flat[1], flat[2..];
      assert flat == [x, y] + z;
      MapSetOld(z, k, was, more, v);
      MapSetPast(x, y, z + ([k, was] + more), k, v);
      Assoc([x, y], z, [k, was] + more);
      Assoc([x, y], z, [k, v] + more);
    }
  }

  /** Entries whose keys differ are kept as they are. */
  lemma {:induction false} BuildDistinct(flat: seq<Value>)
    requires |flat| % 2 == 0 && DistinctKeys(flat)
    ensures BuildMap(flat) == flat
  {
    if |flat| >= 2 {
      var n := |flat| - 2;
      BuildDistinct(flat[..n]);
      MapSetNew(flat[..n], flat[n], flat[n + 1]);
      assert flat == flat[..n] + [flat[n], flat[n + 1]];
    }
  }

  /* ---- reading ---- */

  function Signed(n: int, bits: int): int { if n >= bits / 2 then n - bits else n }

  /** get_integer: the value and what follows it. */
  function GetInt(cookie: nat, b: Bytes): (r: Option<(int, Bytes)>)
    ensures r.Some? ==> |r.value.1| <= |b|
  {
    if cookie == 0 then Some((0, b))
    else if cookie == 1 then if |b| < 1 then None else Some((GetLE(b[..1]), b[1..]))
    else if cookie == 2 then if |b| < 2 then None else Some((GetLE(b[..2]), b[2..]))
    else if cookie == 4 then if |b| < 4 then None else Some((Signed(GetLE(b[..4]), TWO_32), b[4..]))
    else if cookie == 6 then if |b| < 8 then None else Some((Signed(GetLE(b[..8]), TWO_64), b[8..]))
    else None
  }

  /** rb_read. */
  function Take(n: nat, b: Bytes): (r: Option<(Bytes, Bytes)>)
    ensures r.Some? ==> |r.value.1| <= |b|
  {
    if |b| < n then None else Some((b[..n], b[n..]))
  }

  /** The length of a long string and what follows it. */
  function LongLength(cookie: nat, b: Bytes): (r: Option<(nat, Bytes)>)
    ensures r.Some? ==> |r.value.1| <= |b|
  {
    if cookie != 2 && cookie != 4 then None
    else if |b| < cookie then None
    else
      var n := GetLE(b[..cookie]);
      if n >= TWO_31 then None else Some((n, b[cookie..]))
  }

  /** unpack_value on everything but tables. */
  function DecodeScalar(ty: nat, cookie: nat, b: Bytes): (r: Option<(Value, Bytes)>)
    ensures r.Some? ==> |r.value.1| <= |b|
  {
    if ty == 0 then Some((Null, b))
    else if ty == 1 then Some((Boolean(cookie != 0), b))
    else if ty == 2 then
      if cookie == 8 then
        match Take(8, b) case None => None case Some((bits, rest)) => Some((Real(bits), rest))
      else
        match GetInt(cookie, b)
        case None => None
        case Some((n, rest)) => Some((if cookie == 6 then BigInt(n) else Number(n), rest))
    else if ty == 4 then
      match Take(cookie, b) case None => None case Some((t, rest)) => Some((Text(t), rest))
    else if ty == 5 then
      match LongLength(cookie, b)
      case None => None
      case Some((n, rest)) => match Take(n, rest) case None => None case Some((t, rest')) => Some((Text(t), rest'))
    else None
  }

  /** A table's item count, truncated to a C int when it is spelled out; a count below 1 is none. */
  function GetCount(cookie: nat, b: Bytes): (r: Option<(int, Bytes)>)
    ensures r.Some? ==> |r.value.1| <= |b|
  {
    if cookie != 31 then Some((cookie, b))
    else if b == [] || b[0] % 8 != 2 || b[0] / 8 == 8 then None
    else
      match GetInt(b[0] as int / 8, b[1..])
      case None => None
      case Some((n, rest)) => Some((Signed(n % TWO_32, TWO_32), rest))
  }

  /** unpack_one: a value and what follows it, or nothing when the stream is not valid. */
  function Decode(b: Bytes): (r: Option<(Value, Bytes)>)
    ensures r.Some? ==> |r.value.1| < |b|
    decreases |b|, 0
  {
    if b == [] then None else DecodeAs(b[0] as int % 8, b[0] as int / 8, b[1..])
  }

  /** unpack_value. */
  function DecodeAs(ty: nat, cookie: nat, b: Bytes): (r: Option<(Value, Bytes)>)
    ensures r.Some? ==> |r.value.1| <= |b|
    decreases |b|, 3
  {
    if ty == 6 then DecodeTable(cookie, b) else DecodeScalar(ty, cookie, b)
  }

  /** unpack_table. */
  function DecodeTable(cookie: nat, b: Bytes): (r: Option<(Value, Bytes)>)
    ensures r.Some? ==> |r.value.1| <= |b|
    decreases |b|, 2
  {
    match GetCount(cookie, b)
    case None => None
    case Some((n, rest)) =>
      match DecodeItems(n, rest)
      case None => None
      case Some((items, rest')) =>
        match DecodeEntries(rest')
        case None => None
        case Some((flat, rest'')) => Some((LuaTable(items, BuildMap(flat)), rest''))
  }

  function DecodeItems(n: int, b: Bytes): (r: Option<(seq<Value>, Bytes)>)
    ensures r.Some? ==> |r.value.1| <= |b|
    decreases |b|, 1
  {
    if n <= 0 then Some(([], b))
    else
      match Decode(b)
      case None => None
      case Some((v, rest)) =>
        match DecodeItems(n - 1, rest)
        case None => None
        case Some((vs, rest')) => Some(([v] + vs, rest'))
  }

  /** Keys and values in turn, up to the key that is nil. */
  function DecodeEntries(b: Bytes): (r: Option<(seq<Value>, Bytes)>)
    ensures r.Some? ==> |r.value.1| < |b|
    decreases |b|, 1
  {
    match Decode(b)
    case None => None
    case Some((k, rest)) =>
      if k == Null then Some(([], rest))
      else
        match Decode(rest)
        case None => None
        case Some((v, rest')) =>
          match DecodeEntries(rest')
          case None => None
          case Some((flat, rest'')) => Some(([k, v] + flat, rest''))
  }

  /** js_seri_unpack: values to the end of the buffer. */
  function Unpack(b: Bytes): Option<seq<Value>>
    decreases |b|
  {
    if b == [] then Some([])
    else
      match Decode(b)
      case None => None
      case Some((v, rest)) => match Unpack(rest) case None => None case Some(vs) => Some([v] + vs)
  }

  /* ---- scalars round-trip ---- */

  lemma SignedWraps(v: int, bits: int)
    requires bits == TWO_32 || bits == TWO_64
    requires -(bits / 2) <= v < bits / 2
    ensures 0 <= v % bits < bits && Signed(v % bits, bits) == v
  {
  }

  /** GetInt reads back what a width of k bytes wrote. */
  lemma ReadLE(n: nat, k: nat, s: Bytes)
    requires n < Pow256(k)
    ensures |LE(n, k) + s| >= k && GetLE((LE(n, k) + s)[..k]) == n && (LE(n, k) + s)[k..] == s
  {
    LERoundTrip(n, k);
    Halves(LE(n, k), s);
  }

  /** The cookie wb_integer chooses. */
  function IntCookie(v: int): (c: nat)
  {
    if v == 0 then 0
    else if !InInt32(v) then 6
    else if v < 0 then 4
    else if v < 0x100 then 1
    else if v < 0x10000 then 2
    else 4
  }

  lemma IntRoundTrip(v: int, s: Bytes)
    requires INT64_MIN <= v < INT64_END
    ensures EncodeInt(v)[0] == 2 + 8 * IntCookie(v)
    ensures GetInt(IntCookie(v), EncodeInt(v)[1..] + s) == Some((v, s))
  {
    Pow256Values();
    SignedWraps(v, TWO_64);
    if v == 0 {
      assert EncodeInt(v)[1..] + s == s;
    } else if !InInt32(v) {
      ReadLE(v % TWO_64, 8, s);
    } else if v < 0 {
      SignedWraps(v, TWO_32);
      ReadLE(v % TWO_32, 4, s);
    } else if v < 0x100 {
      ReadLE(v, 1, s);
    } else if v < 0x10000 {
      ReadLE(v, 2, s);
    } else {
      SignedWraps(v, TWO_32);
      ReadLE(v, 4, s);
    }
  }

  lemma GetLERange(b: Bytes)
    requires |b| == 1 || |b| == 2 || |b| == 4 || |b| == 8
    ensures 0 <= GetLE(b)
    ensures |b| == 1 ==> GetLE(b) < 0x100
    ensures |b| == 2 ==> GetLE(b) < 0x10000
    ensures |b| == 4 ==> GetLE(b) < TWO_32
  {
    Pow256Values();
    LEOnto(b);
  }

  /** Integers are written as short as they can be read: no other cookie and bytes spell v in less. */
  lemma IntShortest(v: int, cookie: nat, b: Bytes)
    requires GetInt(cookie, b) == Some((v, []))
    ensures |EncodeInt(v)| - 1 <= |b|
  {
    if cookie != 0 {
      assert b[..|b|] == b;
      GetLERange(b);
    }
  }

  /** The forms a string is read from, and how long each is. */
  lemma TextForms(ty: nat, cookie: nat, rest: Bytes, t: Bytes)
    requires DecodeScalar(ty, cookie, rest) == Some((Text(t), []))
    ensures (ty == 4 && |rest| == |t| == cookie) ||
            (ty == 5 && (cookie == 2 || cookie == 4) && |rest| == cookie + |t| && (cookie == 2 ==> |t| < 0x10000))
  {
    if ty == 5 {
      var l := LongLength(cookie, rest);
      if l.Some? {
        GetLERange(rest[..cookie]);
      }
    }
  }

  /** What is read is a table or a scalar, by the head byte. */
  lemma DecodeKinds(b: Bytes)
    requires Decode(b).Some?
    ensures b != []
    ensures Decode(b).value.0.LuaTable? || Decode(b) == DecodeScalar(b[0] as int % 8, b[0] as int / 8, b[1..])
  {
    var ty, cookie, rest := b[0] as int % 8, b[0] as int / 8, b[1..];
    assert Decode(b) == DecodeAs(ty, cookie, rest);
    if ty == 6 {
      assert DecodeAs(ty, cookie, rest) == DecodeTable(cookie, rest);
    }
  }

  /** Strings too: no valid bytes for a string are shorter than the ones written. */
  lemma TextShortest(t: Bytes, b: Bytes)
    requires Decode(b) == Some((Text(t), []))
    ensures |EncodeText(t)| <= |b|
  {
    DecodeKinds(b);
    var cookie: nat := b[0] as int / 8;
    TextForms(b[0] as int % 8, cookie, b[1..], t);
    TextLength(t);
    assert cookie < 32 && |b| == 1 + |b[1..]|;
  }

  lemma TextLength(t: Bytes)
    ensures |EncodeText(t)| == |t| + if |t| < 32 then 1 else if |t| < 0x10000 then 3 else 5
  {
  }

  lemma LongTextRoundTrip(t: Bytes, k: nat, s: Bytes)
    requires (k == 2 || k == 4) && |t| < Pow256(k) && |t| < TWO_31
    ensures Decode([5 + 8 * k] + LE(|t|, k) + t + s) == Some((Text(t), s))
  {
    var b := [5 + 8 * k] + LE(|t|, k) + t + s;
    assert b[1..] == LE(|t|, k) + (t + s);
    ReadLE(|t|, k, t + s);
    Halves(t, s);
    assert LongLength(k, b[1..]) == Some((|t|, t + s));
    assert DecodeScalar(5, k, b[1..]) == Some((Text(t), s));
  }

  lemma TextRoundTrip(t: Bytes, s: Bytes)
    requires |t| < TWO_31
    ensures Decode(EncodeText(t) + s) == Some((Text(t), s))
  {
    Pow256Values();
    if |t| < 32 {
      assert ([4 + 8 * |t|] + t + s)[1..] == t + s;
      Halves(t, s);
      assert DecodeScalar(4, |t|, t + s) == Some((Text(t), s));
    } else if |t| < 0x10000 {
      LongTextRoundTrip(t, 2, s);
    } else {
      LongTextRoundTrip(t, 4, s);
    }
  }

  lemma HeaderRoundTrip(n: nat, s: Bytes)
    requires n < TWO_31
    ensures EncodeHeader(n)[0] % 8 == 6
    ensures GetCount(EncodeHeader(n)[0] as int / 8, EncodeHeader(n)[1..] + s) == Some((n, s))
  {
    if n >= 31 {
      IntRoundTrip(n, s);
      assert EncodeHeader(n)[1..] == EncodeInt(n);
      assert (EncodeInt(n) + s)[1..] == EncodeInt(n)[1..] + s;
    } else {
      assert EncodeHeader(n)[1..] + s == s;
    }
  }

  lemma NumberRoundTrip(n: int, s: Bytes)
    requires INT64_MIN <= n < INT64_END
    ensures Decode(EncodeInt(n) + s) == Some((NormInt(n), s))
  {
    IntRoundTrip(n, s);
    assert (EncodeInt(n) + s)[1..] == EncodeInt(n)[1..] + s;
  }

  /* ---- whole values round-trip ---- */

  predicate IsNil(v: Value) { v.Null? || v.Undefined? }

  /** No table in v has null or undefined among its keys. */
  predicate NoNilKeys(v: Value)
    decreases v
  {
    match v
    case Array(items) => NoNilKeysAll(items)
    case Map(flat) => KeysSet(flat) && NoNilKeysAll(flat)
    case Object(flat) => KeysSet(flat) && NoNilKeysAll(flat)
    case LuaTable(items, flat) => NoNilKeysAll(items) && KeysSet(flat) && NoNilKeysAll(flat)
    case _ => true
  }

  predicate NoNilKeysAll(vs: seq<Value>)
    decreases vs
  {
    vs == [] || (NoNilKeys(vs[0]) && NoNilKeysAll(vs[1..]))
  }

  predicate KeysSet(flat: seq<Value>)
  {
    |flat| < 2 || (!IsNil(flat[0]) && KeysSet(flat[2..]))
  }

  /** The head byte says what the rest is read as. */
  lemma DecodeHead(h: Bytes, b: Bytes)
    requires |h| > 0
    ensures Decode(h + b) == DecodeAs(h[0] as int % 8, h[0] as int / 8, h[1..] + b)
  {
    assert (h + b)[1..] == h[1..] + b;
  }

  /** How Decode takes a table apart. */
  lemma DecodeParts(h: Bytes, n: int, b: Bytes, items: seq<Value>, b1: Bytes, flat: seq<Value>, b2: Bytes)
    requires |h| > 0 && h[0] % 8 == 6 && GetCount(h[0] as int / 8, h[1..] + b) == Some((n, b))
    requires DecodeItems(n, b) == Some((items, b1)) && DecodeEntries(b1) == Some((flat, b2))
    ensures Decode(h + b) == Some((LuaTable(items, BuildMap(flat)), b2))
  {
    DecodeHead(h, b);
    TableParts(h[0] as int / 8, h[1..] + b, n, b, items, b1, flat, b2);
  }

  lemma TableParts(cookie: nat, b0: Bytes, n: int, b: Bytes, items: seq<Value>, b1: Bytes, flat: seq<Value>, b2: Bytes)
    requires GetCount(cookie, b0) == Some((n, b))
    requires DecodeItems(n, b) == Some((items, b1)) && DecodeEntries(b1) == Some((flat, b2))
    ensures DecodeTable(cookie, b0) == Some((LuaTable(items, BuildMap(flat)), b2))
  {
  }

  lemma EntryParts(b: Bytes, k: Value, b1: Bytes, v: Value, b2: Bytes, flat: seq<Value>, b3: Bytes)
    requires k != Null && Decode(b) == Some((k, b1)) && Decode(b1) == Some((v, b2))
    requires DecodeEntries(b2) == Some((flat, b3))
    ensures DecodeEntries(b) == Some(([k, v] + flat, b3))
  {
  }

  lemma NoEntries(s: Bytes)
    ensures DecodeEntries([0] + s) == Some(([], s))
  {
    assert ([0] + s)[1..] == s;
    assert Decode([0] + s) == DecodeAs(0, 0, s);
  }

  /** A value's bytes are self-delimiting in front of anything, and read back as its normal form. */
  lemma {:induction false} DecodeEncode(v: Value, depth: nat, s: Bytes)
    requires Held(v) && Packable(v, depth) && NoNilKeys(v)
    ensures Decode(Encode(v) + s) == Some((Norm(v), s))
    decreases v
  {
    match v
    case Null => assert ([0] + s)[1..] == s;
    case Undefined => assert ([0] + s)[1..] == s;
    case Boolean(b) => assert (Encode(v) + s)[1..] == s;
    case Number(n) => NumberRoundTrip(n, s);
    case BigInt(n) => NumberRoundTrip(n, s);
    case Real(bits) =>
      assert (Encode(v) + s)[1..] == bits + s;
      Halves(bits, s);
    case Text(t) => TextRoundTrip(t, s);
    case Array(items) => 
      DecodeEncodeItems(items, depth + 1, [0] + s);
      ArrayRoundTrip(items, s);
    case Map(flat) =>
      DecodeEncodeEntries(flat, depth + 1, s);
      MapRoundTrip(flat, s);
    case Object(flat) =>
      DecodeEncodeEntries(flat, depth + 1, s);
      MapRoundTrip(flat, s);
    case LuaTable(items, flat) =>
      DecodeEncodeItems(items, depth + 1, EncodeAll(flat) + ([0] + s));
      DecodeEncodeEntries(flat, depth + 1, s);
      TableRoundTrip(items, flat, s);
  }

  lemma {:induction false} DecodeEncodeItems(vs: seq<Value>, depth: nat, s: Bytes)
    requires HeldAll(vs) && PackableAll(vs, depth) && NoNilKeysAll(vs)
    ensures DecodeItems(|vs|, EncodeAll(vs) + s) == Some((NormAll(vs), s))
    decreases vs
  {
    if vs == [] {
      assert EncodeAll(vs) + s == s;
    } else {
      DecodeEncode(vs[0], depth, EncodeAll(vs[1..]) + s);
      DecodeEncodeItems(vs[1..], depth, s);
      Assoc(Encode(vs[0]), EncodeAll(vs[1..]), s);
    }
  }

  lemma {:induction false} DecodeEncodeEntries(flat: seq<Value>, depth: nat, s: Bytes)
    requires |flat| % 2 == 0
    requires HeldAll(flat) && PackableAll(flat, depth) && NoNilKeysAll(flat) && KeysSet(flat)
    ensures DecodeEntries(EncodeAll(flat) + ([0] + s)) == Some((NormAll(flat), s))
    decreases flat
  {
    if flat == [] {
      assert EncodeAll(flat) + ([0] + s) == [0] + s;
      NoEntries(s);
    } else {
      var k, v, more := flat[0], flat[1], flat[2..];
      FirstEntry(flat, depth);
      var tail := EncodeAll(more) + ([0] + s);
      DecodeEncode(k, depth, Encode(v) + tail);
      DecodeEncode(v, depth, tail);
      DecodeEncodeEntries(more, depth, s);
      EntryParts(Encode(k) + (Encode(v) + tail), Norm(k), Encode(v) + tail, Norm(v), tail, NormAll(more), s);
      Assoc(Encode(v), EncodeAll(more), [0] + s);
      Assoc(Encode(k), Encode(v) + EncodeAll(more), [0] + s);
    }
  }

  /** What the walks say of a flat list, said of its first entry and of the others. */
  lemma FirstEntry(flat: seq<Value>, depth: nat)
    requires |flat| >= 2
    ensures EncodeAll(flat) == Encode(flat[0]) + (Encode(flat[1]) + EncodeAll(flat[2..]))
    ensures NormAll(flat) == [Norm(flat[0]), Norm(flat[1])] + NormAll(flat[2..])
    ensures HeldAll(flat) ==> Held(flat[0]) && Held(flat[1]) && HeldAll(flat[2..])
    ensures NoNilKeysAll(flat) ==> NoNilKeys(flat[0]) && NoNilKeys(flat[1]) && NoNilKeysAll(flat[2..])
    ensures PackableAll(flat, depth) ==>
              Packable(flat[0], depth) && Packable(flat[1], depth) && PackableAll(flat[2..], depth)
  {
    var rest := flat[1..];
    assert rest[0] == flat[1] && rest[1..] == flat[2..];
    FirstOf(flat, depth);
    FirstOf(rest, depth);
    Assoc([Norm(flat[0])], [Norm(flat[1])], NormAll(flat[2..]));
  }

  lemma FirstOf(vs: seq<Value>, depth: nat)
    requires vs != []
    ensures EncodeAll(vs) == Encode(vs[0]) + EncodeAll(vs[1..])
    ensures NormAll(vs) == [Norm(vs[0])] + NormAll(vs[1..])
    ensures HeldAll(vs) <==> Held(vs[0]) && HeldAll(vs[1..])
    ensures NoNilKeysAll(vs) <==> NoNilKeys(vs[0]) && NoNilKeysAll(vs[1..])
    ensures PackableAll(vs, depth) <==> Packable(vs[0], depth) && PackableAll(vs[1..], depth)
  {
  }

  lemma Regroup(h: Bytes, e: Bytes, s: Bytes)
    ensures h + e + [0] + s == h + (e + ([0] + s))
  {
  }

  lemma ArrayRoundTrip(items: seq<Value>, s: Bytes)
    requires |items| < TWO_31
    requires DecodeItems(|items|, EncodeAll(items) + ([0] + s)) == Some((NormAll(items), [0] + s))
    ensures Decode(Encode(Array(items)) + s) == Some((Norm(Array(items)), s))
  {
    var h, e := EncodeHeader(|items|), EncodeAll(items);
    NoEntries(s);
    HeaderRoundTrip(|items|, e + ([0] + s));
    DecodeParts(h, |items|, e + ([0] + s), NormAll(items), [0] + s, [], s);
    Regroup(h, e, s);
  }

  lemma MapRoundTrip(flat: seq<Value>, s: Bytes)
    requires DecodeEntries(EncodeAll(flat) + ([0] + s)) == Some((NormAll(flat), s))
    ensures Decode(EncodeHeader(0) + EncodeAll(flat) + [0] + s) == Some((LuaTable([], BuildMap(NormAll(flat))), s))
  {
    var h, e := EncodeHeader(0), EncodeAll(flat);
    HeaderRoundTrip(0, e + ([0] + s));
    DecodeParts(h, 0, e + ([0] + s), [], e + ([0] + s), NormAll(flat), s);
    Regroup(h, e, s);
  }

  lemma TableRoundTrip(items: seq<Value>, flat: seq<Value>, s: Bytes)
    requires |items| < TWO_31
    requires DecodeItems(|items|, EncodeAll(items) + (EncodeAll(flat) + ([0] + s))) ==
             Some((NormAll(items), EncodeAll(flat) + ([0] + s)))
    requires DecodeEntries(EncodeAll(flat) + ([0] + s)) == Some((NormAll(flat), s))
    ensures Decode(Encode(LuaTable(items, flat)) + s) == Some((Norm(LuaTable(items, flat)), s))
  {
    var h, e, f := EncodeHeader(|items|), EncodeAll(items), EncodeAll(flat);
    HeaderRoundTrip(|items|, e + (f + ([0] + s)));
    DecodeParts(h, |items|, e + (f + ([0] + s)), NormAll(items), f + ([0] + s), NormAll(flat), s);
    Regroup(h + e, f, s);
    Assoc(h, e, f + ([0] + s));
  }

  /* ---- nil keys are the only thing that breaks it ---- */

  /** No table that Decode returns has a nil key. */
  lemma {:induction false} DecodedKeys(b: Bytes)
    ensures Decode(b).Some? ==> NoNilKeys(Decode(b).value.0)
    decreases |b|, 0
  {
    if b != [] && b[0] % 8 == 6 {
      var c := GetCount(b[0] as int / 8, b[1..]);
      assert Decode(b) == DecodeTable(b[0] as int / 8, b[1..]);
      if c.Some? {
        DecodedItemKeys(c.value.0, c.value.1);
        var d := DecodeItems(c.value.0, c.value.1);
        if d.Some? {
          DecodedEntryKeys(d.value.1);
          var e := DecodeEntries(d.value.1);
          if e.Some? {
            BuildMapKeys(e.value.0);
          }
        }
      }
    }
  }

  lemma {:induction false} DecodedItemKeys(n: int, b: Bytes)
    ensures DecodeItems(n, b).Some? ==> NoNilKeysAll(DecodeItems(n, b).value.0)
    decreases |b|, 1
  {
    if n > 0 && Decode(b).Some? {
      DecodedKeys(b);
      DecodedItemKeys(n - 1, Decode(b).value.1);
    }
  }

  lemma {:induction false} DecodedEntryKeys(b: Bytes)
    ensures DecodeEntries(b).Some? ==>
              var flat := DecodeEntries(b).value.0; |flat| % 2 == 0 && KeysSet(flat) && NoNilKeysAll(flat)
    decreases |b|, 1
  {
    DecodedKeys(b);
    var d := Decode(b);
    if d.Some? && d.value.0 != Null {
      DecodedKeys(d.value.1);
      DecodedNeverUndefined(b);
      var e := Decode(d.value.1);
      if e.Some? {
        DecodedEntryKeys(e.value.1);
        var f := DecodeEntries(e.value.1);
        if f.Some? {
          TwoInFront(d.value.0, e.value.0, f.value.0);
        }
      }
    }
  }

  lemma TwoInFront(k: Value, v: Value, more: seq<Value>)
    requires NoNilKeys(k) && NoNilKeys(v) && NoNilKeysAll(more) && KeysSet(more) && !IsNil(k)
    ensures NoNilKeysAll([k, v] + more) && KeysSet([k, v] + more)
  {
    var all := [k, v] + more;
    assert all[1..] == [v] + more && all[1..][1..] == more && all[2..] == more;
  }

  lemma DecodedNeverUndefined(b: Bytes)
    ensures Decode(b).Some? ==> !Decode(b).value.0.Undefined?
  {
    if b != [] {
      assert Decode(b) == DecodeAs(b[0] as int % 8, b[0] as int / 8, b[1..]);
    }
  }

  lemma {:induction false} MapSetKeys(flat: seq<Value>, k: Value, v: Value)
    requires |flat| % 2 == 0 && KeysSet(flat) && NoNilKeysAll(flat)
    requires !IsNil(k) && NoNilKeys(k) && NoNilKeys(v)
    ensures var r := MapSet(flat, k, v); |r| % 2 == 0 && KeysSet(r) && NoNilKeysAll(r)
  {
    var r := MapSet(flat, k, v);
    if |flat| < 2 {
      assert r[2..] == [] && r[1..][1..] == [];
    } else {
      assert flat[1..][1..] == flat[2..] && r[1..][1..] == r[2..];
      if SameKey(flat[0], k) {
        assert r[2..] == flat[2..];
      } else {
        MapSetKeys(flat[2..], k, v);
        assert r[2..] == MapSet(flat[2..], k, v) && r[0] == flat[0] && r[1] == flat[1];
      }
    }
  }

  lemma {:induction false} KeysInit(flat: seq<Value>)
    requires |flat| % 2 == 0 && |flat| >= 2 && KeysSet(flat) && NoNilKeysAll(flat)
    ensures var n := |flat| - 2;
            && KeysSet(flat[..n]) && NoNilKeysAll(flat[..n])
            && !IsNil(flat[n]) && NoNilKeys(flat[n]) && NoNilKeys(flat[n + 1])
  {
    var n := |flat| - 2;
    assert flat[1..][1..] == flat[2..];
    if n > 0 {
      KeysInit(flat[2..]);
      assert flat[..n][2..] == flat[2..][..n - 2] && flat[..n][1..][1..] == flat[..n][2..];
    }
  }

  lemma {:induction false} BuildMapKeys(flat: seq<Value>)
    requires |flat| % 2 == 0 && KeysSet(flat) && NoNilKeysAll(flat)
    ensures var r := BuildMap(flat); |r| % 2 == 0 && KeysSet(r) && NoNilKeysAll(r)
  {
    if |flat| >= 2 {
      var n := |flat| - 2;
      KeysInit(flat);
      BuildMapKeys(flat[..n]);
      MapSetKeys(BuildMap(flat[..n]), flat[n], flat[n + 1]);
    }
  }

  /** No two keys of a table become the same Map key, here or deeper. */
  predicate Keyed(v: Value)
    decreases v
  {
    match v
    case Array(items) => KeyedAll(items)
    case Map(flat) => DistinctKeys(NormAll(flat)) && KeyedAll(flat)
    case Object(flat) => DistinctKeys(NormAll(flat)) && KeyedAll(flat)
    case LuaTable(items, flat) => KeyedAll(items) && DistinctKeys(NormAll(flat)) && KeyedAll(flat)
    case _ => true
  }

  predicate KeyedAll(vs: seq<Value>)
    decreases vs
  {
    vs == [] || (Keyed(vs[0]) && KeyedAll(vs[1..]))
  }

  /** Reading back neither adds nor hides a nil key. */
  lemma {:induction false} NormKeepsNilKeys(v: Value)
    requires Held(v) && Keyed(v)
    ensures NoNilKeys(Norm(v)) <==> NoNilKeys(v)
    decreases v
  {
    match v
    case Array(items) => NormKeepsNilKeysAll(items);
    case Map(flat) =>
      BuildDistinct(NormAll(flat));
      NormKeepsNilKeysAll(flat);
    case Object(flat) =>
      BuildDistinct(NormAll(flat));
      NormKeepsNilKeysAll(flat);
    case LuaTable(items, flat) =>
      NormKeepsNilKeysAll(items);
      BuildDistinct(NormAll(flat));
      NormKeepsNilKeysAll(flat);
    case _ =>
  }

  lemma {:induction false} NormKeepsNilKeysAll(vs: seq<Value>)
    requires HeldAll(vs) && KeyedAll(vs)
    ensures NoNilKeysAll(NormAll(vs)) <==> NoNilKeysAll(vs)
    ensures KeysSet(NormAll(vs)) <==> KeysSet(vs)
    decreases vs
  {
    if vs != [] {
      var n := NormAll(vs);
      NormKeepsNilKeys(vs[0]);
      NormKeepsNilKeysAll(vs[1..]);
      assert n == [Norm(vs[0])] + NormAll(vs[1..]) && n[1..] == NormAll(vs[1..]);
      if |vs| >= 2 {
        assert vs[1..][1..] == vs[2..] && n[1..][1..] == n[2..];
        NormKeepsNilKeysAll(vs[2..]);
        assert n[2..] == NormAll(vs[2..]);
      }
    }
  }

  /* ---- the round trip of pack and unpack ---- */

  lemma {:induction false} UnpackEncoded(vs: seq<Value>)
    requires HeldAll(vs) && PackableAll(vs, 0) && NoNilKeysAll(vs)
    ensures Unpack(EncodeAll(vs)) == Some(NormAll(vs))
  {
    if vs != [] {
      DecodeEncode(vs[0], 0, EncodeAll(vs[1..]));
      UnpackEncoded(vs[1..]);
    }
  }

  lemma {:induction false} UnpackedKeys(b: Bytes)
    ensures Unpack(b).Some? ==> NoNilKeysAll(Unpack(b).value)
    decreases |b|
  {
    if b != [] && Decode(b).Some? {
      DecodedKeys(b);
      UnpackedKeys(Decode(b).value.1);
    }
  }

  /** Unpacking what was packed gives back the values, normalised, if no table among them has a nil
      key; and only if, unless two keys of a table become one when read back. */
  lemma UnpackPack(vs: seq<Value>)
    requires HeldAll(vs) && PackableAll(vs, 0)
    ensures NoNilKeysAll(vs) ==> Unpack(EncodeAll(vs)) == Some(NormAll(vs))
    ensures KeyedAll(vs) && Unpack(EncodeAll(vs)) == Some(NormAll(vs)) ==> NoNilKeysAll(vs)
  {
    if NoNilKeysAll(vs) {
      UnpackEncoded(vs);
    } else if KeyedAll(vs) {
      UnpackedKeys(EncodeAll(vs));
      NormKeepsNilKeysAll(vs);
    }
  }

  /* ---- keys that become one ---- */

  const BIG: int := 0x8000_0000

  /** 2^31 as a number and as a big integer, two keys that are read back as one; under the first of
      them a map with a nil key. */
  const HIDDEN: Value := Map(Front(Number(BIG), Map([Null, BigInt(BIG)]), [BigInt(BIG), Number(2)]))

  /** A value without nil keys that has the same bytes. */
  const PLAIN: Value := Map(Front(Number(BIG), Map([]), Front(BigInt(BIG), Null, [BigInt(BIG), Number(2)])))

  function Front(k: Value, v: Value, more: seq<Value>): seq<Value> { [k, v] + more }

  /** What the walks say of a list with an entry in front. */
  lemma FrontIs(k: Value, v: Value, more: seq<Value>, depth: nat)
    ensures var all := Front(k, v, more);
            && EncodeAll(all) == Encode(k) + (Encode(v) + EncodeAll(more))
            && NormAll(all) == Front(Norm(k), Norm(v), NormAll(more))
            && (HeldAll(all) <==> Held(k) && Held(v) && HeldAll(more))
            && (PackableAll(all, depth) <==> Packable(k, depth) && Packable(v, depth) && PackableAll(more, depth))
            && (NoNilKeysAll(all) <==> NoNilKeys(k) && NoNilKeys(v) && NoNilKeysAll(more))
            && (KeysSet(all) <==> !IsNil(k) && KeysSet(more))
  {
    var all := Front(k, v, more);
    assert all[0] == k && all[1] == v && all[1..] == [v] + more && all[2..] == more && all[1..][1..] == more;
    FirstEntry(all, depth);
    FirstOf(all, depth);
    FirstOf(all[1..], depth);
  }

  lemma PairIs(k: Value, v: Value, depth: nat)
    ensures [k, v] == Front(k, v, []) && EncodeAll([k, v]) == Encode(k) + (Encode(v) + [])
    ensures HeldAll([k, v]) <==> Held(k) && Held(v)
    ensures PackableAll([k, v], depth) <==> Packable(k, depth) && Packable(v, depth)
    ensures NoNilKeysAll([k, v]) <==> NoNilKeys(k) && NoNilKeys(v)
    ensures KeysSet([k, v]) <==> !IsNil(k)
    ensures NormAll([k, v]) == [Norm(k), Norm(v)]
  {
    FrontIs(k, v, [], depth);
    assert [k, v] == Front(k, v, []) && Front(Norm(k), Norm(v), []) == [Norm(k), Norm(v)];
  }

  lemma HiddenBytes(h: Bytes, k: Bytes, two: Bytes)
    ensures h + (k + ((h + ([0] + (k + [])) + [0]) + (k + (two + [])))) + [0]
         == h + (k + ((h + [] + [0]) + (k + ([0] + (k + (two + [])))))) + [0]
  {
  }

  lemma SameBytes()
    ensures Encode(HIDDEN) == Encode(PLAIN)
  {
    PairIs(Null, BigInt(BIG), 0);
    PairIs(BigInt(BIG), Number(2), 0);
    FrontIs(Number(BIG), Map([Null, BigInt(BIG)]), [BigInt(BIG), Number(2)], 0);
    FrontIs(BigInt(BIG), Null, [BigInt(BIG), Number(2)], 0);
    FrontIs(Number(BIG), Map([]), Front(BigInt(BIG), Null, [BigInt(BIG), Number(2)]), 0);
    HiddenBytes(EncodeHeader(0), EncodeInt(BIG), EncodeInt(2));
  }

  /** What the walks say of a map is what they say of its entries. */
  lemma MapIs(flat: seq<Value>, depth: nat)
    requires Entries(flat)
    ensures Held(Map(flat)) <==> HeldAll(flat)
    ensures Packable(Map(flat), depth) <==> depth <= MAX_DEPTH && PackableAll(flat, depth + 1)
    ensures NoNilKeys(Map(flat)) <==> KeysSet(flat) && NoNilKeysAll(flat)
  {
  }

  lemma InnerShape()
    ensures Held(Map([Null, BigInt(BIG)])) && Packable(Map([Null, BigInt(BIG)]), 1) && !NoNilKeys(Map([Null, BigInt(BIG)]))
  {
    PairIs(Null, BigInt(BIG), 2);
    MapIs([Null, BigInt(BIG)], 1);
  }

  lemma HiddenShape()
    ensures Held(HIDDEN) && Packable(HIDDEN, 0) && !NoNilKeys(HIDDEN)
  {
    InnerShape();
    PairIs(BigInt(BIG), Number(2), 1);
    FrontIs(Number(BIG), Map([Null, BigInt(BIG)]), [BigInt(BIG), Number(2)], 1);
    MapIs(Front(Number(BIG), Map([Null, BigInt(BIG)]), [BigInt(BIG), Number(2)]), 0);
  }

  lemma PlainShape()
    ensures Held(PLAIN) && Packable(PLAIN, 0) && NoNilKeys(PLAIN)
  {
    var none: seq<Value> := [];
    MapIs(none, 1);
    PairIs(BigInt(BIG), Number(2), 1);
    FrontIs(BigInt(BIG), Null, [BigInt(BIG), Number(2)], 1);
    FrontIs(Number(BIG), Map([]), Front(BigInt(BIG), Null, [BigInt(BIG), Number(2)]), 1);
    MapIs(Front(Number(BIG), Map([]), Front(BigInt(BIG), Null, [BigInt(BIG), Number(2)])), 0);
  }

  /** Entries under one key: the last value stays. */
  lemma LastStays(k: Value, a: Value, c: Value, b: Value)
    requires !IsTable(k)
    ensures BuildMap(Front(k, a, [k, b])) == [k, b]
    ensures BuildMap(Front(k, a, Front(k, c, [k, b]))) == [k, b]
  {
    TwoStay(k, a, b);
    TwoStay(k, a, c);
    assert Front(k, a, [k, b]) == [k, a, k, b] && Front(k, a, [k, c]) == [k, a, k, c];
    assert Front(k, a, Front(k, c, [k, b])) == [k, a, k, c, k, b];
    assert [k, a, k, c, k, b][..4] == [k, a, k, c];
    MapSetHere(k, c, [], b);
    assert [k, c] + [] == [k, c] && [k, b] + [] == [k, b];
  }

  lemma TwoStay(k: Value, a: Value, b: Value)
    requires !IsTable(k)
    ensures BuildMap([k, a, k, b]) == [k, b]
  {
    assert [k, a][..0] == [] && BuildMap([k, a]) == [k, a];
    assert [k, a, k, b][..2] == [k, a];
    MapSetHere(k, a, [], b);
    assert [k, a] + [] == [k, a] && [k, b] + [] == [k, b];
  }

  lemma HiddenNorm()
    ensures Norm(HIDDEN) == LuaTable([], [BigInt(BIG), Number(2)])
  {
    PairIs(BigInt(BIG), Number(2), 0);
    FrontIs(Number(BIG), Map([Null, BigInt(BIG)]), [BigInt(BIG), Number(2)], 0);
    LastStays(BigInt(BIG), Norm(Map([Null, BigInt(BIG)])), Null, Number(2));
  }

  lemma PlainNorm()
    ensures Norm(PLAIN) == LuaTable([], [BigInt(BIG), Number(2)])
  {
    PairIs(BigInt(BIG), Number(2), 0);
    FrontIs(BigInt(BIG), Null, [BigInt(BIG), Number(2)], 0);
    FrontIs(Number(BIG), Map([]), Front(BigInt(BIG), Null, [BigInt(BIG), Number(2)]), 0);
    LastStays(BigInt(BIG), Norm(Map([])), Null, Number(2));
  }

  /** So there a nil key goes unnoticed: what comes back is the value normalised all the same. */
  lemma HiddenNilKey()
    ensures HeldAll([HIDDEN]) && PackableAll([HIDDEN], 0) && !NoNilKeysAll([HIDDEN])
    ensures Unpack(EncodeAll([HIDDEN])) == Some(NormAll([HIDDEN]))
  {
    HiddenShape();
    PlainShape();
    SameBytes();
    HiddenNorm();
    PlainNorm();
    UnpackEncoded([PLAIN]);
  }

  /** A nil key ends its table early: such a map is read back empty, and its bytes go on as values
      of their own. */
  lemma NilKeySplits(v: Value, s: Bytes)
    ensures Decode(Encode(Map([Null, v])) + s) == Some((LuaTable([], []), Encode(v) + [0] + s))
  {
    var flat, h, z := [Null, v], EncodeHeader(0), Encode(v) + [0] + s;
    assert flat[1..] == [v] && [v][1..] == [];
    assert EncodeAll([v]) == Encode(v) + [];
    assert EncodeAll(flat) == [0] + EncodeAll([v]);
    NoEntries(z);
    HeaderRoundTrip(0, [0] + z);
    DecodeParts(h, 0, [0] + z, [], [0] + z, [], z);
    Regroup(h, EncodeAll(flat), s);
    NilFront(Encode(v), s);
  }

  lemma NilFront(a: Bytes, s: Bytes)
    ensures ([0] + (a + [])) + ([0] + s) == [0] + (a + [0] + s)
  {
  }
}
