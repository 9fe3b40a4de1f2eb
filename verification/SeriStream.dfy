/** js-seri.c as it runs: values walked recursively into a buffer that doubles as it fills, and read
    back by advancing a pointer. */
module SeriStream {
  import opened Wrappers
  import opened Bytes
  import opened Seri

  const INIT_CAP: nat := 512
  const MAX_CAP: nat := 0x1000_0000

  /** INIT_CAP doubled k times. */
  function Capacity(k: nat): (c: nat)
    ensures c >= INIT_CAP
  {
    if k == 0 then INIT_CAP else 2 * Capacity(k - 1)
  }

  lemma {:induction false} CapacityGrows(j: nat, k: nat)
    requires j <= k
    ensures Capacity(j) <= Capacity(k)
  {
    if j < k {
      CapacityGrows(j, k - 1);
    }
  }

  /** The ceiling is itself a capacity, so doubling oversteps it only when it must. */
  lemma CeilingReached()
    ensures Capacity(19) == MAX_CAP
  {
    assert Capacity(4) == 16 * INIT_CAP;
    assert Capacity(8) == 16 * Capacity(4) by { assert Capacity(6) == 4 * Capacity(4); }
    assert Capacity(12) == 16 * Capacity(8) by { assert Capacity(10) == 4 * Capacity(8); }
    assert Capacity(16) == 16 * Capacity(12) by { assert Capacity(14) == 4 * Capacity(12); }
    assert Capacity(18) == 4 * Capacity(16);
  }

  class WriteBlock {
    var buf: array<Byte>
    var len: nat
    var oom: bool
    /** Everything pushed so far, whether there was room for it or not. */
    ghost var asked: Bytes
    ghost var doublings: nat

    ghost predicate Valid()
      reads this, buf
    {
      && doublings <= 19 && buf.Length == Capacity(doublings)
      && len <= buf.Length
      && (oom <==> |asked| > MAX_CAP)
      && (!oom ==> buf[..len] == asked)
    }

    /** wb_init. */
    constructor ()
      ensures Valid() && asked == [] && fresh(buf)
    {
      buf := new Byte[INIT_CAP];
      len, oom := 0, false;
      asked, doublings := [], 0;
    }

    /** The capacity wb_push grows to: doubled until there is room. */
    method Grown(need: nat) returns (ncap: nat, ghost k: nat)
      requires doublings <= 19 && buf.Length == Capacity(doublings) < need
      ensures ncap == Capacity(k) >= need
      ensures k <= 19 <==> need <= MAX_CAP
      ensures k <= 19 <==> ncap <= MAX_CAP
    {
      ncap := buf.Length * 2;
      k := doublings + 1;
      while ncap < need
        invariant k > 0 && ncap == Capacity(k) && Capacity(k - 1) < need
        decreases need - ncap
      {
        ncap := ncap * 2;
        k := k + 1;
      }
      CeilingReached();
      if k <= 19 {
        CapacityGrows(k, 19);
      } else {
        CapacityGrows(19, k - 1);
      }
    }

    /** wb_push: nothing once memory has run out, else room is made by doubling. */
    method Push(bytes: Bytes)
      requires Valid()
      modifies this, buf
      ensures Valid() && asked == old(asked) + bytes
      ensures buf == old(buf) || fresh(buf)
    {
      asked := asked + bytes;
      if oom {
        return;
      }
      CeilingReached();
      CapacityGrows(doublings, 19);
      if len + |bytes| > buf.Length {
        ghost var k;
        var ncap;
        ncap, k := Grown(len + |bytes|);
        if ncap > MAX_CAP {
          oom := true;
          return;
        }
        var nbuf := new Byte[ncap];
        forall i | 0 <= i < len {
          nbuf[i] := buf[i];
        }
        assert nbuf[..len] == buf[..len];
        buf, doublings := nbuf, k;
      }
      forall i | 0 <= i < |bytes| {
        buf[len + i] := bytes[i];
      }
      len := len + |bytes|;
    }

    /** pack_one: false when the value is refused. */
    method PackOne(v: Value, depth: nat) returns (ok: bool)
      requires Valid() && Held(v)
      modifies this, buf
      ensures Valid() && (buf == old(buf) || fresh(buf))
      ensures ok <==> Packable(v, depth)
      ensures ok ==> asked == old(asked) + Encode(v)
      decreases v
    {
      if depth > MAX_DEPTH {
        return false;
      }
      ok := true;
      match v
      case Null => Push([0]);
      case Undefined => Push([0]);
      case Boolean(b) => Push([if b then 9 else 1]);
      case Number(n) => Push(EncodeInt(n));
      case BigInt(n) => Push(EncodeInt(n));
      case Real(bits) =>
        Push([66]);
        Push(bits);
        Assoc(old(asked), [66], bits);
      case Text(t) =>
        if |t| >= TWO_31 {
          return false;
        }
        Push(EncodeText(t));
      case Array(items) =>
        if |items| >= TWO_31 {
          return false;
        }
        Push(EncodeHeader(|items|));
        ok := PackAll(items, depth + 1);
        Push([0]);
        Join(old(asked), EncodeHeader(|items|), EncodeAll(items), [0]);
      case Map(flat) =>
        Push(EncodeHeader(0));
        ok := PackAll(flat, depth + 1);
        Push([0]);
        Join(old(asked), EncodeHeader(0), EncodeAll(flat), [0]);
      case Object(flat) =>
        Push(EncodeHeader(0));
        ok := PackAll(flat, depth + 1);
        Push([0]);
        Join(old(asked), EncodeHeader(0), EncodeAll(flat), [0]);
      case LuaTable(items, flat) =>
        if |items| >= TWO_31 {
          return false;
        }
        Push(EncodeHeader(|items|));
        ok := PackAll(items, depth + 1);
        if ok {
          ok := PackAll(flat, depth + 1);
          Push([0]);
          Join(old(asked) + EncodeHeader(|items|), EncodeAll(items), EncodeAll(flat), [0]);
          Join(old(asked), EncodeHeader(|items|), EncodeAll(items), EncodeAll(flat) + [0]);
        }
    }

    /** The element loops of pack_one, over an array or over a flat list of entries. */
    method PackAll(vs: seq<Value>, depth: nat) returns (ok: bool)
      requires Valid() && HeldAll(vs)
      modifies this, buf
      ensures Valid() && (buf == old(buf) || fresh(buf))
      ensures ok <==> PackableAll(vs, depth)
      ensures ok ==> asked == old(asked) + EncodeAll(vs)
      decreases vs
    {
      var i := 0;
      while i < |vs|
        invariant 0 <= i <= |vs|
        invariant Valid() && (buf == old(buf) || fresh(buf))
        invariant HeldAll(vs[i..])
        invariant PackableAll(vs[i..], depth) <==> PackableAll(vs, depth)
        invariant asked + EncodeAll(vs[i..]) == old(asked) + EncodeAll(vs)
      {
        assert vs[i..][1..] == vs[i + 1..];
        ok := PackOne(vs[i], depth);
        if !ok {
          return;
        }
        i := i + 1;
      }
      ok := true;
    }
  }

  lemma Join(a: Bytes, h: Bytes, e: Bytes, z: Bytes)
    ensures a + h + e + z == a + (h + e + z) == a + h + (e + z)
  {
  }

  datatype Packed = Refused | OutOfMemory | Buffer(bytes: Bytes)

  /** js_seri_pack: every value in turn into one buffer. */
  method Pack(vs: seq<Value>) returns (r: Packed)
    requires HeldAll(vs)
    ensures r == if !PackableAll(vs, 0) then Refused
                 else if |EncodeAll(vs)| > MAX_CAP then OutOfMemory
                 else Buffer(EncodeAll(vs))
  {
    var wb := new WriteBlock();
    var ok := wb.PackAll(vs, 0);
    if !ok {
      return Refused;
    }
    assert wb.asked == EncodeAll(vs);
    if wb.oom {
      return OutOfMemory;
    }
    return Buffer(wb.buf[..wb.len]);
  }

  /** The list read as a whole is the values read so far in front of what is still to come. */
  ghost predicate Continues(whole: Option<(seq<Value>, Bytes)>, vs: seq<Value>, tail: Option<(seq<Value>, Bytes)>)
  {
    if tail.None? then whole.None?
    else whole.Some? && whole.value.0 == vs + tail.value.0 && whole.value.1 == tail.value.1
  }

  lemma Starts(whole: Option<(seq<Value>, Bytes)>)
    ensures Continues(whole, [], whole)
  {
    if whole.Some? {
      assert [] + whole.value.0 == whole.value.0;
    }
  }

  /** One more value, or entry, moves from what is to come to what was read. */
  lemma Advances(whole: Option<(seq<Value>, Bytes)>, vs: seq<Value>, one: seq<Value>,
                 tail: Option<(seq<Value>, Bytes)>, next: Option<(seq<Value>, Bytes)>)
    requires Continues(whole, vs, tail) && Continues(tail, one, next)
    ensures Continues(whole, vs + one, next)
  {
    if next.Some? {
      Assoc(vs, one, next.value.0);
    }
  }

  class ReadBlock {
    const buffer: Bytes
    var ptr: nat
    var len: nat

    ghost predicate Valid()
      reads this
    {
      ptr + len == |buffer|
    }

    /** What is still to be read. */
    ghost function Rest(): (r: Bytes)
      requires Valid()
      reads this
      ensures |r| == len
    {
      buffer[ptr..]
    }

    /** rball_init. */
    constructor (b: Bytes)
      ensures Valid() && Rest() == b
    {
      buffer, ptr, len := b, 0, |b|;
    }

    /** rb_read: the next n bytes, or nothing and no move. */
    method Read(n: nat) returns (r: Option<Bytes>)
      requires Valid()
      modifies this
      ensures Valid()
      ensures match Take(n, old(Rest()))
              case None => r == None && Rest() == old(Rest())
              case Some((bytes, rest)) => r == Some(bytes) && Rest() == rest
    {
      if len < n {
        return None;
      }
      r := Some(buffer[ptr..ptr + n]);
      ptr, len := ptr + n, len - n;
      assert old(Rest())[..n] == r.value;
    }

    method GetInteger(cookie: nat) returns (r: Option<int>)
      requires Valid()
      modifies this
      ensures Valid() && len <= old(len)
      ensures match GetInt(cookie, old(Rest()))
              case None => r == None
              case Some((n, rest)) => r == Some(n) && Rest() == rest
    {
      if cookie == 0 {
        return Some(0);
      }
      if cookie !in {1, 2, 4, 6} {
        return None;
      }
      var size := if cookie == 6 then 8 else cookie;
      var b := Read(size);
      if b.None? {
        return None;
      }
      var n := GetLE(b.value);
      return Some(if cookie == 4 then Signed(n, TWO_32) else if cookie == 6 then Signed(n, TWO_64) else n);
    }

    /** The cases of unpack_value that are not tables. */
    method UnpackScalar(ty: nat, cookie: nat) returns (r: Option<Value>)
      requires Valid() && ty != 6
      modifies this
      ensures Valid() && len <= old(len)
      ensures match DecodeScalar(ty, cookie, old(Rest()))
              case None => r == None
              case Some((v, rest)) => r == Some(v) && Rest() == rest
    {
      if ty == 0 {
        return Some(Null);
      } else if ty == 1 {
        return Some(Boolean(cookie != 0));
      } else if ty == 2 && cookie == 8 {
        var bits := Read(8);
        return if bits.None? then None else Some(Real(bits.value));
      } else if ty == 2 {
        var n := GetInteger(cookie);
        return if n.None? then None else Some(if cookie == 6 then BigInt(n.value) else Number(n.value));
      } else if ty == 4 {
        var t := Read(cookie);
        return if t.None? then None else Some(Text(t.value));
      } else if ty == 5 && (cookie == 2 || cookie == 4) {
        var size := Read(cookie);
        if size.None? || GetLE(size.value) >= TWO_31 {
          return None;
        }
        var t := Read(GetLE(size.value));
        return if t.None? then None else Some(Text(t.value));
      }
      return None;
    }

    /** The front of unpack_table: an escaped item count is an integer of its own. */
    method UnpackCount(cookie: nat) returns (r: Option<int>)
      requires Valid()
      modifies this
      ensures Valid() && len <= old(len)
      ensures match GetCount(cookie, old(Rest()))
              case None => r == None
              case Some((n, rest)) => r == Some(n) && Rest() == rest
    {
      if cookie != 31 {
        return Some(cookie);
      }
      var t := Read(1);
      if t.None? {
        return None;
      }
      var head := t.value[0] as int;
      if head % 8 != 2 || head / 8 == 8 {
        return None;
      }
      var n := GetInteger(head / 8);
      return if n.None? then None else Some(Signed(n.value % TWO_32, TWO_32));
    }

    /** unpack_one. */
    method UnpackOne() returns (r: Option<Value>)
      requires Valid()
      modifies this
      ensures Valid() && len <= old(len) && (r.Some? ==> len < old(len))
      ensures match Decode(old(Rest()))
              case None => r == None
              case Some((v, rest)) => r == Some(v) && Rest() == rest
      decreases len, 0
    {
      var t := Read(1);
      if t.None? {
        return None;
      }
      var head := t.value[0] as int;
      ghost var b := old(Rest());
      assert head == b[0] && Rest() == b[1..];
      assert Decode(b) == DecodeAs(head % 8, head / 8, Rest());
      if head % 8 == 6 {
        r := UnpackTable(head / 8);
      } else {
        r := UnpackScalar(head % 8, head / 8);
      }
    }

    /** unpack_table: the items by count, then entries up to a nil key, set into a map in order. */
    method UnpackTable(cookie: nat) returns (r: Option<Value>)
      requires Valid()
      modifies this
      ensures Valid() && len <= old(len)
      ensures match DecodeTable(cookie, old(Rest()))
              case None => r == None
              case Some((v, rest)) => r == Some(v) && Rest() == rest
      decreases len, 2
    {
      var n := UnpackCount(cookie);
      if n.None? {
        return None;
      }
      var items := UnpackItems(n.value);
      if items.None? {
        return None;
      }
      var flat := UnpackEntries();
      if flat.None? {
        return None;
      }
      return Some(LuaTable(items.value, BuildMap(flat.value)));
    }

    /** The first loop of unpack_table. */
    method UnpackItems(n: int) returns (r: Option<seq<Value>>)
      requires Valid()
      modifies this
      ensures Valid() && len <= old(len)
      ensures match DecodeItems(n, old(Rest()))
              case None => r == None
              case Some((vs, rest)) => r == Some(vs) && Rest() == rest
      decreases len, 1
    {
      var vs: seq<Value> := [];
      var i := 0;
      ghost var whole := DecodeItems(n, Rest());
      Starts(whole);
      while i < n
        invariant Valid() && 0 <= i && (i <= n || i == 0) && len <= old(len)
        invariant Continues(whole, vs, DecodeItems(n - i, Rest()))
      {
        ghost var tail := DecodeItems(n - i, Rest());
        var v := UnpackOne();
        if v.None? {
          return None;
        }
        Advances(whole, vs, [v.value], tail, DecodeItems(n - i - 1, Rest()));
        vs := vs + [v.value];
        i := i + 1;
      }
      assert vs + [] == vs;
      return Some(vs);
    }

    /** The second loop of unpack_table. */
    method UnpackEntries() returns (r: Option<seq<Value>>)
      requires Valid()
      modifies this
      ensures Valid() && len <= old(len)
      ensures match DecodeEntries(old(Rest()))
              case None => r == None
              case Some((flat, rest)) => r == Some(flat) && Rest() == rest
      decreases len, 1
    {
      var flat: seq<Value> := [];
      ghost var whole := DecodeEntries(Rest());
      Starts(whole);
      while true
        invariant Valid() && len <= old(len)
        invariant Continues(whole, flat, DecodeEntries(Rest()))
        decreases len
      {
        ghost var tail := DecodeEntries(Rest());
        var k := UnpackOne();
        if k.None? {
          return None;
        }
        if k.value == Null {
          break;
        }
        var v := UnpackOne();
        if v.None? {
          return None;
        }
        Advances(whole, flat, [k.value, v.value], tail, DecodeEntries(Rest()));
        flat := flat + [k.value, v.value];
      }
      assert flat + [] == flat;
      return Some(flat);
    }
  }

  ghost function Whole(b: Bytes): Option<(seq<Value>, Bytes)>
  {
    match Unpack(b) case None => None case Some(vs) => Some((vs, []))
  }

  /** js_seri_unpack: values until the buffer is used up. */
  method UnpackBuffer(b: Bytes) returns (r: Option<seq<Value>>)
    ensures r == Unpack(b)
  {
    var rb := new ReadBlock(b);
    var out: seq<Value> := [];
    Starts(Whole(b));
    while rb.len > 0
      invariant rb.Valid() && fresh(rb)
      invariant Continues(Whole(b), out, Whole(rb.Rest()))
      decreases rb.len
    {
      ghost var tail := Whole(rb.Rest());
      var v := rb.UnpackOne();
      if v.None? {
        return None;
      }
      Advances(Whole(b), out, [v.value], tail, Whole(rb.Rest()));
      out := out + [v.value];
    }
    assert out + [] == out;
    return Some(out);
  }

  /** pack then unpack: the values come back normalised if no table has a nil key, and only if, unless
      two keys of a table become one. */
  method PackThenUnpack(vs: seq<Value>) returns (p: Packed, r: Option<seq<Value>>)
    requires HeldAll(vs)
    ensures p.Buffer? <==> PackableAll(vs, 0) && |EncodeAll(vs)| <= MAX_CAP
    ensures p.Buffer? && NoNilKeysAll(vs) ==> r == Some(NormAll(vs))
    ensures p.Buffer? && KeyedAll(vs) && r == Some(NormAll(vs)) ==> NoNilKeysAll(vs)
  {
    p := Pack(vs);
    r := None;
    if p.Buffer? {
      r := UnpackBuffer(p.bytes);
      UnpackPack(vs);
    }
  }
}
