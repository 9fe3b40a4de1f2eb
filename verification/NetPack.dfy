/** The gate's frame buffer (js-net.c): a ring of finished packets that grows when full, and hash
    chains of unfinished ones, at most one per socket. */
module NetPack {
  import opened Bytes
  import opened Framing

  const QUEUESIZE: nat := 1024
  const HASHSIZE: nat := 4096

  datatype Packet = Packet(id: int, data: Bytes)

  datatype Filtered = NpNone | NpData(packet: Bytes) | NpMore

  function Packets(fd: int, fs: seq<Bytes>): (r: seq<Packet>)
    ensures |r| == |fs| && forall i :: 0 <= i < |fs| ==> r[i] == Packet(fd, fs[i])
  {
    if fs == [] then [] else [Packet(fd, fs[0])] + Packets(fd, fs[1..])
  }

  lemma PacketsStep(q: seq<Packet>, fd: int, b: Bytes)
    requires HasFrame(b)
    ensures q + Packets(fd, Frames(b)) == q + [Packet(fd, FirstFrame(b))] + Packets(fd, Frames(AfterFrame(b)))
  {
    assert Frames(b)[1..] == Frames(AfterFrame(b));
    Assoc(q, [Packet(fd, FirstFrame(b))], Packets(fd, Frames(AfterFrame(b))));
  }

  /** New bytes complete the packet of which `size` and a part are known ... */
  lemma Completed(size: int, buf: Bytes, bytes: Bytes)
    requires |buf| <= size < TWO_16 && size - |buf| <= |bytes|
    ensures var all, packet, rest := BE16(size) + buf + bytes, buf + bytes[..size - |buf|], bytes[size - |buf|..];
            |packet| < TWO_16 && Frames(all) == [packet] + Frames(rest) && Rest(all) == Rest(rest)
  {
    var packet, rest := buf + bytes[..size - |buf|], bytes[size - |buf|..];
    assert BE16(size) + buf + bytes == Pack(packet) + rest;
    PackFirst(packet, rest);
  }

  /** ... or leave it short. */
  lemma StillShort(size: int, buf: Bytes, bytes: Bytes)
    requires 0 <= |buf| + |bytes| < size < TWO_16
    ensures var all := BE16(size) + buf + bytes;
            !HasFrame(all) && all == BE16(size) + (buf + bytes)
  {
    var all := BE16(size) + buf + bytes;
    assert all[0] == BE16(size)[0] && all[1] == BE16(size)[1];
    assert GetBE16(all) == size;
  }

  /** What filter_data reports about the packets that became whole and the bytes left over. */
  predicate Outcome(r: Filtered, fs: seq<Bytes>, rest: Bytes)
  {
    match r
    case NpNone => fs == []
    case NpData(p) => fs == [p] && rest == []
    case NpMore => fs != [] && (|fs| > 1 || rest != [])
  }

  /** hash_fd: sums of the socket id shifted right by 24, 12 and 0, as a 32-bit word. */
  function HashFd(fd: int): (h: nat)
    ensures h < HASHSIZE
  {
    (fd / 0x100_0000 + fd / 0x1000 + fd) % TWO_32 % HASHSIZE
  }

  lemma WrapIs(x: nat, cap: nat)
    requires 0 < cap && x < 2 * cap
    ensures x % cap == if x < cap then x else x - cap
  {
    if x >= cap {
      assert x == cap * 1 + (x - cap);
      assert (x - cap) % cap == x - cap;
      assert (cap + (x - cap)) % cap == (x - cap) % cap;
    }
  }

  class Uncomplete {
    const id: int
    var size: int
    var buf: Bytes
    var read: int
    var header: Byte
    var next: Uncomplete?

    ghost var pending: Bytes  // the bytes of the stream this entry stands for

    /** Only the first length byte is known (read == -1), or part of the packet is there. */
    ghost predicate Valid()
      reads this`size, this`buf, this`read, this`header, this`pending
    {
      || (read == -1 && pending == [header])
      || (0 <= read == |buf| < size < TWO_16 && pending == BE16(size) + buf)
    }

    constructor (fd: int)
      ensures id == fd
    {
      id, size, buf, read, header, next := fd, 0, [], 0, 0, null;
    }

    /** The entry takes new bytes: either they leave it short, or `buf` is now the whole packet
        and `rest` what follows it. */
    method Absorb(data: Bytes) returns (whole: bool, rest: Bytes)
      requires Valid() && data != []
      modifies this`size, this`buf, this`read, this`pending
      ensures !whole ==> Valid() && pending == old(pending) + data && !HasFrame(pending)
      ensures whole ==> |buf| < TWO_16 && Frames(old(pending) + data) == [buf] + Frames(rest)
                        && Rest(old(pending) + data) == Rest(rest)
    {
      var bytes := data;
      if read < 0 {
        size := header as int * 256 + bytes[0] as int;
        buf, read := [], 0;
        bytes := bytes[1..];
        assert pending + data == BE16(size) + buf + bytes;
      }
      var need := size - read;
      pending := pending + data;
      if |bytes| < need {
        StillShort(size, buf, bytes);
        buf := buf + bytes;
        read := read + |bytes|;
        return false, [];
      }
      Completed(size, buf, bytes);
      buf := buf + bytes[..need];
      return true, bytes[need..];
    }
  }

  /** Some entry of the chain is for socket x. */
  ghost predicate Covers(c: seq<Uncomplete>, x: int)
  {
    exists i :: 0 <= i < |c| && c[i].id == x
  }

  ghost predicate Distinct(c: seq<Uncomplete>)
  {
    forall i, j :: 0 <= i < j < |c| ==> c[i].id != c[j].id
  }

  ghost function Without(c: seq<Uncomplete>, k: nat): (d: seq<Uncomplete>)
    requires k < |c|
    ensures |d| == |c| - 1 && forall i :: 0 <= i < |d| ==> d[i] == if i < k then c[i] else c[i + 1]
  {
    c[..k] + c[k + 1..]
  }

  lemma WithoutFacts(c: seq<Uncomplete>, k: nat)
    requires k < |c| && Distinct(c)
    ensures var d := Without(c, k);
            Distinct(d) && (forall i :: 0 <= i < |d| ==> d[i].id != c[k].id)
            && forall x :: Covers(c, x) && x != c[k].id ==> Covers(d, x)
  {
    var d := Without(c, k);
    forall x | Covers(c, x) && x != c[k].id
      ensures Covers(d, x)
    {
      var i :| 0 <= i < |c| && c[i].id == x;
      assert d[if i < k then i else i - 1].id == x;
    }
  }

  /** One bucket of the hash table: a linked list of entries, no two for the same socket. */
  class Chain {
    var first: Uncomplete?
    ghost var c: seq<Uncomplete>
    ghost var partial: map<int, Bytes>  // the unfinished bytes of each socket in the chain

    ghost predicate EntryOk(u: Uncomplete)
      reads this`partial, u`pending
    {
      u.id in partial && partial[u.id] == u.pending
    }

    ghost predicate Linked()
      reads this, c
    {
      && (c == [] ==> first == null) && (c != [] ==> first == c[0])
      && forall i {:trigger c[i].next} :: 0 <= i < |c| ==> c[i].next == if i + 1 < |c| then c[i + 1] else null
    }

    ghost predicate Valid()
      reads this, c
    {
      Linked() && Distinct(c) && (forall i :: 0 <= i < |c| ==> EntryOk(c[i])) && forall x :: x in partial ==> Covers(c, x)
    }

    constructor ()
      ensures Valid() && c == [] && partial == map[]
    {
      first, c, partial := null, [], map[];
    }

    /** find_uncomplete: unlink the socket's entry, if it has one. */
    method Take(fd: int) returns (uc: Uncomplete?)
      requires Valid()
      modifies this, c`next
      ensures Valid() && (uc == null <==> fd !in old(partial)) && partial == old(partial) - {fd}
      ensures forall u :: u in c ==> u in old(c) && u != uc
      ensures uc != null ==> uc in old(c) && uc.id == fd && uc.pending == old(partial)[fd]
    {
      var last: Uncomplete? := null;
      uc := first;
      ghost var k := 0;
      while uc != null && uc.id != fd
        invariant k <= |c| && uc == (if k < |c| then c[k] else null)
        invariant last == if k == 0 then null else c[k - 1]
        invariant forall j :: 0 <= j < k ==> c[j].id != fd
        decreases |c| - k
      {
        assert uc.next == c[k].next;
        last, uc := uc, uc.next;
        k := k + 1;
      }
      if uc == null {
        assert fd in partial ==> Covers(c, fd);
        assert partial - {fd} == partial;
        return;
      }
      assert EntryOk(uc);
      Unlink(k, last, uc);
    }

    method Unlink(ghost k: nat, last: Uncomplete?, uc: Uncomplete)
      requires Valid() && k < |c| && uc == c[k] && last == if k == 0 then null else c[k - 1]
      modifies this, c`next
      ensures Valid() && c == Without(old(c), k) && partial == old(partial) - {uc.id}
    {
      WithoutFacts(c, k);
      assert uc.next == c[k].next;
      ghost var d := Without(c, k);
      if last == null {
        first := uc.next;
      } else {
        last.next := uc.next;
      }
      c, partial := d, partial - {uc.id};
    }

    /** save_uncomplete: link a filled-in entry at the head. */
    method Put(uc: Uncomplete)
      requires Valid() && uc.id !in partial
      modifies this, uc`next
      ensures Valid() && c == [uc] + old(c) && partial == old(partial)[uc.id := uc.pending]
    {
      assert forall i :: 0 <= i < |c| ==> EntryOk(c[i]) && c[i] != uc;
      uc.next := first;
      first := uc;
      ghost var b := c;
      c, partial := [uc] + c, partial[uc.id := uc.pending];
      forall x | x in partial
        ensures Covers(c, x)
      {
        if x == uc.id {
          assert c[0].id == x;
        } else {
          assert Covers(b, x);
          var i :| 0 <= i < |b| && b[i].id == x;
          assert c[i + 1].id == x;
        }
      }
    }
  }

  class NetPack {
    const bucket: int -> nat
    const hash: seq<Chain>
    var ring: array<Packet>
    var head: nat
    var tail: nat
    ghost var queued: seq<Packet>  // what pop will return, in order
    ghost var nodes: set<Uncomplete>

    ghost predicate RingOk()
      reads this`ring, this`head, this`tail, this`queued, ring
    {
      && head < ring.Length && tail < ring.Length
      && queued == if head <= tail then ring[head..tail] else ring[head..] + ring[..tail]
    }

    /** Bucket h is in order, and holds entries for sockets that hash to it. */
    ghost predicate BucketOk(h: nat)
      requires h < |hash|
      reads hash[h], hash[h].c
    {
      hash[h].Valid() && forall u :: u in hash[h].c ==> u.Valid() && bucket(u.id) == h
    }

    ghost predicate HashOk()
      reads this`nodes, hash, nodes
    {
      && |hash| == HASHSIZE && (forall fd :: bucket(fd) < HASHSIZE)
      && (forall h :: 0 <= h < HASHSIZE ==> forall u :: u in hash[h].c ==> u in nodes)
      && (forall g, h :: 0 <= g < h < HASHSIZE ==> hash[g] != hash[h])
      && (forall h :: 0 <= h < HASHSIZE ==> BucketOk(h))
    }

    ghost predicate Valid()
      reads this, ring, hash, nodes
    {
      RingOk() && HashOk()
    }

    /** The bytes of socket fd that do not make a packet yet. */
    ghost function Unread(fd: int): Bytes
      requires |hash| == HASHSIZE && bucket(fd) < HASHSIZE
      reads hash
    {
      var m := hash[bucket(fd)].partial;
      if fd in m then m[fd] else []
    }

    constructor (bucketOf: int -> nat)
      requires forall fd :: bucketOf(fd) < HASHSIZE
      ensures bucket == bucketOf && fresh(ring) && fresh(nodes) && fresh(set c | c in hash)
      ensures Valid() && queued == [] && forall fd :: Unread(fd) == []
    {
      var chains: seq<Chain> := [];
      while |chains| < HASHSIZE
        invariant |chains| <= HASHSIZE
        invariant forall c :: c in chains ==> fresh(c) && c.Valid() && c.c == [] && c.partial == map[]
        invariant forall g, h :: 0 <= g < h < |chains| ==> chains[g] != chains[h]
      {
        var c := new Chain();
        chains := chains + [c];
      }
      bucket, hash := bucketOf, chains;
      ring := new Packet[QUEUESIZE](_ => Packet(0, []));
      head, tail, queued, nodes := 0, 0, [], {};
    }

    /** Buckets share no entries. */
    lemma Apart(h: nat)
      requires HashOk() && h < HASHSIZE
      ensures forall g, u :: 0 <= g < HASHSIZE && g != h && u in hash[g].c ==> u !in hash[h].c
    {
      forall g, u | 0 <= g < HASHSIZE && g != h && u in hash[g].c
        ensures u !in hash[h].c
      {
        assert BucketOk(g) && BucketOk(h);
      }
    }

    /** find_uncomplete in the bucket of fd. */
    method TakeEntry(fd: int) returns (uc: Uncomplete?)
      requires HashOk()
      modifies this`nodes, hash, nodes`next
      ensures HashOk() && nodes == old(nodes) - {uc}
      ensures Unread(fd) == [] && forall x :: x != fd ==> Unread(x) == old(Unread(x))
      ensures uc == null ==> old(Unread(fd)) == []
      ensures uc != null ==> uc.id == fd && uc in old(nodes) && uc.Valid() && uc.pending == old(Unread(fd))
    {
      var h := bucket(fd);
      assert BucketOk(h);
      Apart(h);
      uc := hash[h].Take(fd);
      nodes := nodes - {uc};
      assert BucketOk(h);
      forall g | 0 <= g < HASHSIZE && g != h
        ensures BucketOk(g) && forall u :: u in hash[g].c ==> u in nodes
      {
        assert hash[g] != hash[h] && old(BucketOk(g));
      }
    }

    /** save_uncomplete: a new entry, filled in, goes to the head of its bucket. */
    method SaveEntry(uc: Uncomplete)
      requires HashOk() && uc.Valid() && uc !in nodes && Unread(uc.id) == [] && uc.pending != []
      modifies this`nodes, hash, uc`next
      ensures HashOk() && nodes == old(nodes) + {uc}
      ensures Unread(uc.id) == uc.pending && uc.pending == old(uc.pending)
      ensures forall x :: x != uc.id ==> Unread(x) == old(Unread(x))
    {
      var h := bucket(uc.id);
      assert BucketOk(h);
      EmptyUnread(uc.id);
      hash[h].Put(uc);
      nodes := nodes + {uc};
      assert BucketOk(h);
      forall g | 0 <= g < HASHSIZE && g != h
        ensures BucketOk(g)
      {
        assert hash[g] != hash[h] && old(BucketOk(g)) && uc !in hash[g].c;
      }
    }

    lemma EmptyUnread(fd: int)
      requires HashOk()
      ensures Unread(fd) == [] ==> fd !in hash[bucket(fd)].partial
    {
      var c := hash[bucket(fd)];
      assert BucketOk(bucket(fd));
      if fd in c.partial {
        assert Covers(c.c, fd);
        var i :| 0 <= i < |c.c| && c.c[i].id == fd;
        assert c.EntryOk(c.c[i]) && c.c[i].Valid();
      }
    }

    /** np_expand_queue: the full ring moves to a larger one, in order. */
    method ExpandQueue()
      requires head < ring.Length && head == tail && queued == ring[head..] + ring[..head]
      modifies this`ring, this`head, this`tail
      ensures fresh(ring) && RingOk()
    {
      var cap := ring.Length;
      var q := new Packet[cap + QUEUESIZE](_ => Packet(0, []));
      var i := 0;
      while i < cap
        invariant i <= cap && q[..i] == queued[..i]
        invariant ring == old(ring) && head == old(head) && ring[..] == old(ring[..])
      {
        WrapIs(head + i, cap);
        assert queued[i] == ring[(head + i) % cap];
        q[i] := ring[(head + i) % cap];
        i := i + 1;
      }
      ring, head, tail := q, 0, cap;
    }

    /** np_push_data. */
    method PushData(fd: int, data: Bytes)
      requires RingOk()
      modifies this`ring, this`head, this`tail, this`queued, ring
      ensures RingOk() && queued == old(queued) + [Packet(fd, data)]
      ensures ring == old(ring) || fresh(ring)
    {
      ring[tail] := Packet(fd, data);
      tail := tail + 1;
      if tail >= ring.Length {
        tail := tail - ring.Length;
      }
      queued := queued + [Packet(fd, data)];
      if head == tail {
        assert queued == ring[head..] + ring[..head];
        ExpandQueue();
      }
    }

    /** js_netpack_pop. */
    method Pop() returns (some: bool, p: Packet)
      requires RingOk()
      modifies this`head, this`queued
      ensures RingOk() && some == (old(queued) != [])
      ensures if some then old(queued) == [p] + queued else queued == []
    {
      p := Packet(0, []);
      some := head != tail;
      if some {
        p := ring[head];
        head := head + 1;
        if head >= ring.Length {
          head := 0;
        }
        queued := queued[1..];
      }
    }

    /** Remember bytes that do not make a packet yet: only the first length byte, or a packet
        that is still short. */
    method SavePartial(fd: int, bytes: Bytes)
      requires HashOk() && Unread(fd) == [] && bytes != [] && !HasFrame(bytes)
      modifies this`nodes, hash
      ensures HashOk() && fresh(nodes - old(nodes)) && old(nodes) <= nodes
      ensures Unread(fd) == bytes && forall x :: x != fd ==> Unread(x) == old(Unread(x))
    {
      var uc := new Uncomplete(fd);
      if |bytes| == 1 {
        uc.read, uc.header := -1, bytes[0];
        uc.pending := bytes;
      } else {
        uc.size := GetBE16(bytes);
        uc.read := |bytes| - 2;
        uc.buf := bytes[2..];
        uc.pending := bytes;
        assert bytes == BE16(uc.size) + uc.buf;
      }
      SaveEntry(uc);
    }

    /** push_more: queue every whole packet of what is left ... */
    method QueueAll(fd: int, bytes: Bytes) returns (b: Bytes)
      requires RingOk()
      modifies this`ring, this`head, this`tail, this`queued, ring
      ensures RingOk() && (ring == old(ring) || fresh(ring))
      ensures queued == old(queued) + Packets(fd, Frames(bytes)) && b == Rest(bytes)
    {
      b := bytes;
      while HasFrame(b)
        invariant RingOk() && (ring == old(ring) || fresh(ring))
        invariant queued + Packets(fd, Frames(b)) == old(queued) + Packets(fd, Frames(bytes)) && Rest(b) == Rest(bytes)
        decreases |b|
      {
        PacketsStep(queued, fd, b);
        PushData(fd, FirstFrame(b));
        b := AfterFrame(b);
      }
      assert queued + [] == queued;
    }

    /** ... and keep the rest. */
    method PushMore(fd: int, bytes: Bytes)
      requires Valid() && Unread(fd) == []
      modifies this, ring, hash
      ensures Valid() && fresh(nodes - old(nodes)) && old(nodes) <= nodes && (ring == old(ring) || fresh(ring))
      ensures queued == old(queued) + Packets(fd, Frames(bytes))
      ensures Unread(fd) == Rest(bytes) && forall x :: x != fd ==> Unread(x) == old(Unread(x))
    {
      var b := QueueAll(fd, bytes);
      if b != [] {
        SavePartial(fd, b);
      }
    }

    /** The end of filter_data: a packet is whole; return it if it is all there is, else queue it
        and everything after it. */
    method Deliver(fd: int, packet: Bytes, rest: Bytes) returns (r: Filtered)
      requires Valid() && Unread(fd) == [] && |packet| < TWO_16
      modifies this, ring, hash
      ensures Valid() && fresh(nodes - old(nodes)) && old(nodes) <= nodes && (ring == old(ring) || fresh(ring))
      ensures Unread(fd) == Rest(rest) && forall x :: x != fd ==> Unread(x) == old(Unread(x))
      ensures r == if rest == [] then NpData(packet) else NpMore
      ensures queued == if rest == [] then old(queued) else old(queued) + Packets(fd, [packet] + Frames(rest))
    {
      if rest == [] {
        return NpData(packet);
      }
      PushData(fd, packet);
      PushMore(fd, rest);
      assert ([packet] + Frames(rest))[1..] == Frames(rest);
      Assoc(old(queued), [Packet(fd, packet)], Packets(fd, Frames(rest)));
      return NpMore;
    }

    /** The entry found at the start of filter_data takes the new bytes, or is completed by them. */
    method Continue(uc: Uncomplete, data: Bytes) returns (r: Filtered)
      requires Valid() && data != [] && uc !in nodes && uc.Valid() && Unread(uc.id) == []
      modifies this, ring, hash, uc
      ensures Valid() && fresh(nodes - old(nodes) - {uc}) && (ring == old(ring) || fresh(ring))
      ensures Unread(uc.id) == Rest(old(uc.pending) + data) && forall x :: x != uc.id ==> Unread(x) == old(Unread(x))
      ensures Outcome(r, Frames(old(uc.pending) + data), Unread(uc.id))
      ensures queued == if r.NpMore? then old(queued) + Packets(uc.id, Frames(old(uc.pending) + data)) else old(queued)
    {
      var whole, rest := uc.Absorb(data);
      if whole {
        r := Deliver(uc.id, uc.buf, rest);
      } else {
        SaveEntry(uc);
        r := NpNone;
      }
    }

    /** The socket has no entry: its stream starts afresh with these bytes. */
    method Begin(fd: int, data: Bytes) returns (r: Filtered)
      requires Valid() && data != [] && Unread(fd) == []
      modifies this, ring, hash
      ensures Valid() && fresh(nodes - old(nodes)) && (ring == old(ring) || fresh(ring))
      ensures Unread(fd) == Rest(data) && forall x :: x != fd ==> Unread(x) == old(Unread(x))
      ensures Outcome(r, Frames(data), Unread(fd))
      ensures queued == if r.NpMore? then old(queued) + Packets(fd, Frames(data)) else old(queued)
    {
      if HasFrame(data) {
        r := Deliver(fd, FirstFrame(data), AfterFrame(data));
      } else {
        SavePartial(fd, data);
        r := NpNone;
      }
    }

    /** filter_data: one DATA buffer. What it makes of the socket's stream: the packets that are
        now whole, returned when there is just one and nothing is left over, else queued. */
    method Filter(fd: int, data: Bytes) returns (r: Filtered)
      requires Valid() && data != []
      modifies this, ring, hash, nodes
      ensures Valid() && fresh(nodes - old(nodes)) && (ring == old(ring) || fresh(ring))
      ensures Unread(fd) == Rest(old(Unread(fd)) + data) && forall x :: x != fd ==> Unread(x) == old(Unread(x))
      ensures Outcome(r, Frames(old(Unread(fd)) + data), Unread(fd))
      ensures queued == if r.NpMore? then old(queued) + Packets(fd, Frames(old(Unread(fd)) + data)) else old(queued)
    {
      var uc := TakeEntry(fd);
      if uc != null {
        r := Continue(uc, data);
      } else {
        assert [] + data == data;
        r := Begin(fd, data);
      }
    }

    /** np_close_uncomplete: the socket is gone, and with it its unfinished packet. */
    method Close(fd: int)
      requires HashOk()
      modifies this`nodes, hash, nodes`next
      ensures HashOk() && Unread(fd) == [] && forall x :: x != fd ==> Unread(x) == old(Unread(x))
    {
      var _ := TakeEntry(fd);
    }
  }
}
