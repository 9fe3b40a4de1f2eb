/** gateserver.js over the netpack buffer: what the handler of a gate sees of each socket. */
module Gate {
  import opened Bytes
  import opened Logs
  import opened Framing
  import opened NetPack

  /** A DATA buffer, or the end (CLOSE or ERROR), of a socket. */
  datatype GateEvent = Arrive(fd: int, data: Bytes) | Gone(fd: int)

  /** Bytes held back per socket. */
  type Partials = map<int, Bytes>

  function Get(m: Partials, fd: int): Bytes
  {
    if fd in m then m[fd] else []
  }

  /** One event: the bytes held back afterwards, and the packets given to dispatchMsg. */
  function GateStep(m: Partials, e: GateEvent): (Partials, seq<(int, Bytes)>)
  {
    match e
    case Arrive(fd, data) => (m[fd := Rest(Get(m, fd) + data)], Tag(fd, Frames(Get(m, fd) + data)))
    case Gone(fd) => (m[fd := []], [])
  }

  function GateRun(m: Partials, es: seq<GateEvent>): (Partials, seq<(int, Bytes)>)
    decreases |es|
  {
    if es == [] then (m, [])
    else
      var (m1, a) := GateStep(m, es[0]);
      var (m2, b) := GateRun(m1, es[1..]);
      (m2, a + b)
  }

  function Arrivals(es: seq<GateEvent>): seq<(int, Bytes)>
  {
    if es == [] then []
    else (if es[0].Arrive? then [(es[0].fd, es[0].data)] else []) + Arrivals(es[1..])
  }

  lemma ArrivalsStep(e: GateEvent, es: seq<GateEvent>, fd: int)
    ensures On(Arrivals([e] + es), fd)
         == (if e.Arrive? && e.fd == fd then [e.data] else []) + On(Arrivals(es), fd)
  {
    assert ([e] + es)[1..] == es;
    var x := if e.Arrive? then [(e.fd, e.data)] else [];
    OnAppend(x, Arrivals(es), fd);
    assert e.Arrive? ==> x[1..] == [];
  }

  /** However DATA of any sockets is interleaved and cut, the packets dispatched for one socket are
      the frames of the bytes it sent, in order, and what is held back is their remainder. */
  lemma {:induction false} PerSocket(m: Partials, es: seq<GateEvent>, fd: int)
    requires !HasFrame(Get(m, fd)) && Gone(fd) !in es
    ensures var (m2, log) := GateRun(m, es);
            var stream := Get(m, fd) + Flatten(On(Arrivals(es), fd));
            On(log, fd) == Frames(stream) && Get(m2, fd) == Rest(stream)
    decreases |es|
  {
    var p := Get(m, fd);
    if es == [] {
      assert p + [] == p;
    } else {
      var e, z := es[0], es[1..];
      var (m1, a) := GateStep(m, e);
      var (m2, b) := GateRun(m1, z);
      var more := Flatten(On(Arrivals(z), fd));
      assert es == [e] + z;
      ArrivalsStep(e, z, fd);
      OnAppend(a, b, fd);
      if e.Arrive? && e.fd == fd {
        PerSocket(m1, z, fd);
        OnTag(fd, Frames(p + e.data), fd);
        SplitAppend(p + e.data, more);
        assert ([e.data] + On(Arrivals(z), fd))[1..] == On(Arrivals(z), fd);
        Assoc(p, e.data, more);
      } else {
        assert e != Gone(fd);
        PerSocket(m1, z, fd);
        if e.Arrive? {
          OnTag(e.fd, Frames(Get(m, e.fd) + e.data), fd);
        }
        assert [] + On(Arrivals(z), fd) == On(Arrivals(z), fd) && [] + On(b, fd) == On(b, fd);
      }
    }
  }

  /** Packets a peer packed arrive as they were packed, if none is left half sent. */
  lemma PackedArrive(es: seq<GateEvent>, fd: int, packets: seq<Bytes>)
    requires Packable(packets) && Gone(fd) !in es && Flatten(On(Arrivals(es), fd)) == PackAll(packets)
    ensures On(GateRun(map[], es).1, fd) == packets && Get(GateRun(map[], es).0, fd) == []
  {
    PerSocket(map[], es, fd);
    var w := PackAll(packets);
    assert [] + w == w && w + [] == w;
    SplitUnique(packets, []);
  }

  /* ---- the clients ---- */

  /** The clients known to be open, and how many the server counts. */
  datatype Clients = Clients(open: set<int>, number: int)

  /** A socket accepted ("open"), a socket gone ("close"), a client closed by closeclient. */
  datatype ClientEvent = Opened(fd: int) | Ended(fd: int) | Dropped(fd: int)

  function ClientStep(c: Clients, e: ClientEvent, max: nat): Clients
  {
    match e
    case Opened(fd) => if c.number >= max then c else Clients(c.open + {fd}, c.number + 1)
    case Ended(fd) => Clients(c.open - {fd}, c.number - 1)
    case Dropped(fd) => c.(open := c.open - {fd})
  }

  function ClientRun(c: Clients, es: seq<ClientEvent>, max: nat): Clients
    decreases |es|
  {
    if es == [] then c else ClientRun(ClientStep(c, es[0], max), es[1..], max)
  }

  /** The sockets accepted and let in, and not gone yet. */
  function LiveAfter(live: set<int>, c: Clients, e: ClientEvent, max: nat): set<int>
  {
    match e
    case Opened(fd) => if c.number >= max then live else live + {fd}
    case Ended(fd) => live - {fd}
    case Dropped(_) => live
  }

  /** Sockets come with fresh ids, and the end is only reported of sockets that were let in. */
  predicate OnlyLetIn(live: set<int>, c: Clients, es: seq<ClientEvent>, max: nat)
    decreases |es|
  {
    es == [] ||
    (&& (es[0].Opened? ==> es[0].fd !in live)
     && (es[0].Ended? ==> es[0].fd in live)
     && OnlyLetIn(LiveAfter(live, c, es[0], max), ClientStep(c, es[0], max), es[1..], max))
  }

  lemma {:induction false} LiveCounted(live: set<int>, c: Clients, es: seq<ClientEvent>, max: nat)
    requires c.open <= live && c.number == |live| <= max && OnlyLetIn(live, c, es, max)
    ensures var r := ClientRun(c, es, max); 0 <= r.number <= max && |r.open| <= r.number
    decreases |es|
  {
    if es == [] {
      SubsetSize(c.open, live);
    } else {
      var e := es[0];
      match e {
        case Opened(fd) => assert c.number < max ==> |live + {fd}| == |live| + 1;
        case Ended(fd) => assert |live - {fd}| == |live| - 1;
        case Dropped(_) =>
      }
      LiveCounted(LiveAfter(live, c, e, max), ClientStep(c, e, max), es[1..], max);
    }
  }

  lemma SubsetSize(a: set<int>, b: set<int>)
    requires a <= b
    ensures |a| <= |b|
  {
    assert a + (b - a) == b;
  }

  /** No more clients are open than the limit, in every run in which the end of a socket is reported
      only if it was let in. */
  lemma LimitKept(es: seq<ClientEvent>, max: nat)
    requires OnlyLetIn({}, Clients({}, 0), es, max)
    ensures |ClientRun(Clients({}, 0), es, max).open| <= max
  {
    LiveCounted({}, Clients({}, 0), es, max);
  }

  /** But a socket turned away at the limit is uncounted when its end comes, so that one more is let in. */
  lemma LimitPassed(c: Clients, a: int, b: int, max: nat)
    requires c.number == |c.open| == max && a !in c.open && b !in c.open
    ensures ClientRun(c, [Opened(a), Ended(a), Opened(b)], max).open == c.open + {b}
    ensures |c.open + {b}| == max + 1
  {
    var x, y, z := Opened(a), Ended(a), Opened(b);
    assert [x, y, z][1..] == [y, z] && [y, z][1..] == [z] && [z][1..] == [];
    var d := ClientStep(c, y, max);
    assert d.open == c.open;
    assert ClientRun(d, [z], max) == ClientRun(ClientStep(d, z, max), [], max);
    assert ClientRun(c, [y, z], max) == ClientRun(d, [z], max);
  }

  class GateServer {
    const np: NetPack
    const maxclient: nat
    var clientNumber: int
    var connection: map<int, bool>     // true: open
    var messages: seq<(int, Bytes)>    // given to the user's handler
    var drops: seq<(int, Bytes)>       // refused: the socket is not an open client
    ghost var unread: Partials
    ghost var dispatched: seq<(int, Bytes)>

    /** The bytes the buffer holds back are those held back so far. */
    ghost predicate Tracks()
      requires |np.hash| == HASHSIZE && forall fd :: np.bucket(fd) < HASHSIZE
      reads this`unread, np.hash
    {
      forall fd :: np.Unread(fd) == Get(unread, fd)
    }

    ghost predicate Valid()
      reads this`unread, np, np.ring, np.hash, np.nodes
    {
      np.RingOk() && np.queued == [] && np.HashOk() && Tracks()
    }

    constructor (maxclient: nat)
      ensures Valid() && fresh(np) && unread == map[] && dispatched == messages == drops == [] && connection == map[]
      ensures Known() == Clients({}, 0) && this.maxclient == maxclient
    {
      np := new NetPack(HashFd);
      this.maxclient, clientNumber := maxclient, 0;
      connection, messages, drops, unread, dispatched := map[], [], [], map[], [];
    }

    ghost function Known(): Clients
      reads this`connection, this`clientNumber
    {
      Clients((set fd | fd in connection && connection[fd]), clientNumber)
    }

    /** The "open" event: let in, or turned away at the limit. */
    method OnOpen(fd: int) returns (shut: bool)
      modifies this`connection, this`clientNumber
      ensures Known() == ClientStep(old(Known()), Opened(fd), maxclient)
      ensures shut <==> old(clientNumber) >= maxclient
      ensures !shut ==> Open(fd)
    {
      if clientNumber >= maxclient {
        return true;
      }
      clientNumber := clientNumber + 1;
      connection := connection[fd := true];
      return false;
    }

    /** The "close" event of a client. */
    method OnEnded(fd: int)
      modifies this`connection, this`clientNumber
      ensures Known() == ClientStep(old(Known()), Ended(fd), maxclient) && !Open(fd)
    {
      clientNumber := clientNumber - 1;
      connection := connection - {fd};
    }

    /** closeclient: the socket is closed if it is known. */
    method CloseClient(fd: int) returns (close: bool)
      modifies this`connection
      ensures Known() == ClientStep(old(Known()), Dropped(fd), maxclient) && !Open(fd)
      ensures close <==> fd in old(connection)
    {
      close := fd in connection;
      connection := connection - {fd};
    }

    predicate Open(fd: int)
      reads this`connection
    {
      fd in connection && connection[fd]
    }

    method DispatchMsg(fd: int, msg: Bytes)
      modifies this`messages, this`drops, this`dispatched
      ensures dispatched == old(dispatched) + [(fd, msg)]
      ensures messages == if Open(fd) then old(messages) + [(fd, msg)] else old(messages)
      ensures drops == if Open(fd) then old(drops) else old(drops) + [(fd, msg)]
    {
      dispatched := dispatched + [(fd, msg)];
      if Open(fd) {
        messages := messages + [(fd, msg)];
      } else {
        drops := drops + [(fd, msg)];
      }
    }

    /** The "more" event: pop until the queue is empty. */
    method Drain(fd: int, ghost fs: seq<Bytes>)
      requires np.RingOk() && np.queued == Packets(fd, fs)
      modifies this`messages, this`drops, this`dispatched, np`head, np`queued
      ensures np.RingOk() && np.queued == []
      ensures dispatched == old(dispatched) + Tag(fd, fs)
      ensures messages == if Open(fd) then old(messages) + Tag(fd, fs) else old(messages)
      ensures drops == if Open(fd) then old(drops) else old(drops) + Tag(fd, fs)
    {
      var some, p := np.Pop();
      ghost var todo := fs;
      while some
        invariant np.RingOk() && (if some then [p] + np.queued == Packets(fd, todo) else np.queued == [] && todo == [])
        invariant dispatched + Tag(fd, todo) == old(dispatched) + Tag(fd, fs)
        invariant messages + (if Open(fd) then Tag(fd, todo) else []) == old(messages) + if Open(fd) then Tag(fd, fs) else []
        invariant drops + (if Open(fd) then [] else Tag(fd, todo)) == old(drops) + if Open(fd) then [] else Tag(fd, fs)
        decreases |todo|
      {
        assert todo != [] && p == Packet(fd, todo[0]) && np.queued == Packets(fd, todo)[1..];
        Assoc(dispatched, [(fd, todo[0])], Tag(fd, todo[1..]));
        Assoc(messages, [(fd, todo[0])], Tag(fd, todo[1..]));
        Assoc(drops, [(fd, todo[0])], Tag(fd, todo[1..]));
        assert np.queued == Packets(fd, todo[1..]);
        DispatchMsg(p.id, p.data);
        todo := todo[1..];
        some, p := np.Pop();
      }
      assert dispatched + [] == dispatched && messages + [] == messages && drops + [] == drops;
      assert old(messages) + [] == old(messages) && old(drops) + [] == old(drops);
    }

    /** onSocket, given what filter_data reported: a single packet at once, or all that is queued. */
    method OnFiltered(fd: int, r: Filtered, ghost fs: seq<Bytes>, ghost rest: Bytes)
      requires np.RingOk() && Outcome(r, fs, rest) && np.queued == if r.NpMore? then Packets(fd, fs) else []
      modifies this`messages, this`drops, this`dispatched, np`head, np`queued
      ensures np.RingOk() && np.queued == []
      ensures dispatched == old(dispatched) + Tag(fd, fs)
      ensures messages == if Open(fd) then old(messages) + Tag(fd, fs) else old(messages)
      ensures drops == if Open(fd) then old(drops) else old(drops) + Tag(fd, fs)
    {
      match r {
        case NpNone =>
          assert dispatched + [] == dispatched && messages + [] == messages && drops + [] == drops;
        case NpData(packet) =>
          TagOne(fd, packet);
          DispatchMsg(fd, packet);
        case NpMore => Drain(fd, fs);
      }
    }

    /** js_netpack_dispatch: the buffer takes the bytes. */
    method Reassemble(fd: int, data: Bytes) returns (r: Filtered)
      requires Valid() && data != []
      modifies this`unread, np, np.ring, np.hash, np.nodes
      ensures np.RingOk() && np.HashOk() && Tracks() && unread == old(unread)[fd := Rest(Get(old(unread), fd) + data)]
      ensures var fs := Frames(Get(old(unread), fd) + data);
              && Outcome(r, fs, Rest(Get(old(unread), fd) + data))
              && np.queued == if r.NpMore? then Packets(fd, fs) else []
    {
      ghost var all := Get(unread, fd) + data;
      unread := unread[fd := Rest(all)];
      r := np.Filter(fd, data);
      assert [] + Packets(fd, Frames(all)) == Packets(fd, Frames(all));
    }

    /** A DATA event: everything the buffer completes is dispatched before the next event. */
    method OnData(fd: int, data: Bytes)
      requires Valid() && data != []
      modifies this`messages, this`drops, this`dispatched, this`unread, np, np.ring, np.hash, np.nodes
      ensures Valid()
      ensures var (m, log) := GateStep(old(unread), Arrive(fd, data));
              && unread == m && dispatched == old(dispatched) + log
              && messages == (if Open(fd) then old(messages) + log else old(messages))
              && drops == if Open(fd) then old(drops) else old(drops) + log
    {
      ghost var all := Get(unread, fd) + data;
      var r := Reassemble(fd, data);
      OnFiltered(fd, r, Frames(all), Rest(all));
    }

    /** CLOSE or ERROR: the unfinished packet is dropped. */
    method OnGone(fd: int)
      requires Valid()
      modifies this`unread, np`nodes, np.hash, np.nodes`next
      ensures Valid() && unread == GateStep(old(unread), Gone(fd)).0
    {
      unread := unread[fd := []];
      np.Close(fd);
    }
  }
}
