/** Which service a call is handed to: the address it names, or the service that registered the name. */
module ClusterCalls {
  import opened Wrappers
  import opened Bytes
  import opened Logs
  import opened Framing
  import opened ClusterWire
  import opened Cluster
  import opened ClusterInvariants
  import opened ClusterRuns
  import opened ClusterTheorems

  /** A name without the '@' it may be written with. */
  function Bare(n: Bytes): Bytes { if n != [] && n[0] == 0x40 then n[1..] else n }

  predicate Under(e: NameEntry, key: Bytes) { e.used && e.name == key }

  /** Entry i is the first one registered under the name. */
  ghost predicate FirstUnder(names: seq<NameEntry>, key: Bytes, i: nat)
  {
    i < |names| && Under(names[i], key) && forall j :: 0 <= j < i ==> !Under(names[j], key)
  }

  /** Service h is the one that calls for the target go to. */
  ghost predicate Serves(names: seq<NameEntry>, t: Target, h: U32)
  {
    h != 0 &&
    match t
    case Addr(a) => a == h
    case Named(n) => exists i: nat :: FirstUnder(names, Bare(n), i) && names[i].handle == h
  }

  /** A name nobody registered, or registered by nobody. */
  ghost predicate Unserved(names: seq<NameEntry>, t: Target)
  {
    t.Named? && forall i: nat :: FirstUnder(names, Bare(t.name), i) ==> names[i].handle == 0
  }

  lemma LookupIs(names: seq<NameEntry>, n: Bytes, i: nat)
    requires FirstUnder(names, Bare(n), i)
    ensures NameLookup(names, n) == names[i].handle
  {
    var k := First(names, EntryIs(Bare(n)));
    assert EntryIs(Bare(n))(names[i]);
    assert forall j :: 0 <= j < i ==> !EntryIs(Bare(n))(names[j]) by {
      assert forall j :: 0 <= j < i ==> !Under(names[j], Bare(n));
    }
  }

  lemma LookupNone(names: seq<NameEntry>, n: Bytes)
    requires forall i: nat :: FirstUnder(names, Bare(n), i) ==> names[i].handle == 0
    ensures NameLookup(names, n) == 0
  {
    var k := First(names, EntryIs(Bare(n)));
    if k < |names| {
      assert forall j :: 0 <= j < k ==> !EntryIs(Bare(n))(names[j]);
      assert forall j :: 0 <= j < k ==> !Under(names[j], Bare(n));
      assert EntryIs(Bare(n))(names[k]);
      assert FirstUnder(names, Bare(n), k);
    }
  }

  /** Every target but the name service has one service, or is unserved. */
  lemma ServedOrNot(names: seq<NameEntry>, t: Target)
    requires t != Addr(0)
    ensures (exists h :: Serves(names, t, h)) <==> !Unserved(names, t)
    ensures forall h, k :: Serves(names, t, h) && Serves(names, t, k) ==> h == k
  {
    match t {
      case Addr(a) => assert Serves(names, t, a);
      case Named(n) =>
        forall h, k | Serves(names, t, h) && Serves(names, t, k)
          ensures h == k
        {
          var i: nat :| FirstUnder(names, Bare(n), i) && names[i].handle == h;
          var j: nat :| FirstUnder(names, Bare(n), j) && names[j].handle == k;
          LookupIs(names, n, i);
          LookupIs(names, n, j);
        }
        if !Unserved(names, t) {
          var i: nat :| FirstUnder(names, Bare(n), i) && names[i].handle != 0;
          assert Serves(names, t, names[i].handle);
        }
    }
  }

  /** A call goes to exactly the service its target stands for, with its payload, under the next local
      session if it waits for a reply and under session 0 if it does not. */
  lemma CallForwarded(s: State, ci: nat, c: Call, h: U32)
    requires ci < |s.conns| && Serves(s.names, c.target, h) && First(s.precv, RecvFree()) < |s.precv|
    ensures var t := Dispatch(s, ci, c);
            && t.out == s.out + [Forward(h, if c.push then 0 else s.localCount + 1, c.payload)]
            && t.localCount == s.localCount + 1 && t.psend == s.psend && t.names == s.names
            && t.precv == s.precv[First(s.precv, RecvFree()) := PRecv(!c.push, s.localCount + 1, ci, c.session)]
  {
    ServedLookup(s.names, c.target, h);
  }

  lemma ServedLookup(names: seq<NameEntry>, t: Target, h: U32)
    requires Serves(names, t, h)
    ensures t.Named? ==> NameLookup(names, t.name) == h
  {
    if t.Named? {
      var i: nat :| FirstUnder(names, Bare(t.name), i) && names[i].handle == h;
      LookupIs(names, t.name, i);
    }
  }

  /** With no slot left the caller is told so, and no service is called. */
  lemma CallBusy(s: State, ci: nat, c: Call, h: U32)
    requires ci < |s.conns| && Serves(s.names, c.target, h) && First(s.precv, RecvFree()) == |s.precv|
    ensures Packable(ResponseFrames(c.session, false, CLUSTERD_BUSY))
    ensures Dispatch(s, ci, c).out ==
            if c.push then s.out else s.out + Writes(s.conns[ci].sock, ResponseFrames(c.session, false, CLUSTERD_BUSY))
  {
    ServedLookup(s.names, c.target, h);
    ResponseFits(c.session, false, CLUSTERD_BUSY);
  }

  /** A call by a name nobody registered is refused. */
  lemma CallRefused(s: State, ci: nat, c: Call)
    requires ci < |s.conns| && Unserved(s.names, c.target)
    ensures Packable(ResponseFrames(c.session, false, INVALID_NAME))
    ensures Dispatch(s, ci, c).out ==
            if c.push then s.out else s.out + Writes(s.conns[ci].sock, ResponseFrames(c.session, false, INVALID_NAME))
  {
    LookupNone(s.names, c.target.name);
    ResponseFits(c.session, false, INVALID_NAME);
  }

  /** A query to address 0 for a name in the short string form: the caller is told the handle of the
      first service registered under it, or that there is none. */
  lemma QueryAnswered(s: State, ci: nat, c: Call, q: Bytes, z: Bytes)
    requires ci < |s.conns| && c.target == Addr(0) && |q| < 32 && 0 !in q && c.payload == [4 + 8 * |q|] + q + z
    ensures Packable(ResponseFrames(c.session, false, NAME_NOT_FOUND))
    ensures forall i: nat :: FirstUnder(s.names, Bare(q), i) && s.names[i].handle != 0 ==>
              var fs := ResponseFrames(c.session, true, SeriPackInt(s.names[i].handle));
              Packable(fs) && Dispatch(s, ci, c).out == s.out + Writes(s.conns[ci].sock, fs)
    ensures Unserved(s.names, Named(q)) ==>
              Dispatch(s, ci, c).out == s.out + Writes(s.conns[ci].sock, ResponseFrames(c.session, false, NAME_NOT_FOUND))
  {
    var b := c.payload;
    assert b[1..1 + |q|] == q && b[0] == 4 + 8 * |q|;
    assert SeriFirstString(b) == Some(q);
    CStrWhole(q);
    ResponseFits(c.session, false, NAME_NOT_FOUND);
    forall i: nat | FirstUnder(s.names, Bare(q), i) && s.names[i].handle != 0
      ensures var fs := ResponseFrames(c.session, true, SeriPackInt(s.names[i].handle));
              Packable(fs) && Dispatch(s, ci, c).out == s.out + Writes(s.conns[ci].sock, fs)
    {
      LookupIs(s.names, q, i);
      ResponseFits(c.session, true, SeriPackInt(s.names[i].handle));
    }
    if Unserved(s.names, Named(q)) {
      LookupNone(s.names, q);
    }
  }

  /** A query without a short string in front is refused, unless it is a push. */
  lemma QueryRefused(s: State, ci: nat, c: Call)
    requires ci < |s.conns| && c.target == Addr(0)
    requires c.payload == [] || c.payload[0] % 8 != 4 || 1 + c.payload[0] / 8 > |c.payload|
    ensures Packable(ResponseFrames(c.session, false, INVALID_NAME))
    ensures Dispatch(s, ci, c).out ==
            if c.push then s.out else s.out + Writes(s.conns[ci].sock, ResponseFrames(c.session, false, INVALID_NAME))
  {
    ResponseFits(c.session, false, INVALID_NAME);
  }

  /** The texts callers are refused with. */
  lemma Refusals()
    ensures INVALID_NAME == Ascii("Invalid name") && NAME_NOT_FOUND == Ascii("name not found")
    ensures CLUSTERD_BUSY == Ascii("clusterd busy") && ERROR == Ascii("error")
  {
  }

  function Ascii(t: string): (b: Bytes)
    requires forall i :: 0 <= i < |t| ==> t[i] as int < 128
    ensures |b| == |t|
  {
    seq(|t|, i requires 0 <= i < |t| => t[i] as int)
  }

  /* ---- connections ---- */

  /** An accepted connection, if the table has room, is one that requests are read from: it is ready, has
      nothing buffered and nothing half put together. */
  lemma AcceptedReads(s: State, id: int, c: nat)
    requires c < |s.conns| && !s.conns[c].used && forall d :: 0 <= d < c ==> s.conns[d].used
    ensures var n := OnAccepted(s, id).conns[c];
            n.used && n.sock == id && !n.outbound && n.ready && n.rx == [] && !n.inbound.rq.active && !n.rs.active
    ensures forall d :: 0 <= d < |s.conns| && d != c ==> OnAccepted(s, id).conns[d] == s.conns[d]
  {
    assert ConnFree()(s.conns[c]);
    assert forall d :: 0 <= d < c ==> !ConnFree()(s.conns[d]);
  }

  /** Data on such a connection is entered as received, once, and its frames are folded into calls. */
  lemma DataReceived(s: State, ci: nat, bytes: Bytes)
    requires ci < |s.conns| && ci < MAX_CONN && !s.conns[ci].outbound
    ensures var t, c, fs := ConnData(s, ci, bytes), s.conns[ci], Frames(s.conns[ci].rx + bytes);
            && t.received == s.received + [(c.sock, bytes)]
            && t.dispatched == s.dispatched + Tag(c.sock, InFold(c.inbound, fs).1)
            && |t.conns| == |s.conns| && t.conns[ci].rx == Rest(c.rx + bytes) && t.conns[ci].inbound == InFold(c.inbound, fs).0
  {
    var fs := Frames(s.conns[ci].rx + bytes);
    var s0 := s.(received := s.received + [(s.conns[ci].sock, bytes)]);
    var (q, calls) := InFold(s.conns[ci].inbound, fs);
    QuietRequests(s0, ci, fs);
    var a, u := Absorb(s0, ci, q, calls), HandleFrames(s0, ci, fs);
    assert a.conns[ci].(rs := IDLE) == u.conns[ci].(rs := IDLE);
  }

  /** When the kernel reports a link up, every frame of the requests made of it has been written. */
  lemma LinkUpFlushes(s: State, i: nat, c: nat)
    requires Inv(s) && i < MAX_NODE && s.nodes[i].sock >= 0
    requires c < MAX_CONN && s.conns[c].used && s.conns[c].sock == s.nodes[i].sock
    ensures var t, k := OnConnected(s, s.nodes[i].sock), s.nodes[i].sock;
            && i < |t.nodes| && c < |t.conns| && t.conns[c].ready && t.nodes[i].sock == k && t.nodes[i].queue == []
            && RequestsOn(t.out, k) == FrameBytes(On(t.requests, k))
  {
    var k, t := s.nodes[i].sock, OnConnected(s, s.nodes[i].sock);
    ConnAtUnique(s, k, c);
    FlushedIs(s, k);
    assert NodeOn(k)(s.nodes[i]);
    GoodConnected(s, k);
    assert QueueOk(t, i) && WireOn(t, k);
    assert RequestsOn(t.out, k) + [] == RequestsOn(t.out, k);
  }

  /* ---- over runs ---- */

  /** The name a register command asks for: up to its first NUL, 63 bytes at most. */
  function Asked63(name: Bytes): Bytes { CStr(if |name| < 64 then name else name[..63]) }

  /** The names registered in a run, each with its registrant, in order. */
  function Registrations(es: seq<Event>): seq<(Bytes, U32)>
  {
    if es == [] then []
    else (if es[0].Register? then [(Asked63(es[0].name), es[0].source)] else []) + Registrations(es[1..])
  }

  /** The table holds the registrations so far, in order, as many as it has room for. */
  ghost predicate Records(names: seq<NameEntry>, regs: seq<(Bytes, U32)>)
  {
    && |names| == MAX_NODE
    && forall i :: 0 <= i < MAX_NODE ==>
         if i < |regs| then names[i] == NameEntry(true, regs[i].0, regs[i].1) else !names[i].used
  }

  lemma {:induction false} EmitNames(s: State, ni: nat, fs: seq<Bytes>)
    requires ni < |s.nodes| && Packable(fs)
    ensures EmitAll(s, ni, fs).names == s.names
    decreases |fs|
  {
    if fs != [] {
      EmitNames(EmitFrame(s, ni, fs[0]), ni, fs[1..]);
    }
  }

  lemma SendNames(s: State, e: Event)
    requires Sized(s) && e.Send? && WellFormed(e)
    ensures Step(s, e).names == s.names
  {
    var ni := First(s.nodes, NodeIs(e.name));
    if ni < |s.nodes| {
      var s1 := NodeConnect(s, ni, e.kid).0;
      var session := NextSession(s1.sendSession);
      RequestFits(session, e.target, e.payload, e.push);
      EmitNames(Drawn(s1, ni, Request(session, e.target, e.payload, e.push)), ni, RequestFrames(session, e.target, e.payload, e.push));
    }
  }

  lemma DataNames(s: State, ci: nat, bytes: Bytes)
    requires Sized(s) && ci < |s.conns|
    ensures ConnData(s, ci, bytes).names == s.names
  {
    var fs := Frames(s.conns[ci].rx + bytes);
    if s.conns[ci].outbound {
      QuietResponses(s, ci, fs);
    } else {
      QuietRequests(s.(received := s.received + [(s.conns[ci].sock, bytes)]), ci, fs);
    }
  }

  lemma NodeAtNames(s: State, e: Event)
    requires Sized(s) && e.NodeAt? && WellFormed(e)
    ensures Step(s, e).names == s.names
  {
  }

  lemma OtherNames(s: State, e: Event)
    requires Sized(s) && WellFormed(e) && (e.Connected? || e.Accepted? || e.Closed? || e.Listen? || e.LocalDone?)
    ensures Step(s, e).names == s.names
  {
  }

  /** Only a register command changes the table. */
  lemma StepNames(s: State, e: Event)
    requires Sized(s) && WellFormed(e) && !e.Register?
    ensures Step(s, e).names == s.names
  {
    match e {
      case Data(id, bytes) =>
        if ConnAt(s, id) < |s.conns| {
          DataNames(s, ConnAt(s, id), bytes);
        }
      case Send(_, _, _, _, _, _, _) => SendNames(s, e);
      case NodeAt(_, _, _, _, _) => NodeAtNames(s, e);
      case _ => OtherNames(s, e);
    }
  }

  lemma RegisterNames(s: State, e: Event, regs: seq<(Bytes, U32)>)
    requires Sized(s) && WellFormed(e) && e.Register? && Records(s.names, regs)
    ensures Records(Step(s, e).names, regs + [(Asked63(e.name), e.source)])
  {
    var i := First(s.names, NameFree());
    if |regs| < MAX_NODE {
      assert NameFree()(s.names[|regs|]);
      assert forall k :: 0 <= k < |regs| ==> !NameFree()(s.names[k]);
    }
    assert e.name[..|e.name|] == e.name;
  }

  lemma {:induction false} RunRecords(s: State, es: seq<Event>, regs: seq<(Bytes, U32)>)
    requires Sized(s) && Legal(s, es) && Records(s.names, regs)
    ensures Records(Run(s, es).names, regs + Registrations(es))
    decreases |es|
  {
    if es == [] {
      assert regs + [] == regs;
    } else {
      var e, more := es[0], Registrations(es[1..]);
      StepSized(s, e);
      if e.Register? {
        RegisterNames(s, e, regs);
        RunRecords(Step(s, e), es[1..], regs + [(Asked63(e.name), e.source)]);
        Assoc(regs, [(Asked63(e.name), e.source)], more);
      } else {
        StepNames(s, e);
        RunRecords(Step(s, e), es[1..], regs);
        assert [] + more == more;
      }
    }
  }

  /** In every run the table is the register commands so far, the first 32 of them. */
  lemma TableIsRegistrations(es: seq<Event>)
    requires Legal(Init(), es)
    ensures Records(Run(Init(), es).names, Registrations(es))
  {
    RunRecords(Init(), es, []);
    assert [] + Registrations(es) == Registrations(es);
  }

  /** Registration j is the first under that name. */
  ghost predicate FirstRegistered(regs: seq<(Bytes, U32)>, key: Bytes, j: nat)
  {
    j < |regs| && regs[j].0 == key && forall k :: 0 <= k < j ==> regs[k].0 != key
  }

  /** In every run a call by name reaches the service that registered that name first, if that was
      among the first 32 registrations. */
  lemma NamedCallReaches(es: seq<Event>, s: State, ci: nat, c: Call, j: nat)
    requires Legal(Init(), es) && s == Run(Init(), es) && c.target.Named?
    requires ci < |s.conns| && First(s.precv, RecvFree()) < |s.precv|
    requires FirstRegistered(Registrations(es), Bare(c.target.name), j) && j < 32 && Registrations(es)[j].1 != 0
    ensures Dispatch(s, ci, c).out
         == s.out + [Forward(Registrations(es)[j].1, if c.push then 0 else s.localCount + 1, c.payload)]
  {
    TableIsRegistrations(es);
    NamedCallAt(s, Registrations(es), ci, c, j);
  }

  lemma NamedCallAt(s: State, regs: seq<(Bytes, U32)>, ci: nat, c: Call, j: nat)
    requires Records(s.names, regs) && c.target.Named? && ci < |s.conns| && First(s.precv, RecvFree()) < |s.precv|
    requires FirstRegistered(regs, Bare(c.target.name), j) && j < 32 && regs[j].1 != 0
    ensures Dispatch(s, ci, c).out == s.out + [Forward(regs[j].1, if c.push then 0 else s.localCount + 1, c.payload)]
  {
    FirstIsFirst(s.names, regs, Bare(c.target.name), j);
    assert Serves(s.names, c.target, regs[j].1);
    CallForwarded(s, ci, c, regs[j].1);
  }

  lemma FirstIsFirst(names: seq<NameEntry>, regs: seq<(Bytes, U32)>, key: Bytes, j: nat)
    requires Records(names, regs) && FirstRegistered(regs, key, j) && j < 32
    ensures FirstUnder(names, key, j) && names[j].handle == regs[j].1
  {
  }

  /** ... and if none of those was under that name, the call is refused. */
  lemma UnknownCallRefused(es: seq<Event>, s: State, ci: nat, c: Call)
    requires Legal(Init(), es) && s == Run(Init(), es) && c.target.Named? && ci < |s.conns|
    requires forall k :: 0 <= k < |Registrations(es)| && k < 32 ==> Registrations(es)[k].0 != Bare(c.target.name)
    ensures Packable(ResponseFrames(c.session, false, INVALID_NAME))
    ensures Dispatch(s, ci, c).out ==
            if c.push then s.out else s.out + Writes(s.conns[ci].sock, ResponseFrames(c.session, false, INVALID_NAME))
  {
    TableIsRegistrations(es);
    NoneUnder(s.names, Registrations(es), Bare(c.target.name));
    CallRefused(s, ci, c);
  }

  lemma NoneUnder(names: seq<NameEntry>, regs: seq<(Bytes, U32)>, key: Bytes)
    requires Records(names, regs) && forall k :: 0 <= k < |regs| && k < 32 ==> regs[k].0 != key
    ensures forall i: nat :: !FirstUnder(names, key, i)
  {
  }

  /* ---- nodes by name ---- */

  /** The node registered under the name: the first such entry. */
  ghost predicate NodeUnder(nodes: seq<Node>, name: Bytes, i: nat)
  {
    i < |nodes| && nodes[i].used && nodes[i].name == name && forall j :: 0 <= j < i ==> !(nodes[j].used && nodes[j].name == name)
  }

  lemma NodeUnderIs(nodes: seq<Node>, name: Bytes, i: nat)
    requires NodeUnder(nodes, name, i)
    ensures First(nodes, NodeIs(name)) == i
  {
    assert NodeIs(name)(nodes[i]);
    assert forall j :: 0 <= j < i ==> !NodeIs(name)(nodes[j]);
  }

  /** The entry a node command is about: the node's own, or else the first free one. */
  ghost predicate EntryOf(nodes: seq<Node>, name: Bytes, i: nat)
  {
    || NodeUnder(nodes, name, i)
    || (&& i < |nodes| && !nodes[i].used && (forall j :: 0 <= j < i ==> nodes[j].used)
        && forall j :: 0 <= j < |nodes| ==> !(nodes[j].used && nodes[j].name == name))
  }

  lemma EntryIsFirst(nodes: seq<Node>, name: Bytes, i: nat)
    requires EntryOf(nodes, name, i)
    ensures First(nodes, NodeIs(name)) == i || (First(nodes, NodeIs(name)) == |nodes| && First(nodes, NodeFree()) == i)
    ensures First(nodes, NodeIs(name)) == i ==> nodes[i].used && nodes[i].name == name
  {
    if NodeUnder(nodes, name, i) {
      NodeUnderIs(nodes, name, i);
    } else {
      var k := First(nodes, NodeIs(name));
      assert forall j :: 0 <= j < |nodes| ==> !NodeIs(name)(nodes[j]);
      assert k < |nodes| ==> NodeIs(name)(nodes[k]);
      assert NodeFree()(nodes[i]);
      assert forall j :: 0 <= j < i ==> !NodeFree()(nodes[j]);
    }
  }

  /** A node's entry after the command: its name and port, and the socket it had or was just given. */
  ghost predicate Known(n: Node, m: Node, name: Bytes, port: int, kid: int)
  {
    && m.used && m.name == name && m.port == port
    && (n.used && (n.sock >= 0 || n.connecting) ==> m.sock == n.sock && m.queue == n.queue)
    && (!n.used || (n.sock < 0 && !n.connecting) ==> if port != 0 && kid >= 0 then m.sock == kid && m.connecting else m.sock < 0)
  }

  lemma ConnectEntry(s: State, ni: nat, kid: int)
    requires ni < |s.nodes|
    ensures var n := s.nodes[ni];
            NodeConnect(s, ni, kid).0.nodes ==
            if n.sock < 0 && !n.connecting && n.port != 0 && kid >= 0
            then s.nodes[ni := n.(sock := kid, connecting := true)] else s.nodes
  {
  }

  /** A node command leaves its node known under its name and port, with its link, and every other
      node as it was. */
  lemma NodeKnown(s: State, e: Event, i: nat)
    requires Sized(s) && e.NodeAt? && WellFormed(e) && EntryOf(s.nodes, e.name, i)
    ensures var t := Step(s, e);
            && |t.nodes| == |s.nodes| && Known(s.nodes[i], t.nodes[i], e.name, e.port, e.kid)
            && forall j :: 0 <= j < |s.nodes| && j != i ==> t.nodes[j] == s.nodes[j]
  {
    EntryIsFirst(s.nodes, e.name, i);
    var n := if First(s.nodes, NodeIs(e.name)) < |s.nodes| then s.nodes[i] else NO_NODE.(used := true, name := e.name);
    var s1 := s.(nodes := s.nodes[i := n.(port := e.port)]);
    ConnectEntry(s1, i, e.kid);
    assert Step(s, e) == Ack(NodeConnect(s1, i, e.kid).0, e.source, e.session);
  }

  lemma SendMakes(s: State, e: Event, ni: nat, s1: State)
    requires Sized(s) && e.Send? && WellFormed(e) && ni == First(s.nodes, NodeIs(e.name)) < |s.nodes|
    requires NodeConnect(s, ni, e.kid) == (s1, true) && ni < |s1.nodes|
    ensures Step(s, e).requests == SendRequest(s1, ni, e.target, e.payload, e.push).requests
  {
  }

  lemma ConnectSocket(s: State, i: nat, kid: int) returns (t: State)
    requires Inv(s) && i < |s.nodes| && s.nodes[i].used && kid !in s.sockets
    requires s.nodes[i].sock >= 0 || (s.nodes[i].port != 0 && kid >= 0)
    ensures NodeConnect(s, i, kid) == (t, true) && i < |t.nodes| && t.nodes[i].sock == (if s.nodes[i].sock >= 0 then s.nodes[i].sock else kid)
    ensures t.requests == s.requests && t.issued == s.issued && t.sendSession == SessionOf(s.issued)
  {
    t := NodeConnect(s, i, kid).0;
  }

  /** A request for a node goes onto that node's link: the socket it has, or the one just opened. */
  lemma RequestOnItsLink(s: State, e: Event, i: nat)
    requires Inv(s) && Sized(s) && e.Send? && WellFormed(e) && Fresh(s, e) && NodeUnder(s.nodes, e.name, i)
    requires s.nodes[i].sock >= 0 || (s.nodes[i].port != 0 && e.kid >= 0)
    ensures Step(s, e).requests == s.requests +
            [(if s.nodes[i].sock >= 0 then s.nodes[i].sock else e.kid, Request(SessionOf(s.issued + 1), e.target, e.payload, e.push))]
  {
    NodeUnderIs(s.nodes, e.name, i);
    var s1 := ConnectSocket(s, i, e.kid);
    NextSessionIs(s.issued);
    SendRequestIs(s1, i, Request(SessionOf(s.issued + 1), e.target, e.payload, e.push));
    SendMakes(s, e, i, s1);
  }
}
