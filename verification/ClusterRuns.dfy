/** Runs of the cluster service: an invariant of every reachable state, and what follows. */
module ClusterRuns {
  import opened Wrappers
  import opened Bytes
  import opened Logs
  import opened Framing
  import opened ClusterWire
  import opened Cluster
  import opened ClusterInvariants

  /* ---- the invariant ---- */

  /** A node is `connecting` exactly while it has a socket, only then are frames queued for it,
      and no two nodes share a socket. */
  ghost predicate NodesOk(s: State)
  {
    && |s.nodes| == MAX_NODE
    && (forall i :: 0 <= i < MAX_NODE ==>
          && (s.nodes[i].connecting <==> s.nodes[i].sock >= 0)
          && (s.nodes[i].sock >= 0 ==> s.nodes[i].used && s.nodes[i].sock in s.sockets)
          && (s.nodes[i].queue != [] ==> s.nodes[i].sock >= 0))
    && (forall i, j :: 0 <= i < j < MAX_NODE && s.nodes[i].sock >= 0 ==> s.nodes[i].sock != s.nodes[j].sock)
  }

  ghost predicate ConnsOk(s: State)
  {
    && |s.conns| == MAX_CONN
    && (forall c :: 0 <= c < MAX_CONN && s.conns[c].used ==> 0 <= s.conns[c].sock && s.conns[c].sock in s.sockets)
    && (forall c, d :: 0 <= c < d < MAX_CONN && s.conns[c].used && s.conns[d].used ==> s.conns[c].sock != s.conns[d].sock)
  }

  /** An outstanding request is on a node that has a socket. */
  ghost predicate SlotsOk(s: State)
  {
    && |s.psend| == MAX_PENDING
    && forall i :: 0 <= i < MAX_PENDING && s.psend[i].used ==>
         s.psend[i].nodeIdx < |s.nodes| && s.nodes[s.psend[i].nodeIdx].sock >= 0
  }

  function PackEach(fs: seq<Bytes>): (r: seq<Bytes>)
    requires Packable(fs)
  {
    if fs == [] then [] else [Pack(fs[0])] + PackEach(fs[1..])
  }

  function RequestBytes(r: Request): seq<Bytes>
  {
    if Sendable(r) then
      RequestFits(r.session, r.target, r.payload, r.push);
      PackEach(FramesOf(r))
    else []
  }

  /** The length-prefixed frames of a list of requests. */
  function FrameBytes(rs: seq<Request>): seq<Bytes>
  {
    if rs == [] then [] else RequestBytes(rs[0]) + FrameBytes(rs[1..])
  }

  ghost predicate Untouched(s: State, k: int)
  {
    On(s.requests, k) == [] && On(s.emitted, k) == [] && On(s.received, k) == [] && On(s.dispatched, k) == []
  }

  /** What was emitted for k is the requests' frames; what k was given is a prefix of that. */
  ghost predicate WireOn(s: State, k: int)
  {
    On(s.emitted, k) == FrameBytes(On(s.requests, k)) && RequestsOn(s.out, k) <= On(s.emitted, k)
  }

  /** Frames given to the node's socket, then frames queued, are the frames emitted; nothing is
      queued once the connection is ready. */
  ghost predicate QueueOk(s: State, i: int)
    requires 0 <= i < |s.nodes|
  {
    var n := s.nodes[i];
    n.sock >= 0 ==>
      && RequestsOn(s.out, n.sock) + n.queue == On(s.emitted, n.sock)
      && forall c :: 0 <= c < |s.conns| && s.conns[c].used && s.conns[c].ready && s.conns[c].sock == n.sock ==> n.queue == []
  }

  ghost predicate WireOk(s: State)
  {
    && (forall k :: k !in s.sockets ==> Untouched(s, k))
    && (forall k :: WireOn(s, k))
    && (forall x :: x in s.requests ==> Sendable(x.1))
    && (forall i :: 0 <= i < |s.nodes| ==> QueueOk(s, i))
  }

  /** The calls dispatched for k are the meaning of the bytes it delivered. */
  ghost predicate CallsOk(s: State, k: int)
  {
    On(s.dispatched, k) == InFold(NO_INBOUND, Frames(Flatten(On(s.received, k)))).1
  }

  ghost predicate ReaderOk(s: State, c: int)
    requires 0 <= c < |s.conns|
  {
    var n := s.conns[c];
    n.used && !n.outbound ==>
      var b := Flatten(On(s.received, n.sock));
      n.rx == Rest(b) && n.inbound == InFold(NO_INBOUND, Frames(b)).0
  }

  ghost predicate InboundOk(s: State)
  {
    (forall k :: CallsOk(s, k)) && forall c :: 0 <= c < |s.conns| ==> ReaderOk(s, c)
  }

  /** The k-th session drawn. */
  function SessionOf(k: nat): U32
  {
    if k == 0 then 0 else (k - 1) % MAX_SESSION + 1
  }

  ghost predicate SessionsOk(s: State)
  {
    && s.sendSession == SessionOf(s.issued)
    && RecvOk(s.precv, s.localCount)
    && (forall i :: 0 <= i < |s.psend| && s.psend[i].used ==>
          1 <= s.psend[i].issue <= s.issued && s.psend[i].remoteSession == SessionOf(s.psend[i].issue))
    && (forall i, j :: 0 <= i < j < |s.psend| && s.psend[i].used && s.psend[j].used ==> s.psend[i].issue != s.psend[j].issue)
  }

  ghost predicate Inv(s: State)
  {
    NodesOk(s) && ConnsOk(s) && SlotsOk(s) && WireOk(s) && InboundOk(s) && SessionsOk(s) && |s.names| == MAX_NODE
  }

  lemma InvSized(s: State)
    requires Inv(s)
    ensures Sized(s)
  {
  }

  /** Socket ids come fresh from the kernel. */
  predicate Fresh(s: State, e: Event)
  {
    match e
    case Accepted(id) => id >= 0 && id !in s.sockets
    case NodeAt(_, _, _, _, kid) => kid !in s.sockets
    case Send(_, _, _, _, _, _, kid) => kid !in s.sockets
    case _ => true
  }

  /* ---- steady steps keep it ---- */

  lemma SteadyKeepsNodes(s: State, t: State)
    requires Steady(s, t) && NodesOk(s) && ConnsOk(s) && SlotsOk(s)
    ensures NodesOk(t) && ConnsOk(t) && SlotsOk(t)
  {
    forall c | 0 <= c < MAX_CONN
      ensures t.conns[c].used == s.conns[c].used && t.conns[c].sock == s.conns[c].sock
    {
      assert t.conns[c].(rs := IDLE) == s.conns[c].(rs := IDLE);
    }
  }

  /** Each node keeps its socket and queue, or has neither. */
  ghost predicate SameLinks(a: seq<Node>, b: seq<Node>)
  {
    |a| == |b| && forall i :: 0 <= i < |a| ==> (b[i].sock == a[i].sock && b[i].queue == a[i].queue) || b[i].sock < 0
  }

  /** Connections that are ready in t were so in s, or belong to no node; logs only moved for
      known sockets. */
  ghost predicate SameWire(s: State, t: State)
  {
    && SameLinks(s.nodes, t.nodes) && s.sockets <= t.sockets && t.requests == s.requests && t.emitted == s.emitted
    && (forall k :: RequestsOn(t.out, k) == RequestsOn(s.out, k))
    && (forall k :: k !in s.sockets ==> On(t.received, k) == On(s.received, k) && On(t.dispatched, k) == On(s.dispatched, k))
    && |t.conns| == |s.conns|
    && (forall c :: 0 <= c < |t.conns| && t.conns[c].used && t.conns[c].ready ==>
          (s.conns[c].used && s.conns[c].ready && s.conns[c].sock == t.conns[c].sock)
          || forall i :: 0 <= i < |t.nodes| ==> t.nodes[i].sock != t.conns[c].sock)
  }

  lemma SameWireOk(s: State, t: State)
    requires SameWire(s, t) && WireOk(s)
    ensures WireOk(t)
  {
    forall k
      ensures k !in t.sockets ==> Untouched(t, k)
      ensures WireOn(t, k)
    {
      assert (k !in s.sockets ==> Untouched(s, k)) && WireOn(s, k);
    }
    forall i | 0 <= i < |t.nodes|
      ensures QueueOk(t, i)
    {
      assert QueueOk(s, i);
    }
  }

  lemma SteadyKeepsWire(s: State, t: State)
    requires Steady(s, t) && WireOk(s)
    ensures WireOk(t)
  {
    forall c | 0 <= c < |t.conns|
      ensures t.conns[c].used == s.conns[c].used && t.conns[c].ready == s.conns[c].ready && t.conns[c].sock == s.conns[c].sock
    {
      assert t.conns[c].(rs := IDLE) == s.conns[c].(rs := IDLE);
    }
    SameWireOk(s, t);
  }

  lemma SteadyKeepsReaders(s: State, t: State)
    requires Steady(s, t) && InboundOk(s) && SessionsOk(s)
    ensures InboundOk(t) && SessionsOk(t)
  {
    forall k
      ensures CallsOk(t, k)
    {
      assert CallsOk(s, k);
    }
    forall c | 0 <= c < |t.conns|
      ensures ReaderOk(t, c)
    {
      assert ReaderOk(s, c) && t.conns[c].(rs := IDLE) == s.conns[c].(rs := IDLE);
    }
  }

  /** Readers of t are readers of s with the same state, or have read nothing. */
  ghost predicate SameReaders(s: State, t: State)
  {
    && t.received == s.received && t.dispatched == s.dispatched && |t.conns| == |s.conns|
    && forall c :: 0 <= c < |t.conns| && t.conns[c].used && !t.conns[c].outbound ==>
         var m, n := s.conns[c], t.conns[c];
         || (m.used && !m.outbound && m.sock == n.sock && m.rx == n.rx && m.inbound == n.inbound)
         || (On(t.received, n.sock) == [] && n.rx == [] && n.inbound == NO_INBOUND)
  }

  lemma SameReadersOk(s: State, t: State)
    requires SameReaders(s, t) && InboundOk(s)
    ensures InboundOk(t)
  {
    forall k
      ensures CallsOk(t, k)
    {
      assert CallsOk(s, k);
    }
    forall c | 0 <= c < |t.conns|
      ensures ReaderOk(t, c)
    {
      assert ReaderOk(s, c);
    }
  }

  lemma SteadyKeepsInv(s: State, t: State)
    requires Steady(s, t) && Inv(s)
    ensures Inv(t)
  {
    SteadyKeepsNodes(s, t);
    SteadyKeepsWire(s, t);
    SteadyKeepsReaders(s, t);
  }

  lemma InvInit()
    ensures Inv(Init())
  {
    var s := Init();
    forall k
      ensures Untouched(s, k) && WireOn(s, k) && CallsOk(s, k)
    {
    }
  }

  /* ---- one event at a time ---- */

  /** The answers an event calls for: one per acknowledged command, one per request, and one for
      a push that cannot be started. */
  function Asked(s: State, e: Event): multiset<(U32, int)>
  {
    match e
    case Listen(source, session) => if session == 0 then multiset{} else multiset{(source, session)}
    case Register(source, session, _) => if session == 0 then multiset{} else multiset{(source, session)}
    case NodeAt(source, session, _, _, _) => if session == 0 then multiset{} else multiset{(source, session)}
    case Send(source, session, name, _, _, push, kid) =>
      var ni := First(s.nodes, NodeIs(name));
      if push && ni < |s.nodes| && NodeConnect(s, ni, kid).1 then multiset{} else multiset{(source, session)}
    case _ => multiset{}
  }

  /** t keeps the invariant, and its balance is s's plus what was asked. */
  ghost predicate Good(s: State, t: State, asked: multiset<(U32, int)>)
  {
    Inv(t) && Balance(t) == Balance(s) + asked
  }

  lemma SteadyAck(s: State, source: U32, session: int)
    ensures Steady(s, Ack(s, source, session))
    ensures Balance(Ack(s, source, session)) == Balance(s) + if session == 0 then multiset{} else multiset{(source, session)}
  {
    if session != 0 {
      SteadyAnswer(s, source, session, true);
    }
  }

  lemma SteadyAnswer(s: State, source: U32, session: int, ok: bool)
    ensures var t := s.(out := s.out + [Answer(source, session, ok, [])]);
            Steady(s, t) && Balance(t) == Balance(s) + multiset{(source, session)}
  {
    AnswerOne(s.out, Answer(source, session, ok, []));
  }

  /** One DATA buffer on an inbound connection, before anything is dispatched. */
  ghost function Took(s: State, ci: nat, bytes: Bytes): State
    requires ci < |s.conns|
  {
    var rx := s.conns[ci].rx + bytes;
    var (q, calls) := InFold(s.conns[ci].inbound, Frames(rx));
    SetRx(Absorb(s.(received := s.received + [(s.conns[ci].sock, bytes)]), ci, q, calls), ci, Rest(rx))
  }

  lemma TookLogs(s: State, ci: nat, bytes: Bytes, k: int)
    requires ci < |s.conns|
    ensures var sock, t := s.conns[ci].sock, Took(s, ci, bytes);
            var calls := InFold(s.conns[ci].inbound, Frames(s.conns[ci].rx + bytes)).1;
            && On(t.received, k) == (if k == sock then On(s.received, k) + [bytes] else On(s.received, k))
            && On(t.dispatched, k) == if k == sock then On(s.dispatched, k) + calls else On(s.dispatched, k)
  {
    var sock := s.conns[ci].sock;
    var calls := InFold(s.conns[ci].inbound, Frames(s.conns[ci].rx + bytes)).1;
    OnOne(s.received, sock, bytes, k);
    OnAppend(s.dispatched, Tag(sock, calls), k);
    OnTag(sock, calls, k);
  }

  /** The reader's state and the calls stay the meaning of the bytes delivered so far. */
  lemma TookReads(s: State, ci: nat, bytes: Bytes)
    requires ConnsOk(s) && InboundOk(s) && ci < MAX_CONN && s.conns[ci].used && !s.conns[ci].outbound
    ensures CallsOk(Took(s, ci, bytes), s.conns[ci].sock) && ReaderOk(Took(s, ci, bytes), ci)
  {
    var sock, t := s.conns[ci].sock, Took(s, ci, bytes);
    var b := Flatten(On(s.received, sock));
    assert ReaderOk(s, ci) && CallsOk(s, sock);
    TookLogs(s, ci, bytes, sock);
    FlattenSnoc(On(s.received, sock), bytes);
    SplitAppend(b, bytes);
    InFoldAppend(NO_INBOUND, Frames(b), Frames(s.conns[ci].rx + bytes));
  }

  lemma TookWire(s: State, ci: nat, bytes: Bytes)
    requires ConnsOk(s) && ci < MAX_CONN && s.conns[ci].used
    ensures SameWire(s, Took(s, ci, bytes))
  {
    var t := Took(s, ci, bytes);
    forall k | k !in s.sockets
      ensures On(t.received, k) == On(s.received, k) && On(t.dispatched, k) == On(s.dispatched, k)
    {
      TookLogs(s, ci, bytes, k);
    }
  }

  lemma TookOther(s: State, ci: nat, bytes: Bytes, c: nat)
    requires ConnsOk(s) && ci < MAX_CONN && s.conns[ci].used && c < MAX_CONN && c != ci && ReaderOk(s, c)
    ensures ReaderOk(Took(s, ci, bytes), c)
  {
    var t := Took(s, ci, bytes);
    assert t.conns[c] == s.conns[c];
    if s.conns[c].used {
      assert s.conns[c].sock != s.conns[ci].sock;
      TookLogs(s, ci, bytes, s.conns[c].sock);
    }
  }

  lemma TookCalls(s: State, ci: nat, bytes: Bytes, k: int)
    requires ci < |s.conns| && k != s.conns[ci].sock && CallsOk(s, k)
    ensures CallsOk(Took(s, ci, bytes), k)
  {
    TookLogs(s, ci, bytes, k);
  }

  lemma TookInbound(s: State, ci: nat, bytes: Bytes)
    requires ConnsOk(s) && InboundOk(s) && ci < MAX_CONN && s.conns[ci].used && !s.conns[ci].outbound
    ensures InboundOk(Took(s, ci, bytes))
  {
    var t := Took(s, ci, bytes);
    TookReads(s, ci, bytes);
    forall k
      ensures CallsOk(t, k)
    {
      if k != s.conns[ci].sock {
        TookCalls(s, ci, bytes, k);
      }
    }
    forall c | 0 <= c < |t.conns|
      ensures ReaderOk(t, c)
    {
      if c != ci {
        TookOther(s, ci, bytes, c);
      }
    }
  }

  lemma TookLinks(s: State, ci: nat, bytes: Bytes)
    requires NodesOk(s) && ConnsOk(s) && SlotsOk(s) && SessionsOk(s) && ci < MAX_CONN && s.conns[ci].used
    ensures var t := Took(s, ci, bytes);
            NodesOk(t) && ConnsOk(t) && SlotsOk(t) && SessionsOk(t) && t.names == s.names
  {
  }

  lemma InvTook(s: State, ci: nat, bytes: Bytes)
    requires Inv(s) && ci < MAX_CONN && s.conns[ci].used && !s.conns[ci].outbound
    ensures Inv(Took(s, ci, bytes))
  {
    TookLinks(s, ci, bytes);
    TookWire(s, ci, bytes);
    SameWireOk(s, Took(s, ci, bytes));
    TookInbound(s, ci, bytes);
  }

  lemma SetRxSteady(a: State, u: State, ci: nat, rx: Bytes)
    requires Quiet(a, u) && ci < |a.conns|
    ensures Quiet(SetRx(a, ci, rx), SetRx(u, ci, rx))
  {
    assert a.conns[ci].(rs := IDLE) == u.conns[ci].(rs := IDLE);
  }

  lemma InvOutboundRx(s: State, ci: nat, rx: Bytes)
    requires Inv(s) && ci < MAX_CONN && s.conns[ci].outbound
    ensures Inv(SetRx(s, ci, rx))
  {
    var t := SetRx(s, ci, rx);
    SameWireOk(s, t);
    forall k
      ensures CallsOk(t, k)
    {
      assert CallsOk(s, k);
    }
    forall c | 0 <= c < |t.conns|
      ensures ReaderOk(t, c)
    {
      assert ReaderOk(s, c);
    }
  }

  lemma GoodData(s: State, ci: nat, bytes: Bytes)
    requires Inv(s) && ci < MAX_CONN && s.conns[ci].used
    ensures Good(s, ConnData(s, ci, bytes), multiset{})
  {
    var rx := s.conns[ci].rx + bytes;
    if s.conns[ci].outbound {
      QuietResponses(s, ci, Frames(rx));
      var u := HandleFrames(s, ci, Frames(rx));
      SteadyKeepsInv(s, u);
      assert s.conns[ci].(rs := IDLE) == u.conns[ci].(rs := IDLE);
      InvOutboundRx(u, ci, Rest(rx));
    } else {
      var s0 := s.(received := s.received + [(s.conns[ci].sock, bytes)]);
      var (q, calls) := InFold(s.conns[ci].inbound, Frames(rx));
      InvTook(s, ci, bytes);
      QuietRequests(s0, ci, Frames(rx));
      var a, u := Absorb(s0, ci, q, calls), HandleFrames(s0, ci, Frames(rx));
      SetRxSteady(a, u, ci, Rest(rx));
      SteadyKeepsInv(SetRx(a, ci, Rest(rx)), SetRx(u, ci, Rest(rx)));
    }
  }

  lemma AllocConns(s: State, k: int, outbound: bool, ready: bool)
    requires ConnsOk(s) && k >= 0 && k !in s.sockets
    ensures var t := s.(conns := AllocConn(s.conns, k, outbound, ready), sockets := s.sockets + {k});
            ConnsOk(t) && forall c :: 0 <= c < MAX_CONN ==>
              t.conns[c] == s.conns[c] || t.conns[c] == NO_CONN.(used := true, sock := k, outbound := outbound, ready := ready)
  {
    var i := First(s.conns, ConnFree());
    assert i < MAX_CONN ==> ConnFree()(s.conns[i]);
  }

  lemma InvAlloc(s: State, k: int, outbound: bool, ready: bool)
    requires Inv(s) && k >= 0 && k !in s.sockets
    ensures var t := s.(conns := AllocConn(s.conns, k, outbound, ready), sockets := s.sockets + {k});
            Inv(t) && Untouched(t, k) && forall c :: 0 <= c < |t.conns| && t.conns[c].used && t.conns[c].sock == k ==> t.conns[c].ready == ready
  {
    var t := s.(conns := AllocConn(s.conns, k, outbound, ready), sockets := s.sockets + {k});
    assert Untouched(s, k);
    AllocConns(s, k, outbound, ready);
    assert NodesOk(t) && SlotsOk(t);
    assert SameWire(s, t);
    SameWireOk(s, t);
    assert SameReaders(s, t);
    SameReadersOk(s, t);
  }

  /** A node without a socket takes the fresh one it asked for. */
  lemma InvNodeSock(s: State, ni: nat, k: int)
    requires Inv(s) && ni < MAX_NODE && s.nodes[ni].used && s.nodes[ni].sock < 0
    requires k >= 0 && k in s.sockets && Untouched(s, k)
    requires forall i :: 0 <= i < MAX_NODE ==> s.nodes[i].sock != k
    requires forall c :: 0 <= c < MAX_CONN && s.conns[c].used && s.conns[c].sock == k ==> !s.conns[c].ready
    ensures Inv(s.(nodes := s.nodes[ni := s.nodes[ni].(sock := k, connecting := true)]))
  {
    var t := s.(nodes := s.nodes[ni := s.nodes[ni].(sock := k, connecting := true)]);
    assert NodesOk(t) && SlotsOk(t);
    NodeSockWire(s, ni, k);
    SameReadersOk(s, t);
  }

  lemma NodeSockWire(s: State, ni: nat, k: int)
    requires NodesOk(s) && WireOk(s) && ni < MAX_NODE && s.nodes[ni].sock < 0 && k in s.sockets && Untouched(s, k)
    requires forall i :: 0 <= i < MAX_NODE ==> s.nodes[i].sock != k
    requires forall c :: 0 <= c < |s.conns| && s.conns[c].used && s.conns[c].sock == k ==> !s.conns[c].ready
    ensures WireOk(s.(nodes := s.nodes[ni := s.nodes[ni].(sock := k, connecting := true)]))
  {
    var t := s.(nodes := s.nodes[ni := s.nodes[ni].(sock := k, connecting := true)]);
    forall j
      ensures (j !in t.sockets ==> Untouched(t, j)) && WireOn(t, j)
    {
      assert WireOn(s, j) && (j !in s.sockets ==> Untouched(s, j));
    }
    assert WireOn(s, k);
    forall n | 0 <= n < |t.nodes|
      ensures QueueOk(t, n)
    {
      assert QueueOk(s, n);
    }
  }

  lemma GoodConnect(s: State, ni: nat, kid: int)
    requires Inv(s) && ni < MAX_NODE && s.nodes[ni].used && kid !in s.sockets
    ensures var (t, up) := NodeConnect(s, ni, kid);
            Good(s, t, multiset{}) && t.psend == s.psend && t.out == s.out && (up ==> t.nodes[ni].sock >= 0)
  {
    var n := s.nodes[ni];
    if n.sock < 0 && n.port != 0 && kid >= 0 {
      InvAlloc(s, kid, true, false);
      var t := s.(conns := AllocConn(s.conns, kid, true, false), sockets := s.sockets + {kid});
      InvNodeSock(t, ni, kid);
    }
  }

  /** Registering a node writes only its name and port. */
  lemma InvNodeEntry(s: State, ni: nat, n: Node)
    requires Inv(s) && ni < MAX_NODE && n.used
    requires n.sock == s.nodes[ni].sock || (s.nodes[ni].sock < 0 && n.sock < 0)
    requires n.queue == s.nodes[ni].queue && n.connecting == s.nodes[ni].connecting
    ensures Inv(s.(nodes := s.nodes[ni := n]))
  {
    var t := s.(nodes := s.nodes[ni := n]);
    assert NodesOk(t) && SlotsOk(t);
    SameWireOk(s, t);
    SameReadersOk(s, t);
  }

  lemma GoodNodeAt(s: State, source: U32, session: int, name: Bytes, port: int, kid: int)
    requires Inv(s) && kid !in s.sockets
    ensures Good(s, OnNodeAt(s, source, session, name, port, kid), if session == 0 then multiset{} else multiset{(source, session)})
  {
    var i, j := First(s.nodes, NodeIs(name)), First(s.nodes, NodeFree());
    var ni := if i < |s.nodes| then i else j;
    if ni == |s.nodes| {
      SteadyAck(s, source, session);
      SteadyKeepsInv(s, Ack(s, source, session));
    } else {
      var n := (if i < |s.nodes| then s.nodes[i] else NO_NODE.(used := true, name := name)).(port := port);
      assert i < |s.nodes| ==> NodeIs(name)(s.nodes[i]);
      assert i == |s.nodes| ==> NodeFree()(s.nodes[j]);
      InvNodeEntry(s, ni, n);
      var s1 := s.(nodes := s.nodes[ni := n]);
      GoodConnect(s1, ni, kid);
      var t := NodeConnect(s1, ni, kid).0;
      SteadyAck(t, source, session);
      SteadyKeepsInv(t, Ack(t, source, session));
    }
  }

  /* ---- sending a request ---- */

  lemma {:induction false} FlushedRequests(sock: int, q: seq<Bytes>, k: int)
    ensures RequestsOn(Flushed(sock, q), k) == if k == sock then q else []
    ensures Answers(Flushed(sock, q)) == multiset{}
  {
    if q != [] {
      FlushedRequests(sock, q[1..], k);
      assert Flushed(sock, q)[1..] == Flushed(sock, q[1..]);
    }
  }

  /** Emitting packed frames to node ni, in one go: to a ready connection, else to the queue. */
  ghost function Emitted(s: State, ni: nat, z: seq<Bytes>): State
    requires ni < |s.nodes|
  {
    var n, c := s.nodes[ni], ConnAt(s, s.nodes[ni].sock);
    var s1 := s.(emitted := s.emitted + Tag(n.sock, z));
    if c < |s.conns| && s.conns[c].ready then s1.(out := s.out + Flushed(n.sock, z))
    else s1.(nodes := s.nodes[ni := n.(queue := n.queue + z)])
  }

  lemma {:induction false} FlushedAppend(sock: int, a: seq<Bytes>, b: seq<Bytes>)
    ensures Flushed(sock, a + b) == Flushed(sock, a) + Flushed(sock, b)
  {
    if a == [] {
      assert a + b == b;
    } else {
      FlushedAppend(sock, a[1..], b);
      assert (a + b)[1..] == a[1..] + b;
    }
  }

  lemma EmittedNone(s: State, ni: nat)
    requires ni < |s.nodes|
    ensures Emitted(s, ni, []) == s
  {
    assert s.emitted + [] == s.emitted && s.out + [] == s.out;
    assert s.nodes[ni].(queue := s.nodes[ni].queue + []) == s.nodes[ni];
    assert s.nodes[ni := s.nodes[ni]] == s.nodes;
  }

  lemma EmittedTwice(s: State, ni: nat, a: seq<Bytes>, b: seq<Bytes>)
    requires ni < |s.nodes|
    ensures Emitted(Emitted(s, ni, a), ni, b) == Emitted(s, ni, a + b)
  {
    var n := s.nodes[ni];
    TagAppend(n.sock, a, b);
    FlushedAppend(n.sock, a, b);
    assert s.emitted + Tag(n.sock, a) + Tag(n.sock, b) == s.emitted + (Tag(n.sock, a) + Tag(n.sock, b));
    assert s.out + Flushed(n.sock, a) + Flushed(n.sock, b) == s.out + (Flushed(n.sock, a) + Flushed(n.sock, b));
    assert n.queue + a + b == n.queue + (a + b);
    assert s.nodes[ni := n.(queue := n.queue + a)][ni := n.(queue := n.queue + a + b)] == s.nodes[ni := n.(queue := n.queue + a + b)];
  }

  lemma EmitFrameIs(s: State, ni: nat, content: Bytes)
    requires ni < |s.nodes| && |content| < TWO_16
    ensures EmitFrame(s, ni, content) == Emitted(s, ni, [Pack(content)])
  {
    var n, f, c := s.nodes[ni], Pack(content), ConnAt(s, s.nodes[ni].sock);
    var none: seq<Bytes> := []; assert [f][1..] == none && Tag(n.sock, [f]) == [(n.sock, f)] && Flushed(n.sock, [f]) == [Wrote(n.sock, f, true)];
    if c < |s.conns| {
      assert ConnIs(n.sock)(s.conns[c]);
    }
  }

  lemma {:induction false} EmitAllIsEmitted(s: State, ni: nat, fs: seq<Bytes>)
    requires ni < |s.nodes| && Packable(fs)
    ensures EmitAll(s, ni, fs) == Emitted(s, ni, PackEach(fs))
    decreases |fs|
  {
    if fs == [] {
      EmittedNone(s, ni);
    } else {
      EmitFrameIs(s, ni, fs[0]);
      EmitAllIsEmitted(EmitFrame(s, ni, fs[0]), ni, fs[1..]);
      EmittedTwice(s, ni, [Pack(fs[0])], PackEach(fs[1..]));
    }
  }

  lemma EmittedOnLog(s: State, ni: nat, z: seq<Bytes>, k: int)
    requires ni < |s.nodes|
    ensures On(Emitted(s, ni, z).emitted, k) == if k == s.nodes[ni].sock then On(s.emitted, k) + z else On(s.emitted, k)
  {
    OnAppend(s.emitted, Tag(s.nodes[ni].sock, z), k);
    OnTag(s.nodes[ni].sock, z, k);
  }

  lemma EmittedRequests(s: State, ni: nat, z: seq<Bytes>, k: int)
    requires ni < |s.nodes|
    ensures var sock, t := s.nodes[ni].sock, Emitted(s, ni, z);
            && (k != sock ==> RequestsOn(t.out, k) == RequestsOn(s.out, k))
            && (if ConnAt(s, sock) < |s.conns| && s.conns[ConnAt(s, sock)].ready
                then t.nodes == s.nodes && RequestsOn(t.out, sock) == RequestsOn(s.out, sock) + z
                else t.nodes[ni].queue == s.nodes[ni].queue + z && t.out == s.out)
  {
    var sock := s.nodes[ni].sock;
    RequestsAppend(s.out, Flushed(sock, z), k);
    FlushedRequests(sock, z, k);
    RequestsAppend(s.out, Flushed(sock, z), sock);
    FlushedRequests(sock, z, sock);
  }

  /** Bytes handed over, then bytes queued, stay the frames emitted. */
  lemma EmittedOrder(s: State, ni: nat, z: seq<Bytes>)
    requires ni < |s.nodes| && s.nodes[ni].sock >= 0 && QueueOk(s, ni)
    ensures var t := Emitted(s, ni, z);
            RequestsOn(t.out, s.nodes[ni].sock) + t.nodes[ni].queue == On(t.emitted, s.nodes[ni].sock)
  {
    var n, t, c := s.nodes[ni], Emitted(s, ni, z), ConnAt(s, s.nodes[ni].sock);
    EmittedOnLog(s, ni, z, n.sock);
    EmittedRequests(s, ni, z, n.sock);
    var done := RequestsOn(s.out, n.sock);
    if c < |s.conns| && s.conns[c].ready {
      assert ConnIs(n.sock)(s.conns[c]);
      assert n.queue == [] && done + [] == done;
      assert done + z + [] == done + z;
    } else {
      Assoc(done, n.queue, z);
    }
  }

  lemma {:induction false} FrameBytesSnoc(a: seq<Request>, r: Request)
    ensures FrameBytes(a + [r]) == FrameBytes(a) + RequestBytes(r)
  {
    if a == [] {
      assert [r][1..] == [] && RequestBytes(r) + [] == RequestBytes(r) && [] + RequestBytes(r) == RequestBytes(r);
      assert a + [r] == [r];
    } else {
      FrameBytesSnoc(a[1..], r);
      assert (a + [r])[1..] == a[1..] + [r];
      assert (a + [r])[0] == a[0];
      Assoc(RequestBytes(a[0]), FrameBytes(a[1..]), RequestBytes(r));
    }
  }

  lemma SendRequestIs(s: State, ni: nat, r: Request)
    requires ni < |s.nodes| && Sendable(r) && r.session == NextSession(s.sendSession)
    ensures SendRequest(s, ni, r.target, r.payload, r.push) == Emitted(Drawn(s, ni, r), ni, RequestBytes(r))
  {
    RequestFits(r.session, r.target, r.payload, r.push);
    EmitAllIsEmitted(Drawn(s, ni, r), ni, FramesOf(r));
  }

  lemma NextSessionIs(k: nat)
    ensures NextSession(SessionOf(k)) == SessionOf(k + 1) && 1 <= SessionOf(k + 1) <= MAX_SESSION
  {
  }

  /** The logs after a request on node ni, seen from socket k. */
  lemma SendLogs(s: State, ni: nat, r: Request, k: int)
    requires ni < |s.nodes| && Sendable(r) && WireOn(s, k)
    requires s.nodes[ni].sock == k ==> QueueOk(s, ni)
    requires s.nodes[ni].sock >= 0
    ensures var sock, t := s.nodes[ni].sock, Emitted(Drawn(s, ni, r), ni, RequestBytes(r));
            && WireOn(t, k)
            && (k != sock ==> On(t.requests, k) == On(s.requests, k) && On(t.emitted, k) == On(s.emitted, k)
                              && RequestsOn(t.out, k) == RequestsOn(s.out, k))
            && (k == sock ==> RequestsOn(t.out, k) + t.nodes[ni].queue == On(t.emitted, k))
  {
    var d := Drawn(s, ni, r);
    OnOne(s.requests, s.nodes[ni].sock, r, k);
    FrameBytesSnoc(On(s.requests, k), r);
    EmittedOnLog(d, ni, RequestBytes(r), k);
    EmittedRequests(d, ni, RequestBytes(r), k);
    if k == s.nodes[ni].sock {
      assert QueueOk(d, ni);
      EmittedOrder(d, ni, RequestBytes(r));
    }
  }

  lemma ConnAtSame(s: State, k: int)
    requires ConnAt(s, k) < |s.conns|
    ensures s.conns[ConnAt(s, k)].used && s.conns[ConnAt(s, k)].sock == k
  {
    assert ConnIs(k)(s.conns[ConnAt(s, k)]);
  }

  lemma ConnAtUnique(s: State, k: int, e: nat)
    requires ConnsOk(s) && e < MAX_CONN && s.conns[e].used && s.conns[e].sock == k
    ensures ConnAt(s, k) == e
  {
    assert ConnIs(k)(s.conns[e]);
    ConnAtSame(s, k);
  }

  lemma SendKeepsQueues(s: State, ni: nat, r: Request, i: nat)
    requires NodesOk(s) && ConnsOk(s) && WireOk(s) && ni < MAX_NODE && Sendable(r) && s.nodes[ni].sock >= 0 && i < MAX_NODE
    ensures var t := Emitted(Drawn(s, ni, r), ni, RequestBytes(r));
            i < |t.nodes| && QueueOk(t, i)
  {
    var d, t := Drawn(s, ni, r), Emitted(Drawn(s, ni, r), ni, RequestBytes(r));
    var sock := s.nodes[i].sock;
    assert QueueOk(s, i) && QueueOk(s, ni) && WireOn(s, sock);
    SendLogs(s, ni, r, sock);
    EmittedRequests(d, ni, RequestBytes(r), sock);
    if i == ni {
      var c := ConnAt(d, sock);
      if c < |d.conns| && d.conns[c].ready {
        assert t.nodes == s.nodes;
      } else {
        forall e | 0 <= e < |t.conns| && t.conns[e].used && t.conns[e].sock == sock
          ensures e == c
        {
          ConnAtUnique(d, sock, e);
        }
      }
    }
  }

  lemma SendKeepsWire(s: State, ni: nat, r: Request)
    requires NodesOk(s) && ConnsOk(s) && WireOk(s) && ni < MAX_NODE && Sendable(r) && s.nodes[ni].sock >= 0
    ensures WireOk(Emitted(Drawn(s, ni, r), ni, RequestBytes(r)))
  {
    var t := Emitted(Drawn(s, ni, r), ni, RequestBytes(r));
    assert QueueOk(s, ni);
    forall k
      ensures (k !in t.sockets ==> Untouched(t, k)) && WireOn(t, k)
    {
      assert WireOn(s, k) && (k !in s.sockets ==> Untouched(s, k));
      SendLogs(s, ni, r, k);
    }
    forall i | 0 <= i < |t.nodes|
      ensures QueueOk(t, i)
    {
      SendKeepsQueues(s, ni, r, i);
    }
  }

  lemma SendKeepsLinks(s: State, ni: nat, r: Request)
    requires NodesOk(s) && ConnsOk(s) && SlotsOk(s) && ni < MAX_NODE && s.nodes[ni].sock >= 0
    ensures var u := Emitted(Drawn(s, ni, r), ni, RequestBytes(r));
            NodesOk(u) && ConnsOk(u) && SlotsOk(u) && u.nodes[ni].sock == s.nodes[ni].sock
  {
  }

  lemma SendKeepsSessions(s: State, ni: nat, r: Request)
    requires SessionsOk(s) && ni < |s.nodes| && r.session == NextSession(s.sendSession)
    ensures SessionsOk(Emitted(Drawn(s, ni, r), ni, RequestBytes(r)))
  {
    NextSessionIs(s.issued);
  }

  lemma SendKeepsBalance(s: State, ni: nat, r: Request)
    requires ni < |s.nodes|
    ensures Balance(Emitted(Drawn(s, ni, r), ni, RequestBytes(r))) == Balance(s)
  {
    AnswersAppend(s.out, Flushed(s.nodes[ni].sock, RequestBytes(r)));
    FlushedRequests(s.nodes[ni].sock, RequestBytes(r), 0);
  }

  lemma GoodSendRequest(s: State, ni: nat, t: Target, payload: Bytes, push: bool)
    requires Inv(s) && ni < MAX_NODE && s.nodes[ni].sock >= 0 && ValidTarget(t) && |payload| < TWO_32
    ensures var u := SendRequest(s, ni, t, payload, push);
            && Good(s, u, multiset{}) && u.psend == s.psend && u.issued == s.issued + 1
            && u.nodes[ni].sock == s.nodes[ni].sock
  {
    var r := Request(NextSession(s.sendSession), t, payload, push);
    NextSessionIs(s.issued);
    SendRequestIs(s, ni, r);
    SendKeepsLinks(s, ni, r);
    SendKeepsWire(s, ni, r);
    SendKeepsSessions(s, ni, r);
    SendKeepsBalance(s, ni, r);
    SameReadersOk(s, Emitted(Drawn(s, ni, r), ni, RequestBytes(r)));
  }

  lemma SlotKeepsSessions(s: State, i: nat, p: PSend)
    requires SessionsOk(s) && i < |s.psend| && p.used && p.issue == s.issued >= 1 && p.remoteSession == s.sendSession
    requires forall j :: 0 <= j < |s.psend| && s.psend[j].used ==> s.psend[j].issue < s.issued
    ensures SessionsOk(s.(psend := s.psend[i := p]))
  {
  }

  lemma SlotKeepsLinks(s: State, i: nat, p: PSend)
    requires NodesOk(s) && ConnsOk(s) && SlotsOk(s) && WireOk(s) && InboundOk(s)
    requires i < MAX_PENDING && p.nodeIdx < MAX_NODE && s.nodes[p.nodeIdx].sock >= 0
    ensures var t := s.(psend := s.psend[i := p]);
            NodesOk(t) && ConnsOk(t) && SlotsOk(t) && WireOk(t) && InboundOk(t)
  {
    var t := s.(psend := s.psend[i := p]);
    SameWireOk(s, t);
    SameReadersOk(s, t);
  }

  lemma SlotBalance(s: State, i: nat, p: PSend)
    requires i < |s.psend| && !s.psend[i].used && p.used
    ensures Balance(s.(psend := s.psend[i := p])) == Balance(s) + multiset{(p.source, p.jsSession)}
  {
    PendingUpdate(s.psend, i, p);
    var x := multiset{(p.source, p.jsSession)};
    assert Pending(s.psend[i := p]) == Pending(s.psend) + x;
    assert Answers(s.out) + (Pending(s.psend) + x) == Answers(s.out) + Pending(s.psend) + x;
  }

  /** A free slot takes the request just sent. */
  lemma GoodSlot(s: State, i: nat, p: PSend)
    requires Inv(s) && i < MAX_PENDING && !s.psend[i].used && p.used
    requires p.nodeIdx < MAX_NODE && s.nodes[p.nodeIdx].sock >= 0
    requires p.issue == s.issued >= 1 && p.remoteSession == s.sendSession
    requires forall j :: 0 <= j < MAX_PENDING && s.psend[j].used ==> s.psend[j].issue < s.issued
    ensures Good(s, s.(psend := s.psend[i := p]), multiset{(p.source, p.jsSession)})
  {
    SlotKeepsSessions(s, i, p);
    SlotKeepsLinks(s, i, p);
    SlotBalance(s, i, p);
  }

  lemma GoodSend(s: State, e: Event)
    requires Inv(s) && e.Send? && WellFormed(e) && Fresh(s, e)
    ensures Good(s, Step(s, e), Asked(s, e))
  {
    var ni := First(s.nodes, NodeIs(e.name));
    if ni == |s.nodes| {
      SteadyAnswer(s, e.source, e.session, false);
      SteadyKeepsInv(s, Step(s, e));
    } else {
      assert NodeIs(e.name)(s.nodes[ni]);
      GoodConnect(s, ni, e.kid);
      var (s1, up) := NodeConnect(s, ni, e.kid);
      if !up {
        SteadyAnswer(s, e.source, e.session, false);
        SteadyKeepsInv(s, Step(s, e));
      } else {
        GoodSendRequest(s1, ni, e.target, e.payload, e.push);
        var s2 := SendRequest(s1, ni, e.target, e.payload, e.push);
        if !e.push {
          var i := First(s2.psend, SendFree());
          if i == |s2.psend| {
            SteadyAnswer(s2, e.source, e.session, false);
            SteadyKeepsInv(s2, Step(s, e));
          } else {
            assert SendFree()(s2.psend[i]);
            GoodSlot(s2, i, PSend(true, s2.sendSession, e.source, e.session, ni, s2.issued));
          }
        }
      }
    }
  }

  /* ---- connections coming up and going down ---- */

  lemma FlushedIs(s: State, id: int)
    requires NodesOk(s) && ConnsOk(s) && ConnAt(s, id) < |s.conns|
    ensures var c, ni, t := ConnAt(s, id), First(s.nodes, NodeOn(id)), OnConnected(s, id);
            && t.conns == s.conns[c := s.conns[c].(ready := true)]
            && s.conns[c].used && s.conns[c].sock == id >= 0
            && (ni == |s.nodes| ==> t == s.(conns := t.conns))
            && (ni < |s.nodes| ==>
                  && s.nodes[ni].used && s.nodes[ni].sock == id
                  && t == s.(conns := t.conns, out := s.out + Flushed(id, s.nodes[ni].queue),
                             nodes := s.nodes[ni := s.nodes[ni].(queue := [])]))
  {
    var c, ni := ConnAt(s, id), First(s.nodes, NodeOn(id));
    ConnAtSame(s, id);
    var s1 := s.(conns := s.conns[c := s.conns[c].(ready := true)]);
    assert ConnIs(id)(s1.conns[c]) && forall d :: 0 <= d < c ==> !ConnIs(id)(s.conns[d]);
    assert ConnAt(s1, id) == c;
    if ni < |s.nodes| {
      assert NodeOn(id)(s.nodes[ni]);
    }
  }

  lemma FlushKeepsOrder(s: State, id: int, i: nat)
    requires NodesOk(s) && ConnsOk(s) && WireOk(s) && ConnAt(s, id) < |s.conns| && i < MAX_NODE
    ensures i < |OnConnected(s, id).nodes| && QueueOk(OnConnected(s, id), i)
  {
    var ni, t, k := First(s.nodes, NodeOn(id)), OnConnected(s, id), s.nodes[i].sock;
    FlushedIs(s, id);
    assert QueueOk(s, i);
    if k == id {
      assert NodeOn(id)(s.nodes[i]);
      assert ni == i;
      var q := s.nodes[i].queue;
      RequestsAppend(s.out, Flushed(id, q), id);
      FlushedRequests(id, q, id);
      assert t.nodes[i].queue == [] && RequestsOn(t.out, id) + [] == RequestsOn(s.out, id) + q;
    } else {
      assert t.nodes[i] == s.nodes[i];
      FlushElsewhere(s, id, k);
      assert forall c :: 0 <= c < |t.conns| && t.conns[c].sock == k ==> t.conns[c] == s.conns[c];
    }
  }

  lemma FlushElsewhere(s: State, id: int, k: int)
    requires NodesOk(s) && ConnsOk(s) && ConnAt(s, id) < |s.conns| && k != id
    ensures RequestsOn(OnConnected(s, id).out, k) == RequestsOn(s.out, k)
  {
    var ni := First(s.nodes, NodeOn(id));
    FlushedIs(s, id);
    if ni < |s.nodes| {
      RequestsAppend(s.out, Flushed(id, s.nodes[ni].queue), k);
      FlushedRequests(id, s.nodes[ni].queue, k);
    }
  }

  lemma FlushKeepsWire(s: State, id: int)
    requires NodesOk(s) && ConnsOk(s) && WireOk(s) && ConnAt(s, id) < |s.conns|
    ensures WireOk(OnConnected(s, id))
  {
    var ni, t := First(s.nodes, NodeOn(id)), OnConnected(s, id);
    FlushedIs(s, id);
    forall k
      ensures (k !in t.sockets ==> Untouched(t, k)) && WireOn(t, k)
    {
      assert WireOn(s, k) && (k !in s.sockets ==> Untouched(s, k));
      if ni < |s.nodes| {
        assert QueueOk(s, ni);
        RequestsAppend(s.out, Flushed(id, s.nodes[ni].queue), k);
        FlushedRequests(id, s.nodes[ni].queue, k);
      }
    }
    forall i | 0 <= i < |t.nodes|
      ensures QueueOk(t, i)
    {
      FlushKeepsOrder(s, id, i);
    }
  }

  lemma FlushKeepsLinks(s: State, id: int)
    requires NodesOk(s) && ConnsOk(s) && SlotsOk(s) && ConnAt(s, id) < |s.conns|
    ensures NodesOk(OnConnected(s, id)) && ConnsOk(OnConnected(s, id)) && SlotsOk(OnConnected(s, id))
  {
    FlushedIs(s, id);
  }

  lemma FlushKeepsRest(s: State, id: int)
    requires NodesOk(s) && ConnsOk(s) && InboundOk(s) && SessionsOk(s) && ConnAt(s, id) < |s.conns|
    ensures InboundOk(OnConnected(s, id)) && SessionsOk(OnConnected(s, id)) && OnConnected(s, id).names == s.names
    ensures Balance(OnConnected(s, id)) == Balance(s)
  {
    var ni, t := First(s.nodes, NodeOn(id)), OnConnected(s, id);
    FlushedIs(s, id);
    assert SameReaders(s, t);
    SameReadersOk(s, t);
    if ni < |s.nodes| {
      AnswersAppend(s.out, Flushed(id, s.nodes[ni].queue));
      FlushedRequests(id, s.nodes[ni].queue, id);
    }
  }

  lemma GoodConnected(s: State, id: int)
    requires Inv(s)
    ensures Good(s, OnConnected(s, id), multiset{})
  {
    if ConnAt(s, id) < |s.conns| {
      FlushKeepsLinks(s, id);
      FlushKeepsWire(s, id);
      FlushKeepsRest(s, id);
    } else {
      assert OnConnected(s, id) == s;
    }
  }

  /* ---- a connection closes ---- */

  lemma MultiSwap<T>(a: multiset<T>, b: multiset<T>, c: multiset<T>, d: multiset<T>)
    ensures (a + b) + (c + d) == (a + c) + (b + d)
  {
  }

  /** One slot: it keeps its caller waiting, or its caller is answered. */
  lemma SlotFailed(p: PSend, ni: nat)
    ensures var o := if p.used && p.nodeIdx == ni then [Answer(p.source, p.jsSession, false, [])] else [];
            Waiting(p.(used := p.used && p.nodeIdx != ni)) + Answers(o) == Waiting(p)
  {
    var none: seq<Out> := [];
    assert [Answer(p.source, p.jsSession, false, [])][1..] == none;
  }

  lemma {:induction false} FailedBalance(ps: seq<PSend>, ni: nat)
    ensures Pending(FailedSlots(ps, ni)) + Answers(FailedAnswers(ps, ni)) == Pending(ps)
  {
    if ps != [] {
      FailedBalance(ps[1..], ni);
      var p, a, slots := ps[0], FailedAnswers(ps[1..], ni), FailedSlots(ps[1..], ni);
      var q := p.(used := p.used && p.nodeIdx != ni);
      var o := if p.used && p.nodeIdx == ni then [Answer(p.source, p.jsSession, false, [])] else [];
      SlotFailed(p, ni);
      assert FailedSlots(ps, ni) == [q] + slots && ([q] + slots)[1..] == slots;
      AnswersAppend(o, a);
      assert FailedAnswers(ps, ni) == o + a;
      assert Pending([q] + slots) == Waiting(q) + Pending(slots) && Pending(ps) == Waiting(p) + Pending(ps[1..]);
      MultiSwap(Waiting(q), Pending(slots), Answers(o), Answers(a));
    }
  }

  lemma {:induction false} FailedFacts(ps: seq<PSend>, ni: nat, k: int)
    ensures forall i :: 0 <= i < |ps| ==> FailedSlots(ps, ni)[i] == ps[i].(used := ps[i].used && ps[i].nodeIdx != ni)
    ensures RequestsOn(FailedAnswers(ps, ni), k) == []
  {
    if ps != [] {
      FailedFacts(ps[1..], ni, k);
      var o := if ps[0].used && ps[0].nodeIdx == ni then [Answer(ps[0].source, ps[0].jsSession, false, [])] else [];
      RequestsAppend(o, FailedAnswers(ps[1..], ni), k);
    }
  }

  /** The state after a close, spelled out. */
  lemma ClosedIs(s: State, id: int)
    requires NodesOk(s) && ConnsOk(s)
    ensures var c, ni, t := ConnAt(s, id), First(s.nodes, NodeOn(id)), OnClosed(s, id);
            && |t.conns| == MAX_CONN
            && (forall e :: 0 <= e < MAX_CONN ==> t.conns[e] == if e == c then NO_CONN else s.conns[e])
            && (ni == |s.nodes| ==> t == s.(conns := t.conns))
            && (ni < |s.nodes| ==>
                  && s.nodes[ni].used && s.nodes[ni].sock == id
                  && t == s.(conns := t.conns, out := s.out + FailedAnswers(s.psend, ni), psend := FailedSlots(s.psend, ni),
                             nodes := s.nodes[ni := s.nodes[ni].(sock := -1, connecting := false, queue := [])]))
  {
    var c, ni, t := ConnAt(s, id), First(s.nodes, NodeOn(id)), OnClosed(s, id);
    if ni < |s.nodes| {
      assert NodeOn(id)(s.nodes[ni]);
      var n := s.nodes[ni].(sock := -1, connecting := false);
      assert s.nodes[ni := n][ni := n.(queue := [])] == s.nodes[ni := n.(queue := [])];
    }
  }

  lemma CloseKeepsLinks(s: State, id: int)
    requires NodesOk(s) && ConnsOk(s) && SlotsOk(s)
    ensures NodesOk(OnClosed(s, id)) && ConnsOk(OnClosed(s, id)) && SlotsOk(OnClosed(s, id))
  {
    var ni := First(s.nodes, NodeOn(id));
    ClosedIs(s, id);
    FailedFacts(s.psend, ni, 0);
  }

  lemma CloseKeepsWire(s: State, id: int)
    requires NodesOk(s) && ConnsOk(s) && WireOk(s)
    ensures WireOk(OnClosed(s, id))
  {
    var ni, t := First(s.nodes, NodeOn(id)), OnClosed(s, id);
    ClosedIs(s, id);
    forall k
      ensures RequestsOn(t.out, k) == RequestsOn(s.out, k)
    {
      RequestsAppend(s.out, FailedAnswers(s.psend, ni), k);
      FailedFacts(s.psend, ni, k);
    }
    assert SameWire(s, t);
    SameWireOk(s, t);
  }

  lemma CloseKeepsRest(s: State, id: int)
    requires NodesOk(s) && ConnsOk(s) && InboundOk(s) && SessionsOk(s)
    ensures InboundOk(OnClosed(s, id)) && SessionsOk(OnClosed(s, id)) && OnClosed(s, id).names == s.names
    ensures Balance(OnClosed(s, id)) == Balance(s)
  {
    var ni, t := First(s.nodes, NodeOn(id)), OnClosed(s, id);
    ClosedIs(s, id);
    assert SameReaders(s, t);
    SameReadersOk(s, t);
    if ni < |s.nodes| {
      FailedFacts(s.psend, ni, 0);
      FailedBalance(s.psend, ni);
      AnswersAppend(s.out, FailedAnswers(s.psend, ni));
      assert Balance(t) == Answers(s.out) + (Pending(t.psend) + Answers(FailedAnswers(s.psend, ni)));
    }
  }

  /* ---- the other events ---- */

  /** A reply has been passed on: its precv slot is free again. */
  lemma GoodRelease(s: State, i: nat)
    requires Inv(s) && i < MAX_PENDING
    ensures Good(s, s.(precv := s.precv[i := s.precv[i].(used := false)]), multiset{})
  {
    var t := s.(precv := s.precv[i := s.precv[i].(used := false)]);
    assert RecvOk(t.precv, t.localCount);
    assert SessionsOk(t);
    SameWireOk(s, t);
    SameReadersOk(s, t);
  }

  lemma GoodReply(s: State, session: int, ok: bool, payload: Bytes)
    requires Inv(s)
    ensures Good(s, OnLocalDone(s, session, ok, payload), multiset{})
  {
    var i, j := First(s.precv, RecvIs(session)), First(s.psend, CallerIs(session));
    if i < |s.precv| {
      var p := s.precv[i];
      if s.conns[p.connId].used {
        var s1 := SendResponse(s, p.connId, p.remoteSession, ok, if ok then payload else ERROR);
        QuietSendResponse(s, p.connId, p.remoteSession, ok, if ok then payload else ERROR);
        SteadyKeepsInv(s, s1);
        GoodRelease(s1, i);
      } else {
        GoodRelease(s, i);
      }
    } else if ok && j < |s.psend| {
      assert CallerIs(session)(s.psend[j]);
      QuietSettle(s, j, true, payload);
      SteadyKeepsInv(s, Settle(s, j, true, payload));
    }
  }

  /** A reply of a local service. If a forwarded request waits under its session, no caller of this
      node is answered; if none does, and it is not an error, it answers the first caller whose own
      session happens to be that number. */
  lemma GoodLocalDone(s: State, session: int, ok: bool, payload: Bytes)
    requires Inv(s)
    ensures Good(s, OnLocalDone(s, session, ok, payload), multiset{})
    ensures var t, j := OnLocalDone(s, session, ok, payload), First(s.psend, CallerIs(session));
            if First(s.precv, RecvIs(session)) == |s.precv| && ok && j < |s.psend|
            then t.psend == s.psend[j := s.psend[j].(used := false)]
                 && Answers(t.out) == Answers(s.out) + multiset{(s.psend[j].source, session)}
            else t.psend == s.psend && Answers(t.out) == Answers(s.out)
  {
    GoodReply(s, session, ok, payload);
    var t, j := OnLocalDone(s, session, ok, payload), First(s.psend, CallerIs(session));
    if First(s.precv, RecvIs(session)) == |s.precv| && ok && j < |s.psend| {
      assert CallerIs(session)(s.psend[j]);
      QuietSettle(s, j, true, payload);
    } else {
      SameAnswers(s, t);
    }
  }

  lemma GoodRegister(s: State, source: U32, session: int, name: Bytes)
    requires Inv(s)
    ensures Good(s, OnRegister(s, source, session, name), if session == 0 then multiset{} else multiset{(source, session)})
  {
    var s1 := s.(names := OnRegister(s, source, session, name).names);
    GoodNames(s, s1.names);
    SteadyAck(s1, source, session);
    SteadyKeepsInv(s1, Ack(s1, source, session));
  }

  lemma GoodNames(s: State, names: seq<NameEntry>)
    requires Inv(s) && |names| == MAX_NODE
    ensures Good(s, s.(names := names), multiset{})
  {
    var t := s.(names := names);
    SameWireOk(s, t);
    SameReadersOk(s, t);
  }

  /** Every event keeps the invariant, and gives an answer or leaves a caller waiting exactly for
      what it was asked. */
  lemma InvStep(s: State, e: Event)
    requires Inv(s) && WellFormed(e) && Fresh(s, e)
    ensures Inv(Step(s, e)) && Balance(Step(s, e)) == Balance(s) + Asked(s, e)
  {
    match e {
      case Connected(id) => GoodConnected(s, id);
      case Accepted(id) => InvAlloc(s, id, false, true);
      case Data(id, bytes) =>
        if ConnAt(s, id) < |s.conns| {
          ConnAtSame(s, id);
          GoodData(s, ConnAt(s, id), bytes);
        }
      case Closed(id) =>
        CloseKeepsLinks(s, id);
        CloseKeepsWire(s, id);
        CloseKeepsRest(s, id);
      case Listen(source, session) =>
        SteadyAck(s, source, session);
        SteadyKeepsInv(s, Ack(s, source, session));
      case Register(source, session, name) => GoodRegister(s, source, session, name);
      case NodeAt(source, session, name, port, kid) => GoodNodeAt(s, source, session, name, port, kid);
      case Send(_, _, _, _, _, _, _) => GoodSend(s, e);
      case LocalDone(session, ok, payload) => GoodLocalDone(s, session, ok, payload);
    }
  }
}
