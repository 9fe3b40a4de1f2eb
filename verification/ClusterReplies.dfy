/** Replies: from the local service to the right connection, and over the wire to the right caller. */
module ClusterReplies {
  import opened Wrappers
  import opened Bytes
  import opened Framing
  import opened ClusterWire
  import opened Cluster
  import opened ClusterApart
  import opened ClusterInvariants
  import opened ClusterRuns
  import opened ClusterTheorems

  /* ---- over the wire ---- */

  /** The answer is given and the slot released; the connection's reassembly is left as `r`. */
  function Delivered(s: State, ci: nat, r: Reasm, i: nat, ok: bool, payload: Bytes): State
    requires ci < |s.conns| && i < |s.psend|
  {
    Settle(SetRs(s, ci, r), i, ok, payload)
  }

  function SetRs(s: State, ci: nat, r: Reasm): State
    requires ci < |s.conns|
  {
    s.(conns := s.conns[ci := s.conns[ci].(rs := r)])
  }

  lemma DeliveredTwice(s: State, ci: nat, q: Reasm, r: Reasm, i: nat, payload: Bytes)
    requires ci < |s.conns| && i < |s.psend|
    ensures Delivered(SetRs(s, ci, q), ci, r, i, true, payload) == Delivered(s, ci, r, i, true, payload)
  {
    assert s.conns[ci := s.conns[ci].(rs := q)][ci := s.conns[ci].(rs := r)] == s.conns[ci := s.conns[ci].(rs := r)];
  }

  lemma SendIsFirst(ps: seq<PSend>, i: nat)
    requires Unambiguous(ps, i)
    ensures First(ps, SendIs(ps[i].remoteSession)) == i
  {
    var k := First(ps, SendIs(ps[i].remoteSession));
    assert SendIs(ps[i].remoteSession)(ps[i]);
    assert SendIs(ps[i].remoteSession)(ps[k]);
  }

  lemma HandleOne(s: State, ci: nat, f: Bytes)
    requires ci < |s.conns|
    ensures HandleFrames(s, ci, [f]) == HandleFrame(s, ci, f)
  {
    assert [f][1..] == [];
  }

  /** The frames of a multipart body complete the reassembly that expects them. */
  lemma {:induction false} PartsDelivered(s: State, ci: nat, i: nat, p: Bytes)
    requires ci < |s.conns| && s.conns[ci].outbound && Unambiguous(s.psend, i)
    requires var r := s.conns[ci].rs; r.active && r.session == s.psend[i].remoteSession && |r.buf| + |p| <= r.total
    ensures var r := s.conns[ci].rs;
            HandleFrames(s, ci, ResponseParts(r.session, p))
              == Delivered(s, ci, r.(active := false, buf := []), i, true, r.buf + p)
    decreases |p|
  {
    var r := s.conns[ci].rs;
    SendIsFirst(s.psend, i);
    if |p| > MULTI_PART {
      var d, z := p[..MULTI_PART], p[MULTI_PART..];
      var f := ResponseFrame(r.session, RESP_MULTI_PART, d);
      ParseResponseFrame(r.session, RESP_MULTI_PART, d);
      var s1 := HandleFrame(s, ci, f);
      assert s1 == SetRs(s, ci, r.(buf := r.buf + d));
      PartsDelivered(s1, ci, i, z);
      assert ResponseParts(r.session, p) == [f] + ResponseParts(r.session, z);
      assert r.buf + d + z == r.buf + p;
      DeliveredTwice(s, ci, r.(buf := r.buf + d), r.(active := false, buf := []), i, r.buf + p);
    } else {
      var f := ResponseFrame(r.session, RESP_MULTI_END, p);
      ParseResponseFrame(r.session, RESP_MULTI_END, p);
      HandleOne(s, ci, f);
    }
  }

  lemma LargeReplyDelivered(s: State, ci: nat, i: nat, payload: Bytes)
    requires ci < |s.conns| && s.conns[ci].outbound && Unambiguous(s.psend, i)
    requires MULTI_PART < |payload| < TWO_32
    ensures var session := s.psend[i].remoteSession;
            HandleFrames(s, ci, ResponseFrames(session, true, payload))
              == Delivered(s, ci, Reasm(false, session, |payload|, []), i, true, payload)
  {
    var session, n := s.psend[i].remoteSession, |payload| % TWO_32;
    SendIsFirst(s.psend, i);
    assert n == |payload|;
    var f := ResponseFrame(session, RESP_MULTI_BEGIN, LE32(n));
    ParseResponseFrame(session, RESP_MULTI_BEGIN, LE32(n));
    assert LE32(n)[..4] == LE32(n);
    var s1 := HandleFrame(s, ci, f);
    assert s1 == SetRs(s, ci, ReasmStart(session, n));
    PartsDelivered(s1, ci, i, payload);
    DeliveredTwice(s, ci, ReasmStart(session, n), Reasm(false, session, n, []), i, payload);
    assert ResponseFrames(session, true, payload) == [f] + ResponseParts(session, payload);
    assert [] + payload == payload;
  }

  /** One reply for the slot that waits for it: its payload goes to that slot's caller, once. */
  lemma ReplyDelivered(s: State, ci: nat, i: nat, ok: bool, payload: Bytes)
    requires ci < |s.conns| && s.conns[ci].outbound && Unambiguous(s.psend, i)
    requires |payload| < TWO_32 && (ok || |payload| <= MULTI_PART)
    ensures var session := s.psend[i].remoteSession;
            var r := if |payload| <= MULTI_PART then s.conns[ci].rs else Reasm(false, session, |payload|, []);
            HandleFrames(s, ci, ResponseFrames(session, ok, payload))
              == Delivered(s, ci, r, i, ok, if ok then payload else [])
  {
    if |payload| <= MULTI_PART {
      var session := s.psend[i].remoteSession;
      SendIsFirst(s.psend, i);
      ParseResponseFrame(session, if ok then RESP_OK else RESP_ERR, payload);
      HandleOne(s, ci, ResponseFrame(session, if ok then RESP_OK else RESP_ERR, payload));
      assert s.conns[ci := s.conns[ci].(rs := s.conns[ci].rs)] == s.conns;
    } else {
      LargeReplyDelivered(s, ci, i, payload);
    }
  }

  datatype Response = Response(slot: nat, ok: bool, payload: Bytes)

  /** Replies to distinct outstanding requests, each small enough to be counted in 32 bits. */
  ghost predicate Expected(ps: seq<PSend>, rs: seq<Response>)
  {
    && (forall k :: 0 <= k < |rs| ==> Unambiguous(ps, rs[k].slot) && |rs[k].payload| < TWO_32
                                      && (rs[k].ok || |rs[k].payload| <= MULTI_PART))
    && (forall k, l :: 0 <= k < l < |rs| ==> rs[k].slot != rs[l].slot)
  }

  function RepliesFrames(ps: seq<PSend>, rs: seq<Response>): seq<Bytes>
    requires forall k :: 0 <= k < |rs| ==> rs[k].slot < |ps|
  {
    if rs == [] then []
    else ResponseFrames(ps[rs[0].slot].remoteSession, rs[0].ok, rs[0].payload) + RepliesFrames(ps, rs[1..])
  }

  function RepliesAnswers(ps: seq<PSend>, rs: seq<Response>): seq<Out>
    requires forall k :: 0 <= k < |rs| ==> rs[k].slot < |ps|
  {
    if rs == [] then []
    else
      var p := ps[rs[0].slot];
      [Answer(p.source, p.jsSession, rs[0].ok, if rs[0].ok then rs[0].payload else [])] + RepliesAnswers(ps, rs[1..])
  }

  function Released(ps: seq<PSend>, rs: seq<Response>): seq<PSend>
    requires forall k :: 0 <= k < |rs| ==> rs[k].slot < |ps|
    decreases |rs|
  {
    if rs == [] then ps else Released(ps[rs[0].slot := ps[rs[0].slot].(used := false)], rs[1..])
  }

  lemma {:induction false} HandleFramesAppend(s: State, ci: nat, a: seq<Bytes>, b: seq<Bytes>)
    requires ci < |s.conns| && s.conns[ci].outbound
    ensures |HandleFrames(s, ci, a).conns| == |s.conns|
    ensures HandleFrames(s, ci, a + b) == HandleFrames(HandleFrames(s, ci, a), ci, b)
    ensures HandleFrames(s, ci, a).conns[ci].outbound
    decreases |a|
  {
    if a == [] {
      assert a + b == b;
    } else {
      HandleFramesAppend(HandleFrame(s, ci, a[0]), ci, a[1..], b);
      assert (a + b)[1..] == a[1..] + b;
    }
  }

  lemma {:induction false} RepliesSame(ps: seq<PSend>, qs: seq<PSend>, rs: seq<Response>)
    requires |ps| == |qs| && forall k :: 0 <= k < |rs| ==> rs[k].slot < |ps| && ps[rs[k].slot] == qs[rs[k].slot]
    ensures RepliesFrames(ps, rs) == RepliesFrames(qs, rs) && RepliesAnswers(ps, rs) == RepliesAnswers(qs, rs)
  {
    if rs != [] {
      RepliesSame(ps, qs, rs[1..]);
    }
  }

  lemma ExpectedRest(ps: seq<PSend>, rs: seq<Response>)
    requires rs != [] && Expected(ps, rs)
    ensures Expected(ps[rs[0].slot := ps[rs[0].slot].(used := false)], rs[1..])
    ensures forall k :: 0 <= k < |rs[1..]| ==> rs[1..][k].slot < |ps| && rs[1..][k].slot != rs[0].slot
  {
    var z, qs := rs[1..], ps[rs[0].slot := ps[rs[0].slot].(used := false)];
    assert forall k :: 0 <= k < |z| ==> z[k] == rs[k + 1];
    forall k | 0 <= k < |z|
      ensures Unambiguous(qs, z[k].slot)
    {
      assert Unambiguous(ps, rs[k + 1].slot);
    }
  }

  /** The state once the first of several replies has been handled. */
  lemma FirstDelivered(s: State, ci: nat, rs: seq<Response>) returns (s1: State)
    requires ci < |s.conns| && s.conns[ci].outbound && rs != [] && Expected(s.psend, rs)
    ensures var r, p := rs[0], s.psend[rs[0].slot];
            && s1 == HandleFrames(s, ci, ResponseFrames(p.remoteSession, r.ok, r.payload))
            && s1.out == s.out + [Answer(p.source, p.jsSession, r.ok, if r.ok then r.payload else [])]
            && s1.psend == s.psend[r.slot := p.(used := false)]
            && |s1.conns| == |s.conns| && s1.conns[ci].outbound && Expected(s1.psend, rs[1..])
            && forall k :: 0 <= k < |rs[1..]| ==> rs[1..][k].slot < |s.psend| && rs[1..][k].slot != r.slot
  {
    var r := rs[0];
    ReplyDelivered(s, ci, r.slot, r.ok, r.payload);
    s1 := HandleFrames(s, ci, ResponseFrames(s.psend[r.slot].remoteSession, r.ok, r.payload));
    ExpectedRest(s.psend, rs);
  }

  /** Any list of replies on an outbound connection: each caller gets its payload, once, in order,
      and exactly those slots are released. */
  lemma {:induction false} RepliesDelivered(s: State, ci: nat, rs: seq<Response>)
    requires ci < |s.conns| && s.conns[ci].outbound && Expected(s.psend, rs)
    ensures var t := HandleFrames(s, ci, RepliesFrames(s.psend, rs));
            t.out == s.out + RepliesAnswers(s.psend, rs) && t.psend == Released(s.psend, rs)
    decreases |rs|
  {
    if rs == [] {
      assert s.out + [] == s.out;
    } else {
      var r, z := rs[0], rs[1..];
      var p, f := s.psend[r.slot], ResponseFrames(s.psend[r.slot].remoteSession, r.ok, r.payload);
      var s1 := FirstDelivered(s, ci, rs);
      RepliesDelivered(s1, ci, z);
      RepliesSame(s.psend, s1.psend, z);
      HandleFramesAppend(s, ci, f, RepliesFrames(s.psend, z));
      var o := Answer(p.source, p.jsSession, r.ok, if r.ok then r.payload else []);
      Assoc(s.out, [o], RepliesAnswers(s.psend, z));
    }
  }

  /* ---- cuts on an outbound connection ---- */

  /** Two DATA buffers do what their concatenation does. */
  lemma DataTwice(s: State, ci: nat, a: Bytes, b: Bytes)
    requires ci < |s.conns| && s.conns[ci].outbound
    ensures var s1 := ConnData(s, ci, a);
            ci < |s1.conns| && s1.conns[ci].outbound && ConnData(s1, ci, b) == ConnData(s, ci, a + b)
  {
    var rx := s.conns[ci].rx;
    var h := HandleFrames(s, ci, Frames(rx + a));
    HandleFramesAppend(s, ci, Frames(rx + a), []);
    var r1 := Rest(rx + a);
    var s1 := SetRx(h, ci, r1);
    assert ConnData(s, ci, a) == s1 && s1.conns[ci].outbound && s1.conns[ci].rx == r1;
    FramesApart(h, ci, Frames(r1 + b), r1);
    var h2 := HandleFrames(h, ci, Frames(r1 + b));
    Assoc(rx, a, b);
    SplitAppend(rx + a, b);
    HandleFramesAppend(s, ci, Frames(rx + a), Frames(r1 + b));
    SetRxTwice(h2, ci, r1, Rest(r1 + b));
  }

  ghost function DataAll(s: State, ci: nat, chunks: seq<Bytes>): State
    decreases |chunks|
  {
    if chunks == [] || ci >= |s.conns| then s else DataAll(ConnData(s, ci, chunks[0]), ci, chunks[1..])
  }

  lemma DataNone(s: State, ci: nat)
    requires ci < |s.conns| && s.conns[ci].outbound && !HasFrame(s.conns[ci].rx)
    ensures ConnData(s, ci, []) == s
  {
    var c := s.conns[ci];
    assert c.rx + [] == c.rx && s.conns[ci := c.(rx := c.rx)] == s.conns;
  }

  lemma {:induction false} DataCuts(s: State, ci: nat, chunks: seq<Bytes>)
    requires ci < |s.conns| && s.conns[ci].outbound && !HasFrame(s.conns[ci].rx)
    ensures DataAll(s, ci, chunks) == ConnData(s, ci, Flatten(chunks))
    decreases |chunks|
  {
    if chunks == [] {
      DataNone(s, ci);
    } else {
      DataTwice(s, ci, chunks[0], Flatten(chunks[1..]));
      DataCuts(ConnData(s, ci, chunks[0]), ci, chunks[1..]);
    }
  }

  lemma {:induction false} RepliesFit(ps: seq<PSend>, rs: seq<Response>)
    requires forall k :: 0 <= k < |rs| ==> rs[k].slot < |ps|
    ensures Packable(RepliesFrames(ps, rs))
  {
    if rs != [] {
      ResponseFits(ps[rs[0].slot].remoteSession, rs[0].ok, rs[0].payload);
      RepliesFit(ps, rs[1..]);
    }
  }

  function RepliesWire(ps: seq<PSend>, rs: seq<Response>): Bytes
    requires forall k :: 0 <= k < |rs| ==> rs[k].slot < |ps|
  {
    RepliesFit(ps, rs);
    PackAll(RepliesFrames(ps, rs))
  }

  /** The response path of the wire: the replies to any outstanding requests with unambiguous
      sessions, small or multipart, cut anywhere, reach exactly the callers that wait for them,
      each once and in order, with the payload that was sent; those slots are released, no other. */
  lemma ReplyPath(s: State, ci: nat, rs: seq<Response>, chunks: seq<Bytes>)
    requires ci < |s.conns| && s.conns[ci].outbound && s.conns[ci].rx == [] && Expected(s.psend, rs)
    requires Flatten(chunks) == RepliesWire(s.psend, rs)
    ensures var t := DataAll(s, ci, chunks);
            && t.out == s.out + RepliesAnswers(s.psend, rs) && t.psend == Released(s.psend, rs)
            && ci < |t.conns| && t.conns[ci].rx == []
  {
    var fs, w := RepliesFrames(s.psend, rs), RepliesWire(s.psend, rs);
    DataCuts(s, ci, chunks);
    RepliesFit(s.psend, rs);
    assert [] + w == w && w + [] == w;
    SplitUnique(fs, []);
    RepliesDelivered(s, ci, rs);
    HandleFramesAppend(s, ci, fs, []);
  }

  /* ---- from the local service to the connection ---- */

  /** Local session `ls` belongs to a request that connection `sock` sent as `remote`. */
  ghost predicate Waits(s: State, i: nat, ls: int, sock: int, remote: U32)
  {
    && i < |s.precv| && s.precv[i].used && s.precv[i].localSession == ls && s.precv[i].remoteSession == remote
    && s.precv[i].connId < |s.conns| && s.conns[s.precv[i].connId].used && s.conns[s.precv[i].connId].sock == sock
  }

  /** A request forwarded to a service waits under the local session the service was given. */
  lemma ForwardedWaits(s: State, ci: nat, c: Call, handle: U32)
    requires Sized(s) && ci < MAX_CONN && s.conns[ci].used && !c.push && First(s.precv, RecvFree()) < |s.precv|
    ensures var t, ls := ForwardCall(s, ci, c, handle), s.localCount + 1;
            && t.out == s.out + [Forward(handle, ls, c.payload)]
            && Waits(t, First(s.precv, RecvFree()), ls, s.conns[ci].sock, c.session)
  {
  }

  lemma WaitsSteady(s: State, t: State, i: nat, ls: int, sock: int, remote: U32)
    requires Steady(s, t) && Waits(s, i, ls, sock, remote)
    ensures Waits(t, i, ls, sock, remote)
  {
    var c := s.precv[i].connId;
    assert t.conns[c].(rs := IDLE) == s.conns[c].(rs := IDLE);
  }

  /** precv and the connections in use stay as they are. */
  ghost predicate SameWaits(s: State, t: State)
  {
    t.precv == s.precv && |t.conns| == |s.conns|
    && forall c :: 0 <= c < |s.conns| && s.conns[c].used ==> t.conns[c].used && t.conns[c].sock == s.conns[c].sock
  }

  lemma AllocSameWaits(conns: seq<Conn>, k: int, outbound: bool, ready: bool)
    ensures var t := AllocConn(conns, k, outbound, ready);
            |t| == |conns| && forall c :: 0 <= c < |conns| && conns[c].used ==> t[c] == conns[c]
  {
    var i := First(conns, ConnFree());
    assert i < |conns| ==> ConnFree()(conns[i]);
  }

  lemma ConnectSameWaits(s: State, ni: nat, kid: int)
    requires ni < |s.nodes|
    ensures SameWaits(s, NodeConnect(s, ni, kid).0)
  {
    AllocSameWaits(s.conns, kid, true, false);
  }

  lemma {:induction false} EmitSameWaits(s: State, ni: nat, fs: seq<Bytes>)
    requires ni < |s.nodes| && Packable(fs)
    ensures EmitAll(s, ni, fs).precv == s.precv && EmitAll(s, ni, fs).conns == s.conns
    decreases |fs|
  {
    if fs != [] {
      EmitSameWaits(EmitFrame(s, ni, fs[0]), ni, fs[1..]);
    }
  }

  lemma RequestSameWaits(s: State, ni: nat, t: Target, payload: Bytes, push: bool)
    requires ni < |s.nodes| && ValidTarget(t)
    ensures var u := SendRequest(s, ni, t, payload, push); u.precv == s.precv && u.conns == s.conns
  {
    var session := NextSession(s.sendSession);
    RequestFits(session, t, payload, push);
    EmitSameWaits(Drawn(s, ni, Request(session, t, payload, push)), ni, RequestFrames(session, t, payload, push));
  }

  lemma SendSameWaits(s: State, e: Event)
    requires Sized(s) && e.Send? && WellFormed(e)
    ensures SameWaits(s, Step(s, e))
  {
    var ni := First(s.nodes, NodeIs(e.name));
    if ni < |s.nodes| {
      ConnectSameWaits(s, ni, e.kid);
      RequestSameWaits(NodeConnect(s, ni, e.kid).0, ni, e.target, e.payload, e.push);
    }
  }

  lemma NodeAtSameWaits(s: State, e: Event)
    requires Sized(s) && e.NodeAt? && WellFormed(e)
    ensures SameWaits(s, Step(s, e))
  {
    var i, j := First(s.nodes, NodeIs(e.name)), First(s.nodes, NodeFree());
    var ni := if i < |s.nodes| then i else j;
    if ni < |s.nodes| {
      var n := if i < |s.nodes| then s.nodes[i] else NO_NODE.(used := true, name := e.name);
      ConnectSameWaits(s.(nodes := s.nodes[ni := n.(port := e.port)]), ni, e.kid);
    }
  }

  lemma ConnectedSameWaits(s: State, id: int)
    ensures SameWaits(s, OnConnected(s, id))
  {
  }

  lemma WaitsClosed(s: State, id: int, i: nat, ls: int, sock: int, remote: U32)
    requires Inv(s) && Waits(s, i, ls, sock, remote) && id != sock
    ensures Waits(OnClosed(s, id), i, ls, sock, remote)
  {
    ClosedIs(s, id);
    if ConnAt(s, id) < |s.conns| {
      ConnAtSame(s, id);
    }
  }

  lemma WaitsLocalDone(s: State, session: int, ok: bool, payload: Bytes, i: nat, ls: int, sock: int, remote: U32)
    requires Sized(s) && Waits(s, i, ls, sock, remote) && session != ls
    ensures Waits(OnLocalDone(s, session, ok, payload), i, ls, sock, remote)
  {
    var k := First(s.precv, RecvIs(session));
    if k < |s.precv| {
      assert RecvIs(session)(s.precv[k]);
    }
  }

  lemma WaitsSame(s: State, t: State, i: nat, ls: int, sock: int, remote: U32)
    requires SameWaits(s, t) && Waits(s, i, ls, sock, remote)
    ensures Waits(t, i, ls, sock, remote)
  {
  }

  /** While its connection stays open and its service has not replied, a request keeps waiting. */
  lemma WaitsStep(s: State, e: Event, i: nat, ls: int, sock: int, remote: U32)
    requires Inv(s) && WellFormed(e) && Waits(s, i, ls, sock, remote)
    requires e != Closed(sock) && !(e.LocalDone? && e.session == ls)
    ensures Waits(Step(s, e), i, ls, sock, remote)
  {
    var t := Step(s, e);
    match e {
      case Connected(id) => ConnectedSameWaits(s, id); WaitsSame(s, t, i, ls, sock, remote);
      case Accepted(id) => AllocSameWaits(s.conns, id, false, true); WaitsSame(s, t, i, ls, sock, remote);
      case Data(id, bytes) =>
        var c := ConnAt(s, id);
        if c < |s.conns| {
          WaitsData(s, c, bytes, i, ls, sock, remote);
        }
      case Closed(id) => WaitsClosed(s, id, i, ls, sock, remote);
      case Listen(_, _) => WaitsSame(s, t, i, ls, sock, remote);
      case Register(_, _, _) => WaitsSame(s, t, i, ls, sock, remote);
      case NodeAt(_, _, _, _, _) => NodeAtSameWaits(s, e); WaitsSame(s, t, i, ls, sock, remote);
      case Send(_, _, _, _, _, _, _) => SendSameWaits(s, e); WaitsSame(s, t, i, ls, sock, remote);
      case LocalDone(session, ok, payload) => WaitsLocalDone(s, session, ok, payload, i, ls, sock, remote);
    }
  }

  lemma WaitsRequests(s: State, ci: nat, bytes: Bytes, i: nat, ls: int, sock: int, remote: U32)
    requires ci < MAX_CONN && ci < |s.conns| && Waits(s, i, ls, sock, remote) && !s.conns[ci].outbound
    ensures Waits(ConnData(s, ci, bytes), i, ls, sock, remote)
  {
    var fs := Frames(s.conns[ci].rx + bytes);
    var s0 := s.(received := s.received + [(s.conns[ci].sock, bytes)]);
    var (q, calls) := InFold(s.conns[ci].inbound, fs);
    QuietRequests(s0, ci, fs);
    WaitsSteady(Absorb(s0, ci, q, calls), HandleFrames(s0, ci, fs), i, ls, sock, remote);
  }

  lemma WaitsData(s: State, ci: nat, bytes: Bytes, i: nat, ls: int, sock: int, remote: U32)
    requires ci < MAX_CONN && ci < |s.conns| && Waits(s, i, ls, sock, remote)
    ensures Waits(ConnData(s, ci, bytes), i, ls, sock, remote)
  {
    var fs := Frames(s.conns[ci].rx + bytes);
    if s.conns[ci].outbound {
      QuietResponses(s, ci, fs);
      WaitsSteady(s, HandleFrames(s, ci, fs), i, ls, sock, remote);
    } else {
      WaitsRequests(s, ci, bytes, i, ls, sock, remote);
    }
  }

  /** No event of the run closes `sock` or is the local reply to `ls`. */
  predicate Undisturbed(es: seq<Event>, ls: int, sock: int)
  {
    forall k :: 0 <= k < |es| ==> es[k] != Closed(sock) && !(es[k].LocalDone? && es[k].session == ls)
  }

  lemma UndisturbedRest(es: seq<Event>, ls: int, sock: int)
    requires Undisturbed(es, ls, sock) && es != []
    ensures Undisturbed(es[1..], ls, sock) && es[0] != Closed(sock) && !(es[0].LocalDone? && es[0].session == ls)
  {
    assert forall k :: 0 <= k < |es[1..]| ==> es[1..][k] == es[k + 1];
  }

  lemma {:induction false} WaitsRun(s: State, es: seq<Event>, i: nat, ls: int, sock: int, remote: U32)
    requires Inv(s) && Legal(s, es) && Waits(s, i, ls, sock, remote) && Undisturbed(es, ls, sock)
    ensures Inv(Run(s, es)) && Waits(Run(s, es), i, ls, sock, remote)
    decreases |es|
  {
    if es != [] {
      var e, t, z := es[0], Step(s, es[0]), es[1..];
      StepSized(s, e);
      UndisturbedRest(es, ls, sock);
      WaitsStep(s, e, i, ls, sock, remote);
      InvStep(s, e);
      assert Run(s, es) == Run(t, z);
      WaitsRun(t, z, i, ls, sock, remote);
    }
  }

  lemma RecvIsFirst(precv: seq<PRecv>, count: nat, i: nat)
    requires RecvOk(precv, count) && i < |precv| && precv[i].used
    ensures First(precv, RecvIs(precv[i].localSession)) == i
  {
    var k := First(precv, RecvIs(precv[i].localSession));
    assert RecvIs(precv[i].localSession)(precv[i]);
    assert RecvIs(precv[i].localSession)(precv[k]);
  }

  /** However the run goes on meanwhile, the reply of the local service is written, as a response
      to the remote session, to the connection the request came from, if that is still open. */
  lemma ReplyRouted(s: State, es: seq<Event>, i: nat, ls: int, sock: int, remote: U32, ok: bool, payload: Bytes)
    requires Inv(s) && Legal(s, es) && Waits(s, i, ls, sock, remote) && Undisturbed(es, ls, sock)
    ensures Inv(Run(s, es))
    ensures var t, data := Run(s, es), if ok then payload else ERROR;
            Packable(ResponseFrames(remote, ok, data)) &&
            OnLocalDone(t, ls, ok, payload).out == t.out + Writes(sock, ResponseFrames(remote, ok, data))
  {
    WaitsRun(s, es, i, ls, sock, remote);
    var t := Run(s, es);
    RecvIsFirst(t.precv, t.localCount, i);
    ResponseFits(remote, ok, if ok then payload else ERROR);
  }

  lemma FirstWrite(a: int, b: int, fs: seq<Bytes>)
    requires Packable(fs) && fs != []
    ensures Writes(a, fs) == Writes(b, fs) ==> a == b
    ensures Writes(a, fs) != []
  {
    assert Writes(a, fs)[0].sock == a && Writes(b, fs)[0].sock == b;
  }

  /** precv remembers a table index, not a connection: the reply reaches `sock` exactly when the
      connection now in that slot is open and is `sock`. */
  lemma ReplyReachesIff(s: State, i: nat, sock: int, ok: bool, payload: Bytes)
    requires Inv(s) && i < MAX_PENDING && s.precv[i].used
    ensures var p, data := s.precv[i], if ok then payload else ERROR;
            && Packable(ResponseFrames(p.remoteSession, ok, data))
            && (OnLocalDone(s, p.localSession, ok, payload).out == s.out + Writes(sock, ResponseFrames(p.remoteSession, ok, data))
                <==> s.conns[p.connId].used && s.conns[p.connId].sock == sock)
  {
    var p, data := s.precv[i], if ok then payload else ERROR;
    var fs := ResponseFrames(p.remoteSession, ok, data);
    RecvIsFirst(s.precv, s.localCount, i);
    ResponseFits(p.remoteSession, ok, data);
    FirstWrite(s.conns[p.connId].sock, sock, fs);
    FirstWrite(sock, sock, fs);
    var t := OnLocalDone(s, p.localSession, ok, payload);
    assert s.conns[p.connId].used ==> t.out[|s.out|..] == Writes(s.conns[p.connId].sock, fs);
    assert (s.out + Writes(sock, fs))[|s.out|..] == Writes(sock, fs);
  }

  lemma SlotReused(s: State, i: nat, ls: int, sock: int, remote: U32, other: int)
    requires Inv(s) && Waits(s, i, ls, sock, remote) && other >= 0 && other !in s.sockets
    requires forall c :: 0 <= c < s.precv[i].connId ==> s.conns[c].used
    ensures var t := OnAccepted(OnClosed(s, sock), other);
            Inv(t) && t.precv == s.precv && t.conns[s.precv[i].connId].used && t.conns[s.precv[i].connId].sock == other
  {
    var c, s1 := s.precv[i].connId, OnClosed(s, sock);
    ClosedIs(s, sock);
    ConnAtUnique(s, sock, c);
    CloseKeepsLinks(s, sock);
    CloseKeepsWire(s, sock);
    CloseKeepsRest(s, sock);
    FreeSlotIs(s1.conns, c);
    InvAlloc(s1, other, false, true);
  }

  lemma FreeSlotIs(conns: seq<Conn>, c: nat)
    requires c < |conns| && !conns[c].used && forall d :: 0 <= d < c ==> conns[d].used
    ensures First(conns, ConnFree()) == c
  {
    assert ConnFree()(conns[c]) && forall d :: 0 <= d < c ==> !ConnFree()(conns[d]);
  }

  /** So a reply that comes after its connection closed and a new one took the slot goes astray. */
  lemma StaleReply(s: State, i: nat, ls: int, sock: int, remote: U32, other: int, payload: Bytes)
    requires Inv(s) && Waits(s, i, ls, sock, remote) && other >= 0 && other !in s.sockets
    requires forall c :: 0 <= c < s.precv[i].connId ==> s.conns[c].used
    ensures var t := OnAccepted(OnClosed(s, sock), other);
            && Inv(t) && Packable(ResponseFrames(remote, true, payload))
            && OnLocalDone(t, ls, true, payload).out == t.out + Writes(other, ResponseFrames(remote, true, payload))
  {
    SlotReused(s, i, ls, sock, remote, other);
    ReplyReachesIff(OnAccepted(OnClosed(s, sock), other), i, other, true, payload);
  }
}
