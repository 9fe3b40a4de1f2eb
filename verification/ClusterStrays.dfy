/**
 What a socket is given, requests and responses alike. A local reply is answered by table slot,
 so it may be written to a socket this service opened itself: such a reply goes astray.
 */
module ClusterStrays {
  import opened Wrappers
  import opened Bytes
  import opened Framing
  import opened ClusterWire
  import opened Cluster
  import opened ClusterApart
  import opened ClusterInvariants
  import opened ClusterRuns

  /** Every frame handed to socket k. */
  function WrittenOn(out: seq<Out>, k: int): seq<Bytes>
  {
    if out == [] then []
    else (if out[0].Wrote? && out[0].sock == k then [out[0].frame] else []) + WrittenOn(out[1..], k)
  }

  /** Those of them that are responses. */
  function ResponsesOn(out: seq<Out>, k: int): seq<Bytes>
  {
    if out == [] then []
    else (if out[0].Wrote? && !out[0].request && out[0].sock == k then [out[0].frame] else [])
         + ResponsesOn(out[1..], k)
  }

  lemma {:induction false} WrittenAppend(a: seq<Out>, b: seq<Out>, k: int)
    ensures WrittenOn(a + b, k) == WrittenOn(a, k) + WrittenOn(b, k)
  {
    if a == [] {
      assert a + b == b;
    } else {
      WrittenAppend(a[1..], b, k);
      assert (a + b)[1..] == a[1..] + b && (a + b)[0] == a[0];
      Assoc(if a[0].Wrote? && a[0].sock == k then [a[0].frame] else [], WrittenOn(a[1..], k), WrittenOn(b, k));
    }
  }

  lemma {:induction false} ResponsesAppend(a: seq<Out>, b: seq<Out>, k: int)
    ensures ResponsesOn(a + b, k) == ResponsesOn(a, k) + ResponsesOn(b, k)
  {
    if a == [] {
      assert a + b == b;
    } else {
      ResponsesAppend(a[1..], b, k);
      assert (a + b)[1..] == a[1..] + b && (a + b)[0] == a[0];
      Assoc(if a[0].Wrote? && !a[0].request && a[0].sock == k then [a[0].frame] else [], ResponsesOn(a[1..], k), ResponsesOn(b, k));
    }
  }

  /** What was written is the requests' frames exactly when no response is among it. */
  lemma {:induction false} WrittenCount(out: seq<Out>, k: int)
    ensures |WrittenOn(out, k)| == |RequestsOn(out, k)| + |ResponsesOn(out, k)|
    ensures ResponsesOn(out, k) == [] ==> WrittenOn(out, k) == RequestsOn(out, k)
  {
    if out != [] {
      WrittenCount(out[1..], k);
    }
  }

  lemma {:induction false} WritesOn(sock: int, fs: seq<Bytes>, k: int)
    requires Packable(fs)
    ensures ResponsesOn(Writes(sock, fs), k) == if k == sock then PackEach(fs) else []
    ensures WrittenOn(Writes(sock, fs), k) == if k == sock then PackEach(fs) else []
  {
    if fs != [] {
      WritesOn(sock, fs[1..], k);
      assert Writes(sock, fs)[1..] == Writes(sock, fs[1..]);
    }
  }

  lemma {:induction false} FlushedOn(sock: int, q: seq<Bytes>, k: int)
    ensures ResponsesOn(Flushed(sock, q), k) == []
  {
    if q != [] {
      FlushedOn(sock, q[1..], k);
      assert Flushed(sock, q)[1..] == Flushed(sock, q[1..]);
    }
  }

  lemma NoWriteOn(out: seq<Out>, o: Out, k: int)
    requires !o.Wrote? || o.request || o.sock != k
    ensures ResponsesOn(out + [o], k) == ResponsesOn(out, k)
  {
    ResponsesAppend(out, [o], k);
    assert [o][1..] == [];
  }

  lemma ResponseOn(s: State, ci: nat, session: U32, ok: bool, payload: Bytes, k: int)
    requires ci < |s.conns|
    ensures var fs := ResponseFrames(session, ok, payload);
            Packable(fs) && ResponsesOn(SendResponse(s, ci, session, ok, payload).out, k)
              == ResponsesOn(s.out, k) + if k == s.conns[ci].sock then PackEach(fs) else []
  {
    ResponseFits(session, ok, payload);
    var fs := ResponseFrames(session, ok, payload);
    WritesOn(s.conns[ci].sock, fs, k);
    ResponsesAppend(s.out, Writes(s.conns[ci].sock, fs), k);
  }

  /* ---- events on other connections ---- */

  lemma DispatchElsewhere(s: State, ci: nat, c: Call, k: int)
    requires ci < |s.conns| && s.conns[ci].sock != k
    ensures ResponsesOn(Dispatch(s, ci, c).out, k) == ResponsesOn(s.out, k)
  {
    match c.target {
      case Addr(a) =>
        if a == 0 {
          QueryElsewhere(s, ci, c, k);
        } else {
          ForwardElsewhere(s, ci, c, a, k);
        }
      case Named(n) =>
        var handle := NameLookup(s.names, n);
        if handle != 0 {
          ForwardElsewhere(s, ci, c, handle, k);
        } else {
          ResponseOn(s, ci, c.session, false, INVALID_NAME, k);
        }
    }
  }

  lemma QueryElsewhere(s: State, ci: nat, c: Call, k: int)
    requires ci < |s.conns| && s.conns[ci].sock != k
    ensures ResponsesOn(NameQuery(s, ci, c).out, k) == ResponsesOn(s.out, k)
  {
    var q := SeriFirstString(c.payload);
    if q.None? {
      ResponseOn(s, ci, c.session, false, INVALID_NAME, k);
    } else {
      var name := CStr(if |q.value| < MAX_NAME - 1 then q.value else q.value[..MAX_NAME - 1]);
      var handle := NameLookup(s.names, name);
      if handle != 0 {
        ResponseOn(s, ci, c.session, true, SeriPackInt(handle), k);
      } else {
        ResponseOn(s, ci, c.session, false, NAME_NOT_FOUND, k);
      }
    }
  }

  lemma ForwardElsewhere(s: State, ci: nat, c: Call, handle: U32, k: int)
    requires ci < |s.conns| && s.conns[ci].sock != k
    ensures ResponsesOn(ForwardCall(s, ci, c, handle).out, k) == ResponsesOn(s.out, k)
  {
    var ls := s.localCount + 1;
    if First(s.precv, RecvFree()) == |s.precv| {
      ResponseOn(s.(localCount := ls), ci, c.session, false, CLUSTERD_BUSY, k);
    } else {
      NoWriteOn(s.out, Forward(handle, if c.push then 0 else ls, c.payload), k);
    }
  }

  lemma AnswersElsewhere(s: State, ci: nat, f: Bytes, k: int)
    requires ci < |s.conns|
    ensures ResponsesOn(HandleResponse(s, ci, f).out, k) == ResponsesOn(s.out, k)
  {
    var t := HandleResponse(s, ci, f);
    assert t.out == s.out || (exists o: Out :: o.Answer? && t.out == s.out + [o]);
    if t.out != s.out {
      var o: Out :| o.Answer? && t.out == s.out + [o];
      NoWriteOn(s.out, o, k);
    }
  }

  lemma FrameElsewhere(s: State, ci: nat, f: Bytes, k: int)
    requires ci < |s.conns| && (s.conns[ci].outbound || s.conns[ci].sock != k)
    ensures var t := HandleFrame(s, ci, f);
            && ResponsesOn(t.out, k) == ResponsesOn(s.out, k)
            && |t.conns| == |s.conns| && t.conns[ci].outbound == s.conns[ci].outbound && t.conns[ci].sock == s.conns[ci].sock
  {
    if s.conns[ci].outbound {
      ResponseConns(s, ci, f);
      AnswersElsewhere(s, ci, f, k);
    } else {
      var (q, calls) := InStep(s.conns[ci].inbound, f);
      var s1 := Absorb(s, ci, q, calls);
      if calls != [] {
        DispatchApart(s1, ci, calls[0], s1.conns[ci].rx);
        DispatchElsewhere(s1, ci, calls[0], k);
      }
    }
  }

  lemma {:induction false} FramesElsewhere(s: State, ci: nat, fs: seq<Bytes>, k: int)
    requires ci < |s.conns| && (s.conns[ci].outbound || s.conns[ci].sock != k)
    ensures ResponsesOn(HandleFrames(s, ci, fs).out, k) == ResponsesOn(s.out, k)
    decreases |fs|
  {
    if fs != [] {
      FrameElsewhere(s, ci, fs[0], k);
      FramesElsewhere(HandleFrame(s, ci, fs[0]), ci, fs[1..], k);
    }
  }

  lemma {:induction false} EmitElsewhere(s: State, ni: nat, fs: seq<Bytes>, k: int)
    requires ni < |s.nodes| && Packable(fs)
    ensures var t := EmitAll(s, ni, fs);
            && ResponsesOn(t.out, k) == ResponsesOn(s.out, k) && t.conns == s.conns && t.sockets == s.sockets
            && |t.nodes| == |s.nodes| && forall i :: 0 <= i < |t.nodes| ==> t.nodes[i].sock == s.nodes[i].sock
    decreases |fs|
  {
    if fs != [] {
      var s1 := EmitFrame(s, ni, fs[0]);
      var c := ConnAt(s, s.nodes[ni].sock);
      if c < |s.conns| && s.conns[c].ready {
        NoWriteOn(s.out, Wrote(s.conns[c].sock, Pack(fs[0]), true), k);
      }
      EmitElsewhere(s1, ni, fs[1..], k);
    }
  }

  lemma {:induction false} FailedElsewhere(ps: seq<PSend>, ni: nat, k: int)
    ensures ResponsesOn(FailedAnswers(ps, ni), k) == []
  {
    if ps != [] {
      FailedElsewhere(ps[1..], ni, k);
      var o := if ps[0].used && ps[0].nodeIdx == ni then [Answer(ps[0].source, ps[0].jsSession, false, [])] else [];
      ResponsesAppend(o, FailedAnswers(ps[1..], ni), k);
    }
  }

  /* ---- one event ---- */

  /** Any connection on k is one this service opened. */
  predicate Own(conns: seq<Conn>, k: int)
  {
    forall c :: 0 <= c < |conns| && conns[c].used && conns[c].sock == k ==> conns[c].outbound
  }

  /** The event is a local reply, and the table slot remembered for it now holds a connection this
      service opened, on socket k. */
  predicate Stray(s: State, e: Event, k: int)
  {
    e.LocalDone? &&
    var i := First(s.precv, RecvIs(e.session));
    i < |s.precv| && s.precv[i].connId < |s.conns| &&
    var c := s.conns[s.precv[i].connId];
    c.used && c.outbound && c.sock == k
  }

  lemma LocalDoneOn(s: State, e: Event, k: int)
    requires Sized(s) && e.LocalDone? && Own(s.conns, k)
    ensures var t := Step(s, e);
            && (!Stray(s, e, k) ==> ResponsesOn(t.out, k) == ResponsesOn(s.out, k))
            && (Stray(s, e, k) ==> |ResponsesOn(t.out, k)| > |ResponsesOn(s.out, k)|)
            && t.conns == s.conns
  {
    var i, j := First(s.precv, RecvIs(e.session)), First(s.psend, CallerIs(e.session));
    if i < |s.precv| {
      var p, data := s.precv[i], if e.ok then e.payload else ERROR;
      if s.conns[p.connId].used {
        ResponseOn(s, p.connId, p.remoteSession, e.ok, data, k);
        assert PackEach(ResponseFrames(p.remoteSession, e.ok, data)) != [];
      }
    } else if e.ok && j < |s.psend| {
      NoWriteOn(s.out, Answer(s.psend[j].source, s.psend[j].jsSession, true, e.payload), k);
    }
  }

  lemma DataOn(s: State, ci: nat, bytes: Bytes, k: int)
    requires ci < |s.conns| && s.conns[ci].used && Own(s.conns, k)
    ensures ResponsesOn(ConnData(s, ci, bytes).out, k) == ResponsesOn(s.out, k)
  {
    var s0 := if s.conns[ci].outbound then s else s.(received := s.received + [(s.conns[ci].sock, bytes)]);
    FramesElsewhere(s0, ci, Frames(s.conns[ci].rx + bytes), k);
  }

  lemma ClosedOn(s: State, id: int, k: int)
    ensures ResponsesOn(OnClosed(s, id).out, k) == ResponsesOn(s.out, k)
  {
    var c := ConnAt(s, id);
    var s1 := if c < |s.conns| then s.(conns := s.conns[c := NO_CONN]) else s;
    var ni := First(s1.nodes, NodeOn(id));
    FailedElsewhere(s.psend, ni, k);
    ResponsesAppend(s.out, FailedAnswers(s.psend, ni), k);
  }

  lemma ConnectedOn(s: State, id: int, k: int)
    ensures ResponsesOn(OnConnected(s, id).out, k) == ResponsesOn(s.out, k)
  {
    var c := ConnAt(s, id);
    var s1 := if c < |s.conns| then s.(conns := s.conns[c := s.conns[c].(ready := true)]) else s;
    var ni := First(s1.nodes, NodeOn(id));
    if ni < |s1.nodes| {
      var d := ConnAt(s1, s1.nodes[ni].sock);
      if d < |s1.conns| {
        FlushedOn(s1.conns[d].sock, s1.nodes[ni].queue, k);
        ResponsesAppend(s.out, Flushed(s1.conns[d].sock, s1.nodes[ni].queue), k);
      }
    }
  }

  lemma RequestOn(s: State, ni: nat, t: Target, payload: Bytes, push: bool, k: int)
    requires ni < |s.nodes| && ValidTarget(t)
    ensures var u := SendRequest(s, ni, t, payload, push);
            && ResponsesOn(u.out, k) == ResponsesOn(s.out, k) && u.conns == s.conns && u.sockets == s.sockets
            && |u.nodes| == |s.nodes| && forall i :: 0 <= i < |u.nodes| ==> u.nodes[i].sock == s.nodes[i].sock
  {
    var session := NextSession(s.sendSession);
    RequestFits(session, t, payload, push);
    EmitElsewhere(Drawn(s, ni, Request(session, t, payload, push)), ni, RequestFrames(session, t, payload, push), k);
  }

  lemma SendOn(s: State, e: Event, k: int)
    requires Sized(s) && e.Send? && WellFormed(e)
    ensures ResponsesOn(Step(s, e).out, k) == ResponsesOn(s.out, k)
  {
    var ni := First(s.nodes, NodeIs(e.name));
    var o := Answer(e.source, e.session, false, []);
    NoWriteOn(s.out, o, k);
    if ni < |s.nodes| {
      var (s1, up) := NodeConnect(s, ni, e.kid);
      if up {
        RequestOn(s1, ni, e.target, e.payload, e.push, k);
        NoWriteOn(SendRequest(s1, ni, e.target, e.payload, e.push).out, o, k);
      }
    }
  }

  lemma AckOn(s: State, source: U32, session: int, k: int)
    ensures ResponsesOn(Ack(s, source, session).out, k) == ResponsesOn(s.out, k)
  {
    NoWriteOn(s.out, Answer(source, session, true, []), k);
  }

  /** An event writes a response to a socket this service opened exactly if it is a stray reply. */
  lemma StepOn(s: State, e: Event, k: int)
    requires Sized(s) && WellFormed(e) && Own(s.conns, k)
    ensures var t := Step(s, e);
            && (!Stray(s, e, k) ==> ResponsesOn(t.out, k) == ResponsesOn(s.out, k))
            && (Stray(s, e, k) ==> |ResponsesOn(t.out, k)| > |ResponsesOn(s.out, k)|)
  {
    match e {
      case Connected(id) => ConnectedOn(s, id, k);
      case Accepted(_) =>
      case Data(id, bytes) =>
        if ConnAt(s, id) < |s.conns| {
          ConnAtSame(s, id);
          DataOn(s, ConnAt(s, id), bytes, k);
        }
      case Closed(id) => ClosedOn(s, id, k);
      case Listen(source, session) => AckOn(s, source, session, k);
      case Register(source, session, _) => AckOn(s.(names := Step(s, e).names), source, session, k);
      case NodeAt(source, session, _, _, _) => NodeAtOn(s, e, k);
      case Send(_, _, _, _, _, _, _) => SendOn(s, e, k);
      case LocalDone(_, _, _) => LocalDoneOn(s, e, k);
    }
  }

  lemma NodeAtOn(s: State, e: Event, k: int)
    requires Sized(s) && e.NodeAt? && WellFormed(e)
    ensures ResponsesOn(Step(s, e).out, k) == ResponsesOn(s.out, k)
  {
    var i, j := First(s.nodes, NodeIs(e.name)), First(s.nodes, NodeFree());
    var ni := if i < |s.nodes| then i else j;
    if ni == |s.nodes| {
      AckOn(s, e.source, e.session, k);
    } else {
      var n := if i < |s.nodes| then s.nodes[i] else NO_NODE.(used := true, name := e.name);
      AckOn(NodeConnect(s.(nodes := s.nodes[ni := n.(port := e.port)]), ni, e.kid).0, e.source, e.session, k);
    }
  }

  /* ---- whose socket it is ---- */

  lemma AllocOwn(conns: seq<Conn>, sock: int, outbound: bool, ready: bool, k: int)
    requires Own(conns, k) && (outbound || sock != k)
    ensures Own(AllocConn(conns, sock, outbound, ready), k)
  {
  }

  lemma SameConnsOwn(a: seq<Conn>, b: seq<Conn>, k: int)
    requires SameConns(a, b) && Own(a, k)
    ensures Own(b, k)
  {
    forall c | 0 <= c < |b| && b[c].used && b[c].sock == k
      ensures b[c].outbound
    {
      assert a[c].(rs := IDLE) == b[c].(rs := IDLE);
    }
  }

  lemma DataOwn(s: State, ci: nat, bytes: Bytes, k: int)
    requires ci < |s.conns| && ci < MAX_CONN && Own(s.conns, k)
    ensures var t := ConnData(s, ci, bytes); Own(t.conns, k) && t.nodes == s.nodes && t.sockets == s.sockets
  {
    var fs := Frames(s.conns[ci].rx + bytes);
    if s.conns[ci].outbound {
      QuietResponses(s, ci, fs);
      SameConnsOwn(s.conns, HandleFrames(s, ci, fs).conns, k);
    } else {
      var s0 := s.(received := s.received + [(s.conns[ci].sock, bytes)]);
      var (q, calls) := InFold(s.conns[ci].inbound, fs);
      QuietRequests(s0, ci, fs);
      SameConnsOwn(Absorb(s0, ci, q, calls).conns, HandleFrames(s0, ci, fs).conns, k);
    }
  }

  /** Nodes keep their sockets, lose them, or take fresh ones. */
  ghost predicate NodesMoved(s: State, t: State)
  {
    && |t.nodes| == |s.nodes| && s.sockets <= t.sockets
    && forall i :: 0 <= i < |s.nodes| ==> t.nodes[i].sock == s.nodes[i].sock || t.nodes[i].sock < 0 || t.nodes[i].sock !in s.sockets
  }

  lemma ConnectOwn(s: State, ni: nat, kid: int, k: int)
    requires ni < |s.nodes| && kid !in s.sockets && Own(s.conns, k)
    ensures var t := NodeConnect(s, ni, kid).0; Own(t.conns, k) && NodesMoved(s, t)
  {
    AllocOwn(s.conns, kid, true, false, k);
  }

  lemma SendOwn(s: State, e: Event, k: int)
    requires Sized(s) && e.Send? && WellFormed(e) && Fresh(s, e) && Own(s.conns, k)
    ensures Own(Step(s, e).conns, k) && NodesMoved(s, Step(s, e))
  {
    var ni := First(s.nodes, NodeIs(e.name));
    if ni < |s.nodes| {
      ConnectOwn(s, ni, e.kid, k);
      RequestOn(NodeConnect(s, ni, e.kid).0, ni, e.target, e.payload, e.push, k);
    }
  }

  lemma NodeAtOwn(s: State, e: Event, k: int)
    requires Sized(s) && e.NodeAt? && WellFormed(e) && Fresh(s, e) && Own(s.conns, k)
    ensures Own(Step(s, e).conns, k) && NodesMoved(s, Step(s, e))
  {
    var i, j := First(s.nodes, NodeIs(e.name)), First(s.nodes, NodeFree());
    var ni := if i < |s.nodes| then i else j;
    if ni < |s.nodes| {
      var n := if i < |s.nodes| then s.nodes[i] else NO_NODE.(used := true, name := e.name);
      ConnectOwn(s.(nodes := s.nodes[ni := n.(port := e.port)]), ni, e.kid, k);
    }
  }

  lemma ConnectedOwn(s: State, id: int, k: int)
    requires Own(s.conns, k)
    ensures Own(OnConnected(s, id).conns, k) && NodesMoved(s, OnConnected(s, id))
  {
  }

  lemma ClosedOwn(s: State, id: int, k: int)
    requires Own(s.conns, k)
    ensures Own(OnClosed(s, id).conns, k) && NodesMoved(s, OnClosed(s, id))
  {
  }

  lemma StepOwn(s: State, e: Event, k: int)
    requires Sized(s) && WellFormed(e) && Fresh(s, e) && Own(s.conns, k)
    ensures e != Accepted(k) ==> Own(Step(s, e).conns, k)
    ensures NodesMoved(s, Step(s, e))
  {
    match e {
      case Connected(id) => ConnectedOwn(s, id, k);
      case Closed(id) => ClosedOwn(s, id, k);
      case Accepted(id) =>
        if id != k {
          AllocOwn(s.conns, id, false, true, k);
        }
      case Data(id, bytes) =>
        if ConnAt(s, id) < |s.conns| {
          DataOwn(s, ConnAt(s, id), bytes, k);
        }
      case Send(_, _, _, _, _, _, _) => SendOwn(s, e, k);
      case NodeAt(_, _, _, _, _) => NodeAtOwn(s, e, k);
      case LocalDone(_, _, _) => LocalDoneOn(s, e, k);
      case _ =>
    }
  }
}
