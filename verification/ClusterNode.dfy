/** skyclusterd.c as it runs: one service object whose handlers update its tables in place. Every
    handler is proved to be the step of the state machine it stands for. */
module ClusterNode {
  import opened Wrappers
  import opened Bytes
  import opened Logs
  import opened Framing
  import opened ClusterWire
  import opened Cluster
  import opened ClusterApart
  import opened ClusterCalls
  import opened ClusterOutcomes

  /** A slot scan: the loop every *_find and *_alloc of the source is. */
  method Scan<T>(xs: seq<T>, p: T -> bool) returns (i: nat)
    ensures i == First(xs, p)
  {
    i := 0;
    while i < |xs| && !p(xs[i])
      invariant i <= |xs|
      invariant forall j :: 0 <= j < i ==> !p(xs[j])
    {
      i := i + 1;
    }
  }

  lemma WritesOne(sock: int, f: Bytes)
    requires |f| < TWO_16
    ensures Writes(sock, [f]) == [Wrote(sock, Pack(f), false)]
  {
    assert [f][1..] == [];
  }

  lemma WritesCons(out: seq<Out>, sock: int, f: Bytes, z: seq<Bytes>)
    requires |f| < TWO_16 && Packable(z)
    ensures out + Writes(sock, [f] + z) == out + [Wrote(sock, Pack(f), false)] + Writes(sock, z)
  {
    assert ([f] + z)[1..] == z;
    Assoc(out, [Wrote(sock, Pack(f), false)], Writes(sock, z));
  }

  lemma EmitCons(s: State, ni: nat, f: Bytes, z: seq<Bytes>)
    requires ni < |s.nodes| && |f| < TWO_16 && Packable(z)
    ensures EmitAll(s, ni, [f] + z) == EmitAll(EmitFrame(s, ni, f), ni, z)
  {
    assert ([f] + z)[1..] == z;
  }

  lemma EmitSmall(s: State, ni: nat, session: U32, t: Target, payload: Bytes, push: bool)
    requires ni < |s.nodes| && ValidTarget(t) && |payload| < MULTI_PART
    ensures Packable(RequestFrames(session, t, payload, push))
    ensures EmitAll(s, ni, RequestFrames(session, t, payload, push))
         == EmitFrame(s, ni, SmallHead(t, if push then 0 else session) + payload)
  {
    var content := SmallHead(t, if push then 0 else session) + payload;
    assert RequestFrames(session, t, payload, push) == [content] + [];
    EmitCons(s, ni, content, []);
  }

  lemma EmitLarge(s: State, ni: nat, session: U32, t: Target, payload: Bytes, push: bool)
    requires ni < |s.nodes| && ValidTarget(t) && |payload| >= MULTI_PART
    ensures Packable(RequestFrames(session, t, payload, push)) && Packable(Parts(session, payload))
    ensures EmitAll(s, ni, RequestFrames(session, t, payload, push))
         == EmitAll(EmitFrame(s, ni, LargeHead(t, if push then 0 else session, |payload| % TWO_32, push)), ni, Parts(session, payload))
  {
    PartsFit(session, payload);
    EmitCons(s, ni, LargeHead(t, if push then 0 else session, |payload| % TWO_32, push), Parts(session, payload));
  }

  class Clusterd {
    var nodes: seq<Node>
    var conns: seq<Conn>
    var precv: seq<PRecv>
    var psend: seq<PSend>
    var names: seq<NameEntry>
    var sendSession: U32
    var localCount: nat
    var out: seq<Out>
    ghost var sockets: set<int>
    ghost var requests: seq<(int, Request)>
    ghost var emitted: seq<(int, Bytes)>
    ghost var received: seq<(int, Bytes)>
    ghost var dispatched: seq<(int, Call)>
    var issued: nat

    ghost function Abs(): State
      reads this
    {
      State(nodes, conns, precv, psend, names, sendSession, localCount,
            sockets, requests, emitted, received, dispatched, issued, out)
    }

    constructor ()
      ensures Abs() == Init() && Sized(Abs())
    {
      nodes := seq(MAX_NODE, _ => NO_NODE);
      conns := seq(MAX_CONN, _ => NO_CONN);
      precv := seq(MAX_PENDING, _ => NO_PRECV);
      psend := seq(MAX_PENDING, _ => NO_PSEND);
      names := seq(MAX_NODE, _ => NO_NAME);
      sendSession, localCount, issued, out := 0, 0, 0, [];
      sockets, requests, emitted, received, dispatched := {}, [], [], [], [];
      new;
      assert nodes == Init().nodes && conns == Init().conns && precv == Init().precv;
      assert psend == Init().psend && names == Init().names;
    }

    method SendRaw(ci: nat, content: Bytes)
      requires ci < |conns| && |content| < TWO_16
      modifies this`out
      ensures out == old(out) + [Wrote(conns[ci].sock, Pack(content), false)]
    {
      out := out + [Wrote(conns[ci].sock, Pack(content), false)];
    }

    /** conn_send_response: one frame, or a begin frame and a loop over the parts. */
    method SendResponse(ci: nat, session: U32, ok: bool, payload: Bytes)
      requires ci < |conns|
      modifies this`out
      ensures Abs() == Cluster.SendResponse(old(Abs()), ci, session, ok, payload)
    {
      ghost var goal := Cluster.SendResponse(Abs(), ci, session, ok, payload).out;
      ResponseFits(session, ok, payload);
      if |payload| <= MULTI_PART {
        var f := ResponseFrame(session, if ok then RESP_OK else RESP_ERR, payload);
        WritesOne(conns[ci].sock, f);
        SendRaw(ci, f);
        return;
      }
      var begin := ResponseFrame(session, RESP_MULTI_BEGIN, LE32(|payload| % TWO_32));
      var p := payload;
      ResponsePartsFit(session, p);
      WritesCons(out, conns[ci].sock, begin, ResponseParts(session, p));
      SendRaw(ci, begin);
      while |p| > MULTI_PART
        invariant |p| > 0 && Packable(ResponseParts(session, p))
        invariant out + Writes(conns[ci].sock, ResponseParts(session, p)) == goal
      {
        var f := ResponseFrame(session, RESP_MULTI_PART, p[..MULTI_PART]);
        ResponsePartsFit(session, p[MULTI_PART..]);
        WritesCons(out, conns[ci].sock, f, ResponseParts(session, p[MULTI_PART..]));
        SendRaw(ci, f);
        p := p[MULTI_PART..];
      }
      WritesOne(conns[ci].sock, ResponseFrame(session, RESP_MULTI_END, p));
      SendRaw(ci, ResponseFrame(session, RESP_MULTI_END, p));
    }

    method Settle(i: nat, ok: bool, payload: Bytes)
      requires i < |psend|
      modifies this`out, this`psend
      ensures Abs() == Cluster.Settle(old(Abs()), i, ok, payload)
    {
      out := out + [Answer(psend[i].source, psend[i].jsSession, ok, payload)];
      psend := psend[i := psend[i].(used := false)];
    }

    method HandleResponse(ci: nat, frame: Bytes)
      requires ci < |conns|
      modifies this`out, this`psend, this`conns
      ensures Abs() == Cluster.HandleResponse(old(Abs()), ci, frame)
    {
      var m := ParseResponse(frame);
      if m.NoReply? {
        return;
      }
      var i := Scan(psend, SendIs(m.session));
      if i == |psend| {
        return;
      }
      match m {
        case Failure(_) => Settle(i, false, []);
        case Begin(session, total) =>
          conns := conns[ci := conns[ci].(rs := ReasmStart(session, total))];
        case Piece(session, last, data) =>
          var (r, done) := ReasmChunk(conns[ci].rs, session, last, data);
          conns := conns[ci := conns[ci].(rs := r)];
          if done.Some? {
            Settle(i, true, done.value);
          }
        case Whole(_, data) => Settle(i, true, data);
      }
    }

    method NameLookup(name: Bytes) returns (handle: U32)
      ensures handle == Cluster.NameLookup(names, name)
    {
      var key := if name != [] && name[0] == 0x40 then name[1..] else name;
      var i := Scan(names, EntryIs(key));
      handle := if i < |names| then names[i].handle else 0;
    }

    method NameQuery(ci: nat, c: Call)
      requires ci < |conns|
      modifies this`out
      ensures Abs() == Cluster.NameQuery(old(Abs()), ci, c)
    {
      var q := SeriFirstString(c.payload);
      if q.None? {
        if !c.push {
          SendResponse(ci, c.session, false, INVALID_NAME);
        }
        return;
      }
      var handle := NameLookup(CStr(if |q.value| < MAX_NAME - 1 then q.value else q.value[..MAX_NAME - 1]));
      if handle != 0 {
        SendResponse(ci, c.session, true, SeriPackInt(handle));
      } else {
        SendResponse(ci, c.session, false, NAME_NOT_FOUND);
      }
    }

    method ForwardCall(ci: nat, c: Call, handle: U32)
      requires ci < |conns|
      modifies this`out, this`precv, this`localCount
      ensures Abs() == Cluster.ForwardCall(old(Abs()), ci, c, handle)
    {
      localCount := localCount + 1;
      var i := Scan(precv, RecvFree());
      if i == |precv| {
        if !c.push {
          SendResponse(ci, c.session, false, CLUSTERD_BUSY);
        }
        return;
      }
      precv := precv[i := PRecv(true, localCount, ci, c.session)];
      if c.push {
        out := out + [Forward(handle, 0, c.payload)];
        precv := precv[i := precv[i].(used := false)];
      } else {
        out := out + [Forward(handle, localCount, c.payload)];
      }
    }

    method Dispatch(ci: nat, c: Call)
      requires ci < |conns|
      modifies this`out, this`precv, this`localCount
      ensures Abs() == Cluster.Dispatch(old(Abs()), ci, c)
      ensures forall h :: Serves(names, c.target, h) && First(old(precv), RecvFree()) < |old(precv)| ==>
                out == old(out) + [Forward(h, if c.push then 0 else old(localCount) + 1, c.payload)]
    {
      ghost var s := Abs();
      forall h | Serves(names, c.target, h) && First(precv, RecvFree()) < |precv|
        ensures Cluster.Dispatch(s, ci, c).out == s.out + [Forward(h, if c.push then 0 else s.localCount + 1, c.payload)]
      {
        CallForwarded(s, ci, c, h);
      }
      match c.target {
        case Addr(a) =>
          if a == 0 {
            NameQuery(ci, c);
          } else {
            ForwardCall(ci, c, a);
          }
        case Named(n) =>
          var handle := NameLookup(n);
          if handle != 0 {
            ForwardCall(ci, c, handle);
          } else if !c.push {
            SendResponse(ci, c.session, false, INVALID_NAME);
          }
      }
    }

    method HandleRequest(ci: nat, frame: Bytes)
      requires ci < |conns|
      modifies this`out, this`precv, this`localCount, this`conns, this`dispatched
      ensures Abs() == Cluster.HandleRequest(old(Abs()), ci, frame)
    {
      var (q, calls) := InStep(conns[ci].inbound, frame);
      dispatched := dispatched + Tag(conns[ci].sock, calls);
      conns := conns[ci := conns[ci].(inbound := q)];
      if calls != [] {
        Dispatch(ci, calls[0]);
      }
    }

    /** conn_data: append to rx, then take complete frames off its front one by one. */
    method ConnData(ci: nat, bytes: Bytes)
      requires ci < |conns|
      modifies this`out, this`precv, this`localCount, this`conns, this`dispatched, this`psend, this`received
      ensures Abs() == Cluster.ConnData(old(Abs()), ci, bytes)
    {
      DrainedAll(Abs(), ci, bytes);
      if !conns[ci].outbound {
        received := received + [(conns[ci].sock, bytes)];
      }
      conns := conns[ci := conns[ci].(rx := conns[ci].rx + bytes)];
      ghost var goal := Drained(Abs(), ci);
      while HasFrame(conns[ci].rx)
        invariant ci < |conns| && Drained(Abs(), ci) == goal
        decreases |conns[ci].rx|
      {
        var rx := conns[ci].rx;
        var frame := FirstFrame(rx);
        DrainedStep(Abs(), ci);
        if conns[ci].outbound {
          HandleResponse(ci, frame);
        } else {
          HandleRequest(ci, frame);
        }
        conns := conns[ci := conns[ci].(rx := AfterFrame(rx))];
      }
      assert conns[ci := conns[ci].(rx := conns[ci].rx)] == conns;
    }

    method AllocConn(sock: int, outbound: bool, ready: bool)
      modifies this`conns
      ensures conns == Cluster.AllocConn(old(conns), sock, outbound, ready)
    {
      var i := Scan(conns, ConnFree());
      if i < |conns| {
        conns := conns[i := NO_CONN.(used := true, sock := sock, outbound := outbound, ready := ready)];
      }
    }

    method NodeConnect(ni: nat, kid: int) returns (up: bool)
      requires ni < |nodes|
      modifies this`nodes, this`conns, this`sockets
      ensures (Abs(), up) == Cluster.NodeConnect(old(Abs()), ni, kid)
    {
      if nodes[ni].sock >= 0 || nodes[ni].connecting {
        return true;
      }
      if nodes[ni].port == 0 {
        return false;
      }
      nodes := nodes[ni := nodes[ni].(connecting := true)];
      if kid < 0 {
        nodes := nodes[ni := nodes[ni].(connecting := false)];
        assert nodes == old(nodes);
        return false;
      }
      nodes := nodes[ni := nodes[ni].(sock := kid)];
      assert nodes == old(nodes)[ni := nodes[ni]];
      AllocConn(kid, true, false);
      sockets := sockets + {kid};
      return true;
    }

    method EmitFrame(ni: nat, content: Bytes)
      requires ni < |nodes| && |content| < TWO_16
      modifies this`out, this`nodes, this`emitted
      ensures Abs() == Cluster.EmitFrame(old(Abs()), ni, content)
    {
      var frame := Pack(content);
      emitted := emitted + [(nodes[ni].sock, frame)];
      var c := Scan(conns, ConnIs(nodes[ni].sock));
      if c < |conns| && conns[c].ready {
        out := out + [Wrote(conns[c].sock, frame, true)];
      } else {
        nodes := nodes[ni := nodes[ni].(queue := nodes[ni].queue + [frame])];
      }
    }

    /** The chunk loop of node_send_request. */
    method EmitParts(ni: nat, session: U32, payload: Bytes)
      requires ni < |nodes| && Packable(Parts(session, payload))
      modifies this`out, this`nodes, this`emitted
      ensures Abs() == EmitAll(old(Abs()), ni, Parts(session, payload))
    {
      var p := payload;
      while p != []
        invariant ni < |nodes| && Packable(Parts(session, p))
        invariant EmitAll(Abs(), ni, Parts(session, p)) == EmitAll(old(Abs()), ni, Parts(session, payload))
        decreases |p|
      {
        var k := if |p| > MULTI_PART then MULTI_PART else |p|;
        var part := Part(session, |p| <= MULTI_PART, p[..k]);
        PartsFit(session, p[k..]);
        assert |p| <= MULTI_PART ==> p[..k] == p && p[k..] == [];
        assert Parts(session, p) == [part] + Parts(session, p[k..]);
        EmitCons(Abs(), ni, part, Parts(session, p[k..]));
        EmitFrame(ni, part);
        p := p[k..];
      }
    }

    method Draw(ni: nat, t: Target, payload: Bytes, push: bool) returns (session: U32)
      requires ni < |nodes|
      modifies this`requests, this`sendSession, this`issued
      ensures session == NextSession(old(sendSession))
      ensures Abs() == Drawn(old(Abs()), ni, Request(session, t, payload, push))
    {
      sendSession := (sendSession + 1) % TWO_32;
      if sendSession > MAX_SESSION {
        sendSession := 1;
      }
      session := sendSession;
      issued := issued + 1;
      requests := requests + [(nodes[ni].sock, Request(session, t, payload, push))];
    }

    /** node_send_request: draw a session, then a single frame, or a header and the chunks. */
    method SendRequest(ni: nat, t: Target, payload: Bytes, push: bool)
      requires ni < |nodes| && ValidTarget(t)
      modifies this`out, this`nodes, this`emitted, this`requests, this`sendSession, this`issued
      ensures Abs() == Cluster.SendRequest(old(Abs()), ni, t, payload, push)
    {
      var session := Draw(ni, t, payload, push);
      var field := if push then 0 else session;
      if |payload| < MULTI_PART {
        EmitSmall(Abs(), ni, session, t, payload, push);
        EmitFrame(ni, SmallHead(t, field) + payload);
      } else {
        EmitLarge(Abs(), ni, session, t, payload, push);
        EmitFrame(ni, LargeHead(t, field, |payload| % TWO_32, push));
        EmitParts(ni, session, payload);
      }
    }

    method FlushQueue(ni: nat)
      requires ni < |nodes|
      modifies this`out, this`nodes
      ensures Abs() == Cluster.FlushQueue(old(Abs()), ni)
    {
      var c := Scan(conns, ConnIs(nodes[ni].sock));
      if c == |conns| {
        return;
      }
      var m, k := nodes[ni].queue, 0;
      assert m[0..] == m;
      while k < |m|
        invariant k <= |m| && nodes == old(nodes)
        invariant out + Flushed(conns[c].sock, m[k..]) == old(out) + Flushed(conns[c].sock, m)
      {
        Assoc(out, [Wrote(conns[c].sock, m[k], true)], Flushed(conns[c].sock, m[k + 1..]));
        assert m[k..][1..] == m[k + 1..];
        out := out + [Wrote(conns[c].sock, m[k], true)];
        k := k + 1;
      }
      assert m[k..] == [] && out + [] == out;
      nodes := nodes[ni := nodes[ni].(queue := [])];
    }

    method FailPending(ni: nat)
      requires ni < |nodes|
      modifies this`out, this`nodes, this`psend
      ensures Abs() == Cluster.FailPending(old(Abs()), ni)
      ensures old(out) <= out
      ensures forall k :: |old(out)| <= k < |out| ==> out[k].Answer? && !out[k].ok && out[k].payload == []
    {
      FailedAllFail(psend, ni);
      nodes := nodes[ni := nodes[ni].(queue := [])];
      ghost var ps := psend;
      var i := 0;
      assert ps[0..] == ps;
      while i < |psend|
        invariant nodes == old(nodes)[ni := old(nodes)[ni].(queue := [])]
        invariant i <= |psend| == |ps| && psend[i..] == ps[i..]
        invariant psend[..i] + FailedSlots(ps[i..], ni) == FailedSlots(ps, ni)
        invariant out + FailedAnswers(ps[i..], ni) == old(out) + FailedAnswers(ps, ni)
      {
        var p := psend[i];
        assert p == ps[i..][0] && ps[i..][1..] == ps[i + 1..];
        if p.used && p.nodeIdx == ni {
          Assoc(out, [Answer(p.source, p.jsSession, false, [])], FailedAnswers(ps[i + 1..], ni));
          out := out + [Answer(p.source, p.jsSession, false, [])];
          psend := psend[i := p.(used := false)];
        }
        assert psend[..i + 1] == psend[..i] + [psend[i]];
        Assoc(psend[..i], [psend[i]], FailedSlots(ps[i + 1..], ni));
        i := i + 1;
      }
      assert ps[i..] == [] && psend[..i] == psend && psend + [] == psend && out + [] == out;
    }

    method Ack(source: U32, session: int)
      modifies this`out
      ensures Abs() == Cluster.Ack(old(Abs()), source, session)
    {
      if session != 0 {
        out := out + [Answer(source, session, true, [])];
      }
    }

    method OnConnected(id: int)
      modifies this`out, this`nodes, this`conns
      ensures Abs() == Cluster.OnConnected(old(Abs()), id)
    {
      var c := Scan(conns, ConnIs(id));
      if c < |conns| {
        conns := conns[c := conns[c].(ready := true)];
      }
      var ni := Scan(nodes, NodeOn(id));
      if ni < |nodes| {
        FlushQueue(ni);
      }
    }

    method OnClosed(id: int)
      modifies this`out, this`nodes, this`conns, this`psend
      ensures Abs() == Cluster.OnClosed(old(Abs()), id)
    {
      var c := Scan(conns, ConnIs(id));
      if c < |conns| {
        conns := conns[c := NO_CONN];
      }
      var ni := Scan(nodes, NodeOn(id));
      if ni < |nodes| {
        nodes := nodes[ni := nodes[ni].(sock := -1, connecting := false)];
        FailPending(ni);
      }
    }

    method OnRegister(source: U32, session: int, name: Bytes)
      modifies this`out, this`names
      ensures Abs() == Cluster.OnRegister(old(Abs()), source, session, name)
    {
      var i := Scan(names, NameFree());
      if i < |names| {
        names := names[i := NameEntry(true, CStr(name[..if |name| < MAX_NAME then |name| else MAX_NAME - 1]), source)];
      }
      Ack(source, session);
    }

    method OnNodeAt(source: U32, session: int, name: Bytes, port: int, kid: int)
      modifies this`out, this`nodes, this`conns, this`sockets
      ensures Abs() == Cluster.OnNodeAt(old(Abs()), source, session, name, port, kid)
    {
      var ni := Scan(nodes, NodeIs(name));
      if ni == |nodes| {
        ni := Scan(nodes, NodeFree());
        if ni < |nodes| {
          nodes := nodes[ni := NO_NODE.(used := true, name := name)];
        }
      }
      if ni < |nodes| {
        nodes := nodes[ni := nodes[ni].(port := port)];
        assert nodes == old(nodes)[ni := nodes[ni]];
        if nodes[ni].sock < 0 {
          var _ := NodeConnect(ni, kid);
        }
      }
      Ack(source, session);
    }

    method OnSend(source: U32, session: int, name: Bytes, t: Target, payload: Bytes, push: bool, kid: int)
      requires ValidTarget(t)
      modifies this
      ensures Abs() == Cluster.OnSend(old(Abs()), source, session, name, t, payload, push, kid)
    {
      var ni := Scan(nodes, NodeIs(name));
      if ni == |nodes| {
        out := out + [Answer(source, session, false, [])];
        return;
      }
      if nodes[ni].sock < 0 && !nodes[ni].connecting {
        var up := NodeConnect(ni, kid);
        if !up {
          out := out + [Answer(source, session, false, [])];
          return;
        }
      }
      SendRequest(ni, t, payload, push);
      if !push {
        var i := Scan(psend, SendFree());
        if i == |psend| {
          out := out + [Answer(source, session, false, [])];
          return;
        }
        psend := psend[i := PSend(true, sendSession, source, session, ni, issued)];
      }
    }

    method OnLocalDone(session: int, ok: bool, payload: Bytes)
      requires Sized(Abs())
      modifies this`out, this`precv, this`psend
      ensures Abs() == Cluster.OnLocalDone(old(Abs()), session, ok, payload)
    {
      var i := Scan(precv, RecvIs(session));
      if i < |precv| {
        var p := precv[i];
        if conns[p.connId].used {
          SendResponse(p.connId, p.remoteSession, ok, if ok then payload else ERROR);
        }
        precv := precv[i := p.(used := false)];
        return;
      }
      var j := Scan(psend, CallerIs(session));
      if ok && j < |psend| {
        Settle(j, true, payload);
      }
    }

    /** clusterd_cb: every message the service gets takes it through exactly one step. */
    method Handle(e: Event)
      requires Sized(Abs()) && WellFormed(e)
      modifies this
      ensures Abs() == Step(old(Abs()), e) && Sized(Abs())
    {
      StepSized(Abs(), e);
      match e {
        case Connected(id) => OnConnected(id);
        case Accepted(id) =>
          AllocConn(id, false, true);
          sockets := sockets + {id};
        case Data(id, bytes) =>
          var c := Scan(conns, ConnIs(id));
          if c < |conns| {
            ConnData(c, bytes);
          }
        case Closed(id) => OnClosed(id);
        case Listen(source, session) => Ack(source, session);
        case Register(source, session, name) => OnRegister(source, session, name);
        case NodeAt(source, session, name, port, kid) => OnNodeAt(source, session, name, port, kid);
        case Send(source, session, name, t, payload, push, kid) =>
          OnSend(source, session, name, t, payload, push, kid);
        case LocalDone(session, ok, payload) => OnLocalDone(session, ok, payload);
      }
    }
  }
}
