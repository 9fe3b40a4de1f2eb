/** A reply that goes astray onto a link: how a run gets there, and what the peer makes of it. */
module ClusterAstray {
  import opened Wrappers
  import opened Bytes
  import opened Logs
  import opened Framing
  import opened ClusterWire
  import opened Cluster
  import opened ClusterApart
  import opened ClusterInvariants
  import opened ClusterRuns
  import opened ClusterStrays
  import opened ClusterTheorems
  import opened ClusterReplies

  /** node_get's entry for a name: its own, or the first free one. */
  function EntryFor(nodes: seq<Node>, name: Bytes): nat
  {
    var i := First(nodes, NodeIs(name));
    if i < |nodes| then i else First(nodes, NodeFree())
  }

  lemma LinkTakesSlot(s: State, c: nat, e: Event)
    requires Inv(s) && c < MAX_CONN && !s.conns[c].used && forall d :: 0 <= d < c ==> s.conns[d].used
    requires e.NodeAt? && WellFormed(e) && Fresh(s, e) && e.kid >= 0 && e.port != 0
    requires EntryFor(s.nodes, e.name) < MAX_NODE && s.nodes[EntryFor(s.nodes, e.name)].sock < 0
    ensures var t := Step(s, e);
            && t.conns == s.conns[c := NO_CONN.(used := true, sock := e.kid, outbound := true)] && t.precv == s.precv
            && t.requests == s.requests && (e.session == 0 ==> t.out == s.out)
  {
    FreeSlotIs(s.conns, c);
  }

  /** The connection a request came on closes, a link of this service takes its table slot, and
      then the local service replies: the response is written to the link's socket, before the link
      is even ready, and the request frames given to that socket stay what they were. */
  lemma StrayOnLink(s: State, i: nat, ls: int, sock: int, remote: U32, e: Event, ok: bool, payload: Bytes)
    requires Inv(s) && Waits(s, i, ls, sock, remote)
    requires forall c :: 0 <= c < s.precv[i].connId ==> s.conns[c].used
    requires forall n :: 0 <= n < MAX_NODE ==> s.nodes[n].sock != sock
    requires e.NodeAt? && WellFormed(e) && Fresh(s, e) && e.kid >= 0 && e.port != 0
    requires EntryFor(s.nodes, e.name) < MAX_NODE && s.nodes[EntryFor(s.nodes, e.name)].sock < 0
    ensures var s1 := OnClosed(s, sock);
            Sized(s1) &&
            var t := Step(s1, e);
            Inv(t) && !t.conns[s.precv[i].connId].ready && Stray(t, LocalDone(ls, ok, payload), e.kid) &&
            var fs, u := ResponseFrames(remote, ok, if ok then payload else ERROR), Step(t, LocalDone(ls, ok, payload));
            && Packable(fs) && WrittenOn(u.out, e.kid) == WrittenOn(t.out, e.kid) + PackEach(fs)
            && RequestsOn(u.out, e.kid) == RequestsOn(t.out, e.kid)
            && u.requests == s.requests && (e.session == 0 ==> t.out == s.out)
  {
    var c, s1 := s.precv[i].connId, OnClosed(s, sock);
    ClosedIs(s, sock);
    ConnAtUnique(s, sock, c);
    InvStep(s, Closed(sock));
    InvSized(s1);
    var t := Step(s1, e);
    LinkTakesSlot(s1, c, e);
    InvStep(s1, e);
    RecvIsFirst(t.precv, t.localCount, i);
    StrayWrites(t, LocalDone(ls, ok, payload), e.kid);
  }

  lemma StrayWrites(s: State, e: Event, k: int)
    requires Sized(s) && Stray(s, e, k)
    ensures var p := s.precv[First(s.precv, RecvIs(e.session))];
            var fs, t := ResponseFrames(p.remoteSession, e.ok, if e.ok then e.payload else ERROR), Step(s, e);
            && Packable(fs) && WrittenOn(t.out, k) == WrittenOn(s.out, k) + PackEach(fs)
            && RequestsOn(t.out, k) == RequestsOn(s.out, k) && t.requests == s.requests
  {
    var p := s.precv[First(s.precv, RecvIs(e.session))];
    var fs := ResponseFrames(p.remoteSession, e.ok, if e.ok then e.payload else ERROR);
    ResponseFits(p.remoteSession, e.ok, if e.ok then e.payload else ERROR);
    WritesOn(k, fs, k);
    WrittenAppend(s.out, Writes(k, fs), k);
    InertWrites(k, fs);
    RequestsAppend(s.out, Writes(k, fs), k);
  }

  /** The peer reads a response as a request: if the low byte of the session is 0 and there are four
      bytes of data, as a small one, with address and session made up of what the response held. */
  lemma InventedCall(q: Inbound, session: U32, data: Bytes)
    requires session % 256 == 0 && |data| >= 4
    ensures InStep(q, ResponseFrame(session, RESP_OK, data))
         == (q, [Call(Get32(data) == 0, Get32(data), Addr(session / 256 + 0x100_0000), data[4..])])
  {
    var f := ResponseFrame(session, RESP_OK, data);
    var a: Bytes := f[1..];
    LEFirst(session, 3);
    assert f[0] == 0;
    assert f[5..] == data && f[9..] == data[4..];
    assert a[..4] == LE(session / 256, 3) + [RESP_OK];
    LESnocOne(session / 256, 3);
    Pow256Values();
    assert Pow256(3) == 256 * Pow256(2);
    LERoundTrip(session / 256, 3);
  }

  lemma LEFirst(n: nat, k: nat)
    ensures LE(n, k + 1) == [n % 256] + LE(n / 256, k)
  {
  }

  lemma {:induction false} LESnocOne(n: nat, k: nat)
    ensures GetLE(LE(n, k) + [1]) == GetLE(LE(n, k)) + Pow256(k)
  {
    if k == 0 {
      assert [1][1..] == [];
    } else {
      LESnocOne(n / 256, k - 1);
      assert (LE(n, k) + [1])[1..] == LE(n / 256, k - 1) + [1];
      assert LE(n, k)[1..] == LE(n / 256, k - 1);
    }
  }

  /* ---- a run that gets there ---- */

  /** A first event on a fresh service, then one frame on that connection. */
  function Opened(f: Bytes): seq<Event>
    requires |f| < TWO_16
  {
    [Accepted(0), Data(0, Pack(f))]
  }

  lemma FirstAccepted()
    ensures var s, t := Init(), OnAccepted(Init(), 0);
            && t == s.(conns := t.conns, sockets := {0})
            && t.conns == s.conns[0 := NO_CONN.(used := true, ready := true)]
  {
    FreeSlotIs(Init().conns, 0);
  }

  lemma OneFrameIn(s: State, f: Bytes)
    requires s.conns != [] && s.conns[0] == NO_CONN.(used := true, ready := true) && |f| < TWO_16
    ensures ConnAt(s, 0) == 0
    ensures var t := HandleRequest(s.(received := s.received + [(0, Pack(f))]), 0, f);
            t.conns != [] && ConnData(s, 0, Pack(f)) == SetRx(t, 0, [])
  {
    assert ConnIs(0)(s.conns[0]);
    var none: Bytes, b := [], Pack(f);
    assert PackAll([f]) == b by {
      assert [f][1..] == [] && b + none == b;
    }
    assert b + none == b && none + b == b;
    SplitUnique([f], none);
    var s0 := s.(received := s.received + [(0, b)]);
    HandleOne(s0, 0, f);
    FramesApart(s0, 0, [f], none);
  }

  lemma OpenedIs(f: Bytes)
    requires |f| < TWO_16
    ensures Legal(Init(), Opened(f))
    ensures var s := OnAccepted(Init(), 0);
            s.conns != [] &&
            var t := HandleRequest(s.(received := [(0, Pack(f))]), 0, f);
            t.conns != [] && Run(Init(), Opened(f)) == SetRx(t, 0, [])
  {
    FirstAccepted();
    var s := OnAccepted(Init(), 0);
    OneFrameIn(s, f);
    RunTwo(Init(), Accepted(0), Data(0, Pack(f)));
    assert s.received + [(0, Pack(f))] == [(0, Pack(f))];
  }

  lemma RunTwo(s: State, d: Event, e: Event)
    requires Sized(s) && WellFormed(d) && Fresh(s, d) && WellFormed(e) && Fresh(Step(s, d), e)
    ensures Sized(Step(s, d)) && Legal(s, [d, e]) && Run(s, [d, e]) == Step(Step(s, d), e)
  {
    StepSized(s, d);
    StepSized(Step(s, d), e);
    RunOne(Step(s, d), e);
    assert [d, e][1..] == [e];
  }

  lemma RunOne(s: State, e: Event)
    requires Sized(s) && WellFormed(e) && Fresh(s, e)
    ensures Legal(s, [e]) && Run(s, [e]) == Step(s, e)
  {
    StepSized(s, e);
    assert [e][1..] == [];
  }

  lemma RunCons(s: State, e: Event, t: State, z: seq<Event>)
    requires Sized(s) && WellFormed(e) && Fresh(s, e) && t == Step(s, e) && Sized(t) && Legal(t, z)
    ensures Legal(s, [e] + z) && Run(s, [e] + z) == Run(t, z)
  {
    assert ([e] + z)[1..] == z;
  }

  function Hangup(data: Bytes): seq<Event>
  {
    [Closed(0)] + ([NodeAt(0, 0, [98], 1, 1)] + [LocalDone(1, true, data)])
  }

  /** A caller asks for service 1 and hangs up; the service opens a link; service 1 replies. */
  function AstrayRun(remote: U32, data: Bytes): seq<Event>
  {
    [Accepted(0)] + ([Data(0, Pack(SmallHead(Addr(1), remote)))] + Hangup(data))
  }

  /** The caller's request waits in the first slot. */
  lemma AskedWaits(remote: U32)
    requires remote != 0
    ensures Legal(Init(), Opened(SmallHead(Addr(1), remote)))
    ensures var s := Run(Init(), Opened(SmallHead(Addr(1), remote)));
            && |s.nodes| == MAX_NODE && (forall n :: 0 <= n < MAX_NODE ==> s.nodes[n].sock < 0)
            && EntryFor(s.nodes, [98]) < MAX_NODE
            && Waits(s, 0, 1, 0, remote) && s.sockets == {0} && s.requests == []
            && s.out == [Forward(1, 1, [])] && s.precv[0].connId == 0
  {
    var f: Bytes := SmallHead(Addr(1), remote);
    FirstAccepted();
    OpenedIs(f);
    ParseSmall(Addr(1), remote, []);
    assert f + [] == f;
    assert RecvFree()(Init().precv[0]);
    assert NodeFree()(Init().nodes[0]);
  }

  /** The peer of the link: the stray response is all it gets. */
  lemma PeerInvents(remote: U32, data: Bytes)
    requires remote % 256 == 0 && 4 <= |data| <= MULTI_PART
    ensures var f := ResponseFrame(remote, RESP_OK, data);
            Legal(Init(), Opened(f)) &&
            var b := Run(Init(), Opened(f));
            && On(b.received, 0) == [Pack(f)]
            && On(b.dispatched, 0) == [Call(Get32(data) == 0, Get32(data), Addr(remote / 256 + 0x100_0000), data[4..])]
  {
    var f: Bytes := ResponseFrame(remote, RESP_OK, data);
    FirstAccepted();
    OpenedIs(f);
    InventedCall(NO_INBOUND, remote, data);
    var s := OnAccepted(Init(), 0).(received := [(0, Pack(f))]);
    var c := InStep(NO_INBOUND, f).1[0];
    TagOne(0, c);
    DispatchLogs(Absorb(s, 0, NO_INBOUND, [c]), 0, c);
    OnOne([], 0, c, 0);
    OnOne([], 0, Pack(f), 0);
  }

  lemma DispatchLogs(s: State, ci: nat, c: Call)
    requires ci < |s.conns|
    ensures Dispatch(s, ci, c).received == s.received && Dispatch(s, ci, c).dispatched == s.dispatched
  {
  }

  lemma PackOne(f: Bytes)
    requires |f| < TWO_16
    ensures PackEach([f]) == [Pack(f)]
  {
    assert [f][1..] == [];
  }

  lemma HangupWrites(s: State, remote: U32, data: Bytes)
    requires Inv(s) && Waits(s, 0, 1, 0, remote) && s.precv[0].connId == 0
    requires (forall n :: 0 <= n < MAX_NODE ==> s.nodes[n].sock < 0) && EntryFor(s.nodes, [98]) < MAX_NODE
    requires s.sockets == {0} && s.requests == [] && s.out == [Forward(1, 1, [])]
    requires |data| <= MULTI_PART
    ensures Sized(s) && Sized(OnClosed(s, 0)) && Fresh(OnClosed(s, 0), NodeAt(0, 0, [98], 1, 1))
    ensures var t := Step(OnClosed(s, 0), NodeAt(0, 0, [98], 1, 1));
            Sized(t) &&
            var u := Step(t, LocalDone(1, true, data));
            u.requests == [] && WrittenOn(u.out, 1) == [Pack(ResponseFrame(remote, RESP_OK, data))]
  {
    InvSized(s);
    var e := NodeAt(0, 0, [98], 1, 1);
    StrayOnLink(s, 0, 1, 0, remote, e, true, data);
    var t := Step(OnClosed(s, 0), e);
    InvSized(t);
    var none: seq<Bytes> := [];
    PackOne(ResponseFrame(remote, RESP_OK, data));
    assert [Forward(1, 1, [])][1..] == [];
    assert WrittenOn(s.out, 1) == none && none + PackEach([ResponseFrame(remote, RESP_OK, data)]) == PackEach([ResponseFrame(remote, RESP_OK, data)]);
  }

  /** The last three events, from where the request waits. */
  lemma ReplyAstray(s: State, remote: U32, data: Bytes)
    requires Inv(s) && Waits(s, 0, 1, 0, remote) && s.precv[0].connId == 0
    requires (forall n :: 0 <= n < MAX_NODE ==> s.nodes[n].sock < 0) && EntryFor(s.nodes, [98]) < MAX_NODE
    requires s.sockets == {0} && s.requests == [] && s.out == [Forward(1, 1, [])]
    requires |data| <= MULTI_PART
    ensures Sized(s) && Legal(s, Hangup(data)) &&
            var t := Run(s, Hangup(data));
            t.requests == [] && WrittenOn(t.out, 1) == [Pack(ResponseFrame(remote, RESP_OK, data))]
  {
    HangupWrites(s, remote, data);
    var d, e, f := Closed(0), NodeAt(0, 0, [98], 1, 1), LocalDone(1, true, data);
    var s1 := OnClosed(s, 0);
    var t := Step(s1, e);
    RunOne(t, f);
    RunCons(s1, e, t, [f]);
    RunCons(s, d, s1, [e] + [f]);
  }

  lemma AstrayRunIs(remote: U32, data: Bytes)
    requires remote != 0 && |data| <= MULTI_PART
    ensures Legal(Init(), AstrayRun(remote, data))
    ensures var t := Run(Init(), AstrayRun(remote, data));
            t.requests == [] && WrittenOn(t.out, 1) == [Pack(ResponseFrame(remote, RESP_OK, data))]
    ensures !NoStray(Init(), AstrayRun(remote, data), 1)
  {
    AstrayWrites(remote, data);
    WrittenIff(AstrayRun(remote, data), 1);
  }

  lemma AstrayWrites(remote: U32, data: Bytes)
    requires remote != 0 && |data| <= MULTI_PART
    ensures Legal(Init(), AstrayRun(remote, data))
    ensures var t := Run(Init(), AstrayRun(remote, data));
            t.requests == [] && WrittenOn(t.out, 1) == [Pack(ResponseFrame(remote, RESP_OK, data))]
  {
    var f: Bytes := SmallHead(Addr(1), remote);
    AskedWaits(remote);
    Reachable(Opened(f));
    RunTwo(Init(), Accepted(0), Data(0, Pack(f)));
    var s1, s2 := Step(Init(), Accepted(0)), Run(Init(), Opened(f));
    ReplyAstray(s2, remote, data);
    RunCons(s1, Data(0, Pack(f)), s2, Hangup(data));
    RunCons(Init(), Accepted(0), s1, [Data(0, Pack(f))] + Hangup(data));
  }

  /** So the guard of EndToEnd is needed: here are two runs, the second of the peer that gets
      exactly what the first wrote to its link, in which the peer dispatches a call although no
      request was ever made. */
  lemma CallOutOfNothing(remote: U32, data: Bytes)
    requires remote != 0 && remote % 256 == 0 && 4 <= |data| <= MULTI_PART
    ensures var es, bs := AstrayRun(remote, data), Opened(ResponseFrame(remote, RESP_OK, data));
            Legal(Init(), es) && Legal(Init(), bs) &&
            var a, b := Run(Init(), es), Run(Init(), bs);
            && Flatten(On(b.received, 0)) == Flatten(WrittenOn(a.out, 1)) && !NoStray(Init(), es, 1)
            && AllCalls(On(a.requests, 1)) == []
            && On(b.dispatched, 0) == [Call(Get32(data) == 0, Get32(data), Addr(remote / 256 + 0x100_0000), data[4..])]
  {
    AstrayRunIs(remote, data);
    PeerInvents(remote, data);
  }
}
