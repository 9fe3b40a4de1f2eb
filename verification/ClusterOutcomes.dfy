/** What callers are told: success or failure, and with which payload. */
module ClusterOutcomes {
  import opened Wrappers
  import opened Bytes
  import opened Framing
  import opened ClusterWire
  import opened Cluster
  import opened ClusterApart
  import opened ClusterInvariants
  import opened ClusterRuns
  import opened ClusterTheorems

  /** The answers given to local callers, whole: to whom, whether ok, and the payload. */
  function Told(out: seq<Out>): multiset<Out>
  {
    if out == [] then multiset{} else (if out[0].Answer? then multiset{out[0]} else multiset{}) + Told(out[1..])
  }

  lemma {:induction false} ToldAppend(a: seq<Out>, b: seq<Out>)
    ensures Told(a + b) == Told(a) + Told(b)
  {
    if a == [] {
      assert a + b == b;
    } else {
      ToldAppend(a[1..], b);
      assert (a + b)[1..] == a[1..] + b && (a + b)[0] == a[0];
      MultiAssoc(if a[0].Answer? then multiset{a[0]} else multiset{}, Told(a[1..]), Told(b));
    }
  }

  lemma FirstAnswered(d: seq<Out>)
    ensures d != [] && d[0].Answer? ==> (d[0].dest, d[0].session) in Answers(d)
  {
  }

  lemma {:induction false} NothingTold(d: seq<Out>)
    requires Answers(d) == multiset{}
    ensures Told(d) == multiset{}
  {
    if d != [] {
      FirstAnswered(d);
      NothingTold(d[1..]);
    }
  }

  lemma ToldOne(out: seq<Out>, o: Out)
    ensures Told(out + [o]) == Told(out) + if o.Answer? then multiset{o} else multiset{}
  {
    ToldAppend(out, [o]);
    assert [o][1..] == [];
  }

  /** Output that only grew, with no caller answered, tells nobody anything. */
  lemma ToldSame(a: seq<Out>, b: seq<Out>)
    requires a <= b && Answers(b) == Answers(a)
    ensures Told(b) == Told(a)
  {
    var d := b[|a|..];
    assert b == a + d;
    AnswersAppend(a, d);
    assert Answers(d) == multiset{} by {
      forall c: (U32, int)
        ensures Answers(d)[c] == 0
      {
        assert (Answers(a) + Answers(d))[c] == Answers(a)[c];
      }
    }
    NothingTold(d);
    ToldAppend(a, d);
  }

  /* ---- one response frame ---- */

  /** What a response frame makes known, given what its connection has put together: the session it is
      for, whether it succeeded, and the payload. Type 0 is a failure; 2 and 3 make nothing known yet; 4
      is the end of a payload in parts, if it belongs and fits; any other type is a whole payload. */
  function Verdict(r: Reasm, f: Bytes): Option<(U32, bool, Bytes)>
  {
    if |f| < 5 then None
    else
      var session, kind, data := Get32(f), f[4], f[5..];
      if kind == 0 then Some((session, false, []))
      else if kind == 2 || kind == 3 then None
      else if kind == 4 then
        if r.active && r.session == session && |r.buf| + |data| <= r.total then Some((session, true, r.buf + data)) else None
      else Some((session, true, data))
  }

  /** The first caller waiting for the session. */
  ghost predicate WaitsFor(ps: seq<PSend>, session: U32, i: nat)
  {
    i < |ps| && ps[i].used && ps[i].remoteSession == session
    && forall j :: 0 <= j < i ==> !(ps[j].used && ps[j].remoteSession == session)
  }

  /** Who is told what by a verdict. */
  function Tells(ps: seq<PSend>, v: Option<(U32, bool, Bytes)>): multiset<Out>
  {
    if v.None? then multiset{}
    else
      var i := First(ps, SendIs(v.value.0));
      if i == |ps| then multiset{} else multiset{Answer(ps[i].source, ps[i].jsSession, v.value.1, v.value.2)}
  }

  lemma TellsTheWaiting(ps: seq<PSend>, session: U32, ok: bool, data: Bytes, i: nat)
    requires WaitsFor(ps, session, i)
    ensures Tells(ps, Some((session, ok, data))) == multiset{Answer(ps[i].source, ps[i].jsSession, ok, data)}
  {
    var k := First(ps, SendIs(session));
    assert SendIs(session)(ps[i]);
    assert forall j :: 0 <= j < i ==> !SendIs(session)(ps[j]);
    assert k < |ps| ==> SendIs(session)(ps[k]);
  }

  lemma FrameSettles(s: State, i: nat, ok: bool, data: Bytes)
    requires i < |s.psend|
    ensures Told(Settle(s, i, ok, data).out) == Told(s.out) + multiset{Answer(s.psend[i].source, s.psend[i].jsSession, ok, data)}
  {
    ToldOne(s.out, Answer(s.psend[i].source, s.psend[i].jsSession, ok, data));
  }

  lemma VerdictIs(r: Reasm, f: Bytes)
    ensures match ParseResponse(f)
            case NoReply => Verdict(r, f) == None
            case Failure(session) => Verdict(r, f) == Some((session, false, []))
            case Begin(_, _) => Verdict(r, f) == None
            case Piece(session, last, data) =>
              var done := ReasmChunk(r, session, last, data).1;
              Verdict(r, f) == if done.Some? then Some((session, true, done.value)) else None
            case Whole(session, data) => Verdict(r, f) == Some((session, true, data))
  {
  }

  /** A response frame tells the first caller waiting for its session exactly what it makes known. */
  lemma FrameTells(s: State, ci: nat, f: Bytes)
    requires ci < |s.conns|
    ensures Told(HandleResponse(s, ci, f).out) == Told(s.out) + Tells(s.psend, Verdict(s.conns[ci].rs, f))
  {
    VerdictIs(s.conns[ci].rs, f);
    VerdictTells(s, ci, f, Verdict(s.conns[ci].rs, f));
  }

  lemma VerdictTells(s: State, ci: nat, f: Bytes, v: Option<(U32, bool, Bytes)>)
    requires ci < |s.conns|
    requires match ParseResponse(f)
             case NoReply => v.None?
             case Failure(session) => v == Some((session, false, []))
             case Begin(_, _) => v == None
             case Piece(session, last, data) =>
               var done := ReasmChunk(s.conns[ci].rs, session, last, data).1;
               v == if done.Some? then Some((session, true, done.value)) else None
             case Whole(session, data) => v == Some((session, true, data))
    ensures Told(HandleResponse(s, ci, f).out) == Told(s.out) + Tells(s.psend, v)
  {
    var m := ParseResponse(f);
    if !m.NoReply? {
      var i := First(s.psend, SendIs(m.session));
      if i < |s.psend| {
        match m {
          case Failure(_) => FrameSettles(s, i, false, []);
          case Begin(_, _) =>
          case Piece(session, last, data) =>
            var (r, done) := ReasmChunk(s.conns[ci].rs, session, last, data);
            if done.Some? {
              FrameSettles(s.(conns := s.conns[ci := s.conns[ci].(rs := r)]), i, true, done.value);
            }
          case Whole(_, data) => FrameSettles(s, i, true, data);
        }
      }
    }
  }

  /* ---- events ---- */

  /** What the frames of one DATA event on an outbound connection tell. */
  ghost function FramesTell(s: State, ci: nat, fs: seq<Bytes>): multiset<Out>
    requires ci < |s.conns|
    decreases |fs|
  {
    if fs == [] then multiset{}
    else
      var t := HandleResponse(s, ci, fs[0]);
      Tells(s.psend, Verdict(s.conns[ci].rs, fs[0])) + if ci < |t.conns| then FramesTell(t, ci, fs[1..]) else multiset{}
  }

  /** A failure for every caller waiting on the node. */
  function LossTells(ps: seq<PSend>, ni: nat): multiset<Out>
  {
    if ps == [] then multiset{}
    else
      (if ps[0].used && ps[0].nodeIdx == ni then multiset{Answer(ps[0].source, ps[0].jsSession, false, [])} else multiset{})
      + LossTells(ps[1..], ni)
  }

  /** A send that cannot be made: no such node, no link to it, or no slot for its caller. */
  predicate Refuses(s: State, e: Event)
  {
    e.Send? &&
    var ni := First(s.nodes, NodeIs(e.name));
    || ni == |s.nodes|
    || (s.nodes[ni].sock < 0 && !s.nodes[ni].connecting && (s.nodes[ni].port == 0 || e.kid < 0))
    || (!e.push && First(s.psend, SendFree()) == |s.psend|)
  }

  /** Everything an event tells callers. */
  ghost function EventTells(s: State, e: Event): multiset<Out>
  {
    match e
    case Listen(source, session) => if session == 0 then multiset{} else multiset{Answer(source, session, true, [])}
    case Register(source, session, _) => if session == 0 then multiset{} else multiset{Answer(source, session, true, [])}
    case NodeAt(source, session, _, _, _) => if session == 0 then multiset{} else multiset{Answer(source, session, true, [])}
    case Send(source, session, _, _, _, _, _) => if Refuses(s, e) then multiset{Answer(source, session, false, [])} else multiset{}
    case Data(id, bytes) =>
      var c := ConnAt(s, id);
      if c < |s.conns| && s.conns[c].outbound then FramesTell(s, c, Frames(s.conns[c].rx + bytes)) else multiset{}
    case Closed(id) => LossTells(s.psend, First(s.nodes, NodeOn(id)))
    case LocalDone(session, ok, payload) =>
      var j := First(s.psend, CallerIs(session));
      if First(s.precv, RecvIs(session)) == |s.precv| && ok && j < |s.psend|
      then multiset{Answer(s.psend[j].source, session, true, payload)} else multiset{}
    case _ => multiset{}
  }

  lemma {:induction false} ResponsesTell(s: State, ci: nat, fs: seq<Bytes>)
    requires ci < |s.conns| && s.conns[ci].outbound
    ensures Told(HandleFrames(s, ci, fs).out) == Told(s.out) + FramesTell(s, ci, fs)
    decreases |fs|
  {
    if fs != [] {
      var t := HandleFrame(s, ci, fs[0]);
      FrameTells(s, ci, fs[0]);
      ResponseConns(s, ci, fs[0]);
      ResponsesTell(t, ci, fs[1..]);
      MultiAssoc(Told(s.out), Tells(s.psend, Verdict(s.conns[ci].rs, fs[0])), FramesTell(t, ci, fs[1..]));
    }
  }

  lemma FrameGrows(s: State, ci: nat, f: Bytes)
    requires ci < |s.conns| && !s.conns[ci].outbound
    ensures var t := HandleFrame(s, ci, f);
            s.out <= t.out && |t.conns| == |s.conns| && !t.conns[ci].outbound && t.psend == s.psend
  {
    var (q, calls) := InStep(s.conns[ci].inbound, f);
    var s1 := Absorb(s, ci, q, calls);
    if calls != [] {
      DispatchApart(s1, ci, calls[0], s1.conns[ci].rx);
    }
  }

  lemma {:induction false} RequestsGrow(s: State, ci: nat, fs: seq<Bytes>)
    requires ci < |s.conns| && !s.conns[ci].outbound
    ensures s.out <= HandleFrames(s, ci, fs).out && HandleFrames(s, ci, fs).psend == s.psend
    decreases |fs|
  {
    if fs != [] {
      FrameGrows(s, ci, fs[0]);
      RequestsGrow(HandleFrame(s, ci, fs[0]), ci, fs[1..]);
    }
  }

  /** Data on an inbound connection tells nobody of this node anything. */
  lemma InboundTells(s: State, ci: nat, bytes: Bytes)
    requires ci < |s.conns| && ci < MAX_CONN && !s.conns[ci].outbound
    ensures Told(ConnData(s, ci, bytes).out) == Told(s.out)
  {
    var fs := Frames(s.conns[ci].rx + bytes);
    var s0 := s.(received := s.received + [(s.conns[ci].sock, bytes)]);
    var (q, calls) := InFold(s.conns[ci].inbound, fs);
    QuietRequests(s0, ci, fs);
    RequestsGrow(s0, ci, fs);
    SameAnswers(Absorb(s0, ci, q, calls), HandleFrames(s0, ci, fs));
    ToldSame(s.out, HandleFrames(s0, ci, fs).out);
  }

  lemma DataTells(s: State, e: Event)
    requires Sized(s) && e.Data? && WellFormed(e)
    ensures Told(Step(s, e).out) == Told(s.out) + EventTells(s, e)
  {
    var c := ConnAt(s, e.id);
    if c < |s.conns| {
      if s.conns[c].outbound {
        ResponsesTell(s, c, Frames(s.conns[c].rx + e.bytes));
      } else {
        InboundTells(s, c, e.bytes);
      }
    }
  }

  lemma {:induction false} LossTold(ps: seq<PSend>, ni: nat)
    ensures Told(FailedAnswers(ps, ni)) == LossTells(ps, ni)
  {
    if ps != [] {
      LossTold(ps[1..], ni);
      var o := if ps[0].used && ps[0].nodeIdx == ni then [Answer(ps[0].source, ps[0].jsSession, false, [])] else [];
      ToldAppend(o, FailedAnswers(ps[1..], ni));
      assert o != [] ==> o[1..] == [];
    }
  }

  lemma {:induction false} NoLoss(ps: seq<PSend>, ni: nat)
    requires forall i :: 0 <= i < |ps| && ps[i].used ==> ps[i].nodeIdx != ni
    ensures LossTells(ps, ni) == multiset{}
  {
    if ps != [] {
      NoLoss(ps[1..], ni);
    }
  }

  lemma ClosedTells(s: State, id: int)
    requires Inv(s)
    ensures Told(OnClosed(s, id).out) == Told(s.out) + EventTells(s, Closed(id))
  {
    var ni := First(s.nodes, NodeOn(id));
    ClosedIs(s, id);
    if ni < |s.nodes| {
      LossTold(s.psend, ni);
      ToldAppend(s.out, FailedAnswers(s.psend, ni));
    } else {
      NoLoss(s.psend, ni);
    }
  }

  lemma AckTells(s: State, source: U32, session: int)
    ensures Told(Ack(s, source, session).out)
         == Told(s.out) + if session == 0 then multiset{} else multiset{Answer(source, session, true, [])}
  {
    ToldOne(s.out, Answer(source, session, true, []));
  }

  lemma ConnectSilent(s: State, ni: nat, n: Node, kid: int)
    requires ni < |s.nodes|
    ensures NodeConnect(s.(nodes := s.nodes[ni := n]), ni, kid).0.out == s.out
  {
  }

  lemma NodeAtTells(s: State, e: Event)
    requires Sized(s) && e.NodeAt? && WellFormed(e)
    ensures Told(Step(s, e).out) == Told(s.out) + EventTells(s, e)
  {
    var i, j := First(s.nodes, NodeIs(e.name)), First(s.nodes, NodeFree());
    var ni := if i < |s.nodes| then i else j;
    if ni == |s.nodes| {
      AckTells(s, e.source, e.session);
    } else {
      var n := if i < |s.nodes| then s.nodes[i] else NO_NODE.(used := true, name := e.name);
      ConnectSilent(s, ni, n.(port := e.port), e.kid);
      var t := NodeConnect(s.(nodes := s.nodes[ni := n.(port := e.port)]), ni, e.kid).0;
      assert Step(s, e) == Ack(t, e.source, e.session);
      AckTells(t, e.source, e.session);
    }
  }

  lemma {:induction false} EmitGrows(s: State, ni: nat, fs: seq<Bytes>)
    requires ni < |s.nodes| && Packable(fs)
    ensures s.out <= EmitAll(s, ni, fs).out
    decreases |fs|
  {
    if fs != [] {
      EmitGrows(EmitFrame(s, ni, fs[0]), ni, fs[1..]);
    }
  }

  lemma RequestTells(s: State, ni: nat, t: Target, payload: Bytes, push: bool)
    requires Inv(s) && ni < MAX_NODE && s.nodes[ni].sock >= 0 && ValidTarget(t) && |payload| < TWO_32
    ensures var u := SendRequest(s, ni, t, payload, push);
            Told(u.out) == Told(s.out) && u.psend == s.psend
  {
    var session := NextSession(s.sendSession);
    var u := SendRequest(s, ni, t, payload, push);
    GoodSendRequest(s, ni, t, payload, push);
    SameAnswers(s, u);
    RequestFits(session, t, payload, push);
    EmitGrows(Drawn(s, ni, Request(session, t, payload, push)), ni, RequestFrames(session, t, payload, push));
    ToldSame(s.out, u.out);
  }

  lemma SendTells(s: State, e: Event)
    requires Inv(s) && Sized(s) && e.Send? && WellFormed(e) && Fresh(s, e)
    ensures Told(Step(s, e).out) == Told(s.out) + EventTells(s, e)
  {
    var ni := First(s.nodes, NodeIs(e.name));
    var o := Answer(e.source, e.session, false, []);
    ToldOne(s.out, o);
    if ni < |s.nodes| {
      assert NodeIs(e.name)(s.nodes[ni]);
      GoodConnect(s, ni, e.kid);
      var (s1, up) := NodeConnect(s, ni, e.kid);
      if up {
        RequestTells(s1, ni, e.target, e.payload, e.push);
        ToldOne(SendRequest(s1, ni, e.target, e.payload, e.push).out, o);
      }
    }
  }

  lemma ConnectedTells(s: State, id: int)
    requires Inv(s)
    ensures Told(OnConnected(s, id).out) == Told(s.out)
  {
    if ConnAt(s, id) < |s.conns| {
      FlushedIs(s, id);
      var ni := First(s.nodes, NodeOn(id));
      if ni < |s.nodes| {
        FlushedRequests(id, s.nodes[ni].queue, id);
        NothingTold(Flushed(id, s.nodes[ni].queue));
        ToldAppend(s.out, Flushed(id, s.nodes[ni].queue));
      }
    }
  }

  lemma LocalDoneTells(s: State, e: Event)
    requires Inv(s) && Sized(s) && e.LocalDone?
    ensures Told(Step(s, e).out) == Told(s.out) + EventTells(s, e)
  {
    var i, j := First(s.precv, RecvIs(e.session)), First(s.psend, CallerIs(e.session));
    if i < |s.precv| {
      var p, data := s.precv[i], if e.ok then e.payload else ERROR;
      if s.conns[p.connId].used {
        ResponseFits(p.remoteSession, e.ok, data);
        InertWrites(s.conns[p.connId].sock, ResponseFrames(p.remoteSession, e.ok, data));
        NothingTold(Writes(s.conns[p.connId].sock, ResponseFrames(p.remoteSession, e.ok, data)));
        ToldAppend(s.out, Writes(s.conns[p.connId].sock, ResponseFrames(p.remoteSession, e.ok, data)));
      }
    } else if e.ok && j < |s.psend| {
      assert CallerIs(e.session)(s.psend[j]);
      FrameSettles(s, j, true, e.payload);
    }
  }

  /** Every event tells exactly this. */
  lemma StepTells(s: State, e: Event)
    requires Inv(s) && Sized(s) && WellFormed(e) && Fresh(s, e)
    ensures Told(Step(s, e).out) == Told(s.out) + EventTells(s, e)
  {
    match e {
      case Connected(id) => ConnectedTells(s, id);
      case Accepted(_) =>
      case Data(_, _) => DataTells(s, e);
      case Closed(id) => ClosedTells(s, id);
      case Listen(source, session) => AckTells(s, source, session);
      case Register(source, session, _) => AckTells(s.(names := Step(s, e).names), source, session);
      case NodeAt(_, _, _, _, _) => NodeAtTells(s, e);
      case Send(_, _, _, _, _, _, _) => SendTells(s, e);
      case LocalDone(_, _, _) => LocalDoneTells(s, e);
    }
  }

  /* ---- runs ---- */

  ghost function RunTells(s: State, es: seq<Event>): multiset<Out>
    requires Sized(s) && Legal(s, es)
    decreases |es|
  {
    if es == [] then multiset{} else (StepSized(s, es[0]); EventTells(s, es[0]) + RunTells(Step(s, es[0]), es[1..]))
  }

  lemma {:induction false} RunTold(s: State, es: seq<Event>)
    requires Inv(s) && Legal(s, es)
    ensures Told(Run(s, es).out) == Told(s.out) + RunTells(s, es)
    decreases |es|
  {
    if es != [] {
      StepSized(s, es[0]);
      InvStep(s, es[0]);
      StepTells(s, es[0]);
      RunTold(Step(s, es[0]), es[1..]);
      MultiAssoc(Told(s.out), EventTells(s, es[0]), RunTells(Step(s, es[0]), es[1..]));
    }
  }

  /** In every run callers are told, with success or failure and payload, exactly what the events say:
      ok for an acknowledged command, for a response that completed with success on an outbound
      connection while its caller waited, or for a local reply that settled it; a failure for a failed
      response, a lost node or a send that was refused. */
  lemma OutcomesExact(es: seq<Event>)
    requires Legal(Init(), es)
    ensures Told(Run(Init(), es).out) == RunTells(Init(), es)
  {
    InvInit();
    RunTold(Init(), es);
  }

  lemma {:induction false} LossFails(ps: seq<PSend>, ni: nat)
    ensures forall o :: o in LossTells(ps, ni) ==> o.Answer? && !o.ok && o.payload == []
  {
    if ps != [] {
      LossFails(ps[1..], ni);
    }
  }

  lemma {:induction false} FramesEmpty(s: State, ci: nat, fs: seq<Bytes>)
    requires ci < |s.conns|
    ensures forall o :: o in FramesTell(s, ci, fs) ==> o.Answer? && (!o.ok ==> o.payload == [])
    decreases |fs|
  {
    if fs != [] {
      ResponseConns(s, ci, fs[0]);
      FramesEmpty(HandleResponse(s, ci, fs[0]), ci, fs[1..]);
    }
  }

  /** A lost node and a refused send only ever tell of failure, a command and a local reply only ever of
      success, and a failure never comes with a payload. */
  lemma FailureIsTold(s: State, e: Event, o: Out)
    requires o in EventTells(s, e)
    ensures o.Answer? && (!o.ok ==> o.payload == [])
    ensures e.Closed? || e.Send? ==> !o.ok
    ensures e.Listen? || e.Register? || e.NodeAt? || e.LocalDone? ==> o.ok
  {
    match e {
      case Closed(id) => LossFails(s.psend, First(s.nodes, NodeOn(id)));
      case Data(id, bytes) => FramesEmpty(s, ConnAt(s, id), Frames(s.conns[ConnAt(s, id)].rx + bytes));
      case _ =>
    }
  }

  /** Every answer OnClosed puts out is a failure with no payload. */
  lemma ClosedTellsFailure(s: State, id: int)
    requires Inv(s)
    ensures s.out <= OnClosed(s, id).out
    ensures forall k :: |s.out| <= k < |OnClosed(s, id).out| ==>
              var o := OnClosed(s, id).out[k]; o.Answer? && !o.ok && o.payload == []
  {
    ClosedIs(s, id);
    FailedAllFail(s.psend, First(s.nodes, NodeOn(id)));
  }

  lemma {:induction false} FailedAllFail(ps: seq<PSend>, ni: nat)
    ensures forall k :: 0 <= k < |FailedAnswers(ps, ni)| ==>
              var o := FailedAnswers(ps, ni)[k]; o.Answer? && !o.ok && o.payload == []
  {
    if ps != [] {
      FailedAllFail(ps[1..], ni);
    }
  }
}
