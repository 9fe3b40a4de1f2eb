/** What every reachable state of the cluster service satisfies, and why each step keeps it. */
module ClusterInvariants {
  import opened Wrappers
  import opened Bytes
  import opened Logs
  import opened Framing
  import opened ClusterWire
  import opened Cluster

  /* ---- logs ---- */

  /** Of the frames handed to socket k, those sent as requests. */
  function RequestsOn(out: seq<Out>, k: int): seq<Bytes>
  {
    if out == [] then []
    else (if out[0].Wrote? && out[0].request && out[0].sock == k then [out[0].frame] else [])
         + RequestsOn(out[1..], k)
  }

  /** The answers sent to local callers, as (caller, session). */
  function Answers(out: seq<Out>): multiset<(U32, int)>
  {
    if out == [] then multiset{}
    else (if out[0].Answer? then multiset{(out[0].dest, out[0].session)} else multiset{}) + Answers(out[1..])
  }

  lemma {:induction false} RequestsAppend(a: seq<Out>, b: seq<Out>, k: int)
    ensures RequestsOn(a + b, k) == RequestsOn(a, k) + RequestsOn(b, k)
  {
    if a == [] {
      assert a + b == b;
    } else {
      RequestsAppend(a[1..], b, k);
      assert (a + b)[1..] == a[1..] + b && (a + b)[0] == a[0];
      Assoc(if a[0].Wrote? && a[0].request && a[0].sock == k then [a[0].frame] else [], RequestsOn(a[1..], k), RequestsOn(b, k));
    }
  }

  lemma {:induction false} AnswersAppend(a: seq<Out>, b: seq<Out>)
    ensures Answers(a + b) == Answers(a) + Answers(b)
  {
    if a == [] {
      assert a + b == b;
    } else {
      AnswersAppend(a[1..], b);
      assert (a + b)[1..] == a[1..] + b && (a + b)[0] == a[0];
      MultiAssoc(if a[0].Answer? then multiset{(a[0].dest, a[0].session)} else multiset{}, Answers(a[1..]), Answers(b));
    }
  }

  lemma MultiAssoc<T>(a: multiset<T>, b: multiset<T>, c: multiset<T>)
    ensures a + b + c == a + (b + c)
  {
  }

  lemma MultiShift<T>(h: multiset<T>, x: multiset<T>, w: multiset<T>, y: multiset<T>, v: multiset<T>)
    requires x + w == y + v
    ensures (h + x) + w == (h + y) + v
  {
    assert (h + x) + w == h + (x + w);
  }

  /** Entries that neither answer a caller nor carry a request frame. */
  ghost predicate Inert(b: seq<Out>)
  {
    Answers(b) == multiset{} && forall k :: RequestsOn(b, k) == []
  }

  lemma {:induction false} InertWrites(sock: int, fs: seq<Bytes>)
    requires Packable(fs)
    ensures Inert(Writes(sock, fs))
  {
    if fs != [] {
      InertWrites(sock, fs[1..]);
      assert Writes(sock, fs)[1..] == Writes(sock, fs[1..]);
    }
  }

  lemma InertOne(o: Out)
    requires o.Forward? || (o.Wrote? && !o.request)
    ensures Inert([o])
  {
    assert [o][1..] == [];
  }

  lemma AnswerOne(out: seq<Out>, o: Out)
    requires o.Answer?
    ensures Answers(out + [o]) == Answers(out) + multiset{(o.dest, o.session)}
    ensures forall k :: RequestsOn(out + [o], k) == RequestsOn(out, k)
  {
    assert [o][1..] == [];
    AnswersAppend(out, [o]);
    forall k
      ensures RequestsOn(out + [o], k) == RequestsOn(out, k)
    {
      RequestsAppend(out, [o], k);
    }
  }

  /** The callers waiting in used slots. */
  function Pending(ps: seq<PSend>): multiset<(U32, int)>
  {
    if ps == [] then multiset{}
    else (if ps[0].used then multiset{(ps[0].source, ps[0].jsSession)} else multiset{}) + Pending(ps[1..])
  }

  function Waiting(p: PSend): multiset<(U32, int)>
  {
    if p.used then multiset{(p.source, p.jsSession)} else multiset{}
  }

  lemma {:induction false} PendingUpdate(ps: seq<PSend>, i: nat, p: PSend)
    requires i < |ps|
    ensures Pending(ps[i := p]) + Waiting(ps[i]) == Pending(ps) + Waiting(p)
  {
    if i == 0 {
      assert ps[0 := p][1..] == ps[1..];
    } else {
      PendingUpdate(ps[1..], i - 1, p);
      assert ps[i := p][1..] == ps[1..][i - 1 := p];
      MultiShift(Waiting(ps[0]), Pending(ps[1..][i - 1 := p]), Waiting(ps[i]), Pending(ps[1..]), Waiting(p));
    }
  }

  /** Answers given plus callers waiting: the quantity that is conserved. */
  function Balance(s: State): multiset<(U32, int)>
  {
    Answers(s.out) + Pending(s.psend)
  }

  lemma SameAnswers(s: State, t: State)
    requires Balance(t) == Balance(s) && t.psend == s.psend
    ensures Answers(t.out) == Answers(s.out)
  {
    forall c: (U32, int)
      ensures Answers(t.out)[c] == Answers(s.out)[c]
    {
      assert (Answers(t.out) + Pending(t.psend))[c] == (Answers(s.out) + Pending(s.psend))[c];
    }
  }

  /* ---- steps that leave links alone ---- */

  ghost predicate SameConns(a: seq<Conn>, b: seq<Conn>)
  {
    |a| == |b| && forall c :: 0 <= c < |a| ==> a[c].(rs := IDLE) == b[c].(rs := IDLE)
  }

  ghost predicate SlotsReleased(a: seq<PSend>, b: seq<PSend>)
  {
    |a| == |b| && forall i :: 0 <= i < |a| ==> b[i] == a[i] || b[i] == a[i].(used := false)
  }

  /** Local sessions waiting in precv are distinct numbers the kernel has given out. */
  ghost predicate RecvOk(precv: seq<PRecv>, count: nat)
  {
    && |precv| == MAX_PENDING
    && (forall i :: 0 <= i < |precv| ==> precv[i].connId < MAX_CONN && (precv[i].used ==> 1 <= precv[i].localSession <= count))
    && (forall i, j :: 0 <= i < j < |precv| && precv[i].used && precv[j].used ==>
          precv[i].localSession != precv[j].localSession)
  }

  /** Requests waiting for a local reply stay where they are. */
  ghost predicate RecvKept(a: seq<PRecv>, b: seq<PRecv>)
  {
    |a| == |b| && forall i :: 0 <= i < |a| && a[i].used ==> b[i] == a[i]
  }

  /** Nothing but answers, released slots, responses, forwards and response reassembly. */
  ghost predicate Steady(s: State, t: State)
  {
    && t.nodes == s.nodes && t.names == s.names && t.sockets == s.sockets && t.requests == s.requests
    && t.emitted == s.emitted && t.received == s.received && t.dispatched == s.dispatched
    && t.issued == s.issued && t.sendSession == s.sendSession
    && SameConns(s.conns, t.conns) && SlotsReleased(s.psend, t.psend) && RecvKept(s.precv, t.precv)
    && (RecvOk(s.precv, s.localCount) ==> RecvOk(t.precv, t.localCount))
    && (forall k :: RequestsOn(t.out, k) == RequestsOn(s.out, k))
  }

  /** ... and every released slot is an answer given. */
  ghost predicate Quiet(s: State, t: State)
  {
    Steady(s, t) && Balance(t) == Balance(s)
  }

  lemma QuietTrans(s: State, t: State, u: State)
    requires Quiet(s, t) && Quiet(t, u)
    ensures Quiet(s, u)
  {
  }

  lemma QuietOut(s: State, b: seq<Out>)
    requires Inert(b)
    ensures Quiet(s, s.(out := s.out + b))
  {
    forall k
      ensures RequestsOn(s.out + b, k) == RequestsOn(s.out, k)
    {
      RequestsAppend(s.out, b, k);
    }
    AnswersAppend(s.out, b);
  }

  lemma QuietSendResponse(s: State, ci: nat, session: U32, ok: bool, payload: Bytes)
    requires ci < |s.conns|
    ensures Quiet(s, SendResponse(s, ci, session, ok, payload))
  {
    ResponseFits(session, ok, payload);
    InertWrites(s.conns[ci].sock, ResponseFrames(session, ok, payload));
    QuietOut(s, Writes(s.conns[ci].sock, ResponseFrames(session, ok, payload)));
  }

  lemma QuietSettle(s: State, i: nat, ok: bool, payload: Bytes)
    requires i < |s.psend| && s.psend[i].used
    ensures Quiet(s, Settle(s, i, ok, payload))
    ensures Answers(Settle(s, i, ok, payload).out) == Answers(s.out) + multiset{(s.psend[i].source, s.psend[i].jsSession)}
  {
    var p := s.psend[i];
    var o := Answer(p.source, p.jsSession, ok, payload);
    var t := Settle(s, i, ok, payload);
    PendingUpdate(s.psend, i, p.(used := false));
    AnswerOne(s.out, o);
    assert Pending(t.psend) + Waiting(p) == Pending(s.psend);
    assert Balance(t) == Answers(s.out) + (Pending(t.psend) + Waiting(p));
  }

  lemma QuietResponse(s: State, ci: nat, f: Bytes)
    requires ci < |s.conns|
    ensures Quiet(s, HandleResponse(s, ci, f))
  {
    var m := ParseResponse(f);
    if !m.NoReply? {
      var i := First(s.psend, SendIs(m.session));
      if i < |s.psend| {
        assert SendIs(m.session)(s.psend[i]);
        match m {
          case Failure(_) => QuietSettle(s, i, false, []);
          case Begin(_, _) =>
          case Piece(session, last, data) =>
            var (r, done) := ReasmChunk(s.conns[ci].rs, session, last, data);
            var s1 := s.(conns := s.conns[ci := s.conns[ci].(rs := r)]);
            assert Quiet(s, s1);
            if done.Some? {
              QuietSettle(s1, i, true, done.value);
              QuietTrans(s, s1, Settle(s1, i, true, done.value));
            }
          case Whole(_, data) => QuietSettle(s, i, true, data);
        }
      }
    }
  }

  lemma QuietCount(s: State)
    ensures Quiet(s, s.(localCount := s.localCount + 1))
  {
  }

  lemma QuietSlot(s: State, i: nat, p: PRecv)
    requires i < |s.precv| && !s.precv[i].used && p.connId < MAX_CONN && s.localCount + 1 == p.localSession
    ensures Quiet(s, s.(localCount := s.localCount + 1, precv := s.precv[i := p]))
  {
  }

  lemma QuietAccepted(s: State, ci: nat, c: Call, handle: U32)
    requires ci < |s.conns| && ci < MAX_CONN && First(s.precv, RecvFree()) < |s.precv|
    ensures Quiet(s, ForwardCall(s, ci, c, handle))
  {
    var ls, i := s.localCount + 1, First(s.precv, RecvFree());
    var o, p := Forward(handle, if c.push then 0 else ls, c.payload), PRecv(!c.push, ls, ci, c.session);
    var s2 := s.(out := s.out + [o]);
    InertOne(o);
    QuietOut(s, [o]);
    assert RecvFree()(s.precv[i]);
    QuietSlot(s2, i, p);
    var t := s2.(localCount := ls, precv := s2.precv[i := p]);
    QuietTrans(s, s2, t);
    assert ForwardCall(s, ci, c, handle) == t;
  }

  lemma QuietForward(s: State, ci: nat, c: Call, handle: U32)
    requires ci < |s.conns| && ci < MAX_CONN
    ensures Quiet(s, ForwardCall(s, ci, c, handle))
  {
    if First(s.precv, RecvFree()) < |s.precv| {
      QuietAccepted(s, ci, c, handle);
    } else {
      var s1 := s.(localCount := s.localCount + 1);
      QuietCount(s);
      if !c.push {
        QuietSendResponse(s1, ci, c.session, false, CLUSTERD_BUSY);
        QuietTrans(s, s1, SendResponse(s1, ci, c.session, false, CLUSTERD_BUSY));
      }
    }
  }

  lemma QuietNameQuery(s: State, ci: nat, c: Call)
    requires ci < |s.conns|
    ensures Quiet(s, NameQuery(s, ci, c))
  {
    var q := SeriFirstString(c.payload);
    if q.None? {
      QuietSendResponse(s, ci, c.session, false, INVALID_NAME);
    } else {
      var name := CStr(if |q.value| < MAX_NAME - 1 then q.value else q.value[..MAX_NAME - 1]);
      var handle := NameLookup(s.names, name);
      if handle != 0 {
        QuietSendResponse(s, ci, c.session, true, SeriPackInt(handle));
      } else {
        QuietSendResponse(s, ci, c.session, false, NAME_NOT_FOUND);
      }
    }
  }

  lemma QuietCall(s: State, ci: nat, c: Call)
    requires ci < |s.conns| && ci < MAX_CONN
    ensures Quiet(s, Dispatch(s, ci, c))
  {
    match c.target {
      case Addr(a) =>
        if a == 0 {
          QuietNameQuery(s, ci, c);
        } else {
          QuietForward(s, ci, c, a);
        }
      case Named(n) =>
        var handle := NameLookup(s.names, n);
        if handle != 0 {
          QuietForward(s, ci, c, handle);
        } else {
          QuietSendResponse(s, ci, c.session, false, INVALID_NAME);
        }
    }
  }

  /** A call from a remote node answers no caller of this one. */
  lemma QuietDispatch(s: State, ci: nat, c: Call)
    requires ci < |s.conns| && ci < MAX_CONN
    ensures Quiet(s, Dispatch(s, ci, c))
    ensures Dispatch(s, ci, c).psend == s.psend && Answers(Dispatch(s, ci, c).out) == Answers(s.out)
  {
    QuietCall(s, ci, c);
    assert Dispatch(s, ci, c).psend == s.psend;
    SameAnswers(s, Dispatch(s, ci, c));
  }

  lemma QuietAbsorb(s: State, t: State, ci: nat, q: Inbound, calls: seq<Call>)
    requires Quiet(s, t) && ci < |s.conns|
    ensures Quiet(Absorb(s, ci, q, calls), Absorb(t, ci, q, calls))
  {
    assert s.conns[ci].(rs := IDLE) == t.conns[ci].(rs := IDLE);
  }

  lemma InStepOne(q: Inbound, f: Bytes)
    ensures |InStep(q, f).1| <= 1
  {
  }

  /** Frames on an inbound connection: the calls they fold to, and otherwise nothing but quiet. */
  lemma {:induction false} QuietRequests(s: State, ci: nat, fs: seq<Bytes>)
    requires ci < |s.conns| && ci < MAX_CONN && !s.conns[ci].outbound
    ensures var (q, calls) := InFold(s.conns[ci].inbound, fs);
            Quiet(Absorb(s, ci, q, calls), HandleFrames(s, ci, fs))
    decreases |fs|
  {
    var q0 := s.conns[ci].inbound;
    if fs == [] {
      assert s.conns[ci := s.conns[ci].(inbound := q0)] == s.conns;
      assert s.dispatched + [] == s.dispatched;
      assert Absorb(s, ci, q0, []) == s;
    } else {
      var (q1, c1) := InStep(q0, fs[0]);
      InStepOne(q0, fs[0]);
      var a := Absorb(s, ci, q1, c1);
      var s1 := HandleFrame(s, ci, fs[0]);
      if c1 != [] {
        QuietDispatch(a, ci, c1[0]);
      }
      assert Quiet(a, s1);
      assert a.conns[ci].(rs := IDLE) == s1.conns[ci].(rs := IDLE);
      QuietRequests(s1, ci, fs[1..]);
      var (q2, c2) := InFold(q1, fs[1..]);
      QuietAbsorb(a, s1, ci, q2, c2);
      QuietTrans(Absorb(a, ci, q2, c2), Absorb(s1, ci, q2, c2), HandleFrames(s1, ci, fs[1..]));
      AbsorbTwice(s, ci, q1, c1, q2, c2);
    }
  }

  lemma AbsorbTwice(s: State, ci: nat, q1: Inbound, c1: seq<Call>, q2: Inbound, c2: seq<Call>)
    requires ci < |s.conns|
    ensures Absorb(Absorb(s, ci, q1, c1), ci, q2, c2) == Absorb(s, ci, q2, c1 + c2)
  {
    var sock := s.conns[ci].sock;
    TagAppend(sock, c1, c2);
    assert s.dispatched + Tag(sock, c1) + Tag(sock, c2) == s.dispatched + (Tag(sock, c1) + Tag(sock, c2));
    assert s.conns[ci := s.conns[ci].(inbound := q1)][ci := s.conns[ci].(inbound := q2)]
        == s.conns[ci := s.conns[ci].(inbound := q2)];
  }

  lemma {:induction false} QuietResponses(s: State, ci: nat, fs: seq<Bytes>)
    requires ci < |s.conns| && s.conns[ci].outbound
    ensures Quiet(s, HandleFrames(s, ci, fs))
    decreases |fs|
  {
    if fs != [] {
      var s1 := HandleFrame(s, ci, fs[0]);
      QuietResponse(s, ci, fs[0]);
      assert s.conns[ci].(rs := IDLE) == s1.conns[ci].(rs := IDLE);
      QuietResponses(s1, ci, fs[1..]);
      QuietTrans(s, s1, HandleFrames(s1, ci, fs[1..]));
    }
  }
}
