/** The promises of the cluster service, over all its runs. */
module ClusterTheorems {
  import opened Bytes
  import opened Logs
  import opened Framing
  import opened ClusterWire
  import opened Cluster
  import opened ClusterInvariants
  import opened ClusterRuns
  import opened ClusterStrays

  /** Events the service may see one after the other, with fresh socket ids from the kernel. */
  ghost predicate Legal(s: State, es: seq<Event>)
    requires Sized(s)
    decreases |es|
  {
    es == [] ||
    (WellFormed(es[0]) && Fresh(s, es[0]) && (StepSized(s, es[0]); Legal(Step(s, es[0]), es[1..])))
  }

  ghost function Run(s: State, es: seq<Event>): State
    requires Sized(s) && Legal(s, es)
    decreases |es|
  {
    if es == [] then s else (StepSized(s, es[0]); Run(Step(s, es[0]), es[1..]))
  }

  /** The answers a run calls for. */
  ghost function AskedIn(s: State, es: seq<Event>): multiset<(U32, int)>
    requires Sized(s) && Legal(s, es)
    decreases |es|
  {
    if es == [] then multiset{}
    else (StepSized(s, es[0]); Asked(s, es[0]) + AskedIn(Step(s, es[0]), es[1..]))
  }

  lemma {:induction false} RunKeeps(s: State, es: seq<Event>)
    requires Inv(s) && Legal(s, es)
    ensures Inv(Run(s, es)) && Balance(Run(s, es)) == Balance(s) + AskedIn(s, es)
    decreases |es|
  {
    if es != [] {
      StepSized(s, es[0]);
      InvStep(s, es[0]);
      RunKeeps(Step(s, es[0]), es[1..]);
    }
  }

  /** Every reachable state satisfies the invariant. */
  lemma Reachable(es: seq<Event>)
    requires Legal(Init(), es)
    ensures Inv(Run(Init(), es))
  {
    InvInit();
    RunKeeps(Init(), es);
  }

  lemma {:induction false} EmptySlots(ps: seq<PSend>)
    requires forall i :: 0 <= i < |ps| ==> !ps[i].used
    ensures Pending(ps) == multiset{}
  {
    if ps != [] {
      EmptySlots(ps[1..]);
    }
  }

  lemma InitBalance()
    ensures Balance(Init()) == multiset{}
  {
    EmptySlots(Init().psend);
  }

  /** No run answers more than it was asked, or forgets a caller: answers and waiting slots
      together are exactly what was asked for. */
  lemma AnswersConserved(es: seq<Event>)
    requires Legal(Init(), es)
    ensures var t := Run(Init(), es);
            Answers(t.out) + Pending(t.psend) == AskedIn(Init(), es)
  {
    var s := Init();
    InvInit();
    InitBalance();
    RunKeeps(s, es);
    assert Balance(Run(s, es)) == AskedIn(s, es);
  }

  /** A caller that asked once is waiting in one slot or has been answered once, never both. */
  lemma AnsweredOnce(es: seq<Event>, caller: (U32, int))
    requires Legal(Init(), es) && AskedIn(Init(), es)[caller] == 1
    ensures var t := Run(Init(), es);
            (Answers(t.out)[caller] == 1 && Pending(t.psend)[caller] == 0)
            || (Answers(t.out)[caller] == 0 && Pending(t.psend)[caller] == 1)
  {
    AnswersConserved(es);
    var t := Run(Init(), es);
    assert (Answers(t.out) + Pending(t.psend))[caller] == 1;
  }

  /* ---- links ---- */

  /** No local reply of the run, when its turn comes, finds the table slot remembered for it taken
      over by a connection this service opened on socket k. */
  ghost predicate NoStray(s: State, es: seq<Event>, k: int)
    requires Sized(s) && Legal(s, es)
    decreases |es|
  {
    es == [] || (!Stray(s, es[0], k) && (StepSized(s, es[0]); NoStray(Step(s, es[0]), es[1..], k)))
  }

  /** A socket this service opened is given a response exactly if some reply goes astray. */
  lemma {:induction false} RunOn(s: State, es: seq<Event>, k: int)
    requires Sized(s) && Legal(s, es) && Own(s.conns, k) && Accepted(k) !in es
    ensures |ResponsesOn(Run(s, es).out, k)| >= |ResponsesOn(s.out, k)|
    ensures if NoStray(s, es, k) then ResponsesOn(Run(s, es).out, k) == ResponsesOn(s.out, k)
            else |ResponsesOn(Run(s, es).out, k)| > |ResponsesOn(s.out, k)|
    decreases |es|
  {
    if es != [] {
      StepSized(s, es[0]);
      StepOn(s, es[0], k);
      StepOwn(s, es[0], k);
      RunOn(Step(s, es[0]), es[1..], k);
    }
  }

  /** Socket k is known, and no node's. */
  ghost predicate Foreign(s: State, k: int)
  {
    k >= 0 && k in s.sockets && forall i :: 0 <= i < |s.nodes| ==> s.nodes[i].sock != k
  }

  lemma {:induction false} ForeignRun(s: State, es: seq<Event>, k: int)
    requires Inv(s) && Legal(s, es) && Foreign(s, k)
    ensures Foreign(Run(s, es), k)
    decreases |es|
  {
    if es != [] {
      StepSized(s, es[0]);
      InvStep(s, es[0]);
      StepOwn(s, es[0], -1);
      ForeignRun(Step(s, es[0]), es[1..], k);
    }
  }

  /** A socket that was accepted is never a node's. */
  lemma {:induction false} AcceptedForeign(s: State, es: seq<Event>, k: int)
    requires Inv(s) && Legal(s, es) && Accepted(k) in es
    ensures Foreign(Run(s, es), k)
    decreases |es|
  {
    var t := Step(s, es[0]);
    InvStep(s, es[0]);
    StepSized(s, es[0]);
    if es[0] == Accepted(k) {
      ForeignRun(t, es[1..], k);
    } else {
      AcceptedForeign(t, es[1..], k);
    }
  }

  /** What the sockets this service opened were given, in any run: the frames of the requests, and
      nothing else exactly if no reply goes astray onto them. */
  lemma WrittenIff(es: seq<Event>, k: int)
    requires Legal(Init(), es) && Accepted(k) !in es
    ensures var t := Run(Init(), es);
            && RequestsOn(t.out, k) <= FrameBytes(On(t.requests, k))
            && |WrittenOn(t.out, k)| >= |RequestsOn(t.out, k)|
            && (WrittenOn(t.out, k) == RequestsOn(t.out, k) <==> NoStray(Init(), es, k))
  {
    Reachable(es);
    var t := Run(Init(), es);
    assert WireOn(t, k);
    RunOn(Init(), es, k);
    WrittenCount(t.out, k);
  }

  /** The link life cycle in every reachable state: `connecting` iff there is a socket; queued
      frames and outstanding requests need one; all that the socket was given followed by what is
      queued is the frames of the requests accepted for it, in order, if and only if no local
      reply went astray onto that socket. */
  lemma LinkState(es: seq<Event>, i: nat)
    requires Legal(Init(), es) && i < MAX_NODE
    ensures var t := Run(Init(), es);
            |t.nodes| == MAX_NODE &&
            var n := t.nodes[i];
            && (n.connecting <==> n.sock >= 0)
            && (n.queue != [] ==> n.sock >= 0)
            && (forall j :: 0 <= j < |t.psend| && t.psend[j].used && t.psend[j].nodeIdx == i ==> n.sock >= 0)
            && (n.sock >= 0 ==>
                  && Accepted(n.sock) !in es
                  && RequestsOn(t.out, n.sock) + n.queue == FrameBytes(On(t.requests, n.sock))
                  && (WrittenOn(t.out, n.sock) + n.queue == FrameBytes(On(t.requests, n.sock))
                      <==> NoStray(Init(), es, n.sock)))
  {
    Reachable(es);
    var t := Run(Init(), es);
    var k := t.nodes[i].sock;
    assert QueueOk(t, i) && WireOn(t, k);
    if k >= 0 {
      if Accepted(k) in es {
        InvInit();
        AcceptedForeign(Init(), es, k);
        assert false;
      }
      WrittenIff(es, k);
      WrittenCount(t.out, k);
    }
  }

  /* ---- requests, end to end ---- */

  lemma {:induction false} FlattenPackEach(fs: seq<Bytes>)
    requires Packable(fs)
    ensures Flatten(PackEach(fs)) == PackAll(fs)
  {
    if fs != [] {
      FlattenPackEach(fs[1..]);
      assert PackEach(fs)[1..] == PackEach(fs[1..]);
    }
  }

  lemma {:induction false} FlattenFrameBytes(rs: seq<Request>)
    requires forall r :: r in rs ==> Sendable(r)
    ensures Flatten(FrameBytes(rs)) == Wire(rs)
  {
    AllFramesFit(rs);
    if rs != [] {
      var r, z := rs[0], rs[1..];
      assert Sendable(r);
      FlattenFrameBytes(z);
      AllFramesFit(z);
      RequestFits(r.session, r.target, r.payload, r.push);
      FlattenPackEach(FramesOf(r));
      FlattenAppend(RequestBytes(r), FrameBytes(z));
      PackAllAppend(FramesOf(r), AllFrames(z));
    }
  }

  lemma SentSendable(s: State, k: int)
    requires WireOk(s)
    ensures forall r :: r in On(s.requests, k) ==> Sendable(r)
  {
    OnMembers(s.requests, k);
  }

  lemma MeaningOfWire(rs: seq<Request>)
    requires forall r :: r in rs ==> Sendable(r)
    ensures InFold(NO_INBOUND, Frames(Wire(rs))).1 == AllCalls(rs)
  {
    AllFramesFit(rs);
    RequestsArrive(NO_INBOUND, rs);
    assert Wire(rs) + [] == Wire(rs);
    SplitUnique(AllFrames(rs), []);
  }

  lemma FlattenPrefix(a: seq<Bytes>, b: seq<Bytes>)
    requires a <= b
    ensures Flatten(a) <= Flatten(b)
  {
    assert b == a + b[|a|..];
    FlattenAppend(a, b[|a|..]);
  }

  lemma PrefixCalls(b: Bytes, whole: Bytes)
    requires b <= whole
    ensures InFold(NO_INBOUND, Frames(b)).1 <= InFold(NO_INBOUND, Frames(whole)).1
  {
    var z := whole[|b|..];
    assert whole == b + z;
    SplitAppend(b, z);
    InFoldAppend(NO_INBOUND, Frames(b), Frames(Rest(b) + z));
  }

  /** Two services, any run of each. Socket k is one the first opened, and no reply of the first
      went astray onto it. If connection l of the second has so far delivered a prefix of the bytes
      the first wrote to k, then the calls dispatched for l are a prefix of the requests accepted
      for k: in order, none twice, none invented, each with its target, session and payload. Large
      pushes are the only requests missing. */
  lemma EndToEnd(es: seq<Event>, bs: seq<Event>, k: int, l: int)
    requires Legal(Init(), es) && Legal(Init(), bs) && Accepted(k) !in es && NoStray(Init(), es, k)
    requires Flatten(On(Run(Init(), bs).received, l)) <= Flatten(WrittenOn(Run(Init(), es).out, k))
    ensures On(Run(Init(), bs).dispatched, l) <= AllCalls(On(Run(Init(), es).requests, k))
  {
    Reachable(es);
    Reachable(bs);
    WrittenIff(es, k);
    var a, b := Run(Init(), es), Run(Init(), bs);
    var rs := On(a.requests, k);
    SentSendable(a, k);
    assert WireOn(a, k) && CallsOk(b, l);
    FlattenPrefix(RequestsOn(a.out, k), On(a.emitted, k));
    FlattenFrameBytes(rs);
    PrefixCalls(Flatten(On(b.received, l)), Wire(rs));
    MeaningOfWire(rs);
  }

  /** ... and once all the bytes written have been delivered and no frame is queued, every request
      accepted for the socket (large pushes excepted) has been dispatched. */
  lemma EndToEndComplete(es: seq<Event>, bs: seq<Event>, i: nat, l: int)
    requires Legal(Init(), es) && Legal(Init(), bs) && i < MAX_NODE
    requires var a := Run(Init(), es);
             |a.nodes| == MAX_NODE && a.nodes[i].sock >= 0 && a.nodes[i].queue == []
             && NoStray(Init(), es, a.nodes[i].sock)
             && Flatten(On(Run(Init(), bs).received, l)) == Flatten(WrittenOn(a.out, a.nodes[i].sock))
    ensures var a := Run(Init(), es);
            On(Run(Init(), bs).dispatched, l) == AllCalls(On(a.requests, a.nodes[i].sock))
  {
    Reachable(bs);
    LinkState(es, i);
    Reachable(es);
    var a, b := Run(Init(), es), Run(Init(), bs);
    var k := a.nodes[i].sock;
    SentSendable(a, k);
    assert CallsOk(b, l);
    assert WrittenOn(a.out, k) + [] == WrittenOn(a.out, k);
    FlattenFrameBytes(On(a.requests, k));
    MeaningOfWire(On(a.requests, k));
  }

  /* ---- sessions ---- */

  /** Two draws give the same session exactly when they are a multiple of 2^31-1 apart. */
  lemma SessionsCollideIff(a: nat, b: nat)
    requires 1 <= a && 1 <= b
    ensures SessionOf(a) == SessionOf(b) <==> (a - b) % MAX_SESSION == 0
    ensures 1 <= SessionOf(a) <= MAX_SESSION
  {
    var m := MAX_SESSION;
    var x, y := a - 1, b - 1;
    assert x == m * (x / m) + x % m && y == m * (y / m) + y % m;
    if x % m == y % m {
      assert a - b == m * (x / m - y / m);
      ModMultiple(m, x / m - y / m);
    }
    if (a - b) % m == 0 {
      assert a - b == m * ((a - b) / m);
      assert x == y + m * ((a - b) / m);
      ModShift(y, m, (a - b) / m);
    }
  }

  lemma ModMultiple(m: int, q: int)
    requires m == MAX_SESSION
    ensures (m * q) % m == 0
  {
  }

  lemma ModShift(y: int, m: int, q: int)
    requires m == MAX_SESSION
    ensures (y + m * q) % m == y % m
  {
  }

  /** No other outstanding request has the session of slot i. */
  ghost predicate Unambiguous(ps: seq<PSend>, i: nat)
  {
    && i < |ps| && ps[i].used
    && forall j :: 0 <= j < |ps| && j != i && ps[j].used ==> ps[j].remoteSession != ps[i].remoteSession
  }

  lemma RecentUnambiguous(t: State, i: nat)
    requires SessionsOk(t) && i < |t.psend| && t.psend[i].used
    requires forall j :: 0 <= j < |t.psend| && t.psend[j].used ==> t.issued - t.psend[j].issue < MAX_SESSION
    ensures Unambiguous(t.psend, i)
  {
    forall j | 0 <= j < |t.psend| && j != i && t.psend[j].used
      ensures t.psend[j].remoteSession != t.psend[i].remoteSession
    {
      var a, b := t.psend[i].issue, t.psend[j].issue;
      SessionsCollideIff(a, b);
      assert a != b && -MAX_SESSION < a - b < MAX_SESSION;
    }
  }

  /** As long as no outstanding request is 2^31-1 draws old, a session names one slot. */
  lemma OutstandingUnambiguous(es: seq<Event>, i: nat)
    requires Legal(Init(), es)
    requires var t := Run(Init(), es);
             && i < |t.psend| && t.psend[i].used
             && forall j :: 0 <= j < |t.psend| && t.psend[j].used ==> t.issued - t.psend[j].issue < MAX_SESSION
    ensures Unambiguous(Run(Init(), es).psend, i)
  {
    Reachable(es);
    RecentUnambiguous(Run(Init(), es), i);
  }
}
