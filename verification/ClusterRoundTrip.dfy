/**
 Replies over whole runs: whatever else happens to the node meanwhile, the bytes of the replies on
 one of its links answer the callers that wait for them; and from the service that replies on one
 node to the caller that asked on another.
 */
module ClusterRoundTrip {
  import opened Wrappers
  import opened Bytes
  import opened Framing
  import opened ClusterWire
  import opened Cluster
  import opened ClusterApart
  import opened ClusterInvariants
  import opened ClusterRuns
  import opened ClusterStrays
  import opened ClusterTheorems
  import opened ClusterReplies
  import opened ClusterCalls

  /** A reply that is to come: the table slot that waits for it, what the slot holds, and the reply. */
  datatype Due = Due(slot: nat, p: PSend, ok: bool, payload: Bytes)

  ghost predicate Fits(d: Due) { |d.payload| < TWO_32 && (d.ok || |d.payload| <= MULTI_PART) }

  /** The slot holds the request, and no other outstanding request has its session. */
  ghost predicate Held(ps: seq<PSend>, d: Due) { Unambiguous(ps, d.slot) && ps[d.slot] == d.p }

  /** Every reply is awaited, each by another slot. */
  ghost predicate AllHeld(ps: seq<PSend>, ds: seq<Due>)
  {
    && (forall j :: 0 <= j < |ds| ==> Held(ps, ds[j]) && Fits(ds[j]))
    && (forall j, l :: 0 <= j < l < |ds| ==> ds[j].slot != ds[l].slot)
  }

  function DueFrames(d: Due): seq<Bytes> { ResponseFrames(d.p.remoteSession, d.ok, d.payload) }

  function AllDueFrames(ds: seq<Due>): seq<Bytes>
  {
    if ds == [] then [] else DueFrames(ds[0]) + AllDueFrames(ds[1..])
  }

  function DueAnswer(d: Due): Out { Answer(d.p.source, d.p.jsSession, d.ok, if d.ok then d.payload else []) }

  function DueAnswers(ds: seq<Due>): seq<Out>
  {
    if ds == [] then [] else [DueAnswer(ds[0])] + DueAnswers(ds[1..])
  }

  /** The connection is in the middle of reply d, with z of its payload to come. */
  ghost predicate Midway(r: Reasm, d: Due, z: Bytes)
  {
    d.ok && r.active && r.session == d.p.remoteSession && |r.buf| + |z| <= r.total && r.buf + z == d.payload
  }

  /** fs are the frames still to come for the replies ds. */
  ghost predicate ToCome(r: Reasm, ds: seq<Due>, fs: seq<Bytes>)
  {
    || fs == AllDueFrames(ds)
    || (ds != [] && exists z :: Midway(r, ds[0], z) && fs == ResponseParts(ds[0].p.remoteSession, z) + AllDueFrames(ds[1..]))
  }

  /* ---- one frame ---- */

  /** After a frame: the first reply is under way, or delivered. */
  ghost predicate Went(s: State, t: State, ci: nat, ds: seq<Due>, m: nat)
  {
    && m <= |ds| && |t.conns| == |s.conns| && ci < |s.conns|
    && t.conns == s.conns[ci := s.conns[ci].(rs := t.conns[ci].rs)]
    && t.out == s.out + DueAnswers(ds[..m]) && AllHeld(t.psend, ds[m..])
  }

  lemma AllHeldRest(ps: seq<PSend>, ds: seq<Due>)
    requires ds != [] && AllHeld(ps, ds)
    ensures AllHeld(ps[ds[0].slot := ps[ds[0].slot].(used := false)], ds[1..])
  {
    var z, qs := ds[1..], ps[ds[0].slot := ps[ds[0].slot].(used := false)];
    assert Held(ps, ds[0]);
    forall j | 0 <= j < |z|
      ensures Held(qs, z[j]) && Fits(z[j])
    {
      assert z[j] == ds[j + 1] && Held(ps, ds[j + 1]);
    }
  }

  lemma OneAnswer(ds: seq<Due>)
    requires ds != []
    ensures DueAnswers(ds[..1]) == [DueAnswer(ds[0])]
  {
    assert ds[..1][1..] == [];
  }

  lemma WentNone(s: State, r: Reasm, ci: nat, ds: seq<Due>)
    requires ci < |s.conns| && AllHeld(s.psend, ds)
    ensures Went(s, SetRs(s, ci, r), ci, ds, 0)
  {
    assert ds[0..] == ds && s.out + [] == s.out;
  }

  lemma WentOne(s: State, r: Reasm, ci: nat, ds: seq<Due>)
    requires ci < |s.conns| && ds != [] && AllHeld(s.psend, ds)
    ensures Held(s.psend, ds[0])
    ensures var d := ds[0];
            Went(s, Delivered(s, ci, r, d.slot, d.ok, if d.ok then d.payload else []), ci, ds, 1)
  {
    assert Held(s.psend, ds[0]);
    AllHeldRest(s.psend, ds);
    OneAnswer(ds);
  }

  /** The first frame of a reply. */
  lemma StartFrame(s: State, ci: nat, ds: seq<Due>) returns (m: nat)
    requires ci < |s.conns| && s.conns[ci].outbound && ds != [] && AllHeld(s.psend, ds)
    ensures var fs := AllDueFrames(ds);
            fs != [] &&
            var t := HandleFrame(s, ci, fs[0]);
            Went(s, t, ci, ds, m) && ToCome(t.conns[ci].rs, ds[m..], fs[1..])
  {
    var d, z := ds[0], AllDueFrames(ds[1..]);
    assert Held(s.psend, d) && Fits(d);
    var session := d.p.remoteSession;
    SendIsFirst(s.psend, d.slot);
    if |d.payload| <= MULTI_PART {
      var f := ResponseFrame(session, if d.ok then RESP_OK else RESP_ERR, d.payload);
      assert DueFrames(d) == [f] && ([f] + z)[1..] == z;
      ParseResponseFrame(session, if d.ok then RESP_OK else RESP_ERR, d.payload);
      WentOne(s, s.conns[ci].rs, ci, ds);
      assert s.conns[ci := s.conns[ci].(rs := s.conns[ci].rs)] == s.conns;
      m := 1;
    } else {
      var n := |d.payload| % TWO_32;
      assert n == |d.payload|;
      var f, parts := ResponseFrame(session, RESP_MULTI_BEGIN, LE32(n)), ResponseParts(session, d.payload);
      assert DueFrames(d) == [f] + parts;
      FirstThen(f, parts, z);
      ParseResponseFrame(session, RESP_MULTI_BEGIN, LE32(n));
      assert LE32(n)[..4] == LE32(n);
      WentNone(s, ReasmStart(session, n), ci, ds);
      assert [] + d.payload == d.payload && Midway(ReasmStart(session, n), d, d.payload);
      assert ds[0..] == ds;
      m := 0;
    }
  }

  lemma FirstThen(f: Bytes, a: seq<Bytes>, z: seq<Bytes>)
    ensures ([f] + a) + z != [] && (([f] + a) + z)[0] == f && (([f] + a) + z)[1..] == a + z
  {
  }

  /** A frame in the middle of a reply. */
  lemma PartFrame(s: State, ci: nat, ds: seq<Due>, z: Bytes) returns (m: nat)
    requires ci < |s.conns| && s.conns[ci].outbound && ds != [] && AllHeld(s.psend, ds) && Midway(s.conns[ci].rs, ds[0], z)
    ensures var fs := ResponseParts(ds[0].p.remoteSession, z) + AllDueFrames(ds[1..]);
            fs != [] &&
            var t := HandleFrame(s, ci, fs[0]);
            Went(s, t, ci, ds, m) && ToCome(t.conns[ci].rs, ds[m..], fs[1..])
  {
    var d, r, more := ds[0], s.conns[ci].rs, AllDueFrames(ds[1..]);
    assert Held(s.psend, d);
    var session := d.p.remoteSession;
    SendIsFirst(s.psend, d.slot);
    if |z| > MULTI_PART {
      var a, b := z[..MULTI_PART], z[MULTI_PART..];
      FirstThen(ResponseFrame(session, RESP_MULTI_PART, a), ResponseParts(session, b), more);
      ParseResponseFrame(session, RESP_MULTI_PART, a);
      WentNone(s, r.(buf := r.buf + a), ci, ds);
      assert r.buf + a + b == r.buf + z;
      assert Midway(r.(buf := r.buf + a), d, b) && ds[0..] == ds;
      m := 0;
    } else {
      var f := ResponseFrame(session, RESP_MULTI_END, z);
      FirstThen(f, [], more);
      assert ResponseParts(session, z) == [f] + [] && [] + more == more;
      ParseResponseFrame(session, RESP_MULTI_END, z);
      WentOne(s, r.(active := false, buf := []), ci, ds);
      m := 1;
    }
  }

  lemma AnyFrame(s: State, ci: nat, ds: seq<Due>, fs: seq<Bytes>) returns (m: nat)
    requires ci < |s.conns| && s.conns[ci].outbound && AllHeld(s.psend, ds) && ToCome(s.conns[ci].rs, ds, fs) && fs != []
    ensures var t := HandleFrame(s, ci, fs[0]);
            Went(s, t, ci, ds, m) && ToCome(t.conns[ci].rs, ds[m..], fs[1..]) && t.conns[ci].outbound
  {
    if fs == AllDueFrames(ds) {
      m := StartFrame(s, ci, ds);
    } else {
      var z :| Midway(s.conns[ci].rs, ds[0], z) && fs == ResponseParts(ds[0].p.remoteSession, z) + AllDueFrames(ds[1..]);
      m := PartFrame(s, ci, ds, z);
    }
  }

  lemma {:induction false} DueAnswersAppend(a: seq<Due>, b: seq<Due>)
    ensures DueAnswers(a + b) == DueAnswers(a) + DueAnswers(b)
  {
    if a == [] {
      assert a + b == b;
    } else {
      DueAnswersAppend(a[1..], b);
      assert (a + b)[1..] == a[1..] + b && (a + b)[0] == a[0];
      Assoc([DueAnswer(a[0])], DueAnswers(a[1..]), DueAnswers(b));
    }
  }

  lemma WentTwice(s: State, t: State, u: State, ci: nat, ds: seq<Due>, m: nat, n: nat)
    requires Went(s, t, ci, ds, m) && Went(t, u, ci, ds[m..], n)
    ensures Went(s, u, ci, ds, m + n) && ds[m..][n..] == ds[m + n..]
  {
    assert ds[..m] + ds[m..][..n] == ds[..m + n];
    DueAnswersAppend(ds[..m], ds[m..][..n]);
    Assoc(s.out, DueAnswers(ds[..m]), DueAnswers(ds[m..][..n]));
  }

  function Fold(h: (State, Bytes) -> State, s: State, fs: seq<Bytes>): State
    decreases |fs|
  {
    if fs == [] then s else Fold(h, h(s, fs[0]), fs[1..])
  }

  lemma {:induction false} FoldAppend(h: (State, Bytes) -> State, s: State, a: seq<Bytes>, b: seq<Bytes>)
    ensures Fold(h, s, a + b) == Fold(h, Fold(h, s, a), b)
    decreases |a|
  {
    if a == [] {
      assert a + b == b;
    } else {
      FoldAppend(h, h(s, a[0]), a[1..], b);
      assert (a + b)[1..] == a[1..] + b;
    }
  }

  function Handler(ci: nat): (State, Bytes) -> State
  {
    (s: State, f: Bytes) => if ci < |s.conns| then HandleFrame(s, ci, f) else s
  }

  type Await = (State, seq<Due>, seq<Bytes>) -> bool

  /** One frame of what is awaited brings some of the replies, and leaves the rest awaited. */
  ghost predicate Brings(h: (State, Bytes) -> State, p: Await)
  {
    forall s, ds, fs {:trigger SomeBrought(h, p, s, ds, fs)} :: p(s, ds, fs) && fs != [] ==> SomeBrought(h, p, s, ds, fs)
  }

  ghost predicate SomeBrought(h: (State, Bytes) -> State, p: Await, s: State, ds: seq<Due>, fs: seq<Bytes>)
  {
    fs != [] && exists m: nat :: Leaves(h, p, s, ds, fs, m)
  }

  ghost predicate Leaves(h: (State, Bytes) -> State, p: Await, s: State, ds: seq<Due>, fs: seq<Bytes>, m: nat)
    requires fs != []
  {
    m <= |ds| && p(h(s, fs[0]), ds[m..], fs[1..])
  }

  lemma {:induction false} SomeFold(h: (State, Bytes) -> State, p: Await, s: State, ds: seq<Due>, a: seq<Bytes>, z: seq<Bytes>)
    returns (m: nat)
    requires Brings(h, p) && p(s, ds, a + z)
    ensures m <= |ds| && p(Fold(h, s, a), ds[m..], z)
    decreases |a|
  {
    if a == [] {
      assert a + z == z && ds[0..] == ds;
      m := 0;
    } else {
      assert (a + z)[0] == a[0] && (a + z)[1..] == a[1..] + z;
      assert SomeBrought(h, p, s, ds, a + z);
      var k: nat :| Leaves(h, p, s, ds, a + z, k);
      var n := SomeFold(h, p, h(s, a[0]), ds[k..], a[1..], z);
      assert ds[k..][n..] == ds[k + n..];
      m := k + n;
    }
  }

  /** From s0, which awaited all of ds0, the first of them have been delivered, and fs is to come for
      the others, ds. */
  ghost predicate Since(s0: State, ds0: seq<Due>, ci: nat, s: State, ds: seq<Due>, fs: seq<Bytes>)
  {
    && |ds| <= |ds0| && ds == ds0[|ds0| - |ds|..] && Went(s0, s, ci, ds0, |ds0| - |ds|)
    && ci < |s.conns| && s.conns[ci].outbound && ToCome(s.conns[ci].rs, ds, fs)
  }

  ghost function SinceThen(s0: State, ds0: seq<Due>, ci: nat): Await
  {
    (s: State, ds: seq<Due>, fs: seq<Bytes>) => Since(s0, ds0, ci, s, ds, fs)
  }

  lemma HandlerBrings(s0: State, ds0: seq<Due>, ci: nat)
    ensures Brings(Handler(ci), SinceThen(s0, ds0, ci))
  {
    forall s: State, ds: seq<Due>, fs: seq<Bytes> | SinceThen(s0, ds0, ci)(s, ds, fs) && fs != []
      ensures SomeBrought(Handler(ci), SinceThen(s0, ds0, ci), s, ds, fs)
    {
      var m := AnyFrame(s, ci, ds, fs);
      SinceNext(s0, ds0, ci, s, ds, fs, HandleFrame(s, ci, fs[0]), m);
      assert Leaves(Handler(ci), SinceThen(s0, ds0, ci), s, ds, fs, m);
    }
  }

  lemma SinceNext(s0: State, ds0: seq<Due>, ci: nat, s: State, ds: seq<Due>, fs: seq<Bytes>, t: State, m: nat)
    requires Since(s0, ds0, ci, s, ds, fs) && fs != [] && Went(s, t, ci, ds, m)
    requires ToCome(t.conns[ci].rs, ds[m..], fs[1..]) && t.conns[ci].outbound
    ensures Since(s0, ds0, ci, t, ds[m..], fs[1..])
  {
    WentTwice(s0, s, t, ci, ds0, |ds0| - |ds|, m);
  }

  lemma {:induction false} RepliesFold(s: State, ci: nat, fs: seq<Bytes>)
    requires ci < |s.conns| && s.conns[ci].outbound
    ensures HandleFrames(s, ci, fs) == Fold(Handler(ci), s, fs)
    decreases |fs|
  {
    if fs != [] {
      ResponseConns(s, ci, fs[0]);
      RepliesFold(HandleFrame(s, ci, fs[0]), ci, fs[1..]);
    }
  }

  /** Some of the frames to come. */
  lemma SomeFrames(s: State, ci: nat, ds: seq<Due>, a: seq<Bytes>, z: seq<Bytes>) returns (m: nat)
    requires ci < |s.conns| && s.conns[ci].outbound && AllHeld(s.psend, ds) && ToCome(s.conns[ci].rs, ds, a + z)
    ensures var t := HandleFrames(s, ci, a);
            Went(s, t, ci, ds, m) && ToCome(t.conns[ci].rs, ds[m..], z)
  {
    HandlerBrings(s, ds, ci);
    RepliesFold(s, ci, a);
    WentNone(s, s.conns[ci].rs, ci, ds);
    assert s.conns[ci := s.conns[ci].(rs := s.conns[ci].rs)] == s.conns && SetRs(s, ci, s.conns[ci].rs) == s;
    m := SomeFold(Handler(ci), SinceThen(s, ds, ci), s, ds, a, z);
  }

  /* ---- one DATA event ---- */

  /** The bytes received and not yet handled, and w, are the frames to come. */
  ghost predicate Reading(s: State, ci: nat, ds: seq<Due>, fs: seq<Bytes>, w: Bytes)
  {
    && ci < |s.conns| && s.conns[ci].outbound && AllHeld(s.psend, ds) && ToCome(s.conns[ci].rs, ds, fs)
    && !HasFrame(s.conns[ci].rx) && Packable(fs) && s.conns[ci].rx + w == PackAll(fs)
  }

  lemma DataCut(rx: Bytes, bytes: Bytes, w: Bytes, fs: seq<Bytes>) returns (gs: seq<Bytes>)
    requires Packable(fs) && rx + (bytes + w) == PackAll(fs)
    ensures fs == Frames(rx + bytes) + gs && Packable(gs) && Rest(rx + bytes) + w == PackAll(gs)
  {
    var q := Rest(rx + bytes);
    gs := Frames(q + w);
    Assoc(rx, bytes, w);
    assert PackAll(fs) + [] == PackAll(fs);
    SplitUnique(fs, []);
    SplitAppend(rx + bytes, w);
    SplitSpells(q + w);
    assert PackAll(gs) + [] == PackAll(gs);
  }

  lemma DataStep(s: State, ci: nat, ds: seq<Due>, fs: seq<Bytes>, bytes: Bytes, w: Bytes) returns (m: nat, gs: seq<Bytes>)
    requires Reading(s, ci, ds, fs, bytes + w)
    ensures var t := ConnData(s, ci, bytes);
            && m <= |ds| && t.out == s.out + DueAnswers(ds[..m]) && Reading(t, ci, ds[m..], gs, w)
            && t.conns[ci].used == s.conns[ci].used && t.conns[ci].sock == s.conns[ci].sock
  {
    gs := DataCut(s.conns[ci].rx, bytes, w, fs);
    m := SomeFrames(s, ci, ds, Frames(s.conns[ci].rx + bytes), gs);
  }

  /* ---- other events ---- */

  /** Connection ci has the same socket, buffer and reassembly. */
  ghost predicate SameLink(s: State, t: State, ci: nat)
  {
    ci < |s.conns| && ci < |t.conns| && t.conns[ci].(ready := false) == s.conns[ci].(ready := false)
  }

  lemma {:induction false} FramesOther(s: State, c: nat, fs: seq<Bytes>, ci: nat)
    requires c < |s.conns| && ci < |s.conns| && ci != c
    ensures var t := HandleFrames(s, c, fs); |t.conns| == |s.conns| && t.conns[ci] == s.conns[ci]
    decreases |fs|
  {
    if fs != [] {
      FrameOther(s, c, fs[0], ci);
      FramesOther(HandleFrame(s, c, fs[0]), c, fs[1..], ci);
    }
  }

  lemma FrameOther(s: State, c: nat, f: Bytes, ci: nat)
    requires c < |s.conns| && ci < |s.conns| && ci != c
    ensures var t := HandleFrame(s, c, f); |t.conns| == |s.conns| && t.conns[ci] == s.conns[ci]
  {
    if s.conns[c].outbound {
      ResponseConns(s, c, f);
    } else {
      var (q, calls) := InStep(s.conns[c].inbound, f);
      var s1 := Absorb(s, c, q, calls);
      if calls != [] {
        DispatchApart(s1, c, calls[0], s1.conns[c].rx);
      }
    }
  }

  lemma DataOther(s: State, c: nat, bytes: Bytes, ci: nat)
    requires c < |s.conns| && ci < |s.conns| && ci != c
    ensures SameLink(s, ConnData(s, c, bytes), ci)
  {
    var s0 := if s.conns[c].outbound then s else s.(received := s.received + [(s.conns[c].sock, bytes)]);
    FramesOther(s0, c, Frames(s.conns[c].rx + bytes), ci);
  }

  lemma SendOther(s: State, e: Event, ci: nat)
    requires Sized(s) && e.Send? && WellFormed(e) && ci < MAX_CONN && s.conns[ci].used
    ensures SameLink(s, Step(s, e), ci)
  {
    var ni := First(s.nodes, NodeIs(e.name));
    if ni < |s.nodes| {
      AllocSameWaits(s.conns, e.kid, true, false);
      RequestSameWaits(NodeConnect(s, ni, e.kid).0, ni, e.target, e.payload, e.push);
    }
  }

  lemma NodeAtOther(s: State, e: Event, ci: nat)
    requires Sized(s) && e.NodeAt? && WellFormed(e) && ci < MAX_CONN && s.conns[ci].used
    ensures SameLink(s, Step(s, e), ci)
  {
    AllocSameWaits(s.conns, e.kid, true, false);
  }

  lemma ClosedOther(s: State, id: int, ci: nat)
    requires Inv(s) && ci < MAX_CONN && s.conns[ci].used && s.conns[ci].sock != id
    ensures SameLink(s, OnClosed(s, id), ci)
  {
    ClosedIs(s, id);
    if ConnAt(s, id) < |s.conns| {
      ConnAtSame(s, id);
    }
  }

  lemma ConnectedOther(s: State, id: int, ci: nat)
    requires ci < |s.conns|
    ensures SameLink(s, OnConnected(s, id), ci)
  {
  }

  /** Only its own data and its own close touch what a connection has read. */
  lemma StepOther(s: State, e: Event, ci: nat)
    requires Inv(s) && Sized(s) && WellFormed(e) && ci < MAX_CONN && s.conns[ci].used
    requires e != Closed(s.conns[ci].sock) && !(e.Data? && e.id == s.conns[ci].sock)
    ensures SameLink(s, Step(s, e), ci)
  {
    match e {
      case Connected(id) => ConnectedOther(s, id, ci);
      case Accepted(id) => AllocSameWaits(s.conns, id, false, true);
      case Data(id, bytes) =>
        if ConnAt(s, id) < |s.conns| {
          ConnAtSame(s, id);
          DataOther(s, ConnAt(s, id), bytes, ci);
        }
      case Closed(id) => ClosedOther(s, id, ci);
      case NodeAt(_, _, _, _, _) => NodeAtOther(s, e, ci);
      case Send(_, _, _, _, _, _, _) => SendOther(s, e, ci);
      case LocalDone(_, _, _) => LocalDoneOn(s, e, -1);
      case _ =>
    }
  }

  /* ---- whole runs ---- */

  /** The bytes the run receives on socket k. */
  function Heard(es: seq<Event>, k: int): Bytes
  {
    if es == [] then [] else (if es[0].Data? && es[0].id == k then es[0].bytes else []) + Heard(es[1..], k)
  }

  /** What the run puts out as it receives them. */
  ghost function PutOut(s: State, es: seq<Event>, k: int): seq<Out>
    requires Sized(s) && Legal(s, es)
    decreases |es|
  {
    if es == [] then []
    else
      StepSized(s, es[0]);
      var t := Step(s, es[0]);
      (if es[0].Data? && es[0].id == k && |s.out| <= |t.out| then t.out[|s.out|..] else []) + PutOut(t, es[1..], k)
  }

  /** Each reply still awaited in s is awaited in t. */
  ghost predicate Spared(s: State, t: State, ds: seq<Due>)
  {
    forall j :: 0 <= j < |ds| && Held(s.psend, ds[j]) ==> Held(t.psend, ds[j])
  }

  /** The link on socket k stays open, and nothing but its data answers or fails the waiting callers. */
  ghost predicate Kept(s: State, es: seq<Event>, k: int, ds: seq<Due>)
    requires Sized(s) && Legal(s, es)
    decreases |es|
  {
    es == [] ||
    (&& es[0] != Closed(k)
     && ((es[0].Data? && es[0].id == k) || Spared(s, Step(s, es[0]), ds))
     && (StepSized(s, es[0]); Kept(Step(s, es[0]), es[1..], k, ds)))
  }

  lemma {:induction false} KeptFewer(s: State, es: seq<Event>, k: int, ds: seq<Due>, m: nat)
    requires Sized(s) && Legal(s, es) && Kept(s, es, k, ds) && m <= |ds|
    ensures Kept(s, es, k, ds[m..])
    decreases |es|
  {
    if es != [] {
      StepSized(s, es[0]);
      KeptFewer(Step(s, es[0]), es[1..], k, ds, m);
      assert forall j :: 0 <= j < |ds[m..]| ==> ds[m..][j] == ds[m + j];
    }
  }

  lemma FramesToCome(r: Reasm, ds: seq<Due>, fs: seq<Bytes>)
    requires ToCome(r, ds, fs)
    ensures ds != [] ==> fs != []
  {
  }

  lemma NothingLeft(r: Reasm, ds: seq<Due>, fs: seq<Bytes>, rx: Bytes)
    requires ToCome(r, ds, fs) && Packable(fs) && !HasFrame(rx) && rx == PackAll(fs)
    ensures ds == []
  {
    SplitUnique(fs, []);
    assert PackAll(fs) + [] == PackAll(fs);
    assert fs == [];
    FramesToCome(r, ds, fs);
  }

  lemma PutOutNext(s: State, es: seq<Event>, k: int, o: seq<Out>)
    requires Sized(s) && Legal(s, es) && es != []
    requires if es[0].Data? && es[0].id == k then Step(s, es[0]).out == s.out + o else o == []
    ensures Sized(Step(s, es[0])) && Legal(Step(s, es[0]), es[1..])
    ensures PutOut(s, es, k) == o + PutOut(Step(s, es[0]), es[1..], k)
  {
    StepSized(s, es[0]);
  }

  /** Any run that receives, on a link, exactly the bytes of the replies some callers wait for, in any
      cuts and with any other events between, gives those callers their payloads, each once and in
      order, and nothing else comes of those bytes. */
  lemma {:induction false} ReplyRun(s: State, es: seq<Event>, ci: nat, k: int, ds: seq<Due>, fs: seq<Bytes>)
    requires Inv(s) && Legal(s, es) && ci < MAX_CONN && s.conns[ci].used && s.conns[ci].sock == k
    requires Reading(s, ci, ds, fs, Heard(es, k)) && Kept(s, es, k, ds)
    ensures PutOut(s, es, k) == DueAnswers(ds)
    decreases |es|
  {
    if es == [] {
      assert s.conns[ci].rx + [] == s.conns[ci].rx;
      NothingLeft(s.conns[ci].rs, ds, fs, s.conns[ci].rx);
    } else {
      var t := Step(s, es[0]);
      StepSized(s, es[0]);
      InvStep(s, es[0]);
      if es[0].Data? && es[0].id == k {
        ConnAtUnique(s, k, ci);
        var m, gs := DataStep(s, ci, ds, fs, es[0].bytes, Heard(es[1..], k));
        KeptFewer(t, es[1..], k, ds, m);
        PutOutNext(s, es, k, DueAnswers(ds[..m]));
        ReplyRun(t, es[1..], ci, k, ds[m..], gs);
        assert ds == ds[..m] + ds[m..];
        DueAnswersAppend(ds[..m], ds[m..]);
      } else {
        StepOther(s, es[0], ci);
        assert [] + Heard(es[1..], k) == Heard(es[1..], k);
        PutOutNext(s, es, k, []);
        ReplyRun(t, es[1..], ci, k, ds, fs);
      }
    }
  }

  /* ---- which events leave the waiting callers alone ---- */

  /** Data on an inbound connection, the loss of another node's socket, a local reply that is awaited
      or is an error or has the number of no waiting caller's session, a request while the waiting
      ones are less than 2^31-1 draws old, and everything else. */
  ghost predicate Harmless(s: State, e: Event, ds: seq<Due>)
  {
    match e
    case Data(id, _) => ConnAt(s, id) == |s.conns| || !s.conns[ConnAt(s, id)].outbound
    case Closed(id) => forall j :: 0 <= j < |ds| ==> ds[j].p.nodeIdx != First(s.nodes, NodeOn(id))
    case LocalDone(session, ok, _) =>
      First(s.precv, RecvIs(session)) < |s.precv| || !ok
      || forall j :: 0 <= j < |ds| ==> ds[j].slot != First(s.psend, CallerIs(session))
    case Send(_, _, _, _, _, _, _) =>
      forall j :: 0 <= j < |ds| && Held(s.psend, ds[j]) ==> s.issued + 1 - ds[j].p.issue < MAX_SESSION
    case _ => true
  }

  /** The slot as it was, and every other one as it was, or free, or under a session of its own. */
  lemma HeldStill(ps: seq<PSend>, qs: seq<PSend>, d: Due)
    requires Held(ps, d) && |qs| == |ps| && qs[d.slot] == ps[d.slot]
    requires forall i :: 0 <= i < |ps| && i != d.slot && qs[i].used ==>
               (ps[i].used && qs[i].remoteSession == ps[i].remoteSession) || qs[i].remoteSession != d.p.remoteSession
    ensures Held(qs, d)
  {
  }

  lemma {:induction false} RequestSlots(s: State, ci: nat, fs: seq<Bytes>)
    requires ci < |s.conns| && !s.conns[ci].outbound
    ensures HandleFrames(s, ci, fs).psend == s.psend
    decreases |fs|
  {
    if fs != [] {
      var (q, calls) := InStep(s.conns[ci].inbound, fs[0]);
      var s1 := Absorb(s, ci, q, calls);
      if calls != [] {
        DispatchApart(s1, ci, calls[0], s1.conns[ci].rx);
        assert Dispatch(s1, ci, calls[0]).psend == s1.psend;
      }
      RequestSlots(HandleFrame(s, ci, fs[0]), ci, fs[1..]);
    }
  }

  lemma SlotsData(s: State, ci: nat, bytes: Bytes)
    requires ci < |s.conns| && !s.conns[ci].outbound
    ensures ConnData(s, ci, bytes).psend == s.psend
  {
    RequestSlots(s.(received := s.received + [(s.conns[ci].sock, bytes)]), ci, Frames(s.conns[ci].rx + bytes));
  }

  lemma SparedClosed(s: State, id: int, d: Due)
    requires NodesOk(s) && ConnsOk(s) && Held(s.psend, d) && d.p.nodeIdx != First(s.nodes, NodeOn(id))
    ensures Held(OnClosed(s, id).psend, d)
  {
    var ni := First(s.nodes, NodeOn(id));
    ClosedIs(s, id);
    if ni < |s.nodes| {
      FailedFacts(s.psend, ni, 0);
      HeldStill(s.psend, FailedSlots(s.psend, ni), d);
    }
  }

  lemma SparedLocalDone(s: State, session: int, ok: bool, payload: Bytes, d: Due)
    requires Sized(s) && Held(s.psend, d)
    requires First(s.precv, RecvIs(session)) < |s.precv| || !ok || d.slot != First(s.psend, CallerIs(session))
    ensures Held(OnLocalDone(s, session, ok, payload).psend, d)
  {
    var t, j := OnLocalDone(s, session, ok, payload), First(s.psend, CallerIs(session));
    if First(s.precv, RecvIs(session)) == |s.precv| && ok && j < |s.psend| {
      HeldStill(s.psend, t.psend, d);
    }
  }

  /** A new request takes a free slot, under a session no waiting one has. */
  lemma SparedSlot(s: State, ps: seq<PSend>, i: nat, q: PSend, d: Due)
    requires SessionsOk(s) && ps == s.psend && i < |ps| && !ps[i].used && Held(ps, d)
    requires q.remoteSession == SessionOf(s.issued + 1) && s.issued + 1 - d.p.issue < MAX_SESSION
    ensures Held(ps[i := q], d)
  {
    SessionsCollideIff(s.issued + 1, d.p.issue);
    assert 0 < s.issued + 1 - d.p.issue < MAX_SESSION;
    HeldStill(ps, ps[i := q], d);
  }

  /** The waiting slots are as they were, or a free one was taken under the next session. */
  ghost predicate SlotsAfter(s: State, t: State)
  {
    t.psend == s.psend
    || exists i, q :: 0 <= i < |s.psend| && !s.psend[i].used && t.psend == s.psend[i := q]
                      && q.remoteSession == SessionOf(s.issued + 1)
  }

  lemma SentSession(s: State, t: State)
    requires Inv(t) && t.issued == s.issued + 1
    ensures t.sendSession == SessionOf(s.issued + 1)
  {
  }

  lemma SlotsFrom(s: State, e: Event, s2: State)
    requires s2.psend == s.psend && s2.sendSession == SessionOf(s.issued + 1)
    requires First(s2.psend, SendFree()) < |s2.psend| && e.Send?
    ensures forall q: PSend :: q.remoteSession == s2.sendSession ==>
              SlotsAfter(s, s2.(psend := s2.psend[First(s2.psend, SendFree()) := q]))
  {
  }

  lemma OnPushIs(s: State, e: Event, ni: nat, s1: State, s2: State)
    requires Sized(s) && e.Send? && WellFormed(e) && ni == First(s.nodes, NodeIs(e.name)) < |s.nodes|
    requires NodeConnect(s, ni, e.kid) == (s1, true) && ni < |s1.nodes| && s2 == SendRequest(s1, ni, e.target, e.payload, e.push)
    requires e.push || First(s2.psend, SendFree()) == |s2.psend|
    ensures Step(s, e).psend == s2.psend
  {
  }

  lemma SendSlotsUp(s: State, e: Event, ni: nat, s1: State)
    requires Sized(s) && e.Send? && WellFormed(e) && ni == First(s.nodes, NodeIs(e.name)) < |s.nodes|
    requires NodeConnect(s, ni, e.kid) == (s1, true) && Inv(s1) && ni < MAX_NODE && s1.nodes[ni].sock >= 0
    requires s1.psend == s.psend && s1.issued == s.issued
    ensures SlotsAfter(s, Step(s, e))
  {
    GoodSendRequest(s1, ni, e.target, e.payload, e.push);
    var s2 := SendRequest(s1, ni, e.target, e.payload, e.push);
    SentSession(s1, s2);
    if e.push || First(s2.psend, SendFree()) == |s2.psend| {
      OnPushIs(s, e, ni, s1, s2);
    } else {
      OnSendIs(s, e, ni, s1, s2);
      SlotsFrom(s, e, s2);
    }
  }

  /** What a send does to the waiting slots. */
  lemma SendSlots(s: State, e: Event)
    requires Inv(s) && Sized(s) && e.Send? && WellFormed(e) && Fresh(s, e)
    ensures SlotsAfter(s, Step(s, e))
  {
    var ni := First(s.nodes, NodeIs(e.name));
    if ni < |s.nodes| {
      assert NodeIs(e.name)(s.nodes[ni]);
      GoodConnect(s, ni, e.kid);
      if NodeConnect(s, ni, e.kid).1 {
        ConnectIssued(s, ni, e.kid);
        SendSlotsUp(s, e, ni, NodeConnect(s, ni, e.kid).0);
      }
    }
  }

  lemma ConnectIssued(s: State, ni: nat, kid: int)
    requires ni < |s.nodes|
    ensures var t := NodeConnect(s, ni, kid).0; t.requests == s.requests && t.issued == s.issued
  {
  }

  lemma SparedSend(s: State, e: Event, d: Due)
    requires Inv(s) && e.Send? && WellFormed(e) && Fresh(s, e) && Sized(s) && Held(s.psend, d)
    requires s.issued + 1 - d.p.issue < MAX_SESSION
    ensures Held(Step(s, e).psend, d)
  {
    var t := Step(s, e);
    SendSlots(s, e);
    if t.psend != s.psend {
      var i, q :| 0 <= i < |s.psend| && !s.psend[i].used && t.psend == s.psend[i := q]
                  && q.remoteSession == SessionOf(s.issued + 1);
      SparedSlot(s, s.psend, i, q, d);
    }
  }

  lemma NodeAtSlots(s: State, e: Event)
    requires Sized(s) && WellFormed(e) && e.NodeAt?
    ensures Step(s, e).psend == s.psend
  {
  }

  lemma OtherSlots(s: State, e: Event)
    requires Sized(s) && WellFormed(e) && (e.Connected? || e.Accepted? || e.Listen? || e.Register?)
    ensures Step(s, e).psend == s.psend
  {
  }

  lemma DataSlots(s: State, e: Event, ds: seq<Due>)
    requires Sized(s) && WellFormed(e) && e.Data? && Harmless(s, e, ds)
    ensures Step(s, e).psend == s.psend
  {
    if ConnAt(s, e.id) < |s.conns| {
      SlotsData(s, ConnAt(s, e.id), e.bytes);
    }
  }

  lemma SparedOne(s: State, e: Event, ds: seq<Due>, j: nat)
    requires Inv(s) && WellFormed(e) && Fresh(s, e) && Sized(s) && Harmless(s, e, ds) && j < |ds| && Held(s.psend, ds[j])
    ensures Held(Step(s, e).psend, ds[j])
  {
    match e {
      case Data(_, _) => DataSlots(s, e, ds);
      case Closed(id) => SparedClosed(s, id, ds[j]);
      case LocalDone(session, ok, payload) => SparedLocalDone(s, session, ok, payload, ds[j]);
      case Send(_, _, _, _, _, _, _) => SparedSend(s, e, ds[j]);
      case NodeAt(_, _, _, _, _) => NodeAtSlots(s, e);
      case _ => OtherSlots(s, e);
    }
  }

  /** Harmless events leave every waiting caller waiting. */
  lemma HarmlessSpares(s: State, e: Event, ds: seq<Due>)
    requires Inv(s) && WellFormed(e) && Fresh(s, e) && Sized(s) && Harmless(s, e, ds)
    ensures Spared(s, Step(s, e), ds)
  {
    forall j | 0 <= j < |ds| && Held(s.psend, ds[j])
      ensures Held(Step(s, e).psend, ds[j])
    {
      SparedOne(s, e, ds, j);
    }
  }

  /** Every event of the run is data of the link, or harmless. */
  ghost predicate AllHarmless(s: State, es: seq<Event>, k: int, ds: seq<Due>)
    requires Sized(s) && Legal(s, es)
    decreases |es|
  {
    es == [] ||
    (&& es[0] != Closed(k)
     && ((es[0].Data? && es[0].id == k) || Harmless(s, es[0], ds))
     && (StepSized(s, es[0]); AllHarmless(Step(s, es[0]), es[1..], k, ds)))
  }

  lemma {:induction false} HarmlessKeeps(s: State, es: seq<Event>, k: int, ds: seq<Due>)
    requires Inv(s) && Legal(s, es) && AllHarmless(s, es, k, ds)
    ensures Kept(s, es, k, ds)
    decreases |es|
  {
    if es != [] {
      StepSized(s, es[0]);
      InvStep(s, es[0]);
      if !(es[0].Data? && es[0].id == k) {
        HarmlessSpares(s, es[0], ds);
      }
      HarmlessKeeps(Step(s, es[0]), es[1..], k, ds);
    }
  }

  /* ---- from service to caller, across two nodes ---- */

  /** What the reply of a local service makes this node write to socket l. */
  ghost function ReplyBytes(t: State, ls: int, ok: bool, payload: Bytes, l: int): Bytes
    requires Sized(t)
  {
    var u := OnLocalDone(t, ls, ok, payload);
    if |t.out| <= |u.out| then Flatten(WrittenOn(u.out[|t.out|..], l)) else []
  }

  /** One node, at b, has a request waiting under local session ls that came on socket l as `remote`;
      another, at a, has a caller waiting for session `remote` on its link k. However both go on, once
      the service replies and the link has received what the first node then wrote to l, the caller
      has its answer: the payload the service gave, once, and nothing else. */
  lemma ReplyCrosses(b: State, bs: seq<Event>, j: nat, ls: int, l: int, ok: bool, payload: Bytes,
                     a: State, es: seq<Event>, ci: nat, i: nat)
    requires Inv(a) && Legal(a, es) && ci < MAX_CONN && a.conns[ci].used && a.conns[ci].outbound && a.conns[ci].rx == []
    requires Unambiguous(a.psend, i) && |payload| < TWO_32
    requires Inv(b) && Legal(b, bs) && Waits(b, j, ls, l, a.psend[i].remoteSession) && Undisturbed(bs, ls, l)
    requires Kept(a, es, a.conns[ci].sock, [Due(i, a.psend[i], ok, if ok then payload else ERROR)])
    requires Sized(Run(b, bs)) && Heard(es, a.conns[ci].sock) == ReplyBytes(Run(b, bs), ls, ok, payload, l)
    ensures var p := a.psend[i];
            PutOut(a, es, a.conns[ci].sock) == [Answer(p.source, p.jsSession, ok, if ok then payload else [])]
  {
    var d := Due(i, a.psend[i], ok, if ok then payload else ERROR);
    var t, u, fs := Run(b, bs), OnLocalDone(Run(b, bs), ls, ok, payload), DueFrames(d);
    ReplyRouted(b, bs, j, ls, l, d.p.remoteSession, ok, payload);
    OnTheWire(t.out, u.out, l, fs);
    OneReply(a, es, ci, d);
  }

  /** The bytes of what was just written. */
  lemma OnTheWire(before: seq<Out>, after: seq<Out>, l: int, fs: seq<Bytes>)
    requires Packable(fs) && after == before + Writes(l, fs)
    ensures Flatten(WrittenOn(after[|before|..], l)) == PackAll(fs)
  {
    assert after[|before|..] == Writes(l, fs);
    WritesOn(l, fs, l);
    FlattenPackEach(fs);
  }

  lemma OneDue(d: Due)
    ensures AllDueFrames([d]) == DueFrames(d) && DueAnswers([d]) == [DueAnswer(d)]
  {
    assert [d][1..] == [] && DueFrames(d) + [] == DueFrames(d);
  }

  lemma ReadingOne(s: State, ci: nat, d: Due)
    requires ci < |s.conns| && s.conns[ci].outbound && s.conns[ci].rx == []
    requires Held(s.psend, d) && Fits(d) && Packable(DueFrames(d))
    ensures Reading(s, ci, [d], DueFrames(d), PackAll(DueFrames(d)))
  {
    OneDue(d);
    assert [] + PackAll(DueFrames(d)) == PackAll(DueFrames(d));
  }

  /** A run that receives one awaited reply. */
  lemma OneReply(s: State, es: seq<Event>, ci: nat, d: Due)
    requires Inv(s) && Legal(s, es) && ci < MAX_CONN && s.conns[ci].used && s.conns[ci].outbound && s.conns[ci].rx == []
    requires Held(s.psend, d) && Fits(d) && Kept(s, es, s.conns[ci].sock, [d])
    requires Packable(DueFrames(d)) && Heard(es, s.conns[ci].sock) == PackAll(DueFrames(d))
    ensures PutOut(s, es, s.conns[ci].sock) == [DueAnswer(d)]
  {
    ReadingOne(s, ci, d);
    ReplyRun(s, es, ci, s.conns[ci].sock, [d], DueFrames(d));
    OneDue(d);
  }

  /* ---- there and back ---- */

  /** Handling the n-th frame of what has arrived completes call c, which is for local service h. */
  ghost predicate Forwards(s: State, ci: nat, bytes: Bytes, n: nat, c: Call, h: U32)
  {
    ci < |s.conns| && !s.conns[ci].outbound && !c.push &&
    var fs := Frames(s.conns[ci].rx + bytes);
    n < |fs| && ci < |Until(s, ci, bytes, n).conns| &&
    var m := Until(s, ci, bytes, n);
    var (q, calls) := InStep(m.conns[ci].inbound, fs[n]);
    && calls == [c] && First(m.precv, RecvFree()) < |m.precv| && Serves(m.names, c.target, h)
  }

  /** The state before the n-th frame. */
  ghost function Until(s: State, ci: nat, bytes: Bytes, n: nat): State
    requires ci < |s.conns| && !s.conns[ci].outbound && n <= |Frames(s.conns[ci].rx + bytes)|
  {
    HandleFrames(s.(received := s.received + [(s.conns[ci].sock, bytes)]), ci, Frames(s.conns[ci].rx + bytes)[..n])
  }

  lemma {:induction false} InboundKeeps(s: State, ci: nat, fs: seq<Bytes>)
    requires ci < |s.conns| && !s.conns[ci].outbound
    ensures var t := HandleFrames(s, ci, fs);
            && |t.conns| == |s.conns| && !t.conns[ci].outbound && t.conns[ci].sock == s.conns[ci].sock
            && t.conns[ci].used == s.conns[ci].used
    decreases |fs|
  {
    if fs != [] {
      RequestKeeps(s, ci, fs[0]);
      InboundKeeps(HandleFrame(s, ci, fs[0]), ci, fs[1..]);
    }
  }

  lemma {:induction false} HandlingIsFold(s: State, ci: nat, fs: seq<Bytes>)
    requires ci < |s.conns| && !s.conns[ci].outbound
    ensures HandleFrames(s, ci, fs) == Fold(Handler(ci), s, fs)
    decreases |fs|
  {
    if fs != [] {
      RequestKeeps(s, ci, fs[0]);
      HandlingIsFold(HandleFrame(s, ci, fs[0]), ci, fs[1..]);
    }
  }

  lemma InboundAppend(s: State, ci: nat, a: seq<Bytes>, b: seq<Bytes>)
    requires ci < |s.conns| && !s.conns[ci].outbound
    ensures |HandleFrames(s, ci, a).conns| == |s.conns|
    ensures HandleFrames(s, ci, a + b) == HandleFrames(HandleFrames(s, ci, a), ci, b)
  {
    var h, t := Handler(ci), HandleFrames(s, ci, a);
    InboundKeeps(s, ci, a);
    HandlingIsFold(s, ci, a);
    HandlingIsFold(s, ci, a + b);
    HandlingIsFold(t, ci, b);
    FoldAppend(h, s, a, b);
  }

  lemma RequestKeeps(s: State, ci: nat, f: Bytes)
    requires ci < |s.conns| && !s.conns[ci].outbound
    ensures var t := HandleFrame(s, ci, f);
            && |t.conns| == |s.conns| && !t.conns[ci].outbound && t.conns[ci].sock == s.conns[ci].sock
            && t.conns[ci].used == s.conns[ci].used
  {
    var (q, calls) := InStep(s.conns[ci].inbound, f);
    var s1 := Absorb(s, ci, q, calls);
    if calls != [] {
      DispatchApart(s1, ci, calls[0], s1.conns[ci].rx);
    }
  }

  /** Frames after it leave a forwarded request waiting. */
  lemma WaitsFrames(s: State, ci: nat, fs: seq<Bytes>, i: nat, ls: int, sock: int, remote: U32)
    requires ci < |s.conns| && ci < MAX_CONN && !s.conns[ci].outbound && Waits(s, i, ls, sock, remote)
    ensures Waits(HandleFrames(s, ci, fs), i, ls, sock, remote)
  {
    var (q, calls) := InFold(s.conns[ci].inbound, fs);
    QuietRequests(s, ci, fs);
    WaitsSteady(Absorb(s, ci, q, calls), HandleFrames(s, ci, fs), i, ls, sock, remote);
  }

  lemma SizedUntil(s: State, ci: nat, bytes: Bytes, n: nat)
    requires Sized(s) && ci < |s.conns| && !s.conns[ci].outbound && n <= |Frames(s.conns[ci].rx + bytes)|
    ensures Sized(Until(s, ci, bytes, n))
  {
    SizedFrames(s.(received := s.received + [(s.conns[ci].sock, bytes)]), ci, Frames(s.conns[ci].rx + bytes)[..n]);
  }

  /** The service is given the call, and the call waits under the session the service was given. */
  lemma ForwardWaits(m: State, ci: nat, f: Bytes, c: Call, h: U32)
    requires Sized(m) && ci < MAX_CONN && m.conns[ci].used && !m.conns[ci].outbound && !c.push
    requires First(m.precv, RecvFree()) < |m.precv| && Serves(m.names, c.target, h)
    requires InStep(m.conns[ci].inbound, f).1 == [c]
    ensures var t := HandleFrame(m, ci, f);
            && Waits(t, First(m.precv, RecvFree()), m.localCount + 1, m.conns[ci].sock, c.session)
            && t.out == m.out + [Forward(h, m.localCount + 1, c.payload)]
  {
    var (q, calls) := InStep(m.conns[ci].inbound, f);
    var x := Absorb(m, ci, q, calls);
    CallForwarded(x, ci, c, h);
    DispatchApart(x, ci, c, x.conns[ci].rx);
  }

  lemma {:induction false} OutGrows(s: State, ci: nat, fs: seq<Bytes>)
    requires ci < |s.conns| && !s.conns[ci].outbound
    ensures s.out <= HandleFrames(s, ci, fs).out
    decreases |fs|
  {
    if fs != [] {
      RequestKeeps(s, ci, fs[0]);
      RequestGrows(s, ci, fs[0]);
      OutGrows(HandleFrame(s, ci, fs[0]), ci, fs[1..]);
    }
  }

  lemma RequestGrows(s: State, ci: nat, f: Bytes)
    requires ci < |s.conns| && !s.conns[ci].outbound
    ensures s.out <= HandleFrame(s, ci, f).out
  {
  }

  /** The frame, and those after it. */
  lemma ForwardWaitsOn(m: State, ci: nat, f: Bytes, z: seq<Bytes>, c: Call, h: U32)
    requires Sized(m) && ci < MAX_CONN && m.conns[ci].used && !m.conns[ci].outbound && !c.push
    requires First(m.precv, RecvFree()) < |m.precv| && Serves(m.names, c.target, h)
    requires InStep(m.conns[ci].inbound, f).1 == [c]
    ensures var t := HandleFrames(m, ci, [f] + z);
            && Waits(t, First(m.precv, RecvFree()), m.localCount + 1, m.conns[ci].sock, c.session)
            && m.out + [Forward(h, m.localCount + 1, c.payload)] <= t.out
  {
    ForwardWaits(m, ci, f, c, h);
    RequestKeeps(m, ci, f);
    assert ([f] + z)[1..] == z;
    WaitsFrames(HandleFrame(m, ci, f), ci, z, First(m.precv, RecvFree()), m.localCount + 1, m.conns[ci].sock, c.session);
    OutGrows(HandleFrame(m, ci, f), ci, z);
  }

  lemma WaitsRx(s: State, ci: nat, rx: Bytes, i: nat, ls: int, sock: int, remote: U32)
    requires ci < |s.conns| && Waits(s, i, ls, sock, remote)
    ensures Waits(SetRx(s, ci, rx), i, ls, sock, remote)
  {
  }

  lemma InboundCut(s: State, ci: nat, fs: seq<Bytes>, n: nat)
    requires ci < |s.conns| && !s.conns[ci].outbound && n < |fs|
    ensures ci < |HandleFrames(s, ci, fs[..n]).conns|
    ensures HandleFrames(s, ci, fs) == HandleFrames(HandleFrames(s, ci, fs[..n]), ci, [fs[n]] + fs[n + 1..])
    ensures |HandleFrames(s, ci, fs).conns| == |s.conns|
  {
    InboundAppend(s, ci, fs[..n], fs[n..]);
    InboundKeeps(s, ci, fs);
    assert fs == fs[..n] + fs[n..] && fs[n..] == [fs[n]] + fs[n + 1..];
  }

  /** ... also when the whole DATA event is over. */
  lemma DataForwards(s: State, ci: nat, bytes: Bytes, n: nat, c: Call, h: U32)
    requires Sized(s) && ci < MAX_CONN && s.conns[ci].used && Forwards(s, ci, bytes, n, c, h)
    ensures var m, t := Until(s, ci, bytes, n), ConnData(s, ci, bytes);
            && Waits(t, First(m.precv, RecvFree()), m.localCount + 1, s.conns[ci].sock, c.session)
            && m.out + [Forward(h, m.localCount + 1, c.payload)] <= t.out
  {
    var fs, m := Frames(s.conns[ci].rx + bytes), Until(s, ci, bytes, n);
    var s0 := s.(received := s.received + [(s.conns[ci].sock, bytes)]);
    InboundCut(s0, ci, fs, n);
    InboundKeeps(s0, ci, fs[..n]);
    SizedUntil(s, ci, bytes, n);
    ForwardWaitsOn(m, ci, fs[n], fs[n + 1..], c, h);
    WaitsRx(HandleFrames(s0, ci, fs), ci, Rest(s.conns[ci].rx + bytes), First(m.precv, RecvFree()), m.localCount + 1,
            s.conns[ci].sock, c.session);
  }

  /** A request is accepted, and a slot is free for its caller. */
  predicate Accepts(s: State, e: Event)
  {
    e.Send? && !e.push &&
    var ni := First(s.nodes, NodeIs(e.name));
    ni < |s.nodes| && NodeConnect(s, ni, e.kid).1 && First(s.psend, SendFree()) < |s.psend|
  }

  /** The request made of it. */
  function Asking(s: State, e: Event): Request
    requires e.Send?
  {
    Request(SessionOf(s.issued + 1), e.target, e.payload, e.push)
  }

  lemma SentRequest(s: State, ni: nat, r: Request)
    requires ni < |s.nodes| && Sendable(r) && r.session == NextSession(s.sendSession)
    ensures var t := SendRequest(s, ni, r.target, r.payload, r.push);
            t.requests == s.requests + [(s.nodes[ni].sock, r)] && ni < |t.nodes| && t.nodes[ni].sock == s.nodes[ni].sock
  {
    SendRequestIs(s, ni, r);
  }

  /** The request on the link, before its caller has a slot. */
  lemma SentOn(s: State, ni: nat, e: Event)
    requires Inv(s) && e.Send? && WellFormed(e) && ni < MAX_NODE && s.nodes[ni].sock >= 0 && !e.push
    ensures var t := SendRequest(s, ni, e.target, e.payload, false);
            && t.psend == s.psend && ni < |t.nodes| && t.requests == s.requests + [(t.nodes[ni].sock, Asking(s, e))]
            && t.issued == s.issued + 1 && t.sendSession == SessionOf(s.issued + 1)
  {
    NextSessionIs(s.issued);
    SentRequest(s, ni, Asking(s, e));
    GoodSendRequest(s, ni, e.target, e.payload, false);
    SentSession(s, SendRequest(s, ni, e.target, e.payload, false));
  }

  lemma LinkUp(s: State, e: Event) returns (ni: nat, t: State)
    requires Inv(s) && Sized(s) && WellFormed(e) && Fresh(s, e) && Accepts(s, e)
    ensures ni == First(s.nodes, NodeIs(e.name)) < |s.nodes| && NodeConnect(s, ni, e.kid) == (t, true)
    ensures Inv(t) && t.nodes[ni].sock >= 0 && t.psend == s.psend && t.requests == s.requests && t.issued == s.issued
  {
    ni := First(s.nodes, NodeIs(e.name));
    assert NodeIs(e.name)(s.nodes[ni]);
    GoodConnect(s, ni, e.kid);
    t := NodeConnect(s, ni, e.kid).0;
  }

  lemma OnSendIs(s: State, e: Event, ni: nat, s1: State, s2: State)
    requires Sized(s) && e.Send? && WellFormed(e) && !e.push && ni == First(s.nodes, NodeIs(e.name)) < |s.nodes|
    requires NodeConnect(s, ni, e.kid) == (s1, true) && ni < |s1.nodes| && s2 == SendRequest(s1, ni, e.target, e.payload, false)
    requires First(s2.psend, SendFree()) < |s2.psend|
    ensures Step(s, e) ==
            s2.(psend := s2.psend[First(s2.psend, SendFree()) := PSend(true, s2.sendSession, e.source, e.session, ni, s2.issued)])
  {
  }

  /** What is so after a request on node ni that took slot i. */
  ghost predicate Sent(s: State, t: State, e: Event, ni: nat, i: nat)
    requires e.Send?
  {
    && ni < |t.nodes| && i < |s.psend| && t.issued == s.issued + 1
    && t.psend == s.psend[i := PSend(true, Asking(s, e).session, e.source, e.session, ni, s.issued + 1)]
    && t.requests == s.requests + [(t.nodes[ni].sock, Asking(s, e))]
  }

  lemma SlotTaken(s: State, s2: State, e: Event, ni: nat)
    requires e.Send? && s2.psend == s.psend && First(s.psend, SendFree()) < |s.psend| && ni < |s2.nodes|
    requires s2.requests == s.requests + [(s2.nodes[ni].sock, Asking(s, e))]
    requires s2.issued == s.issued + 1 && s2.sendSession == SessionOf(s.issued + 1)
    ensures Sent(s, s2.(psend := s2.psend[First(s2.psend, SendFree()) := PSend(true, s2.sendSession, e.source, e.session, ni, s2.issued)]),
                 e, ni, First(s.psend, SendFree()))
  {
  }

  lemma SentFrom(s: State, e: Event, ni: nat, s1: State) returns (t: State)
    requires Sized(s) && e.Send? && WellFormed(e) && !e.push && ni == First(s.nodes, NodeIs(e.name)) < |s.nodes|
    requires NodeConnect(s, ni, e.kid) == (s1, true) && Inv(s1) && ni < MAX_NODE && s1.nodes[ni].sock >= 0
    requires s1.psend == s.psend && s1.requests == s.requests && s1.issued == s.issued && First(s.psend, SendFree()) < |s.psend|
    ensures t == Step(s, e) && Sent(s, t, e, ni, First(s.psend, SendFree()))
  {
    SentOn(s1, ni, e);
    var s2 := SendRequest(s1, ni, e.target, e.payload, false);
    OnSendIs(s, e, ni, s1, s2);
    SlotTaken(s, s2, e, ni);
    t := Step(s, e);
  }

  /** The request is entered for its node's socket, and its caller waits for exactly its session. */
  lemma SentWaits(s: State, e: Event)
    requires Inv(s) && Sized(s) && WellFormed(e) && Fresh(s, e) && Accepts(s, e)
    ensures Sent(s, Step(s, e), e, First(s.nodes, NodeIs(e.name)), First(s.psend, SendFree()))
  {
    var ni, s1 := LinkUp(s, e);
    var t := SentFrom(s, e, ni, s1);
  }

  lemma SentAlone(s: State, e: Event)
    requires Inv(s) && Sized(s) && WellFormed(e) && Fresh(s, e) && Accepts(s, e)
    requires forall j :: 0 <= j < |s.psend| && s.psend[j].used ==> s.issued + 1 - s.psend[j].issue < MAX_SESSION
    ensures Unambiguous(Step(s, e).psend, First(s.psend, SendFree()))
  {
    var t := Step(s, e);
    SentWaits(s, e);
    InvStep(s, e);
    RecentUnambiguous(t, First(s.psend, SendFree()));
  }

  /** There and back. A caller on one node asks, in state a0, and its request is accepted. Another node
      handles a frame of DATA that completes the call of that very request, which is for its local
      service h, and both nodes go on, whatever else happens to them, until the service has replied and
      the first has received what the second then wrote. Then h was given the request's payload, and
      the caller has its answer: what was replied. */
  lemma RoundTrip(a0: State, e: Event, b0: State, cb: nat, bytes: Bytes, n: nat, h: U32, bs: seq<Event>,
                  ok: bool, payload: Bytes, es: seq<Event>, ci: nat)
    requires Inv(a0) && Sized(a0) && WellFormed(e) && Fresh(a0, e) && Accepts(a0, e)
    requires forall j :: 0 <= j < |a0.psend| && a0.psend[j].used ==> a0.issued + 1 - a0.psend[j].issue < MAX_SESSION
    requires Inv(b0) && Sized(b0) && cb < MAX_CONN && b0.conns[cb].used && Forwards(b0, cb, bytes, n, CallOf(Asking(a0, e)), h)
    requires |payload| < TWO_32
    requires var b, ls := ConnData(b0, cb, bytes), Until(b0, cb, bytes, n).localCount + 1;
             Sized(b) && Legal(b, bs) && Undisturbed(bs, ls, b0.conns[cb].sock)
    requires var a, i := Step(a0, e), First(a0.psend, SendFree());
             && Sized(a) && Legal(a, es) && ci < MAX_CONN && a.conns[ci].used && a.conns[ci].outbound && a.conns[ci].rx == []
             && i < |a.psend| && Kept(a, es, a.conns[ci].sock, [Due(i, a.psend[i], ok, if ok then payload else ERROR)])
    requires var a, t, ls := Step(a0, e), Run(ConnData(b0, cb, bytes), bs), Until(b0, cb, bytes, n).localCount + 1;
             Sized(t) && Heard(es, a.conns[ci].sock) == ReplyBytes(t, ls, ok, payload, b0.conns[cb].sock)
    ensures var m := Until(b0, cb, bytes, n);
            m.out + [Forward(h, m.localCount + 1, e.payload)] <= ConnData(b0, cb, bytes).out
    ensures var a := Step(a0, e);
            PutOut(a, es, a.conns[ci].sock) == [Answer(e.source, e.session, ok, if ok then payload else [])]
  {
    var a, i := Step(a0, e), First(a0.psend, SendFree());
    InvStep(a0, e);
    SentWaits(a0, e);
    SentAlone(a0, e);
    var b, m := ConnData(b0, cb, bytes), Until(b0, cb, bytes, n);
    GoodData(b0, cb, bytes);
    DataForwards(b0, cb, bytes, n, CallOf(Asking(a0, e)), h);
    ReplyCrosses(b, bs, First(m.precv, RecvFree()), m.localCount + 1, b0.conns[cb].sock, ok, payload, a, es, ci, i);
  }
}
