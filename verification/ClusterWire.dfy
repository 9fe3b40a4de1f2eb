/**
 The cluster wire protocol of skyclusterd.c: how a request becomes frames, how the
 receiving connection turns frames back into calls, and the same for responses.
 Both directions reassemble large bodies chunk by chunk in a `Reasm`.
 */
module ClusterWire {
  import opened Wrappers
  import opened Bytes
  import opened Framing

  const MULTI_PART: int := 0x8000
  const MAX_NAME: int := 64
  const MAX_SESSION: int := 0x7fff_ffff

  const FREQ_SMALL_ID: Byte := 0
  const FREQ_LARGE_ID: Byte := 1
  const FPUSH_LARGE_ID: Byte := 0x41
  const FPART: Byte := 2
  const FPART_END: Byte := 3
  const FREQ_SMALL_NAME: Byte := 0x80
  const FREQ_LARGE_NAME: Byte := 0x81
  const FPUSH_LARGE_NAME: Byte := 0xc1

  const RESP_ERR: Byte := 0
  const RESP_OK: Byte := 1
  const RESP_MULTI_BEGIN: Byte := 2
  const RESP_MULTI_PART: Byte := 3
  const RESP_MULTI_END: Byte := 4

  datatype Target = Addr(addr: U32) | Named(name: Bytes)

  /** A name that fits the 64-byte C strings both ends keep it in. */
  predicate ValidTarget(t: Target)
  {
    t.Named? ==> |t.name| < MAX_NAME && 0 !in t.name
  }

  /** What a connection hands to the local service (is_push, session, addr or name, payload). */
  datatype Call = Call(push: bool, session: U32, target: Target, payload: Bytes)

  /* ---- sending ---- */

  function SmallHead(t: Target, field: U32): Bytes
    requires ValidTarget(t)
  {
    match t
    case Addr(a) => [FREQ_SMALL_ID] + LE32(a) + LE32(field)
    case Named(n) => [FREQ_SMALL_NAME, |n|] + n + LE32(field)
  }

  function LargeHead(t: Target, field: U32, total: U32, push: bool): Bytes
    requires ValidTarget(t)
  {
    match t
    case Addr(a) => [if push then FPUSH_LARGE_ID else FREQ_LARGE_ID] + LE32(a) + LE32(field) + LE32(total)
    case Named(n) =>
      [if push then FPUSH_LARGE_NAME else FREQ_LARGE_NAME, |n|] + n + LE32(field) + LE32(total)
  }

  function Part(session: U32, last: bool, data: Bytes): Bytes
  {
    [if last then FPART_END else FPART] + LE32(session) + data
  }

  function Parts(session: U32, p: Bytes): seq<Bytes>
  {
    if p == [] then []
    else if |p| > MULTI_PART then [Part(session, false, p[..MULTI_PART])] + Parts(session, p[MULTI_PART..])
    else [Part(session, true, p)]
  }

  /** The frames node_send_request emits; a push carries session 0 in its first frame. */
  function RequestFrames(session: U32, t: Target, payload: Bytes, push: bool): seq<Bytes>
    requires ValidTarget(t)
  {
    var field := if push then 0 else session;
    if |payload| < MULTI_PART then [SmallHead(t, field) + payload]
    else [LargeHead(t, field, |payload| % TWO_32, push)] + Parts(session, payload)
  }

  /* ---- reassembly ---- */

  datatype Reasm = Reasm(active: bool, session: U32, total: U32, buf: Bytes)

  const IDLE := Reasm(false, 0, 0, [])

  function ReasmStart(session: U32, total: U32): Reasm
  {
    Reasm(true, session, total, [])
  }

  function ReasmChunk(r: Reasm, session: U32, last: bool, data: Bytes): (Reasm, Option<Bytes>)
  {
    if !r.active || r.session != session then (r, None)
    else if |r.buf| + |data| > r.total then (r, None)
    else if !last then (r.(buf := r.buf + data), None)
    else (r.(active := false, buf := []), Some(r.buf + data))
  }

  /* ---- receiving requests ---- */

  datatype Inbound = Inbound(rq: Reasm, target: Target, push: bool)

  datatype Parsed =
    | Ignored
    | Small(session: U32, target: Target, payload: Bytes)
    | Large(session: U32, target: Target, total: U32, push: bool)
    | Chunk(session: U32, last: bool, payload: Bytes)

  /** The C string at the front of a buffer. */
  function CStr(b: Bytes): (r: Bytes)
    ensures 0 !in r && r <= b
  {
    if b == [] || b[0] == 0 then [] else [b[0]] + CStr(b[1..])
  }

  lemma {:induction false} CStrWhole(b: Bytes)
    requires 0 !in b
    ensures CStr(b) == b
  {
    if b != [] {
      CStrWhole(b[1..]);
    }
  }

  /** The switch of handle_request over the frame type. */
  function ParseRequest(f: Bytes): Parsed
  {
    if f == [] then Ignored
    else if f[0] == FREQ_SMALL_ID then
      if |f| < 9 then Ignored else Small(Get32(f[5..]), Addr(Get32(f[1..])), f[9..])
    else if f[0] == FREQ_LARGE_ID || f[0] == FPUSH_LARGE_ID then
      if |f| < 13 then Ignored
      else Large(Get32(f[5..]), Addr(Get32(f[1..])), Get32(f[9..]), f[0] == FPUSH_LARGE_ID)
    else if f[0] == FREQ_SMALL_NAME then
      if |f| < 6 || f[1] >= MAX_NAME || |f| < f[1] as int + 6 then Ignored
      else
        var n: int := f[1];
        Small(Get32(f[2 + n..]), Named(CStr(f[2..2 + n])), f[6 + n..])
    else if f[0] == FREQ_LARGE_NAME || f[0] == FPUSH_LARGE_NAME then
      if |f| < 10 || f[1] >= MAX_NAME || |f| < f[1] as int + 10 then Ignored
      else
        var n: int := f[1];
        Large(Get32(f[2 + n..]), Named(CStr(f[2..2 + n])), Get32(f[6 + n..]), f[0] == FPUSH_LARGE_NAME)
    else if f[0] == FPART || f[0] == FPART_END then
      if |f| < 5 then Ignored else Chunk(Get32(f[1..]), f[0] == FPART_END, f[5..])
    else Ignored
  }

  /** handle_request: the connection's new reassembly state and the calls it dispatches. */
  function InStep(q: Inbound, f: Bytes): (Inbound, seq<Call>)
  {
    match ParseRequest(f)
    case Ignored => (q, [])
    case Small(session, t, payload) => (q, [Call(session == 0, session, t, payload)])
    case Large(session, t, total, push) => (Inbound(ReasmStart(session, total), t, push), [])
    case Chunk(session, last, payload) =>
      var (r, done) := ReasmChunk(q.rq, session, last, payload);
      (q.(rq := r), if done.Some? then [Call(q.push, q.rq.session, q.target, done.value)] else [])
  }

  function InFold(q: Inbound, fs: seq<Bytes>): (Inbound, seq<Call>)
    decreases |fs|
  {
    if fs == [] then (q, [])
    else
      var (q1, c1) := InStep(q, fs[0]);
      var (q2, c2) := InFold(q1, fs[1..]);
      (q2, c1 + c2)
  }

  lemma {:induction false} InFoldAppend(q: Inbound, a: seq<Bytes>, b: seq<Bytes>)
    ensures InFold(q, a + b).0 == InFold(InFold(q, a).0, b).0
    ensures InFold(q, a + b).1 == InFold(q, a).1 + InFold(InFold(q, a).0, b).1
    decreases |a|
  {
    if a == [] {
      assert a + b == b;
    } else {
      InFoldAppend(InStep(q, a[0]).0, a[1..], b);
      assert (a + b)[1..] == a[1..] + b;
    }
  }

  lemma InFoldOne(q: Inbound, f: Bytes)
    ensures InFold(q, [f]) == InStep(q, f)
  {
    var (q1, c1) := InStep(q, f);
    assert [f][1..] == [] && InFold(q1, []) == (q1, []) && c1 + [] == c1;
  }

  /* ---- request round trip ---- */

  lemma ParseSmall(t: Target, field: U32, payload: Bytes)
    requires ValidTarget(t)
    ensures ParseRequest(SmallHead(t, field) + payload) == Small(field, t, payload)
  {
    var f := SmallHead(t, field) + payload;
    match t {
      case Addr(a) =>
        assert f[1..][..4] == LE32(a) && f[5..][..4] == LE32(field) && f[9..] == payload;
      case Named(n) =>
        assert f[2 + |n|..][..4] == LE32(field) && f[2..2 + |n|] == n && f[6 + |n|..] == payload;
        CStrWhole(n);
    }
  }

  lemma ParseLarge(t: Target, field: U32, total: U32, push: bool)
    requires ValidTarget(t)
    ensures ParseRequest(LargeHead(t, field, total, push)) == Large(field, t, total, push)
  {
    var f := LargeHead(t, field, total, push);
    match t {
      case Addr(a) =>
        assert f[1..][..4] == LE32(a) && f[5..][..4] == LE32(field) && f[9..][..4] == LE32(total);
      case Named(n) =>
        assert f[2 + |n|..][..4] == LE32(field) && f[2..2 + |n|] == n && f[6 + |n|..][..4] == LE32(total);
        CStrWhole(n);
    }
  }

  lemma ParsePart(session: U32, last: bool, data: Bytes)
    ensures ParseRequest(Part(session, last, data)) == Chunk(session, last, data)
  {
    var f := Part(session, last, data);
    assert f[1..][..4] == LE32(session) && f[5..] == data;
  }

  /** The chunks of a body complete the reassembly that expects them. */
  lemma {:induction false} PartsComplete(q: Inbound, p: Bytes)
    requires q.rq.active && p != [] && |q.rq.buf| + |p| <= q.rq.total
    ensures InFold(q, Parts(q.rq.session, p)).1 == [Call(q.push, q.rq.session, q.target, q.rq.buf + p)]
    decreases |p|
  {
    var session := q.rq.session;
    if |p| > MULTI_PART {
      var d, z := p[..MULTI_PART], p[MULTI_PART..];
      ParsePart(session, false, d);
      var q1 := InStep(q, Part(session, false, d)).0;
      PartsComplete(q1, z);
      assert q.rq.buf + p == q.rq.buf + d + z;
      assert Parts(session, p)[1..] == Parts(session, z);
    } else {
      ParsePart(session, true, p);
      InFoldOne(q, Part(session, true, p));
    }
  }

  /** Chunks of any other session are dropped without trace. */
  lemma {:induction false} PartsDropped(q: Inbound, session: U32, p: Bytes)
    requires q.rq.session != session
    ensures InFold(q, Parts(session, p)) == (q, [])
    decreases |p|
  {
    if |p| > MULTI_PART {
      ParsePart(session, false, p[..MULTI_PART]);
      PartsDropped(q, session, p[MULTI_PART..]);
      assert Parts(session, p)[1..] == Parts(session, p[MULTI_PART..]);
    } else if p != [] {
      ParsePart(session, true, p);
      InFoldOne(q, Part(session, true, p));
    }
  }

  datatype Request = Request(session: U32, target: Target, payload: Bytes, push: bool)

  /** What node_send_request may be asked to send. */
  predicate Sendable(r: Request)
  {
    1 <= r.session <= MAX_SESSION && ValidTarget(r.target) && |r.payload| < TWO_32
  }

  /** A push too large for one frame: the one kind of request the receiver loses. */
  predicate LostOnWire(r: Request)
  {
    r.push && |r.payload| >= MULTI_PART
  }

  function CallOf(r: Request): Call
  {
    Call(r.push, if r.push then 0 else r.session, r.target, r.payload)
  }

  function FramesOf(r: Request): seq<Bytes>
    requires Sendable(r)
  {
    RequestFrames(r.session, r.target, r.payload, r.push)
  }

  lemma LargeRequestArrives(q: Inbound, r: Request)
    requires Sendable(r) && |r.payload| >= MULTI_PART
    ensures InFold(q, FramesOf(r)).1 == if LostOnWire(r) then [] else [CallOf(r)]
  {
    var field := if r.push then 0 else r.session;
    var total := |r.payload| % TWO_32;
    assert total == |r.payload|;
    var h := LargeHead(r.target, field, total, r.push);
    ParseLarge(r.target, field, total, r.push);
    var q1 := Inbound(ReasmStart(field, total), r.target, r.push);
    var parts := Parts(r.session, r.payload);
    assert InStep(q, h) == (q1, []);
    assert InFold(q, FramesOf(r)).1 == InFold(q1, parts).1 by {
      assert FramesOf(r) == [h] + parts;
      assert FramesOf(r)[1..] == parts;
    }
    if r.push {
      PartsDropped(q1, r.session, r.payload);
    } else {
      PartsComplete(q1, r.payload);
      assert [] + r.payload == r.payload;
    }
  }

  /** One request, whatever the connection was reassembling before: exactly its call comes out,
      unless it is a large push, and then nothing does. */
  lemma RequestArrives(q: Inbound, r: Request)
    requires Sendable(r)
    ensures InFold(q, FramesOf(r)).1 == if LostOnWire(r) then [] else [CallOf(r)]
  {
    if |r.payload| < MULTI_PART {
      var field := if r.push then 0 else r.session;
      ParseSmall(r.target, field, r.payload);
      InFoldOne(q, SmallHead(r.target, field) + r.payload);
    } else {
      LargeRequestArrives(q, r);
    }
  }

  /** A request reaches the remote dispatcher if and only if it is not a large push. */
  lemma RequestArrivesIff(q: Inbound, r: Request)
    requires Sendable(r)
    ensures InFold(q, FramesOf(r)).1 == [CallOf(r)] <==> !LostOnWire(r)
  {
    RequestArrives(q, r);
  }

  lemma {:induction false} PartsFit(session: U32, p: Bytes)
    ensures Packable(Parts(session, p))
    decreases |p|
  {
    if |p| > MULTI_PART {
      PartsFit(session, p[MULTI_PART..]);
    }
  }

  /** Every frame fits its 16-bit length. */
  lemma RequestFits(session: U32, t: Target, payload: Bytes, push: bool)
    requires ValidTarget(t)
    ensures Packable(RequestFrames(session, t, payload, push))
  {
    PartsFit(session, payload);
  }

  function AllFrames(rs: seq<Request>): seq<Bytes>
    requires forall r :: r in rs ==> Sendable(r)
  {
    if rs == [] then [] else FramesOf(rs[0]) + AllFrames(rs[1..])
  }

  /** The bytes the frames of all requests make on the socket. */
  function Wire(rs: seq<Request>): Bytes
    requires forall r :: r in rs ==> Sendable(r)
  {
    AllFramesFit(rs);
    PackAll(AllFrames(rs))
  }

  function AllCalls(rs: seq<Request>): seq<Call>
  {
    if rs == [] then []
    else (if LostOnWire(rs[0]) then [] else [CallOf(rs[0])]) + AllCalls(rs[1..])
  }

  lemma {:induction false} RequestsArrive(q: Inbound, rs: seq<Request>)
    requires forall r :: r in rs ==> Sendable(r)
    ensures InFold(q, AllFrames(rs)).1 == AllCalls(rs)
    decreases |rs|
  {
    if rs != [] {
      var f, z := FramesOf(rs[0]), AllFrames(rs[1..]);
      RequestArrives(q, rs[0]);
      RequestsArrive(InFold(q, f).0, rs[1..]);
      InFoldAppend(q, f, z);
    }
  }

  lemma {:induction false} AllFramesFit(rs: seq<Request>)
    requires forall r :: r in rs ==> Sendable(r)
    ensures Packable(AllFrames(rs))
  {
    if rs != [] {
      assert Sendable(rs[0]);
      RequestFits(rs[0].session, rs[0].target, rs[0].payload, rs[0].push);
      AllFramesFit(rs[1..]);
    }
  }

  /* ---- the receiving end of a link ---- */

  datatype Link = Link(rx: Bytes, q: Inbound)

  /** conn_data on an inbound connection: append, then handle every complete frame. */
  function Receive(l: Link, data: Bytes): (Link, seq<Call>)
  {
    var (q, calls) := InFold(l.q, Frames(l.rx + data));
    (Link(Rest(l.rx + data), q), calls)
  }

  function ReceiveAll(l: Link, chunks: seq<Bytes>): (Link, seq<Call>)
    decreases |chunks|
  {
    if chunks == [] then (l, [])
    else
      var (l1, c1) := Receive(l, chunks[0]);
      var (l2, c2) := ReceiveAll(l1, chunks[1..]);
      (l2, c1 + c2)
  }

  lemma ReceiveNothing(l: Link)
    requires !HasFrame(l.rx)
    ensures Receive(l, []) == (l, [])
  {
    assert l.rx + [] == l.rx;
  }

  /** How the bytes are cut into DATA events does not matter. */
  lemma {:induction false} CutsDoNotMatter(l: Link, chunks: seq<Bytes>)
    requires !HasFrame(l.rx)
    ensures ReceiveAll(l, chunks) == Receive(l, Flatten(chunks))
    decreases |chunks|
  {
    if chunks == [] {
      ReceiveNothing(l);
    } else {
      var d, z := chunks[0], Flatten(chunks[1..]);
      var l1 := Receive(l, d).0;
      CutsDoNotMatter(l1, chunks[1..]);
      SplitAppend(l.rx + d, z);
      InFoldAppend(l.q, Frames(l.rx + d), Frames(l1.rx + z));
      Assoc(l.rx, d, z);
    }
  }

  /** The request path of the wire: any list of requests, cut anywhere, on a connection in any
      reassembly state, is dispatched once each and in order (large pushes excepted), with the
      same target, session and payload, and nothing is left in the receive buffer. */
  lemma RequestPath(q: Inbound, rs: seq<Request>, chunks: seq<Bytes>)
    requires forall r :: r in rs ==> Sendable(r)
    requires Flatten(chunks) == Wire(rs)
    ensures ReceiveAll(Link([], q), chunks).1 == AllCalls(rs)
    ensures ReceiveAll(Link([], q), chunks).0.rx == []
  {
    var l := Link([], q);
    CutsDoNotMatter(l, chunks);
    RequestsArrive(q, rs);
    AllFramesFit(rs);
    var b := Wire(rs);
    assert [] + b == b && b + [] == b;
    SplitUnique(AllFrames(rs), []);
  }

  /* ---- responses ---- */

  function ResponseFrame(session: U32, kind: Byte, data: Bytes): Bytes
  {
    LE32(session) + [kind] + data
  }

  function ResponseParts(session: U32, p: Bytes): seq<Bytes>
  {
    if |p| > MULTI_PART then
      [ResponseFrame(session, RESP_MULTI_PART, p[..MULTI_PART])] + ResponseParts(session, p[MULTI_PART..])
    else [ResponseFrame(session, RESP_MULTI_END, p)]
  }

  /** The frames conn_send_response writes for one reply. */
  function ResponseFrames(session: U32, ok: bool, payload: Bytes): seq<Bytes>
  {
    if |payload| <= MULTI_PART then [ResponseFrame(session, if ok then RESP_OK else RESP_ERR, payload)]
    else [ResponseFrame(session, RESP_MULTI_BEGIN, LE32(|payload| % TWO_32))] + ResponseParts(session, payload)
  }

  lemma {:induction false} ResponsePartsFit(session: U32, p: Bytes)
    ensures Packable(ResponseParts(session, p))
    decreases |p|
  {
    if |p| > MULTI_PART {
      ResponsePartsFit(session, p[MULTI_PART..]);
    }
  }

  lemma ResponseFits(session: U32, ok: bool, payload: Bytes)
    ensures Packable(ResponseFrames(session, ok, payload))
  {
    ResponsePartsFit(session, payload);
  }

  datatype Reply =
    | NoReply
    | Failure(session: U32)
    | Begin(session: U32, total: U32)
    | Piece(session: U32, last: bool, data: Bytes)
    | Whole(session: U32, data: Bytes)

  /** The type switch of handle_response; any type that is not 0, 2, 3 or 4 counts as RESP_OK. */
  function ParseResponse(f: Bytes): Reply
  {
    if |f| < 5 then NoReply
    else
      var session, kind, payload := Get32(f), f[4], f[5..];
      if kind == RESP_ERR then Failure(session)
      else if kind == RESP_MULTI_BEGIN then if |f| < 9 then NoReply else Begin(session, Get32(payload))
      else if kind == RESP_MULTI_PART || kind == RESP_MULTI_END then Piece(session, kind == RESP_MULTI_END, payload)
      else Whole(session, payload)
  }

  lemma ParseResponseFrame(session: U32, kind: Byte, data: Bytes)
    ensures var f := ResponseFrame(session, kind, data);
            |f| == 5 + |data| && Get32(f) == session && f[4] == kind && f[5..] == data
  {
    var f := ResponseFrame(session, kind, data);
    assert f[..4] == LE32(session) && f[5..] == data;
  }
}
