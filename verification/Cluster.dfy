/**
 The state machine of skyclusterd.c. `Step` is one message delivered to the service.
 The last fields of `State` are history: the socket ids the kernel handed out, and per socket
 the requests and frames meant for it, the bytes an inbound one delivered and its calls;
 the number of sessions drawn; and everything sent to sockets and local services, in order.
 */
module Cluster {
  import opened Wrappers
  import opened Bytes
  import opened Logs
  import opened Framing
  import opened ClusterWire

  const MAX_NODE: nat := 32
  const MAX_CONN: nat := 64
  const MAX_PENDING: nat := 1024

  datatype Node = Node(used: bool, name: Bytes, port: int, sock: int, connecting: bool, queue: seq<Bytes>)

  datatype Conn = Conn(used: bool, sock: int, rx: Bytes, inbound: Inbound, outbound: bool, ready: bool, rs: Reasm)

  /** A request forwarded to a local service, awaiting its reply. */
  datatype PRecv = PRecv(used: bool, localSession: int, connId: nat, remoteSession: U32)

  /** A request sent to a remote node, awaiting its reply; `issue` counts the sessions drawn. */
  datatype PSend = PSend(used: bool, remoteSession: U32, source: U32, jsSession: int, nodeIdx: nat, issue: nat)

  datatype NameEntry = NameEntry(used: bool, name: Bytes, handle: U32)

  /** What the service puts out. A socket is given bytes only: whether a frame was sent as a request is
      history. */
  datatype Out =
    | Wrote(sock: int, frame: Bytes, request: bool)
    | Answer(dest: U32, session: int, ok: bool, payload: Bytes)
    | Forward(handle: U32, session: int, payload: Bytes)

  datatype State = State(
    nodes: seq<Node>, conns: seq<Conn>, precv: seq<PRecv>, psend: seq<PSend>, names: seq<NameEntry>,
    sendSession: U32, localCount: nat,
    sockets: set<int>, requests: seq<(int, Request)>, emitted: seq<(int, Bytes)>,
    received: seq<(int, Bytes)>, dispatched: seq<(int, Call)>, issued: nat, out: seq<Out>)

  datatype Event =
    | Connected(id: int)
    | Accepted(id: int)
    | Data(id: int, bytes: Bytes)
    | Closed(id: int)
    | Listen(source: U32, session: int)
    | Register(source: U32, session: int, name: Bytes)
    | NodeAt(source: U32, session: int, name: Bytes, port: int, kid: int)
    | Send(source: U32, session: int, name: Bytes, target: Target, payload: Bytes, push: bool, kid: int)
    | LocalDone(session: int, ok: bool, payload: Bytes)

  const NO_INBOUND := Inbound(IDLE, Addr(0), false)
  const NO_CONN := Conn(false, 0, [], NO_INBOUND, false, false, IDLE)
  const NO_NODE := Node(false, [], 0, -1, false, [])
  const NO_PRECV := PRecv(false, 0, 0, 0)
  const NO_PSEND := PSend(false, 0, 0, 0, 0, 0)
  const NO_NAME := NameEntry(false, [], 0)

  function Init(): (s: State)
    ensures Sized(s)
  {
    State(seq(MAX_NODE, _ => NO_NODE), seq(MAX_CONN, _ => NO_CONN), seq(MAX_PENDING, _ => NO_PRECV),
          seq(MAX_PENDING, _ => NO_PSEND), seq(MAX_NODE, _ => NO_NAME), 0, 0, {}, [], [], [], [], 0, [])
  }

  predicate Sized(s: State)
  {
    |s.nodes| == MAX_NODE && |s.conns| == MAX_CONN && |s.precv| == MAX_PENDING &&
    |s.psend| == MAX_PENDING && |s.names| == MAX_NODE &&
    forall i :: 0 <= i < MAX_PENDING ==> s.precv[i].connId < MAX_CONN
  }

  /* ---- slot scans ---- */

  function ConnIs(sock: int): Conn -> bool { (c: Conn) => c.used && c.sock == sock }
  function ConnFree(): Conn -> bool { (c: Conn) => !c.used }
  function NodeIs(name: Bytes): Node -> bool { (n: Node) => n.used && n.name == name }
  function NodeFree(): Node -> bool { (n: Node) => !n.used }
  function NodeOn(sock: int): Node -> bool { (n: Node) => n.used && n.sock == sock }
  function RecvFree(): PRecv -> bool { (p: PRecv) => !p.used }
  function RecvIs(session: int): PRecv -> bool { (p: PRecv) => p.used && p.localSession == session }
  function SendFree(): PSend -> bool { (p: PSend) => !p.used }
  function SendIs(session: U32): PSend -> bool { (p: PSend) => p.used && p.remoteSession == session }
  function CallerIs(session: int): PSend -> bool { (p: PSend) => p.used && p.jsSession == session }
  function NameFree(): NameEntry -> bool { (e: NameEntry) => !e.used }
  function EntryIs(name: Bytes): NameEntry -> bool { (e: NameEntry) => e.used && e.name == name }

  function ConnAt(s: State, sock: int): nat { First(s.conns, ConnIs(sock)) }

  /* ---- socket output ---- */

  function Writes(sock: int, fs: seq<Bytes>): (r: seq<Out>)
    requires Packable(fs)
  {
    if fs == [] then [] else [Wrote(sock, Pack(fs[0]), false)] + Writes(sock, fs[1..])
  }

  /** conn_send_response. */
  function SendResponse(s: State, ci: nat, session: U32, ok: bool, payload: Bytes): State
    requires ci < |s.conns|
  {
    ResponseFits(session, ok, payload);
    s.(out := s.out + Writes(s.conns[ci].sock, ResponseFrames(session, ok, payload)))
  }

  /** The request leaves its slot, and its caller gets the one answer. */
  function Settle(s: State, i: nat, ok: bool, payload: Bytes): State
    requires i < |s.psend|
  {
    var p := s.psend[i];
    s.(psend := s.psend[i := p.(used := false)], out := s.out + [Answer(p.source, p.jsSession, ok, payload)])
  }

  /* ---- responses ---- */

  function HandleResponse(s: State, ci: nat, f: Bytes): State
    requires ci < |s.conns|
  {
    var m := ParseResponse(f);
    if m.NoReply? then s
    else
      var i := First(s.psend, SendIs(m.session));
      if i == |s.psend| then s
      else
        match m
        case Failure(_) => Settle(s, i, false, [])
        case Begin(session, total) =>
          s.(conns := s.conns[ci := s.conns[ci].(rs := ReasmStart(session, total))])
        case Piece(session, last, data) =>
          var (r, done) := ReasmChunk(s.conns[ci].rs, session, last, data);
          var s1 := s.(conns := s.conns[ci := s.conns[ci].(rs := r)]);
          if done.Some? then Settle(s1, i, true, done.value) else s1
        case Whole(_, data) => Settle(s, i, true, data)
  }

  /* ---- requests ---- */

  const INVALID_NAME: Bytes := [73, 110, 118, 97, 108, 105, 100, 32, 110, 97, 109, 101]  // "Invalid name"
  const NAME_NOT_FOUND: Bytes := [110, 97, 109, 101, 32, 110, 111, 116, 32, 102, 111, 117, 110, 100]  // "name not found"
  const CLUSTERD_BUSY: Bytes := [99, 108, 117, 115, 116, 101, 114, 100, 32, 98, 117, 115, 121]  // "clusterd busy"
  const ERROR: Bytes := [101, 114, 114, 111, 114]  // "error"

  function NameLookup(names: seq<NameEntry>, name: Bytes): U32
  {
    var key := if name != [] && name[0] == 0x40 then name[1..] else name;
    var i := First(names, EntryIs(key));
    if i < |names| then names[i].handle else 0
  }

  /** seri_first_string: the payload's first value, if it is a short string. */
  function SeriFirstString(b: Bytes): Option<Bytes>
  {
    if b == [] || b[0] % 8 != 4 || b[0] / 8 + 1 > |b| then None else Some(b[1..1 + b[0] as int / 8])
  }

  /** seri_pack_int, for any 64-bit integer. */
  function SeriPackInt(v: int): Bytes
    requires -0x8000_0000_0000_0000 <= v < 0x8000_0000_0000_0000
  {
    if !(-TWO_31 <= v < TWO_31) then [50] + LE(v % TWO_64, 8)
    else if v < 0 then [34] + LE(v % TWO_32, 4)
    else if v < 0x100 then [10] + LE(v, 1)
    else if v < 0x10000 then [18] + LE(v, 2)
    else [34] + LE(v, 4)
  }

  /** The reply to a request for address 0: the handle registered under the queried name. */
  function NameQuery(s: State, ci: nat, c: Call): State
    requires ci < |s.conns|
  {
    var q := SeriFirstString(c.payload);
    if q.None? then
      if c.push then s else SendResponse(s, ci, c.session, false, INVALID_NAME)
    else
      var name := CStr(if |q.value| < MAX_NAME - 1 then q.value else q.value[..MAX_NAME - 1]);
      var handle := NameLookup(s.names, name);
      if handle != 0 then SendResponse(s, ci, c.session, true, SeriPackInt(handle))
      else SendResponse(s, ci, c.session, false, NAME_NOT_FOUND)
  }

  function ForwardCall(s: State, ci: nat, c: Call, handle: U32): State
    requires ci < |s.conns|
  {
    var ls := s.localCount + 1;
    var s1 := s.(localCount := ls);
    var i := First(s.precv, RecvFree());
    if i == |s.precv| then
      if c.push then s1 else SendResponse(s1, ci, c.session, false, CLUSTERD_BUSY)
    else
      s1.(precv := s.precv[i := PRecv(!c.push, ls, ci, c.session)],
          out := s.out + [Forward(handle, if c.push then 0 else ls, c.payload)])
  }

  function Dispatch(s: State, ci: nat, c: Call): State
    requires ci < |s.conns|
  {
    match c.target
    case Addr(a) => if a == 0 then NameQuery(s, ci, c) else ForwardCall(s, ci, c, a)
    case Named(n) =>
      var handle := NameLookup(s.names, n);
      if handle != 0 then ForwardCall(s, ci, c, handle)
      else if c.push then s
      else SendResponse(s, ci, c.session, false, INVALID_NAME)
  }

  /** The connection moves on to reassembly state q, and `calls` are about to be dispatched. */
  function Absorb(s: State, ci: nat, q: Inbound, calls: seq<Call>): State
    requires ci < |s.conns|
  {
    s.(conns := s.conns[ci := s.conns[ci].(inbound := q)],
       dispatched := s.dispatched + Tag(s.conns[ci].sock, calls))
  }

  function HandleRequest(s: State, ci: nat, f: Bytes): State
    requires ci < |s.conns|
  {
    var (q, calls) := InStep(s.conns[ci].inbound, f);
    var s1 := Absorb(s, ci, q, calls);
    if calls == [] then s1 else Dispatch(s1, ci, calls[0])
  }

  /* ---- conn_data ---- */

  function HandleFrame(s: State, ci: nat, f: Bytes): State
    requires ci < |s.conns|
  {
    if s.conns[ci].outbound then HandleResponse(s, ci, f) else HandleRequest(s, ci, f)
  }

  function HandleFrames(s: State, ci: nat, fs: seq<Bytes>): (r: State)
    requires ci < |s.conns|
    decreases |fs|
  {
    if fs == [] then s
    else
      var s1 := HandleFrame(s, ci, fs[0]);
      if ci < |s1.conns| then HandleFrames(s1, ci, fs[1..]) else s1
  }

  function SetRx(s: State, ci: nat, rx: Bytes): State
    requires ci < |s.conns|
  {
    s.(conns := s.conns[ci := s.conns[ci].(rx := rx)])
  }

  function ConnData(s: State, ci: nat, bytes: Bytes): State
    requires ci < |s.conns|
  {
    var rx := s.conns[ci].rx + bytes;
    var s0 := if s.conns[ci].outbound then s else s.(received := s.received + [(s.conns[ci].sock, bytes)]);
    var s1 := HandleFrames(s0, ci, Frames(rx));
    if ci < |s1.conns| then SetRx(s1, ci, Rest(rx)) else s1
  }

  /* ---- sending side ---- */

  function AllocConn(conns: seq<Conn>, sock: int, outbound: bool, ready: bool): seq<Conn>
  {
    var i := First(conns, ConnFree());
    if i < |conns| then conns[i := NO_CONN.(used := true, sock := sock, outbound := outbound, ready := ready)]
    else conns
  }

  /** node_connect; `kid` is what skynet_socket_connect answers. */
  function NodeConnect(s: State, ni: nat, kid: int): (State, bool)
    requires ni < |s.nodes|
  {
    var n := s.nodes[ni];
    if n.sock >= 0 || n.connecting then (s, true)
    else if n.port == 0 || kid < 0 then (s, false)
    else (s.(nodes := s.nodes[ni := n.(sock := kid, connecting := true)],
             conns := AllocConn(s.conns, kid, true, false),
             sockets := s.sockets + {kid}), true)
  }

  function EmitFrame(s: State, ni: nat, content: Bytes): (r: State)
    requires ni < |s.nodes| && |content| < TWO_16
    ensures |r.nodes| == |s.nodes|
  {
    var n, frame := s.nodes[ni], Pack(content);
    var s1 := s.(emitted := s.emitted + [(n.sock, frame)]);
    var c := ConnAt(s, n.sock);
    if c < |s.conns| && s.conns[c].ready then s1.(out := s.out + [Wrote(s.conns[c].sock, frame, true)])
    else s1.(nodes := s.nodes[ni := n.(queue := n.queue + [frame])])
  }

  function EmitAll(s: State, ni: nat, fs: seq<Bytes>): (r: State)
    requires ni < |s.nodes| && Packable(fs)
    ensures |r.nodes| == |s.nodes|
    decreases |fs|
  {
    if fs == [] then s else EmitAll(EmitFrame(s, ni, fs[0]), ni, fs[1..])
  }

  function NextSession(cur: U32): U32
  {
    var n := (cur + 1) % TWO_32;
    if n > MAX_SESSION then 1 else n
  }

  /** The request's session is drawn, and the request entered in the log. */
  function Drawn(s: State, ni: nat, r: Request): State
    requires ni < |s.nodes|
  {
    s.(sendSession := r.session, issued := s.issued + 1, requests := s.requests + [(s.nodes[ni].sock, r)])
  }

  /** node_send_request; the new `sendSession` is the session it returns. */
  function SendRequest(s: State, ni: nat, t: Target, payload: Bytes, push: bool): State
    requires ni < |s.nodes| && ValidTarget(t)
  {
    var session := NextSession(s.sendSession);
    RequestFits(session, t, payload, push);
    EmitAll(Drawn(s, ni, Request(session, t, payload, push)), ni, RequestFrames(session, t, payload, push))
  }

  function Flushed(sock: int, queue: seq<Bytes>): seq<Out>
  {
    if queue == [] then [] else [Wrote(sock, queue[0], true)] + Flushed(sock, queue[1..])
  }

  function FlushQueue(s: State, ni: nat): State
    requires ni < |s.nodes|
  {
    var n := s.nodes[ni];
    var c := ConnAt(s, n.sock);
    if c == |s.conns| then s
    else s.(out := s.out + Flushed(s.conns[c].sock, n.queue), nodes := s.nodes[ni := n.(queue := [])])
  }

  /** The slots left, and the error answers sent, when node `ni` goes down. */
  function FailedSlots(ps: seq<PSend>, ni: nat): (r: seq<PSend>)
    ensures |r| == |ps|
  {
    if ps == [] then []
    else [ps[0].(used := ps[0].used && ps[0].nodeIdx != ni)] + FailedSlots(ps[1..], ni)
  }

  function FailedAnswers(ps: seq<PSend>, ni: nat): seq<Out>
  {
    if ps == [] then []
    else (if ps[0].used && ps[0].nodeIdx == ni then [Answer(ps[0].source, ps[0].jsSession, false, [])] else [])
         + FailedAnswers(ps[1..], ni)
  }

  function FailPending(s: State, ni: nat): State
    requires ni < |s.nodes|
  {
    s.(nodes := s.nodes[ni := s.nodes[ni].(queue := [])],
       psend := FailedSlots(s.psend, ni), out := s.out + FailedAnswers(s.psend, ni))
  }

  /* ---- events ---- */

  function OnConnected(s: State, id: int): State
  {
    var c := ConnAt(s, id);
    var s1 := if c < |s.conns| then s.(conns := s.conns[c := s.conns[c].(ready := true)]) else s;
    var ni := First(s1.nodes, NodeOn(id));
    if ni < |s1.nodes| then FlushQueue(s1, ni) else s1
  }

  function OnAccepted(s: State, id: int): State
  {
    s.(conns := AllocConn(s.conns, id, false, true), sockets := s.sockets + {id})
  }

  function OnClosed(s: State, id: int): State
  {
    var c := ConnAt(s, id);
    var s1 := if c < |s.conns| then s.(conns := s.conns[c := NO_CONN]) else s;
    var ni := First(s1.nodes, NodeOn(id));
    if ni < |s1.nodes| then
      FailPending(s1.(nodes := s1.nodes[ni := s1.nodes[ni].(sock := -1, connecting := false)]), ni)
    else s1
  }

  function Ack(s: State, source: U32, session: int): State
  {
    if session == 0 then s else s.(out := s.out + [Answer(source, session, true, [])])
  }

  function OnRegister(s: State, source: U32, session: int, name: Bytes): State
  {
    var i := First(s.names, NameFree());
    var s1 :=
      if i < |s.names| then s.(names := s.names[i := NameEntry(true, CStr(name[..if |name| < MAX_NAME then |name| else MAX_NAME - 1]), source)])
      else s;
    Ack(s1, source, session)
  }

  /** node_get, then the register-time connect attempt. */
  function OnNodeAt(s: State, source: U32, session: int, name: Bytes, port: int, kid: int): State
  {
    var i := First(s.nodes, NodeIs(name));
    var j := First(s.nodes, NodeFree());
    var ni := if i < |s.nodes| then i else j;
    var s1 :=
      if ni == |s.nodes| then s
      else
        var n := if i < |s.nodes| then s.nodes[i] else NO_NODE.(used := true, name := name);
        NodeConnect(s.(nodes := s.nodes[ni := n.(port := port)]), ni, kid).0;
    Ack(s1, source, session)
  }

  function OnSend(s: State, source: U32, session: int, name: Bytes, t: Target, payload: Bytes, push: bool, kid: int): State
    requires ValidTarget(t)
  {
    var ni := First(s.nodes, NodeIs(name));
    if ni == |s.nodes| then s.(out := s.out + [Answer(source, session, false, [])])
    else
      var (s1, up) := NodeConnect(s, ni, kid);
      if !up then s.(out := s.out + [Answer(source, session, false, [])])
      else
        var s2 := SendRequest(s1, ni, t, payload, push);
        if push then s2
        else
          var i := First(s2.psend, SendFree());
          if i == |s2.psend| then s2.(out := s2.out + [Answer(source, session, false, [])])
          else s2.(psend := s2.psend[i := PSend(true, s2.sendSession, source, session, ni, s2.issued)])
  }

  /** PTYPE_RESPONSE (ok) or PTYPE_ERROR (not ok) from a local service. */
  function OnLocalDone(s: State, session: int, ok: bool, payload: Bytes): State
    requires Sized(s)
  {
    var i := First(s.precv, RecvIs(session));
    if i < |s.precv| then
      var p := s.precv[i];
      var s1 :=
        if s.conns[p.connId].used
        then SendResponse(s, p.connId, p.remoteSession, ok, if ok then payload else ERROR)
        else s;
      s1.(precv := s1.precv[i := p.(used := false)])
    else
      var j := First(s.psend, CallerIs(session));
      if ok && j < |s.psend| then Settle(s, j, true, payload) else s
  }

  /** Commands arrive with node names and targets cut to 63 characters by the line parser. */
  predicate WellFormed(e: Event)
  {
    && (e.Send? ==> ValidTarget(e.target) && ValidTarget(Named(e.name)) && |e.payload| < TWO_32)
    && (e.NodeAt? ==> ValidTarget(Named(e.name)))
  }

  function Step(s: State, e: Event): State
    requires Sized(s) && WellFormed(e)
  {
    match e
    case Connected(id) => OnConnected(s, id)
    case Accepted(id) => OnAccepted(s, id)
    case Data(id, bytes) =>
      var c := ConnAt(s, id);
      if c < |s.conns| then ConnData(s, c, bytes) else s
    case Closed(id) => OnClosed(s, id)
    case Listen(source, session) => Ack(s, source, session)
    case Register(source, session, name) => OnRegister(s, source, session, name)
    case NodeAt(source, session, name, port, kid) => OnNodeAt(s, source, session, name, port, kid)
    case Send(source, session, name, t, payload, push, kid) =>
      OnSend(s, source, session, name, t, payload, push, kid)
    case LocalDone(session, ok, payload) => OnLocalDone(s, session, ok, payload)
  }

  /* ---- the tables keep their sizes ---- */

  lemma {:induction false} SizedEmit(s: State, ni: nat, fs: seq<Bytes>)
    requires Sized(s) && ni < |s.nodes| && Packable(fs)
    ensures Sized(EmitAll(s, ni, fs))
    decreases |fs|
  {
    if fs != [] {
      SizedEmit(EmitFrame(s, ni, fs[0]), ni, fs[1..]);
    }
  }

  lemma SizedDispatch(s: State, ci: nat, c: Call)
    requires Sized(s) && ci < |s.conns|
    ensures Sized(Dispatch(s, ci, c))
  {
  }

  lemma SizedFrame(s: State, ci: nat, f: Bytes)
    requires Sized(s) && ci < |s.conns|
    ensures Sized(HandleFrame(s, ci, f))
  {
    var (q, calls) := InStep(s.conns[ci].inbound, f);
    if !s.conns[ci].outbound && calls != [] {
      SizedDispatch(Absorb(s, ci, q, calls), ci, calls[0]);
    }
  }

  lemma {:induction false} SizedFrames(s: State, ci: nat, fs: seq<Bytes>)
    requires Sized(s) && ci < |s.conns|
    ensures Sized(HandleFrames(s, ci, fs))
    decreases |fs|
  {
    if fs != [] {
      SizedFrame(s, ci, fs[0]);
      SizedFrames(HandleFrame(s, ci, fs[0]), ci, fs[1..]);
    }
  }

  lemma SizedSend(s: State, e: Event)
    requires Sized(s) && e.Send? && WellFormed(e)
    ensures Sized(Step(s, e))
  {
    var ni := First(s.nodes, NodeIs(e.name));
    if ni < |s.nodes| {
      var s1 := NodeConnect(s, ni, e.kid).0;
      var session := NextSession(s.sendSession);
      RequestFits(session, e.target, e.payload, e.push);
      SizedEmit(Drawn(s1, ni, Request(session, e.target, e.payload, e.push)), ni, RequestFrames(session, e.target, e.payload, e.push));
    }
  }

  lemma SizedConnected(s: State, id: int)
    requires Sized(s)
    ensures Sized(OnConnected(s, id))
  {
  }

  lemma SizedClosed(s: State, id: int)
    requires Sized(s)
    ensures Sized(OnClosed(s, id))
  {
  }

  lemma SizedNodeAt(s: State, e: Event)
    requires Sized(s) && e.NodeAt? && WellFormed(e)
    ensures Sized(Step(s, e))
  {
  }

  lemma SizedLocalDone(s: State, session: int, ok: bool, payload: Bytes)
    requires Sized(s)
    ensures Sized(OnLocalDone(s, session, ok, payload))
  {
  }

  /** Every event leaves the tables their sizes, so the next one can be taken. */
  lemma StepSized(s: State, e: Event)
    requires Sized(s) && WellFormed(e)
    ensures Sized(Step(s, e))
  {
    match e {
      case Connected(id) => SizedConnected(s, id);
      case Closed(id) => SizedClosed(s, id);
      case NodeAt(_, _, _, _, _) => SizedNodeAt(s, e);
      case LocalDone(session, ok, payload) => SizedLocalDone(s, session, ok, payload);
      case Data(id, bytes) =>
        var c := ConnAt(s, id);
        if c < |s.conns| {
          var s0 := if s.conns[c].outbound then s else s.(received := s.received + [(s.conns[c].sock, bytes)]);
          SizedFrames(s0, c, Frames(s.conns[c].rx + bytes));
        }
      case Send(_, _, _, _, _, _, _) => SizedSend(s, e);
      case _ =>
    }
  }
}
