# SkyJS, verified

SkyJS is an actor runtime in C and JavaScript. Its hard logic is written by hand: byte-stream
protocols, codecs, ciphers and schedulers. This project models that logic in Dafny and proves what
each part is for, over every input or every run.

How the modules fit together:

- **Cluster node** (`service-src/skyclusterd.c`). `Framing` is the meaning of length-prefixed streams.
  `ClusterWire` is the request and response wire, `Cluster` one step per event over the service's
  tables, `ClusterApart`, `ClusterInvariants`, `ClusterRuns` and `ClusterStrays` what every step keeps,
  and `ClusterTheorems`, `ClusterReplies` and `ClusterRoundTrip` the promises over whole runs and between
  two nodes. `ClusterCalls` says which service a call reaches and which link a request takes,
  `ClusterOutcomes` what callers are told, and `ClusterAstray` has the runs in which a promise fails.
  `ClusterNode` is the service as a class whose handlers update its fields; each handler is proved
  equal to its step.
- **Gate** (`service-src/js-net.c`, `js/builtins/skyjs/gateserver.js`). `NetPack` has the ring and the
  linked hash chains in place, `Gate` what a handler sees of each socket.
- **Readers** (`js/internal/net-core.js`, `js/internal/http-core.js`, the websocket package).
  `BufferedReader` is proved against one flat byte string; `Connection` awaits on it whatever the
  segments; `HttpChunked`/`HttpStream` and `WebSocket`/`WebSocketStream` are the two protocols, first as
  functions of the flat string, then as the loops that run.
- **Codecs** (`service-src/js-seri.c`, `js/internal/text-codec.js`, `js/internal/buffer-core.js`). `Seri`
  is the value format and its round trip, `SeriStream` the growing buffer and the advancing pointer,
  `SeriCluster` the values the cluster node speaks itself, `Utf8` the text codec.
- **Ciphers** (`service-src/js-crypto.c`). `DesStandard`, `Feistel`, `Des` and `DesText`; `Sha`, `ShaContext` and `Hmac`;
  `DiffieHellman`.
- **Scheduler and small kernels**. `EventLoop`, `EventLoopRuns`, `EventLoopDelays`, `EventLoopWakes` and
  `EventLoopHost` (`js/internal/event-loop.js`), `PosixPath` and `Permission`, `StreamCore`.

`Formats` states the wire formats byte by byte. `Bytes`, `Logs` and `Wrappers` are shared helpers. `dafny verify dfyconfig.toml` checks everything.

Where the code and what it promises part ways, the model follows the code and the exact condition is
proved:

- A push too large for one frame never reaches the remote service: its header carries session 0 and its
  parts the real one (`ClusterWire.RequestArrivesIff`).
- A reply is routed by table slot, not by connection (`ClusterReplies.ReplyReachesIff`,
  `ClusterReplies.StaleReply`). When a link of the node has taken the slot, the response goes onto the
  link among its requests: what a link was given is the requests' frames exactly if that never happens
  (`ClusterTheorems.LinkState`, `ClusterTheorems.WrittenIff`), and the peer may take the response for a
  call (`ClusterAstray.CallOutOfNothing`).
- A local reply nobody forwarded a request for answers whichever caller's own session has its number
  (`ClusterRuns.GoodLocalDone`).
- A name query is understood only for names shorter than 32 bytes, though names of up to 63 are kept
  (`SeriCluster.NameReadBack`).
- A table with a null or undefined key does not survive packing (`Seri.UnpackPack`, `Seri.NilKeySplits`),
  except by accident below a key that another one overwrites (`Seri.HiddenNilKey`).
- A public value equal to the modulus, raised to the first power, is returned unreduced
  (`DiffieHellman.PowerModP`).
- A permission root of `/` admits nothing but `/` itself, and no root at all admits everything
  (`Permission.ResolvePathIff`).
- Writing a masked frame overwrites an `ArrayBuffer` the caller passed (`WebSocket.MaskKeepsBuffer`).
- The wake can be armed later than a live timer is due, when an immediate is waiting at the end of a tick
  and the timer came due meanwhile (`EventLoopWakes.WakeBeforeDueIff`, `EventLoopWakes.TickBoundIff`,
  `EventLoopWakes.WakeCanBeLate`); it still comes at once.
- A timer refreshed by a callback of the drain that had already selected it is started before it is due
  again (`EventLoopDelays.EarlyOnlyIfRefreshed`, `EventLoopDelays.RefreshedTooLate`).
- The end of a socket that was turned away at the limit of clients lets in one more than the limit
  (`Gate.LimitKept`, `Gate.LimitPassed`).
- A read remainder pushed to the back of the stream queue keeps the byte order only because nothing else
  is queued (`StreamCore.OrderKeptIff`).

Abstract here: the numbers in the S-boxes and the key schedule of DES, the block transforms, initial states and digest
bytes of SHA, doubles other than integers, the contents of callbacks (any finite list of calls), random
masks, the clock, and everything a socket delivers.

## Model

| member | source | states |
|---|---|---|
| Framing.SplitSpells | service-src/skyclusterd.c:606-629 | complete frames and unfinished rest spell the stream: nothing lost, nothing invented |
| Framing.SplitUnique | service-src/skyclusterd.c:606-629 | packed frames are read back as those frames and no others, in front of any unfinished rest |
| Framing.SplitAppend | service-src/skyclusterd.c:606-629 | where a stream is cut does not change its frames or its rest |
| ClusterWire.PartsComplete | service-src/skyclusterd.c:237-248 | the chunks of a body complete exactly the reassembly that expects their session, in order |
| ClusterWire.PartsDropped | service-src/skyclusterd.c:237-248 | chunks of any other session leave no trace |
| ClusterWire.ParseSmall | service-src/skyclusterd.c:498-601 | a small request frame, numeric or named, is read back with its session, target and payload |
| ClusterWire.ParseLarge | service-src/skyclusterd.c:498-601 | a multipart header is read back with its session field, target, total and push mark |
| ClusterWire.LargeRequestArrives | service-src/skyclusterd.c:750-820 | a multipart request is dispatched once with the payload put together; a multipart push never |
| ClusterWire.RequestArrives | service-src/skyclusterd.c:498-601 | any one request gives exactly its call, or none if it is a large push, whatever was being reassembled |
| ClusterWire.RequestArrivesIff | service-src/skyclusterd.c:757-812 | a request reaches the remote dispatcher if and only if it is not a large push |
| ClusterWire.RequestFits | service-src/skyclusterd.c:711-730 | every frame a request is cut into fits the 16-bit length |
| ClusterWire.RequestsArrive | service-src/skyclusterd.c:498-601 | any list of requests is dispatched once each and in order |
| ClusterWire.CutsDoNotMatter | service-src/skyclusterd.c:606-629 | DATA buffers cut anywhere have the effect of their concatenation, and leave the same rest |
| ClusterWire.RequestPath | service-src/skyclusterd.c:606-629 | all requests, encoded, cut anywhere and received, are dispatched once each, in order, unchanged |
| ClusterWire.ResponseFits | service-src/skyclusterd.c:350-383 | every frame of a response fits the 16-bit length |
| ClusterWire.ParseResponseFrame | service-src/skyclusterd.c:389-424 | a response frame is read back with its session, kind and data |
| ClusterApart.DrainedAll | service-src/skyclusterd.c:606-629 | the receive buffer and the handling of frames do not interfere: a DATA event is the fold over the frames of what was buffered and what arrived |
| ClusterInvariants.QuietDispatch | service-src/skyclusterd.c:441-495 | dispatching a call answers no caller of this node, releases none of its slots, opens no link and keeps the tables consistent |
| ClusterInvariants.QuietSettle | service-src/skyclusterd.c:389-424 | settling a slot gives the caller in it one answer, and waiting plus answered stays what it was |
| ClusterInvariants.QuietResponse | service-src/skyclusterd.c:389-424 | handling any response frame, expected or not, keeps waiting plus answered unchanged |
| ClusterInvariants.QuietRequests | service-src/skyclusterd.c:498-601 | frames on an inbound connection dispatch exactly their calls and keep the balance |
| ClusterInvariants.QuietResponses | service-src/skyclusterd.c:606-629 | frames on an outbound connection keep the balance, the links and the send queues |
| ClusterRuns.InvInit | service-src/skyclusterd.c:1038-1051 | the initial state satisfies the invariant |
| ClusterRuns.GoodData | service-src/skyclusterd.c:606-629 | a DATA event keeps the invariant and asks for no answer of its own |
| ClusterRuns.GoodConnect | service-src/skyclusterd.c:663-680 | connecting a node keeps link, queue and wire order consistent, with the connection table full or not |
| ClusterRuns.GoodNodeAt | service-src/skyclusterd.c:847-946 | registering a node keeps the invariant and answers the registrar once |
| ClusterRuns.SendRequestIs | service-src/skyclusterd.c:750-820 | sending is one session drawn and the request's frames emitted in order |
| ClusterRuns.SendKeepsWire | service-src/skyclusterd.c:711-730 | sending keeps, of the frames written as requests and those queued, the order they were emitted in |
| ClusterRuns.GoodSend | service-src/skyclusterd.c:847-946 | a send command keeps the invariant and accounts for exactly one caller unless it is a push |
| ClusterRuns.FlushKeepsWire | service-src/skyclusterd.c:733-745 | flushing moves the queue to the socket without changing the order |
| ClusterRuns.GoodConnected | service-src/skyclusterd.c:955-1008 | a CONNECT event keeps the invariant |
| ClusterRuns.FailedBalance | service-src/skyclusterd.c:698-707 | failing a node answers each of its waiting callers once and releases those slots |
| ClusterRuns.GoodLocalDone | service-src/skyclusterd.c:825-844 | a local reply under an awaited session answers no caller of this node; under any other, unless an error, it answers the first caller whose own session is that number, and releases that slot only |
| ClusterRuns.GoodRegister | service-src/skyclusterd.c:847-946 | a register command keeps the invariant and answers its sender once |
| ClusterRuns.InvStep | service-src/skyclusterd.c:949-1033 | every event keeps the whole invariant, and waiting plus answered grows by exactly what the event asks for |
| Cluster.StepSized | service-src/skyclusterd.c:949-1033 | every event leaves the tables their sizes, so any next one can be taken |
| ClusterStrays.WrittenCount | service-src/skyclusterd.c:342-383 | what a socket was given is its request frames exactly when no response is among it |
| ClusterStrays.StepOn | service-src/skyclusterd.c:825-844 | an event writes a response to a socket this node opened exactly if it is a local reply whose table slot a connection on that socket has taken over |
| ClusterStrays.StepOwn | service-src/skyclusterd.c:318-330 | a socket this node opened stays its own, and nodes only ever take fresh sockets |
| ClusterTheorems.Reachable | service-src/skyclusterd.c:949-1033 | every reachable state satisfies the invariant |
| ClusterTheorems.AnswersConserved | service-src/skyclusterd.c:949-1033 | in every run, answers given plus slots waiting is exactly what was asked for |
| ClusterTheorems.AnsweredOnce | service-src/skyclusterd.c:389-424 | a caller that asked once waits in one slot or was answered once, never both |
| ClusterTheorems.RunOn | service-src/skyclusterd.c:825-844 | over any run, a socket this node opened is given a response exactly if some local reply goes astray onto it |
| ClusterTheorems.AcceptedForeign | service-src/skyclusterd.c:955-1008 | an accepted socket is never a node's link, at any later time |
| ClusterTheorems.WrittenIff | service-src/skyclusterd.c:711-745 | over any run, all that an opened socket was given is request frames exactly if no local reply went astray onto it |
| ClusterTheorems.LinkState | service-src/skyclusterd.c:662-745 | in every reachable state: connecting iff a socket; a queue or an outstanding request implies a socket; all that was written to it, then what is queued, is the requests' frames in order if and only if no local reply went astray onto it |
| ClusterTheorems.EndToEnd | service-src/skyclusterd.c:949-1033 | two nodes, any runs: if no reply went astray onto the socket, what the peer dispatched of all bytes written to it is a prefix of the requests accepted for it, unchanged (large pushes excepted) |
| ClusterTheorems.EndToEndComplete | service-src/skyclusterd.c:733-745 | ... and once all of them are delivered and no frame is queued, it is every such request |
| ClusterTheorems.SessionsCollideIff | service-src/skyclusterd.c:751-756 | two draws give one session exactly when they are a multiple of 2^31-1 apart; sessions stay in 1..2^31-1 |
| ClusterTheorems.OutstandingUnambiguous | service-src/skyclusterd.c:292-297 | while no outstanding request is 2^31-1 draws old, a session names one slot |
| ClusterCalls.ServedOrNot | service-src/skyclusterd.c:428-437 | every target but the name service has exactly one service, or is a name nobody registered |
| ClusterCalls.CallForwarded | service-src/skyclusterd.c:475-494 | a call goes to exactly the service its target stands for: the address, or the first entry registered under the name, a leading @ dropped; with its payload, under a local session of its own, or 0 for a push |
| ClusterCalls.CallBusy | service-src/skyclusterd.c:475-494 | with no slot left the caller is told so, and no service is called |
| ClusterCalls.CallRefused | service-src/skyclusterd.c:464-474 | a call by a name nobody registered is refused, unless it is a push |
| ClusterCalls.QueryAnswered | service-src/skyclusterd.c:441-462 | a name query is answered with the handle of the first service registered under the name, or told there is none |
| ClusterCalls.QueryRefused | service-src/skyclusterd.c:441-462 | a query without a short string in front is refused, unless it is a push |
| ClusterCalls.AcceptedReads | service-src/skyclusterd.c:317-328 | an accepted connection is one requests are read from, ready and empty |
| ClusterCalls.DataReceived | service-src/skyclusterd.c:606-629 | data on it is received once, and its frames fold into the calls dispatched |
| ClusterCalls.LinkUpFlushes | service-src/skyclusterd.c:733-745 | when a link comes up, every frame of the requests made of it has been written |
| ClusterCalls.StepNames | service-src/skyclusterd.c:949-1033 | only a register command changes the name table |
| ClusterCalls.TableIsRegistrations | service-src/skyclusterd.c:847-946 | in every run the name table is the register commands so far, each name with its registrant, in order, the first 32 of them |
| ClusterCalls.NamedCallReaches | service-src/skyclusterd.c:428-494 | in every run a call by name reaches the service that registered it first, among the first 32 registrations |
| ClusterCalls.UnknownCallRefused | service-src/skyclusterd.c:428-474 | in every run a call by a name not among them is refused |
| ClusterCalls.NodeKnown | service-src/skyclusterd.c:634-660 | a node command leaves its node known under its name and port, with its link, and every other node as it was |
| ClusterCalls.RequestOnItsLink | service-src/skyclusterd.c:847-946 | a request for a node goes onto that node's link, under the next session, with its target and payload |
| ClusterOutcomes.FrameTells | service-src/skyclusterd.c:389-424 | a response frame tells the first caller waiting for its session success or failure, and the payload, by the numbers of its type |
| ClusterOutcomes.ClosedTellsFailure | service-src/skyclusterd.c:698-707 | everything put out when a connection closes is a failure without a payload |
| ClusterOutcomes.FailureIsTold | service-src/skyclusterd.c:698-946 | a lost node and a refused send only tell of failure, a command and a local reply only of success; no failure has a payload |
| ClusterOutcomes.StepTells | service-src/skyclusterd.c:949-1033 | what each event tells callers: whom, success or failure, which payload |
| ClusterOutcomes.OutcomesExact | service-src/skyclusterd.c:949-1033 | in every run callers are told exactly that: ok for an acknowledged command, for a response completed with success while its caller waited, or for a local reply that settled it, and failure otherwise |
| ClusterReplies.PartsDelivered | service-src/skyclusterd.c:389-424 | the parts of a large reply complete the reassembly that expects them |
| ClusterReplies.ReplyDelivered | service-src/skyclusterd.c:350-383 | the frames of one reply, single or multipart, deliver its payload once to the waiting caller and release its slot |
| ClusterReplies.RepliesDelivered | service-src/skyclusterd.c:389-424 | any list of replies: each caller its payload, once, in order; exactly those slots released |
| ClusterReplies.DataCuts | service-src/skyclusterd.c:606-629 | on an outbound connection DATA buffers cut anywhere act as their concatenation |
| ClusterReplies.ReplyPath | service-src/skyclusterd.c:389-424 | replies cut anywhere reach exactly the callers that wait for them, with the payload sent |
| ClusterReplies.ForwardedWaits | service-src/skyclusterd.c:441-495 | a forwarded request waits under the local session the service was given |
| ClusterReplies.WaitsStep | service-src/skyclusterd.c:825-844 | a request keeps waiting through every event but its connection's end and its own reply |
| ClusterReplies.WaitsRun | service-src/skyclusterd.c:949-1033 | ... and so through every such run |
| ClusterReplies.ReplyRouted | service-src/skyclusterd.c:825-844 | the service's reply is written to the connection the request came from, if it stayed open |
| ClusterReplies.ReplyReachesIff | service-src/skyclusterd.c:825-844 | a reply reaches a socket exactly when the remembered table slot now holds that open connection |
| ClusterReplies.StaleReply | service-src/skyclusterd.c:825-844 | a reply after its connection closed and the slot was reused goes to the newcomer |
| ClusterAstray.StrayOnLink | service-src/skyclusterd.c:663-680 | if the newcomer is a link this node opens, the response is written to the link's socket, before the link is ready, and no request with it |
| ClusterAstray.InventedCall | service-src/skyclusterd.c:498-601 | the peer reads a response whose session has low byte 0, with four bytes of data, as a small request |
| ClusterAstray.CallOutOfNothing | service-src/skyclusterd.c:825-844 | two concrete runs in which the peer gets exactly what the link was given and dispatches a call nobody made |
| ClusterRoundTrip.SomeFrames | service-src/skyclusterd.c:389-424 | any part of the frames still to come for awaited replies delivers those it completes, and leaves the rest to come |
| ClusterRoundTrip.StepOther | service-src/skyclusterd.c:949-1033 | only its own data and its own close touch what a connection has read |
| ClusterRoundTrip.ReplyRun | service-src/skyclusterd.c:389-424 | any run that receives on a link the bytes of awaited replies, in any cuts and with any events between that leave the waiting slots alone, answers each of them once, in order, and nothing else |
| ClusterRoundTrip.HarmlessSpares | service-src/skyclusterd.c:949-1033 | which events leave the waiting slots alone, by what can be checked before each |
| ClusterRoundTrip.HarmlessKeeps | service-src/skyclusterd.c:949-1033 | a run of such events and of the link's data is one in which the waiting slots are left alone |
| ClusterRoundTrip.ReplyCrosses | service-src/skyclusterd.c:825-844 | two nodes, any runs: what the service of one replies is the answer the waiting caller of the other gets |
| ClusterRoundTrip.DataForwards | service-src/skyclusterd.c:498-601 | a call completed by any frame of a DATA event is given to the service its target stands for, and waits, when the event is over, under the session its service was given |
| ClusterRoundTrip.SentWaits | service-src/skyclusterd.c:847-946 | an accepted request is entered for its node's socket and its caller waits for exactly its session |
| ClusterRoundTrip.RoundTrip | service-src/skyclusterd.c:949-1033 | from a send on one node to the answer its caller gets: the service the target stands for is given the payload, and the answer is what was replied, whatever else both nodes do meanwhile |
| ClusterNode.Scan | service-src/skyclusterd.c:263-305 | a slot scan finds the first slot that fits, or the end |
| ClusterNode.Clusterd.SendResponse | service-src/skyclusterd.c:350-383 | writes the frames of one response, single or begin, parts and end |
| ClusterNode.Clusterd.HandleResponse | service-src/skyclusterd.c:389-424 | one response frame: reassembled, settled, or ignored |
| ClusterNode.Clusterd.NameQuery | service-src/skyclusterd.c:441-495 | answers a query for a registered name |
| ClusterNode.Clusterd.ForwardCall | service-src/skyclusterd.c:441-495 | hands a call to a local service under a fresh local session, or answers busy |
| ClusterNode.Clusterd.Dispatch | service-src/skyclusterd.c:441-495 | routes a call to the name service or to a local service |
| ClusterNode.Clusterd.HandleRequest | service-src/skyclusterd.c:498-601 | one request frame: parsed, reassembled, dispatched, or ignored |
| ClusterNode.Clusterd.ConnData | service-src/skyclusterd.c:606-629 | appends DATA and handles every complete frame, keeping the rest |
| ClusterNode.Clusterd.NodeConnect | service-src/skyclusterd.c:663-680 | opens a link when there is a free connection slot, else reports failure |
| ClusterNode.Clusterd.EmitFrame | service-src/skyclusterd.c:711-730 | writes a frame to the socket, or queues it while connecting |
| ClusterNode.Clusterd.SendRequest | service-src/skyclusterd.c:750-820 | emits the frames of one request, small or large |
| ClusterNode.Clusterd.FlushQueue | service-src/skyclusterd.c:733-745 | writes the queue to the socket in order |
| ClusterNode.Clusterd.FailPending | service-src/skyclusterd.c:698-707 | answers every caller waiting on a node with an error and releases the slots |
| ClusterNode.Clusterd.OnSend | service-src/skyclusterd.c:847-946 | a send command, from missing node to frames on the wire |
| ClusterNode.Clusterd.OnLocalDone | service-src/skyclusterd.c:825-844 | a local service's reply, to the connection its slot remembers |
| ClusterNode.Clusterd.OnClosed | service-src/skyclusterd.c:955-1008 | a link or connection lost |
| ClusterNode.Clusterd.Handle | service-src/skyclusterd.c:949-1033 | each event handler changes the fields as the specified step does, whatever the event |
| NetPack.Uncomplete.Absorb | service-src/js-net.c:317-388 | a partial entry cut anywhere, in the header too, takes new bytes or is completed by them |
| NetPack.Chain.Take | service-src/js-net.c:235-256 | unlinks the one entry of a socket from its hash chain, or finds none |
| NetPack.Chain.Put | service-src/js-net.c:259-268 | links an entry at the head of its chain; a socket never has two |
| NetPack.NetPack.constructor | service-src/js-net.c:175-190 | an empty ring and empty buckets |
| NetPack.NetPack.TakeEntry | service-src/js-net.c:235-256 | takes the partial entry of a socket, leaving all others |
| NetPack.NetPack.SaveEntry | service-src/js-net.c:259-268 | saves a partial entry; other sockets' bytes stay |
| NetPack.NetPack.ExpandQueue | service-src/js-net.c:194-205 | the full ring moves to a larger one in order |
| NetPack.NetPack.PushData | service-src/js-net.c:208-224 | a packet goes to the back of the ring, across wraparound and growth |
| NetPack.NetPack.Pop | service-src/js-net.c:486-501 | the ring is first in, first out |
| NetPack.NetPack.PushMore | service-src/js-net.c:277-302 | queues every whole packet of what is left and keeps the rest |
| NetPack.NetPack.Filter | service-src/js-net.c:317-388 | one DATA buffer: the packets now whole are the flat parse of the socket's bytes, and the unparsed suffix is what is kept |
| NetPack.NetPack.Close | service-src/js-net.c:305-312 | a closed socket leaves no partial entry |
| Gate.PerSocket | js/builtins/skyjs/gateserver.js:42-54 | for interleaved sockets cut anywhere, the packets dispatched per socket are the flat parse of its bytes |
| Gate.PackedArrive | service-src/js-net.c:505-535 | packets a peer packed arrive as they were packed |
| Gate.GateServer.Drain | js/builtins/skyjs/gateserver.js:47-54 | the more event dispatches everything queued, in order |
| Gate.GateServer.OnData | service-src/js-net.c:405-479 | after each DATA event everything the buffer completed was dispatched |
| Gate.GateServer.OnGone | js/builtins/skyjs/gateserver.js:66-80 | after close or error nothing of the socket is held back |
| Gate.GateServer.OnOpen | js/builtins/skyjs/gateserver.js:56-65 | a socket is let in below the limit of clients, and turned away at it |
| Gate.GateServer.OnEnded | js/builtins/skyjs/gateserver.js:66-75 | a closed socket is no client any more and the count goes down |
| Gate.GateServer.CloseClient | js/builtins/skyjs/gateserver.js:97-102 | closeclient closes a socket it knows, once |
| Gate.LimitKept | js/builtins/skyjs/gateserver.js:56-75 | no more clients are open than the limit, if ends are only reported of sockets that were let in |
| Gate.LimitPassed | js/builtins/skyjs/gateserver.js:56-75 | the end of a socket that was turned away lets one more in than the limit |
| Seri.IntRoundTrip | service-src/js-seri.c:164-229 | each 64-bit integer's compact form is read back, under the cookie chosen for its size |
| Seri.IntShortest | service-src/js-seri.c:164-229 | no valid bytes for an integer are shorter than the ones written |
| Seri.TextShortest | service-src/js-seri.c:206-229 | no valid bytes for a string are shorter than the ones written |
| Seri.TextRoundTrip | service-src/js-seri.c:206-229 | short and long strings are read back in front of anything |
| Seri.HeaderRoundTrip | service-src/js-seri.c:296-305 | a table header's item count is read back, inlined or escaped |
| Seri.MapSetNew | service-src/js-seri.c:787-791 | a new key is appended to a map's entries |
| Seri.MapSetOld | service-src/js-seri.c:787-791 | a key that is there keeps its place and gets the new value |
| Seri.NestPackable | service-src/js-seri.c:337-345 | nested tables are packed to a depth of 32, and no deeper |
| Seri.BuildDistinct | service-src/js-seri.c:787-791 | entries whose keys differ are kept as they are |
| Seri.DecodeEncode | service-src/js-seri.c:580-635 | a value's bytes are self-delimiting and read back as its normal form |
| Seri.DecodeEncodeItems | service-src/js-seri.c:515-577 | a table's items are read back by count |
| Seri.DecodeEncodeEntries | service-src/js-seri.c:515-577 | a table's entries are read back up to the closing nil |
| Seri.DecodedKeys | service-src/js-seri.c:515-577 | no table read from any bytes has a nil key |
| Seri.NormKeepsNilKeys | service-src/js-seri.c:337-507 | normalising neither adds nor hides a nil key |
| Seri.UnpackEncoded | service-src/js-seri.c:690-734 | unpacking the packing of any list without nil keys gives the normalised list |
| Seri.UnpackPack | service-src/js-seri.c:337-734 | the values come back normalised if no table has null or undefined among its keys; and only if, unless two keys of a table become one |
| Seri.HiddenNilKey | service-src/js-seri.c:337-734 | a value with two such keys and a nil key below them that nevertheless comes back normalised |
| Seri.NilKeySplits | service-src/js-seri.c:515-577 | a map with a nil key is read back empty and its bytes go on as other values |
| SeriStream.CeilingReached | service-src/js-seri.c:80-113 | the 256 MB ceiling is itself a doubled capacity |
| SeriStream.WriteBlock.Push | service-src/js-seri.c:94-113 | appends to the buffer, growing it, or runs out of memory exactly past the ceiling |
| SeriStream.WriteBlock.PackOne | service-src/js-seri.c:337-507 | appends the value's bytes, or refuses what is nested too deep or too long |
| SeriStream.WriteBlock.PackAll | service-src/js-seri.c:309-334 | appends a list of values one after the other, stopping at a refusal |
| SeriStream.Pack | service-src/js-seri.c:663-687 | the whole list's bytes, or the reason there is no buffer |
| SeriStream.ReadBlock.Read | service-src/js-seri.c:140-148 | the next bytes, or nothing and no move |
| SeriStream.ReadBlock.GetInteger | service-src/js-seri.c:231-266 | an integer by its cookie |
| SeriStream.ReadBlock.UnpackScalar | service-src/js-seri.c:580-633 | every value that is not a table |
| SeriStream.ReadBlock.UnpackCount | service-src/js-seri.c:515-531 | an item count, truncated to a C int when spelt out |
| SeriStream.ReadBlock.UnpackOne | service-src/js-seri.c:638-644 | one value, or an invalid stream |
| SeriStream.ReadBlock.UnpackTable | service-src/js-seri.c:515-577 | a table: items by count, entries to the nil key |
| SeriStream.UnpackBuffer | service-src/js-seri.c:690-734 | the loop of unpack gives the flat meaning of the buffer |
| SeriStream.PackThenUnpack | service-src/js-seri.c:663-734 | pack then unpack returns the normalised values if no table has a nil key, and only if, unless two keys of a table become one |
| SeriCluster.HandleReadBack | service-src/skyclusterd.c:177-204 | the handle in a name reply is read back as that number; its bytes are those of pack except for 0 |
| SeriCluster.NameReadBack | service-src/skyclusterd.c:208-216 | the node reads the name of a packed query exactly when it is shorter than 32 bytes |
| DiffieHellman.MulModP | service-src/js-crypto.c:523-531 | exact modular product in 64-bit words, no carry lost |
| DiffieHellman.PowModP | service-src/js-crypto.c:532-538 | modular power by squaring |
| DiffieHellman.PowerModP | service-src/js-crypto.c:539-542 | modular power for every base but the modulus itself to the first power, which is left unreduced |
| DiffieHellman.Exchange | service-src/js-crypto.c:830-840 | refuses only 0, and returns a key between 1 and the modulus |
| DiffieHellman.Secret | service-src/js-crypto.c:841-853 | refuses only 0, and returns the power of the other key |
| DiffieHellman.PowNonZero | service-src/js-crypto.c:520-542 | no power of 5 is 0 modulo 2^64-59 |
| DiffieHellman.KeysAgree | service-src/js-crypto.c:830-853 | both sides reach 5^(ab) mod 2^64-59; exchanged keys are never 0 |
| Des.PermutationsInverse | service-src/js-crypto.c:402-418 | the initial and final permutations are inverse both ways |
| Des.MaskInvolutive | service-src/js-crypto.c:420-424 | a round's masking undoes itself, whatever the S-boxes hold |
| Feistel.RoundsUndone | service-src/js-crypto.c:453-464 | the rounds run again with reversed keys on swapped halves undo themselves |
| Feistel.RunRounds | service-src/js-crypto.c:457-460 | the unrolled rounds, halves updated in turn, are the specified rounds |
| Des.CryptUndone | service-src/js-crypto.c:453-464 | one block is decrypted under the reversed schedule |
| Des.BlockRoundTrip | service-src/js-crypto.c:399-400 | two words are read back from their eight bytes |
| Des.OctetsRoundTrip | service-src/js-crypto.c:399-400 | eight bytes are read back from their two words |
| Des.DesCrypt | service-src/js-crypto.c:453-464 | one block: the halves of its initial permutation, taken through sixteen rounds of the standard's function, are the halves of the output's |
| Des.Rows | service-src/js-crypto.c:402-409 | the initial permutation is the table of FIPS 46-3, row by row, on halves turned by one bit |
| Des.MixesByBits | service-src/js-crypto.c:420-424 | the eight lookups of a round are the standard's function f: each S-box at its six bits of the expansion, xor its six key bits |
| Des.BoxAlone | service-src/js-crypto.c:420-424 | each S-box by itself: with the others empty, a round mixes in that one at its six bits |
| Des.RoundsTurned | service-src/js-crypto.c:456-460 | rounds on turned halves are the standard's rounds |
| Des.CipherIsStandard | service-src/js-crypto.c:453-464 | a block is enciphered as FIPS 46-3 says, bit for bit, whatever the tables and round keys |
| DesStandard.BlockByHalves | service-src/js-crypto.c:402-418 | a block is known by the two halves the initial permutation makes of it |
| Des.ReverseSchedule | service-src/js-crypto.c:500-501 | the schedule is turned round pair by pair |
| DesText.PadUnique | service-src/js-crypto.c:473-483 | a text ends in at most one padding |
| DesText.PadRecognised | service-src/js-crypto.c:472-478 | the padding added is the padding a text ends in, and before it is the text |
| DesText.RemoveIso | service-src/js-crypto.c:473-477 | finds the ISO 7816-4 padding or none |
| DesText.RemovePkcs7 | service-src/js-crypto.c:479-483 | finds the PKCS 7 padding or none |
| DesText.CryptAllUndone | service-src/js-crypto.c:487-505 | a cipher undone on blocks is undone on texts of whole blocks |
| DesText.CryptAllBlock | service-src/js-crypto.c:487-502 | each block of a text is enciphered by itself, in its place |
| DesText.CryptLoop | service-src/js-crypto.c:487-502 | every whole block, in place in the output |
| DesText.Encode | service-src/js-crypto.c:487-496 | whole blocks and the padded tail are the encryption of the padded text |
| DesText.Decode | service-src/js-crypto.c:497-505 | the text before the padding, or a refusal when there is none |
| Des.DecodeEncode | service-src/js-crypto.c:487-505 | decoding undoes encoding for every schedule, text and padding mode, whatever the S-boxes hold |
| Des.DesEncode | service-src/js-crypto.c:487-496 | encodes under a key schedule |
| Des.DesDecode | service-src/js-crypto.c:497-505 | returns exactly the text that was encoded under the same schedule |
| Sha.FoldAppend | service-src/js-crypto.c:81-93 | bytes may be folded in as they come: state and unfinished block are all that matters |
| Sha.PaddedWhole | service-src/js-crypto.c:94-101 | a padded message is whole blocks, less than one block longer than the marker and the length need |
| Sha.PaddedLayout | service-src/js-crypto.c:94-240 | the message, a one bit, the fewest zeros that do and the length in bits, big-endian, make whole blocks (sections 5.1.1 and 5.1.2 of FIPS 180-4) |
| Sha.DigestChain | service-src/js-crypto.c:81-240 | the digest, block by block: each link made of the one before and the next block of the padded message (section 6) |
| Sha.PaddedInjective | service-src/js-crypto.c:94-101 | different messages are padded differently, within the length the standard allows |
| Sha.CountsUp | service-src/js-crypto.c:81-225 | 32-bit and 64-bit counter words count the message without losing a carry |
| Sha.BEByte | service-src/js-crypto.c:94-240 | the shifts of the final functions pick the big-endian bytes |
| ShaContext.Context.constructor | service-src/js-crypto.c:76-80 | a context for the empty message |
| ShaContext.Context.Index | service-src/js-crypto.c:84-145 | the buffer index is the length modulo the block |
| ShaContext.Context.Absorb | service-src/js-crypto.c:86-92 | buffering and folding of one piece |
| ShaContext.Context.Update | service-src/js-crypto.c:81-225 | the context stands for one more piece, whatever its length |
| ShaContext.Context.Final1 | service-src/js-crypto.c:94-101 | SHA-1's digest of everything taken; its padding loop ends |
| ShaContext.Context.FinalDirect | service-src/js-crypto.c:153-240 | SHA-256's and SHA-512's digest of everything taken, over one block or two |
| ShaContext.AtGap | service-src/js-crypto.c:98 | SHA-1's loop test holds exactly when the zeros fill the gap |
| ShaContext.LengthRight | service-src/js-crypto.c:154-231 | the length field is the bit count modulo 2^64 or 2^128 |
| ShaContext.TailBlocks | service-src/js-crypto.c:153-240 | what is written after the unfinished block is one block or two, as the standard lays out |
| Hmac.HashPieces | service-src/js-crypto.c:81-240 | however a message is cut into updates, the digest is that of the whole |
| Hmac.HmacOf | service-src/js-crypto.c:245-260 | the three HMAC functions are H(K xor opad, H(K xor ipad, text)) of section 2 of RFC 2104, with the pads given bit by bit |
| Hmac.PadIsOne | service-src/js-crypto.c:250-254 | there is one block whose bits are those of the key bytes xor a constant |
| Hmac.ZeroKeyPads | service-src/js-crypto.c:250-254 | for a key of zeros, or none, the pads are blocks of 0x36 and of 0x5c |
| Hmac.KeysAlike | service-src/js-crypto.c:249 | a long key acts as its digest, a short key as itself with zeros, and different block keys mask differently |
| Utf8.BitTests | js/internal/text-codec.js:45-66 | the bit tests on bytes are the ranges and remainders used here |
| Utf8.PointBytes | js/internal/text-codec.js:17-28 | the bytes of a code point as the encoder shifts them out |
| Utf8.PointRoundTrip | js/internal/text-codec.js:45-72 | one encoded code point is read back, in front of anything |
| Utf8.PointRead | js/internal/text-codec.js:45-72 | what the decoder reads at the front, in plain numbers, and U+FFFD for one byte where nothing can be read |
| Utf8.MalformedRead | js/internal/text-codec.js:48-72 | a malformed byte is one U+FFFD, and reading goes on after it |
| Utf8.UnitsRead | js/internal/text-codec.js:9-16 | a surrogate pair is one code point, any other unit itself |
| Utf8.Section7 | js/internal/text-codec.js:6-31 | the examples of section 7 of RFC 3629 |
| Utf8.DecodeEncode | js/internal/text-codec.js:6-84 | decoding undoes encoding for every sequence of 16-bit units, lone surrogates included |
| Utf8.AcceptedText | js/internal/buffer-core.js:370-390 | accepted bytes decode to well-formed text that encodes to them |
| Utf8.TextAccepted | js/internal/buffer-core.js:370-390 | the encoding of well-formed text is accepted |
| Utf8.IsUtf8Iff | js/internal/buffer-core.js:370-390 | isUtf8 accepts exactly the encodings of well-formed text, and then encoding the decoded text gives the bytes back |
| Utf8.EncodeUtf8 | js/internal/text-codec.js:6-31 | the encoder's loop |
| Utf8.DecodeUtf8 | js/internal/text-codec.js:33-84 | the decoder's loop, malformed bytes included |
| Utf8.CheckUtf8 | js/internal/buffer-core.js:370-390 | the validator's loops |
| PosixPath.SplitJoined | js/internal/path-posix.js:16-32 | components joined with slashes are split into themselves |
| PosixPath.SplitPathClean | js/internal/path-posix.js:16-32 | what splitPath leaves has no empty or dot component, and steps up only in front of a relative path |
| PosixPath.OneMore | js/internal/path-posix.js:17-32 | one more component behind a path: what an empty one, a dot, a step up and a name do |
| PosixPath.NormalizeSpelling | js/internal/path-posix.js:34-43 | normalize writes one slash between components, one in front of an absolute path, a dot for nothing, and keeps a slash at the end |
| PosixPath.ShowSplit | js/internal/path-posix.js:34-43 | a clean component list is read back from its spelling |
| PosixPath.NormalizeParts | js/internal/path-posix.js:34-43 | normalize keeps the components and whether the path is absolute |
| PosixPath.NormalizeTwice | js/internal/path-posix.js:34-43 | normalize is idempotent, for all strings |
| PosixPath.ResolveShape | js/internal/path-posix.js:50-65 | resolve spells clean absolute components without a trailing slash |
| PosixPath.ResolveInTurn | js/internal/path-posix.js:50-65 | resolving a list of paths is resolving them one after the other, an absolute one starting over |
| PosixPath.CwdStaysAbsolute | js/internal/path-posix.js:234-237 | the working directory stays absolute |
| PosixPath.WalkTwice | js/internal/path-posix.js:16-32 | a relative path's own walk may be done first |
| PosixPath.ResolveNormalized | js/internal/path-posix.js:34-65 | normalising first does not change where a path resolves to |
| PosixPath.ResolveJoined | js/internal/path-posix.js:45-65 | joining a relative path to another and resolving is resolving the two in turn |
| PosixPath.WayWalks | js/internal/path-posix.js:186-200 | steps up, then down, lead from one list to the other |
| PosixPath.WayShortest | js/internal/path-posix.js:186-200 | no list of components that leads from one place to the other is shorter |
| PosixPath.RelativeIs | js/internal/path-posix.js:186-200 | relative is empty for one place, and else the steps up out of what is not shared, then the components down |
| PosixPath.ResolveRelative | js/internal/path-posix.js:186-200 | resolve(from, relative(from, to)) is resolve(to), for all strings |
| PosixPath.SplitLoop | js/internal/path-posix.js:16-32 | splitPath's loop |
| PosixPath.ResolveLoop | js/internal/path-posix.js:50-65 | resolve's loop |
| PosixPath.RelativeLoop | js/internal/path-posix.js:186-200 | relative's loop over shared components |
| Permission.UnderIff | js/internal/permission.js:24-35 | the root test compares whole components, and the root directory admits only itself |
| Permission.ResolvePathIff | js/internal/permission.js:10-35 | with roots resolved under one working directory and the target under another: a returned path is clean; it is returned exactly when no root is configured or one lies component-wise at its front, / only for itself |
| Permission.Check | js/internal/permission.js:24-35 | the loop over the roots |
| BufferedReader.SatisfyAppend | js/internal/net-core.js:231-249 | more data never changes an answer that was there before it |
| BufferedReader.AnswersAre | js/internal/net-core.js:145-215 | what a flat string answers, in plain bytes: so many off its front, or a line up to the first CR LF, or nothing yet |
| BufferedReader.FlatSpells | js/internal/net-core.js:255-310 | what was answered and what is left are, byte for byte, what there was |
| BufferedReader.InvStep | js/internal/net-core.js:146-249 | every event keeps: answers are those of the flat string, and a read is open only while the buffer cannot meet it |
| BufferedReader.AnswersAreFlat | js/internal/net-core.js:146-310 | for every chunking and order of reads the answers are those of one flat string, nothing lost, and open reads cannot be met |
| BufferedReader.BufferedReader.Consume | js/internal/net-core.js:255-286 | exactly n bytes off the front, splitting the last chunk |
| BufferedReader.BufferedReader.ScanCrlf | js/internal/net-core.js:292-310 | the first CRLF, across chunk borders |
| BufferedReader.BufferedReader.TryMeet | js/internal/net-core.js:231-249 | answers what the buffered bytes answer |
| BufferedReader.BufferedReader.OnData | js/internal/net-core.js:146-151 | data settles the open read exactly when it can |
| BufferedReader.BufferedReader.Want | js/internal/net-core.js:177-217 | read and readline answer, wait, reject or throw as specified |
| BufferedReader.BufferedReader.OnClose | js/internal/net-core.js:153-169 | closing rejects the open read |
| Connection.Connection.Await | js/internal/net-core.js:177-217 | an awaited read is answered from all bytes to come, however they are cut, or rejected when they end too soon |
| HttpChunked.ParseHexOfHex | js/internal/http-core.js:101 | parseInt undoes toString(16) |
| HttpChunked.HexDigits | js/internal/http-core.js:322-326 | sizes are written with the digits 0 to 9 and a to f, the highest first |
| HttpChunked.ContentBytes | js/internal/http-core.js:316-333 | a chunk and the end of a body, in plain bytes (section 7.1 of RFC 9112) |
| HttpChunked.WireContent | js/internal/http-core.js:316-333 | the writer's pieces are a header end and the chunks of section 7.1 of RFC 9112 |
| HttpChunked.LineRead | js/internal/http-core.js:33-48 | a line without CRLF inside is read back |
| HttpChunked.HeadRead | js/internal/http-core.js:33-48 | a header is read back line by line, or refused, exactly as it keeps to 8192 |
| HttpChunked.OneChunk | js/internal/http-core.js:92-108 | one chunk is taken, or refused exactly when it passes the limit |
| HttpChunked.LastChunk | js/internal/http-core.js:103-116 | the last chunk and an empty trailer end the body with the next message untouched |
| HttpChunked.BodyRoundTrip | js/internal/http-core.js:92-116 | any chunks written are read back as their concatenation, exactly up to the next message, or refused exactly over the limit |
| HttpChunked.ResponseRoundTrip | js/internal/http-core.js:316-333 | header and chunked body of a response are read back |
| HttpChunked.Utf8Faithful | js/internal/text-codec.js:6-84 | the text codec is one the protocol can rely on |
| HttpStream.RecvHeaderLoop | js/internal/http-core.js:33-48 | recvHeader's loop |
| HttpStream.TakeTurn | js/internal/http-core.js:95-110 | one turn of recvChunkedBody |
| HttpStream.RecvChunkedLoop | js/internal/http-core.js:92-116 | recvChunkedBody's loop |
| HttpStream.WriteChunks | js/internal/http-core.js:318-333 | the generator loop of writeResponse |
| HttpStream.ReceiveResponse | js/internal/http-core.js:33-116 | a chunked response in any segments is received as its text, and the reader stops at the next message |
| WebSocket.XorMaskTwice | service-src/js-crypto.c:614-616 | masking twice is no masking |
| WebSocket.LengthRoundTrip | packages/websocket/lib/websocket-core.js:114-177 | the three length forms are read back |
| WebSocket.LengthShortest | packages/websocket/lib/websocket-core.js:114-141 | no length form that reads back is shorter than the one written |
| WebSocket.FrameRoundTrip | packages/websocket/lib/websocket-core.js:106-203 | readFrame undoes the frame format for every payload, opcode and mask; a server refuses exactly what is over its limit |
| WebSocket.UnknownRefused | packages/websocket/lib/websocket-core.js:165-212 | a whole frame of an unknown opcode is refused |
| WebSocket.FragmentsRead | packages/websocket/lib/websocket-core.js:659-715 | a fragmented message with pings and pongs in between is put together, given what was collected before |
| WebSocket.MessageRead | packages/websocket/lib/websocket-core.js:659-715 | every fragmentation is read as its data under the first opcode, each ping answered once in order; it fails exactly when it does not fit the limits |
| WebSocket.ServeByMessages | packages/websocket/lib/websocket-core.js:436-498 | serving a connection is reading message after message |
| WebSocket.ConnectionServed | packages/websocket/lib/websocket-core.js:436-498 | a whole connection: messages and pongs once each, in order, up to the close frame |
| WebSocket.MaskKeepsBuffer | packages/websocket/lib/websocket-core.js:150-157 | a masked write leaves the caller's buffer as it was exactly when the key is zero wherever the payload reaches |
| WebSocketStream.XorInPlace | service-src/js-crypto.c:614-616 | the in-place mask |
| WebSocketStream.WriteHeader | packages/websocket/lib/websocket-core.js:115-155 | the header filled in place in each length form |
| WebSocketStream.WriteFrame | packages/websocket/lib/websocket-core.js:106-163 | writes the frame of the payload as it was, and masks the caller's buffer in place |
| WebSocketStream.ReadFrameFrom | packages/websocket/lib/websocket-core.js:169-203 | reads one frame, or fails as specified |
| WebSocketStream.ReadMessageFrom | packages/websocket/lib/websocket-core.js:659-715 | the loop of read, with the pong bytes it sends |
| WebSocketStream.ServeConnection | packages/websocket/lib/websocket-core.js:436-498 | the loop of resolveAccept, with the pong and close bytes it sends |
| EventLoopDelays.DelayAsked | js/internal/event-loop.js:28-33 | a delay of 10 to 2147483647 ms becomes the least integer not below it; less, or no finite number, becomes 10, and more the maximum |
| EventLoopDelays.SetNeverEarly | js/internal/event-loop.js:233-257 | a timer set with a delay of x ms is, from then on, never started before x ms have passed, and listed until cancelled, or started if a one-shot |
| EventLoopDelays.NeverEarly | js/internal/event-loop.js:46-74 | in every run, after any point of it, no timer is started before it was due at that point, or before its delay has passed from then if it was refreshed, repeated or made since |
| EventLoopDelays.LaterTurn | js/internal/event-loop.js:136-149 | a repeating timer is due a full delay after its callback was started |
| EventLoopDelays.Refreshed | js/internal/event-loop.js:68-74 | refresh makes a live timer due a full delay from now |
| EventLoopDelays.LiveIsListed | js/internal/event-loop.js:233-263 | in every run a live timer is listed until cancelled, or started if a one-shot |
| EventLoopDelays.EarlyOnlyIfRefreshed | js/internal/event-loop.js:166-174 | a timer is started before it is due only if it was refreshed by a callback of the drain that had selected it |
| EventLoopDelays.RefreshedTooLate | js/internal/event-loop.js:166-174 | a run in which that happens: started at 15, due at 25 |
| EventLoop.MinDueLeast | js/internal/event-loop.js:181-185 | the earliest due time is that of a live referenced timer, and none is earlier |
| EventLoop.RunOpsPending | js/internal/event-loop.js:102-130 | each drained callback leaves less to drain, so drains end |
| EventLoopRuns.ScheduleWakeOk | js/internal/event-loop.js:190-204 | scheduleWake leaves no live referenced timer or immediate without a wake armed in time |
| EventLoopRuns.GoodOp | js/internal/event-loop.js:223-268 | every call keeps the lists, the armed wake and cancelled handles |
| EventLoopRuns.GoodDrain | js/internal/event-loop.js:124-130 | draining starts no timer or immediate and keeps the same |
| EventLoopRuns.DrainOrder | js/internal/event-loop.js:102-130 | nextTick callbacks run first, in order, at every check point; microtasks when none is left, and all of them before what they leave to nextTick |
| EventLoopRuns.CallEffects | js/internal/event-loop.js:223-268 | what each call does to queues and handles |
| EventLoopRuns.InvokeRuns | js/internal/event-loop.js:136-149 | starting a handle runs the callback it was given, and then drains the queues |
| EventLoopRuns.InvokeKeeps | js/internal/event-loop.js:136-149 | a started callback is recorded once and leaves the queues empty |
| EventLoopRuns.DueListSorted | js/internal/event-loop.js:166-174 | timers run in strict order of (due, id) |
| EventLoopRuns.RanInOrder | js/internal/event-loop.js:136-174 | what a phase starts is some of its list, in the order of the list, every one live and on quiet queues |
| EventLoopRuns.DrainTimersKeeps | js/internal/event-loop.js:166-174 | each timer due at entry, in its turn, is started exactly if not cancelled in the state its turn finds; in order of (due, id), and no other |
| EventLoopRuns.DrainImmediatesKeeps | js/internal/event-loop.js:151-164 | each immediate queued at entry, in its turn, is started exactly if not cancelled in the state its turn finds; new ones wait |
| EventLoopRuns.TickKeeps | js/internal/event-loop.js:206-221 | a tick keeps the invariant and loses no wake-up |
| EventLoopRuns.StepKeeps | js/internal/event-loop.js:190-221 | every event from outside keeps the invariant and loses no wake-up |
| EventLoopRuns.NoLostWakeUp | js/internal/event-loop.js:176-221 | in every run, whatever waits has a kernel timeout of the current generation due within 10 ms of its time or of now |
| EventLoopRuns.StartsAreQuietAndOnce | js/internal/event-loop.js:136-174 | in every run, timers and immediates start on empty nextTick and microtask queues, no cancelled one is ever started, and no one-shot starts twice |
| EventLoopRuns.TickDiscipline | js/internal/event-loop.js:206-221 | from any state of the invariant, the phases of a tick: what each starts, turn by turn, and in which order |
| EventLoopRuns.EventDiscipline | js/internal/event-loop.js:197-221 | in every run, an event either ticks with that discipline, from the host or on the kernel's timeout, or starts nothing |
| EventLoopRuns.StaleChangesNothing | js/internal/event-loop.js:197-202 | a stale generation changes no wake state |
| EventLoopWakes.WakeBeforeDueIff | js/internal/event-loop.js:176-204 | after scheduleWake the wake is no later than every live referenced timer's due time exactly if no immediate waits ahead of an overdue timer with no wake as early |
| EventLoopWakes.OpBound | js/internal/event-loop.js:223-268 | a call keeps that bound exactly if its own scheduleWake, if any, meets no such case |
| EventLoopWakes.OnlyRefOvertakes | js/internal/event-loop.js:50-98 | while the bound holds, only ref() can meet it |
| EventLoopWakes.TickBoundIff | js/internal/event-loop.js:206-221 | after any tick the bound holds exactly if the tick does not end with an immediate ahead of an overdue timer with no wake as early |
| EventLoopWakes.WakeBeforeDue | js/internal/event-loop.js:176-221 | in every run, between ticks, the bound holds as long as no event meets that case |
| EventLoopWakes.WakeCanBeLate | js/internal/event-loop.js:176-221 | a run after which the wake is armed for 25 with a live referenced timer due at 20 |
| EventLoopHost.TakeTick | js/internal/event-loop.js:102-114 | a queue taken whole runs as one drained callback by callback |
| EventLoopHost.Loop.Earliest | js/internal/event-loop.js:176-188 | earliestWake's scans |
| EventLoopHost.Loop.Schedule | js/internal/event-loop.js:190-204 | scheduleWake on the module state |
| EventLoopHost.Loop.Call | js/internal/event-loop.js:223-268 | each call on the module state |
| EventLoopHost.Loop.DrainTicks | js/internal/event-loop.js:102-114 | drainNextTick's taken queues |
| EventLoopHost.Loop.DrainAll | js/internal/event-loop.js:124-130 | drainMicrotasksAndNextTick |
| EventLoopHost.Loop.RunOne | js/internal/event-loop.js:136-149 | runTimer |
| EventLoopHost.Loop.DrainDue | js/internal/event-loop.js:166-174 | drainTimers |
| EventLoopHost.Loop.DrainQueued | js/internal/event-loop.js:151-164 | drainImmediates |
| EventLoopHost.Loop.DoTick | js/internal/event-loop.js:206-221 | tick |
| EventLoopHost.Loop.Deliver | js/internal/event-loop.js:197-202 | the kernel's timeout callback |
| StreamCore.Readable.Pump | js/internal/stream-core.js:119-136 | one pull, keeping at most one chunk queued |
| StreamCore.Readable.Read | js/internal/stream-core.js:102-118 | delivers the next bytes in order and keeps the rest, null exactly at the end |
| StreamCore.Readable.ReadMany | js/internal/stream-core.js:102-118 | however bytes are asked for, they are delivered in order |
| StreamCore.Pipe | js/internal/stream-core.js:230-247 | a pipe writes all of the source's chunks in order |
| StreamCore.OrderKeptIff | js/internal/stream-core.js:111-115 | pushing a remainder to the back keeps the order exactly when the queue behind it commutes with it |
| Formats.FrameBytes | service-src/skyclusterd.c:156-170 | a frame is its length, high byte first, and its bytes |
| Formats.SmallRequestBytes | service-src/skyclusterd.c:750-790 | a small request frame, byte by byte |
| Formats.LargeRequestBytes | service-src/skyclusterd.c:750-820 | a multipart request header, byte by byte |
| Formats.PartBytes | service-src/skyclusterd.c:790-820 | the parts of a request: 32768 bytes each but the last, marked 2 and 3 |
| Formats.SmallResponseBytes | service-src/skyclusterd.c:350-361 | a small response frame, byte by byte |
| Formats.LargeResponseBytes | service-src/skyclusterd.c:362-370 | a multipart response header, byte by byte |
| Formats.ResponsePartBytes | service-src/skyclusterd.c:370-383 | the parts of a response, marked 3 and 4 |
| Formats.ScalarBytes | service-src/js-seri.c:152-204 | nil, booleans and numbers, byte by byte |
| Formats.TextBytes | service-src/js-seri.c:205-229 | strings behind one byte, or a length of two or four |
| Formats.TableBytes | service-src/js-seri.c:295-335 | tables: how many items, items, keys and values, nil |
| Formats.NilRead | service-src/js-seri.c:579-594 | nil and booleans are read whatever the rest of the first byte |
| Formats.ZeroRead | service-src/js-seri.c:591-603 | zero and other doubles are read |
| Formats.InvalidRead | service-src/js-seri.c:579-635 | types 3 and 7 and unknown cookies are invalid |
| Formats.SmallIntegerRead | service-src/js-seri.c:231-265 | integers of one and two bytes are read as numbers from 0 |
| Formats.IntegerRead | service-src/js-seri.c:231-265 | integers of four bytes are read signed |
| Formats.BigIntegerRead | service-src/js-seri.c:231-265 | integers of eight bytes are read signed, as big integers |
| Formats.FrameLayout | packages/websocket/lib/websocket-core.js:106-163 | a frame bit by bit: FIN and opcode, mask bit and length in its three forms, key, payload xor key (sections 5.2 and 5.3 of RFC 6455) |

## Left out

- ClusterNode.Clusterd.Handle: connections, nodes and queues are sequences held in fields; the memmove of receive buffers and the linked queue nodes are not modelled, because sequences carry the same contents.
- ClusterNode.Clusterd.SendRequest: frame contents are sequences; the fixed scratch buffers, which only suit short names, are not modelled.
- ClusterTheorems.EndToEnd: large pushes are not among the requests delivered, because the code drops them; the exact condition is ClusterWire.RequestArrivesIff.
- ClusterTheorems.LinkState: with a reply astray on the socket, what was written is not the requests' frames; the exact condition is in the contract, and ClusterAstray.CallOutOfNothing is such a run.
- ClusterReplies.ReplyRouted: only while the connection stays open, because the code remembers a table slot; the exact condition is ClusterReplies.ReplyReachesIff.
- ClusterReplies.ReplyDelivered: an error text is at most one frame long, because every error the service sends is a short constant.
- ClusterRoundTrip.RoundTrip: that the other node handles the call of the very request is a premise here; ClusterTheorems.EndToEnd says when it does.
- ClusterRuns.GoodSend: starts from parsed commands; sscanf and the hex address syntax are not modelled.
- Kernel sessions in the cluster service are a counter, and socket ids are taken to be fresh.
- NetPack.NetPack.Filter: DATA buffers are not empty, as the socket layer promises, and partial payloads are sequences rather than malloc'd blocks.
- Gate.GateServer.Drain: a handler that throws in the middle leaves the rest of the queue for the next "more" event, so that a single packet dispatched at once may overtake it; handlers here return, and close no socket while the queue is drained.
- Gate.GateServer.OnData: likewise.
- Gate.GateServer.OnEnded: the end of the listen socket, and the user's connect, disconnect and error handlers, are not modelled.
- Gate.LimitKept: only while ends are reported of sockets that were let in; Gate.LimitPassed is a run in which one is not.
- Seri.UnpackPack: strings are their UTF-8 bytes, non-integral doubles their eight bytes, big integers fit 64 bits; minus zero is packed as 0 and not told apart.
- SeriStream.WriteBlock.PackOne: stops at the first refusal; the code goes on to the value after a refused key with a freed buffer, where its growth loop would not end.
- Seri.Decode: a string length of 2^31 or more is an invalid stream here; the code passes it on as a negative int.
- SeriStream.ReadBlock.UnpackScalar: likewise.
- SeriStream.WriteBlock.Push: the allocator failing before the ceiling is not modelled.
- Des.CipherIsStandard: the tables and the key words are parameters; the numbers in the tables and des_main_ks, which makes the key words of a key, are not modelled.
- DesText.RemovePkcs7: the count stops at the front of the text; the code may read before it when the last byte is large, and refuses either way.
- Sha.Digest: the block transforms are parameters, so the compression functions themselves are not modelled; MD5 and hmac64 are left out.
- Hmac.HmacOf: the digest fits a block, as it does for the three instances.
- PosixPath.ResolveRelative: the working directory is absolute, which setCwd keeps; basename, dirname, extname, parse and format would add easy members.
- BufferedReader.AnswersAreFlat: a line is its bytes; the text decoder readline applies to it is in Utf8 and HttpChunked.
- HttpChunked.ResponseRoundTrip: header fields have no line end inside; merging of header fields, trailers with fields and bodies by content-length are not modelled, and sizes are exact integers.
- WebSocketStream.ReadMessageFrom: the adapter's reader is the one of net-core.js; the random masks of a client are a list given beforehand.
- WebSocketStream.ServeConnection: handler callbacks, a connection closed by a handler between frames, and the opening handshake are not modelled.
- EventLoopDelays.NeverEarly: a timer refreshed by a callback of the drain that had already selected it is started all the same; EventLoopDelays.RefreshedTooLate is such a run.
- EventLoopRuns.NoLostWakeUp: the clock does not move between two looks inside one function; the ticking flag is not modelled, because ticks are only started from outside a tick; a callback that throws is one that makes fewer calls.
- StreamCore.Pipe: the sink takes every chunk at once; backpressure, end and abort are not modelled.
- StreamCore.Readable.Read: one read at a time, and a source that does not fail; Writable and the pipeline are not modelled.
- The JavaScript engine, the skynet kernel, sockets, TLS, zlib, files and subprocesses, and the facades over them.
