/** The frame codec and the message loops of websocket-core.js (sections 5.2 to 5.5 of RFC 6455). */
module WebSocket {
  import opened Wrappers
  import opened Bytes
  import opened BufferedReader

  const MAX_FRAME_SIZE: nat := 0x4_0000
  const EXACT: nat := 0x20_0000_0000_0000

  datatype Opcode = Continuation | TextOp | Binary | CloseOp | Ping | Pong

  /** The opCode table. */
  function OpValue(op: Opcode): (v: nat)
    ensures v < 16
  {
    match op
    case Continuation => 0
    case TextOp => 1
    case Binary => 2
    case CloseOp => 8
    case Ping => 9
    case Pong => 10
  }

  /** The opName table. */
  function OpName(v: nat): Option<Opcode>
  {
    if v == 0 then Some(Continuation)
    else if v == 1 then Some(TextOp)
    else if v == 2 then Some(Binary)
    else if v == 8 then Some(CloseOp)
    else if v == 9 then Some(Ping)
    else if v == 10 then Some(Pong)
    else None
  }

  type Key = k: Bytes | |k| == 4 witness [0, 0, 0, 0]

  /** The bytes from position i on, each against its byte of the key. */
  function XorFrom(data: Bytes, key: Key, i: nat): (r: Bytes)
    ensures |r| == |data|
    decreases |data|
  {
    if data == [] then [] else [Xor(data[0], key[i % 4])] + XorFrom(data[1..], key, i + 1)
  }

  /** crypt_xor_inplace with a four-byte key. */
  function XorMask(data: Bytes, key: Key): (r: Bytes)
    ensures |r| == |data|
  {
    XorFrom(data, key, 0)
  }

  lemma {:induction false} XorFromTwice(data: Bytes, key: Key, i: nat)
    ensures XorFrom(XorFrom(data, key, i), key, i) == data
    decreases |data|
  {
    if data != [] {
      XorTwice(data[0], key[i % 4]);
      XorFromTwice(data[1..], key, i + 1);
      assert XorFrom(data, key, i)[1..] == XorFrom(data[1..], key, i + 1);
    }
  }

  /** Masking twice with one key is no masking. */
  lemma XorMaskTwice(data: Bytes, key: Key)
    ensures XorMask(XorMask(data, key), key) == data
  {
    XorFromTwice(data, key, 0);
  }

  datatype Frame = Frame(fin: bool, op: Opcode, payload: Bytes)

  /* ---- one frame on the wire ---- */

  /** The length in one of its three forms, behind the mask bit. */
  function LengthField(masked: bool, n: nat): (r: Bytes)
  {
    var bit := if masked then 128 else 0;
    if n < 126 then [bit + n]
    else if n <= 0xffff then [bit + 126] + BE(n, 2)
    else [bit + 127] + (BE(n / TWO_32, 4) + BE(n % TWO_32, 4))
  }

  function FirstByte(fin: bool, op: Opcode): Byte { (if fin then 128 else 0) + OpValue(op) }

  function KeyField(mask: Option<Key>): Bytes { if mask.Some? then mask.value else [] }

  function Masked(payload: Bytes, mask: Option<Key>): Bytes
  {
    if mask.Some? then XorMask(payload, mask.value) else payload
  }

  function EncodeFrame(f: Frame, mask: Option<Key>): Bytes
  {
    [FirstByte(f.fin, f.op)] + LengthField(mask.Some?, |f.payload|) + KeyField(mask) + Masked(f.payload, mask)
  }

  /** Received: a frame and what is left, a frame refused (with an exception), or the stream ended. */
  datatype Received = Whole(frame: Frame, rest: Bytes) | Refused | Cut

  /** The extended length, if the seven bits announce one. */
  function ReadLength(short: nat, b: Bytes): (r: Read<nat>)
    ensures r.Got? ==> |r.rest| <= |b|
  {
    if short == 126 then
      match NextBytes(2, b) case Ended => Ended case Got(x, rest) => Got(GetBE(x), rest)
    else if short == 127 then
      match NextBytes(8, b) case Ended => Ended case Got(x, rest) => Got(GetBE(x[..4]) * TWO_32 + GetBE(x[4..]), rest)
    else Got(short, b)
  }

  function ReadKey(masked: bool, b: Bytes): (r: Read<Option<Key>>)
    ensures r.Got? ==> |r.rest| <= |b|
  {
    if !masked then Got(None, b)
    else match NextBytes(4, b) case Ended => Ended case Got(x, rest) => Got(Some(x), rest)
  }

  /** readFrame. */
  function ReadFrame(b: Bytes, server: bool): (r: Received)
    ensures r.Whole? ==> |r.rest| < |b|
  {
    match NextBytes(2, b)
    case Ended => Cut
    case Got(v, b1) =>
      match ReadLength(v[1] as int % 128, b1)
      case Ended => Cut
      case Got(n, b2) =>
        if server && n > MAX_FRAME_SIZE then Refused
        else
          match ReadKey(v[1] >= 128, b2)
          case Ended => Cut
          case Got(mask, b3) =>
            match NextBytes(n, b3)
            case Ended => Cut
            case Got(data, rest) =>
              match OpName(v[0] as int % 16)
              case None => Refused
              case Some(op) => Whole(Frame(v[0] >= 128, op, Masked(data, mask)), rest)
  }

  /** What LengthField puts in the second byte's low seven bits. */
  function Short(n: nat): nat { if n < 126 then n else if n <= 0xffff then 126 else 127 }

  lemma LengthRoundTrip(masked: bool, n: nat, s: Bytes)
    requires n < EXACT
    ensures var l := LengthField(masked, n);
            && l[0] as int == (if masked then 128 else 0) + Short(n)
            && ReadLength(Short(n), l[1..] + s) == Got(n, s)
  {
    Pow256Values();
    var l := LengthField(masked, n);
    if n < 126 {
      assert l[1..] + s == s;
    } else if n <= 0xffff {
      BERoundTrip(n, 2);
      NextBytesFront(BE(n, 2), s);
    } else {
      var hi, lo := BE(n / TWO_32, 4), BE(n % TWO_32, 4);
      assert l[1..] == hi + lo && (hi + lo)[..4] == hi && (hi + lo)[4..] == lo;
      BERoundTrip(n / TWO_32, 4);
      BERoundTrip(n % TWO_32, 4);
      NextBytesFront(hi + lo, s);
    }
  }

  lemma GetBERange(b: Bytes)
    requires |b| == 2
    ensures GetBE(b) < 0x10000
  {
    assert GetBE(b) == 256 * (256 * GetBE(b[..1][..0]) + b[..1][0] as int) + b[1] as int;
  }

  /** No length form that reads back n is shorter than the one written (section 5.2 of RFC 6455). */
  lemma LengthShortest(masked: bool, n: nat, short: nat, b: Bytes)
    requires short < 128 && ReadLength(short, b) == Got(n, [])
    ensures |LengthField(masked, n)| - 1 <= |b|
  {
    if short == 126 {
      assert b[..2] == b;
      GetBERange(b);
    }
  }

  lemma KeyRoundTrip(mask: Option<Key>, s: Bytes)
    ensures ReadKey(mask.Some?, KeyField(mask) + s) == Got(mask, s)
  {
    if mask.Some? {
      NextBytesFront(mask.value, s);
    } else {
      assert [] + s == s;
    }
  }

  /** The frame's pieces as readFrame takes them apart. */
  lemma FrameBytes(f: Frame, mask: Option<Key>, s: Bytes)
    requires |f.payload| < EXACT
    ensures var l := LengthField(mask.Some?, |f.payload|);
            EncodeFrame(f, mask) + s ==
            [FirstByte(f.fin, f.op), l[0]] + (l[1..] + (KeyField(mask) + (Masked(f.payload, mask) + s)))
  {
    var l, k, m := LengthField(mask.Some?, |f.payload|), KeyField(mask), Masked(f.payload, mask);
    Assoc([FirstByte(f.fin, f.op)] + l + k, m, s);
    Assoc([FirstByte(f.fin, f.op)] + l, k, m + s);
    SplitHead(FirstByte(f.fin, f.op), l, k + (m + s));
  }

  lemma SplitHead(h: Byte, l: Bytes, s: Bytes)
    requires l != []
    ensures [h] + l + s == [h, l[0]] + (l[1..] + s)
  {
  }

  lemma FrameParts(b: Bytes, server: bool, v: Bytes, b1: Bytes, n: nat, b2: Bytes, mask: Option<Key>, b3: Bytes,
                   data: Bytes, rest: Bytes, op: Opcode)
    requires |v| == 2 && NextBytes(2, b) == Got(v, b1)
    requires ReadLength(v[1] as int % 128, b1) == Got(n, b2)
    requires ReadKey(v[1] >= 128, b2) == Got(mask, b3)
    requires NextBytes(n, b3) == Got(data, rest) && OpName(v[0] as int % 16) == Some(op)
    ensures ReadFrame(b, server) ==
            if server && n > MAX_FRAME_SIZE then Refused else Whole(Frame(v[0] >= 128, op, Masked(data, mask)), rest)
  {
  }

  lemma FramePieces(v: Bytes, l: Bytes, k: Bytes, m: Bytes, s: Bytes, n: nat, mask: Option<Key>, server: bool, op: Opcode)
    requires |v| == 2 && |m| == n && OpName(v[0] as int % 16) == Some(op)
    requires ReadLength(v[1] as int % 128, l + (k + (m + s))) == Got(n, k + (m + s))
    requires ReadKey(v[1] >= 128, k + (m + s)) == Got(mask, m + s)
    ensures ReadFrame(v + (l + (k + (m + s))), server) ==
            if server && n > MAX_FRAME_SIZE then Refused else Whole(Frame(v[0] >= 128, op, Masked(m, mask)), s)
  {
    NextBytesFront(v, l + (k + (m + s)));
    NextBytesFront(m, s);
    FrameParts(v + (l + (k + (m + s))), server, v, l + (k + (m + s)), n, k + (m + s), mask, m + s, m, s, op);
  }

  lemma MaskedTwice(payload: Bytes, mask: Option<Key>)
    ensures Masked(Masked(payload, mask), mask) == payload && |Masked(payload, mask)| == |payload|
  {
    if mask.Some? {
      XorMaskTwice(payload, mask.value);
    }
  }

  lemma FirstByteRoundTrip(fin: bool, op: Opcode)
    ensures OpName(FirstByte(fin, op) as int % 16) == Some(op) && (FirstByte(fin, op) >= 128 <==> fin)
  {
  }

  /** readFrame undoes the frame format for every payload, opcode and mask, whatever follows; a
      server refuses exactly the payloads over its limit. */
  lemma FrameRoundTrip(f: Frame, mask: Option<Key>, s: Bytes, server: bool)
    requires |f.payload| < EXACT
    ensures ReadFrame(EncodeFrame(f, mask) + s, server) ==
            if server && |f.payload| > MAX_FRAME_SIZE then Refused else Whole(f, s)
  {
    var n, k, m := |f.payload|, KeyField(mask), Masked(f.payload, mask);
    var l := LengthField(mask.Some?, n);
    var v := [FirstByte(f.fin, f.op), l[0]];
    MaskedTwice(f.payload, mask);
    FirstByteRoundTrip(f.fin, f.op);
    assert Frame(v[0] >= 128, f.op, Masked(m, mask)) == f;
    LengthRoundTrip(mask.Some?, n, k + (m + s));
    assert (v[1] >= 128 <==> mask.Some?) && v[1] as int % 128 == Short(n);
    KeyRoundTrip(mask, m + s);
    FramePieces(v, l[1..], k, m, s, n, mask, server, f.op);
    FrameBytes(f, mask, s);
  }

  /** A whole frame of an opcode the tables do not have is refused. */
  lemma UnknownRefused(b0: Byte, n: nat, data: Bytes, s: Bytes, server: bool)
    requires b0 % 16 !in {0, 1, 2, 8, 9, 10} && n == |data| < 126
    ensures ReadFrame([b0, n] + (data + s), server) == Refused
  {
    NextBytesFront([b0, n], data + s);
    NextBytesFront(data, s);
  }

  /* ---- a message ---- */

  /** Fragments collected so far: the first one's opcode and all their bytes. */
  datatype Parts = Parts(op: Opcode, bytes: Bytes)

  datatype Result =
    | Message(data: Bytes, op: Opcode)
    | Closed(payload: Bytes)
    | Failed

  /** What reading one message comes to, the pings answered on the way, in order, and what is left. */
  datatype Reading = Reading(result: Result, pongs: seq<Bytes>, rest: Bytes)

  function Collect(parts: Option<Parts>, f: Frame): Parts
  {
    if parts.None? then Parts(f.op, f.payload) else Parts(parts.value.op, parts.value.bytes + f.payload)
  }

  /** The loop of read, over whatever gives the next frame. */
  function MessageLoop(next: Bytes -> Received, b: Bytes, parts: Option<Parts>): Reading
    decreases |b|
  {
    match next(b)
    case Cut => Reading(Failed, [], [])
    case Refused => Reading(Failed, [], [])
    case Whole(f, rest) =>
      if |rest| >= |b| then Reading(Failed, [], [])
      else
        match f.op
        case CloseOp => Reading(Closed(f.payload), [], rest)
        case Ping => AddPong(f.payload, MessageLoop(next, rest, parts))
        case Pong => MessageLoop(next, rest, parts)
        case _ =>
          if f.fin && parts.None? then Reading(Message(f.payload, f.op), [], rest)
          else
            var all := Collect(parts, f);
            if |all.bytes| > MAX_FRAME_SIZE then Reading(Failed, [], [])
            else if f.fin then Reading(Message(all.bytes, all.op), [], rest)
            else MessageLoop(next, rest, Some(all))
  }

  function AddPong(payload: Bytes, o: Reading): Reading { o.(pongs := [payload] + o.pongs) }

  function FrameOf(server: bool): Bytes -> Received { (b: Bytes) => ReadFrame(b, server) }

  /** read: one message off the stream. */
  function ReadMessage(b: Bytes, server: bool): Reading { MessageLoop(FrameOf(server), b, None) }

  datatype Sent = Sent(frame: Frame, mask: Option<Key>)

  predicate Control(f: Frame) { f.op == Ping || f.op == Pong }

  /** One message as frames: fragments up to the final one, pings and pongs anywhere before it. */
  predicate Fragments(fs: seq<Sent>)
  {
    && fs != []
    && |fs[0].frame.payload| < EXACT
    && if Control(fs[0].frame) then Fragments(fs[1..])
       else fs[0].frame.op != CloseOp && if fs[0].frame.fin then |fs| == 1 else Fragments(fs[1..])
  }

  function Wire(fs: seq<Sent>): Bytes
  {
    if fs == [] then [] else EncodeFrame(fs[0].frame, fs[0].mask) + Wire(fs[1..])
  }

  /** The data fragments put together. */
  function Data(fs: seq<Sent>): Bytes
  {
    if fs == [] then []
    else (if Control(fs[0].frame) then [] else fs[0].frame.payload) + Data(fs[1..])
  }

  function FirstOp(fs: seq<Sent>): Opcode
    requires Fragments(fs)
  {
    if Control(fs[0].frame) then FirstOp(fs[1..]) else fs[0].frame.op
  }

  function Pings(fs: seq<Sent>): seq<Bytes>
  {
    if fs == [] then []
    else (if fs[0].frame.op == Ping then [fs[0].frame.payload] else []) + Pings(fs[1..])
  }

  /** Is the message cut in more than one fragment? */
  predicate Split(fs: seq<Sent>)
    requires Fragments(fs)
  {
    if Control(fs[0].frame) then Split(fs[1..]) else !fs[0].frame.fin
  }

  predicate ControlsFit(fs: seq<Sent>)
  {
    forall x :: x in fs && Control(x.frame) ==> |x.frame.payload| <= MAX_FRAME_SIZE
  }

  /** What a reader accepts: a split message within the limit in all; for a server also every frame. */
  predicate Fits(fs: seq<Sent>, server: bool, have: nat, started: bool)
    requires Fragments(fs)
  {
    && (server ==> ControlsFit(fs))
    && (server || started || Split(fs) ==> have + |Data(fs)| <= MAX_FRAME_SIZE)
  }

  function Total(parts: Option<Parts>): nat { if parts.None? then 0 else |parts.value.bytes| }

  /** What the next frame is in front of any list of frames. */
  ghost predicate TakesFrames(next: Bytes -> Received, server: bool, rest: Bytes)
  {
    forall fs: seq<Sent> :: fs != [] && |fs[0].frame.payload| < EXACT ==>
      next(Wire(fs) + rest) ==
      if server && |fs[0].frame.payload| > MAX_FRAME_SIZE then Refused else Whole(fs[0].frame, Wire(fs[1..]) + rest)
  }

  lemma FramesTaken(server: bool, rest: Bytes)
    ensures TakesFrames(FrameOf(server), server, rest)
  {
    forall fs: seq<Sent> | fs != [] && |fs[0].frame.payload| < EXACT
      ensures FrameOf(server)(Wire(fs) + rest) ==
              if server && |fs[0].frame.payload| > MAX_FRAME_SIZE then Refused
              else Whole(fs[0].frame, Wire(fs[1..]) + rest)
    {
      Assoc(EncodeFrame(fs[0].frame, fs[0].mask), Wire(fs[1..]), rest);
      FrameRoundTrip(fs[0].frame, fs[0].mask, Wire(fs[1..]) + rest, server);
    }
  }

  lemma WireLonger(fs: seq<Sent>, rest: Bytes)
    requires fs != []
    ensures |Wire(fs[1..]) + rest| < |Wire(fs) + rest|
  {
  }

  /** How a well-formed list of fragments is read, given what was collected before it. */
  ghost predicate ReadsAs(o: Reading, fs: seq<Sent>, rest: Bytes, server: bool, parts: Option<Parts>)
    requires Fragments(fs)
  {
    if Fits(fs, server, Total(parts), parts.Some?) then
      o == Reading(Message(Bytes0(parts) + Data(fs), if parts.Some? then parts.value.op else FirstOp(fs)), Pings(fs), rest)
    else o.result == Failed
  }

  function Bytes0(parts: Option<Parts>): Bytes { if parts.Some? then parts.value.bytes else [] }

  lemma LoopStep(next: Bytes -> Received, b: Bytes, f: Frame, rest: Bytes, parts: Option<Parts>)
    requires next(b) == Whole(f, rest) && |rest| < |b| && f.op != CloseOp
    ensures MessageLoop(next, b, parts) ==
            if f.op == Ping then AddPong(f.payload, MessageLoop(next, rest, parts))
            else if f.op == Pong then MessageLoop(next, rest, parts)
            else if f.fin && parts.None? then Reading(Message(f.payload, f.op), [], rest)
            else
              var all := Collect(parts, f);
              if |all.bytes| > MAX_FRAME_SIZE then Reading(Failed, [], [])
              else if f.fin then Reading(Message(all.bytes, all.op), [], rest)
              else MessageLoop(next, rest, Some(all))
  {
  }

  lemma ControlReads(o: Reading, fs: seq<Sent>, rest: Bytes, server: bool, parts: Option<Parts>)
    requires Fragments(fs) && Control(fs[0].frame) && (server ==> |fs[0].frame.payload| <= MAX_FRAME_SIZE)
    requires ReadsAs(o, fs[1..], rest, server, parts)
    ensures ReadsAs(if fs[0].frame.op == Ping then AddPong(fs[0].frame.payload, o) else o, fs, rest, server, parts)
  {
    ControlsSplit(fs);
    assert Data(fs) == [] + Data(fs[1..]) == Data(fs[1..]);
    if fs[0].frame.op == Pong {
      assert Pings(fs) == [] + Pings(fs[1..]) == Pings(fs[1..]);
    }
  }

  lemma FragmentReads(o: Reading, fs: seq<Sent>, rest: Bytes, server: bool, parts: Option<Parts>)
    requires Fragments(fs) && !Control(fs[0].frame) && !fs[0].frame.fin
    requires ReadsAs(o, fs[1..], rest, server, Some(Collect(parts, fs[0].frame)))
    ensures ReadsAs(o, fs, rest, server, parts)
  {
    var f, more := fs[0].frame, fs[1..];
    ControlsSplit(fs);
    Assoc(Bytes0(parts), f.payload, Data(more));
    assert Collect(parts, f).bytes == Bytes0(parts) + f.payload;
    assert Pings(fs) == [] + Pings(more) == Pings(more);
  }

  lemma FinalReads(fs: seq<Sent>, rest: Bytes, server: bool, parts: Option<Parts>)
    requires Fragments(fs) && !Control(fs[0].frame) && fs[0].frame.fin
    requires server ==> |fs[0].frame.payload| <= MAX_FRAME_SIZE
    ensures var all := Collect(parts, fs[0].frame);
            ReadsAs(if parts.Some? && |all.bytes| > MAX_FRAME_SIZE then Reading(Failed, [], [])
                    else Reading(Message(all.bytes, all.op), [], Wire(fs[1..]) + rest), fs, rest, server, parts)
  {
    var f, more := fs[0].frame, fs[1..];
    assert more == [] && Wire(more) + rest == rest;
    ControlsSplit(fs);
    assert Data(fs) == f.payload + [] == f.payload && Pings(fs) == [];
    assert Collect(parts, f).bytes == Bytes0(parts) + f.payload;
  }

  lemma {:induction false} FragmentsRead(next: Bytes -> Received, fs: seq<Sent>, rest: Bytes, server: bool,
                                         parts: Option<Parts>)
    requires Fragments(fs) && TakesFrames(next, server, rest)
    ensures ReadsAs(MessageLoop(next, Wire(fs) + rest, parts), fs, rest, server, parts)
    decreases |fs|
  {
    var f, more, b, left := fs[0].frame, fs[1..], Wire(fs) + rest, Wire(fs[1..]) + rest;
    WireLonger(fs, rest);
    if server && |f.payload| > MAX_FRAME_SIZE {
      assert next(b) == Refused;
      ControlsSplit(fs);
    } else {
      assert next(b) == Whole(f, left);
      LoopStep(next, b, f, left, parts);
      var all := Collect(parts, f);
      if Control(f) {
        FragmentsRead(next, more, rest, server, parts);
        ControlReads(MessageLoop(next, left, parts), fs, rest, server, parts);
      } else if f.fin {
        FinalReads(fs, rest, server, parts);
      } else if |all.bytes| <= MAX_FRAME_SIZE {
        FragmentsRead(next, more, rest, server, Some(all));
        FragmentReads(MessageLoop(next, left, Some(all)), fs, rest, server, parts);
      }
    }
  }

  /** Every fragmentation with pings and pongs in between is read as its data put together under the
      first opcode, each ping answered once with its own payload, in order, and nothing after the
      message touched; it fails exactly when it does not fit the limits. */
  lemma MessageRead(fs: seq<Sent>, rest: Bytes, server: bool)
    requires Fragments(fs)
    ensures var o := ReadMessage(Wire(fs) + rest, server);
            if Fits(fs, server, 0, false) then
              o == Reading(Message(Data(fs), FirstOp(fs)), Pings(fs), rest)
            else o.result == Failed
  {
    FramesTaken(server, rest);
    FragmentsRead(FrameOf(server), fs, rest, server, None);
    assert [] + Data(fs) == Data(fs);
  }

  lemma ControlsSplit(fs: seq<Sent>)
    requires fs != []
    ensures ControlsFit(fs) <==>
            ControlsFit(fs[1..]) && (Control(fs[0].frame) ==> |fs[0].frame.payload| <= MAX_FRAME_SIZE)
  {
    assert forall x :: x in fs <==> x == fs[0] || x in fs[1..];
  }

  /* ---- a connection ---- */

  /** What the server's loop hands over: messages in order, pings answered in order, and whether the
      peer closed (rather than an exception ending it). */
  datatype Served = Served(messages: seq<(Bytes, Opcode)>, pongs: seq<Bytes>, closed: bool)

  /** The loop of resolveAccept. */
  function ServeLoop(next: Bytes -> Received, b: Bytes, parts: Option<Parts>): Served
    decreases |b|
  {
    match next(b)
    case Cut => Served([], [], false)
    case Refused => Served([], [], false)
    case Whole(f, rest) =>
      if |rest| >= |b| then Served([], [], false)
      else
        match f.op
        case CloseOp => Served([], [], true)
        case Ping => var s := ServeLoop(next, rest, parts); s.(pongs := [f.payload] + s.pongs)
        case Pong => ServeLoop(next, rest, parts)
        case _ =>
          if f.fin && parts.None? then
            var s := ServeLoop(next, rest, None);
            s.(messages := [(f.payload, f.op)] + s.messages)
          else
            var all := Collect(parts, f);
            if |all.bytes| > MAX_FRAME_SIZE then Served([], [], false)
            else if f.fin then
              var s := ServeLoop(next, rest, None);
              s.(messages := [(all.bytes, all.op)] + s.messages)
            else ServeLoop(next, rest, Some(all))
  }

  function Serve(b: Bytes, server: bool): Served { ServeLoop(FrameOf(server), b, None) }

  /** One message, then the rest of the connection. */
  ghost predicate ServesAs(s: Served, o: Reading, next: Bytes -> Received)
  {
    match o.result
    case Message(data, op) =>
      var later := ServeLoop(next, o.rest, None);
      s == Served([(data, op)] + later.messages, o.pongs + later.pongs, later.closed)
    case Closed(_) => s == Served([], o.pongs, true)
    case Failed => s == Served([], o.pongs, false)
  }

  /** Serving a connection is reading message after message. */
  lemma {:induction false} ServeByMessages(next: Bytes -> Received, b: Bytes, parts: Option<Parts>)
    ensures ServesAs(ServeLoop(next, b, parts), MessageLoop(next, b, parts), next)
    decreases |b|
  {
    var r := next(b);
    if r.Whole? && |r.rest| < |b| && r.frame.op != CloseOp {
      var f := r.frame;
      LoopStep(next, b, f, r.rest, parts);
      if f.op == Ping {
        ServeByMessages(next, r.rest, parts);
        PingServes(ServeLoop(next, r.rest, parts), MessageLoop(next, r.rest, parts), f.payload, next);
      } else if f.op == Pong {
        ServeByMessages(next, r.rest, parts);
      } else if f.fin {
        var later := ServeLoop(next, r.rest, None);
        assert [] + later.pongs == later.pongs;
      } else if |Collect(parts, f).bytes| <= MAX_FRAME_SIZE {
        ServeByMessages(next, r.rest, Some(Collect(parts, f)));
      }
    }
  }

  lemma PingServes(s: Served, o: Reading, payload: Bytes, next: Bytes -> Received)
    requires ServesAs(s, o, next)
    ensures ServesAs(s.(pongs := [payload] + s.pongs), AddPong(payload, o), next)
  {
    if o.result.Message? {
      var later := ServeLoop(next, o.rest, None);
      Assoc([payload], o.pongs, later.pongs);
    }
  }

  function WireAll(scripts: seq<seq<Sent>>): Bytes
  {
    if scripts == [] then [] else Wire(scripts[0]) + WireAll(scripts[1..])
  }

  predicate AllFit(scripts: seq<seq<Sent>>, server: bool)
  {
    forall i :: 0 <= i < |scripts| ==> Fragments(scripts[i]) && Fits(scripts[i], server, 0, false)
  }

  function Messages(scripts: seq<seq<Sent>>): seq<(Bytes, Opcode)>
    requires forall i :: 0 <= i < |scripts| ==> Fragments(scripts[i])
  {
    if scripts == [] then [] else [(Data(scripts[0]), FirstOp(scripts[0]))] + Messages(scripts[1..])
  }

  function AllPings(scripts: seq<seq<Sent>>): seq<Bytes>
  {
    if scripts == [] then [] else Pings(scripts[0]) + AllPings(scripts[1..])
  }

  /** A whole connection: every message is handed over once, in order, and every ping answered once,
      in order, up to the close frame. */
  lemma {:induction false} ConnectionServed(scripts: seq<seq<Sent>>, close: Sent, server: bool)
    requires AllFit(scripts, server)
    requires close.frame.op == CloseOp && |close.frame.payload| <= MAX_FRAME_SIZE
    ensures Serve(WireAll(scripts) + EncodeFrame(close.frame, close.mask), server) ==
            Served(Messages(scripts), AllPings(scripts), true)
  {
    var end := EncodeFrame(close.frame, close.mask);
    var next := FrameOf(server);
    if scripts == [] {
      FrameRoundTrip(close.frame, close.mask, [], server);
      assert end + [] == end && [] + end == end;
      assert next(end) == Whole(close.frame, []);
    } else {
      var fs, more := scripts[0], scripts[1..];
      assert AllFit(more, server);
      Assoc(Wire(fs), WireAll(more), end);
      MessageRead(fs, WireAll(more) + end, server);
      ServeByMessages(next, Wire(fs) + (WireAll(more) + end), None);
      ConnectionServed(more, close, server);
    }
  }

  /* ---- masking in place ---- */

  lemma {:induction false} XorBitsKeeps(bits: nat, a: nat, b: nat)
    requires a < Pow2(bits) && b < Pow2(bits)
    ensures XorBits(bits, a, b) == a <==> b == 0
  {
    if bits > 0 {
      XorBitsKeeps(bits - 1, a / 2, b / 2);
    }
  }

  lemma XorKeeps(a: Byte, b: Byte)
    ensures Xor(a, b) == a <==> b == 0
  {
    Pow2Eight();
    XorBitsKeeps(8, a as int, b as int);
  }

  /** Is the key zero wherever n bytes from position i meet it? */
  predicate ZeroOver(key: Key, i: nat, n: nat)
    decreases n
  {
    n == 0 || (key[i % 4] == 0 && ZeroOver(key, i + 1, n - 1))
  }

  lemma {:induction false} XorFromKeeps(data: Bytes, key: Key, i: nat)
    ensures XorFrom(data, key, i) == data <==> ZeroOver(key, i, |data|)
    decreases |data|
  {
    if data != [] {
      XorKeeps(data[0], key[i % 4]);
      XorFromKeeps(data[1..], key, i + 1);
      var r := XorFrom(data, key, i);
      assert r[1..] == XorFrom(data[1..], key, i + 1) && r[0] == Xor(data[0], key[i % 4]);
      assert r == [r[0]] + r[1..] && data == [data[0]] + data[1..];
    }
  }

  lemma {:induction false} ZeroKey(key: Key, i: nat, n: nat)
    requires key[0] == key[1] == key[2] == key[3] == 0
    ensures ZeroOver(key, i, n)
    decreases n
  {
    if n > 0 {
      assert i % 4 == 0 || i % 4 == 1 || i % 4 == 2 || i % 4 == 3;
      ZeroKey(key, i + 1, n - 1);
    }
  }

  lemma ZeroOverIff(key: Key, n: nat)
    ensures ZeroOver(key, 0, n) <==> forall j :: 0 <= j < 4 && j < n ==> key[j] == 0
  {
    if n >= 4 {
      assert ZeroOver(key, 0, n) == (key[0] == 0 && ZeroOver(key, 1, n - 1));
      assert ZeroOver(key, 1, n - 1) == (key[1] == 0 && ZeroOver(key, 2, n - 2));
      assert ZeroOver(key, 2, n - 2) == (key[2] == 0 && ZeroOver(key, 3, n - 3));
      assert ZeroOver(key, 3, n - 3) == (key[3] == 0 && ZeroOver(key, 4, n - 4));
      if key[0] == key[1] == key[2] == key[3] == 0 {
        ZeroKey(key, 4, n - 4);
      }
    } else if n == 3 {
      assert ZeroOver(key, 1, 2) == (key[1] == 0 && ZeroOver(key, 2, 1));
      assert ZeroOver(key, 2, 1) == (key[2] == 0);
    } else if n == 2 {
      assert ZeroOver(key, 1, 1) == (key[1] == 0);
    }
  }

  /** A masked write leaves the caller's buffer as it was exactly when the key is zero wherever the
      payload reaches: only then does writing the same buffer again send the same payload again. */
  lemma MaskKeepsBuffer(data: Bytes, key: Key)
    ensures XorMask(data, key) == data <==> forall j :: 0 <= j < 4 && j < |data| ==> key[j] == 0
  {
    XorFromKeeps(data, key, 0);
    ZeroOverIff(key, |data|);
  }
}
