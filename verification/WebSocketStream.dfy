/** writeFrame, readFrame and the message loops of websocket-core.js as they run. */
module WebSocketStream {
  import opened Wrappers
  import opened Bytes
  import opened BufferedReader
  import opened Connection
  import opened WebSocket

  lemma {:induction false} XorFromSplit(a: Bytes, b: Bytes, key: Key, i: nat)
    ensures XorFrom(a + b, key, i) == XorFrom(a, key, i) + XorFrom(b, key, i + |a|)
    decreases |a|
  {
    if a == [] {
      assert a + b == b;
    } else {
      XorFromSplit(a[1..], b, key, i + 1);
      assert (a + b)[1..] == a[1..] + b;
    }
  }

  /** crypt_xor_inplace. */
  method XorInPlace(data: array<Byte>, key: Key)
    modifies data
    ensures data[..] == XorMask(old(data[..]), key)
  {
    ghost var was := data[..];
    var i := 0;
    while i < data.Length
      invariant 0 <= i <= data.Length
      invariant data[..i] == XorFrom(was[..i], key, 0) && data[i..] == was[i..]
    {
      assert data[i] == data[i..][0] == was[i];
      XorFromSplit(was[..i], [was[i]], key, 0);
      assert was[..i + 1] == was[..i] + [was[i]];
      assert [was[i]][1..] == [];
      assert XorFrom([was[i]], key, i) == [Xor(was[i], key[i % 4])];
      data[i] := Xor(data[i], key[i % 4]);
      assert data[i + 1..] == was[i + 1..];
      i := i + 1;
    }
    assert was[..i] == was && data[..i] == data[..];
  }

  /** The header of writeFrame, laid out first and filled in place. */
  method WriteHeader(op: Opcode, payloadLen: nat, mask: Option<Key>) returns (hdr: array<Byte>)
    ensures fresh(hdr)
    ensures hdr[..] == [FirstByte(true, op)] + LengthField(mask.Some?, payloadLen) + KeyField(mask)
  {
    var maskBit := if mask.Some? then 128 else 0;
    var lenExtra := if payloadLen < 126 then 0 else if payloadLen <= 0xffff then 2 else 8;
    hdr := new Byte[2 + lenExtra + if mask.Some? then 4 else 0];
    hdr[0] := 128 + OpValue(op);
    var off := 2;
    if payloadLen < 126 {
      hdr[1] := maskBit + payloadLen;
    } else if payloadLen <= 0xffff {
      hdr[1] := maskBit + 126;
      SetBytes(hdr, 2, BE(payloadLen, 2));
      off := 4;
    } else {
      hdr[1] := maskBit + 127;
      SetBytes(hdr, 2, BE(payloadLen / TWO_32, 4));
      SetBytes(hdr, 6, BE(payloadLen % TWO_32, 4));
      off := 10;
    }
    assert hdr[..off] == [FirstByte(true, op)] + LengthField(mask.Some?, payloadLen);
    if mask.Some? {
      SetBytes(hdr, off, mask.value);
    }
    assert hdr[..] == hdr[..hdr.Length];
  }

  /** DataView.setUint16, setUint32 and the copying of the key. */
  method SetBytes(a: array<Byte>, at: nat, bytes: Bytes)
    requires at + |bytes| <= a.Length
    modifies a
    ensures a[..at + |bytes|] == old(a[..at]) + bytes
  {
    forall i | 0 <= i < |bytes| {
      a[at + i] := bytes[i];
    }
  }

  /** writeFrame: what is written is the frame of the payload as it was; a masked payload is masked
      in the caller's own buffer. */
  method WriteFrame(op: Opcode, payload: array<Byte>, mask: Option<Key>) returns (written: Bytes)
    modifies payload
    ensures written == EncodeFrame(Frame(true, op, old(payload[..])), mask)
    ensures payload[..] == Masked(old(payload[..]), mask)
  {
    var hdr := WriteHeader(op, payload.Length, mask);
    if mask.Some? {
      XorInPlace(payload, mask.value);
    }
    written := hdr[..];
    if payload.Length > 0 {
      written := written + payload[..];
    } else {
      assert payload[..] == [] && written + [] == written;
    }
  }

  method AwaitLength(conn: Connection, short: nat) returns (n: Option<nat>)
    requires conn.Valid()
    modifies conn, conn.reader
    ensures conn.Valid()
    ensures match ReadLength(short, old(conn.View()))
            case Ended => n == None
            case Got(x, rest) => n == Some(x) && conn.View() == rest
  {
    if short == 126 {
      var ext := AwaitBytes(conn, 2);
      return if ext.None? then None else Some(GetBE(ext.value));
    } else if short == 127 {
      var ext := AwaitBytes(conn, 8);
      return if ext.None? then None else Some(GetBE(ext.value[..4]) * TWO_32 + GetBE(ext.value[4..]));
    }
    return Some(short);
  }

  method AwaitKey(conn: Connection, masked: bool) returns (mask: Option<Option<Key>>)
    requires conn.Valid()
    modifies conn, conn.reader
    ensures conn.Valid()
    ensures match ReadKey(masked, old(conn.View()))
            case Ended => mask == None
            case Got(x, rest) => mask == Some(x) && conn.View() == rest
  {
    if !masked {
      return Some(None);
    }
    var key := AwaitBytes(conn, 4);
    return if key.None? then None else Some(Some(key.value));
  }

  /** The payload taken off the wire, unmasked in the buffer it was read into. */
  method Unmask(data: Bytes, mask: Option<Key>) returns (payload: Bytes)
    ensures payload == Masked(data, mask)
  {
    if mask.None? {
      return data;
    }
    var buf := new Byte[|data|](i requires 0 <= i < |data| => data[i]);
    assert buf[..] == data;
    XorInPlace(buf, mask.value);
    return buf[..];
  }

  /** readFrame: a frame, or the exception or rejection that ends the loop calling it. */
  method ReadFrameFrom(conn: Connection, server: bool) returns (r: Option<Frame>)
    requires conn.Valid()
    modifies conn, conn.reader
    ensures conn.Valid()
    ensures match ReadFrame(old(conn.View()), server)
            case Whole(f, rest) => r == Some(f) && conn.View() == rest
            case _ => r == None
  {
    var s := AwaitBytes(conn, 2);
    if s.None? {
      return None;
    }
    var v := s.value;
    var n := AwaitLength(conn, v[1] as int % 128);
    if n.None? || (server && n.value > MAX_FRAME_SIZE) {
      return None;
    }
    var mask := AwaitKey(conn, v[1] >= 128);
    if mask.None? {
      return None;
    }
    var data := AwaitBytes(conn, n.value);
    if data.None? {
      return None;
    }
    var payload := Unmask(data.value, mask.value);
    var op := OpName(v[0] as int % 16);
    if op.None? {
      return None;
    }
    return Some(Frame(v[0] >= 128, op.value, payload));
  }

  /** The pong frames for a list of pings, each under its own mask. */
  function PongFrames(pings: seq<Bytes>, masks: seq<Option<Key>>): Bytes
    requires |masks| >= |pings|
  {
    if pings == [] then []
    else EncodeFrame(Frame(true, Pong, pings[0]), masks[0]) + PongFrames(pings[1..], masks[1..])
  }

  lemma {:induction false} PongFramesSnoc(pings: seq<Bytes>, ping: Bytes, masks: seq<Option<Key>>, mask: Option<Key>)
    requires |masks| == |pings|
    ensures PongFrames(pings + [ping], masks + [mask]) ==
            PongFrames(pings, masks) + EncodeFrame(Frame(true, Pong, ping), mask)
  {
    var e := EncodeFrame(Frame(true, Pong, ping), mask);
    if pings == [] {
      assert pings + [ping] == [ping] && masks + [mask] == [mask];
      assert [ping][1..] == [] && PongFrames([ping][1..], [mask][1..]) == [];
      assert e + [] == [] + e;
    } else {
      assert (pings + [ping])[1..] == pings[1..] + [ping] && (masks + [mask])[1..] == masks[1..] + [mask];
      PongFramesSnoc(pings[1..], ping, masks[1..], mask);
      Assoc(EncodeFrame(Frame(true, Pong, pings[0]), masks[0]), PongFrames(pings[1..], masks[1..]), e);
    }
  }

  /** The answer to a ping: its payload, written back in a buffer of its own. */
  method SendPong(payload: Bytes, mask: Option<Key>) returns (written: Bytes)
    ensures written == EncodeFrame(Frame(true, Pong, payload), mask)
  {
    var buf := new Byte[|payload|](i requires 0 <= i < |payload| => payload[i]);
    assert buf[..] == payload;
    written := WriteFrame(Pong, buf, mask);
  }

  /** What the loop still comes to, with the pings answered so far in front. */
  ghost predicate Continues(whole: Reading, answered: seq<Bytes>, tail: Reading)
  {
    whole == tail.(pongs := answered + tail.pongs)
  }

  /** read: one message, pings answered as they come. keys is the run of random masks a client draws
      from; a server sends unmasked. */
  method ReadMessageFrom(conn: Connection, client: bool, keys: seq<Key>)
    returns (r: Result, sent: Bytes, ghost answered: seq<Bytes>, ghost masks: seq<Option<Key>>)
    requires conn.Valid()
    requires client ==> |keys| >= |ReadMessage(conn.View(), !client).pongs|
    modifies conn, conn.reader
    ensures conn.Valid()
    ensures var o := ReadMessage(old(conn.View()), !client);
            && answered == o.pongs
            && r == o.result && (r != Failed ==> conn.View() == o.rest)
    ensures |masks| == |answered| && sent == PongFrames(answered, masks)
    ensures forall i :: 0 <= i < |masks| ==> masks[i].Some? == client
  {
    ghost var next, whole := FrameOf(!client), ReadMessage(conn.View(), !client);
    var parts: Option<Parts> := None;
    sent, answered, masks := [], [], [];
    assert [] + whole.pongs == whole.pongs;
    var drawn := 0;
    while true
      invariant conn.Valid()
      invariant Continues(whole, answered, MessageLoop(next, conn.View(), parts))
      invariant |masks| == |answered| && sent == PongFrames(answered, masks)
      invariant drawn == |answered| && forall i :: 0 <= i < |masks| ==> masks[i].Some? == client
      decreases |conn.View()|
    {
      ghost var b := conn.View();
      assert next(b) == ReadFrame(b, !client);
      var got := ReadFrameFrom(conn, !client);
      if got.None? {
        assert answered + [] == answered;
        return Failed, sent, answered, masks;
      }
      var f := got.value;
      ghost var rest := conn.View();
      assert answered + [] == answered;
      if f.op == CloseOp {
        return Closed(f.payload), sent, answered, masks;
      }
      LoopStep(next, b, f, rest, parts);
      if f.op == Ping {
        ghost var tail := MessageLoop(next, rest, parts);
        Assoc(answered, [f.payload], tail.pongs);
        var mask := if client then Some(keys[drawn]) else None;
        PongFramesSnoc(answered, f.payload, masks, mask);
        var pong := SendPong(f.payload, mask);
        sent := sent + pong;
        answered, masks := answered + [f.payload], masks + [mask];
        drawn := drawn + 1;
      } else if f.op != Pong {
        if f.fin && parts.None? {
          return Message(f.payload, f.op), sent, answered, masks;
        }
        var all := Collect(parts, f);
        if |all.bytes| > MAX_FRAME_SIZE {
          return Failed, sent, answered, masks;
        }
        if f.fin {
          return Message(all.bytes, all.op), sent, answered, masks;
        }
        parts := Some(all);
      }
    }
  }

  function Nones(n: nat): (r: seq<Option<Key>>)
    ensures |r| == n && forall i :: 0 <= i < n ==> r[i] == None
  {
    seq(n, _ => None)
  }

  ghost predicate ServedSoFar(whole: Served, messages: seq<(Bytes, Opcode)>, pongs: seq<Bytes>, tail: Served)
  {
    whole == Served(messages + tail.messages, pongs + tail.pongs, tail.closed)
  }

  lemma ServedMore(whole: Served, messages: seq<(Bytes, Opcode)>, pongs: seq<Bytes>, tail: Served,
                   more: seq<(Bytes, Opcode)>, ping: seq<Bytes>, next: Served)
    requires ServedSoFar(whole, messages, pongs, tail) && ServedSoFar(tail, more, ping, next)
    ensures ServedSoFar(whole, messages + more, pongs + ping, next)
  {
    Assoc(messages, more, next.messages);
    Assoc(pongs, ping, next.pongs);
  }

  /** The loop of resolveAccept on a server: messages handed over as they are completed, pings
      answered, and the close frame echoed. */
  method ServeConnection(conn: Connection)
    returns (messages: seq<(Bytes, Opcode)>, sent: Bytes, closed: bool)
    requires conn.Valid()
    modifies conn, conn.reader
    ensures var s := Serve(old(conn.View()), true);
            && messages == s.messages && closed == s.closed
            && sent == PongFrames(s.pongs, Nones(|s.pongs|)) +
                       if closed then EncodeFrame(Frame(true, CloseOp, []), None) else []
  {
    ghost var next, whole := FrameOf(true), Serve(conn.View(), true);
    var parts: Option<Parts> := None;
    messages, sent, closed := [], [], false;
    ghost var pongs: seq<Bytes> := [];
    assert [] + whole.messages == whole.messages && [] + whole.pongs == whole.pongs;
    while true
      invariant conn.Valid()
      invariant ServedSoFar(whole, messages, pongs, ServeLoop(next, conn.View(), parts))
      invariant sent == PongFrames(pongs, Nones(|pongs|))
      decreases |conn.View()|
    {
      ghost var b, tail := conn.View(), ServeLoop(next, conn.View(), parts);
      assert next(b) == ReadFrame(b, true);
      var got := ReadFrameFrom(conn, true);
      if got.None? {
        assert messages + [] == messages && pongs + [] == pongs && sent + [] == sent;
        return;
      }
      var f := got.value;
      if f.op == CloseOp {
        assert messages + [] == messages && pongs + [] == pongs;
        var empty := new Byte[0];
        assert empty[..] == [];
        var echo := WriteFrame(CloseOp, empty, None);
        sent, closed := sent + echo, true;
        return;
      } else if f.op == Ping {
        ServedMore(whole, messages, pongs, tail, [], [f.payload], ServeLoop(next, conn.View(), parts));
        PongFramesSnoc(pongs, f.payload, Nones(|pongs|), None);
        assert Nones(|pongs|) + [None] == Nones(|pongs| + 1) && messages + [] == messages;
        var pong := SendPong(f.payload, None);
        sent := sent + pong;
        pongs := pongs + [f.payload];
      } else if f.op != Pong {
        var all := Parts(f.op, f.payload);
        if !(f.fin && parts.None?) {
          all := Collect(parts, f);
          if |all.bytes| > MAX_FRAME_SIZE {
            assert messages + [] == messages && pongs + [] == pongs && sent + [] == sent;
            return;
          }
        }
        if f.fin {
          ServedMore(whole, messages, pongs, tail, [(all.bytes, all.op)], [], ServeLoop(next, conn.View(), None));
          assert pongs + [] == pongs;
          messages, parts := messages + [(all.bytes, all.op)], None;
        } else {
          parts := Some(all);
        }
      }
    }
  }
}
