/** recvHeader, recvChunkedBody and the chunk writer of http-core.js as they run: each await asks a
    BufferedReader, which is fed the segments still to come until it can answer. */
module HttpStream {
  import opened Wrappers
  import opened Bytes
  import opened BufferedReader
  import opened Connection
  import opened HttpChunked

  method AwaitLine(c: Codec, conn: Connection) returns (line: Option<Text16>)
    requires conn.Valid()
    modifies conn, conn.reader
    ensures conn.Valid()
    ensures match NextLine(c, old(conn.View()))
            case Ended => line == None
            case Got(l, rest) => line == Some(l) && conn.View() == rest
  {
    var a := conn.Await(Line);
    return if a.None? then None else Some(c.dec(a.value.line));
  }

  ghost function PrependLines(lines: seq<Text16>, r: Read<Header>): Read<Header>
  {
    match r case Ended => Ended case Got(h, rest) => Got(Header(lines + h.lines, h.ok), rest)
  }

  lemma PrependLinesTwice(a: seq<Text16>, b: seq<Text16>, r: Read<Header>)
    ensures PrependLines(a, PrependLines(b, r)) == PrependLines(a + b, r)
    ensures PrependLines([], r) == r
  {
    if r.Got? {
      Assoc(a, b, r.value.lines);
      assert [] + r.value.lines == r.value.lines;
    }
  }

  lemma LineTurn(next: Bytes -> Read<Text16>, b: Bytes, line: Option<Text16>, rest: Bytes, total: nat)
    requires match next(b)
             case Ended => line == None
             case Got(l, left) => line == Some(l) && left == rest && |rest| < |b|
    ensures var r := HeaderLines(next, b, total);
            if line.None? then r == Ended
            else
              var n := total + |line.value| + 2;
              if n > LIMIT then r == Got(Header([], false), rest)
              else if line.value == [] then r == Got(Header([], true), rest)
              else r == PrependLines([line.value], HeaderLines(next, rest, n))
  {
  }

  /** One turn of recvHeader's loop: the line read, and what the loop still returns from there. */
  method HeaderTurn(c: Codec, conn: Connection, total: nat) returns (line: Option<Text16>)
    requires conn.Valid()
    modifies conn, conn.reader
    ensures conn.Valid()
    ensures line.Some? ==> |conn.View()| < |old(conn.View())|
    ensures var r := HeaderLines(LineOf(c), old(conn.View()), total);
            if line.None? then r == Ended
            else
              var n := total + |line.value| + 2;
              if n > LIMIT then r == Got(Header([], false), conn.View())
              else if line.value == [] then r == Got(Header([], true), conn.View())
              else r == PrependLines([line.value], HeaderLines(LineOf(c), conn.View(), n))
  {
    ghost var b := conn.View();
    line := AwaitLine(c, conn);
    assert LineOf(c)(b) == NextLine(c, b);
    LineTurn(LineOf(c), b, line, conn.View(), total);
  }

  /** recvHeader. */
  method RecvHeaderLoop(c: Codec, conn: Connection) returns (r: Option<Header>)
    requires conn.Valid()
    modifies conn, conn.reader
    ensures conn.Valid()
    ensures match RecvHeader(c, old(conn.View()))
            case Ended => r == None
            case Got(h, rest) => r == Some(h) && conn.View() == rest
  {
    var lines: seq<Text16> := [];
    var total: nat := 0;
    ghost var whole := HeaderLines(LineOf(c), conn.View(), 0);
    PrependLinesTwice(lines, lines, whole);
    while true
      invariant conn.Valid()
      invariant whole == PrependLines(lines, HeaderLines(LineOf(c), conn.View(), total))
      decreases |conn.View()|
    {
      var line := HeaderTurn(c, conn, total);
      if line.None? {
        return None;
      }
      total := total + |line.value| + 2;
      if total > LIMIT {
        assert lines + [] == lines;
        return Some(Header(lines, false));
      }
      if line.value == [] {
        assert lines + [] == lines;
        break;
      }
      PrependLinesTwice(lines, [line.value], HeaderLines(LineOf(c), conn.View(), total));
      lines := lines + [line.value];
    }
    return Some(Header(lines, true));
  }

  datatype Taken = Failed | Done(body: Body) | Chunk(data: Bytes, size: int)

  /** One turn of recvChunkedBody. */
  method TakeTurn(c: Codec, conn: Connection, limit: nat, size: int) returns (t: Taken)
    requires conn.Valid()
    modifies conn, conn.reader
    ensures conn.Valid()
    ensures match TakeChunk(c, old(conn.View()), limit, size)
            case Stop(Ended) => t == Failed
            case Stop(Got(body, rest)) => t == Done(body) && conn.View() == rest
            case More(data, rest, size') => t == Chunk(data, size') && conn.View() == rest
  {
    var line := AwaitLine(c, conn);
    if line.None? {
      return Failed;
    }
    var sz := ChunkSize(line.value);
    if sz.None? {
      return Done(Bad);
    }
    if sz.value == 0 {
      var trailer := RecvHeaderLoop(c, conn);
      return if trailer.None? then Failed else Done(Body([], trailer.value));
    }
    if limit > 0 && size + sz.value > limit {
      return Done(Bad);
    }
    var data := AwaitBytes(conn, sz.value);
    if data.None? {
      return Failed;
    }
    var crlf := AwaitBytes(conn, 2);
    if crlf.None? {
      return Failed;
    }
    return Chunk(data.value, size + sz.value);
  }

  lemma PrependTwice(a: Text16, b: Text16, r: Read<Body>)
    ensures Prepend(a, Prepend(b, r)) == Prepend(a + b, r)
  {
    if r.Got? && r.value.Body? {
      assert a + (b + r.value.text) == (a + b) + r.value.text;
    }
  }

  lemma PrependNone(r: Read<Body>)
    ensures Prepend([], r) == r
  {
    if r.Got? && r.value.Body? {
      assert [] + r.value.text == r.value.text;
    }
  }

  /** recvChunkedBody. */
  method RecvChunkedLoop(c: Codec, conn: Connection, limit: nat) returns (r: Option<Body>)
    requires conn.Valid()
    modifies conn, conn.reader
    ensures conn.Valid()
    ensures match RecvChunked(c, old(conn.View()), limit)
            case Ended => r == None
            case Got(body, rest) => r == Some(body) && conn.View() == rest
  {
    var text: Text16 := [];
    var size := 0;
    ghost var turn, whole := TurnOf(c, limit), RecvChunked(c, conn.View(), limit);
    PrependNone(whole);
    while true
      invariant conn.Valid()
      invariant whole == Prepend(text, Turns(turn, c.dec, conn.View(), size))
      decreases |conn.View()|
    {
      ghost var b := conn.View();
      assert turn(b, size) == TakeChunk(c, b, limit, size);
      var t := TakeTurn(c, conn, limit, size);
      match t
      case Failed => return None;
      case Done(Bad) => return Some(Bad);
      case Done(Body(more, trailer)) => return Some(Body(text + more, trailer));
      case Chunk(data, size') =>
        var decoded := c.dec(data);
        PrependTwice(text, decoded, Turns(turn, c.dec, conn.View(), size'));
        text, size := text + decoded, size';
    }
  }

  /** What the generator loop writes for one chunk: nothing when it is empty. */
  method WritePiece(c: Codec, chunk: Text16) returns (piece: Bytes)
    ensures piece == Piece(c, chunk)
  {
    if chunk == [] {
      return [];
    }
    var data := c.enc(chunk);
    piece := CRLF + c.enc(Hex(|data|)) + CRLF;
    piece := piece + data;
  }

  /** The generator loop of writeResponse: what it writes after the header fields. */
  method WriteChunks(c: Codec, chunks: seq<Text16>) returns (out: Bytes)
    ensures out == Wire(c, chunks)
  {
    out := [];
    var i := 0;
    while i < |chunks|
      invariant 0 <= i <= |chunks|
      invariant out + Wire(c, chunks[i..]) == Wire(c, chunks)
    {
      assert chunks[i..][1..] == chunks[i + 1..];
      var piece := WritePiece(c, chunks[i]);
      Assoc(out, piece, Wire(c, chunks[i + 1..]));
      out := out + piece;
      i := i + 1;
    }
    assert Wire(c, chunks[i..]) == CRLF + ZERO + CRLF + CRLF;
    out := out + (CRLF + ZERO + CRLF + CRLF);
  }

  /** A response written in chunks, cut into any segments, is received as its header lines and the
      text of its chunks, and the next message starts where the receiver stopped; a body over the
      limit is refused. */
  method ReceiveResponse(lines: seq<Text16>, chunks: seq<Text16>, next: Bytes, segments: seq<Bytes>, limit: nat)
    returns (head: Option<Header>, body: Option<Body>, ghost left: Bytes)
    requires Fields(UTF8, lines) && HeadSize(lines) <= LIMIT
    requires Flatten(segments) == Head(UTF8, lines) + Wire(UTF8, chunks) + next
    ensures head == Some(Header(lines, true))
    ensures if limit == 0 || Size(UTF8, chunks) <= limit then
              body == Some(Body(Concat(chunks), Header([], true))) && left == next
            else body == Some(Bad)
  {
    Utf8Faithful();
    ResponseRoundTrip(UTF8, lines, chunks, next, limit);
    var conn := new Connection(segments);
    head := RecvHeaderLoop(UTF8, conn);
    body := RecvChunkedLoop(UTF8, conn, limit);
    left := conn.View();
  }
}
