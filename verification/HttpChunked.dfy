/** Chunked bodies as http-core.js writes and reads them (section 7.1 of RFC 9112), over a
    BufferedReader fed by arbitrary segments. */
module HttpChunked {
  import opened Wrappers
  import opened Bytes
  import opened BufferedReader
  import Utf8

  type Text16 = Utf8.Units

  const LIMIT: nat := 8192
  const ZERO: Bytes := [48]

  /** TextEncoder and TextDecoder. */
  datatype Codec = Codec(enc: Text16 -> Bytes, dec: Bytes -> Text16)

  /** What the protocol needs of them: text survives, and ASCII is written as it is. */
  ghost predicate Faithful(c: Codec)
  {
    && (forall s :: c.dec(c.enc(s)) == s)
    && (forall s :: s != [] ==> c.enc(s) != [])
    && (forall s :: Ascii(s) ==> |c.enc(s)| == |s|)
    && (forall s, i :: Ascii(s) && 0 <= i < |s| && i < |c.enc(s)| ==> c.enc(s)[i] as int == s[i] as int)
  }

  predicate Ascii(s: Text16) { forall i :: 0 <= i < |s| ==> s[i] < 0x80 }

  /* ---- hexadecimal numbers ---- */

  function Digit(d: nat): (u: Utf8.Unit)
    requires d < 16
  {
    if d < 10 then 48 + d else 87 + d
  }

  /** Number.prototype.toString(16). */
  function Hex(n: nat): (u: Text16)
    ensures |u| > 0
  {
    if n < 16 then [Digit(n)] else Hex(n / 16) + [Digit(n % 16)]
  }

  function DigitValue(u: Utf8.Unit): Option<nat>
  {
    if 48 <= u <= 57 then Some(u - 48)
    else if 97 <= u <= 102 then Some(u - 87)
    else if 65 <= u <= 70 then Some(u - 55)
    else None
  }

  /** How many hexadecimal digits s starts with. */
  function Digits(s: Text16): (k: nat)
    ensures k <= |s| && forall i :: 0 <= i < k ==> DigitValue(s[i]).Some?
  {
    if s == [] || DigitValue(s[0]).None? then 0 else 1 + Digits(s[1..])
  }

  function Value(s: Text16, k: nat): nat
    requires k <= |s| && forall i :: 0 <= i < k ==> DigitValue(s[i]).Some?
  {
    if k == 0 then 0 else Value(s, k - 1) * 16 + DigitValue(s[k - 1]).value
  }

  predicate Space(u: Utf8.Unit)
  {
    9 <= u <= 13 || u == 0x20 || u == 0xa0 || u == 0x1680 || 0x2000 <= u <= 0x200a ||
    u == 0x2028 || u == 0x2029 || u == 0x202f || u == 0x205f || u == 0x3000 || u == 0xfeff
  }

  function TrimStart(s: Text16): Text16 { if s != [] && Space(s[0]) then TrimStart(s[1..]) else s }

  /** parseInt(s, 16): space, a sign, 0x, then as many digits as there are; none is NaN. */
  function ParseHex(s: Text16): Option<int>
  {
    var t := TrimStart(s);
    var negative := t != [] && t[0] == 45;
    var u := if t != [] && (t[0] == 45 || t[0] == 43) then t[1..] else t;
    var v := if |u| >= 2 && u[0] == 48 && (u[1] == 120 || u[1] == 88) then u[2..] else u;
    var k := Digits(v);
    var value: int := Value(v, k);
    if k == 0 then None else Some(if negative then -value else value)
  }

  predicate AllDigits(s: Text16) { forall i :: 0 <= i < |s| ==> DigitValue(s[i]).Some? }

  lemma {:induction false} DigitsAll(s: Text16)
    requires AllDigits(s)
    ensures Digits(s) == |s|
  {
    if s != [] {
      DigitsAll(s[1..]);
    }
  }

  lemma {:induction false} ValuePrefix(a: Text16, b: Text16, k: nat)
    requires k <= |a| && AllDigits(a) && a <= b
    ensures forall i :: 0 <= i < k ==> DigitValue(b[i]).Some?
    ensures Value(b, k) == Value(a, k)
  {
    if k > 0 {
      ValuePrefix(a, b, k - 1);
    }
  }

  lemma {:induction false} HexValue(n: nat)
    ensures AllDigits(Hex(n)) && Value(Hex(n), |Hex(n)|) == n
    ensures Hex(n)[0] == 48 ==> |Hex(n)| == 1
  {
    if n >= 16 {
      HexValue(n / 16);
      HexValueFirst(n / 16);
      ValuePrefix(Hex(n / 16), Hex(n), |Hex(n / 16)|);
    } else {
      assert Value(Hex(n), 0) == 0;
    }
  }

  lemma {:induction false} HexValueFirst(n: nat)
    ensures n > 0 ==> Hex(n)[0] != 48
  {
    if n >= 16 {
      HexValueFirst(n / 16);
    }
  }

  /** parseInt reads plain digits, when they are not a 0x prefix, as the number they spell. */
  lemma ParseDigits(s: Text16)
    requires s != [] && AllDigits(s) && (s[0] == 48 ==> |s| == 1)
    ensures Digits(s) == |s| && ParseHex(s) == Some(Value(s, |s|))
  {
    DigitsAll(s);
    assert DigitValue(s[0]).Some?;
    assert !Space(s[0]) && TrimStart(s) == s;
  }

  /** parseInt undoes toString(16). */
  lemma ParseHexOfHex(n: nat)
    ensures ParseHex(Hex(n)) == Some(n)
  {
    HexValue(n);
    ParseDigits(Hex(n));
  }

  /** Sizes are written with the digits 0 to 9 and a to f, the highest first. */
  lemma HexDigits(q: nat, d: nat)
    requires d < 16
    ensures Hex(16 * q + d) == (if q == 0 then [] else Hex(q)) + [if d < 10 then 48 + d else 97 + (d - 10)]
  {
    assert (16 * q + d) / 16 == q && (16 * q + d) % 16 == d;
  }

  /** They are read in either case. */
  lemma DigitsRead(u: Utf8.Unit)
    ensures DigitValue(u) ==
            if 48 <= u < 58 then Some(u - 48)
            else if 97 <= u < 103 then Some(u - 97 + 10)
            else if 65 <= u < 71 then Some(u - 65 + 10)
            else None
  {
  }

  /** The size a chunk-size line announces: whatever follows a semicolon is dropped. */
  function UpTo(s: Text16, u: Utf8.Unit): (r: Text16)
    ensures |r| <= |s|
  {
    if s == [] || s[0] == u then [] else [s[0]] + UpTo(s[1..], u)
  }

  lemma {:induction false} UpToNone(s: Text16, u: Utf8.Unit)
    requires u !in s
    ensures UpTo(s, u) == s
  {
    if s != [] {
      UpToNone(s[1..], u);
      assert s == [s[0]] + s[1..];
    }
  }

  /* ---- reading, on the flat string ---- */

  datatype Header = Header(lines: seq<Text16>, ok: bool)

  datatype Body = Body(text: Text16, trailer: Header) | Bad

  function NextLine(c: Codec, b: Bytes): (r: Read<Text16>)
    ensures r.Got? ==> |r.rest| < |b|
  {
    match Satisfy(Line, b) case None => Ended case Some((a, rest)) => Got(c.dec(a.line), rest)
  }

  /** The loop of recvHeader, `total` characters into the header, over whatever gives the next line. */
  function HeaderLines(next: Bytes -> Read<Text16>, b: Bytes, total: nat): (r: Read<Header>)
    ensures r.Got? ==> |r.rest| < |b|
    decreases |b|
  {
    match next(b)
    case Ended => Ended
    case Got(line, rest) =>
      if |rest| >= |b| then Ended
      else if total + |line| + 2 > LIMIT then Got(Header([], false), rest)
      else if line == [] then Got(Header([], true), rest)
      else
        match HeaderLines(next, rest, total + |line| + 2)
        case Ended => Ended
        case Got(h, left) => Got(Header([line] + h.lines, h.ok), left)
  }

  function LineOf(c: Codec): Bytes -> Read<Text16> { (b: Bytes) => NextLine(c, b) }

  /** recvHeader. */
  function RecvHeader(c: Codec, b: Bytes): (r: Read<Header>)
    ensures r.Got? ==> |r.rest| < |b|
  {
    HeaderLines(LineOf(c), b, 0)
  }

  function ChunkSize(line: Text16): Option<int> { ParseHex(UpTo(line, 59)) }

  /** One turn of recvChunkedBody's loop: it ends, or it leaves a chunk and what follows. */
  datatype Turn = Stop(result: Read<Body>) | More(data: Bytes, rest: Bytes, size: int)

  function TakeChunk(c: Codec, b: Bytes, limit: nat, size: int): (t: Turn)
    ensures t.More? ==> |t.rest| < |b|
  {
    match NextLine(c, b)
    case Ended => Stop(Ended)
    case Got(line, rest) =>
      match ChunkSize(line)
      case None => Stop(Got(Bad, rest))
      case Some(sz) =>
        if sz == 0 then
          match RecvHeader(c, rest)
          case Ended => Stop(Ended)
          case Got(trailer, left) => Stop(Got(Body([], trailer), left))
        else if limit > 0 && size + sz > limit then Stop(Got(Bad, rest))
        else
          match NextBytes(sz, rest)
          case Ended => Stop(Ended)
          case Got(data, rest1) =>
            match NextBytes(2, rest1)
            case Ended => Stop(Ended)
            case Got(_, rest2) => More(data, rest2, size + sz)
  }

  function Prepend(text: Text16, r: Read<Body>): Read<Body>
  {
    match r
    case Got(Body(more, trailer), left) => Got(Body(text + more, trailer), left)
    case _ => r
  }

  /** The loop of recvChunkedBody, over whatever takes one turn of it. */
  function Turns(turn: (Bytes, int) -> Turn, dec: Bytes -> Text16, b: Bytes, size: int): Read<Body>
    decreases |b|
  {
    match turn(b, size)
    case Stop(r) => r
    case More(data, rest, size') =>
      if |rest| >= |b| then Ended else Prepend(dec(data), Turns(turn, dec, rest, size'))
  }

  function TurnOf(c: Codec, limit: nat): (Bytes, int) -> Turn
  {
    (b: Bytes, size: int) => TakeChunk(c, b, limit, size)
  }

  /** recvChunkedBody; a limit of 0 is none. */
  function RecvChunked(c: Codec, b: Bytes, limit: nat): Read<Body> { Turns(TurnOf(c, limit), c.dec, b, 0) }

  /* ---- writing ---- */

  /** The header of one chunk and its bytes, as the generator loop writes them. */
  function Piece(c: Codec, chunk: Text16): Bytes
  {
    if chunk == [] then []
    else CRLF + c.enc(Hex(|c.enc(chunk)|)) + CRLF + c.enc(chunk)
  }

  /** Everything written after the header fields. */
  function Wire(c: Codec, chunks: seq<Text16>): Bytes
  {
    if chunks == [] then CRLF + ZERO + CRLF + CRLF else Piece(c, chunks[0]) + Wire(c, chunks[1..])
  }

  /** The same without the first CRLF, which ends the header. */
  function Content(c: Codec, chunks: seq<Text16>): Bytes
  {
    if chunks == [] then ZERO + CRLF + CRLF
    else if chunks[0] == [] then Content(c, chunks[1..])
    else
      var data := c.enc(chunks[0]);
      c.enc(Hex(|data|)) + CRLF + data + CRLF + Content(c, chunks[1..])
  }

  function Concat(chunks: seq<Text16>): Text16 { if chunks == [] then [] else chunks[0] + Concat(chunks[1..]) }

  function Size(c: Codec, chunks: seq<Text16>): nat
  {
    if chunks == [] then 0 else |c.enc(chunks[0])| + Size(c, chunks[1..])
  }

  lemma {:induction false} WireContent(c: Codec, chunks: seq<Text16>)
    ensures Wire(c, chunks) == CRLF + Content(c, chunks)
  {
    if chunks != [] {
      WireContent(c, chunks[1..]);
      var data, rest := c.enc(chunks[0]), Content(c, chunks[1..]);
      if chunks[0] == [] {
        assert Piece(c, chunks[0]) + Wire(c, chunks[1..]) == Wire(c, chunks[1..]);
      } else {
        Shift(CRLF, c.enc(Hex(|data|)), data, rest);
      }
    } else {
      Shift(CRLF, ZERO, [], []);
      assert CRLF + ZERO + CRLF + CRLF == CRLF + (ZERO + CRLF + CRLF);
    }
  }

  lemma Shift(c: Bytes, h: Bytes, d: Bytes, rest: Bytes)
    ensures (c + h + c + d) + (c + rest) == c + (h + c + d + c + rest)
  {
  }

  /** Section 7.1 of RFC 9112, in plain bytes: a size, CR LF, the chunk, CR LF; and at the end 0, CR LF
      and, after no trailer at all, CR LF. */
  lemma ContentBytes(c: Codec, chunk: Text16, more: seq<Text16>)
    requires chunk != []
    ensures Content(c, [chunk] + more) == c.enc(Hex(|c.enc(chunk)|)) + [13, 10] + c.enc(chunk) + [13, 10] + Content(c, more)
    ensures Content(c, []) == [48, 13, 10, 13, 10]
  {
    assert ([chunk] + more)[1..] == more && ([chunk] + more)[0] == chunk;
  }

  /* ---- lines round-trip ---- */

  predicate NoPair(b: Bytes) { forall q :: 0 <= q < |b| ==> !PairAt(b, q) }

  lemma LineRead(c: Codec, e: Bytes, s: Bytes)
    requires NoPair(e)
    ensures NextLine(c, e + CRLF + s) == Got(c.dec(e), s)
  {
    var b := e + CRLF + s;
    forall q | q < |e|
      ensures !PairAt(b, q)
    {
      if 0 <= q {
        assert b[q] == e[q] && !PairAt(e, q);
        assert b[q + 1] == if q + 1 < |e| then e[q + 1] else CR;
      }
    }
    CrlfAt(b, |e|);
    assert b[..|e|] == e && b[|e| + 2..] == s;
  }

  /** A chunk-size line is read back as the size. */
  lemma SizeLine(c: Codec, n: nat, s: Bytes)
    requires Faithful(c)
    ensures NextLine(c, c.enc(Hex(n)) + CRLF + s) == Got(Hex(n), s) && ChunkSize(Hex(n)) == Some(n)
  {
    HexValue(n);
    forall i | 0 <= i < |Hex(n)|
      ensures Hex(n)[i] < 0x80 && Hex(n)[i] != 59 && Hex(n)[i] != 13
    {
      assert DigitValue(Hex(n)[i]).Some?;
    }
    assert Ascii(Hex(n));
    LineRead(c, c.enc(Hex(n)), s);
    UpToNone(Hex(n), 59);
    ParseHexOfHex(n);
  }

  lemma EmptyLine(c: Codec, s: Bytes)
    requires Faithful(c)
    ensures NextLine(c, CRLF + s) == Got([], s)
  {
    var none: Text16 := [];
    assert Ascii(none) && |c.enc(none)| == 0 && c.enc(none) == [];
    LineRead(c, [], s);
    assert [] + CRLF + s == CRLF + s;
  }

  /** The last chunk, the empty trailer, and the next message untouched. */
  lemma LastChunk(c: Codec, limit: nat, size: int, next: Bytes)
    requires Faithful(c)
    ensures TakeChunk(c, ZERO + CRLF + (CRLF + next), limit, size) == Stop(Got(Body([], Header([], true)), next))
  {
    SizeLine(c, 0, CRLF + next);
    assert Hex(0) == [48];
    assert Ascii(Hex(0));
    assert c.enc(Hex(0)) == ZERO;
    EmptyLine(c, next);
  }

  /** One chunk in front of the rest. */
  lemma OneChunk(c: Codec, chunk: Text16, rest: Bytes, limit: nat, size: int)
    requires Faithful(c)
    requires chunk != []
    ensures var data := c.enc(chunk);
            TakeChunk(c, c.enc(Hex(|data|)) + CRLF + (data + (CRLF + rest)), limit, size) ==
            if limit > 0 && size + |data| > limit then Stop(Got(Bad, data + (CRLF + rest)))
            else More(data, rest, size + |data|)
  {
    var data := c.enc(chunk);
    SizeLine(c, |data|, data + (CRLF + rest));
    NextBytesFront(data, CRLF + rest);
    NextBytesFront(CRLF, rest);
  }

  /** What one turn does in front of any list of chunks. */
  ghost predicate TakesChunks(c: Codec, turn: (Bytes, int) -> Turn, next: Bytes, limit: nat)
  {
    && (forall size :: turn(Content(c, []) + next, size) == Stop(Got(Body([], Header([], true)), next)))
    && forall chunks: seq<Text16>, size :: chunks != [] && chunks[0] != [] ==>
         var n, rest := |c.enc(chunks[0])|, Content(c, chunks[1..]) + next;
         turn(Content(c, chunks) + next, size) ==
         if limit > 0 && size + n > limit then Stop(Got(Bad, c.enc(chunks[0]) + (CRLF + rest)))
         else More(c.enc(chunks[0]), rest, size + n)
  }

  lemma TurnTakesChunks(c: Codec, next: Bytes, limit: nat)
    requires Faithful(c)
    ensures TakesChunks(c, TurnOf(c, limit), next, limit)
  {
    var turn := TurnOf(c, limit);
    forall size
      ensures turn(Content(c, []) + next, size) == Stop(Got(Body([], Header([], true)), next))
    {
      LastChunk(c, limit, size, next);
      assert Content(c, []) + next == ZERO + CRLF + (CRLF + next);
    }
    forall chunks: seq<Text16>, size | chunks != [] && chunks[0] != []
      ensures var n, rest := |c.enc(chunks[0])|, Content(c, chunks[1..]) + next;
              turn(Content(c, chunks) + next, size) ==
              if limit > 0 && size + n > limit then Stop(Got(Bad, c.enc(chunks[0]) + (CRLF + rest)))
              else More(c.enc(chunks[0]), rest, size + n)
    {
      var data, rest := c.enc(chunks[0]), Content(c, chunks[1..]) + next;
      OneChunk(c, chunks[0], rest, limit, size);
      Regroup(c.enc(Hex(|data|)), data, Content(c, chunks[1..]), next);
    }
  }

  lemma {:induction false} BodyTurns(c: Codec, turn: (Bytes, int) -> Turn, chunks: seq<Text16>, next: Bytes,
                                     limit: nat, size: nat)
    requires Faithful(c) && TakesChunks(c, turn, next, limit)
    requires limit == 0 || size <= limit
    ensures var r := Turns(turn, c.dec, Content(c, chunks) + next, size);
            if limit == 0 || size + Size(c, chunks) <= limit then
              r == Got(Body(Concat(chunks), Header([], true)), next)
            else r.Got? && r.value == Bad
  {
    if chunks != [] {
      var more := chunks[1..];
      if chunks[0] == [] {
        BodyTurns(c, turn, more, next, limit, size);
        assert chunks[0] + Concat(more) == Concat(more);
        assert Size(c, chunks) == Size(c, more) by { assert Ascii([]); }
      } else {
        var n := |c.enc(chunks[0])|;
        ContentLonger(c, chunks, next);
        if limit == 0 || size + n <= limit {
          BodyTurns(c, turn, more, next, limit, size + n);
        }
      }
    }
  }

  lemma ContentLonger(c: Codec, chunks: seq<Text16>, next: Bytes)
    requires chunks != [] && chunks[0] != []
    ensures |Content(c, chunks[1..]) + next| < |Content(c, chunks) + next|
  {
  }

  /** Every chunked body written is read back as the concatenation of its chunks, up to exactly the
      next message, or refused exactly when it is longer than the limit. */
  lemma BodyRoundTrip(c: Codec, chunks: seq<Text16>, next: Bytes, limit: nat)
    requires Faithful(c)
    ensures var r := RecvChunked(c, Content(c, chunks) + next, limit);
            if limit == 0 || Size(c, chunks) <= limit then r == Got(Body(Concat(chunks), Header([], true)), next)
            else r.Got? && r.value == Bad
  {
    TurnTakesChunks(c, next, limit);
    BodyTurns(c, TurnOf(c, limit), chunks, next, limit, 0);
  }

  lemma Regroup(h: Bytes, d: Bytes, r: Bytes, next: Bytes)
    ensures (h + CRLF + d + CRLF + r) + next == h + CRLF + (d + (CRLF + (r + next)))
  {
  }

  /* ---- the header in front of it ---- */

  /** Header fields as lines: none empty, none with a line end inside. */
  predicate Fields(c: Codec, lines: seq<Text16>)
  {
    forall i :: 0 <= i < |lines| ==> lines[i] != [] && NoPair(c.enc(lines[i]))
  }

  function Head(c: Codec, lines: seq<Text16>): Bytes
  {
    if lines == [] then [] else c.enc(lines[0]) + CRLF + Head(c, lines[1..])
  }

  function HeadSize(lines: seq<Text16>): nat
  {
    if lines == [] then 2 else |lines[0]| + 2 + HeadSize(lines[1..])
  }

  lemma FirstLine(c: Codec, lines: seq<Text16>, s: Bytes)
    requires Faithful(c)
    requires Fields(c, lines) && lines != []
    ensures NextLine(c, Head(c, lines) + (CRLF + s)) == Got(lines[0], Head(c, lines[1..]) + (CRLF + s))
  {
    var e := c.enc(lines[0]);
    LineRead(c, e, Head(c, lines[1..]) + (CRLF + s));
    HeadFront(e, Head(c, lines[1..]), s);
  }

  /** What the next line is in front of any list of fields. */
  ghost predicate TakesLines(c: Codec, line: Bytes -> Read<Text16>, s: Bytes)
  {
    && line(CRLF + s) == Got([], s)
    && forall lines :: lines != [] && Fields(c, lines) ==>
         line(Head(c, lines) + (CRLF + s)) == Got(lines[0], Head(c, lines[1..]) + (CRLF + s))
  }

  lemma HeadLonger(c: Codec, lines: seq<Text16>, s: Bytes)
    requires lines != []
    ensures |Head(c, lines[1..]) + (CRLF + s)| < |Head(c, lines) + (CRLF + s)|
  {
  }

  lemma LineStep(next: Bytes -> Read<Text16>, b: Bytes, line: Text16, rest: Bytes, total: nat, h: Header, left: Bytes)
    requires next(b) == Got(line, rest) && |rest| < |b| && line != [] && total + |line| + 2 <= LIMIT
    requires HeaderLines(next, rest, total + |line| + 2) == Got(h, left)
    ensures HeaderLines(next, b, total) == Got(Header([line] + h.lines, h.ok), left)
  {
  }

  /** How a header reads from `total` on: whole when it fits, refused when it does not. */
  ghost predicate HeadReads(r: Read<Header>, lines: seq<Text16>, s: Bytes, total: nat)
  {
    if total + HeadSize(lines) <= 8192 then r == Got(Header(lines, true), s) else r.Got? && !r.value.ok
  }

  lemma {:induction false} HeadLines(c: Codec, line: Bytes -> Read<Text16>, lines: seq<Text16>, s: Bytes, total: nat)
    requires TakesLines(c, line, s) && Fields(c, lines)
    ensures HeadReads(HeaderLines(line, Head(c, lines) + (CRLF + s), total), lines, s, total)
  {
    if lines == [] {
      assert Head(c, lines) + (CRLF + s) == CRLF + s;
    } else {
      var b, rest := Head(c, lines) + (CRLF + s), Head(c, lines[1..]) + (CRLF + s);
      HeadLonger(c, lines, s);
      assert line(b) == Got(lines[0], rest) && |rest| < |b|;
      assert Fields(c, lines[1..]);
      if total + |lines[0]| + 2 <= LIMIT {
        HeadLines(c, line, lines[1..], s, total + |lines[0]| + 2);
        var r := HeaderLines(line, rest, total + |lines[0]| + 2);
        LineStep(line, b, lines[0], rest, total, r.value, r.rest);
        assert lines == [lines[0]] + lines[1..];
      } else {
        HeadSizeAtLeast(lines);
      }
    }
  }

  lemma HeadSizeAtLeast(lines: seq<Text16>)
    requires lines != []
    ensures HeadSize(lines) >= |lines[0]| + 2
  {
  }

  /** A header is read back line by line, or refused, exactly as it keeps to the limit. */
  lemma HeadRead(c: Codec, lines: seq<Text16>, s: Bytes)
    requires Faithful(c) && Fields(c, lines)
    ensures HeadReads(RecvHeader(c, Head(c, lines) + (CRLF + s)), lines, s, 0)
  {
    EmptyLine(c, s);
    forall ls | ls != [] && Fields(c, ls)
      ensures LineOf(c)(Head(c, ls) + (CRLF + s)) == Got(ls[0], Head(c, ls[1..]) + (CRLF + s))
    {
      FirstLine(c, ls, s);
    }
    HeadLines(c, LineOf(c), lines, s, 0);
  }

  lemma HeadFront(e: Bytes, h: Bytes, s: Bytes)
    ensures (e + CRLF + h) + (CRLF + s) == e + CRLF + (h + (CRLF + s))
  {
  }

  /** A response written in chunks: its header is read, then its body, and what follows is left. */
  lemma ResponseRoundTrip(c: Codec, lines: seq<Text16>, chunks: seq<Text16>, next: Bytes, limit: nat)
    requires Faithful(c)
    requires Fields(c, lines) && HeadSize(lines) <= 8192
    ensures var h := RecvHeader(c, Head(c, lines) + Wire(c, chunks) + next);
            && h.Got? && h.value == Header(lines, true)
            && var r := RecvChunked(c, h.rest, limit);
               if limit == 0 || Size(c, chunks) <= limit then r == Got(Body(Concat(chunks), Header([], true)), next)
               else r.Got? && r.value == Bad
  {
    WireContent(c, chunks);
    HeadRead(c, lines, Content(c, chunks) + next);
    assert Head(c, lines) + (CRLF + Content(c, chunks)) + next == Head(c, lines) + (CRLF + (Content(c, chunks) + next));
    BodyRoundTrip(c, chunks, next, limit);
  }

  /* ---- the codec used ---- */

  const UTF8: Codec := Codec((s: Text16) => Utf8.Encode(s), (b: Bytes) => Utf8.Decode(b))

  lemma {:induction false} AsciiBytes(s: Text16)
    requires Ascii(s)
    ensures |Utf8.Encode(s)| == |s| && forall i :: 0 <= i < |s| ==> Utf8.Encode(s)[i] as int == s[i] as int
  {
    if s != [] {
      AsciiBytes(s[1..]);
      Utf8.PointBytes(s[0]);
      assert Utf8.Lead(s) == s[0] && |Utf8.Spell(s[0])| == 1;
      var e := Utf8.Encode(s[1..]);
      assert Utf8.Encode(s) == [s[0]] + e;
      forall i | 0 <= i < |s|
        ensures Utf8.Encode(s)[i] as int == s[i] as int
      {
        if i > 0 {
          assert s[i] == s[1..][i - 1];
        }
      }
    }
  }

  lemma EncodeNonEmpty(s: Text16)
    requires s != []
    ensures Utf8.Encode(s) != []
  {
  }

  lemma Utf8Faithful()
    ensures Faithful(UTF8)
  {
    forall s: Text16
      ensures UTF8.dec(UTF8.enc(s)) == s
      ensures s != [] ==> UTF8.enc(s) != []
      ensures Ascii(s) ==> |UTF8.enc(s)| == |s|
    {
      Utf8.DecodeEncode(s);
      if s != [] {
        EncodeNonEmpty(s);
      }
      if Ascii(s) {
        AsciiBytes(s);
      }
    }
    forall s: Text16, i | Ascii(s) && 0 <= i < |s| && i < |UTF8.enc(s)|
      ensures UTF8.enc(s)[i] as int == s[i] as int
    {
      AsciiBytes(s);
    }
  }
}
