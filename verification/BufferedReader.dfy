/** BufferedReader of net-core.js: a queue of received chunks that answers reads as one flat byte
    string would. */
module BufferedReader {
  import opened Wrappers
  import opened Bytes

  const CR: Byte := 13
  const LF: Byte := 10
  const CRLF: Bytes := [CR, LF]

  /** What a caller waits for: so many bytes, or a line. */
  datatype Want = Exactly(n: int) | Line

  /** Bytes, or the bytes of a line, which readline hands to the text decoder. */
  datatype Answer = Data(bytes: Bytes) | Text(line: Bytes)

  /* ---- the flat byte string ---- */

  predicate PairAt(b: Bytes, q: int) { 0 <= q && q + 1 < |b| && b[q] == CR && b[q + 1] == LF }

  /** Where the first CRLF starts, or |b| if there is none. */
  function Crlf(b: Bytes): (p: nat)
    ensures p <= |b|
    ensures p < |b| ==> PairAt(b, p)
    ensures forall q :: q < p ==> !PairAt(b, q)
  {
    if |b| < 2 then |b|
    else if PairAt(b, 0) then 0
    else
      var p := Crlf(b[1..]);
      assert forall q :: 0 < q ==> PairAt(b, q) == PairAt(b[1..], q - 1);
      assert p < |b[1..]| ==> PairAt(b, p + 1);
      p + 1
  }

  /** The answer a flat string gives, and what it has left; nothing when it holds too little. */
  function Satisfy(w: Want, b: Bytes): (r: Option<(Answer, Bytes)>)
    ensures r.Some? ==> |r.value.1| <= |b|
  {
    match w
    case Exactly(n) =>
      if n <= 0 then Some((Data([]), b))
      else if n <= |b| then Some((Data(b[..n]), b[n..]))
      else None
    case Line =>
      var p := Crlf(b);
      if p < |b| then Some((Text(b[..p]), b[p + 2..])) else None
  }

  lemma CrlfAt(all: Bytes, p: int)
    requires PairAt(all, p) && forall q :: q < p ==> !PairAt(all, q)
    ensures Crlf(all) == p
  {
  }

  lemma CrlfAppend(b: Bytes, more: Bytes)
    requires Crlf(b) < |b|
    ensures Crlf(b + more) == Crlf(b)
  {
    var p, c := Crlf(b), b + more;
    forall q | q <= p
      ensures PairAt(c, q) == PairAt(b, q)
    {
      assert q >= 0 ==> c[q] == b[q] && c[q + 1] == b[q + 1];
    }
    CrlfAt(c, p);
  }

  /** What a flat string answers, in plain bytes: so many bytes off its front; or a line up to the first
      carriage return followed by a line feed, which are dropped; and nothing as long as it is too
      short, or has no such pair. */
  lemma AnswersAre(a: Bytes, rest: Bytes)
    ensures Satisfy(Exactly(|a|), a + rest) == Some((Data(a), rest))
    ensures forall n: int :: n > |a| ==> Satisfy(Exactly(n), a) == None
    ensures (forall q :: 0 <= q < |a| - 1 ==> !(a[q] == 13 && a[q + 1] == 10)) ==>
              Satisfy(Line, a) == None && Satisfy(Line, a + [13, 10] + rest) == Some((Text(a), rest))
  {
    assert (a + rest)[..|a|] == a && (a + rest)[|a|..] == rest;
    assert a == [] ==> a + rest == rest;
    if forall q :: 0 <= q < |a| - 1 ==> !(a[q] == 13 && a[q + 1] == 10) {
      NoLine(a);
      LineEnds(a, rest);
    }
  }

  lemma NoLine(a: Bytes)
    requires forall q :: 0 <= q < |a| - 1 ==> !(a[q] == 13 && a[q + 1] == 10)
    ensures Satisfy(Line, a) == None
  {
    assert Crlf(a) == |a|;
  }

  lemma LineEnds(a: Bytes, rest: Bytes)
    requires forall q :: 0 <= q < |a| - 1 ==> !(a[q] == 13 && a[q + 1] == 10)
    ensures Satisfy(Line, a + [13, 10] + rest) == Some((Text(a), rest))
  {
    var b := a + [13, 10] + rest;
    assert b[|a|] == 13 && b[|a| + 1] == 10;
    forall q | q < |a|
      ensures !PairAt(b, q)
    {
      if 0 <= q {
        assert b[q] == a[q] && b[q + 1] == if q + 1 < |a| then a[q + 1] else 13;
      }
    }
    CrlfAt(b, |a|);
    assert b[..|a|] == a && b[|a| + 2..] == rest;
  }

  /** More data never changes an answer that was there before it. */
  lemma SatisfyAppend(w: Want, b: Bytes, more: Bytes)
    requires Satisfy(w, b).Some?
    ensures Satisfy(w, b + more) == Some((Satisfy(w, b).value.0, Satisfy(w, b).value.1 + more))
  {
    match w
    case Exactly(n) =>
      if n > 0 {
        assert (b + more)[..n] == b[..n] && (b + more)[n..] == b[n..] + more;
      }
    case Line =>
      CrlfAppend(b, more);
      var p := Crlf(b);
      assert (b + more)[..p] == b[..p] && (b + more)[p + 2..] == b[p + 2..] + more;
  }

  /** What an awaited read comes to on the flat string: a value and what is left, or the stream ended. */
  datatype Read<+T> = Got(value: T, rest: Bytes) | Ended

  function NextBytes(n: int, b: Bytes): (r: Read<Bytes>)
    ensures r.Got? ==> |r.rest| <= |b|
  {
    match Satisfy(Exactly(n), b) case None => Ended case Some((a, rest)) => Got(a.bytes, rest)
  }

  lemma NextBytesFront(a: Bytes, s: Bytes)
    ensures NextBytes(|a|, a + s) == Got(a, s)
  {
    assert (a + s)[..|a|] == a && (a + s)[|a|..] == s;
    if a == [] {
      assert a + s == s;
    }
  }

  /** A list of wants answered one after the other from one flat string, as far as it goes. */
  function Flat(ws: seq<Want>, b: Bytes): (r: (seq<Answer>, Bytes))
    ensures |r.0| <= |ws|
    decreases |ws|
  {
    if ws == [] then ([], b)
    else
      match Satisfy(ws[0], b)
      case None => ([], b)
      case Some((a, rest)) => var (more, left) := Flat(ws[1..], rest); ([a] + more, left)
  }

  lemma {:induction false} FlatAsk(ws: seq<Want>, b: Bytes, w: Want)
    requires |Flat(ws, b).0| == |ws|
    ensures Flat(ws + [w], b) ==
            match Satisfy(w, Flat(ws, b).1)
            case None => Flat(ws, b)
            case Some((a, rest)) => (Flat(ws, b).0 + [a], rest)
    decreases |ws|
  {
    if ws == [] {
      assert [w][1..] == [] && ws + [w] == [w];
      if Satisfy(w, b).Some? {
        var (a, rest) := Satisfy(w, b).value;
        assert Flat([w], b) == ([a] + [], rest);
        assert [a] + [] == [] + [a];
      }
    } else {
      assert (ws + [w])[1..] == ws[1..] + [w];
      var (a, rest) := Satisfy(ws[0], b).value;
      FlatAsk(ws[1..], rest, w);
      var (more, left) := Flat(ws[1..], rest);
      if Satisfy(w, left).Some? {
        Assoc([a], more, [Satisfy(w, left).value.0]);
      }
    }
  }

  lemma {:induction false} FlatData(ws: seq<Want>, b: Bytes, more: Bytes)
    requires |Flat(ws, b).0| == |ws|
    ensures Flat(ws, b + more) == (Flat(ws, b).0, Flat(ws, b).1 + more)
    decreases |ws|
  {
    if ws != [] {
      SatisfyAppend(ws[0], b, more);
      FlatData(ws[1..], Satisfy(ws[0], b).value.1, more);
    }
  }

  /** When only the last want is open, the wants before it were all met. */
  lemma {:induction false} FlatOpen(ws: seq<Want>, b: Bytes)
    requires ws != [] && |Flat(ws, b).0| == |ws| - 1
    ensures var init := ws[..|ws| - 1];
            Flat(init, b) == Flat(ws, b) && Satisfy(ws[|ws| - 1], Flat(ws, b).1).None?
    decreases |ws|
  {
    var n := |ws| - 1;
    if n > 0 {
      FlatOpen(ws[1..], Satisfy(ws[0], b).value.1);
      assert ws[..n][1..] == ws[1..][..n - 1];
    } else {
      assert ws[..n] == [] && ws[1..] == [];
    }
  }

  /** The bytes answers were made of: what was read, a line with its CRLF. */
  function Spelled(answers: seq<Answer>): Bytes
  {
    if answers == [] then []
    else
      (match answers[0] case Data(bytes) => bytes case Text(line) => line + CRLF) + Spelled(answers[1..])
  }

  lemma SatisfySpells(w: Want, b: Bytes)
    requires Satisfy(w, b).Some?
    ensures Spelled([Satisfy(w, b).value.0]) + Satisfy(w, b).value.1 == b
  {
    var (a, rest) := Satisfy(w, b).value;
    assert [a][1..] == [];
    if w.Line? {
      var p := Crlf(b);
      assert PairAt(b, p);
      assert b[..p] + CRLF + b[p + 2..] == b;
    }
  }

  /** What was answered and what is left are, byte for byte, what there was. */
  lemma {:induction false} FlatSpells(ws: seq<Want>, b: Bytes)
    ensures Spelled(Flat(ws, b).0) + Flat(ws, b).1 == b
    decreases |ws|
  {
    if ws != [] && Satisfy(ws[0], b).Some? {
      var (a, rest) := Satisfy(ws[0], b).value;
      SatisfySpells(ws[0], b);
      FlatSpells(ws[1..], rest);
      var (more, left) := Flat(ws[1..], rest);
      assert ([a] + more)[1..] == more && [a][1..] == [];
      Assoc(Spelled([a]), Spelled(more), left);
    }
  }

  /* ---- the reader as a state machine ---- */

  datatype Reader = Reader(buf: Bytes, pending: Option<Want>, closed: bool)

  datatype Event = Arrive(data: Bytes) | Ask(want: Want) | Close

  /** What a step does to the promise in question: nothing yet, an answer, a rejection, or the
      exception for a second concurrent read. */
  datatype Outcome = Waits | Resolves(answer: Answer) | Rejects | Throws

  function Step(s: Reader, e: Event): (Reader, Outcome)
  {
    match e
    case Arrive(data) =>
      var buf := s.buf + data;
      if s.pending.None? || data == [] then (s.(buf := buf), Waits)
      else
        (match Satisfy(s.pending.value, buf)
         case None => (s.(buf := buf), Waits)
         case Some((a, rest)) => (s.(buf := rest, pending := None), Resolves(a)))
    case Ask(w) =>
      if s.pending.Some? then (s, Throws)
      else
        (match Satisfy(w, s.buf)
         case Some((a, rest)) => (s.(buf := rest), Resolves(a))
         case None => if s.closed then (s, Rejects) else (s.(pending := Some(w)), Waits))
    case Close => (s.(closed := true, pending := None), if s.pending.Some? then Rejects else Waits)
  }

  /** A run: the reader, the bytes received, the wants met or still open, and the answers given. */
  datatype Run = Run(reader: Reader, received: Bytes, asked: seq<Want>, answers: seq<Answer>)

  function Advance(r: Run, e: Event): Run
  {
    var (s, o) := Step(r.reader, e);
    var received := if e.Arrive? then r.received + e.data else r.received;
    var asked :=
      if e.Ask? && (o.Resolves? || (o.Waits? && r.reader.pending.None?)) then r.asked + [e.want]
      else if e.Close? && o.Rejects? && r.asked != [] then r.asked[..|r.asked| - 1]
      else r.asked;
    Run(s, received, asked, if o.Resolves? then r.answers + [o.answer] else r.answers)
  }

  const START: Run := Run(Reader([], None, false), [], [], [])

  function Play(r: Run, es: seq<Event>): Run
    decreases |es|
  {
    if es == [] then r else Play(Advance(r, es[0]), es[1..])
  }

  /** The answers are those of the flat string, what is buffered is what it has left, and a read is
      open only while that cannot meet it. */
  predicate Inv(r: Run)
  {
    && Flat(r.asked, r.received) == (r.answers, r.reader.buf)
    && (r.reader.closed ==> r.reader.pending.None?)
    && match r.reader.pending
       case None => |r.answers| == |r.asked|
       case Some(w) => r.asked != [] && w == r.asked[|r.asked| - 1] && |r.answers| == |r.asked| - 1
  }

  lemma InvArrive(r: Run, data: Bytes)
    requires Inv(r)
    ensures Inv(Advance(r, Arrive(data)))
  {
    if r.reader.pending.None? {
      FlatData(r.asked, r.received, data);
    } else if data == [] {
      assert r.received + data == r.received && r.reader.buf + data == r.reader.buf;
    } else {
      InvOpen(r, data);
    }
  }

  /** Data arriving while a read is open. */
  lemma InvOpen(r: Run, data: Bytes)
    requires Inv(r) && r.reader.pending.Some? && data != []
    ensures Inv(Advance(r, Arrive(data)))
  {
    var n := |r.asked| - 1;
    var init, w := r.asked[..n], r.asked[n];
    FlatOpen(r.asked, r.received);
    FlatData(init, r.received, data);
    FlatAsk(init, r.received + data, w);
    assert init + [w] == r.asked;
    assert Flat(r.asked, r.received + data) ==
           match Satisfy(w, r.reader.buf + data)
           case None => (r.answers, r.reader.buf + data)
           case Some((a, rest)) => (r.answers + [a], rest);
  }

  lemma InvStep(r: Run, e: Event)
    requires Inv(r)
    ensures Inv(Advance(r, e))
  {
    match e
    case Arrive(data) => InvArrive(r, data);
    case Ask(w) =>
      if r.reader.pending.None? {
        FlatAsk(r.asked, r.received, w);
      }
    case Close =>
      if r.reader.pending.Some? {
        FlatOpen(r.asked, r.received);
      }
  }

  lemma {:induction false} InvPlay(r: Run, es: seq<Event>)
    requires Inv(r)
    ensures Inv(Play(r, es))
    decreases |es|
  {
    if es != [] {
      InvStep(r, es[0]);
      InvPlay(Advance(r, es[0]), es[1..]);
    }
  }

  /** For every chunking and every order of data and reads: the answers given are what one flat
      string of all the bytes received gives the same reads, nothing is lost in between, and a
      read still open is one the buffered bytes cannot meet. */
  lemma AnswersAreFlat(es: seq<Event>)
    ensures var r := Play(START, es);
            && Flat(r.asked, r.received) == (r.answers, r.reader.buf)
            && Spelled(r.answers) + r.reader.buf == r.received
            && (r.reader.pending.Some? ==> Satisfy(r.reader.pending.value, r.reader.buf).None?)
  {
    InvPlay(START, es);
    var r := Play(START, es);
    FlatSpells(r.asked, r.received);
    if r.reader.pending.Some? {
      FlatOpen(r.asked, r.received);
    }
  }

  /* ---- the reader as it runs ---- */

  class BufferedReader {
    var chunks: seq<Bytes>
    var total: nat
    var pending: Option<Want>
    var closed: bool

    /** No chunk is empty, and total is the sum of their lengths. */
    ghost predicate Valid()
      reads this
    {
      && (forall c :: c in chunks ==> c != [])
      && total == |Flatten(chunks)|
    }

    ghost function Abs(): Reader
      reads this
    {
      Reader(Flatten(chunks), pending, closed)
    }

    constructor ()
      ensures Valid() && Abs() == START.reader
    {
      chunks, total, pending, closed := [], 0, None, false;
    }

    /** _consume: exactly n bytes off the front of the queue, splitting the last chunk if need be. */
    method Consume(n: nat) returns (out: Bytes)
      requires Valid() && n <= total
      modifies this`chunks, this`total
      ensures Valid()
      ensures out == old(Flatten(chunks))[..n] && Flatten(chunks) == old(Flatten(chunks))[n..]
    {
      if n == 0 {
        return [];
      }
      if |chunks| > 0 && |chunks[0]| == n {
        Halves(chunks[0], Flatten(chunks[1..]));
        assert forall c :: c in chunks[1..] ==> c in chunks;
        out, chunks, total := chunks[0], chunks[1..], total - n;
        return;
      }
      out := [];
      ghost var all := Flatten(chunks);
      var remaining := n;
      while remaining > 0
        invariant 0 <= remaining <= n && total == |all|
        invariant forall c :: c in chunks ==> c != []
        invariant out + Flatten(chunks) == all && |out| == n - remaining
      {
        assert chunks != [] by { assert |Flatten(chunks)| >= remaining; }
        var chunk := chunks[0];
        assert chunk in chunks;
        assert forall c :: c in chunks[1..] ==> c in chunks;
        if |chunk| <= remaining {
          Assoc(out, chunk, Flatten(chunks[1..]));
          out, remaining, chunks := out + chunk, remaining - |chunk|, chunks[1..];
        } else {
          SplitFirst(out, chunks, remaining);
          assert chunk[remaining..] != [];
          out, chunks, remaining := out + chunk[..remaining], [chunk[remaining..]] + chunks[1..], 0;
        }
      }
      Halves(out, Flatten(chunks));
      total := total - n;
    }

    /** scanCrlf: the pair is looked for across chunk borders, remembering the byte before. */
    method ScanCrlf() returns (pos: int)
      requires Valid()
      ensures var p := Crlf(Flatten(chunks)); pos == if p < total then p else -1
    {
      var offset: nat, prev := 0, -1;
      ghost var all := Flatten(chunks);
      var i := 0;
      assert chunks[0..] == chunks;
      while i < |chunks|
        invariant 0 <= i <= |chunks| && offset <= |all| == total
        invariant Flatten(chunks[i..]) == all[offset..]
        invariant Seen(all, offset, prev)
      {
        var view := chunks[i];
        assert chunks[i..][1..] == chunks[i + 1..];
        Within(all, offset, view, Flatten(chunks[i + 1..]));
        var j := 0;
        while j < |view|
          invariant 0 <= j <= |view| && offset + |view| <= |all|
          invariant all[offset..offset + |view|] == view
          invariant Seen(all, offset + j, prev)
        {
          assert view[j] == all[offset + j];
          if prev == CR as int && view[j] == LF {
            assert PairAt(all, offset + j - 1);
            CrlfAt(all, offset + j - 1);
            return offset + j - 1;
          }
          prev := view[j] as int;
          j := j + 1;
        }
        offset := offset + |view|;
        i := i + 1;
      }
      assert |Flatten(chunks[i..])| == 0;
      NoCrlf(all);
      return -1;
    }

    /** The satisfaction test and the consumption shared by read, readline and tryResolve. */
    method TryMeet(w: Want) returns (a: Option<Answer>)
      requires Valid()
      modifies this`chunks, this`total
      ensures Valid()
      ensures match Satisfy(w, old(Flatten(chunks)))
              case None => a == None && Flatten(chunks) == old(Flatten(chunks))
              case Some((x, rest)) => a == Some(x) && Flatten(chunks) == rest
    {
      match w
      case Exactly(n) =>
        if n <= 0 {
          return Some(Data([]));
        }
        if total >= n {
          var b := Consume(n);
          return Some(Data(b));
        }
        return None;
      case Line =>
        var pos := ScanCrlf();
        if pos >= 0 {
          var b := Consume(pos + 2);
          assert b[..pos] == old(Flatten(chunks))[..pos];
          return Some(Text(b[..pos]));
        }
        return None;
    }

    /** onData, with tryResolve: the promise it settles, if any. */
    method OnData(data: Bytes) returns (o: Outcome)
      requires Valid()
      modifies this
      ensures Valid() && (Abs(), o) == Step(old(Abs()), Arrive(data))
    {
      if data == [] {
        assert Flatten(chunks) + data == Flatten(chunks);
        return Waits;
      }
      FlattenSnoc(chunks, data);
      chunks, total := chunks + [data], total + |data|;
      if pending.None? {
        return Waits;
      }
      var a := TryMeet(pending.value);
      if a.None? {
        return Waits;
      }
      pending := None;
      return Resolves(a.value);
    }

    /** read and readline. */
    method Want(w: Want) returns (o: Outcome)
      requires Valid()
      modifies this
      ensures Valid() && (Abs(), o) == Step(old(Abs()), Ask(w))
    {
      if pending.Some? {
        return Throws;
      }
      var a := TryMeet(w);
      if a.Some? {
        return Resolves(a.value);
      }
      if closed {
        return Rejects;
      }
      pending := Some(w);
      return Waits;
    }

    /** onClose and onError. */
    method OnClose() returns (o: Outcome)
      requires Valid()
      modifies this
      ensures Valid() && (Abs(), o) == Step(old(Abs()), Close)
    {
      closed := true;
      if pending.Some? {
        pending := None;
        return Rejects;
      }
      return Waits;
    }
  }

  lemma SplitFirst(out: Bytes, chunks: seq<Bytes>, k: nat)
    requires chunks != [] && k < |chunks[0]|
    ensures (out + chunks[0][..k]) + Flatten([chunks[0][k..]] + chunks[1..]) == out + Flatten(chunks)
  {
    var rest := [chunks[0][k..]] + chunks[1..];
    assert rest[1..] == chunks[1..];
    assert chunks[0] == chunks[0][..k] + chunks[0][k..];
    Assoc(chunks[0][..k], chunks[0][k..], Flatten(chunks[1..]));
    Assoc(out, chunks[0][..k], Flatten(rest));
  }

  /** The first n bytes were scanned without finding the pair; prev is the last of them. */
  ghost predicate Seen(all: Bytes, n: nat, prev: int)
  {
    && n <= |all|
    && prev == (if n == 0 then -1 else all[n - 1] as int)
    && forall q :: q + 1 < n ==> !PairAt(all, q)
  }

  lemma Within(all: Bytes, offset: nat, view: Bytes, more: Bytes)
    requires offset <= |all| && all[offset..] == view + more
    ensures offset + |view| <= |all| && all[offset..offset + |view|] == view && all[offset + |view|..] == more
  {
    assert all[offset..][..|view|] == view && all[offset..][|view|..] == more;
  }

  lemma NoCrlf(all: Bytes)
    requires forall q :: !PairAt(all, q)
    ensures Crlf(all) == |all|
  {
  }
}
