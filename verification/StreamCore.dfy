/** Readable of stream-core.js with one read outstanding at a time. */
module StreamCore {
  import opened Wrappers
  import opened Bytes

  class Readable {
    /** AsyncQueue's items. */
    var buffer: seq<Bytes>
    var bufferedBytes: int
    var ended: bool
    /** The chunks the source still has; after the last it answers null. */
    var source: seq<Bytes>

    /** The queue never holds more than one chunk. */
    ghost predicate Valid()
      reads this
    {
      |buffer| <= 1 && bufferedBytes == |Flatten(buffer)| && (ended ==> source == [])
    }

    /** Every byte not yet delivered, in order. */
    ghost function Rest(): Bytes
      reads this
    {
      Flatten(buffer) + Flatten(source)
    }

    constructor (chunks: seq<Bytes>)
      ensures Valid() && Rest() == Flatten(chunks)
    {
      buffer, bufferedBytes, ended, source := [], 0, false, chunks;
    }

    /** _pump: one pull. */
    method Pump()
      requires Valid() && buffer == []
      modifies this
      ensures Valid() && Rest() == old(Rest())
      ensures if old(source) == [] then ended && buffer == [] && source == []
              else |buffer| == 1 && buffer[0] == old(source)[0] && source == old(source)[1..]
    {
      if ended {
        return;
      }
      if source == [] {
        ended := true;
      } else {
        FlattenOne(source[0]);
        buffer, bufferedBytes, source := [source[0]], bufferedBytes + |source[0]|, source[1..];
      }
    }

    /** read: the first chunk, or its first n bytes, the remainder going to the back of the queue. As
        nothing else is queued then, no byte changes place. */
    method Read(n: Option<int>) returns (r: Option<Bytes>)
      requires Valid()
      modifies this
      ensures Valid()
      ensures r == None <==> old(buffer + source) == []
      ensures r == None ==> Rest() == []
      ensures r.Some? ==>
                var chunk := old(buffer + source)[0];
                && old(Rest()) == r.value + Rest()
                && r.value == (if n.Some? && 0 <= n.value < |chunk| then chunk[..n.value] else chunk)
                && (n.None? ==> buffer + source == old(buffer + source)[1..])
    {
      if buffer == [] {
        Pump();
        assert old(buffer + source) == buffer + source;
      }
      if buffer == [] {
        return None;
      }
      var chunk := buffer[0];
      FlattenOne(chunk);
      assert buffer == [chunk];
      buffer := buffer[1..];
      bufferedBytes := bufferedBytes - |chunk|;
      if n.Some? && n.value >= 0 && |chunk| > n.value {
        var remainder := chunk[n.value..];
        FlattenOne(remainder);
        buffer := buffer + [remainder];
        bufferedBytes := bufferedBytes + |remainder|;
        assert buffer == [remainder];
        assert chunk == chunk[..n.value] + remainder;
        Assoc(chunk[..n.value], remainder, Flatten(source));
        return Some(chunk[..n.value]);
      }
      assert [] + Flatten(source) == Flatten(source);
      assert buffer + source == source && ([chunk] + source)[1..] == source;
      return Some(chunk);
    }

    /** However the bytes are asked for, what is delivered is a prefix of the source's bytes and what is
        left is the rest of them. */
    method ReadMany(ns: seq<Option<int>>) returns (out: seq<Bytes>)
      requires Valid()
      modifies this
      ensures Valid() && old(Rest()) == Flatten(out) + Rest()
    {
      out := [];
      assert [] + Rest() == Rest();
      var i := 0;
      while i < |ns|
        invariant 0 <= i <= |ns| && Valid()
        invariant old(Rest()) == Flatten(out) + Rest()
      {
        var r := Read(ns[i]);
        if r.None? {
          return;
        }
        FlattenAppend(out, [r.value]);
        FlattenOne(r.value);
        Assoc(Flatten(out), r.value, Rest());
        out := out + [r.value];
        i := i + 1;
      }
    }
  }

  /** pipe, into a sink that accepts every chunk: all of the source's bytes, in order, to the end. */
  method Pipe(from: Readable) returns (written: seq<Bytes>)
    requires from.Valid()
    modifies from
    ensures Flatten(written) == old(from.Rest()) && written == old(from.buffer + from.source)
  {
    written := [];
    ghost var all, queue := from.Rest(), from.buffer + from.source;
    while true
      invariant from.Valid() && written + (from.buffer + from.source) == queue
      invariant all == Flatten(written) + from.Rest()
      decreases |from.buffer + from.source|
    {
      ghost var before := from.buffer + from.source;
      var chunk := from.Read(None);
      if chunk.None? {
        return;
      }
      FlattenAppend(written, [chunk.value]);
      FlattenOne(chunk.value);
      Assoc(Flatten(written), chunk.value, from.Rest());
      Assoc(written, [chunk.value], from.buffer + from.source);
      assert before == [chunk.value] + before[1..];
      written := written + [chunk.value];
    }
  }

  /** What a read does to a queue, whatever it holds. */
  function AfterRead(queue: seq<Bytes>, n: nat): seq<Bytes>
    requires queue != []
  {
    if n < |queue[0]| then queue[1..] + [queue[0][n..]] else queue[1..]
  }

  /** Pushing a remainder to the back keeps the byte order exactly when the remainder and what is
      queued behind it read the same either way round, as when nothing is. */
  lemma OrderKeptIff(queue: seq<Bytes>, n: nat)
    requires queue != [] && n < |queue[0]|
    ensures var left, behind := queue[0][n..], Flatten(queue[1..]);
            Flatten(queue) == queue[0][..n] + Flatten(AfterRead(queue, n)) <==> left + behind == behind + left
  {
    var head, left, behind := queue[0][..n], queue[0][n..], Flatten(queue[1..]);
    FlattenAppend(queue[1..], [left]);
    FlattenOne(left);
    assert queue[0] == head + left;
    Assoc(head, left, behind);
    assert (head + (left + behind))[n..] == left + behind;
    assert (head + (behind + left))[n..] == behind + left;
  }
}
