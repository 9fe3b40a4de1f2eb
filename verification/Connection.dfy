/** A BufferedReader on a socket: each await is fed the segments still to come until it is answered. */
module Connection {
  import opened Wrappers
  import opened Bytes
  import opened R = BufferedReader

  class Connection {
    const reader: R.BufferedReader
    /** The segments the socket has yet to deliver, in order; the peer closes after the last. */
    var coming: seq<Bytes>

    ghost predicate Valid()
      reads this, reader
    {
      reader.Valid() && reader.pending.None? && (reader.closed ==> coming == [])
    }

    /** All bytes not yet taken, received or not: how they are cut does not show. */
    ghost function View(): Bytes
      reads this, reader
    {
      Flatten(reader.chunks) + Flatten(coming)
    }

    constructor (segments: seq<Bytes>)
      ensures Valid() && View() == Flatten(segments) && fresh(reader)
    {
      reader := new R.BufferedReader();
      coming := segments;
    }

    /** Await one read: the answer the flat string gives, or a rejection when it ends too soon. */
    method Await(w: Want) returns (a: Option<Answer>)
      requires Valid()
      modifies this, reader
      ensures Valid()
      ensures match Satisfy(w, old(View()))
              case None => a == None
              case Some((x, rest)) => a == Some(x) && View() == rest
    {
      ghost var all := View();
      Arriving(w, reader.Abs().buf, Flatten(coming));
      var o := reader.Want(w);
      if o.Rejects? {
        assert reader.Abs().buf + Flatten(coming) == reader.Abs().buf;
        return None;
      }
      while o.Waits? && coming != []
        invariant reader.Valid() && (reader.closed ==> coming == [])
        invariant o.Waits? || o.Resolves?
        invariant o.Waits? ==> reader.pending == Some(w) && !reader.closed && View() == all &&
                               Satisfy(w, Flatten(reader.chunks)).None?
        invariant o.Resolves? ==> reader.pending == None && Satisfy(w, all) == Some((o.answer, View()))
        decreases |coming|
      {
        var data := coming[0];
        ghost var before := Flatten(reader.chunks);
        Assoc(before, data, Flatten(coming[1..]));
        Arriving(w, before + data, Flatten(coming[1..]));
        coming := coming[1..];
        if data == [] {
          assert before + data == before;
        }
        o := reader.OnData(data);
      }
      if o.Resolves? {
        return Some(o.answer);
      }
      assert Flatten(reader.chunks) + [] == Flatten(reader.chunks);
      o := reader.OnClose();
      return None;
    }
  }

  /** What is buffered answers as everything would, if it answers at all. */
  lemma Arriving(w: Want, b: Bytes, more: Bytes)
    ensures Satisfy(w, b).Some? ==>
              Satisfy(w, b + more) == Some((Satisfy(w, b).value.0, Satisfy(w, b).value.1 + more))
  {
    if Satisfy(w, b).Some? {
      SatisfyAppend(w, b, more);
    }
  }

  method AwaitBytes(conn: Connection, n: int) returns (data: Option<Bytes>)
    requires conn.Valid()
    modifies conn, conn.reader
    ensures conn.Valid()
    ensures match NextBytes(n, old(conn.View()))
            case Ended => data == None
            case Got(d, rest) => data == Some(d) && conn.View() == rest
  {
    var a := conn.Await(Exactly(n));
    return if a.None? then None else Some(a.value.bytes);
  }
}
