/** Handling frames neither reads nor writes the receive buffer they were cut from. */
module ClusterApart {
  import opened Bytes
  import opened Framing
  import opened ClusterWire
  import opened Cluster

  /** handle_response changes the connection's response reassembly at most. */
  lemma ResponseConns(s: State, ci: nat, f: Bytes)
    requires ci < |s.conns|
    ensures var t := HandleResponse(s, ci, f);
            |t.conns| == |s.conns| && t.conns == s.conns[ci := s.conns[ci].(rs := t.conns[ci].rs)]
  {
  }

  lemma ResponseApart(s: State, ci: nat, f: Bytes, rx: Bytes)
    requires ci < |s.conns|
    ensures var t := HandleResponse(s, ci, f);
            |t.conns| == |s.conns| && t.conns[ci].outbound == s.conns[ci].outbound
            && HandleResponse(SetRx(s, ci, rx), ci, f) == SetRx(t, ci, rx)
  {
    var c, t, u := s.conns[ci], HandleResponse(s, ci, f), HandleResponse(SetRx(s, ci, rx), ci, f);
    ResponseConns(s, ci, f);
    ResponseConns(SetRx(s, ci, rx), ci, f);
    var r := t.conns[ci].rs;
    assert u.conns[ci].rs == r;
    assert s.conns[ci := c.(rx := rx)][ci := c.(rx := rx, rs := r)] == s.conns[ci := c.(rs := r)][ci := c.(rx := rx, rs := r)];
  }

  /** Dispatching depends on the connection's socket only. */
  lemma DispatchApart(s: State, ci: nat, c: Call, rx: Bytes)
    requires ci < |s.conns|
    ensures Dispatch(s, ci, c).conns == s.conns
    ensures Dispatch(SetRx(s, ci, rx), ci, c) == SetRx(Dispatch(s, ci, c), ci, rx)
  {
  }

  lemma RequestApart(s: State, ci: nat, f: Bytes, rx: Bytes)
    requires ci < |s.conns|
    ensures var t := HandleRequest(s, ci, f);
            |t.conns| == |s.conns| && t.conns[ci].outbound == s.conns[ci].outbound
            && HandleRequest(SetRx(s, ci, rx), ci, f) == SetRx(t, ci, rx)
  {
    var c := s.conns[ci];
    var (q, calls) := InStep(c.inbound, f);
    var a := Absorb(s, ci, q, calls);
    assert s.conns[ci := c.(rx := rx)][ci := c.(rx := rx, inbound := q)]
        == s.conns[ci := c.(inbound := q)][ci := c.(rx := rx, inbound := q)];
    assert Absorb(SetRx(s, ci, rx), ci, q, calls) == SetRx(a, ci, rx);
    if calls != [] {
      DispatchApart(a, ci, calls[0], rx);
    }
  }

  lemma {:induction false} FramesApart(s: State, ci: nat, fs: seq<Bytes>, rx: Bytes)
    requires ci < |s.conns|
    ensures var t := HandleFrames(s, ci, fs);
            |t.conns| == |s.conns| && t.conns[ci].outbound == s.conns[ci].outbound
            && HandleFrames(SetRx(s, ci, rx), ci, fs) == SetRx(t, ci, rx)
    decreases |fs|
  {
    if fs != [] {
      ResponseApart(s, ci, fs[0], rx);
      RequestApart(s, ci, fs[0], rx);
      FramesApart(HandleFrame(s, ci, fs[0]), ci, fs[1..], rx);
    }
  }

  /** What is left for conn_data to do once `rx` holds everything received. */
  ghost function Drained(s: State, ci: nat): State
    requires ci < |s.conns|
  {
    var rx := s.conns[ci].rx;
    FramesApart(s, ci, Frames(rx), rx);
    SetRx(HandleFrames(s, ci, Frames(rx)), ci, Rest(rx))
  }

  lemma SetRxTwice(s: State, ci: nat, a: Bytes, b: Bytes)
    requires ci < |s.conns|
    ensures SetRx(SetRx(s, ci, a), ci, b) == SetRx(s, ci, b)
  {
    assert s.conns[ci := s.conns[ci].(rx := a)][ci := s.conns[ci].(rx := b)] == s.conns[ci := s.conns[ci].(rx := b)];
  }

  lemma DrainedStep(s: State, ci: nat)
    requires ci < |s.conns| && HasFrame(s.conns[ci].rx)
    ensures var rx := s.conns[ci].rx;
            var s1 := HandleFrame(s, ci, FirstFrame(rx));
            ci < |s1.conns| && Drained(SetRx(s1, ci, AfterFrame(rx)), ci) == Drained(s, ci)
  {
    var rx := s.conns[ci].rx;
    var s1, z := HandleFrame(s, ci, FirstFrame(rx)), AfterFrame(rx);
    ResponseApart(s, ci, FirstFrame(rx), rx);
    RequestApart(s, ci, FirstFrame(rx), rx);
    FramesApart(s1, ci, Frames(z), z);
    SetRxTwice(HandleFrames(s1, ci, Frames(z)), ci, z, Rest(z));
  }

  lemma DrainedAll(s: State, ci: nat, bytes: Bytes)
    requires ci < |s.conns|
    ensures var c := s.conns[ci];
            var s0 := if c.outbound then s else s.(received := s.received + [(c.sock, bytes)]);
            Drained(SetRx(s0, ci, c.rx + bytes), ci) == ConnData(s, ci, bytes)
  {
    var c := s.conns[ci];
    var s0 := if c.outbound then s else s.(received := s.received + [(c.sock, bytes)]);
    var rx := c.rx + bytes;
    FramesApart(s0, ci, Frames(rx), rx);
    SetRxTwice(HandleFrames(s0, ci, Frames(rx)), ci, rx, Rest(rx));
  }
}
