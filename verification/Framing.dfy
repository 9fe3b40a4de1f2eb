/**
 Frames with a 2-byte big-endian length in front, shared by the cluster protocol
 (skyclusterd.c) and the gate's netpack buffer (js-net.c). `Split` is the meaning of a
 byte stream: the complete frames it starts with, and the bytes of the unfinished one.
 */
module Framing {
  import opened Bytes

  function Pack(payload: Bytes): (r: Bytes)
    requires |payload| < TWO_16
    ensures |r| == |payload| + 2
  {
    BE16(|payload|) + payload
  }

  /** A whole frame stands at the front of b. */
  predicate HasFrame(b: Bytes)
  {
    |b| >= 2 && |b| >= 2 + GetBE16(b)
  }

  function FirstFrame(b: Bytes): (r: Bytes)
    requires HasFrame(b)
    ensures |r| < TWO_16 && Pack(r) <= b && |r| == GetBE16(b)
  {
    var r := b[2..2 + GetBE16(b)];
    assert BE16(GetBE16(b)) == b[..2];
    assert Pack(r) == b[..2 + |r|];
    r
  }

  function AfterFrame(b: Bytes): (r: Bytes)
    requires HasFrame(b)
    ensures |r| < |b| && b == Pack(FirstFrame(b)) + r
  {
    b[2 + GetBE16(b)..]
  }

  function Frames(b: Bytes): (fs: seq<Bytes>)
    decreases |b|
  {
    if HasFrame(b) then [FirstFrame(b)] + Frames(AfterFrame(b)) else []
  }

  function Rest(b: Bytes): (r: Bytes)
    ensures !HasFrame(r) && |r| <= |b|
    decreases |b|
  {
    if HasFrame(b) then Rest(AfterFrame(b)) else b
  }

  ghost predicate Packable(fs: seq<Bytes>)
  {
    forall i :: 0 <= i < |fs| ==> |fs[i]| < TWO_16
  }

  function PackAll(fs: seq<Bytes>): (r: Bytes)
    requires Packable(fs)
  {
    if fs == [] then [] else Pack(fs[0]) + PackAll(fs[1..])
  }

  lemma {:induction false} PackAllAppend(a: seq<Bytes>, b: seq<Bytes>)
    requires Packable(a) && Packable(b)
    ensures Packable(a + b) && PackAll(a + b) == PackAll(a) + PackAll(b)
  {
    if a == [] {
      assert a + b == b;
    } else {
      PackAllAppend(a[1..], b);
      assert (a + b)[1..] == a[1..] + b;
      assert (a + b)[0] == a[0];
      Assoc(Pack(a[0]), PackAll(a[1..]), PackAll(b));
    }
  }

  lemma PackFirst(p: Bytes, z: Bytes)
    requires |p| < TWO_16
    ensures HasFrame(Pack(p) + z) && FirstFrame(Pack(p) + z) == p && AfterFrame(Pack(p) + z) == z
  {
    var b := Pack(p) + z;
    assert b[0] == BE16(|p|)[0] && b[1] == BE16(|p|)[1];
    assert GetBE16(b) == |p|;
  }

  /** Nothing is lost or invented: frames and remainder spell the stream. */
  lemma {:induction false} SplitSpells(b: Bytes)
    ensures Packable(Frames(b)) && b == PackAll(Frames(b)) + Rest(b)
    decreases |b|
  {
    if HasFrame(b) {
      var t := AfterFrame(b);
      SplitSpells(t);
      assert Frames(b)[1..] == Frames(t);
      Assoc(Pack(FirstFrame(b)), PackAll(Frames(t)), Rest(t));
    }
  }

  /** Framing is unambiguous: the only way to read packed frames is as those frames. */
  lemma {:induction false} SplitUnique(fs: seq<Bytes>, r: Bytes)
    requires Packable(fs) && !HasFrame(r)
    ensures Frames(PackAll(fs) + r) == fs && Rest(PackAll(fs) + r) == r
  {
    if fs == [] {
      assert PackAll(fs) + r == r;
    } else {
      var z := PackAll(fs[1..]) + r;
      Assoc(Pack(fs[0]), PackAll(fs[1..]), r);
      PackFirst(fs[0], z);
      SplitUnique(fs[1..], r);
    }
  }

  /** Where the stream is cut does not matter. */
  lemma {:induction false} SplitAppend(a: Bytes, b: Bytes)
    ensures Frames(a + b) == Frames(a) + Frames(Rest(a) + b)
    ensures Rest(a + b) == Rest(Rest(a) + b)
  {
    var c := Rest(a) + b;
    SplitSpells(a);
    SplitSpells(c);
    var fs := Frames(a) + Frames(c);
    PackAllAppend(Frames(a), Frames(c));
    assert a + b == PackAll(fs) + Rest(c) by {
      Assoc(PackAll(Frames(a)), Rest(a), b);
      Assoc(PackAll(Frames(a)), PackAll(Frames(c)), Rest(c));
    }
    SplitUnique(fs, Rest(c));
  }
}
