/** Where the cluster node speaks the value format by itself: the name a caller asks for and the
    handle it is answered with. */
module SeriCluster {
  import opened Wrappers
  import opened Bytes
  import opened Seri
  import Cluster

  /** The handle in a name reply is read back as that number, whatever follows it. */
  lemma HandleReadBack(v: int, s: Bytes)
    requires INT64_MIN <= v < INT64_END
    ensures Decode(Cluster.SeriPackInt(v) + s) == Some((NormInt(v), s))
    ensures Cluster.SeriPackInt(v) == EncodeInt(v) <==> v != 0
  {
    if v == 0 {
      assert LE(0, 1) == [0] + LE(0, 0);
      var b := Cluster.SeriPackInt(v) + s;
      assert b[1..] == [0] + s;
      assert ([0] + s)[..1] == [0] && ([0] + s)[1..] == s;
      assert [0][1..] == [];
      assert GetInt(1, b[1..]) == Some((0, s));
      assert Decode(b) == DecodeAs(2, 1, b[1..]);
    } else {
      NumberRoundTrip(v, s);
    }
  }

  /** The node reads the name of a packed query exactly when it is shorter than 32 bytes. */
  lemma NameReadBack(name: Bytes, more: seq<Value>)
    requires |name| < TWO_31
    ensures Cluster.SeriFirstString(EncodeAll([Text(name)] + more)) == Some(name) <==> |name| < 32
  {
    var vs := [Text(name)] + more;
    var b := EncodeAll(vs);
    assert vs[0] == Text(name) && Encode(Text(name)) == EncodeText(name);
    assert b == Encode(vs[0]) + EncodeAll(vs[1..]);
    if |name| < 32 {
      assert b[1..1 + |name|] == name;
    }
  }
}
