/** A Feistel network over any two-part block: each round moves one half and masks the other. */
module Feistel {
  datatype Block<W> = Block(x: W, y: W)

  /** The masking of one half by the other under a round key. */
  type Mask<!W, !K> = (W, W, K) -> W

  ghost predicate Involutive<W(!new), K(!new)>(m: Mask<W, K>)
  {
    forall x, w, k :: m(m(x, w, k), w, k) == x
  }

  function Swap<W>(b: Block<W>): Block<W> { Block(b.y, b.x) }

  /** One round: the halves change places, and one is masked by the other. */
  function Round<W, K>(m: Mask<W, K>, b: Block<W>, k: K): Block<W>
  {
    Block(b.y, m(b.x, b.y, k))
  }

  function Rounds<W, K>(m: Mask<W, K>, b: Block<W>, ks: seq<K>): Block<W>
    decreases |ks|
  {
    if ks == [] then b else Rounds(m, Round(m, b, ks[0]), ks[1..])
  }

  function Reversed<T>(xs: seq<T>): (r: seq<T>)
    ensures |r| == |xs| && forall i :: 0 <= i < |xs| ==> r[i] == xs[|xs| - 1 - i]
  {
    if xs == [] then [] else Reversed(xs[1..]) + [xs[0]]
  }

  lemma {:induction false} RoundsSnoc<W, K>(m: Mask<W, K>, b: Block<W>, ks: seq<K>, k: K)
    ensures Rounds(m, b, ks + [k]) == Round(m, Rounds(m, b, ks), k)
    decreases |ks|
  {
    if ks == [] {
      assert [k][1..] == [] && ks + [k] == [k];
    } else {
      RoundsSnoc(m, Round(m, b, ks[0]), ks[1..], k);
      assert (ks + [k])[1..] == ks[1..] + [k];
    }
  }

  /** Running the rounds again with the keys reversed, on swapped halves, undoes them. */
  lemma {:induction false} RoundsUndone<W(!new), K(!new)>(m: Mask<W, K>, b: Block<W>, ks: seq<K>)
    requires Involutive(m)
    ensures Rounds(m, Swap(Rounds(m, b, ks)), Reversed(ks)) == Swap(b)
    decreases |ks|
  {
    if ks != [] {
      RoundsUndone(m, Round(m, b, ks[0]), ks[1..]);
      RoundsSnoc(m, Swap(Rounds(m, b, ks)), Reversed(ks[1..]), ks[0]);
    }
  }

  /** Two rounds put both halves back in their places. */
  lemma TwoRounds<W, K>(m: Mask<W, K>, b: Block<W>, ks: seq<K>, i: nat)
    requires i + 1 < |ks|
    ensures var x := m(b.x, b.y, ks[i]);
            Rounds(m, b, ks[i..]) == Rounds(m, Block(x, m(b.y, x, ks[i + 1])), ks[i + 2..])
  {
    assert ks[i..][1..] == ks[i + 1..] && ks[i + 1..][1..] == ks[i + 2..];
  }

  /** The rounds two at a time, the halves updated in turn and never moved. */
  method RunRounds<W, K>(m: Mask<W, K>, ks: seq<K>, b: Block<W>) returns (x: W, y: W)
    requires |ks| % 2 == 0
    ensures Block(x, y) == Rounds(m, b, ks)
  {
    x, y := b.x, b.y;
    var i := 0;
    assert ks[0..] == ks;
    while i < |ks|
      invariant 0 <= i <= |ks| && i % 2 == 0
      invariant Rounds(m, Block(x, y), ks[i..]) == Rounds(m, b, ks)
    {
      TwoRounds(m, Block(x, y), ks, i);
      x := m(x, y, ks[i]);
      y := m(y, x, ks[i + 1]);
      i := i + 2;
    }
  }
}
