/** Logs of (id, item) pairs, and the part of a log that concerns one id. */
module Logs {
  import opened Bytes

  function On<T>(log: seq<(int, T)>, k: int): seq<T>
  {
    if log == [] then [] else (if log[0].0 == k then [log[0].1] else []) + On(log[1..], k)
  }

  lemma {:induction false} OnAppend<T>(a: seq<(int, T)>, b: seq<(int, T)>, k: int)
    ensures On(a + b, k) == On(a, k) + On(b, k)
  {
    if a == [] {
      assert a + b == b;
    } else {
      OnAppend(a[1..], b, k);
      assert (a + b)[1..] == a[1..] + b && (a + b)[0] == a[0];
      Assoc(if a[0].0 == k then [a[0].1] else [], On(a[1..], k), On(b, k));
    }
  }

  lemma OnOne<T>(a: seq<(int, T)>, x: int, y: T, k: int)
    ensures On(a + [(x, y)], k) == if x == k then On(a, k) + [y] else On(a, k)
  {
    OnAppend(a, [(x, y)], k);
    assert [(x, y)][1..] == [];
  }

  lemma {:induction false} OnMembers<T>(log: seq<(int, T)>, k: int)
    ensures forall x :: x in On(log, k) ==> (k, x) in log
  {
    if log != [] {
      OnMembers(log[1..], k);
    }
  }

  function Tag<T>(k: int, xs: seq<T>): seq<(int, T)>
  {
    if xs == [] then [] else [(k, xs[0])] + Tag(k, xs[1..])
  }

  lemma TagOne<T>(k: int, x: T)
    ensures Tag(k, [x]) == [(k, x)]
  {
    assert [x][1..] == [];
  }

  lemma {:induction false} OnTag<T>(j: int, xs: seq<T>, k: int)
    ensures On(Tag(j, xs), k) == if k == j then xs else []
  {
    if xs != [] {
      OnTag(j, xs[1..], k);
      assert Tag(j, xs)[1..] == Tag(j, xs[1..]);
    }
  }

  lemma {:induction false} TagAppend<T>(k: int, a: seq<T>, b: seq<T>)
    ensures Tag(k, a + b) == Tag(k, a) + Tag(k, b)
  {
    if a == [] {
      assert a + b == b;
    } else {
      TagAppend(k, a[1..], b);
      assert (a + b)[1..] == a[1..] + b && (a + b)[0] == a[0];
      Assoc([(k, a[0])], Tag(k, a[1..]), Tag(k, b));
    }
  }
}
