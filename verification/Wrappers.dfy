module Wrappers {
  datatype Option<+T> = None | Some(value: T)

  /** The position of the first element satisfying p, or |xs|: what a slot scan returns. */
  function First<T>(xs: seq<T>, p: T -> bool): (i: nat)
    ensures i <= |xs|
    ensures forall j :: 0 <= j < i ==> !p(xs[j])
    ensures i < |xs| ==> p(xs[i])
  {
    if xs == [] then 0
    else if p(xs[0]) then 0
    else
      var k := First(xs[1..], p);
      assert forall j :: 0 < j < 1 + k ==> xs[j] == xs[1..][j - 1];
      1 + k
  }
}
