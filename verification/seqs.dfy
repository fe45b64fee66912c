/**
 * The JavaScript array operations the program relies on, over Dafny
 * sequences: `indexOf` and a one-element `splice`.
 */
module Seqs {

  /** No element occurs twice. */
  predicate NoDup<T(==)>(xs: seq<T>) {
    forall i, j :: 0 <= i < j < |xs| ==> xs[i] != xs[j]
  }

  /** `xs.indexOf(x)`: the index of the first occurrence of `x`, or -1. */
  function IndexOfElem<T(==)>(xs: seq<T>, x: T): (r: int)
    ensures -1 <= r < |xs|
    ensures r == -1 <==> x !in xs
    ensures 0 <= r ==> r < |xs| && xs[r] == x && x !in xs[..r]
  {
    if xs == [] then -1
    else if xs[0] == x then 0
    else
      var k := IndexOfElem(xs[1..], x);
      assert k >= 0 ==> xs[1..][..k] == xs[1..k + 1];
      if k < 0 then -1 else k + 1
  }

  /**
   * `xs.splice(start, 1)` applied to a copy: a negative `start` counts back
   * from the end (clamped at 0), a start past the end removes nothing.
   */
  function SpliceOne<T>(xs: seq<T>, start: int): (r: seq<T>)
    ensures 0 <= start < |xs| ==> r == xs[..start] + xs[start + 1..]
    ensures -|xs| <= start < 0 ==> r == xs[..|xs| + start] + xs[|xs| + start + 1..]
    ensures start >= |xs| ==> r == xs
    ensures xs == [] ==> r == []
  {
    var from := if start < 0 then (if |xs| + start < 0 then 0 else |xs| + start)
                else (if start < |xs| then start else |xs|);
    if from < |xs| then xs[..from] + xs[from + 1..] else xs
  }
}
