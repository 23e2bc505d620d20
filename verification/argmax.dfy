/** The two selection rules the classifier uses over a sequence of scores:
    `Max` followed by `First(score == max)`, and
    `OrderByDescending(score).First()`, which (the sort being stable) also picks
    the earliest of the maximal entries. */
module Argmax {

  /** The largest element of a non-empty sequence. */
  function Max(xs: seq<int>): (m: int)
    requires |xs| > 0
    ensures m in xs
    ensures forall i :: 0 <= i < |xs| ==> xs[i] <= m
  {
    if |xs| == 1 then xs[0]
    else
      var rest := Max(xs[1..]);
      assert forall i :: 1 <= i < |xs| ==> xs[i] == xs[1..][i - 1];
      if xs[0] >= rest then xs[0] else rest
  }

  /** Offset of the first element equal to `v`. */
  function FirstIndexOf(xs: seq<int>, v: int): (k: nat)
    requires v in xs
    ensures k < |xs| && xs[k] == v
    ensures forall j :: 0 <= j < k ==> xs[j] != v
  {
    if xs[0] == v then 0 else 1 + FirstIndexOf(xs[1..], v)
  }

  /** Offset of the first maximal element: what a stable descending sort
      followed by taking the head selects. */
  function FirstMaxIndex(xs: seq<int>): (k: nat)
    requires |xs| > 0
    ensures k < |xs|
    ensures forall j :: 0 <= j < |xs| ==> xs[j] <= xs[k]
    ensures forall j :: 0 <= j < k ==> xs[j] < xs[k]
  {
    if |xs| == 1 then 0
    else
      var k := FirstMaxIndex(xs[..|xs| - 1]);
      assert forall j :: 0 <= j < |xs| - 1 ==> xs[j] == xs[..|xs| - 1][j];
      if xs[|xs| - 1] > xs[k] then |xs| - 1 else k
  }

  /** Both selection rules agree: the first maximal element is the first
      element equal to the maximum. */
  lemma FirstMaxIsFirstOfMax(xs: seq<int>)
    requires |xs| > 0
    ensures FirstMaxIndex(xs) == FirstIndexOf(xs, Max(xs))
  {
    var k := FirstMaxIndex(xs);
    var m := Max(xs);
    var f := FirstIndexOf(xs, m);
    assert xs[k] == m by {
      var w :| 0 <= w < |xs| && xs[w] == m;
      assert xs[w] <= xs[k];
    }
  }
}
