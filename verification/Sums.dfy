/** Sums of integer sequences, and how they change when one element does. */
module Sums {

  function Sum(s: seq<int>): int {
    if s == [] then 0 else Sum(s[..|s| - 1]) + s[|s| - 1]
  }

  lemma SumAppend(s: seq<int>, x: int)
    ensures Sum(s + [x]) == Sum(s) + x
  {
    assert (s + [x])[..|s|] == s;
  }

  lemma {:induction false} SumUpdate(s: seq<int>, k: nat, x: int)
    requires k < |s|
    ensures Sum(s[k := x]) == Sum(s) - s[k] + x
  {
    var n := |s| - 1;
    if k < n {
      SumUpdate(s[..n], k, x);
      assert s[k := x][..n] == s[..n][k := x];
    } else {
      assert s[k := x][..n] == s[..n];
    }
  }

  lemma {:induction false} SumBounds(s: seq<int>, bound: int)
    requires forall k :: 0 <= k < |s| ==> 0 <= s[k] <= bound
    ensures 0 <= Sum(s) <= bound * |s|
  {
    if s != [] {
      SumBounds(s[..|s| - 1], bound);
      assert bound * |s| == bound * (|s| - 1) + bound;
    }
  }
}
