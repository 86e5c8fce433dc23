/** Instants that keep a minimum distance, and how many of them fit into a span. */
module Spacing {

  /** Later instants come at least `gap` after earlier ones. */
  predicate Spaced(times: seq<int>, gap: int) {
    forall i, j :: 0 <= i < j < |times| ==> times[j] - times[i] >= gap
  }

  /** The instants from `start` to `start + span`, both included. */
  function Within(times: seq<int>, start: int, span: int): seq<int> {
    if times == [] then []
    else
      var t := times[|times| - 1];
      Within(times[..|times| - 1], start, span) + if start <= t <= start + span then [t] else []
  }

  lemma {:induction false} WithinMembers(times: seq<int>, start: int, span: int)
    ensures forall t :: t in Within(times, start, span) ==> t in times && start <= t <= start + span
  {
    if times != [] {
      WithinMembers(times[..|times| - 1], start, span);
    }
  }

  lemma {:induction false} WithinSpaced(times: seq<int>, gap: int, start: int, span: int)
    requires Spaced(times, gap)
    ensures Spaced(Within(times, start, span), gap)
  {
    if times != [] {
      var n := |times| - 1;
      var inner := Within(times[..n], start, span);
      WithinSpaced(times[..n], gap, start, span);
      WithinMembers(times[..n], start, span);
      forall i | 0 <= i < |inner|
        ensures times[n] - inner[i] >= gap
      {
        assert inner[i] in inner && inner[i] in times[..n];
      }
    }
  }

  lemma {:induction false} SpacedLength(times: seq<int>, gap: int)
    requires Spaced(times, gap) && times != []
    ensures times[|times| - 1] - times[0] >= gap * (|times| - 1)
  {
    if |times| > 1 {
      var n := |times| - 1;
      SpacedLength(times[..n], gap);
      assert times[n] - times[n - 1] >= gap;
      assert gap * n == gap * (n - 1) + gap;
    }
  }

  /** A span of length T holds at most T / gap + 1 of them. */
  lemma SpacedCount(times: seq<int>, gap: int, start: int, span: int)
    requires Spaced(times, gap) && gap > 0 && span >= 0
    ensures |Within(times, start, span)| <= span / gap + 1
  {
    var inner := Within(times, start, span);
    WithinSpaced(times, gap, start, span);
    WithinMembers(times, start, span);
    if inner != [] {
      SpacedLength(inner, gap);
      assert inner[0] in inner && inner[|inner| - 1] in inner;
      DivideBound(gap, |inner| - 1, span);
    }
  }

  lemma MulMonotone(gap: int, j: int, k: int)
    requires gap > 0 && j <= k
    ensures gap * j <= gap * k
  {
    assert gap * k - gap * j == gap * (k - j);
  }

  lemma DivideBound(gap: int, k: int, span: int)
    requires gap > 0 && gap * k <= span
    ensures k <= span / gap
  {
    var q := span / gap;
    assert span < gap * q + gap == gap * (q + 1);
    if k > q {
      MulMonotone(gap, q + 1, k);
    }
  }
}
