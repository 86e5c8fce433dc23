/** Undirected graphs over the naturals, given by a set of pairs, and connectivity through walks. */
module Graph {

  type Edges = set<(nat, nat)>

  predicate Adjacent(edges: Edges, a: nat, b: nat) {
    (a, b) in edges || (b, a) in edges
  }

  ghost predicate IsWalk(edges: Edges, walk: seq<nat>, a: nat, b: nat) {
    && |walk| > 0
    && walk[0] == a
    && walk[|walk| - 1] == b
    && forall k :: 0 < k < |walk| ==> Adjacent(edges, walk[k - 1], walk[k])
  }

  ghost predicate Connected(edges: Edges, a: nat, b: nat) {
    exists walk :: IsWalk(edges, walk, a, b)
  }

  /** The vertices below `n` that are connected to `i`. */
  ghost function Component(edges: Edges, n: nat, i: nat): set<nat> {
    set j: nat | j < n && Connected(edges, i, j)
  }

  lemma ConnectedRefl(edges: Edges, a: nat)
    ensures Connected(edges, a, a)
  {
    assert IsWalk(edges, [a], a, a);
  }

  lemma ConnectedEdge(edges: Edges, a: nat, b: nat)
    requires Adjacent(edges, a, b)
    ensures Connected(edges, a, b)
  {
    assert IsWalk(edges, [a, b], a, b);
  }

  lemma ConnectedSym(edges: Edges, a: nat, b: nat)
    requires Connected(edges, a, b)
    ensures Connected(edges, b, a)
  {
    var w :| IsWalk(edges, w, a, b);
    var v := seq(|w|, k requires 0 <= k < |w| => w[|w| - 1 - k]);
    forall k | 0 < k < |v|
      ensures Adjacent(edges, v[k - 1], v[k])
    {
      assert v[k - 1] == w[|w| - k] && v[k] == w[|w| - k - 1];
      assert Adjacent(edges, w[|w| - k - 1], w[|w| - k]);
    }
    assert IsWalk(edges, v, b, a);
  }

  lemma ConnectedTrans(edges: Edges, a: nat, b: nat, c: nat)
    requires Connected(edges, a, b) && Connected(edges, b, c)
    ensures Connected(edges, a, c)
  {
    var v :| IsWalk(edges, v, a, b);
    var w :| IsWalk(edges, w, b, c);
    var u := v + w[1..];
    forall k | 0 < k < |u|
      ensures Adjacent(edges, u[k - 1], u[k])
    {
      if k < |v| {
        assert u[k - 1] == v[k - 1] && u[k] == v[k];
      } else {
        assert u[k] == w[k - |v| + 1] && u[k - 1] == w[k - |v|];
      }
    }
    assert IsWalk(edges, u, a, c);
  }

  lemma ConnectedMonotone(edges: Edges, more: Edges, a: nat, b: nat)
    requires edges <= more
    requires Connected(edges, a, b)
    ensures Connected(more, a, b)
  {
    var w :| IsWalk(edges, w, a, b);
    assert IsWalk(more, w, a, b);
  }

  /** A marking that is constant along every edge is constant on every component. */
  lemma {:induction false} LabelAlongWalk(edges: Edges, mark: seq<nat>, walk: seq<nat>, a: nat, b: nat)
    requires forall e :: e in edges ==> e.0 < |mark| && e.1 < |mark| && mark[e.0] == mark[e.1]
    requires a < |mark| && b < |mark|
    requires IsWalk(edges, walk, a, b)
    ensures mark[a] == mark[b]
    decreases |walk|
  {
    if |walk| > 1 {
      assert Adjacent(edges, walk[0], walk[1]);
      assert IsWalk(edges, walk[1..], walk[1], b) by {
        forall k | 0 < k < |walk[1..]|
          ensures Adjacent(edges, walk[1..][k - 1], walk[1..][k])
        {
          assert Adjacent(edges, walk[k], walk[k + 1]);
        }
      }
      LabelAlongWalk(edges, mark, walk[1..], walk[1], b);
    }
  }

  /** Edges whose endpoints are connected in a second graph connect nothing that the second graph does not. */
  lemma {:induction false} WalkRefines(fine: Edges, coarse: Edges, walk: seq<nat>, a: nat, b: nat)
    requires forall e :: e in fine ==> Connected(coarse, e.0, e.1)
    requires IsWalk(fine, walk, a, b)
    ensures Connected(coarse, a, b)
    decreases |walk|
  {
    if |walk| == 1 {
      ConnectedRefl(coarse, a);
    } else {
      var m := |walk| - 1;
      assert IsWalk(fine, walk[..m], a, walk[m - 1]);
      WalkRefines(fine, coarse, walk[..m], a, walk[m - 1]);
      assert Adjacent(fine, walk[m - 1], walk[m]);
      if (walk[m - 1], b) in fine {
        assert Connected(coarse, (walk[m - 1], b).0, (walk[m - 1], b).1);
      } else {
        assert (b, walk[m - 1]) in fine;
        assert Connected(coarse, (b, walk[m - 1]).0, (b, walk[m - 1]).1);
        ConnectedSym(coarse, b, walk[m - 1]);
      }
      ConnectedTrans(coarse, a, walk[m - 1], b);
    }
  }

  lemma ConnectedRefines(fine: Edges, coarse: Edges, a: nat, b: nat)
    requires forall e :: e in fine ==> Connected(coarse, e.0, e.1)
    requires Connected(fine, a, b)
    ensures Connected(coarse, a, b)
  {
    var w :| IsWalk(fine, w, a, b);
    WalkRefines(fine, coarse, w, a, b);
  }

  lemma ComponentsAgree(edges: Edges, n: nat, i: nat, j: nat)
    requires Connected(edges, i, j)
    ensures Component(edges, n, i) == Component(edges, n, j)
  {
    ConnectedSym(edges, i, j);
    forall x: nat | x < n
      ensures Connected(edges, i, x) <==> Connected(edges, j, x)
    {
      if Connected(edges, i, x) { ConnectedTrans(edges, j, i, x); }
      if Connected(edges, j, x) { ConnectedTrans(edges, i, j, x); }
    }
  }

  /** Every walk can be cut down to one that visits no vertex twice. */
  lemma {:induction false} SimpleWalk(edges: Edges, walk: seq<nat>, a: nat, b: nat) returns (simple: seq<nat>)
    requires IsWalk(edges, walk, a, b)
    ensures IsWalk(edges, simple, a, b)
    ensures forall i, j :: 0 <= i < j < |simple| ==> simple[i] != simple[j]
    decreases |walk|
  {
    if exists i, j :: 0 <= i < j < |walk| && walk[i] == walk[j] {
      var i, j :| 0 <= i < j < |walk| && walk[i] == walk[j];
      var cut := walk[..i] + walk[j..];
      forall k | 0 < k < |cut|
        ensures Adjacent(edges, cut[k - 1], cut[k])
      {
        if k < i {
          assert cut[k - 1] == walk[k - 1] && cut[k] == walk[k];
        } else if k == i {
          assert cut[k - 1] == walk[i - 1] && cut[k] == walk[i];
        } else {
          assert cut[k - 1] == walk[k - 1 + j - i] && cut[k] == walk[k + j - i];
        }
      }
      assert IsWalk(edges, cut, a, b);
      simple := SimpleWalk(edges, cut, a, b);
    } else {
      simple := walk;
    }
  }

  /** Everything on a walk from `a` is connected to `a`. */
  lemma WalkStaysInside(edges: Edges, walk: seq<nat>, a: nat, b: nat)
    requires IsWalk(edges, walk, a, b)
    ensures forall k :: 0 <= k < |walk| ==> Connected(edges, a, walk[k])
  {
    forall k | 0 <= k < |walk|
      ensures Connected(edges, a, walk[k])
    {
      assert IsWalk(edges, walk[..k + 1], a, walk[k]);
    }
  }

  /** A vertex remarking that carries edges to edges carries connected vertices to connected vertices. */
  lemma ConnectedMapped(edges: Edges, image: Edges, n: nat, sigma: seq<nat>, a: nat, b: nat)
    requires |sigma| == n && a < n && b < n
    requires forall e :: e in edges ==> e.0 < n && e.1 < n && Adjacent(image, sigma[e.0], sigma[e.1])
    requires Connected(edges, a, b)
    ensures Connected(image, sigma[a], sigma[b])
  {
    var w :| IsWalk(edges, w, a, b);
    forall k | 0 <= k < |w|
      ensures w[k] < n
    {
      if k > 0 {
        assert Adjacent(edges, w[k - 1], w[k]);
      }
    }
    var v := seq(|w|, k requires 0 <= k < |w| => sigma[w[k]]);
    forall k | 0 < k < |v|
      ensures Adjacent(image, v[k - 1], v[k])
    {
      assert Adjacent(edges, w[k - 1], w[k]);
      assert Adjacent(image, sigma[w[k - 1]], sigma[w[k]]);
    }
    assert IsWalk(image, v, sigma[a], sigma[b]);
  }
}
