/** The disjoint-set forest of internal/synthcluster/unionfind.go. */
module UnionFinds {
  import opened Graph

  function Pow2(k: nat): (p: nat)
    ensures p > k
  {
    if k == 0 then 1 else 2 * Pow2(k - 1)
  }

  lemma {:induction false} Pow2Monotone(j: nat, k: nat)
    requires j <= k
    ensures Pow2(j) <= Pow2(k)
    decreases k - j
  {
    if j < k {
      Pow2Monotone(j + 1, k);
    }
  }

  /** The elements whose set has root `r`. */
  function Class(rep: seq<nat>, r: nat): set<nat> {
    set i: nat | i < |rep| && rep[i] == r
  }

  /** The elements below `n` whose set has root `r`, in ascending order. */
  function ClassList(rep: seq<nat>, r: nat, n: nat): (list: seq<nat>)
    requires n <= |rep|
    ensures forall i :: i in list <==> 0 <= i < n && rep[i] == r
    ensures forall j, k :: 0 <= j < k < |list| ==> list[j] < list[k]
  {
    if n == 0 then [] else
      var list := ClassList(rep, r, n - 1);
      assert forall k :: 0 <= k < |list| ==> list[k] in list;
      if rep[n - 1] == r then list + [n - 1] else list
  }

  /** `rep` maps every element to its root: roots are the fixed points of `parent`, and following a parent link
      keeps the root and strictly raises the rank. */
  ghost predicate IsForest(parent: seq<nat>, rank: seq<nat>, rep: seq<nat>) {
    && |parent| == |rank| == |rep|
    && (forall i {:trigger parent[i]} :: 0 <= i < |rep| ==>
          && parent[i] < |rep|
          && rep[parent[i]] == rep[i]
          && (if parent[i] == i then rep[i] == i else rank[i] < rank[parent[i]]))
    && (forall i {:trigger rep[i]} :: 0 <= i < |rep| ==>
          && rep[i] < |rep|
          && parent[rep[i]] == rep[i]
          && rep[rep[i]] == rep[i]
          && rank[i] <= rank[rep[i]])
  }

  /** A set whose root has rank k holds at least 2^k elements. */
  ghost predicate IsWeighted(rank: seq<nat>, rep: seq<nat>) {
    && |rank| == |rep|
    && (forall r: nat {:trigger Class(rep, r)} :: r < |rep| && rep[r] == r ==> Pow2(rank[r]) <= |Class(rep, r)|)
  }

  /** Two elements have one root exactly when the requested links connect them. */
  ghost predicate IsPartition(rep: seq<nat>, links: Edges) {
    && (forall e :: e in links ==> e.0 < |rep| && e.1 < |rep|)
    && (forall a: nat, b: nat {:trigger Connected(links, a, b)} ::
          a < |rep| && b < |rep| ==> (rep[a] == rep[b] <==> Connected(links, a, b)))
  }

  lemma {:induction false} CardinalityBelow(s: set<nat>, n: nat)
    requires forall i :: i in s ==> i < n
    ensures |s| <= n
    decreases n
  {
    if n > 0 {
      CardinalityBelow(s - {n - 1}, n - 1);
    }
  }

  /** The roots after the sets of roots `rx` and `ry` are joined under `winner`. */
  function Joined(rep: seq<nat>, rx: nat, ry: nat, winner: nat): (joined: seq<nat>)
    ensures |joined| == |rep|
    ensures forall i :: 0 <= i < |rep| ==> joined[i] == if rep[i] == rx || rep[i] == ry then winner else rep[i]
  {
    seq(|rep|, i requires 0 <= i < |rep| => if rep[i] == rx || rep[i] == ry then winner else rep[i])
  }

  /** Path halving changes no root and no rank. */
  lemma HalvingKeepsForest(parent: seq<nat>, rank: seq<nat>, rep: seq<nat>, x: nat)
    requires IsForest(parent, rank, rep)
    requires x < |rep| && parent[x] != x
    ensures parent[x] < |parent|
    ensures IsForest(parent[x := parent[parent[x]]], rank, rep)
    ensures rank[x] < rank[parent[parent[x]]]
  {
    var up := parent[x];
    assert parent[up] < |rep| && rep[parent[up]] == rep[x];
    var parent' := parent[x := parent[up]];
    assert rep[x] != x;
    forall i: nat | i < |rep|
      ensures parent'[i] < |rep| && rep[parent'[i]] == rep[i]
      ensures if parent'[i] == i then rep[i] == i else rank[i] < rank[parent'[i]]
    {
      assert parent[i] < |rep|;
    }
  }

  /** The two ways a union hangs root `loser` below root `winner`. */
  predicate IsRankedJoin(rank: seq<nat>, loser: nat, winner: nat, rank': seq<nat>) {
    && loser < |rank| && winner < |rank| && loser != winner
    && (|| (rank[loser] < rank[winner] && rank' == rank)
        || (rank[loser] == rank[winner] && rank' == rank[winner := rank[winner] + 1]))
  }

  /** Hanging root `loser` below root `winner` keeps the forest, whichever of the three rank cases applies. */
  lemma JoinKeepsForest(parent: seq<nat>, rank: seq<nat>, rep: seq<nat>, loser: nat, winner: nat, rank': seq<nat>)
    requires IsForest(parent, rank, rep) && IsRankedJoin(rank, loser, winner, rank')
    requires rep[loser] == loser && rep[winner] == winner
    ensures IsForest(parent[loser := winner], rank', Joined(rep, loser, winner, winner))
  {
    var parent', rep' := parent[loser := winner], Joined(rep, loser, winner, winner);
    forall i: nat | i < |rep|
      ensures parent'[i] < |rep| && rep'[parent'[i]] == rep'[i]
      ensures if parent'[i] == i then rep'[i] == i else rank'[i] < rank'[parent'[i]]
    {
      assert parent[i] < |rep|;
    }
  }

  lemma JoinKeepsWeight(rank: seq<nat>, rep: seq<nat>, loser: nat, winner: nat, rank': seq<nat>)
    requires IsWeighted(rank, rep) && IsRankedJoin(rank, loser, winner, rank')
    requires rep[loser] == loser && rep[winner] == winner
    ensures IsWeighted(rank', Joined(rep, loser, winner, winner))
  {
    var rep' := Joined(rep, loser, winner, winner);
    assert Class(rep', winner) == Class(rep, winner) + Class(rep, loser);
    assert Class(rep, winner) !! Class(rep, loser);
    forall r: nat | r < |rep| && rep'[r] == r && r != winner
      ensures Pow2(rank'[r]) <= |Class(rep', r)|
    {
      assert Class(rep', r) == Class(rep, r);
    }
  }

  lemma JoinKeepsPartition(rep: seq<nat>, links: Edges, x: nat, y: nat, winner: nat)
    requires IsPartition(rep, links)
    requires x < |rep| && y < |rep|
    requires winner == rep[x] || winner == rep[y]
    ensures IsPartition(Joined(rep, rep[x], rep[y], winner), links + {(x, y)})
  {
    var rep', links' := Joined(rep, rep[x], rep[y], winner), links + {(x, y)};
    forall e | e in links'
      ensures e.0 < |rep'| && e.1 < |rep'| && rep'[e.0] == rep'[e.1]
    {
      if e in links {
        ConnectedEdge(links, e.0, e.1);
      }
    }
    ConnectedEdge(links', x, y);
    ConnectedSym(links', x, y);
    forall a: nat, b: nat | a < |rep| && b < |rep|
      ensures rep'[a] == rep'[b] <==> Connected(links', a, b)
    {
      if Connected(links', a, b) {
        var w :| IsWalk(links', w, a, b);
        LabelAlongWalk(links', rep', w, a, b);
      }
      if rep'[a] == rep'[b] {
        if rep[a] == rep[b] {
          ConnectedMonotone(links, links', a, b);
        } else if rep[a] == rep[x] {
          JoinConnects(links, links', a, x, y, b);
        } else {
          JoinConnects(links, links', a, y, x, b);
        }
      }
    }
  }

  lemma JoinConnects(links: Edges, links': Edges, a: nat, x: nat, y: nat, b: nat)
    requires links <= links'
    requires Connected(links, a, x) && Connected(links', x, y) && Connected(links, y, b)
    ensures Connected(links', a, b)
  {
    ConnectedMonotone(links, links', a, x);
    ConnectedMonotone(links, links', y, b);
    ConnectedTrans(links', a, x, y);
    ConnectedTrans(links', a, y, b);
  }

  class UnionFind {
    var parent: array<nat>
    var rank: array<nat>
    ghost var rep: seq<nat>    // the root of every element
    ghost var links: Edges     // every pair ever passed to Union

    ghost predicate Valid()
      reads this, parent, rank
    {
      && parent != rank && parent.Length == rank.Length == |rep|
      && IsForest(parent[..], rank[..], rep)
      && IsWeighted(rank[..], rep)
      && IsPartition(rep, links)
    }

    constructor (n: nat)
      ensures Valid()
      ensures fresh(parent) && fresh(rank)
      ensures |rep| == n && links == {}
    {
      parent := new nat[n](i => i);
      rank := new nat[n](_ => 0);
      rep := seq(n, i requires 0 <= i < n => i);
      links := {};
      new;
      forall r: nat | r < n
        ensures Pow2(rank[r]) <= |Class(rep, r)|
      {
        assert Class(rep, r) == {r};
      }
      forall a: nat, b: nat | a < n && b < n
        ensures rep[a] == rep[b] <==> Connected(links, a, b)
      {
        if a == b {
          ConnectedRefl(links, a);
        } else if Connected(links, a, b) {
          var w :| IsWalk(links, w, a, b);
          LabelAlongWalk(links, rep, w, a, b);
        }
      }
    }

    /** Path halving moves parent links but no root, and climbs at most log2(n) times. */
    method Find(x: nat) returns (root: nat, ghost steps: nat)
      requires Valid() && x < |rep|
      modifies parent
      ensures Valid() && rep == old(rep)
      ensures root == rep[x]
      ensures steps <= rank[root] && Pow2(steps) <= |rep|
    {
      root := x;
      steps := 0;
      while parent[root] != root
        invariant Valid()
        invariant root < |rep| && rep[root] == rep[x]
        invariant steps <= rank[root]
        decreases rank[rep[x]] - rank[root]
      {
        ghost var before := parent[..];
        HalvingKeepsForest(before, rank[..], rep, root);
        parent[root] := parent[parent[root]];
        assert parent[..] == before[root := before[before[root]]];
        root := parent[root];
        steps := steps + 1;
      }
      Pow2Monotone(steps, rank[root]);
      CardinalityBelow(Class(rep, root), |rep|);
    }

    /** Joins the sets of `x` and `y`; answers whether they were two sets before. */
    method Union(x: nat, y: nat) returns (merged: bool)
      requires Valid() && x < |rep| && y < |rep|
      modifies this`rep, this`links, parent, rank
      ensures Valid() && |rep| == |old(rep)|
      ensures links == old(links) + {(x, y)}
      ensures merged <==> !Connected(old(links), x, y)
    {
      var rx, _ := Find(x);
      var ry, _ := Find(y);
      ghost var p, r := parent[..], rank[..];
      if rx == ry {
        JoinKeepsPartition(rep, links, x, y, rx);
        assert Joined(rep, rx, ry, rx) == rep;
        links := links + {(x, y)};
        return false;
      }
      var winner;
      if rank[rx] < rank[ry] {
        winner := ry;
        JoinKeepsForest(p, r, rep, rx, ry, r);
        JoinKeepsWeight(r, rep, rx, ry, r);
        parent[rx] := ry;
        assert parent[..] == p[rx := ry];
      } else if rank[rx] > rank[ry] {
        winner := rx;
        JoinKeepsForest(p, r, rep, ry, rx, r);
        JoinKeepsWeight(r, rep, ry, rx, r);
        parent[ry] := rx;
        assert parent[..] == p[ry := rx];
      } else {
        winner := rx;
        JoinKeepsForest(p, r, rep, ry, rx, r[rx := r[rx] + 1]);
        JoinKeepsWeight(r, rep, ry, rx, r[rx := r[rx] + 1]);
        parent[ry] := rx;
        rank[rx] := rank[rx] + 1;
        assert parent[..] == p[ry := rx];
        assert rank[..] == r[rx := r[rx] + 1];
      }
      JoinKeepsPartition(rep, links, x, y, winner);
      assert Joined(rep, ry, rx, winner) == Joined(rep, rx, ry, winner);
      rep := Joined(rep, rx, ry, winner);
      links := links + {(x, y)};
      return true;
    }

    method AreConnected(x: nat, y: nat) returns (same: bool)
      requires Valid() && x < |rep| && y < |rep|
      modifies parent
      ensures Valid() && rep == old(rep)
      ensures same <==> Connected(links, x, y)
    {
      var rx, _ := Find(x);
      var ry, _ := Find(y);
      same := rx == ry;
    }

    /** One entry per root, holding the elements of its set in ascending order. */
    method Groups() returns (groups: map<nat, seq<nat>>)
      requires Valid()
      modifies parent
      ensures Valid() && rep == old(rep)
      ensures forall r :: ClassList(rep, r, |rep|) != [] <==> r in groups
      ensures forall r :: r in groups ==> groups[r] == ClassList(rep, r, |rep|)
    {
      hide IsForest, IsWeighted, IsPartition;
      groups := map[];
      var n := parent.Length;
      for i := 0 to n
        invariant Valid() && rep == old(rep)
        invariant forall r {:trigger ClassList(rep, r, i)} ::
            ClassList(rep, r, i) == if r in groups then groups[r] else []
        invariant forall r :: r in groups ==> groups[r] != []
      {
        var root, _ := Find(i);
        var list := if root in groups then groups[root] else [];
        groups := groups[root := list + [i]];
      }
    }

    /** Takes over the sets of `other`, as assigning through the receiver does in the source. */
    method ReplaceBy(other: UnionFind)
      requires other.Valid()
      modifies this
      ensures Valid()
      ensures parent == other.parent && rank == other.rank && rep == other.rep && links == other.links
    {
      parent, rank, rep, links := other.parent, other.rank, other.rep, other.links;
    }
  }
}
