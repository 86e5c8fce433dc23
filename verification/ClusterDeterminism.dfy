/** The clustering result depends on the documents only, not on their order, and is a fixed point. */
module ClusterDeterminism {
  import opened Prelude
  import opened Graph
  import opened Sorting
  import opened Clustering
  import opened ClusterProperties
  import opened ClusterLinks

  /** `to` renumbers the documents of `docs` as those of `docs'`, and `back` undoes it. */
  ghost predicate IsRenumbering(docs: seq<Doc>, docs': seq<Doc>, to: seq<nat>, back: seq<nat>) {
    && |to| == |back| == |docs| == |docs'|
    && (forall i {:trigger to[i]} :: 0 <= i < |docs| ==> to[i] < |docs| && docs'[to[i]] == docs[i] && back[to[i]] == i)
    && (forall i {:trigger back[i]} :: 0 <= i < |docs| ==> back[i] < |docs| && docs[back[i]] == docs'[i] && to[back[i]] == i)
  }

  /** The renumbering carries links to links, in both directions. */
  ghost predicate CarriesLinks(n: nat, links: Edges, links': Edges, to: seq<nat>) {
    && |to| == n
    && (forall i: nat, j: nat {:trigger Adjacent(links, i, j)} :: Adjacent(links, i, j) ==>
          i < n && j < n && Adjacent(links', to[i], to[j]))
  }

  function IndexOf(docs: seq<Doc>, d: Doc): (i: nat)
    requires d in docs
    ensures i < |docs| && docs[i] == d
  {
    if docs[|docs| - 1] == d then |docs| - 1 else IndexOf(docs[..|docs| - 1], d)
  }

  lemma Renumber(docs: seq<Doc>, docs': seq<Doc>) returns (to: seq<nat>, back: seq<nat>)
    requires multiset(docs) == multiset(docs') && DistinctIds(docs) && DistinctIds(docs')
    ensures IsRenumbering(docs, docs', to, back)
  {
    assert |multiset(docs)| == |docs| && |multiset(docs')| == |docs'|;
    SameElements(docs, docs');
    to := seq(|docs|, i requires 0 <= i < |docs| => IndexOf(docs', docs[i]));
    back := seq(|docs|, i requires 0 <= i < |docs| => IndexOf(docs, docs'[i]));
    forall i | 0 <= i < |docs|
      ensures back[to[i]] == i && to[back[i]] == i
    {
      assert docs[back[to[i]]] == docs[i];
      assert docs'[to[back[i]]] == docs'[i];
    }
  }

  lemma SameElements(docs: seq<Doc>, docs': seq<Doc>)
    requires multiset(docs) == multiset(docs')
    ensures forall i :: 0 <= i < |docs| ==> docs[i] in docs'
    ensures forall i :: 0 <= i < |docs'| ==> docs'[i] in docs
  {
    forall i | 0 <= i < |docs|
      ensures docs[i] in docs'
    {
      assert docs[i] in multiset(docs');
    }
    forall i | 0 <= i < |docs'|
      ensures docs'[i] in docs
    {
      assert docs'[i] in multiset(docs);
    }
  }

  lemma DistinctIdsOfPermutation(docs: seq<Doc>, docs': seq<Doc>)
    requires multiset(docs) == multiset(docs') && DistinctIds(docs)
    ensures DistinctIds(docs')
  {
    forall i, j | 0 <= i < j < |docs'|
      ensures docs'[i].id != docs'[j].id
    {
      var d, e := docs'[i], docs'[j];
      SameElements(docs, docs');
      assert d in docs && e in docs;
      if d == e {
        MultiplicityTwo(docs', i, j);
        MultiplicityOne(docs, d);
      }
    }
  }

  lemma MultiplicityTwo(docs: seq<Doc>, i: nat, j: nat)
    requires i < j < |docs| && docs[i] == docs[j]
    ensures multiset(docs)[docs[i]] >= 2
  {
    assert docs == docs[..i] + [docs[i]] + docs[i + 1..j] + [docs[j]] + docs[j + 1..];
  }

  lemma MultiplicityOne(docs: seq<Doc>, d: Doc)
    requires DistinctIds(docs)
    ensures multiset(docs)[d] <= 1
  {
    if d in docs {
      var i := IndexOf(docs, d);
      assert docs == docs[..i] + [d] + docs[i + 1..];
      assert d !in docs[..i] && d !in docs[i + 1..];
      assert d !in multiset(docs[..i]) && d !in multiset(docs[i + 1..]);
    } else {
      assert d !in multiset(docs);
    }
  }

  ghost function Image(to: seq<nat>, s: set<nat>): set<nat> {
    set i | i in s && i < |to| :: to[i]
  }

  lemma LinkEndpoints(n: nat, links: Edges, links': Edges, to: seq<nat>)
    requires CarriesLinks(n, links, links', to)
    ensures forall e :: e in links ==> e.0 < n && e.1 < n && Adjacent(links', to[e.0], to[e.1])
  {
    forall e | e in links
      ensures e.0 < n && e.1 < n && Adjacent(links', to[e.0], to[e.1])
    {
      assert Adjacent(links, e.0, e.1);
    }
  }

  lemma ComponentImage(
    docs: seq<Doc>, docs': seq<Doc>, to: seq<nat>, back: seq<nat>, links: Edges, links': Edges, i: nat)
    requires IsRenumbering(docs, docs', to, back) && i < |docs|
    requires CarriesLinks(|docs|, links, links', to) && CarriesLinks(|docs|, links', links, back)
    ensures Component(links', |docs|, to[i]) == Image(to, Component(links, |docs|, i))
  {
    var n := |docs|;
    LinkEndpoints(n, links, links', to);
    LinkEndpoints(n, links', links, back);
    forall j: nat | j < n
      ensures Connected(links', to[i], j) <==> j in Image(to, Component(links, n, i))
    {
      if Connected(links', to[i], j) {
        ConnectedMapped(links', links, n, back, to[i], j);
        assert to[back[j]] == j;
      }
      if j in Image(to, Component(links, n, i)) {
        var k :| k in Component(links, n, i) && k < |to| && to[k] == j;
        ConnectedMapped(links, links', n, to, i, k);
      }
    }
  }

  lemma {:induction false} ImageSize(docs: seq<Doc>, docs': seq<Doc>, to: seq<nat>, back: seq<nat>, s: set<nat>)
    requires IsRenumbering(docs, docs', to, back) && forall i :: i in s ==> i < |docs|
    ensures |Image(to, s)| == |s|
    decreases |s|
  {
    if s == {} {
      assert Image(to, s) == {};
    } else {
      var i :| i in s;
      ImageSize(docs, docs', to, back, s - {i});
      assert Image(to, s) == Image(to, s - {i}) + {to[i]};
      forall k | k in s - {i}
        ensures to[k] != to[i]
      {
        assert back[to[k]] == k && back[to[i]] == i;
      }
    }
  }

  lemma {:induction false} IdsOfMultiplicity(docs: seq<Doc>, s: set<nat>, n: nat, id: string)
    requires n <= |docs| && DistinctIds(docs)
    ensures IdsOf(docs, s, n)[id] == if exists i :: i in s && i < n && docs[i].id == id then 1 else 0
  {
    if n > 0 {
      IdsOfMultiplicity(docs, s, n - 1, id);
    }
  }

  lemma IdsOfImage(docs: seq<Doc>, docs': seq<Doc>, to: seq<nat>, back: seq<nat>, s: set<nat>)
    requires IsRenumbering(docs, docs', to, back) && DistinctIds(docs) && DistinctIds(docs')
    requires forall i :: i in s ==> i < |docs|
    ensures IdsOf(docs', Image(to, s), |docs|) == IdsOf(docs, s, |docs|)
  {
    forall id: string
      ensures IdsOf(docs', Image(to, s), |docs|)[id] == IdsOf(docs, s, |docs|)[id]
    {
      IdsOfMultiplicity(docs, s, |docs|, id);
      IdsOfMultiplicity(docs', Image(to, s), |docs|, id);
      if i :| i in s && i < |docs| && docs[i].id == id {
        assert to[i] in Image(to, s) && docs'[to[i]].id == id;
      }
      if j :| j in Image(to, s) && j < |docs| && docs'[j].id == id {
        var i :| i in s && i < |to| && to[i] == j;
        assert docs[i].id == id;
      }
    }
  }

  /** With distinct ids the best document beats every other one outright. */
  lemma StrictBest(docs: seq<Doc>, s: set<nat>, b: nat, c: nat)
    requires DistinctIds(docs) && IsBest(docs, s, b) && c in s && c != b
    ensures BetterRep(docs[b], docs[c])
  {
    LessTotal(docs[b].id, docs[c].id);
    assert docs[b].id != docs[c].id;
  }

  /** With distinct ids the best document of a cluster is the same document in either numbering. */
  lemma BestImage(docs: seq<Doc>, docs': seq<Doc>, to: seq<nat>, back: seq<nat>, s: set<nat>, b: nat, b': nat)
    requires IsRenumbering(docs, docs', to, back) && DistinctIds(docs) && DistinctIds(docs')
    requires IsBest(docs, s, b) && IsBest(docs', Image(to, s), b')
    ensures b' == to[b]
  {
    var c :| c in s && c < |to| && to[c] == b';
    var tb := to[b];
    assert back[tb] == b && back[to[c]] == c && tb in Image(to, s);
    if c != b {
      BetterRepIsWeakOrder();
      StrictBest(docs, s, b, c);
      StrictBest(docs', Image(to, s), b', tb);
    }
  }

  lemma SameRepresentative(
    docs: seq<Doc>, docs': seq<Doc>, to: seq<nat>, back: seq<nat>, hash: Hash, tag: string,
    s: set<nat>, b: nat, d: Doc, b': nat, d': Doc)
    requires IsRenumbering(docs, docs', to, back) && DistinctIds(docs) && DistinctIds(docs')
    requires Represents(docs, hash, tag, s, b, d) && Represents(docs', hash, tag, Image(to, s), b', d')
    ensures d == d'
  {
    BestImage(docs, docs', to, back, s, b, b');
    ImageSize(docs, docs', to, back, s);
    if |s| != 1 {
      assert Image(to, s) - {b'} == Image(to, s - {b}) by {
        forall i | i in s && i != b
          ensures to[i] != b'
        {
          assert back[to[i]] == i && back[to[b]] == b;
        }
      }
      IdsOfImage(docs, docs', to, back, s - {b});
      LessIsWeakOrder();
      SortedUnique(Less, Members(d), Members(d'));
    }
  }

  lemma RepresentativesAscend(docs: seq<Doc>, links: Edges, hash: Hash, tag: string, winners: seq<nat>, reps: seq<Doc>)
    requires Clustered(docs, links, hash, tag, winners, reps) && DistinctIds(docs)
    ensures Ascending(ById, reps)
  {
    forall j, k | 0 <= j < k < |reps|
      ensures ById(reps[j], reps[k])
    {
      ConnectedRefl(links, winners[j]);
      assert winners[j] != winners[k];
      assert reps[j].id == docs[winners[j]].id && reps[k].id == docs[winners[k]].id;
      LessTotal(reps[j].id, reps[k].id);
      assert !ById(reps[k], reps[j]);
    }
  }

  /** Each representative of one run is a representative of the other. */
  lemma RepresentativesCarried(
    docs: seq<Doc>, docs': seq<Doc>, to: seq<nat>, back: seq<nat>, links: Edges, links': Edges, hash: Hash, tag: string,
    winners: seq<nat>, reps: seq<Doc>, winners': seq<nat>, reps': seq<Doc>, k: nat)
    requires IsRenumbering(docs, docs', to, back) && DistinctIds(docs) && DistinctIds(docs')
    requires CarriesLinks(|docs|, links, links', to) && CarriesLinks(|docs|, links', links, back)
    requires Clustered(docs, links, hash, tag, winners, reps) && Clustered(docs', links', hash, tag, winners', reps')
    requires k < |reps|
    ensures reps[k] in reps'
  {
    hide IsBest;
    var i := winners[k];
    assert to[i] < |docs'|;
    assert IsCovered(links', winners', to[i]);
    var k' :| 0 <= k' < |winners'| && Connected(links', to[i], winners'[k']);
    ComponentImage(docs, docs', to, back, links, links', i);
    ComponentsAgree(links', |docs|, to[i], winners'[k']);
    SameRepresentative(docs, docs', to, back, hash, tag, Component(links, |docs|, i), i, reps[k], winners'[k'], reps'[k']);
  }

  lemma RenumberingBack(docs: seq<Doc>, docs': seq<Doc>, to: seq<nat>, back: seq<nat>)
    requires IsRenumbering(docs, docs', to, back)
    ensures IsRenumbering(docs', docs, back, to)
  {
  }

  /** Two runs over the same documents in any two orders, with links that correspond, give the same list. */
  lemma SameResult(
    docs: seq<Doc>, docs': seq<Doc>, to: seq<nat>, back: seq<nat>, links: Edges, links': Edges, hash: Hash, tag: string,
    winners: seq<nat>, reps: seq<Doc>, winners': seq<nat>, reps': seq<Doc>)
    requires IsRenumbering(docs, docs', to, back) && DistinctIds(docs) && DistinctIds(docs')
    requires CarriesLinks(|docs|, links, links', to) && CarriesLinks(|docs|, links', links, back)
    requires Clustered(docs, links, hash, tag, winners, reps) && Clustered(docs', links', hash, tag, winners', reps')
    ensures reps == reps'
  {
    RenumberingBack(docs, docs', to, back);
    forall d
      ensures d in reps <==> d in reps'
    {
      if d in reps {
        var k :| 0 <= k < |reps| && reps[k] == d;
        RepresentativesCarried(docs, docs', to, back, links, links', hash, tag, winners, reps, winners', reps', k);
      }
      if d in reps' {
        var k :| 0 <= k < |reps'| && reps'[k] == d;
        RepresentativesCarried(docs', docs, back, to, links', links, hash, tag, winners', reps', winners, reps, k);
      }
    }
    RepresentativesAscend(docs, links, hash, tag, winners, reps);
    RepresentativesAscend(docs', links', hash, tag, winners', reps');
    ByIdIsWeakOrder();
    StrictUnique(ById, reps, reps');
  }

  lemma SimHashCarried(docs: seq<Doc>, docs': seq<Doc>, to: seq<nat>, back: seq<nat>, hash: Hash, threshold: int)
    requires IsRenumbering(docs, docs', to, back)
    ensures CarriesLinks(|docs|, SimHashLinks(docs, hash, threshold), SimHashLinks(docs', hash, threshold), to)
  {
    var links, links' := SimHashLinks(docs, hash, threshold), SimHashLinks(docs', hash, threshold);
    forall i: nat, j: nat | Adjacent(links, i, j)
      ensures i < |docs| && j < |docs| && Adjacent(links', to[i], to[j])
    {
      SimHashAdjacent(docs, hash, threshold, i, j);
      assert back[to[i]] == i && back[to[j]] == j;
      SimHashAdjacent(docs', hash, threshold, to[i], to[j]);
    }
  }

  /** In simhash_only mode the representatives, their member lists and their order are the same for every
      permutation of the input and every map iteration order. */
  lemma SimHashDeterministic(
    docs: seq<Doc>, docs': seq<Doc>, hash: Hash, threshold: int, tag: string,
    winners: seq<nat>, reps: seq<Doc>, winners': seq<nat>, reps': seq<Doc>)
    requires multiset(docs) == multiset(docs') && DistinctIds(docs)
    requires Clustered(docs, SimHashLinks(docs, hash, threshold), hash, tag, winners, reps)
    requires Clustered(docs', SimHashLinks(docs', hash, threshold), hash, tag, winners', reps')
    ensures reps == reps'
  {
    DistinctIdsOfPermutation(docs, docs');
    var to, back := Renumber(docs, docs');
    RenumberingBack(docs, docs', to, back);
    SimHashCarried(docs, docs', to, back, hash, threshold);
    SimHashCarried(docs', docs, back, to, hash, threshold);
    SameResult(docs, docs', to, back, SimHashLinks(docs, hash, threshold), SimHashLinks(docs', hash, threshold),
      hash, tag, winners, reps, winners', reps');
  }

  lemma HybridCarried(
    docs: seq<Doc>, docs': seq<Doc>, to: seq<nat>, back: seq<nat>, o: Options, hash: Hash, vector: string -> Vector)
    requires IsRenumbering(docs, docs', to, back)
    requires o.mode == HYBRID && AnswersPointwise(o.embedder, vector) && IsSymmetric(o.cosine)
    ensures CarriesLinks(|docs|, FinalLinks(docs, o, hash).links, FinalLinks(docs', o, hash).links, to)
  {
    var near, near' := SimHashLinks(docs, hash, o.hammingThreshold), SimHashLinks(docs', hash, o.hammingThreshold);
    var links, links' := FinalLinks(docs, o, hash).links, FinalLinks(docs', o, hash).links;
    SimHashCarried(docs, docs', to, back, hash, o.hammingThreshold);
    LinkEndpoints(|docs|, near, near', to);
    forall i: nat, j: nat | Adjacent(links, i, j)
      ensures i < |docs| && j < |docs| && Adjacent(links', to[i], to[j])
    {
      HybridAdjacent(docs, o, hash, vector, i, j);
      ConnectedMapped(near, near', |docs|, to, i, j);
      assert back[to[i]] == i && back[to[j]] == j;
      HybridAdjacent(docs', o, hash, vector, to[i], to[j]);
    }
  }

  /** The same holds in hybrid mode when the embedder answers from the text alone. */
  lemma HybridDeterministic(
    docs: seq<Doc>, docs': seq<Doc>, o: Options, hash: Hash, vector: string -> Vector, tag: string,
    winners: seq<nat>, reps: seq<Doc>, winners': seq<nat>, reps': seq<Doc>)
    requires multiset(docs) == multiset(docs') && DistinctIds(docs)
    requires o.mode == HYBRID && AnswersPointwise(o.embedder, vector) && IsSymmetric(o.cosine)
    requires Clustered(docs, FinalLinks(docs, o, hash).links, hash, tag, winners, reps)
    requires Clustered(docs', FinalLinks(docs', o, hash).links, hash, tag, winners', reps')
    ensures reps == reps'
  {
    hide FinalLinks, Clustered;
    DistinctIdsOfPermutation(docs, docs');
    var to, back := Renumber(docs, docs');
    RenumberingBack(docs, docs', to, back);
    HybridCarried(docs, docs', to, back, o, hash, vector);
    HybridCarried(docs', docs, back, to, o, hash, vector);
    SameResult(docs, docs', to, back, FinalLinks(docs, o, hash).links, FinalLinks(docs', o, hash).links,
      hash, tag, winners, reps, winners', reps');
  }

  // ---------- idempotence ----------

  lemma WalkWithoutLinks(links: Edges, i: nat, j: nat)
    requires links == {} && Connected(links, i, j)
    ensures i == j
  {
    var w :| IsWalk(links, w, i, j);
    assert |w| > 1 ==> Adjacent(links, w[0], w[1]);
  }

  /** A pass that links nothing returns its input, sorted. */
  lemma NothingLinked(docs: seq<Doc>, hash: Hash, tag: string, winners: seq<nat>, reps: seq<Doc>)
    requires Clustered(docs, {}, hash, tag, winners, reps)
    ensures IsReordering(docs, reps, winners) && Sorted(ById, reps)
  {
    forall k | 0 <= k < |reps|
      ensures reps[k] == docs[winners[k]]
    {
      var s := Component({}, |docs|, winners[k]);
      forall j | j in s
        ensures j == winners[k]
      {
        WalkWithoutLinks({}, winners[k], j);
      }
      assert s == {winners[k]};
    }
    forall j, k | 0 <= j < k < |winners|
      ensures winners[j] != winners[k]
    {
      ConnectedRefl({}, winners[j]);
    }
    var image := set k | 0 <= k < |winners| :: winners[k];
    DistinctImage(winners);
    forall i: nat | i < |docs|
      ensures i in image
    {
      assert IsCovered({}, winners, i);
      var k :| 0 <= k < |winners| && Connected({}, i, winners[k]);
      WalkWithoutLinks({}, i, winners[k]);
    }
    assert image == Below(|docs|);
  }

  lemma Comparable(reps: seq<Doc>, again: seq<Doc>, perm: seq<nat>, j: nat, k: nat)
    requires Ascending(ById, reps) && IsReordering(reps, again, perm) && j < k < |again|
    ensures ById(again[j], again[k]) || ById(again[k], again[j])
  {
    assert perm[j] != perm[k];
    assert if perm[j] < perm[k] then ById(reps[perm[j]], reps[perm[k]]) else ById(reps[perm[k]], reps[perm[j]]);
  }

  /** Sorting an ascending list again leaves it alone. */
  lemma SortedAgain(reps: seq<Doc>, again: seq<Doc>, perm: seq<nat>)
    requires Ascending(ById, reps) && IsReordering(reps, again, perm) && Sorted(ById, again)
    ensures again == reps
  {
    LessIsStrictTotal();
    ByIdIsWeakOrder();
    ReorderingMembers(reps, again, perm);
    forall d
      ensures d in again <==> d in reps
    {
      assert d in multiset(again) <==> d in multiset(reps);
    }
    forall j, k | 0 <= j < k < |again|
      ensures ById(again[j], again[k])
    {
      Comparable(reps, again, perm, j, k);
    }
    StrictUnique(ById, again, reps);
  }

  lemma RepresentativeKeepsText(docs: seq<Doc>, links: Edges, hash: Hash, tag: string, winners: seq<nat>, reps: seq<Doc>)
    requires Clustered(docs, links, hash, tag, winners, reps)
    ensures forall k :: 0 <= k < |reps| ==> Text(reps[k]) == Text(docs[winners[k]])
  {
    forall k | 0 <= k < |reps|
      ensures Text(reps[k]) == Text(docs[winners[k]])
    {
      assert Represents(docs, hash, tag, Component(links, |docs|, winners[k]), winners[k], reps[k]);
    }
  }

  lemma NoEdges(links: Edges)
    requires forall i, j :: !Adjacent(links, i, j)
    ensures links == {}
  {
    forall e | e in links
      ensures false
    {
      assert Adjacent(links, e.0, e.1);
    }
  }

  /** Clustering the representatives again joins no two of them. */
  lemma SimHashFixedPoint(
    docs: seq<Doc>, hash: Hash, threshold: int, tag: string, winners: seq<nat>, reps: seq<Doc>)
    requires Clustered(docs, SimHashLinks(docs, hash, threshold), hash, tag, winners, reps)
    ensures SimHashLinks(reps, hash, threshold) == {}
  {
    var links, links' := SimHashLinks(docs, hash, threshold), SimHashLinks(reps, hash, threshold);
    RepresentativeKeepsText(docs, links, hash, tag, winners, reps);
    forall i: nat, j: nat
      ensures !Adjacent(links', i, j)
    {
      SimHashAdjacent(reps, hash, threshold, i, j);
      if Adjacent(links', i, j) {
        SimHashAdjacent(docs, hash, threshold, winners[i], winners[j]);
        WinnersApart(docs, links, hash, tag, winners, reps, i, j);
      }
    }
    NoEdges(links');
  }

  lemma WinnersApart(
    docs: seq<Doc>, links: Edges, hash: Hash, tag: string, winners: seq<nat>, reps: seq<Doc>, i: nat, j: nat)
    requires Clustered(docs, links, hash, tag, winners, reps)
    requires i < |reps| && j < |reps| && i != j
    ensures winners[i] != winners[j] && !Adjacent(links, winners[i], winners[j])
    ensures !Connected(links, winners[i], winners[j])
  {
    if Connected(links, winners[i], winners[j]) {
      ConnectedSym(links, winners[i], winners[j]);
    }
    ConnectedRefl(links, winners[i]);
    if Adjacent(links, winners[i], winners[j]) {
      ConnectedEdge(links, winners[i], winners[j]);
    }
  }

  /** Idempotence in simhash_only mode: clustering the output again gives the same documents back, and the very
      same list when ids are distinct. */
  lemma SimHashIdempotent(
    docs: seq<Doc>, hash: Hash, threshold: int, tag: string, tag': string,
    winners: seq<nat>, reps: seq<Doc>, winners': seq<nat>, again: seq<Doc>)
    requires Clustered(docs, SimHashLinks(docs, hash, threshold), hash, tag, winners, reps)
    requires Clustered(reps, SimHashLinks(reps, hash, threshold), hash, tag', winners', again)
    ensures multiset(again) == multiset(reps)
    ensures DistinctIds(docs) ==> again == reps
  {
    SimHashFixedPoint(docs, hash, threshold, tag, winners, reps);
    NothingLinked(reps, hash, tag', winners', again);
    ReorderingMembers(reps, again, winners');
    if DistinctIds(docs) {
      RepresentativesAscend(docs, SimHashLinks(docs, hash, threshold), hash, tag, winners, reps);
      SortedAgain(reps, again, winners');
    }
  }

  lemma HybridFixedPoint(
    docs: seq<Doc>, o: Options, hash: Hash, vector: string -> Vector, tag: string, winners: seq<nat>, reps: seq<Doc>)
    requires o.mode == HYBRID && AnswersPointwise(o.embedder, vector) && IsSymmetric(o.cosine)
    requires Clustered(docs, FinalLinks(docs, o, hash).links, hash, tag, winners, reps)
    ensures FinalLinks(reps, o, hash).links == {}
  {
    var t := o.hammingThreshold;
    var links, links' := FinalLinks(docs, o, hash).links, FinalLinks(reps, o, hash).links;
    var near, near' := SimHashLinks(docs, hash, t), SimHashLinks(reps, hash, t);
    RepresentativeKeepsText(docs, links, hash, tag, winners, reps);
    forall e | e in near'
      ensures e.0 < |reps| && e.1 < |reps| && Adjacent(near, winners[e.0], winners[e.1])
    {
      assert Adjacent(near', e.0, e.1);
      SimHashAdjacent(reps, hash, t, e.0, e.1);
      WinnersApart(docs, links, hash, tag, winners, reps, e.0, e.1);
      SimHashAdjacent(docs, hash, t, winners[e.0], winners[e.1]);
    }
    forall i: nat, j: nat
      ensures !Adjacent(links', i, j)
    {
      HybridAdjacent(reps, o, hash, vector, i, j);
      if Adjacent(links', i, j) {
        ConnectedMapped(near', near, |reps|, winners, i, j);
        WinnersApart(docs, links, hash, tag, winners, reps, i, j);
        HybridAdjacent(docs, o, hash, vector, winners[i], winners[j]);
      }
    }
    NoEdges(links');
  }

  /** Idempotence in hybrid mode, for an embedder that answers from the text alone both times. */
  lemma HybridIdempotent(
    docs: seq<Doc>, o: Options, hash: Hash, vector: string -> Vector, tag: string, tag': string,
    winners: seq<nat>, reps: seq<Doc>, winners': seq<nat>, again: seq<Doc>)
    requires o.mode == HYBRID && AnswersPointwise(o.embedder, vector) && IsSymmetric(o.cosine)
    requires Clustered(docs, FinalLinks(docs, o, hash).links, hash, tag, winners, reps)
    requires Clustered(reps, FinalLinks(reps, o, hash).links, hash, tag', winners', again)
    ensures multiset(again) == multiset(reps)
    ensures DistinctIds(docs) ==> again == reps
  {
    hide FinalLinks;
    HybridFixedPoint(docs, o, hash, vector, tag, winners, reps);
    NothingLinked(reps, hash, tag', winners', again);
    ReorderingMembers(reps, again, winners');
    if DistinctIds(docs) {
      RepresentativesAscend(docs, FinalLinks(docs, o, hash).links, hash, tag, winners, reps);
      SortedAgain(reps, again, winners');
    }
  }

  /** A rerun that has to fall back to SimHash keeps all representatives exactly when no two of them are near
      duplicates; so after a hybrid pass that split a SimHash cluster, an embedding failure can undo the split. */
  lemma FallbackRerun(
    reps: seq<Doc>, hash: Hash, threshold: int, tag: string, winners: seq<nat>, again: seq<Doc>)
    requires Clustered(reps, SimHashLinks(reps, hash, threshold), hash, tag, winners, again)
    ensures |again| == |reps|
       <==> forall i, j :: 0 <= i < j < |reps| ==> !Near(hash, threshold, reps[i], reps[j])
  {
    var links := SimHashLinks(reps, hash, threshold);
    if i, j :| 0 <= i < j < |reps| && Near(hash, threshold, reps[i], reps[j]) {
      SimHashAdjacent(reps, hash, threshold, i, j);
      ConnectedEdge(links, i, j);
      ConnectedSym(links, i, j);
      forall m, m' | 0 <= m < m' < |winners|
        ensures winners[m] != winners[m']
      {
        ConnectedRefl(links, winners[m]);
      }
      if |again| == |reps| {
        var k := FindIndex(winners, i);
        var k' := FindIndex(winners, j);
      }
    } else {
      forall i: nat, j: nat
        ensures !Adjacent(links, i, j)
      {
        SimHashAdjacent(reps, hash, threshold, i, j);
        SimHashAdjacent(reps, hash, threshold, j, i);
      }
      NoEdges(links);
      NothingLinked(reps, hash, tag, winners, again);
    }
  }
}
