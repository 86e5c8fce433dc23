/** The clustering pass of internal/synthcluster/cluster.go over the union-find, proved against module Clustering. */
module Cluster {
  import opened Prelude
  import opened Graph
  import opened UnionFinds
  import opened SimHash
  import opened Sorting
  import opened Clustering
  import opened ClusterRules

  function Elements(list: seq<nat>): set<nat> {
    set i | i in list
  }

  lemma ClassIsComponent(rep: seq<nat>, links: Edges, i: nat)
    requires IsPartition(rep, links) && i < |rep|
    ensures Component(links, |rep|, i) == Class(rep, rep[i])
    ensures Elements(ClassList(rep, rep[i], |rep|)) == Class(rep, rep[i])
  {
  }

  lemma DistinctSize(list: seq<nat>)
    requires Distinct(list)
    ensures |Elements(list)| == |list|
  {
    DistinctImage(list);
    assert Elements(list) == set j | 0 <= j < |list| :: list[j];
  }

  predicate IntLess(a: nat, b: nat) {
    a < b
  }

  /** A list sorted by Go's sort.Ints is ascending when it holds no duplicates. */
  method SortInts(list: seq<nat>) returns (sorted: seq<nat>)
    requires Distinct(list)
    ensures forall j, k :: 0 <= j < k < |sorted| ==> sorted[j] < sorted[k]
    ensures forall x :: x in sorted <==> x in list
  {
    ghost var perm;
    sorted, perm := Sort(IntLess, list);
    ReorderingMembers(list, sorted, perm);
    forall x
      ensures x in sorted <==> x in list
    {
      assert x in multiset(sorted) <==> x in multiset(list);
    }
    forall j, k | 0 <= j < k < |sorted|
      ensures sorted[j] < sorted[k]
    {
      assert !IntLess(sorted[k], sorted[j]);
      assert perm[j] != perm[k];
    }
  }

  lemma ElementsAppend(list: seq<nat>, i: nat)
    ensures Elements(list + [i]) == Elements(list) + {i}
    ensures i in Elements(list) <==> i in list
  {
  }

  lemma NoElements()
    ensures Elements([]) == {}
  {
  }

  /** The ids of a group without its representative. */
  method CollectMembers(docs: seq<Doc>, sorted: seq<nat>, bestIdx: nat) returns (memberIds: seq<string>)
    requires Distinct(sorted) && bestIdx in sorted
    requires forall i :: i in sorted ==> i < |docs|
    ensures multiset(memberIds) == IdsOf(docs, Elements(sorted) - {bestIdx}, |docs|)
    ensures |memberIds| == |sorted| - 1
  {
    hide IdsOf, Elements;
    memberIds := [];
    IdsOfEmpty(docs, |docs|);
    assert Elements(sorted[..0]) == {} by { NoElements(); }
    ghost var rest: set<nat> := {};
    for k := 0 to |sorted|
      invariant rest == Elements(sorted[..k]) - {bestIdx}
      invariant multiset(memberIds) == IdsOf(docs, rest, |docs|)
      invariant |memberIds| == k - if bestIdx in sorted[..k] then 1 else 0
    {
      var idx := sorted[k];
      assert sorted[..k + 1] == sorted[..k] + [idx];
      assert idx !in sorted[..k] && idx in sorted;
      ElementsAppend(sorted[..k], idx);
      if idx != bestIdx {
        assert multiset(memberIds + [docs[idx].id]) == multiset(memberIds) + multiset{docs[idx].id};
        IdsOfUnion(docs, rest, {idx}, |docs|);
        IdsOfSingle(docs, idx, |docs|);
        rest := rest + {idx};
        memberIds := memberIds + [docs[idx].id];
      }
    }
    assert sorted[..|sorted|] == sorted;
  }

  /** Selects the representative of one group and annotates it with the ids of the rest. */
  method AssembleCluster(docs: seq<Doc>, hash: Hash, group: seq<nat>, tag: string)
      returns (rep: Doc, collapsed: seq<string>, ghost best: nat)
    requires group != [] && Distinct(group)
    requires forall i :: i in group ==> i < |docs|
    ensures Represents(docs, hash, tag, Elements(group), best, rep)
    ensures best in group
    ensures |collapsed| == |group| - 1
  {
    if |group| == 1 {
      assert Elements(group) == {group[0]};
      return docs[group[0]], [], group[0];
    }
    var sorted := SortInts(group);
    assert Elements(sorted) == Elements(group);
    DistinctSize(sorted);
    DistinctSize(group);
    var bestIdx := PickBest(docs, sorted);
    best := bestIdx;
    var memberIds := CollectMembers(docs, sorted, bestIdx);
    LessIsWeakOrder();
    ghost var perm;
    collapsed, perm := Sort(Less, memberIds);
    ReorderingMembers(memberIds, collapsed, perm);
    rep := Annotate(docs[bestIdx], hash, tag, collapsed, |sorted|);
  }

  /** The scan over an ascending group that keeps the better document, and the earlier one among ties. */
  method PickBest(docs: seq<Doc>, sorted: seq<nat>) returns (best: nat)
    requires sorted != []
    requires forall j, k :: 0 <= j < k < |sorted| ==> sorted[j] < sorted[k]
    requires forall i :: i in sorted ==> i < |docs|
    ensures IsBest(docs, Elements(sorted), best)
  {
    BetterRepIsWeakOrder();
    best := sorted[0];
    assert sorted[..1] == [best] && best in sorted;
    for k := 1 to |sorted|
      invariant IsBest(docs, Elements(sorted[..k]), best)
    {
      assert sorted[..k + 1] == sorted[..k] + [sorted[k]];
      assert sorted[k] in sorted;
      if BetterRep(docs[sorted[k]], docs[best]) {
        best := sorted[k];
      }
    }
    assert sorted[..|sorted|] == sorted;
  }

  lemma DistinctAppend<T>(a: seq<T>, b: seq<T>)
    requires Distinct(a) && Distinct(b)
    requires forall x :: x in b ==> x !in a
    ensures Distinct(a + b)
  {
    forall i, j | 0 <= i < j < |a + b|
      ensures (a + b)[i] != (a + b)[j]
    {
      if i < |a| <= j {
        assert b[j - |a|] in b && a[i] in a;
      }
    }
  }

  /** The members of all groups of two or more, in whatever order the map yields the groups. */
  method GatherLarge(groups: map<nat, seq<nat>>, ghost rep: seq<nat>) returns (gathered: seq<nat>)
    requires forall r :: r in groups <==> ClassList(rep, r, |rep|) != []
    requires forall r :: r in groups ==> groups[r] == ClassList(rep, r, |rep|)
    ensures Distinct(gathered)
    ensures forall i: nat :: i in gathered <==> i < |rep| && |ClassList(rep, rep[i], |rep|)| >= 2
  {
    var pending := groups.Keys;
    gathered := [];
    while pending != {}
      invariant pending <= groups.Keys
      invariant Distinct(gathered)
      invariant forall i: nat :: i in gathered <==>
          i < |rep| && rep[i] in groups && rep[i] !in pending && |groups[rep[i]]| >= 2
    {
      var root :| root in pending;
      pending := pending - {root};
      if |groups[root]| >= 2 {
        DistinctAppend(gathered, groups[root]);
        gathered := gathered + groups[root];
      }
    }
    forall i: nat | i < |rep|
      ensures rep[i] in groups
    {
      assert i in ClassList(rep, rep[i], |rep|);
    }
  }

  method CandidateIndices(uf: UnionFind) returns (list: seq<nat>)
    requires uf.Valid()
    modifies uf.parent
    ensures uf.Valid() && uf.rep == old(uf.rep)
    ensures list == Participants(uf.links, |uf.rep|, |uf.rep|)
  {
    var groups := uf.Groups();
    var gathered := GatherLarge(groups, uf.rep);
    list := SortInts(gathered);
    ParticipantsByClass(uf.rep, uf.links, list);
  }

  lemma ClassSize(rep: seq<nat>, links: Edges, i: nat)
    requires IsPartition(rep, links) && i < |rep|
    ensures |Component(links, |rep|, i)| == |ClassList(rep, rep[i], |rep|)|
  {
    ClassIsComponent(rep, links, i);
    DistinctSize(ClassList(rep, rep[i], |rep|));
  }

  lemma ParticipantsByClass(rep: seq<nat>, links: Edges, list: seq<nat>)
    requires IsPartition(rep, links)
    requires forall j, k :: 0 <= j < k < |list| ==> list[j] < list[k]
    requires forall i: nat :: i in list <==> i < |rep| && |ClassList(rep, rep[i], |rep|)| >= 2
    ensures list == Participants(links, |rep|, |rep|)
  {
    hide IsPartition, ClassList, Class, Component, Elements, Participants;
    forall i: nat
      ensures i in list <==> i in Participants(links, |rep|, |rep|)
    {
      if i < |rep| {
        ClassSize(rep, links, i);
      }
    }
    StrictUnique(IntLess, list, Participants(links, |rep|, |rep|));
  }

  /** A fresh union-find with only those connected pairs whose vectors are close enough. */
  method Recheck(uf: UnionFind, o: Options, vectors: map<nat, Vector>) returns (refined: UnionFind)
    requires uf.Valid()
    modifies uf.parent
    ensures uf.Valid() && uf.rep == old(uf.rep)
    ensures refined.Valid() && fresh(refined) && fresh(refined.parent) && fresh(refined.rank)
    ensures |refined.rep| == |uf.rep|
    ensures refined.links == AllPairs(Confirmed(uf.links, vectors, o), |uf.rep|)
  {
    hide IsForest, IsWeighted, IsPartition;
    var n := uf.parent.Length;
    ghost var confirmed := Confirmed(uf.links, vectors, o);
    refined := new UnionFind(n);
    for i := 0 to n
      invariant uf.Valid() && uf.rep == old(uf.rep)
      invariant refined.Valid() && fresh(refined) && fresh(refined.parent) && fresh(refined.rank)
      invariant |refined.rep| == n && refined.links == PairsBefore(confirmed, n, i, 0)
    {
      NextRow(confirmed, n, i);
      for j := i + 1 to n
        invariant uf.Valid() && uf.rep == old(uf.rep)
        invariant refined.Valid() && fresh(refined) && fresh(refined.parent) && fresh(refined.rank)
        invariant |refined.rep| == n && refined.links == PairsBefore(confirmed, n, i, j)
      {
        var same := uf.AreConnected(i, j);
        if same && i in vectors && j in vectors && o.cosine(vectors[i], vectors[j]) >= o.cosineThreshold {
          var _ := refined.Union(i, j);
        }
        NextColumn(confirmed, n, i, j);
      }
    }
  }

  /** In hybrid mode, rechecks every connected pair against the embeddings; without an answer nothing changes. */
  method RefineWithEmbedding(docs: seq<Doc>, o: Options, uf: UnionFind) returns (fallback: bool)
    requires uf.Valid() && |uf.rep| == |docs|
    modifies uf, uf.parent
    ensures uf.Valid() && |uf.rep| == |docs|
    ensures uf.links == Refine(docs, o, old(uf.links)).links
    ensures fallback == Refine(docs, o, old(uf.links)).fallback
    ensures uf.parent == old(uf.parent) || fresh(uf.parent)
    ensures uf.rank == old(uf.rank) || fresh(uf.rank)
  {
    if o.embedder.NoEmbedder? {
      return true;
    }
    var list := CandidateIndices(uf);
    if list == [] {
      return false;
    }
    var response := o.embedder.embed(TextsOf(docs, list));
    if response.None? {
      return true;
    }
    var vectors := MatchVectors(list, response.value);
    var refined := Recheck(uf, o, vectors);
    uf.ReplaceBy(refined);
    return false;
  }

  /** The answered vectors by document index. */
  method MatchVectors(list: seq<nat>, dense: seq<Vector>) returns (vectors: map<nat, Vector>)
    ensures vectors == VectorsFor(list, dense, |list|)
  {
    vectors := map[];
    for i := 0 to |list|
      invariant vectors == VectorsFor(list, dense, i)
    {
      if i < |dense| {
        vectors := vectors[list[i] := dense[i]];
      }
    }
  }

  lemma NextColumn(related: (nat, nat) -> bool, n: nat, i: nat, j: nat)
    requires i < j < n
    ensures PairsBefore(related, n, i, j + 1) == PairsBefore(related, n, i, j) + if related(i, j) then {(i, j)} else {}
  {
  }

  lemma NextRow(related: (nat, nat) -> bool, n: nat, i: nat)
    requires i < n
    ensures PairsBefore(related, n, i, i + 1) == PairsBefore(related, n, i, 0)
    ensures PairsBefore(related, n, i, n) == PairsBefore(related, n, i + 1, 0)
  {
  }

  /** Steps 1 and 2: fingerprints of all documents, then every pair within the Hamming threshold is joined. */
  method JoinNearDuplicates(docs: seq<Doc>, hash: Hash, threshold: int) returns (uf: UnionFind)
    ensures uf.Valid() && fresh(uf) && fresh(uf.parent) && fresh(uf.rank)
    ensures |uf.rep| == |docs| && uf.links == SimHashLinks(docs, hash, threshold)
  {
    hide IsForest, IsWeighted, IsPartition;
    var n := |docs|;
    var hashed := seq<Fingerprint>(n, i requires 0 <= i < n => hash(Text(docs[i])));
    uf := new UnionFind(n);
    ghost var near := NearDuplicates(docs, hash, threshold);
    for i := 0 to n
      invariant uf.Valid() && fresh(uf) && fresh(uf.parent) && fresh(uf.rank) && |uf.rep| == n
      invariant uf.links == PairsBefore(near, n, i, 0)
    {
      NextRow(near, n, i);
      for j := i + 1 to n
        invariant uf.Valid() && fresh(uf) && fresh(uf.parent) && fresh(uf.rank) && |uf.rep| == n
        invariant uf.links == PairsBefore(near, n, i, j)
      {
        if HammingDistance(hashed[i], hashed[j]) <= threshold {
          var _ := uf.Union(i, j);
        }
        NextColumn(near, n, i, j);
      }
    }
  }

  /** The representatives built so far: one per finished group, of that group. */
  ghost predicate Assembled(
    docs: seq<Doc>, hash: Hash, tag: string, rep: seq<nat>, done: set<nat>, winners: seq<nat>, reps: seq<Doc>)
  {
    && |winners| == |reps|
    && (forall k :: 0 <= k < |reps| ==>
          && winners[k] < |rep| && rep[winners[k]] in done
          && Represents(docs, hash, tag, Class(rep, rep[winners[k]]), winners[k], reps[k]))
    && (forall j, k :: 0 <= j < k < |reps| ==> rep[winners[j]] != rep[winners[k]])
    && (forall r :: r in done ==> exists k :: 0 <= k < |winners| && winners[k] < |rep| && rep[winners[k]] == r)
  }

  lemma AssembledStep(
    docs: seq<Doc>, hash: Hash, tag: string, rep: seq<nat>, done: set<nat>, winners: seq<nat>, reps: seq<Doc>,
    root: nat, best: nat, d: Doc)
    requires Assembled(docs, hash, tag, rep, done, winners, reps)
    requires root !in done && best in Class(rep, root)
    requires Represents(docs, hash, tag, Class(rep, root), best, d)
    ensures Assembled(docs, hash, tag, rep, done + {root}, winners + [best], reps + [d])
    ensures best !in winners
  {
    hide Represents;
    forall r | r in done + {root}
      ensures exists k :: 0 <= k < |winners + [best]| && (winners + [best])[k] < |rep| && rep[(winners + [best])[k]] == r
    {
      if r == root {
        assert (winners + [best])[|winners|] == best;
      } else {
        var k :| 0 <= k < |winners| && winners[k] < |rep| && rep[winners[k]] == r;
        assert (winners + [best])[k] == winners[k];
      }
    }
  }

  /** The winners that stand for two documents or more. */
  ghost function Multi(rep: seq<nat>, winners: seq<nat>): set<nat> {
    set w | w in winners && w < |rep| && |Class(rep, rep[w])| >= 2
  }

  lemma MultiStep(rep: seq<nat>, winners: seq<nat>, best: nat)
    requires best < |rep| && best !in winners
    ensures Multi(rep, winners + [best])
         == Multi(rep, winners) + if |Class(rep, rep[best])| >= 2 then {best} else {}
    ensures best !in Multi(rep, winners)
  {
  }

  ghost function Covered(rep: seq<nat>, roots: set<nat>): set<nat> {
    set i: nat | i < |rep| && rep[i] in roots
  }

  lemma CoveredStep(rep: seq<nat>, roots: set<nat>, root: nat)
    requires root !in roots
    ensures Covered(rep, roots + {root}) == Covered(rep, roots) + Class(rep, root)
    ensures |Covered(rep, roots + {root})| == |Covered(rep, roots)| + |Class(rep, root)|
  {
    assert Covered(rep, roots + {root}) == Covered(rep, roots) + Class(rep, root);
    assert Covered(rep, roots) !! Class(rep, root);
  }

  lemma NoneAssembled(docs: seq<Doc>, hash: Hash, tag: string, rep: seq<nat>)
    ensures Assembled(docs, hash, tag, rep, {}, [], [])
    ensures Multi(rep, []) == {} && Covered(rep, {}) == {}
  {
  }

  lemma AllCovered(rep: seq<nat>, roots: set<nat>)
    requires forall r :: ClassList(rep, r, |rep|) != [] ==> r in roots
    ensures |Covered(rep, roots)| == |rep|
  {
    forall i: nat | i < |rep|
      ensures rep[i] in roots
    {
      assert i in ClassList(rep, rep[i], |rep|);
    }
    assert Covered(rep, roots) == Below(|rep|);
  }

  lemma GroupFacts(rep: seq<nat>, root: nat)
    ensures
      var group := ClassList(rep, root, |rep|);
      && Distinct(group) && Elements(group) == Class(rep, root) && |Class(rep, root)| == |group|
      && (forall i :: i in group ==> i in Class(rep, root) && i < |rep| && rep[i] == root)
  {
    DistinctSize(ClassList(rep, root, |rep|));
    assert Elements(ClassList(rep, root, |rep|)) == Class(rep, root);
  }

  /** Step 4: one representative per group, the groups taken in whatever order the map yields them. */
  method AssembleAll(docs: seq<Doc>, hash: Hash, tag: string, groups: map<nat, seq<nat>>, ghost rep: seq<nat>)
      returns (reps: seq<Doc>, formed: nat, collapsed: nat, ghost winners: seq<nat>)
    requires |rep| == |docs|
    requires forall r :: r in groups <==> ClassList(rep, r, |rep|) != []
    requires forall r :: r in groups ==> groups[r] == ClassList(rep, r, |rep|)
    ensures Assembled(docs, hash, tag, rep, groups.Keys, winners, reps)
    ensures |reps| + collapsed == |docs|
    ensures formed == |Multi(rep, winners)|
  {
    hide Represents, Assembled, Multi, Covered, ClassList, Class, Elements;
    var pending := groups.Keys;
    reps, formed, collapsed, winners := [], 0, 0, [];
    ghost var done: set<nat> := {};
    NoneAssembled(docs, hash, tag, rep);
    while pending != {}
      invariant pending <= groups.Keys && done == groups.Keys - pending
      invariant Assembled(docs, hash, tag, rep, done, winners, reps)
      invariant |reps| + collapsed == |Covered(rep, done)|
      invariant formed == |Multi(rep, winners)|
    {
      var root :| root in pending;
      var group := groups[root];
      GroupFacts(rep, root);
      var d, ids;
      ghost var best;
      d, ids, best := AssembleCluster(docs, hash, group, tag);
      AssembledStep(docs, hash, tag, rep, done, winners, reps, root, best, d);
      MultiStep(rep, winners, best);
      CoveredStep(rep, done, root);
      reps, winners := reps + [d], winners + [best];
      collapsed := collapsed + |ids|;
      if |ids| > 0 {
        formed := formed + 1;
      }
      pending, done := pending - {root}, done + {root};
    }
    assert done == groups.Keys;
    AllCovered(rep, groups.Keys);
  }

  /** Reordering winners and representatives alike, so that the representatives are sorted, completes the result. */
  lemma AssembledSorted(
    docs: seq<Doc>, links: Edges, hash: Hash, tag: string, rep: seq<nat>, roots: set<nat>,
    winners: seq<nat>, reps: seq<Doc>, sorted: seq<Doc>, perm: seq<nat>) returns (order: seq<nat>)
    requires |rep| == |docs| && IsPartition(rep, links)
    requires forall r :: ClassList(rep, r, |rep|) != [] <==> r in roots
    requires Assembled(docs, hash, tag, rep, roots, winners, reps)
    requires IsReordering(reps, sorted, perm) && Sorted(ById, sorted)
    ensures Clustered(docs, links, hash, tag, order, sorted)
    ensures Multi(rep, winners) == LargeClusters(docs, links, order)
  {
    hide Represents;
    order := seq(|perm|, k requires 0 <= k < |perm| => winners[perm[k]]);
    forall k | 0 <= k < |sorted|
      ensures Represents(docs, hash, tag, Component(links, |docs|, order[k]), order[k], sorted[k])
    {
      ClassIsComponent(rep, links, order[k]);
    }
    forall j, k | 0 <= j < k < |sorted|
      ensures !Connected(links, order[j], order[k])
    {
      assert rep[winners[perm[j]]] != rep[winners[perm[k]]];
    }
    forall i: nat | i < |docs|
      ensures IsCovered(links, order, i)
    {
      assert i in ClassList(rep, rep[i], |rep|);
      var m :| 0 <= m < |winners| && winners[m] < |rep| && rep[winners[m]] == rep[i];
      var k := FindIndex(perm, m);
      assert Connected(links, i, order[k]);
    }
    LargeCarried(docs, links, rep, winners, order, perm);
  }

  /** Reordering keeps which winners stand for two documents or more. */
  lemma LargeCarried(
    docs: seq<Doc>, links: Edges, rep: seq<nat>, winners: seq<nat>, order: seq<nat>, perm: seq<nat>)
    requires |rep| == |docs| && IsPartition(rep, links) && IsReordering(winners, order, perm)
    requires forall k :: 0 <= k < |winners| ==> winners[k] < |rep|
    ensures Multi(rep, winners) == LargeClusters(docs, links, order)
  {
    ReorderingMembers(winners, order, perm);
    forall w
      ensures w in Multi(rep, winners) <==> w in LargeClusters(docs, links, order)
    {
      assert w in multiset(winners) <==> w in multiset(order);
      if w in winners {
        ClassIsComponent(rep, links, w);
      }
    }
  }

  lemma AllRankFirst(
    docs: seq<Doc>, links: Edges, hash: Hash, tag: string, winners: seq<nat>, reps: seq<Doc>)
    requires Clustered(docs, links, hash, tag, winners, reps)
    ensures |winners| == |reps|
    ensures forall k: nat, i: nat {:trigger Connected(links, winners[k], i)} ::
        k < |reps| && i < |docs| && Connected(links, winners[k], i) ==> RanksAtLeast(reps[k], docs[i])
  {
    forall k: nat, i: nat | k < |reps| && i < |docs| && Connected(links, winners[k], i)
      ensures RanksAtLeast(reps[k], docs[i])
    {
      RepresentativeRanksFirst(docs, links, hash, tag, winners, reps, k, i);
    }
  }

  /** Cluster: the clustering pass. It never fails: every embedding error is a fallback. */
  method Cluster(docs: seq<Doc>, options: Options, hash: Hash)
      returns (reps: seq<Doc>, stats: Stats, ghost winners: seq<nat>)
    ensures stats.inputDocs == |docs| && stats.outputDocs == |reps|
    ensures stats.mode == if options.mode == "" then "simhash_only" else options.mode
    ensures stats.mode == OFF ==> reps == docs && stats.docsCollapsed == stats.clustersFormed == 0
    ensures stats.mode != OFF ==> stats.outputDocs + stats.docsCollapsed == stats.inputDocs
    ensures stats.mode != OFF && docs != [] ==>
        var final := FinalLinks(docs, WithDefaults(options), hash);
        && stats.embeddingFallback == final.fallback
        && stats.clustersFormed == |LargeClusters(docs, final.links, winners)|
        && Clustered(docs, final.links, hash, if final.fallback then SIMHASH_ONLY else stats.mode, winners, reps)
    ensures stats.mode != OFF && docs != [] ==>
        var links := FinalLinks(docs, WithDefaults(options), hash).links;
        forall k: nat, i: nat {:trigger Connected(links, winners[k], i)} ::
          k < |reps| && i < |docs| && Connected(links, winners[k], i) ==> RanksAtLeast(reps[k], docs[i])
    ensures stats.mode == OFF || docs == [] ==> !stats.embeddingFallback && stats.clustersFormed == 0
    ensures docs == [] ==> reps == []
  {
    hide IsForest, IsWeighted, Represents, Assembled, Clustered;
    var o := WithDefaults(options);
    winners := [];
    if o.mode == OFF {
      return docs, Stats(|docs|, |docs|, 0, 0, false, o.mode), winners;
    }
    if docs == [] {
      return [], Stats(0, 0, 0, 0, false, o.mode), winners;
    }
    var uf := JoinNearDuplicates(docs, hash, o.hammingThreshold);
    var fallback := false;
    if o.mode == HYBRID {
      fallback := RefineWithEmbedding(docs, o, uf);
    }
    var groups := uf.Groups();
    var tag := if fallback then SIMHASH_ONLY else o.mode;
    var all, formed, collapsed;
    ghost var built;
    all, formed, collapsed, built := AssembleAll(docs, hash, tag, groups, uf.rep);
    ByIdIsWeakOrder();
    ghost var perm;
    reps, perm := Sort(ById, all);
    winners := AssembledSorted(docs, uf.links, hash, tag, uf.rep, groups.Keys, built, all, reps, perm);
    stats := Stats(|docs|, |reps|, formed, collapsed, fallback, o.mode);
    AllRankFirst(docs, uf.links, hash, tag, winners, reps);
  }
}
