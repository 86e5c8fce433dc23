/** Inputs for which a clustering pass breaks the promises of internal/synthcluster/cluster.go:27-29. */
module ClusterWitness {
  import opened Prelude
  import opened Graph
  import opened Sorting
  import opened Clustering
  import opened ClusterLinks
  import opened ClusterProperties
  import opened ClusterDeterminism

  /** A representative as a pass leaves it behind: it carries the ids that were collapsed into it. */
  function Carrying(id: string, members: seq<string>, hash: Hash): Doc {
    Doc(id, id, "", 0.0, 0, map[CLUSTER_KEY := ClusterMeta(1, members, hash(id + "\n"), SIMHASH_ONLY, 2)])
  }

  function Plain(id: string): Doc {
    Doc(id, id, "", 0.0, 0, map[])
  }

  function Indices(n: nat): (r: seq<nat>)
    ensures |r| == n && forall i :: 0 <= i < n ==> r[i] == i
  {
    seq(n, i => i)
  }

  /** Sorted documents of which no two are near duplicates come out of a pass unchanged. */
  lemma NothingNear(docs: seq<Doc>, hash: Hash, threshold: int, tag: string)
    requires forall i, j :: 0 <= i < j < |docs| ==> !Near(hash, threshold, docs[i], docs[j])
    requires Sorted(ById, docs)
    ensures SimHashLinks(docs, hash, threshold) == {}
    ensures Clustered(docs, SimHashLinks(docs, hash, threshold), hash, tag, Indices(|docs|), docs)
  {
    var links := SimHashLinks(docs, hash, threshold);
    forall i: nat, j: nat
      ensures !Adjacent(links, i, j)
    {
      SimHashAdjacent(docs, hash, threshold, i, j);
      SimHashAdjacent(docs, hash, threshold, j, i);
    }
    NoEdges(links);
    UnlinkedClustered(docs, hash, tag);
  }

  lemma UnlinkedClustered(docs: seq<Doc>, hash: Hash, tag: string)
    requires Sorted(ById, docs)
    ensures Clustered(docs, {}, hash, tag, Indices(|docs|), docs)
  {
    hide ById;
    var winners := Indices(|docs|);
    forall i: nat | i < |docs|
      ensures Represents(docs, hash, tag, Component({}, |docs|, winners[i]), winners[i], docs[i])
      ensures IsCovered({}, winners, i)
    {
      AloneWithoutLinks(|docs|, i);
      assert winners[i] == i && IsBest(docs, {i}, i);
    }
    forall j, k | 0 <= j < k < |docs|
      ensures !Connected({}, winners[j], winners[k])
    {
      AloneWithoutLinks(|docs|, j);
      assert k in Component({}, |docs|, j) <==> Connected({}, j, k);
    }
  }

  lemma AloneWithoutLinks(n: nat, i: nat)
    requires i < n
    ensures Component({}, n, i) == {i} && Connected({}, i, i)
  {
    ConnectedRefl({}, i);
    forall j | j in Component({}, n, i)
      ensures j == i
    {
      WalkWithoutLinks({}, i, j);
    }
  }

  /** A single document that an earlier pass left with the list ["b"]: the output names "b", the input does not. */
  lemma StaleListBreaksConservation(hash: Hash, threshold: int, tag: string)
    ensures
      var docs := [Carrying("a", ["b"], hash)];
      && Clustered(docs, SimHashLinks(docs, hash, threshold), hash, tag, [0], docs)
      && "b" in Ids(docs) + MemberIds(docs) && "b" !in Ids(docs)
  {
    var docs := [Carrying("a", ["b"], hash)];
    NothingNear(docs, hash, threshold, tag);
    assert Indices(1) == [0];
    OneMore([], docs[0]);
    assert [] + docs == docs && Members(docs[0])[0] == "b";
  }

  lemma OneMore(docs: seq<Doc>, d: Doc)
    ensures Ids(docs + [d]) == Ids(docs) + multiset{d.id}
    ensures MemberIds(docs + [d]) == MemberIds(docs) + multiset(Members(d))
  {
    IdsOfLastRep(docs, d);
  }

  /** "b" once more in the input, not near "a", whose list of an earlier pass names it: the id "b" occurs twice. */
  lemma StaleListDoublesAnId(hash: Hash, threshold: int, tag: string)
    requires !Near(hash, threshold, Carrying("a", ["b"], hash), Plain("b"))
    ensures
      var docs := [Carrying("a", ["b"], hash), Plain("b")];
      && DistinctIds(docs)
      && Clustered(docs, SimHashLinks(docs, hash, threshold), hash, tag, [0, 1], docs)
      && (Ids(docs) + MemberIds(docs))["b"] == 2
  {
    var a, b := Carrying("a", ["b"], hash), Plain("b");
    var docs := [a, b];
    assert Members(a) == ["b"] && Members(b) == [] && a.id == "a" && b.id == "b";
    assert Sorted(ById, docs) by { LessIsStrictTotal(); }
    hide ById, Near, Carrying, Plain, Members;
    NothingNear(docs, hash, threshold, tag);
    assert Indices(2) == [0, 1];
    CountTwo(a, b);
  }

  lemma CountTwo(a: Doc, b: Doc)
    requires a.id == "a" && Members(a) == ["b"] && b.id == "b" && Members(b) == []
    ensures (Ids([a, b]) + MemberIds([a, b]))["b"] == 2
  {
    OneMore([], a);
    OneMore([a], b);
    assert [] + [a] == [a] && [a] + [b] == [a, b];
    assert multiset(["b"])["b"] == 1;
  }

  /** A list that names its own document, as a pass over two near duplicates with one id leaves it: with distinct ids,
      the representative lists itself. */
  lemma OwnListBreaksPromise(hash: Hash, threshold: int, tag: string)
    ensures
      var docs := [Carrying("a", ["a"], hash)];
      && DistinctIds(docs)
      && Clustered(docs, SimHashLinks(docs, hash, threshold), hash, tag, [0], docs)
      && docs[0].id in Members(docs[0])
  {
    var docs := [Carrying("a", ["a"], hash)];
    NothingNear(docs, hash, threshold, tag);
    assert Indices(1) == [0];
    assert Members(docs[0])[0] == "a";
  }
}
