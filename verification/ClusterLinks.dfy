/** Which pairs of documents end up linked, read off the documents alone. */
module ClusterLinks {
  import opened Prelude
  import opened Graph
  import opened SimHash
  import opened Sorting
  import opened Clustering

  predicate Near(hash: Hash, threshold: int, a: Doc, b: Doc) {
    HammingDistance(hash(Text(a)), hash(Text(b))) <= threshold
  }

  lemma SimHashAdjacent(docs: seq<Doc>, hash: Hash, threshold: int, i: nat, j: nat)
    ensures Adjacent(SimHashLinks(docs, hash, threshold), i, j)
       <==> i < |docs| && j < |docs| && i != j && Near(hash, threshold, docs[i], docs[j])
  {
    if i < |docs| && j < |docs| {
      HammingMetric(hash(Text(docs[i])), hash(Text(docs[j])), hash(Text(docs[j])));
    }
  }

  // ---------- the diameter of a SimHash cluster ----------

  lemma {:induction false} WalkDistance(docs: seq<Doc>, hash: Hash, threshold: int, walk: seq<nat>, i: nat, j: nat)
    requires i < |docs| && j < |docs| && IsWalk(SimHashLinks(docs, hash, threshold), walk, i, j)
    ensures HammingDistance(hash(Text(docs[i])), hash(Text(docs[j]))) <= threshold * (|walk| - 1)
    ensures |walk| > 1 ==> threshold >= 0
    decreases |walk|
  {
    var links := SimHashLinks(docs, hash, threshold);
    var a, c := hash(Text(docs[i])), hash(Text(docs[j]));
    if |walk| == 1 {
      HammingMetric(a, c, c);
    } else {
      var m := |walk| - 1;
      SimHashAdjacent(docs, hash, threshold, walk[m - 1], j);
      assert Adjacent(links, walk[m - 1], walk[m]);
      var b := hash(Text(docs[walk[m - 1]]));
      assert IsWalk(links, walk[..m], i, walk[m - 1]);
      WalkDistance(docs, hash, threshold, walk[..m], i, walk[m - 1]);
      HammingMetric(a, b, c);
      assert threshold * m == threshold * (m - 1) + threshold;
    }
  }

  lemma ScaleUp(t: int, k: int, m: int)
    requires 0 <= k <= m && (k > 0 ==> t >= 0) && (m > 0 ==> k > 0 || t >= 0)
    ensures t * k <= t * m
  {
    if t >= 0 {
      assert t * m - t * k == t * (m - k);
    }
  }

  /** Any two documents of one SimHash cluster of size m are within threshold * (m - 1) bits of each other. */
  lemma ClusterDiameter(docs: seq<Doc>, hash: Hash, threshold: int, i: nat, j: nat)
    requires i < |docs| && j in Component(SimHashLinks(docs, hash, threshold), |docs|, i)
    ensures HammingDistance(hash(Text(docs[i])), hash(Text(docs[j])))
         <= threshold * (|Component(SimHashLinks(docs, hash, threshold), |docs|, i)| - 1)
  {
    var links := SimHashLinks(docs, hash, threshold);
    var s := Component(links, |docs|, i);
    var w :| IsWalk(links, w, i, j);
    var simple := SimpleWalk(links, w, i, j);
    WalkStaysInside(links, simple, i, j);
    forall k | 0 <= k < |simple|
      ensures simple[k] in s
    {
      if k > 0 {
        assert Adjacent(links, simple[k - 1], simple[k]);
        SimHashAdjacent(docs, hash, threshold, simple[k - 1], simple[k]);
      }
    }
    var visited := set k | 0 <= k < |simple| :: simple[k];
    DistinctImage(simple);
    SubsetSize(visited, s);
    WalkDistance(docs, hash, threshold, simple, i, j);
    if |s| > 1 && |simple| == 1 {
      SomeEdge(docs, hash, threshold, i);
    }
    ScaleUp(threshold, |simple| - 1, |s| - 1);
  }

  /** A cluster of two or more needs an edge, so a threshold that some pair meets. */
  lemma SomeEdge(docs: seq<Doc>, hash: Hash, threshold: int, i: nat)
    requires i < |docs| && |Component(SimHashLinks(docs, hash, threshold), |docs|, i)| > 1
    ensures threshold >= 0
  {
    var links := SimHashLinks(docs, hash, threshold);
    var s := Component(links, |docs|, i);
    if s <= {i} {
      SubsetSize(s, {i});
    }
    var x :| x in s && x != i;
    var w :| IsWalk(links, w, i, x);
    WalkDistance(docs, hash, threshold, w, i, x);
  }

  // ---------- hybrid mode ----------

  /** An embedder that answers every call, with a vector that depends on the text alone. */
  ghost predicate AnswersPointwise(e: Embedder, vector: string -> Vector) {
    && e.Embedder?
    && forall texts: seq<string> :: e.embed(texts) == Some(seq(|texts|, k requires 0 <= k < |texts| => vector(texts[k])))
  }

  ghost predicate IsSymmetric(cosine: (Vector, Vector) -> real) {
    forall v, w :: cosine(v, w) == cosine(w, v)
  }

  lemma {:induction false} VectorsForMeaning(docs: seq<Doc>, list: seq<nat>, dense: seq<Vector>, vector: string -> Vector, k: nat)
    requires k <= |list| == |dense|
    requires forall i :: i in list ==> i < |docs|
    requires forall m :: 0 <= m < |list| ==> list[m] < |docs| && dense[m] == vector(Text(docs[list[m]]))
    ensures forall i :: i in VectorsFor(list, dense, k) <==> i in list[..k]
    ensures forall i :: i in VectorsFor(list, dense, k) ==> i < |docs| && VectorsFor(list, dense, k)[i] == vector(Text(docs[i]))
  {
    if k > 0 {
      VectorsForMeaning(docs, list, dense, vector, k - 1);
      assert list[..k] == list[..k - 1] + [list[k - 1]];
      assert list[k - 1] in list && dense[k - 1] == vector(Text(docs[list[k - 1]]));
    }
  }

  /** Two documents of one component make it a component of two. */
  lemma PairIsCandidate(links: Edges, n: nat, i: nat, j: nat)
    requires i < n && j < n && i != j && Connected(links, i, j)
    ensures |Component(links, n, i)| >= 2 && |Component(links, n, j)| >= 2
  {
    ConnectedRefl(links, i);
    SubsetSize({i, j}, Component(links, n, i));
    ComponentsAgree(links, n, i, j);
  }

  /** The vectors an answering embedder supplies: one for every candidate. */
  lemma HybridVectors(docs: seq<Doc>, o: Options, hash: Hash, vector: string -> Vector) returns (vectors: map<nat, Vector>)
    requires o.mode == HYBRID && AnswersPointwise(o.embedder, vector)
    ensures !FinalLinks(docs, o, hash).fallback
    ensures
      var links, n := SimHashLinks(docs, hash, o.hammingThreshold), |docs|;
      var list := Participants(links, n, n);
      && FinalLinks(docs, o, hash).links == (if list == [] then links else AllPairs(Confirmed(links, vectors, o), n))
      && (forall i :: i in vectors <==> i in list)
      && (forall i :: i in vectors ==> i < n && vectors[i] == vector(Text(docs[i])))
  {
    hide SimHashLinks, AllPairs, Confirmed, Participants, Component, VectorsFor;
    var links, n := SimHashLinks(docs, hash, o.hammingThreshold), |docs|;
    var list := Participants(links, n, n);
    var texts := TextsOf(docs, list);
    var dense := seq(|texts|, k requires 0 <= k < |texts| => vector(texts[k]));
    assert o.embedder.embed(texts) == Some(dense);
    forall m | 0 <= m < |list|
      ensures list[m] < |docs| && dense[m] == vector(Text(docs[list[m]]))
    {
      assert list[m] in list;
    }
    VectorsForMeaning(docs, list, dense, vector, |list|);
    assert list[..|list|] == list;
    vectors := VectorsFor(list, dense, |list|);
  }

  /** With an embedder that answers, hybrid mode links exactly the connected pairs whose vectors are close. */
  lemma HybridAdjacent(docs: seq<Doc>, o: Options, hash: Hash, vector: string -> Vector, i: nat, j: nat)
    requires o.mode == HYBRID && AnswersPointwise(o.embedder, vector) && IsSymmetric(o.cosine)
    ensures !FinalLinks(docs, o, hash).fallback
    ensures Adjacent(FinalLinks(docs, o, hash).links, i, j)
       <==> && i < |docs| && j < |docs| && i != j
            && Connected(SimHashLinks(docs, hash, o.hammingThreshold), i, j)
            && o.cosine(vector(Text(docs[i])), vector(Text(docs[j]))) >= o.cosineThreshold
  {
    hide FinalLinks, Component;
    var links, n := SimHashLinks(docs, hash, o.hammingThreshold), |docs|;
    var vectors := HybridVectors(docs, o, hash, vector);
    var list := Participants(links, n, n);
    if i < n && j < n && i != j && Connected(links, i, j) {
      PairIsCandidate(links, n, i, j);
      ConnectedSym(links, i, j);
    }
    if Connected(links, j, i) {
      ConnectedSym(links, j, i);
    }
    SimHashAdjacent(docs, hash, o.hammingThreshold, i, j);
    if Adjacent(links, i, j) {
      ConnectedEdge(links, i, j);
    }
  }

  /** Hybrid refinement only splits: whatever the embedder answers, documents it leaves together were together
      after SimHash. */
  lemma HybridOnlySplits(docs: seq<Doc>, o: Options, hash: Hash, i: nat, j: nat)
    requires Connected(FinalLinks(docs, o, hash).links, i, j)
    ensures Connected(SimHashLinks(docs, hash, o.hammingThreshold), i, j)
  {
    var coarse, fine := SimHashLinks(docs, hash, o.hammingThreshold), FinalLinks(docs, o, hash).links;
    forall e | e in fine
      ensures Connected(coarse, e.0, e.1)
    {
      if e in coarse {
        ConnectedEdge(coarse, e.0, e.1);
      }
    }
    ConnectedRefines(fine, coarse, i, j);
  }
}
