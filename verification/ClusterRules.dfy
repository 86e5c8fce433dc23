/** What internal/synthcluster/cluster.go delivers, written out against the fields of the documents: which pairs are
    linked, which document represents a cluster, and what it carries. */
module ClusterRules {
  import opened Prelude
  import opened Graph
  import opened SimHash
  import opened Sorting
  import opened Clustering
  import opened ClusterLinks

  // ---------- which document represents a cluster ----------

  /** Higher score first, then later publication, then longer body, then smaller id. */
  predicate RanksAtLeast(r: Doc, d: Doc) {
    && r.score >= d.score
    && (r.score == d.score ==> r.publishedAt >= d.publishedAt)
    && (r.score == d.score && r.publishedAt == d.publishedAt ==> |r.body| >= |d.body|)
    && (r.score == d.score && r.publishedAt == d.publishedAt && |r.body| == |d.body| ==> !Less(d.id, r.id))
  }

  /** No document of a cluster ranks before its representative. */
  lemma RepresentativeRanksFirst(
    docs: seq<Doc>, links: Edges, hash: Hash, tag: string, winners: seq<nat>, reps: seq<Doc>, k: nat, i: nat)
    requires Clustered(docs, links, hash, tag, winners, reps)
    requires k < |reps| && i < |docs| && Connected(links, winners[k], i)
    ensures RanksAtLeast(reps[k], docs[i])
  {
    assert Represents(docs, hash, tag, Component(links, |docs|, winners[k]), winners[k], reps[k]);
    assert i in Component(links, |docs|, winners[k]);
    hide Connected, Component, Clustered, Sorted, BetterRep;
    BetterRanksAtLeast(docs[winners[k]], docs[i]);
  }

  /** The comparison of two candidates: one replaces the other exactly when it is not ranked at least as high by it. */
  lemma BetterRepIff(a: Doc, b: Doc)
    ensures BetterRep(a, b) <==> !RanksAtLeast(b, a)
    ensures RanksAtLeast(a, a) && (RanksAtLeast(a, b) || RanksAtLeast(b, a))
  {
    LessIrreflexive(a.id);
    LessTotal(a.id, b.id);
    if Less(a.id, b.id) && Less(b.id, a.id) {
      LessTransitive(a.id, b.id, a.id);
    }
  }

  lemma BetterRanksAtLeast(a: Doc, b: Doc)
    requires a == b || BetterRep(a, b) || !BetterRep(b, a)
    ensures RanksAtLeast(a, b)
  {
    BetterRepIff(a, b);
    BetterRepIff(b, a);
  }

  /** The text a document is fingerprinted and embedded by. */
  function Content(d: Doc): string {
    d.title + "\n" + d.body
  }

  /** A lone document is passed through as it is. */
  lemma LoneRepresentative(
    docs: seq<Doc>, links: Edges, hash: Hash, tag: string, winners: seq<nat>, reps: seq<Doc>, k: nat)
    requires Clustered(docs, links, hash, tag, winners, reps) && k < |reps|
    requires forall i: nat :: i < |docs| && Connected(links, winners[k], i) ==> i == winners[k]
    ensures reps[k] == docs[winners[k]]
  {
    ConnectedRefl(links, winners[k]);
    assert Component(links, |docs|, winners[k]) == {winners[k]};
  }

  /** Any other representative is a document of the cluster with one metadata entry more or replaced: schema version,
      the sorted ids of all the others, its fingerprint, the mode, and the size of the cluster. */
  lemma SharedRepresentative(
    docs: seq<Doc>, links: Edges, hash: Hash, tag: string, winners: seq<nat>, reps: seq<Doc>, k: nat, i: nat)
      returns (members: seq<string>)
    requires Clustered(docs, links, hash, tag, winners, reps) && k < |reps|
    requires i < |docs| && i != winners[k] && Connected(links, winners[k], i)
    ensures
      var w, size := winners[k], |Component(links, |docs|, winners[k])|;
      && w < |docs| && size >= 2 && |members| == size - 1
      && reps[k] == docs[w].(metadata := docs[w].metadata["spec_syn003_cluster" :=
                               ClusterMeta(1, members, hash(Content(docs[w])), tag, size)])
    ensures forall id ::
        (id in members
         <==> exists j: nat :: j < |docs| && j != winners[k] && Connected(links, winners[k], j) && docs[j].id == id)
    ensures forall a, b :: 0 <= a < b < |members| ==> !Less(members[b], members[a])
  {
    var w, s := winners[k], Component(links, |docs|, winners[k]);
    assert Represents(docs, hash, tag, s, w, reps[k]);
    ConnectedRefl(links, w);
    SubsetSize({w, i}, s);
    members := Members(reps[k]);
    IdsOfSize(docs, s - {w}, |docs|);
    assert |multiset(members)| == |s| - 1;
    forall id
      ensures id in members
         <==> exists j: nat :: j < |docs| && j != w && Connected(links, w, j) && docs[j].id == id
    {
      IdsOfHolds(docs, s - {w}, |docs|, id);
      assert id in members <==> id in multiset(members);
      assert forall j: nat :: j in s - {w} <==> j < |docs| && j != w && Connected(links, w, j);
    }
  }

  lemma {:induction false} IdsOfSize(docs: seq<Doc>, s: set<nat>, n: nat)
    requires n <= |docs| && forall i :: i in s ==> i < n
    ensures |IdsOf(docs, s, n)| == |s|
  {
    if n > 0 {
      IdsOfSize(docs, s - {n - 1}, n - 1);
      IdsOfSkips(docs, s, n - 1, n - 1);
      assert n - 1 in s ==> s == (s - {n - 1}) + {n - 1};
      assert n - 1 !in s ==> s == s - {n - 1};
    }
  }

  lemma {:induction false} IdsOfSkips(docs: seq<Doc>, s: set<nat>, i: nat, n: nat)
    requires n <= i < |docs|
    ensures IdsOf(docs, s, n) == IdsOf(docs, s - {i}, n)
  {
    if n > 0 {
      IdsOfSkips(docs, s, i, n - 1);
    }
  }

  lemma {:induction false} IdsOfHolds(docs: seq<Doc>, s: set<nat>, n: nat, id: string)
    requires n <= |docs|
    ensures id in IdsOf(docs, s, n) <==> exists i :: i in s && i < n && docs[i].id == id
  {
    if n > 0 {
      IdsOfHolds(docs, s, n - 1, id);
    }
  }

  /** The representatives come in the order of their ids. */
  lemma RepresentativesInOrder(
    docs: seq<Doc>, links: Edges, hash: Hash, tag: string, winners: seq<nat>, reps: seq<Doc>, j: nat, k: nat)
    requires Clustered(docs, links, hash, tag, winners, reps) && j < k < |reps|
    ensures !Less(reps[k].id, reps[j].id)
  {
    assert !ById(reps[k], reps[j]);
  }

  // ---------- which pairs are linked ----------

  /** Outside hybrid mode, two documents are linked exactly when the fingerprints of their contents differ in at most
      the configured number of bits, 4 if none is configured. */
  lemma SimHashRule(docs: seq<Doc>, options: Options, hash: Hash, i: nat, j: nat)
    requires options.mode != "hybrid"
    ensures !FinalLinks(docs, WithDefaults(options), hash).fallback
    ensures Adjacent(FinalLinks(docs, WithDefaults(options), hash).links, i, j)
       <==> && i < |docs| && j < |docs| && i != j
            && |set b: nat | b < 64 && hash(Content(docs[i]))[b] != hash(Content(docs[j]))[b]|
                 <= if options.hammingThreshold == 0 then 4 else options.hammingThreshold
  {
    SimHashAdjacent(docs, hash, WithDefaults(options).hammingThreshold, i, j);
    if i < |docs| && j < |docs| {
      DistanceCountsBits(hash(Content(docs[i])), hash(Content(docs[j])));
    }
  }

  /** The links hybrid mode starts from. */
  ghost function Candidates(docs: seq<Doc>, options: Options, hash: Hash): Edges {
    FinalLinks(docs, WithDefaults(options.(mode := "simhash_only")), hash).links
  }

  /** In hybrid mode with an embedder that answers, a pair is linked exactly when it was connected before and the
      vectors of the two contents reach the configured cosine, 0.92 if none is configured. */
  lemma HybridRule(docs: seq<Doc>, options: Options, hash: Hash, vector: string -> Vector, i: nat, j: nat)
    requires options.mode == "hybrid" && AnswersPointwise(options.embedder, vector) && IsSymmetric(options.cosine)
    ensures !FinalLinks(docs, WithDefaults(options), hash).fallback
    ensures Adjacent(FinalLinks(docs, WithDefaults(options), hash).links, i, j)
       <==> && i < |docs| && j < |docs| && i != j && Connected(Candidates(docs, options, hash), i, j)
            && options.cosine(vector(Content(docs[i])), vector(Content(docs[j])))
                 >= if options.cosineThreshold == 0.0 then 0.92 else options.cosineThreshold
  {
    HybridAdjacent(docs, WithDefaults(options), hash, vector, i, j);
  }

  /** A pass falls back exactly in hybrid mode, when there is no embedder, or when some pair is to be rechecked and the
      call fails; the links then stay those of the fingerprints. */
  lemma FallbackRule(docs: seq<Doc>, options: Options, hash: Hash)
    ensures
      var links, n := Candidates(docs, options, hash), |docs|;
      FinalLinks(docs, WithDefaults(options), hash).fallback
      <==> && options.mode == "hybrid"
           && (|| options.embedder.NoEmbedder?
               || (&& (exists i: nat, j: nat :: i < n && j < n && i != j && Connected(links, i, j))
                   && options.embedder.embed(TextsOf(docs, Participants(links, n, n))) == None))
    ensures FinalLinks(docs, WithDefaults(options), hash).fallback ==>
        FinalLinks(docs, WithDefaults(options), hash).links == Candidates(docs, options, hash)
  {
    var links, n := Candidates(docs, options, hash), |docs|;
    var list := Participants(links, n, n);
    if i: nat, j: nat :| i < n && j < n && i != j && Connected(links, i, j) {
      PairIsCandidate(links, n, i, j);
      assert list != [];
    }
    if list != [] {
      var i := list[0];
      assert i in list;
      SecondMember(links, n, i);
    }
  }

  lemma SecondMember(links: Edges, n: nat, i: nat)
    requires i < n && |Component(links, n, i)| >= 2
    ensures exists j: nat :: j < n && i != j && Connected(links, i, j)
  {
    var s := Component(links, n, i);
    if s <= {i} {
      SubsetSize(s, {i});
    }
    var j :| j in s && j != i;
    assert Connected(links, i, j);
  }

  /** Whatever the embedder answers, a rechecked pair needs both vectors: the p-th answer belongs to the p-th document,
      in input order, that shares its fingerprint cluster with another, and documents beyond the answer have none. */
  lemma AnswerRule(docs: seq<Doc>, options: Options, hash: Hash, dense: seq<Vector>, i: nat, j: nat)
    requires options.mode == "hybrid" && options.embedder.Embedder? && i < j < |docs|
    requires
      var links, n := Candidates(docs, options, hash), |docs|;
      Participants(links, n, n) != [] && options.embedder.embed(TextsOf(docs, Participants(links, n, n))) == Some(dense)
    ensures
      var links, n := Candidates(docs, options, hash), |docs|;
      var list := Participants(links, n, n);
      Adjacent(FinalLinks(docs, WithDefaults(options), hash).links, i, j)
      <==> && Connected(links, i, j)
           && exists p, q :: (0 <= p < |list| && 0 <= q < |list| && p < |dense| && q < |dense|
                && list[p] == i && list[q] == j
                && options.cosine(dense[p], dense[q])
                     >= if options.cosineThreshold == 0.0 then 0.92 else options.cosineThreshold)
  {
    var links, n := Candidates(docs, options, hash), |docs|;
    var list := Participants(links, n, n);
    VectorAt(list, dense, |list|, i);
    VectorAt(list, dense, |list|, j);
    var o := WithDefaults(options);
    var vectors := VectorsFor(list, dense, |list|);
    hide Candidates, Participants, VectorsFor, SimHashLinks;
    assert FinalLinks(docs, o, hash).links == AllPairs(Confirmed(links, vectors, o), n);
  }

  lemma {:induction false} VectorAt(list: seq<nat>, dense: seq<Vector>, k: nat, i: nat)
    requires k <= |list| && forall x, y :: 0 <= x < y < |list| ==> list[x] < list[y]
    ensures i in VectorsFor(list, dense, k) <==> exists p :: 0 <= p < k && p < |dense| && list[p] == i
    ensures forall p :: 0 <= p < k && p < |dense| && list[p] == i ==>
        i in VectorsFor(list, dense, k) && VectorsFor(list, dense, k)[i] == dense[p]
  {
    if k > 0 {
      VectorAt(list, dense, k - 1, i);
    }
  }
}
