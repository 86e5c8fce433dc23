/** What one clustering pass of internal/synthcluster/cluster.go has to deliver, as predicates over its input. A
    character of a string stands for one byte, as Go's len and `<` see it. */
module Clustering {
  import opened Prelude
  import opened Graph
  import opened SimHash
  import opened Sorting

  type Vector = seq<real>
  type Hash = string -> Fingerprint

  datatype MetaValue =
    | ClusterMeta(schemaVersion: nat, members: seq<string>, simhash: Fingerprint, dedupMode: string, clusterSize: nat)
    | Other(text: string)

  datatype Doc = Doc(
    id: string, title: string, body: string, score: real, publishedAt: int, metadata: map<string, MetaValue>)

  /** No embedder configured, or one request-response call; None is any embedding error. */
  datatype Embedder = NoEmbedder | Embedder(embed: seq<string> -> Option<seq<Vector>>)

  datatype Options = Options(
    mode: string, hammingThreshold: int, cosineThreshold: real, embedder: Embedder,
    cosine: (Vector, Vector) -> real)

  datatype Stats = Stats(
    inputDocs: nat, outputDocs: nat, clustersFormed: nat, docsCollapsed: nat, embeddingFallback: bool, mode: string)

  const SIMHASH_ONLY := "simhash_only"
  const HYBRID := "hybrid"
  const OFF := "off"
  const CLUSTER_KEY := "spec_syn003_cluster"

  function WithDefaults(o: Options): Options {
    o.(
      hammingThreshold := if o.hammingThreshold == 0 then 4 else o.hammingThreshold,
      cosineThreshold := if o.cosineThreshold == 0.0 then 0.92 else o.cosineThreshold,
      mode := if o.mode == "" then SIMHASH_ONLY else o.mode
    )
  }

  function Text(d: Doc): string {
    d.title + "\n" + d.body
  }

  predicate ById(a: Doc, b: Doc) {
    Less(a.id, b.id)
  }

  predicate BetterRep(candidate: Doc, current: Doc) {
    if candidate.score != current.score then candidate.score > current.score
    else if candidate.publishedAt != current.publishedAt then candidate.publishedAt > current.publishedAt
    else if |candidate.body| != |current.body| then |candidate.body| > |current.body|
    else Less(candidate.id, current.id)
  }

  lemma BetterRepIsWeakOrder()
    ensures IsWeakOrder(BetterRep)
  {
    LessIsStrictTotal();
  }

  lemma ByIdIsWeakOrder()
    ensures IsWeakOrder(ById)
  {
    LessIsStrictTotal();
  }

  lemma LessIsWeakOrder()
    ensures IsWeakOrder(Less) && IsTotal(Less)
  {
    LessIsStrictTotal();
  }

  // ---------- which documents are joined ----------

  /** All pairs a < b < n in relation, in the order the double loops reach them, up to row i, column j. */
  ghost function PairsBefore(related: (nat, nat) -> bool, n: nat, i: nat, j: nat): Edges {
    set a: nat, b: nat | a < b < n && (a < i || (a == i && b < j)) && related(a, b) :: (a, b)
  }

  ghost function AllPairs(related: (nat, nat) -> bool, n: nat): Edges {
    PairsBefore(related, n, n, 0)
  }

  ghost function NearDuplicates(docs: seq<Doc>, hash: Hash, threshold: int): (nat, nat) -> bool {
    (a: nat, b: nat) => a < |docs| && b < |docs|
        && HammingDistance(hash(Text(docs[a])), hash(Text(docs[b]))) <= threshold
  }

  ghost function SimHashLinks(docs: seq<Doc>, hash: Hash, threshold: int): Edges {
    AllPairs(NearDuplicates(docs, hash, threshold), |docs|)
  }

  /** The documents below `k` that share their SimHash component with another document. */
  ghost function Participants(links: Edges, n: nat, k: nat): (list: seq<nat>)
    ensures forall i :: i in list <==> 0 <= i < k && |Component(links, n, i)| >= 2
    ensures forall x, y :: 0 <= x < y < |list| ==> list[x] < list[y]
  {
    if k == 0 then [] else
      var list := Participants(links, n, k - 1);
      assert forall x :: 0 <= x < |list| ==> list[x] in list;
      if |Component(links, n, k - 1)| >= 2 then list + [k - 1] else list
  }

  function TextsOf(docs: seq<Doc>, list: seq<nat>): (texts: seq<string>)
    requires forall i :: i in list ==> i < |docs|
    ensures |texts| == |list|
  {
    seq(|list|, k requires 0 <= k < |list| => assert list[k] in list; Text(docs[list[k]]))
  }

  /** The k-th answered vector belongs to the k-th participant; a short answer leaves the rest without one. */
  ghost function VectorsFor(list: seq<nat>, dense: seq<Vector>, k: nat): (vectors: map<nat, Vector>)
    requires k <= |list|
  {
    if k == 0 then map[]
    else if k - 1 < |dense| then VectorsFor(list, dense, k - 1)[list[k - 1] := dense[k - 1]]
    else VectorsFor(list, dense, k - 1)
  }

  ghost function Confirmed(links: Edges, vectors: map<nat, Vector>, o: Options): (nat, nat) -> bool {
    (a: nat, b: nat) => Connected(links, a, b) && a in vectors && b in vectors
        && o.cosine(vectors[a], vectors[b]) >= o.cosineThreshold
  }

  datatype Refinement = Refinement(links: Edges, fallback: bool)

  ghost function Refine(docs: seq<Doc>, o: Options, links: Edges): Refinement {
    var list := Participants(links, |docs|, |docs|);
    match o.embedder
    case NoEmbedder => Refinement(links, true)
    case Embedder(embed) =>
      if list == [] then Refinement(links, false)
      else match embed(TextsOf(docs, list))
        case None => Refinement(links, true)
        case Some(dense) =>
          Refinement(AllPairs(Confirmed(links, VectorsFor(list, dense, |list|), o), |docs|), false)
  }

  /** The links that decide the clusters, after the optional hybrid refinement. */
  ghost function FinalLinks(docs: seq<Doc>, o: Options, hash: Hash): Refinement {
    var links := SimHashLinks(docs, hash, o.hammingThreshold);
    if o.mode == HYBRID then Refine(docs, o, links) else Refinement(links, false)
  }

  // ---------- what a cluster turns into ----------

  function Members(d: Doc): seq<string> {
    if CLUSTER_KEY in d.metadata && d.metadata[CLUSTER_KEY].ClusterMeta? then d.metadata[CLUSTER_KEY].members else []
  }

  function Annotate(d: Doc, hash: Hash, tag: string, members: seq<string>, size: nat): Doc {
    d.(metadata := d.metadata[CLUSTER_KEY := ClusterMeta(1, members, hash(Text(d)), tag, size)])
  }

  /** The ids of the documents in `s` with index below `n`. */
  function IdsOf(docs: seq<Doc>, s: set<nat>, n: nat): multiset<string>
    requires n <= |docs|
  {
    if n == 0 then multiset{}
    else IdsOf(docs, s, n - 1) + if n - 1 in s then multiset{docs[n - 1].id} else multiset{}
  }

  lemma Exchange<T>(a: multiset<T>, b: multiset<T>, c: multiset<T>, d: multiset<T>)
    ensures (a + b) + (c + d) == (a + c) + (b + d)
  {
  }

  lemma {:induction false} IdsOfUnion(docs: seq<Doc>, s: set<nat>, t: set<nat>, n: nat)
    requires n <= |docs| && s !! t
    ensures IdsOf(docs, s + t, n) == IdsOf(docs, s, n) + IdsOf(docs, t, n)
  {
    if n > 0 {
      IdsOfUnion(docs, s, t, n - 1);
      var own := multiset{docs[n - 1].id};
      Exchange(IdsOf(docs, s, n - 1), IdsOf(docs, t, n - 1),
        if n - 1 in s then own else multiset{}, if n - 1 in t then own else multiset{});
    }
  }

  lemma {:induction false} IdsOfSingle(docs: seq<Doc>, i: nat, n: nat)
    requires n <= |docs| && i < |docs|
    ensures IdsOf(docs, {i}, n) == if i < n then multiset{docs[i].id} else multiset{}
  {
    if n > 0 {
      IdsOfSingle(docs, i, n - 1);
    }
  }

  lemma {:induction false} IdsOfEmpty(docs: seq<Doc>, n: nat)
    requires n <= |docs|
    ensures IdsOf(docs, {}, n) == multiset{}
  {
    if n > 0 {
      IdsOfEmpty(docs, n - 1);
    }
  }

  /** `b` beats every other document of `s`; among full ties the earlier document wins. */
  ghost predicate IsBest(docs: seq<Doc>, s: set<nat>, b: nat) {
    && b in s
    && (forall i :: i in s ==> i < |docs|)
    && (forall i :: i in s && i != b ==>
          BetterRep(docs[b], docs[i]) || (!BetterRep(docs[i], docs[b]) && b < i))
  }

  /** `d` stands for the cluster `s` whose best document is `b`: a lone document is passed through untouched, any
      other is annotated with the sorted ids of all the rest. */
  ghost predicate Represents(docs: seq<Doc>, hash: Hash, tag: string, s: set<nat>, b: nat, d: Doc) {
    && IsBest(docs, s, b)
    && if |s| == 1 then d == docs[b]
       else
         && d == Annotate(docs[b], hash, tag, Members(d), |s|)
         && Sorted(Less, Members(d))
         && multiset(Members(d)) == IdsOf(docs, s - {b}, |docs|)
  }

  ghost predicate IsCovered(links: Edges, winners: seq<nat>, i: nat) {
    exists k :: 0 <= k < |winners| && Connected(links, i, winners[k])
  }

  /** `reps`, sorted by id, holds one representative for each component of the link graph and nothing else;
      `winners` says which input document each one is. */
  ghost predicate Clustered(
    docs: seq<Doc>, links: Edges, hash: Hash, tag: string, winners: seq<nat>, reps: seq<Doc>)
  {
    && |winners| == |reps|
    && (forall k :: 0 <= k < |reps| ==> winners[k] < |docs|)
    && (forall k :: 0 <= k < |reps| ==>
          Represents(docs, hash, tag, Component(links, |docs|, winners[k]), winners[k], reps[k]))
    && (forall j, k :: 0 <= j < k < |reps| ==> !Connected(links, winners[j], winners[k]))
    && (forall i: nat :: i < |docs| ==> IsCovered(links, winners, i))
    && Sorted(ById, reps)
  }

  /** The representatives that stand for two documents or more. */
  ghost function LargeClusters(docs: seq<Doc>, links: Edges, winners: seq<nat>): set<nat> {
    set w | w in winners && |Component(links, |docs|, w)| >= 2
  }
}
