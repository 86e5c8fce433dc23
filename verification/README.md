# Search orchestrator: verified model

A Dafny model of the parts of the search orchestrator whose correctness is more than plumbing: near-duplicate
clustering of documents, the budgeted research tree, the server-sent-event writer and parser, the time-bounded request
cache, the circuit breaker, the fan-out assembly, and five smaller cores (sentence segmentation and citation filtering,
the audit hash chain, reciprocal rank fusion, the two rate gates). Code that changes state in place is modelled by
classes, arrays and loops, each proved against a specification function or predicate; the properties are then proved of
those specifications for every input, every interleaving or every run.

| files | component |
|---|---|
| `UnionFind`, `Graph`, `SimHash`, `Clustering`, `Cluster`, `ClusterLinks`, `ClusterRules`, `ClusterProperties`, `ClusterDeterminism`, `ClusterWitness` | `internal/synthcluster` |
| `Budget`, `Tree`, `TreeLedger`, `TreeShape`, `TreeCap`, `TreeOutcomes`, `ExpandTree`, `Sums` | `internal/deepagent` |
| `Sse`, `SseRules`, `SseRoundTrip` | `internal/sse/writer.go`, `internal/synthesis/stream.go` |
| `RequestLru`, `LruRuns` | `internal/idx5/feedback.go` |
| `Breaker`, `Spacing` | `internal/llm/router.go` |
| `Fanout` | `internal/fanout` |
| `Sentences`, `Citations` | `internal/streamsynth/streamsynth.go` |
| `AuditChain`, `RankFusion`, `RateGates` | `internal/audit/chain.go`, `internal/index/rrf.go`, `internal/auth/callback.go` and `internal/adapters/arxiv/search.go` |
| `Prelude`, `Sorting` | shared: string order, sorting and the uniqueness of its results |

Conventions:

- Fingerprints, embeddings, the cosine, SHA-256, the dedup key and JSON encodings are arbitrary functions, passed as
  parameters. Scores, weights and prices are `real`, times and token counts unbounded `int`. Go strings are sequences
  of characters: of bytes in the clustering and event-stream modules, of code points in the sentence modules.
- A lock makes its critical section one step. Goroutines of one level of the tree, workers of one fan-out and the order
  in which Go walks a map are nondeterministic choices; what is proved holds for all of them.
- `Clustered(docs, links, hash, tag, winners, reps)` is the contract of one clustering pass: `reps` is sorted by id and
  holds exactly one representative per connected component of `links`; that is what `Cluster.Cluster` delivers and what
  conservation, determinism and idempotence are derived from.
- Where a method and its specification share a comparison or an arithmetic rule, a lemma pins that rule to the fields of
  the data: what ranks first (`RepresentativeRanksFirst`), what a breaker counts (`TripsIff`), the order of a fan-out
  (`InResultOrder`), the formula of the fusion (`IsRanking`), the outcome a node of the tree holds
  (`OutcomesInEveryRun`), the event a block of lines stands for (`BlockIsEvent`).
- `Execute(cfg, query, events)` is the state of the tree after a run of atomic steps, or None if some step was not
  possible; a lemma about it is a lemma about every reachable state. `ExpandTrees.ExpandTree` only ever produces such runs.

Where the code falls short of what its comments promise, the model keeps the code, a lemma shows the failing input, and
another states exactly when the promise is kept:

- Every input id exactly once (`cluster.go:28`): broken when two documents share an id, or when a document that stays
  alone brings along a member list of an earlier pass that names an input id (`StaleListDoublesAnId`); kept exactly when
  neither is the case (`InputIdsOnceIff`). As multisets, ids are conserved exactly when no lone document brings any list
  along (`StaleListBreaksConservation`, `IdsConservedIff`).
- No representative lists itself (`cluster.go:29`): with distinct ids, broken by a lone document whose list names itself
  (`OwnListBreaksPromise`) and by nothing else (`NoOwnMembersIff`).
- The token ledger counts spent tokens twice when it decides on admission, because a release gives back only
  `reserved - actual`. A child that fits is refused (`RetainedTokensRefuse`) exactly when what finished nodes retain
  pushes it over the budget (`RefusedAlthoughItFits`). The budget itself is never exceeded by it.
- The structural cap counts finished nodes only. It is kept in all runs in which a decomposition returns at most m
  sub-queries if and only if m is at most the breadth, or the root cannot be paid for (`CapKeptIff`); one sub-query more
  per node passes it by `breadth^(depth - 1)` (`CapOverrun`). The researcher service truncates its answers to the
  breadth (`services/researcher/src/researcher/deep_tree.py:131-137`); the Go side does not check them.
- Truncating the frontier under memory pressure changes nothing (`TruncationIsIdle`).
- The parser swallows leading newlines of the data, and carriage returns at line ends; `RoundTripIff` states exactly
  what comes back.
- The limiter, described as a sliding window (`callback.go:9`), counts per fixed window in memory. In one window length
  it can let through `2 * limit - 1` requests, and never more (`RateBound`, `RateBoundIsReached`); `SlidingWindowIff`
  lists the configurations that do keep a sliding window.
- Rank fusion is documented as deterministic. In exact arithmetic ids, scores and order are
  (`RankingIsDeterministic`); the document attached to an id is not (`PayloadDependsOnOrder`). The whole result is
  independent of the map order if and only if the stores that list an id agree on its document (`DeterministicIff`).
- The audit chain never looks at a row's own `prevHash`, and does not notice rows cut off its end (`UndetectedChanges`).

## Model

| member | source | states |
|---|---|---|
| UnionFinds.UnionFind.constructor | internal/synthcluster/unionfind.go:14-21 | every element starts as its own set, of rank 0, with no links requested |
| UnionFinds.UnionFind.Find | internal/synthcluster/unionfind.go:24-31 | path halving changes no root and no requested link, returns the root, and climbs at most log2(n) steps |
| UnionFinds.UnionFind.Union | internal/synthcluster/unionfind.go:35-50 | afterwards two elements have one root exactly when the requested links, with the new one, connect them; answers whether the two were unconnected before |
| UnionFinds.UnionFind.AreConnected | internal/synthcluster/unionfind.go:53-55 | true exactly when a path of requested links joins the two; changes no set |
| UnionFinds.UnionFind.Groups | internal/synthcluster/unionfind.go:58-65 | one entry per root, holding exactly the elements of its set in ascending order |
| UnionFinds.HalvingKeepsForest | internal/synthcluster/unionfind.go:24-31 | moving a parent link to the grandparent keeps the forest: same roots, rank still strictly rising along every link |
| UnionFinds.JoinKeepsForest | internal/synthcluster/unionfind.go:35-50 | hanging the root of lower rank below the other, with the rank raised on a tie, keeps the rank-ordered forest |
| UnionFinds.JoinKeepsWeight | internal/synthcluster/unionfind.go:35-50 | a set whose root has rank k keeps at least 2^k elements, the reason find is logarithmic |
| UnionFinds.JoinKeepsPartition | internal/synthcluster/unionfind.go:35-50 | joining the sets of x and y turns the partition into the components of the graph with the edge (x, y) added |
| SimHash.HammingMetric | internal/synthcluster/simhash.go:92-94 | the Hamming distance is a metric on 64-bit fingerprints, bounded by 64 |
| SimHash.DistanceCountsBits | internal/synthcluster/simhash.go:92-94 | the distance is the number of the 64 bits that differ |
| Prelude.LessIff | internal/synthcluster/cluster.go:317-319 | one string is smaller exactly when it ends, or has the smaller character, at the first place where the two differ |
| Cluster.JoinNearDuplicates | internal/synthcluster/cluster.go:62-82 | after steps 1 and 2 the sets are the components of the graph of all pairs within the Hamming threshold |
| Cluster.Recheck | internal/synthcluster/cluster.go:192-215 | the fresh union-find holds exactly the connected pairs, neighbours or not, whose vectors reach the cosine threshold |
| Cluster.RefineWithEmbedding | internal/synthcluster/cluster.go:126-217 | refined links with an answer, unchanged links and a fallback without one, unchanged links when nobody shares a cluster |
| Cluster.CandidateIndices | internal/synthcluster/cluster.go:136-147 | whatever order the map yields its groups, the participants are exactly the documents that share a component, ascending |
| Cluster.PickBest | internal/synthcluster/cluster.go:263-270 | the scan finds the document no other one beats, and the earliest among full ties |
| Cluster.AssembleCluster | internal/synthcluster/cluster.go:253-302 | a lone document passes untouched; otherwise the best one is annotated with the sorted ids of exactly all others, size, mode and fingerprint |
| Cluster.AssembleAll | internal/synthcluster/cluster.go:98-112 | for any map order, one representative per group, one formed cluster per group of two or more, every document either a representative or collapsed |
| Cluster.Cluster | internal/synthcluster/cluster.go:34-118 | the pass returns one representative per component of the final links, sorted by id, and none of its documents has a higher score, on ties a later publication, then a longer body, then a smaller id; OutputDocs + DocsCollapsed = InputDocs; ClustersFormed counts the components of two or more; off and empty inputs pass through |
| ClusterRules.BetterRepIff | internal/synthcluster/cluster.go:307-320 | one candidate replaces another exactly when the other does not rank at least as high: higher score, later publication, longer body, smaller id, in this order; of two documents one always ranks at least as high |
| ClusterRules.RepresentativeRanksFirst | internal/synthcluster/cluster.go:253-270 | no document of a cluster has a higher score than its representative, on equal scores a later publication, then a longer body, then a smaller id |
| ClusterRules.LoneRepresentative | internal/synthcluster/cluster.go:253-257 | a document connected to no other is passed through unchanged |
| ClusterRules.SharedRepresentative | internal/synthcluster/cluster.go:267-301 | any other representative is a document of its cluster with one metadata entry set: version 1, the sorted ids of exactly the others, its fingerprint, the mode, the size |
| ClusterRules.RepresentativesInOrder | internal/synthcluster/cluster.go:111-114 | no representative has a smaller id than one before it |
| ClusterRules.SimHashRule | internal/synthcluster/cluster.go:62-82 | outside hybrid mode two documents are linked exactly when the fingerprints of title, newline and body differ in at most the configured number of bits, 4 by default |
| ClusterRules.HybridRule | internal/synthcluster/cluster.go:192-215 | with an answering embedder exactly when they were connected and their vectors reach the configured cosine, 0.92 by default |
| ClusterRules.AnswerRule | internal/synthcluster/cluster.go:184-215 | for any answer, complete or short, the p-th vector belongs to the p-th document that shares a cluster, and a pair without two vectors is not linked |
| ClusterRules.FallbackRule | internal/synthcluster/cluster.go:126-182 | hybrid mode falls back exactly without an embedder or when a needed call fails, and then keeps the fingerprint links |
| ClusterDeterminism.StrictBest | internal/synthcluster/cluster.go:307-320 | with distinct ids the best document of a cluster beats every other one outright, so it is unique |
| ClusterLinks.SimHashAdjacent | internal/synthcluster/cluster.go:75-82 | the pair loop links two documents exactly when their fingerprints are within the threshold, in either order |
| ClusterLinks.ClusterDiameter | internal/synthcluster/cluster.go:75-82 | any two documents of a SimHash cluster of size m are within threshold * (m - 1) bits |
| ClusterLinks.HybridAdjacent | internal/synthcluster/cluster.go:192-215 | with an answering embedder two documents are linked exactly when they were connected before and their vectors are close enough |
| ClusterLinks.HybridOnlySplits | internal/synthcluster/cluster.go:192-215 | whatever the embedder answers, every hybrid cluster lies inside one SimHash cluster |
| ClusterProperties.IdsAccountedFor | internal/synthcluster/cluster.go:27-30 | representative ids plus member lists are the input ids plus exactly the lists lone documents brought along |
| ClusterProperties.IdsConservedIff | internal/synthcluster/cluster.go:99-116 | as multisets, representative ids plus member lists equal the input ids if and only if no document that stays alone carries a member list |
| ClusterProperties.InputIdsOnceIff | internal/synthcluster/cluster.go:27-28 | every input id appears exactly once among representatives and member lists if and only if the ids are distinct and no lone document's list names one of them |
| ClusterWitness.StaleListBreaksConservation | internal/synthcluster/cluster.go:253-257 | a one-document input whose output names an id the input does not hold |
| ClusterWitness.StaleListDoublesAnId | internal/synthcluster/cluster.go:27-28 | two documents with distinct ids, not near each other, where one id appears twice because the other's old list names it |
| ClusterProperties.NotOwnMember | internal/synthcluster/cluster.go:253-299 | a representative lists itself exactly when another document of its cluster has its id, or, if it is alone, when the list it came with names it |
| ClusterProperties.NoOwnMembersIff | internal/synthcluster/cluster.go:29 | with distinct ids no representative lists itself if and only if no document that stays alone came with a list that names itself |
| ClusterWitness.OwnListBreaksPromise | internal/synthcluster/cluster.go:29 | a single document whose old list names itself passes through and lists itself |
| ClusterDeterminism.SimHashDeterministic | internal/synthcluster/cluster.go:27-30 | with distinct ids, every permutation of the input and every map order give the same output list |
| ClusterDeterminism.HybridDeterministic | internal/synthcluster/cluster.go:27-30 | the same in hybrid mode, for an embedder that answers from the text alone |
| ClusterDeterminism.SimHashIdempotent | internal/synthcluster/cluster.go:27-30 | clustering the output again gives the same documents, and the same list when ids are distinct |
| ClusterDeterminism.HybridIdempotent | internal/synthcluster/cluster.go:27-30 | the same in hybrid mode, for an embedder that answers from the text alone |
| ClusterDeterminism.FallbackRerun | internal/synthcluster/cluster.go:86-96 | a rerun that falls back keeps all representatives exactly when no two are near duplicates, so idempotence needs the embedder to answer |
| Budget.HeadroomTruncates | internal/deepagent/budget.go:57-64 | the estimate of a node is the parent's tokens times the breadth times 1.25, cut off towards zero |
| Budget.BudgetTracker.PreCheck | internal/deepagent/budget.go:52-96 | admits exactly when both caps leave room, and reserves the estimate in the same step; a refusal changes nothing |
| Budget.BudgetTracker.ReleaseOnComplete | internal/deepagent/budget.go:103-119 | books the usage and the node, and gives back only reserved - actual, and only when that is positive |
| TreeLedger.EstimateIsReservation | internal/deepagent/tree.go:189-216 | PreCheck's charge and the reservation the node records, computed separately, are the same amount for the root and whenever the parent's usage is not negative, and otherwise only if the charge is zero |
| TreeLedger.LedgerInEveryRun | internal/deepagent/budget.go:52-119 | for every interleaving: used = sum over finished nodes, reserved = in flight + sum of min(reserved, used), node count = admitted and finished, and used + in flight <= budget + total overrun |
| TreeLedger.BudgetRespected | internal/deepagent/budget.go:66-73 | the budget is never exceeded, in-flight reservations included, as long as no node used more than it reserved |
| TreeLedger.AdmissionCountsUsageTwice | internal/deepagent/budget.go:103-119 | a node is admitted exactly when used + retained + in flight + its estimate fit the budget and the cap, so spent tokens weigh twice |
| TreeLedger.RefusedAlthoughItFits | internal/deepagent/budget.go:66-73 | a node for which used + in flight + estimate fit the budget is refused if and only if the tokens finished nodes retain push it over |
| TreeLedger.RetainedTokensRefuse | internal/deepagent/budget.go:113-116 | a reachable state with budget 5 whose waiting child needs 4 in all and is refused |
| TreeShape.ShapeInEveryRun | internal/deepagent/tree.go:103-179 | in every reachable state ids are unique, no depth exceeds the configuration, and every node below the root has its parent recorded one level up and complete |
| TreeShape.ReservationFromParent | internal/deepagent/tree.go:189-216 | a node in flight has reserved floor(parent usage * breadth * 5 / 4) of the parent that is recorded, found by id |
| TreeShape.ReservationOfRoot | internal/deepagent/tree.go:281-286 | the root in flight has reserved the configured estimate |
| TreeShape.TruncationIsIdle | internal/deepagent/tree.go:316-324 | recorded nodes are terminal in every reachable state, so truncating the frontier changes none |
| TreeShape.FlattenWithLineage | internal/deepagent/tree.go:386-397 | the walk along parent links terminates and returns exactly the chain of ancestors from the root |
| TreeShape.LineageInEveryRun | internal/deepagent/tree.go:386-397 | in every reachable state that chain consists of recorded nodes, each the complete parent of the next, and has length depth + 1 |
| TreeShape.ChainAt | internal/deepagent/tree.go:386-397 | the k-th id of a lineage is the ancestor at depth k |
| TreeCap.CapIsGeometric | internal/deepagent/budget.go:75-81 | the cap is depth + 1 for breadth 1 and (breadth^(depth + 1) - 1) / (breadth - 1) otherwise |
| TreeCap.PowerLaw | internal/deepagent/budget.go:75-81 | the accumulated factor is the power: b^0 = 1, b^1 = b, b^(i + j) = b^i * b^j |
| TreeCap.CountInEveryRun | internal/deepagent/budget.go:75-87 | when Decompose keeps to the breadth, the nodes of a run, recorded or still to come, never exceed 1 + sum of breadth^i up to its level |
| TreeCap.CapNeverRejects | internal/deepagent/budget.go:75-87 | then the structural cap never refuses a node |
| TreeCap.CapKept | internal/deepagent/budget.go:75-87 | then the number of counted nodes never exceeds 1 + sum of breadth^i over the whole depth |
| TreeCap.CapOverrun | internal/deepagent/budget.go:75-87 | for every configuration that can pay its root, a run with one sub-query too many per node ends breadth^(depth - 1) nodes past the cap |
| TreeCap.CapKeptIff | internal/deepagent/budget.go:75-87 | the cap is kept in all runs with at most m sub-queries per decomposition if and only if m <= breadth or the root estimate exceeds the budget |
| TreeOutcomes.OutcomesInEveryRun | internal/deepagent/tree.go:202-250 | in every run a finished node holds exactly the outcome of its own Fanout: Failed and empty after an error; just the answered citations, claims, tokens and their cost after an answer, Complete until its decomposition fails; BudgetExceeded and empty if it was never admitted |
| TreeOutcomes.QueriesInEveryRun | internal/deepagent/tree.go:120-144 | every node's query is the sub-query its parent's decomposition returned at its index, the root's the query of the run |
| ExpandTrees.ProcessAll | internal/deepagent/tree.go:154-172 | whatever the scheduler and the adapters do, a level ends in a reachable state of the machine with every node recorded |
| ExpandTrees.DecomposeFrontier | internal/deepagent/tree.go:103-146 | children of exactly the complete nodes of the level, in order; a failing decomposition marks its node and adds none |
| ExpandTrees.BuildTreeResult | internal/deepagent/tree.go:327-380 | totals of nodes, tokens and cost, deepest level, status, citations of complete nodes only, and every claim with its markers and lineage, as functions of the recorded nodes |
| ExpandTrees.ClaimReported | internal/deepagent/tree.go:358-367 | every claim is reported once, in the order of nodes and claims, with its text, markers, node, and the ids on the way from the root |
| ExpandTrees.CitationsReported | internal/deepagent/tree.go:353-356 | a citation is reported exactly if a complete node holds it |
| ExpandTrees.RootOutcome | internal/deepagent/tree.go:96-98 | the root's Fanout failed exactly if the run is still at level 0 and its recorded root is Failed |
| ExpandTrees.ExpandTree | internal/deepagent/tree.go:61-183 | rejects exactly the configurations out of range; otherwise every execution is a run of the machine and it fails if and only if the root's own Fanout is an error; else it ends with the depth reached or the frontier empty; token totals equal the tracker's, and the cost is the price of the tokens used |
| Sse.Writer.WriteEvent | internal/sse/writer.go:47-73 | appends exactly one event: its type line, one data line per line of data, and the empty line that ends it |
| Sse.Writer.WriteComment | internal/sse/writer.go:77-82 | appends exactly one comment block |
| Sse.SSEParser.Next | internal/synthesis/stream.go:37-84 | returns the next event of the remaining input, EOF or the scan error, and consumes exactly what it read |
| SseRules.ParseFieldIff | internal/synthesis/stream.go:87-98 | a line is parsed to a name and a value exactly if it is the bare name, or name, colon, at most one space that is dropped, and value |
| SseRules.BlockIsEvent | internal/synthesis/stream.go:37-74 | any block of lines up to an empty line is the event with its last type, its last id, and its data lines from the first non-empty one, joined by newlines; comments and unknown fields count for nothing |
| SseRules.LastBlockIsEvent | internal/synthesis/stream.go:76-84 | so is a last block the stream ends after, and without a field there is only the end |
| SseRules.TooLongIff | internal/synthesis/stream.go:30-34 | the scan fails exactly when the next 1048576 characters hold no newline |
| SseRules.CarriageReturnDropped | internal/synthesis/stream.go:37-48 | a carriage return in front of the newline is not part of the line |
| SseRoundTrip.ReadBack | internal/synthesis/stream.go:37-98 | any interleaving of whole events and comments reads back as the events, up to the first line that does not fit the scanner |
| SseRoundTrip.DataSurvivesIff | internal/synthesis/stream.go:61-69 | data comes back unchanged exactly when it does not start with a newline and no line of it ends in a carriage return |
| SseRoundTrip.RoundTripIff | internal/sse/writer.go:53-82 | reading back gives exactly the written (event, data) sequence and then EOF if and only if types are single lines and all data survives and fits |
| Sse.WriteAll | internal/sse/writer.go:47-82 | writers that take turns at the lock leave exactly the concatenated wire forms, in lock order |
| Sse.ReadToEnd | internal/synthesis/stream.go:37-84 | calling Next until it answers no event yields the specified transcript |
| SseRoundTrip.Relay | internal/sse/writer.go:53-82 | a writer and a parser object joined by the wire deliver the written sequence under exactly the same condition |
| RequestLru.RequestLRU.Set | internal/idx5/feedback.go:97-126 | the list becomes the specified one: present keys move to the front with new mapping and expiry, new keys evict the back of a full list; map and list keep the same keys |
| RequestLru.RequestLRU.Get | internal/idx5/feedback.go:129-147 | answers exactly an unexpired entry and moves it to the front; drops an expired one from both structures; otherwise changes nothing |
| LruRuns.Drive | internal/idx5/feedback.go:97-147 | a cache object taken through any run ends in the specified list and gives the specified answers |
| LruRuns.SizeBounded | internal/idx5/feedback.go:97-126 | over any run the cache holds no key twice and at most its capacity, or one entry if that is 0 |
| LruRuns.GetAnswersLatest | internal/idx5/feedback.go:129-147 | a Get answers only what the last Set of that key stored, and only up to its expiry |
| LruRuns.MissingMeansCrowdedOut | internal/idx5/feedback.go:97-147 | an unexpired key is missing only if at least capacity distinct other keys were touched since its last touch |
| LruRuns.PresentIff | internal/idx5/feedback.go:97-147 | while nothing was dropped for having expired, a key is present if and only if fewer than capacity others were touched since |
| LruRuns.PresentExactly | internal/idx5/feedback.go:97-147 | in every run, whatever expires: a key is present exactly if, since it was set, no Get found it expired and there were never capacity many others touched since it and not found expired; a Get answers exactly if, besides, it is not later than the last expiry |
| Breakers.Breaker.Allow | internal/llm/router.go:64-84 | admits exactly when closed, or when open for at least openTimeout, and only then goes half-open |
| Breakers.Breaker.Record | internal/llm/router.go:87-129 | a probe's success closes with an empty list, its failure reopens now; when closed the outcome is added, the list pruned, and the breaker opens exactly if enough outcomes remain and the share of failures among them reaches the threshold |
| Breakers.Drive | internal/llm/router.go:64-129 | a breaker object taken through any run ends in the specified state and admits at the specified times |
| Breakers.WindowIsNaive | internal/llm/router.go:101-118 | with a monotone clock the pruned list is always the naive filter over all outcomes since the last reset |
| Breakers.TripsIff | internal/llm/router.go:101-128 | a closed breaker opens exactly when, of all outcomes since the last reset that are at most `window` old, there are at least minSamples and failures make up at least the share `threshold` |
| Breakers.SuccessesStayClosed | internal/llm/router.go:115-128 | with a positive threshold nothing but successes never opens it |
| Breakers.FailuresOpen | internal/llm/router.go:115-128 | with a threshold of at most 1 the minSamples-th failure within one window opens a fresh breaker |
| Breakers.TenFailuresOpen | internal/llm/router.go:52-60 | as configured: ten failures within 60 s, then callers are refused for 30 s and no longer |
| Breakers.ClosedIsCalm | internal/llm/router.go:101-128 | a closed breaker never holds a list that meets the trip condition |
| Breakers.AdmissionsInEveryRun | internal/llm/router.go:64-103 | while not closed, exactly one caller per half-open episode is admitted, and admissions are at least openTimeout apart |
| Breakers.AdmissionRate | internal/llm/router.go:64-103 | a span T sees at most T / openTimeout + 1 such admissions |
| Fanouts.Dispatch | internal/fanout/dispatch.go:87-172 | for every worker schedule the result is the same function of the adapters' outcomes |
| Fanouts.AssembleResult | internal/fanout/dispatch.go:49-78 | documents in AdapterSet order, the error map, and SuccessCount + ErrorCount = AdapterCount |
| Fanouts.ErrorKeys | internal/fanout/dispatch.go:58-69 | the error keys are exactly the names of adapters that gave no answer |
| Fanouts.CollectedAt | internal/fanout/dispatch.go:58-69 | every answer stands as a whole, in its own order, behind the answers of all earlier adapters |
| Fanouts.ErrorEntries | internal/fanout/dispatch.go:58-69 | with distinct names there is one entry per failure |
| Fanouts.ErrorValue | internal/fanout/dispatch.go:58-69 | an entry holds its own adapter's failure - skipped, missing, panicked or the search's cause - unless a later adapter of that name failed too |
| Fanouts.DedupDocs | internal/fanout/dedup.go:30-45 | the kept documents are the specified ones, and kept + dropped = collected |
| Fanouts.DedupKeepsFirsts | internal/fanout/dedup.go:30-45 | dedup keeps exactly the first document of every key, in input order |
| Fanouts.DedupKeys | internal/fanout/dedup.go:30-45 | no key is lost and none occurs twice |
| Fanouts.DedupDistinct | internal/fanout/dedup.go:30-45 | dedup of an already deduplicated list drops nothing |
| Fanouts.SortDocs | internal/fanout/sort.go:20-31 | sorts the array in place: higher scores first, then smaller source ids, then later retrievals, full ties in their old order |
| Sorting.StableUnique | internal/fanout/sort.go:20-31 | any two sorted lists that keep the order of ties are the same list, so any stable sort gives this result |
| Fanouts.FanOut | internal/fanout/fanout.go:63-97 | an empty adapter set is an error; otherwise, whatever the schedule, one document per key, higher scores first, then smaller source ids, then later retrievals, full ties in collection order; the error count is the number of adapters without an answer |
| Fanouts.FinalDocsUnique | internal/fanout/fanout.go:85-91 | the final list is the only list that holds the first document per key, sorted, ties in collection order |
| Sentences.SegmentSentences | internal/streamsynth/streamsynth.go:160-186 | the match loop computes the specified sentences of the trimmed text |
| Sentences.SegmentationLossless | internal/streamsynth/streamsynth.go:160-186 | segments are non-empty, trimmed, in order and disjoint, with nothing but whitespace before, between and after them, and each but the last directly followed by a blank |
| Sentences.SegmentsEndAtStops | internal/streamsynth/streamsynth.go:26-28 | all segments but the last end in one of the six stop characters, and in no segment does one stand in front of a blank |
| Sentences.SpaceCharacters | internal/streamsynth/streamsynth.go:160-186 | what is trimmed is exactly the white space of Unicode |
| Sentences.SegmentationStable | internal/streamsynth/streamsynth.go:160-186 | joining the segments with single spaces and segmenting again gives the same segments |
| Citations.BuildCitationMap | internal/streamsynth/streamsynth.go:189-195 | exactly the given markers are indexed, each by the last citation that carries it |
| Citations.MarkersAreCited | internal/streamsynth/streamsynth.go:30-31 | the left-to-right scan finds a number exactly when a bracketed marker with that number stands anywhere in the sentence |
| Citations.CitesIff | internal/streamsynth/streamsynth.go:30-31 | a number is cited exactly if digits with that value stand in square brackets somewhere in the sentence |
| Citations.WrittenIsCited | internal/streamsynth/streamsynth.go:200-212 | "[n]" in decimal notation cites n, wherever it stands |
| Citations.LeadingZero | internal/streamsynth/streamsynth.go:207-210 | zeros in front of a marker's digits do not change its number |
| Citations.ResolveCitations | internal/streamsynth/streamsynth.go:200-224 | each known cited number once, in order of first occurrence; none exactly when the sentence cites no known number |
| Citations.StreamSynthesize | internal/streamsynth/streamsynth.go:102-135 | exactly the cited sentences are sent, in order, under their own index and with their own citations: among all sentences, or among those before the one at which the context is done or a write fails |
| AuditChain.VerifyChain | internal/audit/chain.go:102-120 | counts exactly the rows whose stored hash is not the hash of the preceding stored hash, empty for the first row, followed by the canonical row |
| AuditChain.SameTipSameChain | internal/audit/chain.go:29-34 | two clean chains with the same last hash have the same length and canonical rows, or a hashed input of the one collides with a hashed input of the other |
| AuditChain.TamperingCounted | internal/audit/chain.go:102-120 | altering m rows without touching stored hashes gives m violations less the alterations that collide with the very row they replace, so exactly m if and only if none does |
| AuditChain.UndetectedChanges | internal/audit/chain.go:102-120 | rows cut off the end and arbitrary prevHash fields leave a chain clean |
| AuditChain.SortedJSON | internal/audit/chain.go:69-85 | whatever order the map yields its keys, the text is that of the keys in ascending order |
| AuditChain.MembersJoined | internal/audit/chain.go:76-84 | a member is key, colon, value, and commas stand between members |
| AuditChain.CanonicalTextDetermines | internal/audit/chain.go:69-85 | for prefix-free encodings, equal texts come from equal maps |
| RankFusion.FuseRRF | internal/index/rrf.go:40-71 | exactly the listed ids, each once, each with the sum over stores of weight / (k + rank), weight 1 where none or no positive one is configured; higher scores first, smaller ids first on ties; with the first document met, for some store order |
| RankFusion.SingleListing | internal/index/rrf.go:43-52 | an id that one duplicate-free store lists at rank r scores its weight over k + r |
| RankFusion.RankingIsDeterministic | internal/index/rrf.go:32-36 | in exact arithmetic ids, scores and order are the same for every store iteration order |
| RankFusion.PayloadDependsOnOrder | internal/index/rrf.go:32-36 | two stores with different documents under one id: two different fused results for one input |
| RankFusion.PayloadFixedIff | internal/index/rrf.go:43-57 | the document of an id is the same in every fused result if and only if all stores that list the id have the same document at their first entry for it |
| RankFusion.DeterministicIff | internal/index/rrf.go:32-36 | in exact arithmetic the fused result is the same for every iteration order if and only if that holds for every id |
| RankFusion.DominantComesFirst | internal/index/rrf.go:40-71 | with duplicate-free lists, a document ranked better in every list that has the other comes strictly earlier, with a strictly higher score |
| RateGates.RateLimiter.Allow | internal/auth/callback.go:44-57 | the new bucket and the answer, for a fresh or run-out bucket and for one in force |
| RateGates.RateLimiter.Serve | internal/auth/callback.go:44-57 | a run against the limiter lets through exactly the requests the specification admits |
| RateGates.RateBound | internal/auth/callback.go:44-57 | with a monotone clock any span of one window length lets through at most 2 * max(1, limit) - 1 requests of a key |
| RateGates.RateBoundIsReached | internal/auth/callback.go:44-57 | for every limit and window of at least 1 a run reaches that bound |
| RateGates.SlidingWindowIff | internal/auth/callback.go:9 | the sliding-window promise holds exactly for limit 1 with a positive window, limit at least 1 with a zero window, limit at least 0 with a negative one |
| RateGates.Gate.WaitForRateSlot | internal/adapters/arxiv/search.go:146-172 | the slot taken, also by a caller that gives up while waiting, and whether it is granted |
| RateGates.Gate.ServeAll | internal/adapters/arxiv/search.go:146-172 | serialised callers get exactly the specified slots; without a positive interval each its own instant |
| RateGates.GateRate | internal/adapters/arxiv/search.go:142-172 | granted slots are pairwise at least minInterval apart whatever the clock does, so a span T holds at most T / minInterval + 1 |
| RateGates.SlotsAreLeast | internal/adapters/arxiv/search.go:142-172 | the slots are the least schedule that keeps the interval and serves nobody before it asks |

## Left out

- Numbers: token counts, times and counters are unbounded integers, scores and cosines reals. Overflow of `int64`,
  rounding, the `float64` detour of the token estimate above 2^53, and NaN are not modelled.
- Hashing and similarity: the SimHash vote loop, FNV, SHA-256, Unicode normalisation, `cosineSimilarity` and `sqrt64`
  are arbitrary functions; the cosine is only required to be symmetric where two orders of a pair are compared.
- Clustering: Go shares the metadata map between input and output documents, so annotating a representative also
  changes the caller's document; the model copies. `Cluster` has an error result that no path uses; it is not modelled.
- ClusterDeterminism.HybridDeterministic: supposes an embedder that answers every text by itself and always answers;
  a failing call falls back to SimHash and can change the clusters, as FallbackRerun states.
- Tree: node ids are paths of sub-query indices where the source hashes them, so two nodes never collide. Hooks and
  evidence summaries are not part of this model; timeouts and cancellation are failures that can happen at any time.
  The runtime memory reading is a nondeterministic choice.
- TreeCap.CapNeverRejects: supposes that Decompose returns at most the breadth, which the researcher service sees to
  and the Go side does not check; `CapKeptIff` says what happens otherwise.
- Server-sent events: one writer; HTTP write errors, headers and flushing are left out. RoundTripIff supposes comments
  of one line, as the heartbeat writes; `StreamConsumer` on top of the parser is left out.
- SseRoundTrip.RoundTripIff: the `id` and `retry` fields are read as the parser does, but the writer never sends them.
- Cache and breaker: clocks are integers that never run backwards. Breaker liveness is not claimed, because a probe's
  outcome may never be recorded. `ForceOpenAt` is left out.
- Fan-out: `canonicalURL` and with it the dedup key are an arbitrary function; per-adapter deadlines, metrics and
  tracing are left out.
- Sorts: `sort.Slice`, `sort.Ints` and `sort.Strings` are one insertion sort of which only "a sorted reordering" is
  used; `sort.SliceStable` is an in-place insertion sort, whose result StableUnique shows to be the only possible one.
- Text: Go strings with invalid UTF-8 are not modelled. JSON payloads of the sentence stream are not encoded, and
  its `done` event is left out.
- Audit: JSON encodings of keys and values are arbitrary prefix-free functions; `sortedMap` on nested maps and the
  database lock are left out.
- Rank fusion: the constant k is a natural number, as its configuration supplies.
- RankFusion.RankingIsDeterministic: holds in exact arithmetic; with `float64`, sums over three or more stores can differ
  in the last place with the order in which the map is walked, so byte-equal output is not claimed.
- RankFusion.DeterministicIff: in exact arithmetic, for the same reason.
- RateGates.Gate.WaitForRateSlot: a timer that fires late is not modelled; the slot is the instant reserved.
- RateGates.RateLimiter.Allow: the Redis variant answers true unconditionally and is left out.
- Network adapters, DNS and request-forgery checks, browser automation, metrics, logging, command line, access rules,
  retries, staleness rules and the user interface: input and output, or finite tables with only easy members.
