/** Reciprocal rank fusion of internal/index/rrf.go, in exact arithmetic. */
module RankFusion {
  import opened Prelude
  import opened Sorting

  datatype Ranked = Ranked(docId: string, doc: string)

  datatype Fused = Fused(docId: string, doc: string, score: real)

  type RankLists = map<string, seq<Ranked>>

  /** What one list entry adds to the score of its document. */
  datatype Contribution = Contribution(docId: string, doc: string, amount: real)

  /** A missing or non-positive weight counts as 1. */
  function Weight(weights: map<string, real>, store: string): (w: real)
    ensures w > 0.0
  {
    if store in weights && weights[store] > 0.0 then weights[store] else 1.0
  }

  /** The share of the entry at index `i`, whose rank is i + 1. */
  function Share(w: real, k: nat, i: nat): real {
    w / (k as real + (i + 1) as real)
  }

  function ListContributions(list: seq<Ranked>, w: real, k: nat, n: nat): (r: seq<Contribution>)
    requires n <= |list|
    ensures |r| == n
  {
    seq(n, i requires 0 <= i < n => Contribution(list[i].docId, list[i].doc, Share(w, k, i)))
  }

  /** All contributions, the stores taken in the given order. */
  function Flat(lists: RankLists, weights: map<string, real>, k: nat, order: seq<string>): seq<Contribution>
    requires forall s :: s in order ==> s in lists
  {
    if order == [] then []
    else
      var s := order[|order| - 1];
      Flat(lists, weights, k, order[..|order| - 1]) + ListContributions(lists[s], Weight(weights, s), k, |lists[s]|)
  }

  function Score(history: seq<Contribution>, id: string): real {
    if history == [] then 0.0
    else
      var c := history[|history| - 1];
      Score(history[..|history| - 1], id) + if c.docId == id then c.amount else 0.0
  }

  predicate Mentions(history: seq<Contribution>, id: string) {
    exists i :: 0 <= i < |history| && history[i].docId == id
  }

  /** The document of the first contribution for the id. */
  function FirstDoc(history: seq<Contribution>, id: string): string
    requires Mentions(history, id)
  {
    var n := |history| - 1;
    if Mentions(history[..n], id) then FirstDoc(history[..n], id) else history[n].doc
  }

  predicate FusedLess(a: Fused, b: Fused) {
    if a.score != b.score then a.score > b.score else Less(a.docId, b.docId)
  }

  lemma FusedLessIsWeakOrder()
    ensures IsWeakOrder(FusedLess)
  {
    LessIsStrictTotal();
  }

  predicate Mentioned(list: seq<Ranked>, id: string) {
    exists j :: 0 <= j < |list| && list[j].docId == id
  }

  /** A possible iteration order of the stores. */
  ghost predicate IsOrder(lists: RankLists, order: seq<string>) {
    Distinct(order) && forall s :: s in order <==> s in lists
  }

  /** The fused list: every mentioned id once, with its score and first document, best score first, ties by id. */
  ghost predicate IsFusion(history: seq<Contribution>, out: seq<Fused>) {
    && Ascending(FusedLess, out)
    && (forall i, j :: 0 <= i < j < |out| ==> out[i].docId != out[j].docId)
    && (forall i :: 0 <= i < |out| ==> IsFusedDoc(history, out[i]))
    && (forall id :: Mentions(history, id) ==> Lists(out, id))
  }

  /** What a fusion may come to when the stores are walked in the given order. */
  ghost predicate IsOutcome(
    lists: RankLists, weights: map<string, real>, k: nat, order: seq<string>, out: seq<Fused>)
  {
    IsOrder(lists, order) && IsFusion(Flat(lists, weights, k, order), out)
  }

  predicate IsFusedDoc(history: seq<Contribution>, f: Fused) {
    Mentions(history, f.docId) && f.score == Score(history, f.docId) && f.doc == FirstDoc(history, f.docId)
  }

  predicate Lists(out: seq<Fused>, id: string) {
    exists i :: 0 <= i < |out| && out[i].docId == id
  }

  // ---------- the fusion ----------

  lemma MentionsAppend(history: seq<Contribution>, c: Contribution, id: string)
    ensures Mentions(history + [c], id) <==> Mentions(history, id) || c.docId == id
    ensures Score(history + [c], id) == Score(history, id) + if c.docId == id then c.amount else 0.0
    ensures Mentions(history, id) ==> FirstDoc(history + [c], id) == FirstDoc(history, id)
    ensures !Mentions(history, id) && c.docId == id ==> FirstDoc(history + [c], id) == c.doc
  {
    var all := history + [c];
    assert all[..|history|] == history && all[|history|] == c;
    if i :| 0 <= i < |history| && history[i].docId == id {
      assert all[i].docId == id;
    }
  }

  lemma {:induction false} ScoreOfUnmentioned(history: seq<Contribution>, id: string)
    requires !Mentions(history, id)
    ensures Score(history, id) == 0.0
  {
    if history != [] {
      assert !Mentions(history[..|history| - 1], id);
      ScoreOfUnmentioned(history[..|history| - 1], id);
    }
  }

  ghost predicate Accumulated(history: seq<Contribution>, scores: map<string, real>, docs: map<string, string>) {
    forall id :: AccumulatedFor(history, scores, docs, id)
  }

  predicate AccumulatedFor(
    history: seq<Contribution>, scores: map<string, real>, docs: map<string, string>, id: string)
  {
    && (Mentions(history, id) <==> id in scores)
    && (id in docs <==> id in scores)
    && (id in scores ==> scores[id] == Score(history, id) && docs[id] == FirstDoc(history, id))
  }

  lemma AccumulateOne(
    history: seq<Contribution>, scores: map<string, real>, docs: map<string, string>, c: Contribution)
    requires Accumulated(history, scores, docs)
    ensures
      Accumulated(history + [c],
        scores[c.docId := (if c.docId in scores then scores[c.docId] else 0.0) + c.amount],
        if c.docId in docs then docs else docs[c.docId := c.doc])
  {
    var scores' := scores[c.docId := (if c.docId in scores then scores[c.docId] else 0.0) + c.amount];
    var docs' := if c.docId in docs then docs else docs[c.docId := c.doc];
    forall id
      ensures AccumulatedFor(history + [c], scores', docs', id)
    {
      assert AccumulatedFor(history, scores, docs, id);
      MentionsAppend(history, c, id);
      if !Mentions(history, id) {
        ScoreOfUnmentioned(history, id);
      }
      hide Mentions, Score, FirstDoc;
    }
  }

  /** One store's list. */
  method Accumulate(
    list: seq<Ranked>, w: real, k: nat, scores0: map<string, real>, docs0: map<string, string>,
    ghost before: seq<Contribution>) returns (scores: map<string, real>, docs: map<string, string>)
    requires Accumulated(before, scores0, docs0)
    ensures Accumulated(before + ListContributions(list, w, k, |list|), scores, docs)
  {
    hide Accumulated;
    scores, docs := scores0, docs0;
    assert before + ListContributions(list, w, k, 0) == before;
    for i := 0 to |list|
      invariant Accumulated(before + ListContributions(list, w, k, i), scores, docs)
    {
      var r := list[i];
      ghost var c := Contribution(r.docId, r.doc, Share(w, k, i));
      AccumulateOne(before + ListContributions(list, w, k, i), scores, docs, c);
      assert before + ListContributions(list, w, k, i + 1) == before + ListContributions(list, w, k, i) + [c];
      scores := scores[r.docId := (if r.docId in scores then scores[r.docId] else 0.0) + Share(w, k, i)];
      if r.docId !in docs {
        docs := docs[r.docId := r.doc];
      }
    }
  }

  /** fuseRRF: the stores come in any order; ids are collected from the score map in any order and then sorted. */
  method FuseRRF(lists: RankLists, weights: map<string, real>, k: nat) returns (out: seq<Fused>)
    ensures exists order :: IsOutcome(lists, weights, k, order, out) && IsRanking(lists, weights, k, order, out)
  {
    var scores: map<string, real>, docs: map<string, string> := map[], map[];
    ghost var order: seq<string> := [];
    var pending := lists.Keys;
    while pending != {}
      invariant pending <= lists.Keys && Distinct(order)
      invariant forall s :: s in order <==> s in lists.Keys - pending
      invariant Accumulated(Flat(lists, weights, k, order), scores, docs)
    {
      var store :| store in pending;
      pending := pending - {store};
      assert store !in order && (order + [store])[..|order|] == order;
      scores, docs := Accumulate(lists[store], Weight(weights, store), k, scores, docs, Flat(lists, weights, k, order));
      order := order + [store];
    }
    out := Collect(scores, docs, Flat(lists, weights, k, order));
    assert IsOutcome(lists, weights, k, order, out);
    FusionIsRanking(lists, weights, k, order, out);
  }

  method Collect(scores: map<string, real>, docs: map<string, string>, ghost history: seq<Contribution>)
      returns (out: seq<Fused>)
    requires Accumulated(history, scores, docs)
    ensures IsFusion(history, out)
  {
    var pending := scores.Keys;
    var all: seq<Fused> := [];
    while pending != {}
      invariant pending <= scores.Keys
      invariant forall i, j :: 0 <= i < j < |all| ==> all[i].docId != all[j].docId
      invariant forall i :: 0 <= i < |all| ==> IsFusedDoc(history, all[i]) && all[i].docId in scores.Keys - pending
      invariant forall id :: id in scores.Keys - pending ==> Lists(all, id)
    {
      var id :| id in pending;
      pending := pending - {id};
      assert AccumulatedFor(history, scores, docs, id);
      ghost var before := all;
      all := all + [Fused(id, docs[id], scores[id])];
      assert all[|before|].docId == id;
      forall other | other in scores.Keys - pending
        ensures Lists(all, other)
      {
        if other != id {
          assert Lists(before, other);
          var i :| 0 <= i < |before| && before[i].docId == other;
          assert all[i].docId == other;
        }
      }
    }
    forall id | Mentions(history, id)
      ensures Lists(all, id)
    {
      assert AccumulatedFor(history, scores, docs, id);
    }
    FusedLessIsWeakOrder();
    ghost var perm;
    out, perm := Sort(FusedLess, all);
    SortedFusion(history, all, out, perm);
  }

  /** Sorting distinct ids by (score, id) gives a strictly ascending list of the same entries. */
  lemma SortedFusion(history: seq<Contribution>, all: seq<Fused>, out: seq<Fused>, perm: seq<nat>)
    requires Sorted(FusedLess, out) && IsReordering(all, out, perm)
    requires forall i, j :: 0 <= i < j < |all| ==> all[i].docId != all[j].docId
    requires forall i :: 0 <= i < |all| ==> IsFusedDoc(history, all[i])
    requires forall id :: Mentions(history, id) ==> Lists(all, id)
    ensures IsFusion(history, out)
  {
    forall i, j | 0 <= i < j < |out|
      ensures out[i].docId != out[j].docId && FusedLess(out[i], out[j])
    {
      assert perm[i] != perm[j] && !FusedLess(out[j], out[i]);
      LessTotal(out[i].docId, out[j].docId);
    }
    forall id | Mentions(history, id)
      ensures Lists(out, id)
    {
      var m :| 0 <= m < |all| && all[m].docId == id;
      var j := FindIndex(perm, m);
      assert out[j].docId == id;
    }
  }

  // ---------- the formula ----------

  /** What one store contributes to an id: its weight, 1 if none or no positive one is configured, over k plus the
      rank, for each of the first `n` entries with that id; the best rank is 1. */
  function StoreScore(lists: RankLists, weights: map<string, real>, k: nat, s: string, id: string, n: nat): real
    requires s in lists && n <= |lists[s]|
  {
    if n == 0 then 0.0
    else
      StoreScore(lists, weights, k, s, id, n - 1)
        + if lists[s][n - 1].docId != id then 0.0
          else (if s in weights && weights[s] > 0.0 then weights[s] else 1.0) / (k + n) as real
  }

  /** The sum over the stores. */
  function Formula(lists: RankLists, weights: map<string, real>, k: nat, order: seq<string>, id: string): real
    requires forall s :: s in order ==> s in lists
  {
    if order == [] then 0.0
    else
      var s := order[|order| - 1];
      Formula(lists, weights, k, order[..|order| - 1], id) + StoreScore(lists, weights, k, s, id, |lists[s]|)
  }

  lemma {:induction false} StoreScoreHolds(
    lists: RankLists, weights: map<string, real>, k: nat, s: string, id: string, n: nat)
    requires s in lists && n <= |lists[s]|
    ensures Score(ListContributions(lists[s], Weight(weights, s), k, n), id) == StoreScore(lists, weights, k, s, id, n)
  {
    if n > 0 {
      StoreScoreHolds(lists, weights, k, s, id, n - 1);
      var all := ListContributions(lists[s], Weight(weights, s), k, n);
      assert all[..n - 1] == ListContributions(lists[s], Weight(weights, s), k, n - 1);
      assert k as real + n as real == (k + n) as real;
      assert all[n - 1].amount == Weight(weights, s) / (k + n) as real;
    }
  }

  lemma {:induction false} ScoreIsFormula(
    lists: RankLists, weights: map<string, real>, k: nat, order: seq<string>, id: string)
    requires forall s :: s in order ==> s in lists
    ensures Score(Flat(lists, weights, k, order), id) == Formula(lists, weights, k, order, id)
  {
    if order != [] {
      var n := |order| - 1;
      ScoreIsFormula(lists, weights, k, order[..n], id);
      ScoreConcat(Flat(lists, weights, k, order[..n]), StoreHistory(lists, weights, k, order[n]), id);
      StoreScoreHolds(lists, weights, k, order[n], id, |lists[order[n]]|);
      hide Score, StoreScore, Mentions, ListContributions;
    }
  }

  /** A result as the formula has it: the listed ids, each once, with the sum of its contributions, higher scores
      first and smaller ids first among equal ones. */
  ghost predicate IsRanking(
    lists: RankLists, weights: map<string, real>, k: nat, order: seq<string>, out: seq<Fused>)
    requires forall s :: s in order ==> s in lists
  {
    && (forall i, j :: 0 <= i < j < |out| ==>
          out[i].score > out[j].score || (out[i].score == out[j].score && Less(out[i].docId, out[j].docId)))
    && (forall i, j :: 0 <= i < j < |out| ==> out[i].docId != out[j].docId)
    && (forall i :: 0 <= i < |out| ==> out[i].score == Formula(lists, weights, k, order, out[i].docId))
    && (forall id {:trigger Lists(out, id)} :: Lists(out, id) <==> exists s :: s in lists && Mentioned(lists[s], id))
  }

  lemma FusionIsRanking(lists: RankLists, weights: map<string, real>, k: nat, order: seq<string>, out: seq<Fused>)
    requires IsOutcome(lists, weights, k, order, out)
    ensures IsRanking(lists, weights, k, order, out)
  {
    var history := Flat(lists, weights, k, order);
    forall i, j | 0 <= i < j < |out|
      ensures out[i].score > out[j].score || (out[i].score == out[j].score && Less(out[i].docId, out[j].docId))
    {
      assert FusedLess(out[i], out[j]);
    }
    forall i | 0 <= i < |out|
      ensures out[i].score == Formula(lists, weights, k, order, out[i].docId)
    {
      RankedScore(lists, weights, k, order, out, i);
    }
    forall id
      ensures Lists(out, id) <==> exists s :: s in lists && Mentioned(lists[s], id)
    {
      ListedIds(lists, weights, k, order, out, id);
    }
  }

  lemma ListedIds(
    lists: RankLists, weights: map<string, real>, k: nat, order: seq<string>, out: seq<Fused>, id: string)
    requires IsOutcome(lists, weights, k, order, out)
    ensures Lists(out, id) <==> exists s :: s in lists && Mentioned(lists[s], id)
  {
    var history := Flat(lists, weights, k, order);
    FlatMentions(lists, weights, k, order, id);
    forall s | s in lists
      ensures Mentions(StoreHistory(lists, weights, k, s), id) <==> Mentioned(lists[s], id)
    {
      StoreFirstDoc(lists, weights, k, s, id);
    }
    if Lists(out, id) {
      var i :| 0 <= i < |out| && out[i].docId == id;
      assert IsFusedDoc(history, out[i]);
    }
  }

  /** With duplicate-free lists, an id that only one store lists, at rank r, scores the store's weight over k + r. */
  lemma SingleListing(
    lists: RankLists, weights: map<string, real>, k: nat, order: seq<string>, out: seq<Fused>, s: string, r: nat, i: nat)
    requires IsOutcome(lists, weights, k, order, out) && i < |out| && s in lists
    requires 1 <= r <= |lists[s]| && lists[s][r - 1].docId == out[i].docId && NoRepeats(lists[s])
    requires forall t :: t in lists && t != s ==> !Mentioned(lists[t], out[i].docId)
    ensures out[i].score * (k + r) as real == if s in weights && weights[s] > 0.0 then weights[s] else 1.0
  {
    hide *;
    RankedScore(lists, weights, k, order, out, i);
    SingleFormula(lists, weights, k, order, out[i].docId, s, r);
    Quotient(if s in weights && weights[s] > 0.0 then weights[s] else 1.0, (k + r) as real);
  }

  lemma RankedScore(
    lists: RankLists, weights: map<string, real>, k: nat, order: seq<string>, out: seq<Fused>, i: nat)
    requires IsOutcome(lists, weights, k, order, out) && i < |out|
    ensures IsOrder(lists, order) && (forall s :: s in order ==> s in lists)
    ensures out[i].score == Formula(lists, weights, k, order, out[i].docId)
  {
    assert IsFusedDoc(Flat(lists, weights, k, order), out[i]);
    ScoreIsFormula(lists, weights, k, order, out[i].docId);
    hide IsFusion;
  }

  lemma SingleFormula(
    lists: RankLists, weights: map<string, real>, k: nat, order: seq<string>, id: string, s: string, r: nat)
    requires IsOrder(lists, order) && s in lists
    requires 1 <= r <= |lists[s]| && lists[s][r - 1].docId == id && NoRepeats(lists[s])
    requires forall t :: t in lists && t != s ==> !Mentioned(lists[t], id)
    ensures Formula(lists, weights, k, order, id)
         == (if s in weights && weights[s] > 0.0 then weights[s] else 1.0) / (k + r) as real
  {
    hide Mentioned, Formula, StoreScore, NoRepeats;
    assert s in order;
    var m :| 0 <= m < |order| && order[m] == s;
    OnlyStore(lists, weights, k, order, id, m);
    OneStore(lists, weights, k, s, id, r, |lists[s]|);
  }

  lemma Quotient(w: real, x: real)
    requires x > 0.0
    ensures w / x * x == w
  {
  }

  lemma {:induction false} OneStore(
    lists: RankLists, weights: map<string, real>, k: nat, s: string, id: string, r: nat, n: nat)
    requires s in lists && n <= |lists[s]| && NoRepeats(lists[s])
    requires 1 <= r <= |lists[s]| && lists[s][r - 1].docId == id
    ensures StoreScore(lists, weights, k, s, id, n)
         == if n < r then 0.0 else (if s in weights && weights[s] > 0.0 then weights[s] else 1.0) / (k + r) as real
  {
    if n > 0 {
      OneStore(lists, weights, k, s, id, r, n - 1);
      assert lists[s][n - 1].docId == id ==> n == r;
    }
  }

  lemma {:induction false} NoEntry(lists: RankLists, weights: map<string, real>, k: nat, s: string, id: string, n: nat)
    requires s in lists && n <= |lists[s]| && !Mentioned(lists[s], id)
    ensures StoreScore(lists, weights, k, s, id, n) == 0.0
  {
    if n > 0 {
      NoEntry(lists, weights, k, s, id, n - 1);
    }
  }

  /** The contributions of all other stores are nil. */
  lemma {:induction false} OnlyStore(
    lists: RankLists, weights: map<string, real>, k: nat, order: seq<string>, id: string, m: nat)
    requires (forall s :: s in order ==> s in lists) && Distinct(order)
    requires m <= |order| && forall j :: 0 <= j < |order| && j != m ==> !Mentioned(lists[order[j]], id)
    ensures Formula(lists, weights, k, order, id)
         == if m < |order| then StoreScore(lists, weights, k, order[m], id, |lists[order[m]]|) else 0.0
    decreases |order|
  {
    if order != [] {
      var n := |order| - 1;
      if m < n {
        OnlyStore(lists, weights, k, order[..n], id, m);
        NoEntry(lists, weights, k, order[n], id, |lists[order[n]]|);
      } else {
        OnlyStore(lists, weights, k, order[..n], id, n);
        if m > n {
          NoEntry(lists, weights, k, order[n], id, |lists[order[n]]|);
        }
      }
    }
  }

  // ---------- what does not depend on the iteration order, and what does ----------

  lemma {:induction false} ScoreConcat(a: seq<Contribution>, b: seq<Contribution>, id: string)
    ensures Score(a + b, id) == Score(a, id) + Score(b, id)
    ensures Mentions(a + b, id) <==> Mentions(a, id) || Mentions(b, id)
  {
    hide FirstDoc;
    if b == [] {
      assert a + b == a && Score(b, id) == 0.0;
    } else {
      var n := |b| - 1;
      ScoreConcat(a, b[..n], id);
      assert a + b == (a + b[..n]) + [b[n]] && b == b[..n] + [b[n]];
      MentionsAppend(a + b[..n], b[n], id);
      MentionsAppend(b[..n], b[n], id);
      assert Mentions(b, id) <==> Mentions(b[..n], id) || b[n].docId == id;
      hide Mentions, Score;
    }
  }

  function StoreHistory(lists: RankLists, weights: map<string, real>, k: nat, s: string): seq<Contribution>
    requires s in lists
  {
    ListContributions(lists[s], Weight(weights, s), k, |lists[s]|)
  }

  lemma ScoreOfLast(lists: RankLists, weights: map<string, real>, k: nat, order: seq<string>, id: string)
    requires (forall s :: s in order ==> s in lists) && order != []
    ensures
      var n := |order| - 1;
      Score(Flat(lists, weights, k, order), id)
        == Score(Flat(lists, weights, k, order[..n]), id) + Score(StoreHistory(lists, weights, k, order[n]), id)
  {
    var n := |order| - 1;
    ScoreConcat(Flat(lists, weights, k, order[..n]), StoreHistory(lists, weights, k, order[n]), id);
  }

  /** A store's share can be taken out of the middle of any order. */
  lemma {:induction false} ScoreWithout(
    lists: RankLists, weights: map<string, real>, k: nat, order: seq<string>, m: nat, id: string)
    requires (forall s :: s in order ==> s in lists) && m < |order|
    ensures
      var rest := order[..m] + order[m + 1..];
      Score(Flat(lists, weights, k, order), id)
        == Score(Flat(lists, weights, k, rest), id) + Score(StoreHistory(lists, weights, k, order[m]), id)
    decreases |order|
  {
    hide Score, Mentions, FirstDoc, ListContributions;
    var n := |order| - 1;
    var rest := order[..m] + order[m + 1..];
    ScoreOfLast(lists, weights, k, order, id);
    if m == n {
      assert rest == order[..n];
    } else {
      assert order[..n][..m] == order[..m] && order[..n][m + 1..] == order[m + 1..n];
      assert rest[..|rest| - 1] == order[..m] + order[m + 1..n] && rest[|rest| - 1] == order[n];
      ScoreWithout(lists, weights, k, order[..n], m, id);
      ScoreOfLast(lists, weights, k, rest, id);
    }
  }

  lemma {:induction false} SameScores(
    lists: RankLists, weights: map<string, real>, k: nat, order: seq<string>, order': seq<string>, id: string)
    requires Distinct(order) && Distinct(order') && forall s :: s in order <==> s in order'
    requires forall s :: s in order ==> s in lists
    ensures Score(Flat(lists, weights, k, order), id) == Score(Flat(lists, weights, k, order'), id)
    decreases |order|
  {
    SameMembersEmpty(order, order');
    if order != [] {
      var n := |order| - 1;
      assert order[n] in order';
      var m :| 0 <= m < |order'| && order'[m] == order[n];
      var rest, rest' := order[..n], order'[..m] + order'[m + 1..];
      ScoreWithout(lists, weights, k, order, n, id);
      ScoreWithout(lists, weights, k, order', m, id);
      assert order[..n] + order[n + 1..] == rest;
      SameRest(order, order', n, m);
      SameScores(lists, weights, k, rest, rest', id);
    }
  }

  lemma SameMembersEmpty(order: seq<string>, order': seq<string>)
    requires forall s :: s in order <==> s in order'
    ensures order == [] <==> order' == []
  {
    assert order != [] ==> order[0] in order';
    assert order' != [] ==> order'[0] in order;
  }

  lemma SameRest(order: seq<string>, order': seq<string>, n: nat, m: nat)
    requires Distinct(order) && Distinct(order') && forall s :: s in order <==> s in order'
    requires n == |order| - 1 && m < |order'| && order'[m] == order[n]
    ensures Distinct(order[..n]) && Distinct(order'[..m] + order'[m + 1..])
    ensures forall s :: s in order[..n] <==> s in order'[..m] + order'[m + 1..]
  {
    var rest, rest' := order[..n], order'[..m] + order'[m + 1..];
    forall s
      ensures s in rest <==> s in rest'
    {
      if s in rest {
        var i :| 0 <= i < n && order[i] == s;
        assert order[i] in order && s != order[n];
        var j :| 0 <= j < |order'| && order'[j] == s;
        assert rest'[if j < m then j else j - 1] == s;
      }
      if s in rest' {
        assert s in order' && s != order'[m];
        var i :| 0 <= i < |order| && order[i] == s;
        assert rest[i] == s;
      }
    }
  }

  predicate InSomeList(lists: RankLists, weights: map<string, real>, k: nat, stores: set<string>, id: string)
    requires forall s :: s in stores ==> s in lists
  {
    exists s :: s in stores && Mentions(StoreHistory(lists, weights, k, s), id)
  }

  lemma {:induction false} FlatMentions(
    lists: RankLists, weights: map<string, real>, k: nat, order: seq<string>, id: string)
    requires forall s :: s in order ==> s in lists
    ensures Mentions(Flat(lists, weights, k, order), id) <==> InSomeList(lists, weights, k, Members(order), id)
  {
    if order != [] {
      var n := |order| - 1;
      FlatMentions(lists, weights, k, order[..n], id);
      ScoreConcat(Flat(lists, weights, k, order[..n]), StoreHistory(lists, weights, k, order[n]), id);
      assert Members(order) == Members(order[..n]) + {order[n]};
      hide Mentions, Score, StoreHistory;
    }
  }

  function Members(order: seq<string>): (r: set<string>)
    ensures forall s :: s in r <==> s in order
  {
    set s | s in order
  }

  function Ranking(f: Fused): (string, real) {
    (f.docId, f.score)
  }

  /** In exact arithmetic, ids, scores and order of the fused list are the same for every iteration order. */
  lemma RankingIsDeterministic(
    lists: RankLists, weights: map<string, real>, k: nat, order: seq<string>, order': seq<string>,
    out: seq<Fused>, out': seq<Fused>)
    requires IsOutcome(lists, weights, k, order, out) && IsOutcome(lists, weights, k, order', out')
    ensures |out| == |out'| && forall i :: 0 <= i < |out| ==> Ranking(out[i]) == Ranking(out'[i])
  {
    var a, b := Stripped(out), Stripped(out');
    forall f
      ensures f in a <==> f in b
    {
      StrippedCarried(lists, weights, k, order, order', out, out', f);
      StrippedCarried(lists, weights, k, order', order, out', out, f);
    }
    StrippedAscends(out);
    StrippedAscends(out');
    FusedLessIsWeakOrder();
    StrictUnique(FusedLess, a, b);
    forall i | 0 <= i < |out|
      ensures Ranking(out[i]) == Ranking(out'[i])
    {
      assert a[i] == b[i];
    }
  }

  /** The fused list without the document payloads. */
  function Stripped(out: seq<Fused>): (r: seq<Fused>)
    ensures |r| == |out|
    ensures forall i :: 0 <= i < |out| ==> r[i] == out[i].(doc := "")
  {
    seq(|out|, i requires 0 <= i < |out| => out[i].(doc := ""))
  }

  lemma StrippedAscends(out: seq<Fused>)
    requires Ascending(FusedLess, out)
    ensures Ascending(FusedLess, Stripped(out))
  {
    forall i, j | 0 <= i < j < |out|
      ensures FusedLess(Stripped(out)[i], Stripped(out)[j])
    {
      assert FusedLess(out[i], out[j]);
    }
  }

  lemma StrippedCarried(
    lists: RankLists, weights: map<string, real>, k: nat, order: seq<string>, order': seq<string>,
    out: seq<Fused>, out': seq<Fused>, f: Fused)
    requires IsOrder(lists, order) && IsOrder(lists, order')
    requires IsFusion(Flat(lists, weights, k, order), out) && IsFusion(Flat(lists, weights, k, order'), out')
    ensures f in Stripped(out) ==> f in Stripped(out')
  {
    if f in Stripped(out) {
      var i :| 0 <= i < |out| && Stripped(out)[i] == f;
      assert IsFusedDoc(Flat(lists, weights, k, order), out[i]);
      FlatMentions(lists, weights, k, order, f.docId);
      FlatMentions(lists, weights, k, order', f.docId);
      assert Members(order) == Members(order');
      SameScores(lists, weights, k, order, order', f.docId);
      assert Lists(out', f.docId);
      var j :| 0 <= j < |out'| && out'[j].docId == f.docId;
      assert IsFusedDoc(Flat(lists, weights, k, order'), out'[j]);
      assert Stripped(out')[j] == f;
    }
  }

  // ---------- the document attached to an id ----------

  function EntryIndex(list: seq<Ranked>, id: string): (i: nat)
    requires Mentioned(list, id)
    ensures i < |list| && list[i].docId == id && forall j :: 0 <= j < i ==> list[j].docId != id
  {
    if list[0].docId == id then 0
    else
      assert Mentioned(list[1..], id) by {
        var j :| 0 <= j < |list| && list[j].docId == id;
        assert list[1..][j - 1].docId == id;
      }
      assert forall j :: 0 < j < |list| ==> list[j] == list[1..][j - 1];
      1 + EntryIndex(list[1..], id)
  }

  /** The document of a store's first entry for the id. */
  function EntryDoc(list: seq<Ranked>, id: string): string
    requires Mentioned(list, id)
  {
    list[EntryIndex(list, id)].doc
  }

  lemma {:induction false} FirstDocAt(history: seq<Contribution>, id: string, i: nat)
    requires i < |history| && history[i].docId == id && forall j :: 0 <= j < i ==> history[j].docId != id
    ensures Mentions(history, id) && FirstDoc(history, id) == history[i].doc
  {
    var n := |history| - 1;
    if i < n {
      FirstDocAt(history[..n], id, i);
    } else {
      assert !Mentions(history[..n], id);
    }
  }

  lemma StoreFirstDoc(lists: RankLists, weights: map<string, real>, k: nat, s: string, id: string)
    requires s in lists
    ensures
      var own := StoreHistory(lists, weights, k, s);
      && (Mentions(own, id) <==> Mentioned(lists[s], id))
      && (Mentions(own, id) ==> FirstDoc(own, id) == EntryDoc(lists[s], id))
  {
    var own, list := StoreHistory(lists, weights, k, s), lists[s];
    assert |own| == |list| && forall j :: 0 <= j < |list| ==> own[j].docId == list[j].docId && own[j].doc == list[j].doc;
    hide FirstDoc, StoreHistory, ListContributions;
    if Mentions(own, id) {
      var j :| 0 <= j < |own| && own[j].docId == id;
      assert list[j].docId == id;
    }
    if Mentioned(list, id) {
      FirstDocAt(own, id, EntryIndex(list, id));
    }
  }

  lemma {:induction false} FirstDocConcat(a: seq<Contribution>, b: seq<Contribution>, id: string)
    requires Mentions(a, id) || Mentions(b, id)
    ensures Mentions(a + b, id)
    ensures FirstDoc(a + b, id) == if Mentions(a, id) then FirstDoc(a, id) else FirstDoc(b, id)
  {
    if b == [] {
      assert a + b == a && !Mentions(b, id);
    } else {
      var n := |b| - 1;
      assert a + b == (a + b[..n]) + [b[n]] && b == b[..n] + [b[n]];
      MentionsAppend(a + b[..n], b[n], id);
      MentionsAppend(b[..n], b[n], id);
      ScoreConcat(a, b[..n], id);
      if Mentions(a, id) || Mentions(b[..n], id) {
        FirstDocConcat(a, b[..n], id);
      }
      hide Mentions, FirstDoc, Score;
    }
  }

  /** The document comes from the entry of some store that lists the id. */
  lemma {:induction false} FlatFirstDoc(
    lists: RankLists, weights: map<string, real>, k: nat, order: seq<string>, id: string) returns (s: string)
    requires forall t :: t in order ==> t in lists
    requires Mentions(Flat(lists, weights, k, order), id)
    ensures s in lists && Mentioned(lists[s], id)
    ensures FirstDoc(Flat(lists, weights, k, order), id) == EntryDoc(lists[s], id)
  {
    var n := |order| - 1;
    var before, own := Flat(lists, weights, k, order[..n]), StoreHistory(lists, weights, k, order[n]);
    ScoreConcat(before, own, id);
    FirstDocConcat(before, own, id);
    StoreFirstDoc(lists, weights, k, order[n], id);
    if Mentions(before, id) {
      s := FlatFirstDoc(lists, weights, k, order[..n], id);
    } else {
      s := order[n];
    }
    hide Mentions, FirstDoc, Score, EntryDoc, StoreHistory, ListContributions;
  }

  /** A store that lists the id and is walked first supplies the document. */
  lemma {:induction false} FirstStoreWins(
    lists: RankLists, weights: map<string, real>, k: nat, order: seq<string>, id: string)
    requires (forall t :: t in order ==> t in lists) && order != [] && Mentioned(lists[order[0]], id)
    ensures Mentions(Flat(lists, weights, k, order), id)
    ensures FirstDoc(Flat(lists, weights, k, order), id) == EntryDoc(lists[order[0]], id)
  {
    var n := |order| - 1;
    var before, own := Flat(lists, weights, k, order[..n]), StoreHistory(lists, weights, k, order[n]);
    StoreFirstDoc(lists, weights, k, order[n], id);
    if n == 0 {
      assert before == [] && before + own == own;
    } else {
      FirstStoreWins(lists, weights, k, order[..n], id);
      FirstDocConcat(before, own, id);
    }
    hide Mentions, FirstDoc, EntryDoc, StoreHistory, ListContributions;
  }

  // ---------- every order has an outcome ----------

  lemma {:induction false} Enumerate(keys: set<string>) returns (order: seq<string>)
    ensures Distinct(order) && forall s :: s in order <==> s in keys
  {
    order := [];
    if keys != {} {
      var s :| s in keys;
      var rest := Enumerate(keys - {s});
      order := rest + [s];
    }
  }

  /** An iteration order that starts with the given store. */
  lemma OrderFrom(lists: RankLists, s: string) returns (order: seq<string>)
    requires s in lists
    ensures IsOrder(lists, order) && order != [] && order[0] == s
  {
    var rest := Enumerate(lists.Keys - {s});
    order := [s] + rest;
    assert s !in rest;
  }

  lemma {:induction false} Entries(history: seq<Contribution>, ids: set<string>) returns (all: seq<Fused>)
    requires forall id :: id in ids ==> Mentions(history, id)
    ensures forall i, j :: 0 <= i < j < |all| ==> all[i].docId != all[j].docId
    ensures forall i :: 0 <= i < |all| ==> IsFusedDoc(history, all[i]) && all[i].docId in ids
    ensures forall id :: id in ids ==> Lists(all, id)
  {
    hide Mentions, Score, FirstDoc;
    all := [];
    if ids != {} {
      var id :| id in ids;
      var rest := Entries(history, ids - {id});
      all := rest + [Fused(id, FirstDoc(history, id), Score(history, id))];
      assert all[|rest|].docId == id;
      forall other | other in ids && other != id
        ensures Lists(all, other)
      {
        assert Lists(rest, other);
        var i :| 0 <= i < |rest| && rest[i].docId == other;
        assert all[i].docId == other;
      }
    }
  }

  lemma FusionExists(history: seq<Contribution>) returns (out: seq<Fused>)
    ensures IsFusion(history, out)
  {
    var ids := set i | 0 <= i < |history| :: history[i].docId;
    assert forall id :: Mentions(history, id) <==> id in ids;
    var all := Entries(history, ids);
    FusedLessIsWeakOrder();
    var perm;
    out, perm := SortedReordering(FusedLess, all);
    SortedFusion(history, all, out, perm);
  }

  // ---------- exactly when the result does not depend on the iteration order ----------

  /** All stores that list the id have the same document at their first entry for it. */
  predicate StoresAgree(lists: RankLists, id: string) {
    forall s, t :: s in lists && t in lists && Mentioned(lists[s], id) && Mentioned(lists[t], id) ==>
      EntryDoc(lists[s], id) == EntryDoc(lists[t], id)
  }

  lemma OutcomeFrom(lists: RankLists, weights: map<string, real>, k: nat, s: string, id: string)
      returns (order: seq<string>, out: seq<Fused>, i: nat)
    requires s in lists && Mentioned(lists[s], id)
    ensures IsOutcome(lists, weights, k, order, out)
    ensures i < |out| && out[i].docId == id && out[i].doc == EntryDoc(lists[s], id)
  {
    order := OrderFrom(lists, s);
    out := FusionExists(Flat(lists, weights, k, order));
    FirstStoreWins(lists, weights, k, order, id);
    assert Lists(out, id);
    i :| 0 <= i < |out| && out[i].docId == id;
    assert IsFusedDoc(Flat(lists, weights, k, order), out[i]);
  }

  /** Two stores that disagree: putting either of them first gives two outcomes with different documents. */
  lemma DisagreementShows(lists: RankLists, weights: map<string, real>, k: nat, s: string, t: string, id: string)
      returns (order: seq<string>, order': seq<string>, out: seq<Fused>, out': seq<Fused>, i: nat)
    requires s in lists && t in lists && Mentioned(lists[s], id) && Mentioned(lists[t], id)
    requires EntryDoc(lists[s], id) != EntryDoc(lists[t], id)
    ensures IsOutcome(lists, weights, k, order, out) && IsOutcome(lists, weights, k, order', out')
    ensures i < |out| == |out'| && out[i].docId == out'[i].docId == id && out[i].doc != out'[i].doc
  {
    var j;
    order, out, i := OutcomeFrom(lists, weights, k, s, id);
    order', out', j := OutcomeFrom(lists, weights, k, t, id);
    RankingIsDeterministic(lists, weights, k, order, order', out, out');
    assert Ranking(out[i]) == Ranking(out'[i]) && Ranking(out[j]) == Ranking(out'[j]);
    assert i == j;
  }

  lemma AgreementFixes(
    lists: RankLists, weights: map<string, real>, k: nat, order: seq<string>, order': seq<string>,
    out: seq<Fused>, out': seq<Fused>, i: nat)
    requires IsOutcome(lists, weights, k, order, out) && IsOutcome(lists, weights, k, order', out')
    requires i < |out| && i < |out'| && out[i].docId == out'[i].docId && StoresAgree(lists, out[i].docId)
    ensures out[i].doc == out'[i].doc
  {
    assert IsFusedDoc(Flat(lists, weights, k, order), out[i]);
    assert IsFusedDoc(Flat(lists, weights, k, order'), out'[i]);
    var s := FlatFirstDoc(lists, weights, k, order, out[i].docId);
    var t := FlatFirstDoc(lists, weights, k, order', out[i].docId);
  }

  /** In exact arithmetic the whole result is independent of the iteration order if and only if, for every id, the
      stores that list it agree on its document. */
  lemma DeterministicIff(lists: RankLists, weights: map<string, real>, k: nat)
    ensures
      (forall order, order', out, out' ::
        IsOutcome(lists, weights, k, order, out) && IsOutcome(lists, weights, k, order', out') ==> out == out')
      <==> forall id :: StoresAgree(lists, id)
  {
    hide IsOutcome, Mentioned, EntryDoc;
    if id :| !StoresAgree(lists, id) {
      var s, t :| s in lists && t in lists && Mentioned(lists[s], id) && Mentioned(lists[t], id)
        && EntryDoc(lists[s], id) != EntryDoc(lists[t], id);
      var order, order', out, out', i := DisagreementShows(lists, weights, k, s, t, id);
      assert out != out';
    } else {
      forall order, order', out, out' |
        IsOutcome(lists, weights, k, order, out) && IsOutcome(lists, weights, k, order', out')
        ensures out == out'
      {
        RankingIsDeterministic(lists, weights, k, order, order', out, out');
        forall i | 0 <= i < |out|
          ensures out[i] == out'[i]
        {
          assert Ranking(out[i]) == Ranking(out'[i]);
          AgreementFixes(lists, weights, k, order, order', out, out', i);
        }
      }
    }
  }

  /** The document of a single id is independent of the iteration order if and only if the stores that list it agree. */
  lemma PayloadFixedIff(lists: RankLists, weights: map<string, real>, k: nat, id: string)
    ensures
      (forall order, order', out: seq<Fused>, out': seq<Fused>, i: nat ::
        IsOutcome(lists, weights, k, order, out) && IsOutcome(lists, weights, k, order', out')
        && i < |out| && i < |out'| && out[i].docId == out'[i].docId == id
        ==> out[i].doc == out'[i].doc)
      <==> StoresAgree(lists, id)
  {
    hide IsOutcome, Mentioned, EntryDoc;
    if !StoresAgree(lists, id) {
      var s, t :| s in lists && t in lists && Mentioned(lists[s], id) && Mentioned(lists[t], id)
        && EntryDoc(lists[s], id) != EntryDoc(lists[t], id);
      var order, order', out, out', i := DisagreementShows(lists, weights, k, s, t, id);
      assert out[i].doc != out'[i].doc;
    } else {
      forall order, order', out: seq<Fused>, out': seq<Fused>, i: nat |
        IsOutcome(lists, weights, k, order, out) && IsOutcome(lists, weights, k, order', out')
        && i < |out| && i < |out'| && out[i].docId == out'[i].docId == id
        ensures out[i].doc == out'[i].doc
      {
        AgreementFixes(lists, weights, k, order, order', out, out', i);
      }
    }
  }

  /** Two stores with different documents under one id: two results for one input. */
  lemma PayloadDependsOnOrder(weights: map<string, real>, k: nat)
      returns (order: seq<string>, order': seq<string>, out: seq<Fused>, out': seq<Fused>)
    ensures
      var lists: RankLists := map["a" := [Ranked("id", "one")], "b" := [Ranked("id", "two")]];
      && IsOutcome(lists, weights, k, order, out) && IsOutcome(lists, weights, k, order', out')
      && out != out'
  {
    var lists: RankLists := map["a" := [Ranked("id", "one")], "b" := [Ranked("id", "two")]];
    assert lists["a"][0].docId == "id" && lists["b"][0].docId == "id";
    var i;
    order, order', out, out', i := DisagreementShows(lists, weights, k, "a", "b", "id");
  }

  // ---------- dominance ----------

  ghost predicate Contains(list: seq<Ranked>, id: string, i: nat) {
    i < |list| && list[i].docId == id
  }

  predicate NoRepeats(list: seq<Ranked>) {
    forall i, j :: 0 <= i < j < |list| ==> list[i].docId != list[j].docId
  }

  lemma {:induction false} ListScore(list: seq<Ranked>, w: real, k: nat, n: nat, id: string, i: nat)
    requires n <= |list| && NoRepeats(list)
    requires Contains(list, id, i) || (i == |list| && !Mentioned(list, id))
    ensures Score(ListContributions(list, w, k, n), id) == if i < n then Share(w, k, i) else 0.0
  {
    if n > 0 {
      ListScore(list, w, k, n - 1, id, i);
      assert ListContributions(list, w, k, n)[..n - 1] == ListContributions(list, w, k, n - 1);
    }
  }

  lemma ShareFalls(w: real, k: nat, i: nat, j: nat)
    requires w > 0.0 && i < j
    ensures Share(w, k, i) > Share(w, k, j) > 0.0
  {
    var a, b := k as real + (i + 1) as real, k as real + (j + 1) as real;
    assert 0.0 < a < b;
    assert w / a - w / b == w * (b - a) / (a * b) by {
      assert w / a == w * b / (a * b);
      assert w / b == w * a / (a * b);
    }
    assert a * b > 0.0 && w * (b - a) > 0.0;
  }

  /** In this store `d` is ranked better than `e`, or `e` is not ranked at all. */
  ghost predicate Beats(list: seq<Ranked>, d: string, e: string) {
    forall j: nat :: Contains(list, e, j) ==> exists i: nat :: i < j && Contains(list, d, i)
  }

  lemma StoreScores(lists: RankLists, weights: map<string, real>, k: nat, s: string, d: string, e: string)
    requires s in lists && NoRepeats(lists[s]) && Beats(lists[s], d, e)
    ensures Score(StoreHistory(lists, weights, k, s), d) >= Score(StoreHistory(lists, weights, k, s), e)
    ensures Mentions(StoreHistory(lists, weights, k, s), e) ==>
        Score(StoreHistory(lists, weights, k, s), d) > Score(StoreHistory(lists, weights, k, s), e)
  {
    var list, w := lists[s], Weight(weights, s);
    var i := Locate(list, d);
    var j := Locate(list, e);
    ListScore(list, w, k, |list|, d, i);
    ListScore(list, w, k, |list|, e, j);
    if j < |list| {
      assert Contains(list, e, j);
      var i': nat :| i' < j && Contains(list, d, i');
      OneIndex(list, d, i', i);
      ShareFalls(w, k, i, j);
    } else {
      if i < |list| {
        ShareFalls(w, k, i, i + 1);
      }
      assert forall m :: 0 <= m < |list| ==> StoreHistory(lists, weights, k, s)[m].docId == list[m].docId;
    }
  }

  lemma OneIndex(list: seq<Ranked>, id: string, i: nat, j: nat)
    requires NoRepeats(list) && Contains(list, id, i)
    requires Contains(list, id, j) || (j == |list| && !Mentioned(list, id))
    ensures i == j
  {
  }

  lemma {:induction false} Locate(list: seq<Ranked>, id: string) returns (i: nat)
    ensures Contains(list, id, i) || (i == |list| && !Mentioned(list, id))
  {
    if m: nat :| Contains(list, id, m) {
      i := m;
    } else {
      i := |list|;
      assert forall j: nat {:trigger list[j]} :: j < |list| && list[j].docId == id ==> Contains(list, id, j);
    }
  }

  lemma {:induction false} OrderScores(
    lists: RankLists, weights: map<string, real>, k: nat, order: seq<string>, d: string, e: string)
    requires forall s :: s in order ==> s in lists && NoRepeats(lists[s]) && Beats(lists[s], d, e)
    ensures Score(Flat(lists, weights, k, order), d) >= Score(Flat(lists, weights, k, order), e)
    ensures Mentions(Flat(lists, weights, k, order), e) ==>
        Score(Flat(lists, weights, k, order), d) > Score(Flat(lists, weights, k, order), e)
  {
    if order != [] {
      var n := |order| - 1;
      OrderScores(lists, weights, k, order[..n], d, e);
      StoreScores(lists, weights, k, order[n], d, e);
      var before, own := Flat(lists, weights, k, order[..n]), StoreHistory(lists, weights, k, order[n]);
      ScoreConcat(before, own, d);
      ScoreConcat(before, own, e);
    }
  }

  /** With duplicate-free lists, a document ranked better in every list that has the other comes strictly earlier. */
  lemma DominantComesFirst(
    lists: RankLists, weights: map<string, real>, k: nat, order: seq<string>, out: seq<Fused>, i: nat, j: nat)
    requires IsOutcome(lists, weights, k, order, out)
    requires i < |out| && j < |out| && i != j
    requires forall s :: s in lists ==> NoRepeats(lists[s]) && Beats(lists[s], out[i].docId, out[j].docId)
    ensures i < j && out[i].score > out[j].score
  {
    OrderScores(lists, weights, k, order, out[i].docId, out[j].docId);
    assert IsFusedDoc(Flat(lists, weights, k, order), out[i]) && IsFusedDoc(Flat(lists, weights, k, order), out[j]);
    assert out[i].score > out[j].score;
    assert j < i ==> FusedLess(out[j], out[i]);
  }
}
