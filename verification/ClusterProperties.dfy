/** Conservation of ids in a clustering pass, as internal/synthcluster/cluster.go:27-29 promises it, and exactly when the
    code keeps that promise. */
module ClusterProperties {
  import opened Graph
  import opened Sorting
  import opened Clustering

  // ---------- conservation of ids ----------

  function Ids(docs: seq<Doc>): multiset<string> {
    if docs == [] then multiset{} else Ids(docs[..|docs| - 1]) + multiset{docs[|docs| - 1].id}
  }

  function MemberIds(docs: seq<Doc>): multiset<string> {
    if docs == [] then multiset{} else MemberIds(docs[..|docs| - 1]) + multiset(Members(docs[|docs| - 1]))
  }

  predicate DistinctIds(docs: seq<Doc>) {
    forall i, j :: 0 <= i < j < |docs| ==> docs[i].id != docs[j].id
  }

  ghost predicate IsAlone(docs: seq<Doc>, links: Edges, i: nat) {
    |Component(links, |docs|, i)| == 1
  }

  /** Member lists that documents of `s` already carried into the pass and that nobody replaces, because the
      document ends up alone. */
  ghost function StaleIds(docs: seq<Doc>, links: Edges, s: set<nat>, n: nat): multiset<string>
    requires n <= |docs|
  {
    if n == 0 then multiset{}
    else
      StaleIds(docs, links, s, n - 1) + if n - 1 in s then OwnStale(docs, links, n - 1) else multiset{}
  }

  ghost function OwnStale(docs: seq<Doc>, links: Edges, i: nat): multiset<string>
    requires i < |docs|
  {
    if IsAlone(docs, links, i) then multiset(Members(docs[i])) else multiset{}
  }

  lemma {:induction false} StaleUnion(docs: seq<Doc>, links: Edges, s: set<nat>, t: set<nat>, n: nat)
    requires n <= |docs| && s !! t
    ensures StaleIds(docs, links, s + t, n) == StaleIds(docs, links, s, n) + StaleIds(docs, links, t, n)
  {
    hide OwnStale;
    if n > 0 {
      StaleUnion(docs, links, s, t, n - 1);
      var own := OwnStale(docs, links, n - 1);
      Exchange(StaleIds(docs, links, s, n - 1), StaleIds(docs, links, t, n - 1),
        if n - 1 in s then own else multiset{}, if n - 1 in t then own else multiset{});
    }
  }

  lemma {:induction false} StaleSingle(docs: seq<Doc>, links: Edges, i: nat, n: nat)
    requires n <= |docs| && i < |docs| && IsAlone(docs, links, i)
    ensures StaleIds(docs, links, {i}, n) == if i < n then multiset(Members(docs[i])) else multiset{}
  {
    assert OwnStale(docs, links, i) == multiset(Members(docs[i]));
    hide IsAlone, Members, OwnStale;
    if n > 0 {
      StaleSingle(docs, links, i, n - 1);
    }
  }

  lemma {:induction false} StaleNone(docs: seq<Doc>, links: Edges, s: set<nat>, n: nat)
    requires n <= |docs|
    requires forall i: nat :: i in s && i < n ==> !IsAlone(docs, links, i) || Members(docs[i]) == []
    ensures StaleIds(docs, links, s, n) == multiset{}
  {
    hide IsAlone, Members;
    if n > 0 {
      StaleNone(docs, links, s, n - 1);
    }
  }

  lemma {:induction false} StaleSome(docs: seq<Doc>, links: Edges, s: set<nat>, n: nat, i: nat)
    requires n <= |docs| && i in s && i < n
    requires IsAlone(docs, links, i) && Members(docs[i]) != []
    ensures StaleIds(docs, links, s, n) != multiset{}
  {
    hide IsAlone, Members;
    if i < n - 1 {
      StaleSome(docs, links, s, n - 1, i);
    } else {
      assert Members(docs[i])[0] in StaleIds(docs, links, s, n);
    }
  }

  lemma {:induction false} IdsOfAll(docs: seq<Doc>, s: set<nat>, n: nat)
    requires n <= |docs| && forall i :: 0 <= i < n ==> i in s
    ensures IdsOf(docs, s, n) == Ids(docs[..n])
  {
    if n > 0 {
      IdsOfAll(docs, s, n - 1);
      assert docs[..n][..n - 1] == docs[..n - 1];
    }
  }

  ghost function CoveredBy(docs: seq<Doc>, links: Edges, winners: seq<nat>): set<nat> {
    if winners == [] then {}
    else CoveredBy(docs, links, winners[..|winners| - 1]) + Component(links, |docs|, winners[|winners| - 1])
  }

  lemma {:induction false} CoveredByMeaning(docs: seq<Doc>, links: Edges, winners: seq<nat>)
    ensures forall i: nat :: i in CoveredBy(docs, links, winners) <==>
        i < |docs| && exists k :: 0 <= k < |winners| && Connected(links, winners[k], i)
  {
    if winners != [] {
      var init := winners[..|winners| - 1];
      CoveredByMeaning(docs, links, init);
      forall i: nat
        ensures i in CoveredBy(docs, links, winners) <==>
            i < |docs| && exists k :: 0 <= k < |winners| && Connected(links, winners[k], i)
      {
        if k :| 0 <= k < |winners| && Connected(links, winners[k], i) {
          if k < |init| {
            assert init[k] == winners[k];
          }
        }
        if k :| 0 <= k < |init| && Connected(links, init[k], i) {
          assert winners[k] == init[k];
        }
      }
    }
  }

  lemma CoveredDisjoint(docs: seq<Doc>, links: Edges, winners: seq<nat>, m: nat)
    requires m < |winners|
    requires forall j :: 0 <= j < m ==> !Connected(links, winners[j], winners[m])
    ensures CoveredBy(docs, links, winners[..m]) !! Component(links, |docs|, winners[m])
  {
    CoveredByMeaning(docs, links, winners[..m]);
    forall i | i in CoveredBy(docs, links, winners[..m])
      ensures i !in Component(links, |docs|, winners[m])
    {
      var k :| 0 <= k < m && Connected(links, winners[..m][k], i);
      if Connected(links, winners[m], i) {
        ConnectedSym(links, winners[m], i);
        ConnectedTrans(links, winners[k], i, winners[m]);
      }
    }
  }

  /** One representative accounts for exactly the ids of its cluster, plus a stale list it passed through. */
  lemma RepresentativeIds(docs: seq<Doc>, links: Edges, hash: Hash, tag: string, w: nat, d: Doc)
    requires w < |docs| && Represents(docs, hash, tag, Component(links, |docs|, w), w, d)
    ensures multiset{d.id} + multiset(Members(d))
         == IdsOf(docs, Component(links, |docs|, w), |docs|) + StaleIds(docs, links, Component(links, |docs|, w), |docs|)
  {
    var s, n := Component(links, |docs|, w), |docs|;
    IdsOfSingle(docs, w, n);
    if |s| == 1 {
      SingletonIs(s, w);
      StaleSingle(docs, links, w, n);
    } else {
      IdsOfUnion(docs, {w}, s - {w}, n);
      assert {w} + (s - {w}) == s;
      forall i | i in s
        ensures !IsAlone(docs, links, i)
      {
        ComponentsAgree(links, n, w, i);
      }
      StaleNone(docs, links, s, n);
    }
  }

  lemma SingletonIs<T>(s: set<T>, x: T)
    requires |s| == 1 && x in s
    ensures s == {x}
  {
    assert |s - {x}| == 0;
  }

  /** `reps` accounts for exactly the documents of `s`. */
  ghost predicate Balanced(docs: seq<Doc>, links: Edges, s: set<nat>, reps: seq<Doc>) {
    Ids(reps) + MemberIds(reps) == IdsOf(docs, s, |docs|) + StaleIds(docs, links, s, |docs|)
  }

  lemma BalancedStep(docs: seq<Doc>, links: Edges, before: set<nat>, s: set<nat>, reps: seq<Doc>, last: Doc)
    requires Balanced(docs, links, before, reps) && before !! s
    requires multiset{last.id} + multiset(Members(last)) == IdsOf(docs, s, |docs|) + StaleIds(docs, links, s, |docs|)
    ensures Balanced(docs, links, before + s, reps + [last])
  {
    IdsOfUnion(docs, before, s, |docs|);
    StaleUnion(docs, links, before, s, |docs|);
    IdsOfLastRep(reps, last);
    Exchange(Ids(reps), multiset{last.id}, MemberIds(reps), multiset(Members(last)));
    Exchange(IdsOf(docs, before, |docs|), StaleIds(docs, links, before, |docs|),
      IdsOf(docs, s, |docs|), StaleIds(docs, links, s, |docs|));
    hide IdsOf, StaleIds, Ids, MemberIds, Members;
  }

  lemma IdsOfLastRep(reps: seq<Doc>, last: Doc)
    ensures Ids(reps + [last]) == Ids(reps) + multiset{last.id}
    ensures MemberIds(reps + [last]) == MemberIds(reps) + multiset(Members(last))
  {
    assert (reps + [last])[..|reps|] == reps;
  }

  lemma {:induction false} AccountedIds(
    docs: seq<Doc>, links: Edges, hash: Hash, tag: string, winners: seq<nat>, reps: seq<Doc>, m: nat)
    requires Clustered(docs, links, hash, tag, winners, reps) && m <= |reps|
    ensures Balanced(docs, links, CoveredBy(docs, links, winners[..m]), reps[..m])
  {
    hide Component, Represents, IsAlone, Members, Sorted, IdsOf, StaleIds;
    if m == 0 {
      IdsOfEmpty(docs, |docs|);
      StaleNone(docs, links, {}, |docs|);
    } else {
      AccountedIds(docs, links, hash, tag, winners, reps, m - 1);
      var w := winners[m - 1];
      RepresentativeIds(docs, links, hash, tag, w, reps[m - 1]);
      CoveredDisjoint(docs, links, winners, m - 1);
      assert winners[..m][..m - 1] == winners[..m - 1] && winners[..m][m - 1] == w;
      BalancedStep(docs, links, CoveredBy(docs, links, winners[..m - 1]), Component(links, |docs|, w), reps[..m - 1],
        reps[m - 1]);
      hide Balanced;
      assert reps[..m] == reps[..m - 1] + [reps[m - 1]];
    }
  }

  /** Every id of the input turns up once as a representative or in a member list; only lists that lone documents
      brought along come on top. */
  lemma IdsAccountedFor(
    docs: seq<Doc>, links: Edges, hash: Hash, tag: string, winners: seq<nat>, reps: seq<Doc>)
    requires Clustered(docs, links, hash, tag, winners, reps)
    ensures Ids(reps) + MemberIds(reps) == Ids(docs) + StaleIds(docs, links, Below(|docs|), |docs|)
  {
    AccountedIds(docs, links, hash, tag, winners, reps, |reps|);
    AllAreCovered(docs, links, winners);
    assert winners[..|reps|] == winners && reps[..|reps|] == reps && docs[..|docs|] == docs;
    hide Clustered, CoveredBy, Ids, MemberIds, IdsOf, StaleIds, Below;
    IdsOfAll(docs, Below(|docs|), |docs|);
  }

  lemma AllAreCovered(docs: seq<Doc>, links: Edges, winners: seq<nat>)
    requires forall i: nat :: i < |docs| ==> IsCovered(links, winners, i)
    ensures CoveredBy(docs, links, winners) == Below(|docs|)
  {
    CoveredByMeaning(docs, links, winners);
    forall i: nat | i < |docs|
      ensures i in CoveredBy(docs, links, winners)
    {
      assert IsCovered(links, winners, i);
      var k :| 0 <= k < |winners| && Connected(links, i, winners[k]);
      ConnectedSym(links, i, winners[k]);
    }
  }

  /** As multisets, ids are conserved exactly when no document that stays alone already carries a member list, as the
      output of an earlier pass does. */
  lemma IdsConservedIff(
    docs: seq<Doc>, links: Edges, hash: Hash, tag: string, winners: seq<nat>, reps: seq<Doc>)
    requires Clustered(docs, links, hash, tag, winners, reps)
    ensures Ids(reps) + MemberIds(reps) == Ids(docs)
       <==> forall i: nat :: i < |docs| && IsAlone(docs, links, i) ==> Members(docs[i]) == []
  {
    IdsAccountedFor(docs, links, hash, tag, winners, reps);
    var stale := StaleIds(docs, links, Below(|docs|), |docs|);
    if forall i: nat :: i < |docs| && IsAlone(docs, links, i) ==> Members(docs[i]) == [] {
      StaleNone(docs, links, Below(|docs|), |docs|);
    } else {
      var i: nat :| i < |docs| && IsAlone(docs, links, i) && Members(docs[i]) != [];
      StaleSome(docs, links, Below(|docs|), |docs|, i);
      assert (Ids(docs) + stale) - Ids(docs) == stale;
    }
  }

  // ---------- every input id exactly once ----------

  /** A document that stays alone brought along a list that names `id`. */
  ghost predicate IsStale(docs: seq<Doc>, links: Edges, id: string) {
    exists i: nat :: i < |docs| && IsAlone(docs, links, i) && id in Members(docs[i])
  }

  lemma {:induction false} IdsMember(docs: seq<Doc>, id: string)
    ensures id in Ids(docs) <==> exists i :: 0 <= i < |docs| && docs[i].id == id
  {
    if docs != [] {
      IdsMember(docs[..|docs| - 1], id);
    }
  }

  lemma IdsLast(docs: seq<Doc>, id: string)
    requires docs != []
    ensures Ids(docs)[id] == Ids(docs[..|docs| - 1])[id] + if id == docs[|docs| - 1].id then 1 else 0
  {
  }

  lemma {:induction false} RepeatedTwice(docs: seq<Doc>, i: nat, j: nat)
    requires i < j < |docs| && docs[i].id == docs[j].id
    ensures Ids(docs)[docs[i].id] >= 2
  {
    hide Ids;
    var n := |docs| - 1;
    IdsLast(docs, docs[i].id);
    if j < n {
      RepeatedTwice(docs[..n], i, j);
    } else {
      IdsMember(docs[..n], docs[i].id);
      assert docs[..n][i].id == docs[i].id;
    }
  }

  lemma {:induction false} DistinctOnce(docs: seq<Doc>, i: nat)
    requires DistinctIds(docs) && i < |docs|
    ensures Ids(docs)[docs[i].id] == 1
  {
    hide Ids;
    var n := |docs| - 1;
    IdsLast(docs, docs[i].id);
    if i < n {
      DistinctOnce(docs[..n], i);
    } else {
      IdsMember(docs[..n], docs[i].id);
    }
  }

  lemma IdsOnce(docs: seq<Doc>)
    ensures (forall i :: 0 <= i < |docs| ==> Ids(docs)[docs[i].id] == 1) <==> DistinctIds(docs)
  {
    if DistinctIds(docs) {
      forall i | 0 <= i < |docs|
        ensures Ids(docs)[docs[i].id] == 1
      {
        DistinctOnce(docs, i);
      }
    } else {
      var i, j :| 0 <= i < j < |docs| && docs[i].id == docs[j].id;
      RepeatedTwice(docs, i, j);
    }
  }

  lemma {:induction false} StaleMember(docs: seq<Doc>, links: Edges, n: nat, id: string)
    requires n <= |docs|
    ensures id in StaleIds(docs, links, Below(|docs|), n)
       <==> exists i: nat :: i < n && IsAlone(docs, links, i) && id in Members(docs[i])
  {
    hide IsAlone, Members;
    if n > 0 {
      StaleMember(docs, links, n - 1, id);
      assert id in OwnStale(docs, links, n - 1) <==> IsAlone(docs, links, n - 1) && id in Members(docs[n - 1]);
    }
  }

  /** Every input id occurs exactly once, as a representative or in one member list, if and only if the ids are
      distinct and no document that stays alone brought along a list that names one of them. */
  lemma InputIdsOnceIff(
    docs: seq<Doc>, links: Edges, hash: Hash, tag: string, winners: seq<nat>, reps: seq<Doc>)
    requires Clustered(docs, links, hash, tag, winners, reps)
    ensures (forall i :: 0 <= i < |docs| ==> (Ids(reps) + MemberIds(reps))[docs[i].id] == 1)
       <==> DistinctIds(docs) && forall i :: 0 <= i < |docs| ==> !IsStale(docs, links, docs[i].id)
  {
    IdsAccountedFor(docs, links, hash, tag, winners, reps);
    IdsOnce(docs);
    var stale := StaleIds(docs, links, Below(|docs|), |docs|);
    hide Clustered, StaleIds, DistinctIds;
    forall i | 0 <= i < |docs|
      ensures docs[i].id in Ids(docs) && (docs[i].id in stale <==> IsStale(docs, links, docs[i].id))
    {
      IdsMember(docs, docs[i].id);
      StaleMember(docs, links, |docs|, docs[i].id);
    }
    hide Ids, MemberIds, IsStale;
    assert forall id :: (Ids(reps) + MemberIds(reps))[id] == Ids(docs)[id] + stale[id];
    assert forall i :: 0 <= i < |docs| ==>
        ((Ids(reps) + MemberIds(reps))[docs[i].id] == 1 <==> Ids(docs)[docs[i].id] == 1 && docs[i].id !in stale);
  }

  // ---------- no representative lists itself ----------

  lemma {:induction false} IdsOfMember(docs: seq<Doc>, s: set<nat>, n: nat, id: string)
    requires n <= |docs|
    ensures id in IdsOf(docs, s, n) <==> exists i :: i in s && i < n && docs[i].id == id
  {
    if n > 0 {
      IdsOfMember(docs, s, n - 1, id);
    }
  }

  /** A representative lists itself exactly when another document of its cluster has its id, or when it is alone and
      came with a list that names it. */
  lemma NotOwnMember(
    docs: seq<Doc>, links: Edges, hash: Hash, tag: string, winners: seq<nat>, reps: seq<Doc>, k: nat)
    requires Clustered(docs, links, hash, tag, winners, reps) && k < |reps|
    ensures
      var w := winners[k];
      reps[k].id in Members(reps[k]) <==>
        if IsAlone(docs, links, w) then docs[w].id in Members(docs[w])
        else exists i :: i in Component(links, |docs|, w) && i != w && docs[i].id == docs[w].id
  {
    var s := Component(links, |docs|, winners[k]);
    if !IsAlone(docs, links, winners[k]) {
      IdsOfMember(docs, s - {winners[k]}, |docs|, reps[k].id);
      assert reps[k].id in Members(reps[k]) <==> reps[k].id in multiset(Members(reps[k]));
    }
  }

  /** With distinct ids, the promise that no representative lists itself holds if and only if no document that stays
      alone came with a list that names itself. */
  lemma NoOwnMembersIff(
    docs: seq<Doc>, links: Edges, hash: Hash, tag: string, winners: seq<nat>, reps: seq<Doc>)
    requires Clustered(docs, links, hash, tag, winners, reps) && DistinctIds(docs)
    ensures (forall k :: 0 <= k < |reps| ==> reps[k].id !in Members(reps[k]))
       <==> forall i: nat :: i < |docs| && IsAlone(docs, links, i) ==> docs[i].id !in Members(docs[i])
  {
    forall k: nat | k < |reps|
      ensures reps[k].id in Members(reps[k])
         <==> IsAlone(docs, links, winners[k]) && docs[winners[k]].id in Members(docs[winners[k]])
    {
      NotOwnMember(docs, links, hash, tag, winners, reps, k);
    }
    forall i: nat | i < |docs| && IsAlone(docs, links, i)
      ensures exists k :: 0 <= k < |reps| && winners[k] == i
    {
      AloneWins(docs, links, winners, i);
    }
    hide IsAlone, Members, Component, Represents;
  }

  /** A document that stays alone is its own representative. */
  lemma AloneWins(docs: seq<Doc>, links: Edges, winners: seq<nat>, i: nat)
    requires i < |docs| && IsAlone(docs, links, i) && IsCovered(links, winners, i)
    requires forall k :: 0 <= k < |winners| ==> winners[k] < |docs|
    ensures exists k :: 0 <= k < |winners| && winners[k] == i
  {
    var k :| 0 <= k < |winners| && Connected(links, i, winners[k]);
    var s := Component(links, |docs|, i);
    ConnectedRefl(links, i);
    SingletonIs(s, i);
    assert winners[k] in s;
  }
}
