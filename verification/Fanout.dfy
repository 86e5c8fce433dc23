/** The fan-out of internal/fanout: concurrent workers with a slot each, assembly, first-wins dedup, stable sort. */
module Fanouts {
  import opened Prelude
  import opened Sorting

  datatype Doc = Doc(id: string, sourceId: string, url: string, text: string, score: real, retrievedAt: int)

  datatype AdapterError = Unavailable | Panicked | NotFound | SearchFailed(cause: string)

  /** What one adapter comes to: skipped because the context was done before launch, or what its worker meets. */
  datatype Outcome = Skipped | Missing | Panics | Fails(cause: string) | Answers(docs: seq<Doc>)

  datatype Result = Result(
    docs: seq<Doc>, errors: map<string, AdapterError>, adapterCount: nat, successCount: nat, errorCount: nat,
    dedupDropped: nat)

  datatype Dispatched = EmptyAdapterSet | Done(result: Result)

  function ErrorOf(o: Outcome): Option<AdapterError> {
    match o
    case Skipped => Some(Unavailable)
    case Missing => Some(NotFound)
    case Panics => Some(Panicked)
    case Fails(cause) => Some(SearchFailed(cause))
    case Answers(_) => None
  }

  function DocsOf(o: Outcome): seq<Doc> {
    if o.Answers? then o.docs else []
  }

  // ---------- what the assembly has to deliver ----------

  /** The answers of all adapters, in AdapterSet order. */
  function Collected(outcomes: seq<Outcome>): seq<Doc> {
    if outcomes == [] then [] else Collected(outcomes[..|outcomes| - 1]) + DocsOf(outcomes[|outcomes| - 1])
  }

  /** The failures by adapter name; should a name occur twice, the later failure stays. */
  function Errors(names: seq<string>, outcomes: seq<Outcome>): map<string, AdapterError>
    requires |names| == |outcomes|
  {
    if names == [] then map[]
    else
      var n := |names| - 1;
      var errors := Errors(names[..n], outcomes[..n]);
      match ErrorOf(outcomes[n])
      case None => errors
      case Some(e) => errors[names[n] := e]
  }

  function FailureCount(outcomes: seq<Outcome>): (count: nat)
    ensures count <= |outcomes|
  {
    if outcomes == [] then 0
    else FailureCount(outcomes[..|outcomes| - 1]) + if ErrorOf(outcomes[|outcomes| - 1]).Some? then 1 else 0
  }

  /** The error keys are exactly the names of failing adapters. */
  lemma {:induction false} ErrorKeys(names: seq<string>, outcomes: seq<Outcome>, name: string)
    requires |names| == |outcomes|
    ensures name in Errors(names, outcomes)
       <==> exists i :: 0 <= i < |names| && names[i] == name && !outcomes[i].Answers?
  {
    if names != [] {
      ErrorKeys(names[..|names| - 1], outcomes[..|names| - 1], name);
    }
  }

  /** A failing adapter's entry is its own failure, unless a later adapter of that name failed too. */
  lemma {:induction false} ErrorValue(names: seq<string>, outcomes: seq<Outcome>, i: nat)
    requires |names| == |outcomes| && i < |names| && !outcomes[i].Answers?
    requires forall j :: i < j < |names| ==> names[j] != names[i] || outcomes[j].Answers?
    ensures names[i] in Errors(names, outcomes)
    ensures
      Errors(names, outcomes)[names[i]] ==
        match outcomes[i]
        case Skipped => Unavailable
        case Missing => NotFound
        case Panics => Panicked
        case Fails(cause) => SearchFailed(cause)
  {
    if i < |names| - 1 {
      ErrorValue(names[..|names| - 1], outcomes[..|names| - 1], i);
    }
  }

  /** With distinct names every failure has its own entry. */
  lemma {:induction false} ErrorEntries(names: seq<string>, outcomes: seq<Outcome>)
    requires |names| == |outcomes| && Distinct(names)
    ensures |Errors(names, outcomes)| == FailureCount(outcomes)
  {
    if names != [] {
      var n := |names| - 1;
      ErrorEntries(names[..n], outcomes[..n]);
      ErrorKeys(names[..n], outcomes[..n], names[n]);
    }
  }

  /** The adapters among the first `n` that gave no answer. */
  function Failing(outcomes: seq<Outcome>, n: nat): set<nat>
    requires n <= |outcomes|
  {
    set i: nat | i < n && !outcomes[i].Answers?
  }

  lemma {:induction false} FailuresAreFailing(outcomes: seq<Outcome>, n: nat)
    requires n <= |outcomes|
    ensures FailureCount(outcomes[..n]) == |Failing(outcomes, n)|
  {
    if n > 0 {
      FailuresAreFailing(outcomes, n - 1);
      assert outcomes[..n][..n - 1] == outcomes[..n - 1];
      assert Failing(outcomes, n) == Failing(outcomes, n - 1) + if outcomes[n - 1].Answers? then {} else {n - 1};
    }
  }

  /** How many documents the adapters before the i-th answered. */
  function Offset(outcomes: seq<Outcome>, i: nat): nat
    requires i <= |outcomes|
  {
    if i == 0 then 0
    else Offset(outcomes, i - 1) + if outcomes[i - 1].Answers? then |outcomes[i - 1].docs| else 0
  }

  lemma {:induction false} CollectedPrefix(outcomes: seq<Outcome>, n: nat)
    requires n <= |outcomes|
    ensures |Collected(outcomes[..n])| == Offset(outcomes, n)
  {
    if n > 0 {
      CollectedPrefix(outcomes, n - 1);
      assert outcomes[..n][..n - 1] == outcomes[..n - 1];
    }
  }

  /** Every answer stands as a whole, in its own order, behind the answers of all earlier adapters. */
  lemma {:induction false} CollectedAt(outcomes: seq<Outcome>, n: nat, i: nat)
    requires i < n <= |outcomes| && outcomes[i].Answers?
    ensures
      var all, from := Collected(outcomes[..n]), Offset(outcomes, i);
      from + |outcomes[i].docs| <= |all| && all[from..from + |outcomes[i].docs|] == outcomes[i].docs
    ensures |Collected(outcomes[..n])| == Offset(outcomes, n)
  {
    CollectedPrefix(outcomes, n - 1);
    CollectedPrefix(outcomes, n);
    assert outcomes[..n][..n - 1] == outcomes[..n - 1];
    if i < n - 1 {
      CollectedAt(outcomes, n - 1, i);
    }
  }

  // ---------- dispatch ----------

  /** One worker: a panic, a missing adapter and a failed search become an error, anything else documents. */
  method RunWorker(outcome: Outcome) returns (docs: seq<Doc>, err: Option<AdapterError>)
    ensures docs == DocsOf(outcome) && err == ErrorOf(outcome)
  {
    docs, err := [], None;
    match outcome
    case Skipped => err := Some(Unavailable);
    case Panics => err := Some(Panicked);
    case Missing => err := Some(NotFound);
    case Fails(cause) => err := Some(SearchFailed(cause));
    case Answers(found) => docs := found;
  }

  /** A slot is untouched until its adapter is done, and then holds that adapter's outcome. */
  predicate IsSlot(docs: seq<Doc>, err: Option<AdapterError>, outcome: Outcome, done: bool) {
    if done then docs == DocsOf(outcome) && err == ErrorOf(outcome) else docs == [] && err == None
  }

  /** Slots of adapters that are not launched or still running are untouched, all others hold their outcome. */
  ghost predicate SlotsHold(
    perDocs: seq<seq<Doc>>, perErr: seq<Option<AdapterError>>, outcomes: seq<Outcome>, launched: nat, running: set<nat>)
  {
    && |perDocs| == |perErr| == |outcomes|
    && launched <= |outcomes|
    && (forall i :: i in running ==> i < launched)
    && (forall i :: 0 <= i < |outcomes| ==>
          IsSlot(perDocs[i], perErr[i], outcomes[i], i < launched && i !in running))
  }

  lemma SkipStep(
    perDocs: seq<seq<Doc>>, perErr: seq<Option<AdapterError>>, outcomes: seq<Outcome>, launched: nat, running: set<nat>)
    requires SlotsHold(perDocs, perErr, outcomes, launched, running)
    requires launched < |outcomes| && outcomes[launched].Skipped?
    ensures SlotsHold(perDocs, perErr[launched := Some(Unavailable)], outcomes, launched + 1, running)
  {
  }

  lemma LaunchStep(
    perDocs: seq<seq<Doc>>, perErr: seq<Option<AdapterError>>, outcomes: seq<Outcome>, launched: nat, running: set<nat>)
    requires SlotsHold(perDocs, perErr, outcomes, launched, running) && launched < |outcomes|
    ensures SlotsHold(perDocs, perErr, outcomes, launched + 1, running + {launched})
  {
  }

  lemma WorkStep(
    perDocs: seq<seq<Doc>>, perErr: seq<Option<AdapterError>>, outcomes: seq<Outcome>, launched: nat, running: set<nat>,
    i: nat)
    requires SlotsHold(perDocs, perErr, outcomes, launched, running) && i in running
    ensures
      SlotsHold(perDocs[i := DocsOf(outcomes[i])], perErr[i := ErrorOf(outcomes[i])], outcomes, launched, running - {i})
  {
  }

  lemma AllWritten(perDocs: seq<seq<Doc>>, perErr: seq<Option<AdapterError>>, outcomes: seq<Outcome>)
    requires SlotsHold(perDocs, perErr, outcomes, |outcomes|, {})
    ensures |perDocs| == |perErr| == |outcomes|
    ensures forall i :: 0 <= i < |outcomes| ==> perDocs[i] == DocsOf(outcomes[i]) && perErr[i] == ErrorOf(outcomes[i])
  {
    forall i | 0 <= i < |outcomes|
      ensures perDocs[i] == DocsOf(outcomes[i]) && perErr[i] == ErrorOf(outcomes[i])
    {
      assert IsSlot(perDocs[i], perErr[i], outcomes[i], true);
    }
  }

  lemma NothingWritten(outcomes: seq<Outcome>, perDocs: seq<seq<Doc>>, perErr: seq<Option<AdapterError>>)
    requires |perDocs| == |perErr| == |outcomes|
    requires forall i :: 0 <= i < |outcomes| ==> perDocs[i] == [] && perErr[i] == None
    ensures SlotsHold(perDocs, perErr, outcomes, 0, {})
  {
  }

  /** The launcher moves on by one adapter: it is skipped when the context is done, started otherwise. */
  method Launch(
    perDocs: array<seq<Doc>>, perErr: array<Option<AdapterError>>, outcomes: seq<Outcome>, launched: nat,
    running: set<nat>) returns (running': set<nat>)
    requires perDocs.Length == perErr.Length == |outcomes| && launched < |outcomes|
    requires SlotsHold(perDocs[..], perErr[..], outcomes, launched, running)
    modifies perErr
    ensures SlotsHold(perDocs[..], perErr[..], outcomes, launched + 1, running')
    ensures running' == running || running' == running + {launched}
  {
    ghost var err0 := perErr[..];
    if outcomes[launched].Skipped? {
      SkipStep(perDocs[..], err0, outcomes, launched, running);
      perErr[launched] := Some(Unavailable);
      assert perErr[..] == err0[launched := Some(Unavailable)];
      running' := running;
    } else {
      LaunchStep(perDocs[..], err0, outcomes, launched, running);
      running' := running + {launched};
    }
  }

  /** One running worker finishes and writes its own slot. */
  method Work(
    perDocs: array<seq<Doc>>, perErr: array<Option<AdapterError>>, outcomes: seq<Outcome>, ghost launched: nat,
    ghost running: set<nat>, i: nat)
    requires perDocs.Length == perErr.Length == |outcomes| && i in running && i < |outcomes|
    requires SlotsHold(perDocs[..], perErr[..], outcomes, launched, running)
    modifies perDocs, perErr
    ensures SlotsHold(perDocs[..], perErr[..], outcomes, launched, running - {i})
  {
    ghost var docs0, err0 := perDocs[..], perErr[..];
    WorkStep(docs0, err0, outcomes, launched, running, i);
    hide *;
    var docs, err := RunWorker(outcomes[i]);
    perDocs[i] := docs;
    assert perDocs[..] == docs0[i := docs];
    perErr[i] := err;
    assert perErr[..] == err0[i := err];
  }

  /** Workers start in order but run, and finish, in any order; each writes only its own slot. */
  method Dispatch(names: seq<string>, outcomes: seq<Outcome>) returns (r: Result)
    requires |names| == |outcomes|
    ensures r == Result(Collected(outcomes), Errors(names, outcomes), |names|,
                        |names| - FailureCount(outcomes), FailureCount(outcomes), 0)
  {
    var n := |names|;
    var perDocs := new seq<Doc>[n](_ => []);
    var perErr := new Option<AdapterError>[n](_ => None);
    var launched: nat := 0;
    var running: set<nat> := {};
    NothingWritten(outcomes, perDocs[..], perErr[..]);
    hide *;
    while launched < n || running != {}
      invariant launched <= n && SlotsHold(perDocs[..], perErr[..], outcomes, launched, running)
      invariant forall i :: i in running ==> i < n
      decreases 2 * (n - launched) + |running|
    {
      var launchNext: bool := *;
      if launched < n && (launchNext || running == {}) {
        running := Launch(perDocs, perErr, outcomes, launched, running);
        launched := launched + 1;
      } else {
        var i :| i in running;
        Work(perDocs, perErr, outcomes, launched, running, i);
        running := running - {i};
      }
    }
    AllWritten(perDocs[..], perErr[..], outcomes);
    r := AssembleResult(names, outcomes, perDocs[..], perErr[..]);
  }

  method AssembleResult(
    names: seq<string>, ghost outcomes: seq<Outcome>, perDocs: seq<seq<Doc>>, perErr: seq<Option<AdapterError>>)
      returns (r: Result)
    requires |names| == |outcomes| == |perDocs| == |perErr|
    requires forall i :: 0 <= i < |names| ==>
        perDocs[i] == DocsOf(outcomes[i]) && perErr[i] == ErrorOf(outcomes[i])
    ensures r == Result(Collected(outcomes), Errors(names, outcomes), |names|,
                        |names| - FailureCount(outcomes), FailureCount(outcomes), 0)
  {
    var docs, errors, success, failed := [], map[], 0, 0;
    for i := 0 to |names|
      invariant docs == Collected(outcomes[..i])
      invariant errors == Errors(names[..i], outcomes[..i])
      invariant failed == FailureCount(outcomes[..i]) && success + failed == i
    {
      assert outcomes[..i + 1][..i] == outcomes[..i] && names[..i + 1][..i] == names[..i];
      if perErr[i].Some? {
        failed := failed + 1;
        errors := errors[names[i] := perErr[i].value];
      } else {
        success := success + 1;
        docs := docs + perDocs[i];
      }
    }
    assert outcomes[..|names|] == outcomes && names[..|names|] == names;
    r := Result(docs, errors, |names|, success, failed, 0);
  }

  // ---------- dedup ----------

  function Keys(key: Doc -> string, docs: seq<Doc>): set<string> {
    set i | 0 <= i < |docs| :: key(docs[i])
  }

  function Dedup(key: Doc -> string, docs: seq<Doc>): seq<Doc> {
    if docs == [] then []
    else
      var init, d := docs[..|docs| - 1], docs[|docs| - 1];
      if key(d) in Keys(key, init) then Dedup(key, init) else Dedup(key, init) + [d]
  }

  method DedupDocs(docs: seq<Doc>, key: Doc -> string) returns (out: seq<Doc>, dropped: nat)
    ensures out == Dedup(key, docs)
    ensures |out| + dropped == |docs|
  {
    var seen: set<string> := {};
    out, dropped := [], 0;
    for i := 0 to |docs|
      invariant seen == Keys(key, docs[..i])
      invariant out == Dedup(key, docs[..i]) && |out| + dropped == i
    {
      var d := docs[i];
      assert docs[..i + 1][..i] == docs[..i];
      KeysAppend(key, docs[..i], d);
      assert docs[..i + 1] == docs[..i] + [d];
      if key(d) in seen {
        dropped := dropped + 1;
      } else {
        seen := seen + {key(d)};
        out := out + [d];
      }
    }
    assert docs[..|docs|] == docs;
  }

  lemma KeysAppend(key: Doc -> string, docs: seq<Doc>, d: Doc)
    ensures Keys(key, docs + [d]) == Keys(key, docs) + {key(d)}
  {
    forall k
      ensures k in Keys(key, docs + [d]) <==> k in Keys(key, docs) || k == key(d)
    {
      if k == key(d) {
        assert (docs + [d])[|docs|] == d;
      }
      if i :| 0 <= i < |docs| && key(docs[i]) == k {
        assert (docs + [d])[i] == docs[i];
      }
    }
  }

  /** No earlier document has the same key. */
  predicate IsFirst(key: Doc -> string, docs: seq<Doc>, i: nat)
    requires i < |docs|
  {
    key(docs[i]) !in Keys(key, docs[..i])
  }

  /** The positions below `n` that hold the first document of their key. */
  function FirstPositions(key: Doc -> string, docs: seq<Doc>, n: nat): (r: seq<nat>)
    requires n <= |docs|
    ensures forall i :: i in r <==> 0 <= i < n && IsFirst(key, docs, i)
  {
    if n == 0 then []
    else if IsFirst(key, docs, n - 1) then FirstPositions(key, docs, n - 1) + [n - 1]
    else FirstPositions(key, docs, n - 1)
  }

  /** Dedup keeps exactly the first document of every key, in input order. */
  lemma {:induction false} DedupKeepsFirsts(key: Doc -> string, docs: seq<Doc>, n: nat)
    requires n <= |docs|
    ensures
      var firsts, out := FirstPositions(key, docs, n), Dedup(key, docs[..n]);
      && |out| == |firsts|
      && (forall k :: 0 <= k < |firsts| ==> firsts[k] < n && out[k] == docs[firsts[k]])
      && (forall j, k :: 0 <= j < k < |firsts| ==> firsts[j] < firsts[k])
  {
    hide Keys;
    if n > 0 {
      DedupKeepsFirsts(key, docs, n - 1);
      assert docs[..n][..n - 1] == docs[..n - 1];
    }
  }

  lemma {:induction false} DedupKeys(key: Doc -> string, docs: seq<Doc>)
    ensures Keys(key, Dedup(key, docs)) == Keys(key, docs)
    ensures forall i, j :: 0 <= i < j < |Dedup(key, docs)| ==> key(Dedup(key, docs)[i]) != key(Dedup(key, docs)[j])
  {
    if docs != [] {
      var init, d := docs[..|docs| - 1], docs[|docs| - 1];
      DedupKeys(key, init);
      assert docs == init + [d];
      KeysAppend(key, init, d);
      KeysAppend(key, Dedup(key, init), d);
      var out := Dedup(key, init);
      forall i | 0 <= i < |out|
        ensures key(out[i]) in Keys(key, out)
      {
      }
    }
  }

  /** Deduplicating again drops nothing. */
  lemma {:induction false} DedupDistinct(key: Doc -> string, docs: seq<Doc>)
    requires forall i, j :: 0 <= i < j < |docs| ==> key(docs[i]) != key(docs[j])
    ensures Dedup(key, docs) == docs
  {
    if docs != [] {
      DedupDistinct(key, docs[..|docs| - 1]);
    }
  }

  // ---------- sort ----------

  /** Higher score first, then smaller source id, then newer. */
  predicate DocLess(a: Doc, b: Doc) {
    if a.score != b.score then a.score > b.score
    else if a.sourceId != b.sourceId then Less(a.sourceId, b.sourceId)
    else a.retrievedAt > b.retrievedAt
  }

  lemma DocLessIsWeakOrder()
    ensures IsWeakOrder(DocLess)
  {
    LessIsStrictTotal();
  }

  /** Higher scores come first, then smaller source ids, then later retrievals. */
  predicate MayPrecede(a: Doc, b: Doc) {
    && a.score >= b.score
    && (a.score == b.score ==> !Less(b.sourceId, a.sourceId))
    && (a.score == b.score && a.sourceId == b.sourceId ==> a.retrievedAt >= b.retrievedAt)
  }

  predicate InResultOrder(docs: seq<Doc>) {
    forall i, j :: 0 <= i < j < |docs| ==> MayPrecede(docs[i], docs[j])
  }

  /** The documents with this score, source and time, in order. */
  function Alike(docs: seq<Doc>, score: real, sourceId: string, retrievedAt: int): seq<Doc> {
    if docs == [] then []
    else
      var d := docs[|docs| - 1];
      Alike(docs[..|docs| - 1], score, sourceId, retrievedAt)
        + if d.score == score && d.sourceId == sourceId && d.retrievedAt == retrievedAt then [d] else []
  }

  /** Documents that agree in all three stand in the same order. */
  ghost predicate KeepsTies(docs: seq<Doc>, before: seq<Doc>) {
    forall score, sourceId, retrievedAt ::
      Alike(docs, score, sourceId, retrievedAt) == Alike(before, score, sourceId, retrievedAt)
  }

  lemma {:induction false} AlikeAreTies(docs: seq<Doc>, x: Doc)
    ensures Alike(docs, x.score, x.sourceId, x.retrievedAt) == Ties(DocLess, docs, x)
  {
    if docs != [] {
      AlikeAreTies(docs[..|docs| - 1], x);
      var d := docs[|docs| - 1];
      LessTotal(d.sourceId, x.sourceId);
      LessIrreflexive(x.sourceId);
    }
  }

  lemma SortedInResultOrder(docs: seq<Doc>)
    ensures InResultOrder(StableSort(DocLess, docs)) && KeepsTies(StableSort(DocLess, docs), docs)
  {
    var out := StableSort(DocLess, docs);
    DocLessIsWeakOrder();
    StableSortSorted(DocLess, docs);
    StableSortTies(DocLess, docs);
    forall i, j | 0 <= i < j < |out|
      ensures MayPrecede(out[i], out[j])
    {
      assert !DocLess(out[j], out[i]);
      LessIrreflexive(out[i].sourceId);
    }
    forall score, sourceId, retrievedAt
      ensures Alike(out, score, sourceId, retrievedAt) == Alike(docs, score, sourceId, retrievedAt)
    {
      var x := Doc("", sourceId, "", "", score, retrievedAt);
      AlikeAreTies(out, x);
      AlikeAreTies(docs, x);
    }
  }

  /** sort.SliceStable in place; by StableUnique no stable algorithm could give anything else. */
  method SortDocs(a: array<Doc>)
    modifies a
    ensures a[..] == StableSort(DocLess, old(a[..]))
    ensures InResultOrder(a[..]) && KeepsTies(a[..], old(a[..]))
  {
    for i := 0 to a.Length
      invariant a[..i] == StableSort(DocLess, old(a[..])[..i]) && a[i..] == old(a[..])[i..]
    {
      ghost var s, x := a[..i], a[i];
      assert x == old(a[..])[i];
      assert old(a[..])[..i + 1][..i] == old(a[..])[..i];
      InsertLast(a, i);
      assert a[..i + 1] == Insert(DocLess, s, x);
      assert a[i + 1..] == old(a[..])[i..][1..];
    }
    assert old(a[..])[..a.Length] == old(a[..]) && a[..a.Length] == a[..];
    SortedInResultOrder(old(a[..]));
  }

  /** The row while x sinks: x stands before s[j..]. */
  function Row(s: seq<Doc>, x: Doc, j: nat, rest: seq<Doc>): (row: seq<Doc>)
    requires j <= |s|
    ensures |row| == |s| + 1 + |rest| && row[j] == x && (j > 0 ==> row[j - 1] == s[j - 1])
  {
    s[..j] + [x] + s[j..] + rest
  }

  lemma SinkOne(s: seq<Doc>, x: Doc, j: nat, rest: seq<Doc>)
    requires 0 < j <= |s|
    ensures Row(s, x, j, rest)[j := s[j - 1]][j - 1 := x] == Row(s, x, j - 1, rest)
  {
  }

  lemma StartRow(s: seq<Doc>, x: Doc, rest: seq<Doc>)
    ensures Row(s, x, |s|, rest) == s + [x] + rest
  {
  }

  /** Past every element that x belongs before, insertion goes on to the left. */
  lemma InsertPast(s: seq<Doc>, x: Doc, j: nat)
    requires 0 < j <= |s| && DocLess(x, s[j - 1])
    ensures Insert(DocLess, s[..j], x) + s[j..] == Insert(DocLess, s[..j - 1], x) + s[j - 1..]
  {
    assert s[..j][..j - 1] == s[..j - 1];
    assert [s[j - 1]] + s[j..] == s[j - 1..];
  }

  /** Sinks a[i] to the left as long as it belongs before its neighbour. */
  method InsertLast(a: array<Doc>, i: nat)
    requires i < a.Length
    modifies a
    ensures a[..] == Insert(DocLess, old(a[..i]), old(a[i])) + old(a[i + 1..])
  {
    hide DocLess, Row;
    ghost var s, x, rest := a[..i], a[i], a[i + 1..];
    var j := i;
    assert s[..i] == s && s[i..] == [] && Insert(DocLess, s, x) + [] == Insert(DocLess, s, x);
    StartRow(s, x, rest);
    assert a[..] == s + [x] + rest;
    while j > 0 && DocLess(a[j], a[j - 1])
      invariant j <= i && a[..] == Row(s, x, j, rest)
      invariant Insert(DocLess, s, x) == Insert(DocLess, s[..j], x) + s[j..]
    {
      ghost var before := a[..];
      assert before[j] == x && before[j - 1] == s[j - 1];
      SinkOne(s, x, j, rest);
      InsertPast(s, x, j);
      a[j], a[j - 1] := a[j - 1], a[j];
      assert a[..] == before[j := s[j - 1]][j - 1 := x];
      j := j - 1;
    }
    assert a[..][j] == x && (j > 0 ==> a[..][j - 1] == s[j - 1]);
    InsertHere(s, x, j, rest);
  }

  /** Where x does not belong before its left neighbour, the row is the insertion. */
  lemma InsertHere(s: seq<Doc>, x: Doc, j: nat, rest: seq<Doc>)
    requires j <= |s| && (j == 0 || !DocLess(x, s[j - 1]))
    ensures Row(s, x, j, rest) == Insert(DocLess, s[..j], x) + s[j..] + rest
  {
  }

  // ---------- the whole fan-out ----------

  function FinalDocs(key: Doc -> string, outcomes: seq<Outcome>): seq<Doc> {
    StableSort(DocLess, Dedup(key, Collected(outcomes)))
  }

  /** Dispatch as callers see it: the result is a function of the outcomes, whatever the schedule. */
  method FanOut(names: seq<string>, outcomes: seq<Outcome>, key: Doc -> string) returns (r: Dispatched)
    requires |names| == |outcomes|
    ensures r.EmptyAdapterSet? <==> names == []
    ensures r.Done? ==>
      && r.result.docs == FinalDocs(key, outcomes)
      && r.result.errors == Errors(names, outcomes)
      && r.result.successCount + r.result.errorCount == r.result.adapterCount == |names|
      && r.result.errorCount == |set i: nat | i < |outcomes| && !outcomes[i].Answers?|
      && InResultOrder(r.result.docs) && KeepsTies(r.result.docs, Dedup(key, Collected(outcomes)))
      && |r.result.docs| + r.result.dedupDropped == |Collected(outcomes)|
  {
    if names == [] {
      return EmptyAdapterSet;
    }
    var res := Dispatch(names, outcomes);
    var kept, dropped := DedupDocs(res.docs, key);
    var a := new Doc[|kept|](i requires 0 <= i < |kept| => kept[i]);
    assert a[..] == kept;
    SortDocs(a);
    assert outcomes[..|outcomes|] == outcomes;
    FailuresAreFailing(outcomes, |outcomes|);
    assert Failing(outcomes, |outcomes|) == set i: nat | i < |outcomes| && !outcomes[i].Answers?;
    r := Done(res.(docs := a[..], dedupDropped := dropped));
  }

  /** The final list: one document per key, none of the kept ones lost, sorted, ties in collection order; and it is
      the only list with these properties. */
  lemma FinalDocsUnique(key: Doc -> string, outcomes: seq<Outcome>, out: seq<Doc>)
    ensures
      var kept := Dedup(key, Collected(outcomes));
      (Sorted(DocLess, out) && SameTies(DocLess, out, kept)) <==> out == FinalDocs(key, outcomes)
    ensures multiset(FinalDocs(key, outcomes)) == multiset(Dedup(key, Collected(outcomes)))
  {
    var kept := Dedup(key, Collected(outcomes));
    DocLessIsWeakOrder();
    StableSortSorted(DocLess, kept);
    StableSortTies(DocLess, kept);
    StableSortMembers(DocLess, kept);
    if Sorted(DocLess, out) && SameTies(DocLess, out, kept) {
      StableUnique(DocLess, out, StableSort(DocLess, kept));
    }
  }
}
