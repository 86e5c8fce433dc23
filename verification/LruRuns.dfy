/** Whole runs of the LRU: what Get may answer, and why a key can be missing. */
module LruRuns {
  import opened Prelude
  import opened RequestLru
  import Sorting

  datatype Op = Set(key: string, mapping: Mapping, now: int) | Get(key: string, now: int)

  datatype Config = Config(capacity: nat, ttl: int)

  function Apply(c: Config, entries: seq<Entry>, op: Op): seq<Entry> {
    match op
    case Set(key, mapping, now) => AfterSet(entries, c.capacity, Entry(key, mapping, now + c.ttl))
    case Get(key, now) => AfterGet(entries, key, now)
  }

  /** The cache after a run from empty. */
  function Execute(c: Config, ops: seq<Op>): seq<Entry> {
    if ops == [] then [] else Apply(c, Execute(c, ops[..|ops| - 1]), ops[|ops| - 1])
  }

  predicate ClockIsMonotone(ops: seq<Op>) {
    forall i, j :: 0 <= i < j < |ops| ==> ops[i].now <= ops[j].now
  }

  /** What the Gets of a run answer, in order. */
  function Answered(c: Config, ops: seq<Op>): seq<Option<Mapping>> {
    if ops == [] then []
    else
      var op := ops[|ops| - 1];
      var entries := Execute(c, ops[..|ops| - 1]);
      Answered(c, ops[..|ops| - 1])
        + if op.Set? then []
          else if Answers(entries, op.key, op.now) then [Some(Find(entries, op.key).mapping)] else [None]
  }

  /** A cache through a whole run. */
  method Drive(c: Config, ops: seq<Op>) returns (cache: RequestLRU, answers: seq<Option<Mapping>>)
    ensures cache.Valid() && cache.View() == Execute(c, ops)
    ensures answers == Answered(c, ops)
  {
    hide AfterSet, AfterGet, Answers;
    cache := new RequestLRU(c.capacity, c.ttl);
    answers := [];
    for i := 0 to |ops|
      invariant fresh(cache) && cache.Valid() && cache.capacity == c.capacity && cache.ttl == c.ttl
      invariant forall e :: e in cache.order ==> fresh(e)
      invariant cache.View() == Execute(c, ops[..i]) && answers == Answered(c, ops[..i])
    {
      assert ops[..i + 1][..i] == ops[..i];
      match ops[i] {
        case Set(key, mapping, now) =>
          cache.Set(key, mapping, now);
        case Get(key, now) =>
          var answer := cache.Get(key, now);
          answers := answers + [answer];
      }
    }
    assert ops[..|ops|] == ops;
  }

  /** The cache never holds fewer than one entry's worth of room. */
  function Room(c: Config): nat {
    if c.capacity == 0 then 1 else c.capacity
  }

  datatype Stored = Stored(mapping: Mapping, expiresAt: int)

  /** What the last Set of a key stored. */
  function LastSet(c: Config, ops: seq<Op>, key: string): Option<Stored> {
    if ops == [] then None
    else
      var op := ops[|ops| - 1];
      if op.Set? && op.key == key then Some(Stored(op.mapping, op.now + c.ttl))
      else LastSet(c, ops[..|ops| - 1], key)
  }

  /** A key is touched by a Set and by a Get that answers. */
  predicate Touches(entries: seq<Entry>, op: Op) {
    op.Set? || Answers(entries, op.key, op.now)
  }

  /** The other keys touched since `key` was. */
  function TouchedSince(c: Config, ops: seq<Op>, key: string): set<string> {
    if ops == [] then {}
    else
      var op := ops[|ops| - 1];
      var before := ops[..|ops| - 1];
      if !Touches(Execute(c, before), op) then TouchedSince(c, before, key)
      else if op.key == key then {}
      else TouchedSince(c, before, key) + {op.key}
  }

  /** Get found an entry and dropped it because it had expired. */
  predicate Expires(entries: seq<Entry>, op: Op) {
    op.Get? && Has(entries, op.key) && !Answers(entries, op.key, op.now)
  }

  predicate NothingExpires(c: Config, ops: seq<Op>) {
    forall i :: 0 <= i < |ops| ==> !Expires(Execute(c, ops[..i]), ops[i])
  }

  // ---------- the keys in front of a key ----------

  function Before(entries: seq<Entry>, key: string): set<string> {
    if entries == [] || entries[0].key == key then {} else {entries[0].key} + Before(entries[1..], key)
  }

  lemma HasTail(entries: seq<Entry>, key: string)
    requires entries != []
    ensures Has(entries, key) <==> entries[0].key == key || Has(entries[1..], key)
  {
    if i :| 0 <= i < |entries| && entries[i].key == key {
      assert i == 0 || entries[1..][i - 1].key == key;
    }
    if i :| 0 <= i < |entries[1..]| && entries[1..][i].key == key {
      assert entries[i + 1].key == key;
    }
  }

  lemma DistinctTail(entries: seq<Entry>)
    requires DistinctKeys(entries) && entries != []
    ensures DistinctKeys(entries[1..]) && !Has(entries[1..], entries[0].key)
  {
    forall i | 0 <= i < |entries[1..]|
      ensures entries[1..][i].key != entries[0].key
    {
      assert entries[i + 1].key != entries[0].key;
    }
  }

  lemma {:induction false} BeforeHas(entries: seq<Entry>, key: string)
    ensures forall j :: j in Before(entries, key) ==> Has(entries, j) && j != key
  {
    if entries != [] && entries[0].key != key {
      BeforeHas(entries[1..], key);
      forall j | j in Before(entries, key)
        ensures Has(entries, j) && j != key
      {
        HasTail(entries, j);
      }
    }
  }

  lemma {:induction false} BeforeSize(entries: seq<Entry>, key: string)
    requires DistinctKeys(entries) && Has(entries, key)
    ensures |Before(entries, key)| < |entries|
    ensures |Before(entries, key)| == |entries| - 1 <==> entries[|entries| - 1].key == key
  {
    if entries[0].key != key {
      HasTail(entries, key);
      DistinctTail(entries);
      BeforeSize(entries[1..], key);
      BeforeHas(entries[1..], key);
    } else {
      assert |entries| > 1 ==> entries[|entries| - 1].key != key;
    }
  }

  lemma {:induction false} HasWithout(entries: seq<Entry>, key: string, other: string)
    ensures Has(Without(entries, other), key) <==> key != other && Has(entries, key)
    ensures key != other && Has(entries, key) ==> Find(Without(entries, other), key) == Find(entries, key)
    ensures |Without(entries, other)| <= |entries|
    ensures Has(entries, other) ==> |Without(entries, other)| < |entries|
  {
    if entries != [] {
      HasWithout(entries[1..], key, other);
      HasTail(entries, key);
      HasTail(entries, other);
      if entries[0].key != other {
        HasTail(Without(entries, other), key);
        assert Without(entries, other)[1..] == Without(entries[1..], other);
      }
    }
  }

  lemma {:induction false} DistinctWithout(entries: seq<Entry>, other: string)
    requires DistinctKeys(entries)
    ensures DistinctKeys(Without(entries, other))
  {
    if entries != [] {
      DistinctTail(entries);
      DistinctWithout(entries[1..], other);
      HasWithout(entries[1..], entries[0].key, other);
      DistinctFront(entries[0], Without(entries[1..], other));
    }
  }

  lemma DistinctFront(e: Entry, entries: seq<Entry>)
    requires DistinctKeys(entries) && !Has(entries, e.key)
    ensures DistinctKeys([e] + entries)
  {
    forall i, j | 0 <= i < j < |[e] + entries|
      ensures ([e] + entries)[i].key != ([e] + entries)[j].key
    {
      assert entries[j - 1].key != e.key;
    }
  }

  lemma {:induction false} BeforeWithout(entries: seq<Entry>, key: string, other: string)
    requires key != other && DistinctKeys(entries)
    ensures Before(Without(entries, other), key) == Before(entries, key) - {other}
  {
    if entries != [] {
      DistinctTail(entries);
      BeforeWithout(entries[1..], key, other);
      if entries[0].key == other {
        BeforeHas(entries[1..], key);
        assert other !in Before(entries[1..], key);
      } else {
        assert Without(entries, other)[1..] == Without(entries[1..], other);
      }
    }
  }

  lemma BeforeFront(e: Entry, entries: seq<Entry>, key: string)
    ensures Before([e] + entries, key) == if e.key == key then {} else {e.key} + Before(entries, key)
    ensures Has([e] + entries, key) <==> e.key == key || Has(entries, key)
    ensures Has([e] + entries, key) ==>
        Find([e] + entries, key) == if e.key == key then e else Find(entries, key)
  {
    assert ([e] + entries)[1..] == entries;
    HasTail([e] + entries, key);
  }

  lemma {:induction false} BeforeInit(entries: seq<Entry>, key: string)
    requires entries != [] && DistinctKeys(entries)
    ensures
      var init := entries[..|entries| - 1];
      && (Has(init, key) <==> Has(entries, key) && entries[|entries| - 1].key != key)
      && (Has(init, key) ==> Before(init, key) == Before(entries, key) && Find(init, key) == Find(entries, key))
      && DistinctKeys(init)
  {
    var init := entries[..|entries| - 1];
    if |entries| == 1 {
      HasTail(entries, key);
    } else {
      DistinctTail(entries);
      BeforeInit(entries[1..], key);
      HasTail(entries, key);
      HasTail(init, key);
      assert init[1..] == entries[1..][..|entries| - 2];
      var last := entries[|entries| - 1];
      assert last.key != entries[0].key;
    }
  }

  // ---------- the invariant of one key ----------

  /** What a run knows about a key: its last Set, the other keys touched since its own last touch, the time of the
      last operation, and whether no Get has dropped an expired entry so far. */
  ghost predicate Invariant(
    c: Config, entries: seq<Entry>, key: string, last: Option<Stored>, others: set<string>, latest: int, calm: bool)
  {
    && DistinctKeys(entries) && |entries| <= Room(c)
    && (Has(entries, key) ==>
          && last.Some? && Find(entries, key) == Entry(key, last.value.mapping, last.value.expiresAt)
          && Before(entries, key) <= others
          && (calm ==> Before(entries, key) == others))
    && (!Has(entries, key) && last.Some? ==>
          |others| >= Room(c) || (!calm && latest > last.value.expiresAt))
  }

  /** The entry of `e.key` moves, or is put, in front of the others. */
  lemma FrontStep(
    c: Config, entries: seq<Entry>, key: string, last: Option<Stored>, others: set<string>, latest: int, calm: bool,
    e: Entry, now: int)
    requires Invariant(c, entries, key, last, others, latest, calm) && latest <= now
    requires Has(entries, e.key) && e.key != key
    ensures Invariant(c, [e] + Without(entries, e.key), key, last, others + {e.key}, now, calm)
  {
    HasWithout(entries, key, e.key);
    HasWithout(entries, e.key, e.key);
    DistinctWithout(entries, e.key);
    DistinctFront(e, Without(entries, e.key));
    BeforeWithout(entries, key, e.key);
    BeforeFront(e, Without(entries, e.key), key);
    Sorting.SubsetSize(others, others + {e.key});
  }

  lemma OwnStep(
    c: Config, entries: seq<Entry>, last: Option<Stored>, others: set<string>, latest: int, calm: bool,
    e: Entry, now: int)
    requires Invariant(c, entries, e.key, last, others, latest, calm) && Has(entries, e.key)
    ensures Invariant(c, [e] + Without(entries, e.key), e.key, Some(Stored(e.mapping, e.expiresAt)), {}, now, calm)
  {
    HasWithout(entries, e.key, e.key);
    DistinctWithout(entries, e.key);
    DistinctFront(e, Without(entries, e.key));
    BeforeFront(e, Without(entries, e.key), e.key);
  }

  /** A new key goes in front; a full list loses its last entry. */
  lemma NewStep(
    c: Config, entries: seq<Entry>, key: string, last: Option<Stored>, others: set<string>, latest: int, calm: bool,
    e: Entry, now: int)
    requires Invariant(c, entries, key, last, others, latest, calm) && latest <= now
    requires !Has(entries, e.key) && e.key != key
    ensures Invariant(c, AfterSet(entries, c.capacity, e), key, last, others + {e.key}, now, calm)
  {
    hide Before, Find, Has;
    Sorting.SubsetSize(others, others + {e.key});
    var full := entries != [] && |entries| >= c.capacity;
    var rest := if full then entries[..|entries| - 1] else entries;
    if full {
      BeforeInit(entries, key);
      BeforeInit(entries, e.key);
    }
    DistinctFront(e, rest);
    BeforeFront(e, rest, key);
    if full && Has(entries, key) {
      BeforeSize(entries, key);
      BeforeHas(entries, key);
      assert |Before(entries, key) + {e.key}| == |Before(entries, key)| + 1;
      Sorting.SubsetSize(Before(entries, key) + {e.key}, others + {e.key});
    }
  }

  lemma OwnNewStep(
    c: Config, entries: seq<Entry>, last: Option<Stored>, others: set<string>, latest: int, calm: bool,
    e: Entry, now: int)
    requires Invariant(c, entries, e.key, last, others, latest, calm) && !Has(entries, e.key)
    ensures Invariant(c, AfterSet(entries, c.capacity, e), e.key, Some(Stored(e.mapping, e.expiresAt)), {}, now, calm)
  {
    var full := entries != [] && |entries| >= c.capacity;
    var rest := if full then entries[..|entries| - 1] else entries;
    if full {
      BeforeInit(entries, e.key);
    }
    DistinctFront(e, rest);
    BeforeFront(e, rest, e.key);
  }

  lemma ExpireStep(
    c: Config, entries: seq<Entry>, key: string, last: Option<Stored>, others: set<string>, latest: int, calm: bool,
    gone: string, now: int)
    requires Invariant(c, entries, key, last, others, latest, calm) && latest <= now
    requires Has(entries, gone) && !Answers(entries, gone, now)
    ensures Invariant(c, Without(entries, gone), key, last, others, now, false)
  {
    HasWithout(entries, key, gone);
    DistinctWithout(entries, gone);
    if key != gone {
      BeforeWithout(entries, key, gone);
    }
  }

  lemma {:induction false} InvariantInEveryRun(c: Config, ops: seq<Op>, key: string)
    requires ClockIsMonotone(ops)
    ensures Invariant(c, Execute(c, ops), key, LastSet(c, ops, key), TouchedSince(c, ops, key),
              if ops == [] then 0 else ops[|ops| - 1].now, NothingExpires(c, ops))
  {
    if ops != [] {
      var n := |ops| - 1;
      var before, op := ops[..n], ops[n];
      InvariantInEveryRun(c, before, key);
      EmptyInvariant(c, key, op.now);
      hide Invariant, Apply, Touches, NothingExpires, Expires;
      var entries, last, others := Execute(c, before), LastSet(c, before, key), TouchedSince(c, before, key);
      var latest, calm := if n == 0 then 0 else ops[n - 1].now, NothingExpires(c, before);
      CalmStep(c, ops);
      var from := if n == 0 then op.now else latest;
      InvariantStep(c, entries, key, last, others, from, calm, op);
    }
  }

  lemma EmptyInvariant(c: Config, key: string, now: int)
    ensures Invariant(c, Execute(c, []), key, LastSet(c, [], key), TouchedSince(c, [], key), now, NothingExpires(c, []))
  {
  }

  lemma CalmStep(c: Config, ops: seq<Op>)
    requires ops != []
    ensures NothingExpires(c, ops)
       <==> NothingExpires(c, ops[..|ops| - 1]) && !Expires(Execute(c, ops[..|ops| - 1]), ops[|ops| - 1])
  {
    hide Execute, Expires;
    var before := ops[..|ops| - 1];
    assert forall i :: 0 <= i < |before| ==> before[..i] == ops[..i] && before[i] == ops[i];
  }

  lemma InvariantStep(
    c: Config, entries: seq<Entry>, key: string, last: Option<Stored>, others: set<string>, latest: int, calm: bool,
    op: Op)
    requires Invariant(c, entries, key, last, others, latest, calm) && latest <= op.now
    ensures
      Invariant(c, Apply(c, entries, op), key,
        if op.Set? && op.key == key then Some(Stored(op.mapping, op.now + c.ttl)) else last,
        if !Touches(entries, op) then others else if op.key == key then {} else others + {op.key},
        op.now, calm && !Expires(entries, op))
  {
    hide Invariant;
    match op
    case Set(k, mapping, now) =>
      var e := Entry(k, mapping, now + c.ttl);
      if Has(entries, k) {
        if k == key { OwnStep(c, entries, last, others, latest, calm, e, now); }
        else { FrontStep(c, entries, key, last, others, latest, calm, e, now); }
      } else {
        if k == key { OwnNewStep(c, entries, last, others, latest, calm, e, now); }
        else { NewStep(c, entries, key, last, others, latest, calm, e, now); }
      }
    case Get(k, now) =>
      if !Has(entries, k) {
        LaterStep(c, entries, key, last, others, latest, calm, now);
      } else if Answers(entries, k, now) {
        var e := Find(entries, k);
        if k == key {
          OwnStep(c, entries, last, others, latest, calm, e, now);
          StoredEntry(c, entries, key, last, others, latest, calm);
        } else {
          FrontStep(c, entries, key, last, others, latest, calm, e, now);
        }
      } else {
        ExpireStep(c, entries, key, last, others, latest, calm, k, now);
      }
  }

  lemma LaterStep(
    c: Config, entries: seq<Entry>, key: string, last: Option<Stored>, others: set<string>, latest: int, calm: bool,
    now: int)
    requires Invariant(c, entries, key, last, others, latest, calm) && latest <= now
    ensures Invariant(c, entries, key, last, others, now, calm)
  {
  }

  lemma StoredEntry(
    c: Config, entries: seq<Entry>, key: string, last: Option<Stored>, others: set<string>, latest: int, calm: bool)
    requires Invariant(c, entries, key, last, others, latest, calm) && Has(entries, key)
    ensures last == Some(Stored(Find(entries, key).mapping, Find(entries, key).expiresAt))
  {
  }

  // ---------- what callers can rely on ----------

  /** The cache never outgrows its room and never holds a key twice. */
  lemma SizeBounded(c: Config, ops: seq<Op>)
    requires ClockIsMonotone(ops)
    ensures |Execute(c, ops)| <= Room(c) && DistinctKeys(Execute(c, ops))
  {
    InvariantInEveryRun(c, ops, "");
  }

  /** A Get answers only what the key's last Set stored, and only until that has expired. */
  lemma GetAnswersLatest(c: Config, ops: seq<Op>, key: string, now: int)
    requires ClockIsMonotone(ops) && Answers(Execute(c, ops), key, now)
    ensures
      var e := Find(Execute(c, ops), key);
      LastSet(c, ops, key) == Some(Stored(e.mapping, e.expiresAt)) && now <= e.expiresAt
  {
    InvariantInEveryRun(c, ops, key);
  }

  /** A key that was set and has not expired is missing only if at least `capacity` distinct other keys have been
      touched since it was touched last. */
  lemma MissingMeansCrowdedOut(c: Config, ops: seq<Op>, key: string, now: int)
    requires ClockIsMonotone(ops) && forall i :: 0 <= i < |ops| ==> ops[i].now <= now
    requires LastSet(c, ops, key).Some? && now <= LastSet(c, ops, key).value.expiresAt
    ensures !Answers(Execute(c, ops), key, now) ==> |TouchedSince(c, ops, key)| >= Room(c)
  {
    InvariantInEveryRun(c, ops, key);
  }

  /** While nothing is dropped for having expired, the rule is exact: a key is present if and only if fewer than
      `capacity` distinct other keys were touched since. */
  lemma PresentIff(c: Config, ops: seq<Op>, key: string)
    requires ClockIsMonotone(ops) && NothingExpires(c, ops) && LastSet(c, ops, key).Some?
    ensures Has(Execute(c, ops), key) <==> |TouchedSince(c, ops, key)| < Room(c)
  {
    InvariantInEveryRun(c, ops, key);
    if Has(Execute(c, ops), key) {
      BeforeSize(Execute(c, ops), key);
    }
  }

  // ---------- presence, exactly, in every run ----------

  /** The other keys touched since `key` was, without those a Get has since found expired. */
  function Ahead(c: Config, ops: seq<Op>, key: string): set<string> {
    if ops == [] then {}
    else
      var before, op := ops[..|ops| - 1], ops[|ops| - 1];
      var entries := Execute(c, before);
      if op.Set? || (Has(entries, op.key) && op.now <= Find(entries, op.key).expiresAt) then
        if op.key == key then {} else Ahead(c, before, key) + {op.key}
      else if Has(entries, op.key) then Ahead(c, before, key) - {op.key}
      else Ahead(c, before, key)
  }

  /** The key was set; since then no Get has found it expired, and never have there been as many keys ahead of it as the
      cache has room for. */
  predicate Survives(c: Config, ops: seq<Op>, key: string) {
    ops != []
    && var before, op := ops[..|ops| - 1], ops[|ops| - 1];
       if op.key == key then
         op.Set? || (Survives(c, before, key) && op.now <= LastExpiry(c, before, key))
       else
         Survives(c, before, key) && |Ahead(c, ops, key)| < Room(c)
  }

  /** When what was set last expires. */
  function LastExpiry(c: Config, ops: seq<Op>, key: string): int {
    if ops == [] then 0
    else
      var op := ops[|ops| - 1];
      if op.Set? && op.key == key then op.now + c.ttl else LastExpiry(c, ops[..|ops| - 1], key)
  }

  ghost predicate Exact(c: Config, entries: seq<Entry>, key: string, survives: bool, ahead: set<string>, expiry: int) {
    && DistinctKeys(entries) && |entries| <= Room(c)
    && (Has(entries, key) <==> survives)
    && (survives ==> Before(entries, key) == ahead && Find(entries, key).expiresAt == expiry)
  }

  lemma OwnSetExact(c: Config, entries: seq<Entry>, e: Entry)
    requires DistinctKeys(entries) && |entries| <= Room(c)
    ensures Exact(c, AfterSet(entries, c.capacity, e), e.key, true, {}, e.expiresAt)
  {
    var rest :=
      if Has(entries, e.key) then Without(entries, e.key)
      else if entries != [] && |entries| >= c.capacity then entries[..|entries| - 1]
      else entries;
    HasWithout(entries, e.key, e.key);
    DistinctWithout(entries, e.key);
    if entries != [] {
      BeforeInit(entries, e.key);
    }
    DistinctFront(e, rest);
    BeforeFront(e, rest, e.key);
    hide Has, Find, Before, Without, DistinctKeys;
  }

  lemma FrontExact(
    c: Config, entries: seq<Entry>, key: string, survives: bool, ahead: set<string>, expiry: int, e: Entry)
    requires Exact(c, entries, key, survives, ahead, expiry) && e.key != key && Has(entries, e.key)
    ensures
      Exact(c, [e] + Without(entries, e.key), key, survives && |ahead + {e.key}| < Room(c), ahead + {e.key}, expiry)
  {
    hide Has, Find, Before, Without, DistinctKeys;
    var entries' := [e] + Without(entries, e.key);
    HasWithout(entries, key, e.key);
    HasWithout(entries, e.key, e.key);
    DistinctWithout(entries, e.key);
    DistinctFront(e, Without(entries, e.key));
    BeforeWithout(entries, key, e.key);
    BeforeFront(e, Without(entries, e.key), key);
    if Has(entries', key) {
      BeforeSize(entries', key);
    }
    assert survives ==> Before(entries', key) == ahead + {e.key};
  }

  lemma NewExact(
    c: Config, entries: seq<Entry>, key: string, survives: bool, ahead: set<string>, expiry: int, e: Entry)
    requires Exact(c, entries, key, survives, ahead, expiry) && e.key != key && !Has(entries, e.key)
    ensures
      Exact(c, AfterSet(entries, c.capacity, e), key, survives && |ahead + {e.key}| < Room(c), ahead + {e.key}, expiry)
  {
    hide Find, Before, Without;
    var full := entries != [] && |entries| >= c.capacity;
    var rest := if full then entries[..|entries| - 1] else entries;
    if full {
      BeforeInit(entries, key);
      BeforeInit(entries, e.key);
    }
    DistinctFront(e, rest);
    BeforeFront(e, rest, key);
    if survives {
      BeforeSize(entries, key);
      BeforeHas(entries, key);
      assert e.key !in ahead && |ahead + {e.key}| == |ahead| + 1;
    }
  }

  lemma DropExact(
    c: Config, entries: seq<Entry>, key: string, survives: bool, ahead: set<string>, expiry: int, gone: string)
    requires Exact(c, entries, key, survives, ahead, expiry) && gone != key && Has(entries, gone)
    ensures Exact(c, Without(entries, gone), key, survives && |ahead - {gone}| < Room(c), ahead - {gone}, expiry)
  {
    hide Has, Find, Before, Without, DistinctKeys;
    var entries' := Without(entries, gone);
    HasWithout(entries, key, gone);
    DistinctWithout(entries, gone);
    BeforeWithout(entries, key, gone);
    if Has(entries', key) {
      BeforeSize(entries', key);
    }
  }

  lemma OwnGetExact(
    c: Config, entries: seq<Entry>, key: string, survives: bool, ahead: set<string>, ahead': set<string>, expiry: int,
    now: int)
    requires Exact(c, entries, key, survives, ahead, expiry)
    requires survives && now <= expiry ==> ahead' == {}
    ensures Exact(c, AfterGet(entries, key, now), key, survives && now <= expiry, ahead', expiry)
  {
    if Has(entries, key) {
      var e := Find(entries, key);
      HasWithout(entries, key, key);
      DistinctWithout(entries, key);
      DistinctFront(e, Without(entries, key));
      BeforeFront(e, Without(entries, key), key);
    }
    hide Has, Find, Before, Without, DistinctKeys;
  }

  lemma IdleExact(
    c: Config, entries: seq<Entry>, key: string, survives: bool, ahead: set<string>, expiry: int)
    requires Exact(c, entries, key, survives, ahead, expiry)
    ensures Exact(c, entries, key, survives && |ahead| < Room(c), ahead, expiry)
  {
    if survives {
      BeforeSize(entries, key);
    }
  }

  lemma OtherGetExact(
    c: Config, entries: seq<Entry>, key: string, survives: bool, ahead: set<string>, expiry: int, other: string, now: int)
    requires Exact(c, entries, key, survives, ahead, expiry) && other != key
    ensures
      var ahead' :=
        if !Has(entries, other) then ahead
        else if now <= Find(entries, other).expiresAt then ahead + {other} else ahead - {other};
      Exact(c, AfterGet(entries, other, now), key, survives && |ahead'| < Room(c), ahead', expiry)
  {
    hide Exact, Without;
    if !Has(entries, other) {
      IdleExact(c, entries, key, survives, ahead, expiry);
    } else if now <= Find(entries, other).expiresAt {
      FrontExact(c, entries, key, survives, ahead, expiry, Find(entries, other));
    } else {
      DropExact(c, entries, key, survives, ahead, expiry, other);
    }
  }

  lemma OtherSetExact(
    c: Config, entries: seq<Entry>, key: string, survives: bool, ahead: set<string>, expiry: int, e: Entry)
    requires Exact(c, entries, key, survives, ahead, expiry) && e.key != key
    ensures
      Exact(c, AfterSet(entries, c.capacity, e), key, survives && |ahead + {e.key}| < Room(c), ahead + {e.key}, expiry)
  {
    hide Exact, Without;
    if Has(entries, e.key) {
      FrontExact(c, entries, key, survives, ahead, expiry, e);
    } else {
      NewExact(c, entries, key, survives, ahead, expiry, e);
    }
  }

  lemma SetStep(c: Config, ops: seq<Op>, key: string)
    requires ops != [] && ops[|ops| - 1].Set?
    ensures
      var before, op := ops[..|ops| - 1], ops[|ops| - 1];
      && Execute(c, ops) == AfterSet(Execute(c, before), c.capacity, Entry(op.key, op.mapping, op.now + c.ttl))
      && (op.key == key ==>
            Ahead(c, ops, key) == {} && LastExpiry(c, ops, key) == op.now + c.ttl && Survives(c, ops, key))
      && (op.key != key ==>
            && Ahead(c, ops, key) == Ahead(c, before, key) + {op.key}
            && LastExpiry(c, ops, key) == LastExpiry(c, before, key)
            && (Survives(c, ops, key) <==> Survives(c, before, key) && |Ahead(c, ops, key)| < Room(c)))
  {
  }

  lemma GetStep(c: Config, ops: seq<Op>, key: string)
    requires ops != [] && ops[|ops| - 1].Get?
    ensures
      var before, op := ops[..|ops| - 1], ops[|ops| - 1];
      var entries := Execute(c, before);
      var answers := Has(entries, op.key) && op.now <= Find(entries, op.key).expiresAt;
      && Execute(c, ops) == AfterGet(entries, op.key, op.now)
      && LastExpiry(c, ops, key) == LastExpiry(c, before, key)
      && (op.key == key ==>
            && Ahead(c, ops, key) == (if answers then {} else if Has(entries, key) then Ahead(c, before, key) - {key}
                                      else Ahead(c, before, key))
            && (Survives(c, ops, key) <==> Survives(c, before, key) && op.now <= LastExpiry(c, before, key)))
      && (op.key != key ==>
            && Ahead(c, ops, key) == (if !Has(entries, op.key) then Ahead(c, before, key)
                                      else if answers then Ahead(c, before, key) + {op.key}
                                      else Ahead(c, before, key) - {op.key})
            && (Survives(c, ops, key) <==> Survives(c, before, key) && |Ahead(c, ops, key)| < Room(c)))
  {
  }

  ghost predicate ExactRun(c: Config, ops: seq<Op>, key: string) {
    Exact(c, Execute(c, ops), key, Survives(c, ops, key), Ahead(c, ops, key), LastExpiry(c, ops, key))
  }

  lemma ExactAfterSet(c: Config, ops: seq<Op>, key: string)
    requires ops != [] && ops[|ops| - 1].Set? && ExactRun(c, ops[..|ops| - 1], key)
    ensures ExactRun(c, ops, key)
  {
    var before, op := ops[..|ops| - 1], ops[|ops| - 1];
    var entries, survives := Execute(c, before), Survives(c, before, key);
    var ahead, expiry := Ahead(c, before, key), LastExpiry(c, before, key);
    SetStep(c, ops, key);
    ExactFacts(c, entries, key, survives, ahead, expiry);
    hide Execute, Survives, Ahead, LastExpiry, Exact, AfterSet, Has, Find, DistinctKeys;
    var e := Entry(op.key, op.mapping, op.now + c.ttl);
    if op.key == key {
      OwnSetExact(c, entries, e);
    } else {
      OtherSetExact(c, entries, key, survives, ahead, expiry, e);
    }
  }

  lemma ExactAfterGet(c: Config, ops: seq<Op>, key: string)
    requires ops != [] && ops[|ops| - 1].Get? && ExactRun(c, ops[..|ops| - 1], key)
    ensures ExactRun(c, ops, key)
  {
    var before, op := ops[..|ops| - 1], ops[|ops| - 1];
    var entries, survives := Execute(c, before), Survives(c, before, key);
    var ahead, expiry := Ahead(c, before, key), LastExpiry(c, before, key);
    GetStep(c, ops, key);
    ExactFacts(c, entries, key, survives, ahead, expiry);
    hide Execute, Survives, Ahead, LastExpiry, Exact, AfterGet, Has, Find, DistinctKeys;
    if op.key == key {
      OwnGetExact(c, entries, key, survives, ahead, Ahead(c, ops, key), expiry, op.now);
    } else {
      OtherGetExact(c, entries, key, survives, ahead, expiry, op.key, op.now);
    }
  }

  lemma {:induction false} ExactInEveryRun(c: Config, ops: seq<Op>, key: string)
    ensures ExactRun(c, ops, key)
  {
    if ops != [] {
      ExactInEveryRun(c, ops[..|ops| - 1], key);
      hide ExactRun;
      if ops[|ops| - 1].Set? {
        ExactAfterSet(c, ops, key);
      } else {
        ExactAfterGet(c, ops, key);
      }
    }
  }

  lemma ExactFacts(c: Config, entries: seq<Entry>, key: string, survives: bool, ahead: set<string>, expiry: int)
    requires Exact(c, entries, key, survives, ahead, expiry)
    ensures DistinctKeys(entries) && |entries| <= Room(c) && (survives <==> Has(entries, key))
    ensures survives ==> Find(entries, key).expiresAt == expiry
  {
  }

  /** In every run, whatever expires and whatever the clock does: a key is present exactly when it survives, and a Get
      answers exactly when, besides, it is not later than the expiry of what was set last. */
  lemma PresentExactly(c: Config, ops: seq<Op>, key: string, now: int)
    ensures Has(Execute(c, ops), key) <==> Survives(c, ops, key)
    ensures Answers(Execute(c, ops), key, now) <==> Survives(c, ops, key) && now <= LastExpiry(c, ops, key)
  {
    ExactInEveryRun(c, ops, key);
  }
}
