/** The time-bounded LRU of internal/idx5/feedback.go: a hash map and a recency list that have to agree. */
module RequestLru {
  import opened Prelude

  datatype Mapping = Mapping(docId: string, teamId: string)

  datatype Entry = Entry(key: string, mapping: Mapping, expiresAt: int)

  // ---------- the cache as a list of entries, most recently touched first ----------

  predicate Has(entries: seq<Entry>, key: string) {
    exists i :: 0 <= i < |entries| && entries[i].key == key
  }

  function Find(entries: seq<Entry>, key: string): (e: Entry)
    requires Has(entries, key)
    ensures e in entries && e.key == key
  {
    if entries[0].key == key then entries[0] else
      assert Has(entries[1..], key) by {
        var i :| 0 <= i < |entries| && entries[i].key == key;
        assert entries[1..][i - 1].key == key;
      }
      Find(entries[1..], key)
  }

  function Without(entries: seq<Entry>, key: string): seq<Entry> {
    if entries == [] then []
    else if entries[0].key == key then Without(entries[1..], key)
    else [entries[0]] + Without(entries[1..], key)
  }

  function AfterSet(entries: seq<Entry>, capacity: nat, e: Entry): seq<Entry> {
    if Has(entries, e.key) then [e] + Without(entries, e.key)
    else if entries != [] && |entries| >= capacity then [e] + entries[..|entries| - 1]
    else [e] + entries
  }

  /** A Get that finds an unexpired entry. */
  predicate Answers(entries: seq<Entry>, key: string, now: int) {
    Has(entries, key) && now <= Find(entries, key).expiresAt
  }

  function AfterGet(entries: seq<Entry>, key: string, now: int): seq<Entry> {
    if !Has(entries, key) then entries
    else if Answers(entries, key, now) then [Find(entries, key)] + Without(entries, key)
    else Without(entries, key)
  }

  predicate DistinctKeys(entries: seq<Entry>) {
    forall i, j :: 0 <= i < j < |entries| ==> entries[i].key != entries[j].key
  }

  lemma {:induction false} WithoutNone(entries: seq<Entry>, key: string)
    requires !Has(entries, key)
    ensures Without(entries, key) == entries
  {
    if entries != [] {
      assert entries[0].key != key;
      forall i | 0 <= i < |entries[1..]|
        ensures entries[1..][i].key != key
      {
        assert entries[i + 1].key != key;
      }
      WithoutNone(entries[1..], key);
    }
  }

  /** Removing a key takes out the one position that holds it. */
  lemma {:induction false} WithoutAt(entries: seq<Entry>, k: nat)
    requires DistinctKeys(entries) && k < |entries|
    ensures Without(entries, entries[k].key) == entries[..k] + entries[k + 1..]
    ensures Has(entries, entries[k].key) && Find(entries, entries[k].key) == entries[k]
  {
    if k == 0 {
      forall i | 0 <= i < |entries[1..]|
        ensures entries[1..][i].key != entries[0].key
      {
        assert entries[i + 1].key != entries[0].key;
      }
      WithoutNone(entries[1..], entries[0].key);
    } else {
      WithoutAt(entries[1..], k - 1);
      assert entries[1..][k - 1] == entries[k];
      assert entries[..k] + entries[k + 1..] == [entries[0]] + (entries[1..][..k - 1] + entries[1..][k..]);
    }
  }

  lemma {:induction false} SameWithout(entries: seq<Entry>, k: nat, e: Entry)
    requires k < |entries| && e.key == entries[k].key
    ensures Without(entries[k := e], e.key) == Without(entries, e.key)
  {
    if k == 0 {
      assert entries[k := e][1..] == entries[1..];
    } else {
      assert entries[k := e][1..] == entries[1..][k - 1 := e];
      SameWithout(entries[1..], k - 1, e);
    }
  }

  // ---------- the cache as the source builds it ----------

  class Element {
    const key: string
    var mapping: Mapping
    var expiresAt: int

    constructor (key: string, mapping: Mapping, expiresAt: int)
      ensures this.key == key && this.mapping == mapping && this.expiresAt == expiresAt
    {
      this.key, this.mapping, this.expiresAt := key, mapping, expiresAt;
    }

    function View(): Entry
      reads this
    {
      Entry(key, mapping, expiresAt)
    }
  }

  /** The list holds each key once, and the map leads from every key to its element in the list. */
  ghost predicate Linked(items: map<string, Element>, order: seq<Element>) {
    && (forall i, j :: 0 <= i < j < |order| ==> order[i].key != order[j].key)
    && (forall i :: 0 <= i < |order| ==> order[i].key in items && items[order[i].key] == order[i])
    && (forall key :: key in items ==> items[key] in order && items[key].key == key)
  }

  lemma LinkedWithout(items: map<string, Element>, order: seq<Element>, k: nat)
    requires Linked(items, order) && k < |order|
    ensures Linked(items - {order[k].key}, order[..k] + order[k + 1..])
  {
    var order', items' := order[..k] + order[k + 1..], items - {order[k].key};
    forall key | key in items'
      ensures items'[key] in order'
    {
      var i :| 0 <= i < |order| && order[i] == items[key];
      assert i != k;
      assert order'[if i < k then i else i - 1] == order[i];
    }
  }

  lemma LinkedWith(items: map<string, Element>, order: seq<Element>, e: Element)
    requires Linked(items, order) && e.key !in items
    ensures Linked(items[e.key := e], [e] + order)
  {
    var order', items' := [e] + order, items[e.key := e];
    forall key | key in items'
      ensures items'[key] in order' && items'[key].key == key
    {
      if key == e.key {
        assert order'[0] == e;
      } else {
        assert items[key] in order;
      }
    }
  }

  lemma LinkedToFront(items: map<string, Element>, order: seq<Element>, k: nat)
    requires Linked(items, order) && k < |order|
    ensures Linked(items, [order[k]] + (order[..k] + order[k + 1..]))
  {
    var e, rest := order[k], order[..k] + order[k + 1..];
    LinkedWithout(items, order, k);
    LinkedWith(items - {e.key}, rest, e);
    assert (items - {e.key})[e.key := e] == items;
  }

  ghost function ViewOf(order: seq<Element>): (entries: seq<Entry>)
    reads order
    ensures |entries| == |order|
  {
    seq(|order|, i requires 0 <= i < |order| reads order => order[i].View())
  }

  lemma LinkedKeys(items: map<string, Element>, order: seq<Element>, key: string)
    requires Linked(items, order)
    ensures DistinctKeys(ViewOf(order))
    ensures Has(ViewOf(order), key) <==> key in items
  {
    if key in items {
      var i :| 0 <= i < |order| && order[i] == items[key];
      assert ViewOf(order)[i].key == key;
    }
  }

  lemma Lookup(items: map<string, Element>, order: seq<Element>, key: string)
    requires Linked(items, order) && key in items
    ensures items[key] in order && items[key].key == key
  {
  }

  lemma LinkedDistinct(items: map<string, Element>, order: seq<Element>, k: nat)
    requires Linked(items, order) && k < |order|
    ensures forall i :: 0 <= i < |order| && i != k ==> order[i] != order[k]
  {
  }

  class RequestLRU {
    const capacity: nat
    const ttl: int
    var items: map<string, Element>
    var order: seq<Element>    // front first

    ghost predicate Valid()
      reads this
    {
      Linked(items, order)
    }

    ghost function View(): (entries: seq<Entry>)
      reads this, order
    {
      ViewOf(order)
    }

    constructor (capacity: nat, ttl: int)
      ensures Valid() && View() == [] && this.capacity == capacity && this.ttl == ttl
    {
      this.capacity, this.ttl := capacity, ttl;
      items, order := map[], [];
    }

    /** Where the list holds the element the map leads to. */
    method Locate(elem: Element) returns (k: nat)
      requires elem in order
      ensures k < |order| && order[k] == elem
    {
      k := 0;
      while order[k] != elem
        invariant k < |order| && elem !in order[..k]
        decreases |order| - k
      {
        assert elem in order[k..];
        k := k + 1;
      }
    }

    method Set(key: string, mapping: Mapping, now: int)
      requires Valid()
      modifies this, order
      ensures Valid()
      ensures View() == AfterSet(old(View()), capacity, Entry(key, mapping, now + ttl))
      ensures forall e :: e in order ==> e in old(order) || fresh(e)
    {
      hide Linked, DistinctKeys, Has;
      LinkedKeys(items, order, key);
      if key in items {
        Update(key, mapping, now);
      } else {
        Insert(key, mapping, now);
      }
    }

    /** Set, for a key that is present: new mapping, new expiry, front of the list. */
    method Update(key: string, mapping: Mapping, now: int)
      requires Valid() && key in items
      modifies this`order, order
      ensures Valid()
      ensures View() == [Entry(key, mapping, now + ttl)] + Without(old(View()), key)
      ensures forall e :: e in order ==> e in old(order)
    {
      hide Linked, DistinctKeys, Has;
      Lookup(items, order, key);
      var elem := items[key];
      ghost var k :| 0 <= k < |order| && order[k] == elem;
      ghost var entries, entry := View(), Entry(key, mapping, now + ttl);
      elem.mapping := mapping;
      elem.expiresAt := now + ttl;
      LinkedDistinct(items, order, k);
      assert View() == entries[k := entry];
      LinkedKeys(items, order, key);
      SameWithout(entries, k, entry);
      Promote(key);
    }

    /** Set, for a new key: evicts the back of a full list, then pushes to the front. */
    method Insert(key: string, mapping: Mapping, now: int)
      requires Valid() && key !in items
      modifies this
      ensures Valid()
      ensures
        var before := old(View());
        View() == [Entry(key, mapping, now + ttl)]
          + if before != [] && |before| >= capacity then before[..|before| - 1] else before
      ensures forall e :: e in order ==> e in old(order) || fresh(e)
    {
      hide Linked;
      ghost var entries := View();
      if |order| >= capacity && order != [] {
        var last := |order| - 1;
        LinkedWithout(items, order, last);
        assert order[..last] + order[last + 1..] == order[..last];
        items := items - {order[last].key};
        order := order[..last];
      }
      ghost var rest := if entries != [] && |entries| >= capacity then entries[..|entries| - 1] else entries;
      assert View() == rest;
      var elem := new Element(key, mapping, now + ttl);
      LinkedWith(items, order, elem);
      order := [elem] + order;
      items := items[key := elem];
      assert View() == [Entry(key, mapping, now + ttl)] + rest;
    }

    method Get(key: string, now: int) returns (r: Option<Mapping>)
      requires Valid()
      modifies this
      ensures Valid()
      ensures View() == AfterGet(old(View()), key, now)
      ensures r == if Answers(old(View()), key, now) then Some(Find(old(View()), key).mapping) else None
      ensures forall e :: e in order ==> e in old(order)
    {
      hide Linked, DistinctKeys, Has, Find, Without;
      LinkedKeys(items, order, key);
      if key !in items {
        return None;
      }
      var elem := items[key];
      Found(key);
      if now > elem.expiresAt {
        Drop(key);
        return None;
      }
      r := Some(elem.mapping);
      Promote(key);
    }

    lemma Found(key: string)
      requires Valid() && key in items
      ensures Has(View(), key) && Find(View(), key) == items[key].View()
    {
      Lookup(items, order, key);
      LinkedKeys(items, order, key);
      var k :| 0 <= k < |order| && order[k] == items[key];
      WithoutAt(View(), k);
    }

    /** Takes a key out of the list and the map. */
    method Drop(key: string)
      requires Valid() && key in items
      modifies this
      ensures Valid() && View() == Without(old(View()), key)
      ensures forall e :: e in order ==> e in old(order)
    {
      hide Linked, DistinctKeys, Has;
      Lookup(items, order, key);
      var k := Locate(items[key]);
      ghost var entries := View();
      LinkedKeys(items, order, key);
      WithoutAt(entries, k);
      assert entries[k].key == key;
      LinkedWithout(items, order, k);
      order := order[..k] + order[k + 1..];
      items := items - {key};
      assert View() == entries[..k] + entries[k + 1..];
    }

    /** Moves the element of a key to the front of the list. */
    method Promote(key: string)
      requires Valid() && key in items
      modifies this`order
      ensures Valid() && View() == [items[key].View()] + Without(old(View()), key)
      ensures forall e :: e in order ==> e in old(order)
    {
      hide Linked, DistinctKeys, Has;
      Lookup(items, order, key);
      var elem := items[key];
      var k := Locate(elem);
      ghost var entries := View();
      LinkedKeys(items, order, key);
      WithoutAt(entries, k);
      assert entries[k].key == key;
      LinkedToFront(items, order, k);
      order := [elem] + (order[..k] + order[k + 1..]);
      assert View() == [elem.View()] + (entries[..k] + entries[k + 1..]);
    }
  }
}
