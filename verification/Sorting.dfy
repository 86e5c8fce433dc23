/** What Go's sort package promises: an unstable sort gives some sorted reordering, a stable sort the one sorted
    reordering that leaves ties in their input order. */
module Sorting {

  ghost predicate IsWeakOrder<T(!new)>(less: (T, T) -> bool) {
    && (forall a :: !less(a, a))
    && (forall a, b, c {:trigger less(a, b), less(b, c)} :: less(a, b) && less(b, c) ==> less(a, c))
    && (forall a, b, c {:trigger less(a, c), less(a, b)} :: less(a, c) ==> less(a, b) || less(b, c))
  }

  ghost predicate Sorted<T>(less: (T, T) -> bool, s: seq<T>) {
    forall i, j :: 0 <= i < j < |s| ==> !less(s[j], s[i])
  }

  predicate Distinct<T(==)>(s: seq<T>) {
    forall i, j :: 0 <= i < j < |s| ==> s[i] != s[j]
  }

  /** `out` lists the elements of `s` in the order of the indices `perm`. */
  ghost predicate IsReordering<T>(s: seq<T>, out: seq<T>, perm: seq<nat>) {
    && |perm| == |out| == |s|
    && Distinct(perm)
    && (forall k :: 0 <= k < |perm| ==> perm[k] < |s| && out[k] == s[perm[k]])
  }

  function Insert<T>(less: (T, T) -> bool, s: seq<T>, x: T): (r: seq<T>)
    ensures |r| == |s| + 1
  {
    if s == [] || !less(x, s[|s| - 1]) then s + [x]
    else Insert(less, s[..|s| - 1], x) + [s[|s| - 1]]
  }

  function StableSort<T>(less: (T, T) -> bool, s: seq<T>): (r: seq<T>)
    ensures |r| == |s|
  {
    if s == [] then [] else Insert(less, StableSort(less, s[..|s| - 1]), s[|s| - 1])
  }

  /** The elements of `s` that tie with `x`, in order. */
  function Ties<T>(less: (T, T) -> bool, s: seq<T>, x: T): seq<T> {
    if s == [] then []
    else
      var y := s[|s| - 1];
      Ties(less, s[..|s| - 1], x) + if less(x, y) || less(y, x) then [] else [y]
  }

  ghost predicate SameTies<T(!new)>(less: (T, T) -> bool, a: seq<T>, b: seq<T>) {
    forall x :: Ties(less, a, x) == Ties(less, b, x)
  }

  lemma {:induction false} InsertMembers<T>(less: (T, T) -> bool, s: seq<T>, x: T)
    ensures multiset(Insert(less, s, x)) == multiset(s) + multiset{x}
  {
    if s != [] && less(x, s[|s| - 1]) {
      InsertMembers(less, s[..|s| - 1], x);
      assert s == s[..|s| - 1] + [s[|s| - 1]];
    }
  }

  lemma {:induction false} StableSortMembers<T>(less: (T, T) -> bool, s: seq<T>)
    ensures multiset(StableSort(less, s)) == multiset(s)
  {
    if s != [] {
      var init, x := s[..|s| - 1], s[|s| - 1];
      StableSortMembers(less, init);
      InsertMembers(less, StableSort(less, init), x);
      assert s == init + [x];
    }
  }

  lemma {:induction false} InsertSorted<T(!new)>(less: (T, T) -> bool, s: seq<T>, x: T)
    requires IsWeakOrder(less) && Sorted(less, s)
    ensures Sorted(less, Insert(less, s, x))
  {
    if s != [] && less(x, s[|s| - 1]) {
      var init, y := s[..|s| - 1], s[|s| - 1];
      InsertSorted(less, init, x);
      InsertMembers(less, init, x);
      var r := Insert(less, init, x);
      forall i | 0 <= i < |r|
        ensures !less(y, r[i])
      {
        assert r[i] in multiset(r);
        if r[i] != x {
          assert r[i] in multiset(init);
          assert r[i] in init;
        }
      }
    }
  }

  lemma {:induction false} StableSortSorted<T(!new)>(less: (T, T) -> bool, s: seq<T>)
    requires IsWeakOrder(less)
    ensures Sorted(less, StableSort(less, s))
  {
    if s != [] {
      StableSortSorted(less, s[..|s| - 1]);
      InsertSorted(less, StableSort(less, s[..|s| - 1]), s[|s| - 1]);
    }
  }

  lemma {:induction false} InsertTies<T(!new)>(less: (T, T) -> bool, s: seq<T>, x: T, y: T)
    requires IsWeakOrder(less)
    ensures Ties(less, Insert(less, s, x), y) == Ties(less, s + [x], y)
  {
    assert (s + [x])[..|s|] == s;
    if s != [] && less(x, s[|s| - 1]) {
      var init, z := s[..|s| - 1], s[|s| - 1];
      InsertTies(less, init, x, y);
      assert (init + [x])[..|init|] == init;
      assert Insert(less, s, x)[..|s|] == Insert(less, init, x);
    }
  }

  lemma {:induction false} StableSortTies<T(!new)>(less: (T, T) -> bool, s: seq<T>)
    requires IsWeakOrder(less)
    ensures SameTies(less, StableSort(less, s), s)
  {
    if s != [] {
      var init, x := s[..|s| - 1], s[|s| - 1];
      StableSortTies(less, init);
      forall y
        ensures Ties(less, StableSort(less, s), y) == Ties(less, s, y)
      {
        var sorted := StableSort(less, init);
        InsertTies(less, sorted, x, y);
        assert (sorted + [x])[..|sorted|] == sorted;
        assert Ties(less, sorted, y) == Ties(less, init, y);
      }
    }
  }

  lemma {:induction false} TiesIn<T>(less: (T, T) -> bool, s: seq<T>, x: T)
    ensures forall y :: y in Ties(less, s, x) <==> y in s && !less(x, y) && !less(y, x)
  {
    if s != [] {
      TiesIn(less, s[..|s| - 1], x);
      assert s == s[..|s| - 1] + [s[|s| - 1]];
    }
  }

  lemma {:induction false} LastTies<T>(less: (T, T) -> bool, s: seq<T>)
    requires s != [] && !less(s[|s| - 1], s[|s| - 1])
    ensures Ties(less, s, s[|s| - 1]) != []
    ensures Ties(less, s, s[|s| - 1])[|Ties(less, s, s[|s| - 1])| - 1] == s[|s| - 1]
  {
  }

  /** The last elements of two stable results tie, and so are the same element. */
  lemma LastsAgree<T(!new)>(less: (T, T) -> bool, a: seq<T>, b: seq<T>)
    requires IsWeakOrder(less)
    requires a != [] && b != []
    requires Sorted(less, a) && Sorted(less, b) && SameTies(less, a, b)
    ensures a[|a| - 1] == b[|b| - 1]
  {
    var x, y := a[|a| - 1], b[|b| - 1];
    assert Ties(less, a, x) == Ties(less, b, x) && Ties(less, a, y) == Ties(less, b, y);
    LastTies(less, a);
    LastTies(less, b);
    assert x in Ties(less, b, x) && y in Ties(less, a, y);
    TiesIn(less, b, x);
    TiesIn(less, a, y);
    assert !less(y, x) && !less(x, y);
    TieTransfer(less, b, x, y);
  }

  /** Elements that tie have the same ties. */
  lemma {:induction false} TieTransfer<T(!new)>(less: (T, T) -> bool, s: seq<T>, x: T, y: T)
    requires IsWeakOrder(less)
    requires !less(x, y) && !less(y, x)
    ensures Ties(less, s, x) == Ties(less, s, y)
  {
    if s != [] {
      TieTransfer(less, s[..|s| - 1], x, y);
      var z := s[|s| - 1];
      assert less(x, z) <==> less(y, z);
      assert less(z, x) <==> less(z, y);
    }
  }

  lemma DropLastTies<T(!new)>(less: (T, T) -> bool, a: seq<T>, b: seq<T>)
    requires a != [] && b != [] && a[|a| - 1] == b[|b| - 1]
    requires SameTies(less, a, b)
    ensures SameTies(less, a[..|a| - 1], b[..|b| - 1])
  {
    var x, a', b' := a[|a| - 1], a[..|a| - 1], b[..|b| - 1];
    forall z
      ensures Ties(less, a', z) == Ties(less, b', z)
    {
      assert Ties(less, a, z) == Ties(less, b, z);
      var drop := if less(z, x) || less(x, z) then [] else [x];
      assert Ties(less, a', z) + drop == Ties(less, b', z) + drop;
      var n := |Ties(less, a', z)|;
      assert Ties(less, a', z) == (Ties(less, a', z) + drop)[..n];
      assert Ties(less, b', z) == (Ties(less, b', z) + drop)[..n];
    }
  }

  lemma NonemptyTogether<T(!new)>(less: (T, T) -> bool, a: seq<T>, b: seq<T>)
    requires IsWeakOrder(less) && SameTies(less, a, b)
    requires a != []
    ensures b != []
  {
    var x := a[|a| - 1];
    LastTies(less, a);
    assert Ties(less, a, x) == Ties(less, b, x);
  }

  /** There is only one stable result: sorting and keeping the order of ties leave no choice. */
  lemma {:induction false} StableUnique<T(!new)>(less: (T, T) -> bool, a: seq<T>, b: seq<T>)
    requires IsWeakOrder(less)
    requires Sorted(less, a) && Sorted(less, b) && SameTies(less, a, b)
    ensures a == b
    decreases |a|
  {
    if b != [] {
      NonemptyTogether(less, b, a);
    }
    if a != [] {
      NonemptyTogether(less, a, b);
      LastsAgree(less, a, b);
      DropLastTies(less, a, b);
      StableUnique(less, a[..|a| - 1], b[..|b| - 1]);
      assert a == a[..|a| - 1] + [a[|a| - 1]] && b == b[..|b| - 1] + [b[|b| - 1]];
    }
  }

  ghost predicate IsTotal<T(!new)>(less: (T, T) -> bool) {
    forall x, y {:trigger less(x, y)} :: less(x, y) || x == y || less(y, x)
  }

  lemma CancelElement<T>(a: multiset<T>, b: multiset<T>, x: T)
    requires a + multiset{x} == b + multiset{x}
    ensures a == b
  {
    assert a == (a + multiset{x}) - multiset{x};
    assert b == (b + multiset{x}) - multiset{x};
  }

  lemma GreatestLast<T(!new)>(less: (T, T) -> bool, a: seq<T>, b: seq<T>)
    requires IsTotal(less)
    requires a != [] && b != [] && Sorted(less, a) && Sorted(less, b) && multiset(a) == multiset(b)
    ensures a[|a| - 1] == b[|b| - 1]
  {
    var x, y := a[|a| - 1], b[|b| - 1];
    assert x in multiset(b) && y in multiset(a);
    assert x in b && y in a;
    var i :| 0 <= i < |a| && a[i] == y;
    var j :| 0 <= j < |b| && b[j] == x;
    assert i == |a| - 1 || !less(x, y);
    assert j == |b| - 1 || !less(y, x);
  }

  /** Under a total order the multiset of elements determines the sorted sequence. */
  lemma {:induction false} SortedUnique<T(!new)>(less: (T, T) -> bool, a: seq<T>, b: seq<T>)
    requires IsTotal(less)
    requires Sorted(less, a) && Sorted(less, b) && multiset(a) == multiset(b)
    ensures a == b
    decreases |a|
  {
    assert |a| == |multiset(a)| && |b| == |multiset(b)|;
    if a != [] {
      GreatestLast(less, a, b);
      var a', x, b' := a[..|a| - 1], a[|a| - 1], b[..|b| - 1];
      assert a == a' + [x] && b == b' + [x];
      assert multiset(a) == multiset(a') + multiset{x};
      assert multiset(b) == multiset(b') + multiset{x};
      CancelElement(multiset(a'), multiset(b'), x);
      SortedUnique(less, a', b');
    }
  }

  lemma RemoveAt<T>(s: seq<T>, k: nat)
    requires k < |s|
    ensures multiset(s) == multiset(s[..k] + s[k + 1..]) + multiset{s[k]}
  {
    assert s == s[..k] + [s[k]] + s[k + 1..];
  }

  lemma {:induction false} ReorderingMembers<T>(s: seq<T>, out: seq<T>, perm: seq<nat>)
    requires IsReordering(s, out, perm)
    ensures multiset(out) == multiset(s)
    decreases |s|
  {
    if s != [] {
      var n := |s| - 1;
      var k := FindIndex(perm, n);
      RemoveIndex(s, out, perm, k);
      ReorderingMembers(s[..n], out[..k] + out[k + 1..], perm[..k] + perm[k + 1..]);
      RemoveAt(out, k);
      RemoveAt(s, n);
      assert s[..n] + s[n + 1..] == s[..n];
    }
  }

  lemma RemoveIndex<T>(s: seq<T>, out: seq<T>, perm: seq<nat>, k: nat)
    requires IsReordering(s, out, perm) && k < |s| && perm[k] == |s| - 1
    ensures IsReordering(s[..|s| - 1], out[..k] + out[k + 1..], perm[..k] + perm[k + 1..])
  {
  }

  function Below(n: nat): (s: set<nat>)
    ensures forall i :: i in s <==> 0 <= i < n
    ensures |s| == n
  {
    if n == 0 then {} else Below(n - 1) + {n - 1}
  }

  /** n distinct indices below n include every index below n. */
  lemma FindIndex(perm: seq<nat>, n: nat) returns (k: nat)
    requires Distinct(perm) && n < |perm|
    requires forall j :: 0 <= j < |perm| ==> perm[j] < |perm|
    ensures k < |perm| && perm[k] == n
  {
    var image := set j | 0 <= j < |perm| :: perm[j];
    DistinctImage(perm);
    var all := Below(|perm|);
    if n !in image {
      assert image <= all - {n};
      SubsetSize(image, all - {n});
      assert false;
    }
    k :| 0 <= k < |perm| && perm[k] == n;
  }

  lemma {:induction false} DistinctImage<T>(s: seq<T>)
    requires Distinct(s)
    ensures |set j | 0 <= j < |s| :: s[j]| == |s|
  {
    if s != [] {
      var n := |s| - 1;
      DistinctImage(s[..n]);
      var small := set j | 0 <= j < n :: s[..n][j];
      assert (set j | 0 <= j < |s| :: s[j]) == small + {s[n]};
      assert s[n] !in small;
    }
  }

  lemma {:induction false} SubsetSize<T>(a: set<T>, b: set<T>)
    requires a <= b
    ensures |a| <= |b|
  {
    if a != {} {
      var x :| x in a;
      SubsetSize(a - {x}, b - {x});
    }
  }

  lemma InsertedSorted<T(!new)>(less: (T, T) -> bool, out: seq<T>, k: nat, x: T)
    requires IsWeakOrder(less) && Sorted(less, out) && k <= |out|
    requires k == 0 || !less(x, out[k - 1])
    requires forall j :: k <= j < |out| ==> less(x, out[j])
    ensures Sorted(less, out[..k] + [x] + out[k..])
  {
    forall j | 0 <= j < k
      ensures !less(x, out[j])
    {
      assert j == k - 1 || !less(out[k - 1], out[j]);
    }
    forall j | k <= j < |out|
      ensures !less(out[j], x)
    {
      assert less(x, out[j]);
    }
  }

  lemma InsertedReordering<T>(s: seq<T>, i: nat, out: seq<T>, perm: seq<nat>, k: nat)
    requires i < |s| && IsReordering(s[..i], out, perm) && k <= i
    ensures IsReordering(s[..i + 1], out[..k] + [s[i]] + out[k..], perm[..k] + [i] + perm[k..])
  {
  }

  /** Where x goes into a sorted sequence, behind its ties. */
  lemma {:induction false} FindPlace<T(!new)>(less: (T, T) -> bool, out: seq<T>, x: T) returns (k: nat)
    requires IsWeakOrder(less) && Sorted(less, out)
    ensures k <= |out| && (k == 0 || !less(x, out[k - 1])) && forall j :: k <= j < |out| ==> less(x, out[j])
  {
    if out == [] || !less(x, out[|out| - 1]) {
      k := |out|;
    } else {
      k := FindPlace(less, out[..|out| - 1], x);
    }
  }

  /** Everything can be sorted. */
  lemma {:induction false} SortedReordering<T(!new)>(less: (T, T) -> bool, s: seq<T>)
      returns (out: seq<T>, perm: seq<nat>)
    requires IsWeakOrder(less)
    ensures Sorted(less, out) && IsReordering(s, out, perm)
  {
    out, perm := [], [];
    if s != [] {
      var n := |s| - 1;
      out, perm := SortedReordering(less, s[..n]);
      var k := FindPlace(less, out, s[n]);
      InsertedSorted(less, out, k, s[n]);
      InsertedReordering(s, n, out, perm, k);
      assert s[..n + 1] == s;
      out, perm := out[..k] + [s[n]] + out[k..], perm[..k] + [n] + perm[k..];
    }
  }

  /** sort.Slice, sort.Ints and sort.Strings: some sorted reordering; nothing is promised about ties. */
  method Sort<T(!new)>(less: (T, T) -> bool, s: seq<T>) returns (out: seq<T>, ghost perm: seq<nat>)
    requires IsWeakOrder(less)
    ensures Sorted(less, out)
    ensures IsReordering(s, out, perm)
  {
    out, perm := [], [];
    for i := 0 to |s|
      invariant Sorted(less, out)
      invariant IsReordering(s[..i], out, perm)
    {
      var x, k := s[i], i;
      while k > 0 && less(x, out[k - 1])
        invariant 0 <= k <= i
        invariant forall j :: k <= j < i ==> less(x, out[j])
      {
        k := k - 1;
      }
      InsertedSorted(less, out, k, x);
      InsertedReordering(s, i, out, perm, k);
      out, perm := out[..k] + [x] + out[k..], perm[..k] + [i] + perm[k..];
    }
    assert s[..|s|] == s;
  }

  ghost predicate Ascending<T>(less: (T, T) -> bool, s: seq<T>) {
    forall j, k :: 0 <= j < k < |s| ==> less(s[j], s[k])
  }

  lemma AscendingLast<T(!new)>(less: (T, T) -> bool, a: seq<T>, b: seq<T>)
    requires IsWeakOrder(less) && Ascending(less, a) && Ascending(less, b)
    requires forall x :: x in a <==> x in b
    requires a != []
    ensures b != [] && a[|a| - 1] == b[|b| - 1]
  {
    assert a[0] in a;
    var x, y := a[|a| - 1], b[|b| - 1];
    assert x in b && y in a;
    var i :| 0 <= i < |a| && a[i] == y;
    var j :| 0 <= j < |b| && b[j] == x;
    assert i == |a| - 1 || less(y, x);
    assert j == |b| - 1 || less(x, y);
  }

  lemma AscendingInit<T>(less: (T, T) -> bool, a: seq<T>, init: seq<T>, x: T)
    requires Ascending(less, a) && a == init + [x]
    ensures Ascending(less, init)
    ensures forall y :: y in init ==> less(y, x)
  {
    forall y | y in init
      ensures less(y, x)
    {
      var j :| 0 <= j < |init| && init[j] == y;
      assert less(a[j], a[|init|]);
    }
    forall j, k | 0 <= j < k < |init|
      ensures less(init[j], init[k])
    {
      assert less(a[j], a[k]);
    }
  }

  /** Strictly ascending sequences with the same elements are the same sequence. */
  lemma {:induction false} StrictUnique<T(!new)>(less: (T, T) -> bool, a: seq<T>, b: seq<T>)
    requires IsWeakOrder(less) && Ascending(less, a) && Ascending(less, b)
    requires forall x :: x in a <==> x in b
    ensures a == b
    decreases |a|
  {
    hide IsWeakOrder, Ascending;
    if b != [] {
      AscendingLast(less, b, a);
    }
    if a != [] {
      AscendingLast(less, a, b);
      var a', b', x := a[..|a| - 1], b[..|b| - 1], a[|a| - 1];
      assert a == a' + [x] && b == b' + [x];
      AscendingInit(less, a, a', x);
      AscendingInit(less, b, b', x);
      StrictWithoutLast(less, a', b', x);
      StrictUnique(less, a', b');
    }
  }

  lemma StrictWithoutLast<T(!new)>(less: (T, T) -> bool, a: seq<T>, b: seq<T>, x: T)
    requires IsWeakOrder(less)
    requires forall y :: y in a ==> less(y, x)
    requires forall y :: y in b ==> less(y, x)
    requires forall y :: y in a + [x] <==> y in b + [x]
    ensures forall y :: y in a <==> y in b
  {
    assert x !in a && x !in b;
    forall y
      ensures y in a <==> y in b
    {
      assert y in a + [x] <==> y in a || y == x;
      assert y in b + [x] <==> y in b || y == x;
    }
  }
}
