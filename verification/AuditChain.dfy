/** The audit hash chain of internal/audit/chain.go. SHA-256 is an arbitrary function to 64 hex digits; what would be
    false because of a collision is stated as producing one. */
module AuditChain {
  import opened Prelude
  import opened Sorting

  type Hash = string -> string

  /** The hash writes 64 characters, none of which is the opening brace of a JSON object. */
  ghost predicate IsHexHash(hash: Hash) {
    forall x: string :: |hash(x)| == 64 && hash(x)[0] != '{'
  }

  ghost predicate IsObjectText<Row(!new)>(canonical: Row -> string) {
    forall r: Row :: |canonical(r)| > 0 && canonical(r)[0] == '{'
  }

  datatype AuditEvent<Row> = AuditEvent(row: Row, prevHash: string, thisHash: string)

  function ComputeThisHash<Row>(hash: Hash, canonical: Row -> string, prevHash: string, row: Row): string {
    hash(prevHash + canonical(row))
  }

  /** The hash a row builds on: the stored hash of its predecessor. The row's own prevHash is never looked at. */
  function Before<Row>(events: seq<AuditEvent<Row>>, i: nat): string
    requires i <= |events|
  {
    if i == 0 then "" else events[i - 1].thisHash
  }

  predicate IsViolation<Row>(hash: Hash, canonical: Row -> string, events: seq<AuditEvent<Row>>, i: nat)
    requires i < |events|
  {
    events[i].thisHash != ComputeThisHash(hash, canonical, Before(events, i), events[i].row)
  }

  /** Violations among the first `n` rows. */
  function Violations<Row>(hash: Hash, canonical: Row -> string, events: seq<AuditEvent<Row>>, n: nat): nat
    requires n <= |events|
  {
    if n == 0 then 0
    else Violations(hash, canonical, events, n - 1) + if IsViolation(hash, canonical, events, n - 1) then 1 else 0
  }

  /** The stored hash is not that of the preceding stored hash, the empty string for the first row, followed by the
      canonical row. */
  predicate IsMismatch<Row>(hash: Hash, canonical: Row -> string, events: seq<AuditEvent<Row>>, i: nat)
    requires i < |events|
  {
    events[i].thisHash != hash((if i == 0 then "" else events[i - 1].thisHash) + canonical(events[i].row))
  }

  function Mismatches<Row>(
    hash: Hash, canonical: Row -> string, events: seq<AuditEvent<Row>>, n: nat): set<nat>
    requires n <= |events|
  {
    set i: nat | i < n && IsMismatch(hash, canonical, events, i)
  }

  lemma {:induction false} MismatchesCounted<Row>(
    hash: Hash, canonical: Row -> string, events: seq<AuditEvent<Row>>, n: nat)
    requires n <= |events|
    ensures Violations(hash, canonical, events, n) == |Mismatches(hash, canonical, events, n)|
  {
    if n == 0 {
      assert Mismatches(hash, canonical, events, 0) == {};
    } else {
      MismatchesCounted(hash, canonical, events, n - 1);
      SameRule(hash, canonical, events, n - 1);
      hide IsViolation, IsMismatch;
      MismatchSize(hash, canonical, events, n);
      hide Mismatches;
    }
  }

  lemma SameRule<Row>(hash: Hash, canonical: Row -> string, events: seq<AuditEvent<Row>>, i: nat)
    requires i < |events|
    ensures IsViolation(hash, canonical, events, i) <==> IsMismatch(hash, canonical, events, i)
  {
  }

  lemma MismatchSize<Row>(hash: Hash, canonical: Row -> string, events: seq<AuditEvent<Row>>, n: nat)
    requires 0 < n <= |events|
    ensures |Mismatches(hash, canonical, events, n)|
         == |Mismatches(hash, canonical, events, n - 1)| + if IsMismatch(hash, canonical, events, n - 1) then 1 else 0
  {
    hide IsMismatch;
    var before := Mismatches(hash, canonical, events, n - 1);
    assert n - 1 !in before;
    if IsMismatch(hash, canonical, events, n - 1) {
      assert Mismatches(hash, canonical, events, n) == before + {n - 1};
    } else {
      assert Mismatches(hash, canonical, events, n) == before;
    }
  }

  method VerifyChain<Row>(hash: Hash, canonical: Row -> string, events: seq<AuditEvent<Row>>) returns (violations: nat)
    ensures violations == Violations(hash, canonical, events, |events|)
    ensures violations == |Mismatches(hash, canonical, events, |events|)|
  {
    MismatchesCounted(hash, canonical, events, |events|);
    violations := 0;
    var prevHash := "";
    for i := 0 to |events|
      invariant prevHash == Before(events, i)
      invariant violations == Violations(hash, canonical, events, i)
    {
      var expected := ComputeThisHash(hash, canonical, prevHash, events[i].row);
      if events[i].thisHash != expected {
        violations := violations + 1;
      }
      prevHash := events[i].thisHash;
    }
  }

  lemma {:induction false} NoViolations<Row>(hash: Hash, canonical: Row -> string, events: seq<AuditEvent<Row>>, n: nat)
    requires n <= |events|
    ensures Violations(hash, canonical, events, n) == 0 <==> forall i :: 0 <= i < n ==> !IsViolation(hash, canonical, events, i)
    ensures Violations(hash, canonical, events, n) <= n
  {
    if n > 0 {
      NoViolations(hash, canonical, events, n - 1);
    }
  }

  /** Two inputs with one hash. */
  predicate IsCollision(hash: Hash, x: string, y: string) {
    x != y && hash(x) == hash(y)
  }

  /** The input that is hashed for row i. */
  function Input<Row>(canonical: Row -> string, events: seq<AuditEvent<Row>>, i: nat): string
    requires i < |events|
  {
    Before(events, i) + canonical(events[i].row)
  }

  /** Two different inputs with one hash, one hashed for a row of `a`, the other for a row of `b`. */
  ghost predicate ChainsCollide<Row>(
    hash: Hash, canonical: Row -> string, a: seq<AuditEvent<Row>>, b: seq<AuditEvent<Row>>)
  {
    exists k: nat, l: nat :: (k < |a| && l < |b| && IsCollision(hash, Input(canonical, a, k), Input(canonical, b, l)))
  }

  /** Equal inputs split the same way: predecessors have 64 characters or none, and rows start with a brace. */
  lemma SplitInput(p: string, c: string, q: string, d: string)
    requires p + c == q + d && c != "" && d != "" && c[0] == '{' && d[0] == '{'
    requires p == "" || (|p| == 64 && p[0] != '{')
    requires q == "" || (|q| == 64 && q[0] != '{')
    ensures p == q && c == d
  {
    assert (p + c)[0] == (q + d)[0];
    assert p == (p + c)[..|p|] && q == (q + d)[..|q|];
    assert c == (p + c)[|p|..] && d == (q + d)[|q|..];
  }

  lemma StoredIsHash<Row(!new)>(hash: Hash, canonical: Row -> string, events: seq<AuditEvent<Row>>, i: nat)
    requires IsHexHash(hash) && i <= |events|
    requires Violations(hash, canonical, events, |events|) == 0
    ensures i == 0 ==> Before(events, i) == ""
    ensures i > 0 ==> |Before(events, i)| == 64 && Before(events, i)[0] != '{'
  {
    NoViolations(hash, canonical, events, |events|);
    if i > 0 {
      assert !IsViolation(hash, canonical, events, i - 1);
    }
  }

  /** Two chains that agree on the stored hash at i and j agree on everything before, or two of their own inputs
      collide. */
  lemma {:induction false} SamePast<Row(!new)>(
    hash: Hash, canonical: Row -> string, a: seq<AuditEvent<Row>>, b: seq<AuditEvent<Row>>, i: nat, j: nat)
    requires IsHexHash(hash) && IsObjectText(canonical)
    requires Violations(hash, canonical, a, |a|) == 0 && Violations(hash, canonical, b, |b|) == 0
    requires i < |a| && j < |b| && a[i].thisHash == b[j].thisHash
    ensures ChainsCollide(hash, canonical, a, b)
         || (i == j && forall k :: 0 <= k <= i ==> canonical(a[k].row) == canonical(b[k].row))
  {
    var x, y := Input(canonical, a, i), Input(canonical, b, j);
    NoViolations(hash, canonical, a, |a|);
    NoViolations(hash, canonical, b, |b|);
    assert !IsViolation(hash, canonical, a, i) && !IsViolation(hash, canonical, b, j);
    if x == y {
      StoredIsHash(hash, canonical, a, i);
      StoredIsHash(hash, canonical, b, j);
      SplitInput(Before(a, i), canonical(a[i].row), Before(b, j), canonical(b[j].row));
      if i > 0 {
        SamePast(hash, canonical, a, b, i - 1, j - 1);
      }
    }
  }

  /** Two chains without violations that end in the same hash have the same length and the same canonical rows,
      or an input of the one collides with an input of the other. */
  lemma SameTipSameChain<Row(!new)>(
    hash: Hash, canonical: Row -> string, a: seq<AuditEvent<Row>>, b: seq<AuditEvent<Row>>)
    requires IsHexHash(hash) && IsObjectText(canonical)
    requires a != [] && b != [] && a[|a| - 1].thisHash == b[|b| - 1].thisHash
    requires Violations(hash, canonical, a, |a|) == 0 && Violations(hash, canonical, b, |b|) == 0
    ensures ChainsCollide(hash, canonical, a, b)
         || (|a| == |b| && forall k :: 0 <= k < |a| ==> canonical(a[k].row) == canonical(b[k].row))
  {
    SamePast(hash, canonical, a, b, |a| - 1, |b| - 1);
  }

  /** Rows among the first `n` whose canonical text was changed. */
  function Altered<Row>(canonical: Row -> string, a: seq<AuditEvent<Row>>, b: seq<AuditEvent<Row>>, n: nat): nat
    requires n <= |a| == |b|
  {
    if n == 0 then 0
    else Altered(canonical, a, b, n - 1) + if canonical(a[n - 1].row) != canonical(b[n - 1].row) then 1 else 0
  }

  /** Row k was altered, and the altered input has the hash of the original one. */
  predicate AlterationCollides<Row>(
    hash: Hash, canonical: Row -> string, a: seq<AuditEvent<Row>>, b: seq<AuditEvent<Row>>, k: nat)
    requires k < |a| == |b|
  {
    IsCollision(hash, Before(a, k) + canonical(a[k].row), Before(a, k) + canonical(b[k].row))
  }

  /** Altered rows among the first `n` whose new input has the hash of the original one. */
  function Masked<Row>(
    hash: Hash, canonical: Row -> string, a: seq<AuditEvent<Row>>, b: seq<AuditEvent<Row>>, n: nat): nat
    requires n <= |a| == |b|
  {
    if n == 0 then 0
    else Masked(hash, canonical, a, b, n - 1) + if AlterationCollides(hash, canonical, a, b, n - 1) then 1 else 0
  }

  lemma {:induction false} NoneMasked<Row>(
    hash: Hash, canonical: Row -> string, a: seq<AuditEvent<Row>>, b: seq<AuditEvent<Row>>, n: nat)
    requires n <= |a| == |b|
    ensures Masked(hash, canonical, a, b, n) == 0
       <==> forall k :: 0 <= k < n ==> !AlterationCollides(hash, canonical, a, b, k)
  {
    if n > 0 {
      NoneMasked(hash, canonical, a, b, n - 1);
      hide AlterationCollides;
    }
  }

  lemma {:induction false} TamperedViolations<Row(!new)>(
    hash: Hash, canonical: Row -> string, a: seq<AuditEvent<Row>>, b: seq<AuditEvent<Row>>, n: nat)
    requires n <= |a| == |b| && forall k :: 0 <= k < |a| ==> a[k].thisHash == b[k].thisHash
    requires forall k :: 0 <= k < |a| ==> !IsViolation(hash, canonical, a, k)
    ensures Violations(hash, canonical, b, n) + Masked(hash, canonical, a, b, n) == Altered(canonical, a, b, n)
  {
    hide IsViolation, AlterationCollides;
    if n > 0 {
      TamperedViolations(hash, canonical, a, b, n - 1);
      AlteredRow(hash, canonical, a, b, n - 1);
    }
  }

  /** Altering rows without touching the stored hashes gives one violation for each altered row, except for those whose
      alteration collides with the row it replaces; so m altered rows give m violations if and only if none does. */
  lemma TamperingCounted<Row(!new)>(
    hash: Hash, canonical: Row -> string, a: seq<AuditEvent<Row>>, b: seq<AuditEvent<Row>>)
    requires |a| == |b| && forall k :: 0 <= k < |a| ==> a[k].thisHash == b[k].thisHash
    requires Violations(hash, canonical, a, |a|) == 0
    ensures
      Violations(hash, canonical, b, |b|) + Masked(hash, canonical, a, b, |b|) == Altered(canonical, a, b, |b|)
    ensures Violations(hash, canonical, b, |b|) == Altered(canonical, a, b, |b|)
       <==> forall k :: 0 <= k < |a| ==> !AlterationCollides(hash, canonical, a, b, k)
  {
    NoViolations(hash, canonical, a, |a|);
    TamperedViolations(hash, canonical, a, b, |a|);
    NoneMasked(hash, canonical, a, b, |a|);
    hide *;
  }

  lemma AlteredRow<Row>(
    hash: Hash, canonical: Row -> string, a: seq<AuditEvent<Row>>, b: seq<AuditEvent<Row>>, k: nat)
    requires k < |a| == |b| && forall i :: 0 <= i < |a| ==> a[i].thisHash == b[i].thisHash
    requires !IsViolation(hash, canonical, a, k)
    ensures IsViolation(hash, canonical, b, k)
       <==> canonical(a[k].row) != canonical(b[k].row) && !AlterationCollides(hash, canonical, a, b, k)
    ensures AlterationCollides(hash, canonical, a, b, k) ==> canonical(a[k].row) != canonical(b[k].row)
  {
    var p, c, d := Before(a, k), canonical(a[k].row), canonical(b[k].row);
    assert p == Before(b, k);
    assert (p + c)[|p|..] == c && (p + d)[|p|..] == d;
  }

  /** What the chain does not show: cutting rows off the end leaves it valid, and so does any prevHash field. */
  lemma {:induction false} UndetectedChanges<Row>(
    hash: Hash, canonical: Row -> string, a: seq<AuditEvent<Row>>, b: seq<AuditEvent<Row>>, n: nat)
    requires n <= |b| <= |a|
    requires forall k :: 0 <= k < |b| ==> b[k].row == a[k].row && b[k].thisHash == a[k].thisHash
    ensures Violations(hash, canonical, b, n) == Violations(hash, canonical, a, n)
  {
    if n > 0 {
      UndetectedChanges(hash, canonical, a, b, n - 1);
      assert Before(a, n - 1) == Before(b, n - 1);
    }
  }

  // ---------- the canonical text ----------

  /** No text of a value is the beginning of another value's text, as for JSON strings and objects. */
  ghost predicate IsPrefixFree<V(!new)>(encode: V -> string) {
    forall v, w :: encode(v) <= encode(w) ==> v == w
  }

  function Members<V>(m: map<string, V>, keys: seq<string>, quote: string -> string, encode: V -> string): string
    requires forall k :: k in keys ==> k in m
  {
    if keys == [] then ""
    else
      var own := quote(keys[0]) + ":" + encode(m[keys[0]]);
      if |keys| == 1 then own else own + "," + Members(m, keys[1..], quote, encode)
  }

  /** One member is the key, a colon and the value; commas stand between members. */
  lemma {:induction false} MembersJoined<V>(
    m: map<string, V>, left: seq<string>, right: seq<string>, quote: string -> string, encode: V -> string)
    requires left != [] && right != [] && forall k :: k in left + right ==> k in m
    ensures Members(m, [left[0]], quote, encode) == quote(left[0]) + ":" + encode(m[left[0]])
    ensures Members(m, left + right, quote, encode)
         == Members(m, left, quote, encode) + "," + Members(m, right, quote, encode)
    decreases |left|
  {
    assert (left + right)[0] == left[0] && left[0] in left + right;
    assert (left + right)[1..] == left[1..] + right;
    if |left| > 1 {
      MembersJoined(m, left[1..], right, quote, encode);
      var own := quote(left[0]) + ":" + encode(m[left[0]]);
      Regrouped(own + ",", Members(m, left[1..], quote, encode), "," + Members(m, right, quote, encode));
      assert ("," + Members(m, right, quote, encode)) == [','] + Members(m, right, quote, encode);
    }
  }

  lemma Regrouped(a: string, b: string, c: string)
    ensures a + (b + c) == (a + b) + c
  {
  }

  /** `keys` lists the keys of `m` in ascending order. */
  ghost predicate IsKeyList<V>(m: map<string, V>, keys: seq<string>) {
    Ascending(Less, keys) && forall k :: k in keys <==> k in m
  }

  lemma DistinctMore(keys: seq<string>, k: string)
    requires Distinct(keys) && k !in keys
    ensures Distinct(keys + [k])
  {
  }

  /** sortedJSON: the keys come out of the map in any order and are sorted. */
  method SortedJSON<V>(m: map<string, V>, quote: string -> string, encode: V -> string)
      returns (text: string)
    ensures exists keys :: IsKeyList(m, keys) && text == "{" + Members(m, keys, quote, encode) + "}"
  {
    var pending := m.Keys;
    var found: seq<string> := [];
    while pending != {}
      invariant pending <= m.Keys && Distinct(found)
      invariant forall k :: k in found <==> k in m.Keys - pending
    {
      var k :| k in pending;
      assert k !in found;
      DistinctMore(found, k);
      pending := pending - {k};
      found := found + [k];
    }
    var sorted := SortKeys(found);
    assert IsKeyList(m, sorted);
    var parts: seq<string> := [];
    for i := 0 to |sorted|
      invariant forall k :: k in sorted[..i] ==> k in m
      invariant parts == PartsOf(m, sorted[..i], quote, encode)
    {
      assert sorted[i] in sorted;
      assert sorted[..i + 1] == sorted[..i] + [sorted[i]];
      parts := parts + [quote(sorted[i]) + ":" + encode(m[sorted[i]])];
    }
    assert sorted[..|sorted|] == sorted;
    CommaIsMembers(m, sorted, quote, encode);
    text := "{" + Comma(parts) + "}";
  }

  method SortKeys(found: seq<string>) returns (sorted: seq<string>)
    requires Distinct(found)
    ensures Ascending(Less, sorted) && forall k :: k in sorted <==> k in found
  {
    LessIsStrictTotal();
    ghost var perm;
    sorted, perm := Sort(Less, found);
    ReorderingMembers(found, sorted, perm);
    forall k
      ensures k in sorted <==> k in found
    {
      assert k in multiset(sorted) <==> k in multiset(found);
    }
    forall i, j | 0 <= i < j < |sorted|
      ensures Less(sorted[i], sorted[j])
    {
      assert perm[i] != perm[j] && sorted[i] != sorted[j];
    }
  }

  function PartsOf<V>(m: map<string, V>, keys: seq<string>, quote: string -> string, encode: V -> string): (parts: seq<string>)
    requires forall k :: k in keys ==> k in m
    ensures |parts| == |keys|
  {
    seq(|keys|, i requires 0 <= i < |keys| => assert keys[i] in keys; quote(keys[i]) + ":" + encode(m[keys[i]]))
  }

  /** strings.Join(parts, ",") */
  function Comma(parts: seq<string>): string {
    if parts == [] then "" else if |parts| == 1 then parts[0] else parts[0] + "," + Comma(parts[1..])
  }

  lemma {:induction false} CommaIsMembers<V>(
    m: map<string, V>, keys: seq<string>, quote: string -> string, encode: V -> string)
    requires forall k :: k in keys ==> k in m
    ensures Comma(PartsOf(m, keys, quote, encode)) == Members(m, keys, quote, encode)
  {
    if keys != [] {
      CommaIsMembers(m, keys[1..], quote, encode);
      assert PartsOf(m, keys, quote, encode)[1..] == PartsOf(m, keys[1..], quote, encode);
    }
  }

  /** Prefix-free texts are cut off a longer text in one way only. */
  lemma CutOff<V(!new)>(encode: V -> string, v: V, w: V, s: string, t: string)
    requires IsPrefixFree(encode) && encode(v) + s == encode(w) + t
    ensures v == w && s == t
  {
    var whole := encode(v) + s;
    assert encode(v) == whole[..|encode(v)|] && encode(w) == whole[..|encode(w)|];
    assert encode(v) <= encode(w) || encode(w) <= encode(v);
    assert s == whole[|encode(v)|..] && t == whole[|encode(w)|..];
  }

  /** What follows the first member: the tail, or a comma and the other members. */
  function AfterMember<V>(
    m: map<string, V>, keys: seq<string>, quote: string -> string, encode: V -> string, tail: string): string
    requires keys != [] && forall k :: k in keys ==> k in m
  {
    if |keys| == 1 then tail else "," + (Members(m, keys[1..], quote, encode) + tail)
  }

  lemma FirstMember<V>(
    m: map<string, V>, keys: seq<string>, quote: string -> string, encode: V -> string, tail: string)
    requires keys != [] && forall k :: k in keys ==> k in m
    ensures keys[0] in m
    ensures Members(m, keys, quote, encode) + tail
         == quote(keys[0]) + (":" + (encode(m[keys[0]]) + AfterMember(m, keys, quote, encode, tail)))
  {
    assert keys[0] in keys;
  }

  lemma FirstMemberDetermined<V(!new)>(
    m: map<string, V>, m': map<string, V>, k: string, k': string, quote: string -> string, encode: V -> string,
    rest: string, rest': string)
    requires IsPrefixFree(quote) && IsPrefixFree(encode) && k in m && k' in m'
    requires quote(k) + (":" + (encode(m[k]) + rest)) == quote(k') + (":" + (encode(m'[k']) + rest'))
    ensures k == k' && m[k] == m'[k'] && rest == rest'
  {
    CutOff(quote, k, k', ":" + (encode(m[k]) + rest), ":" + (encode(m'[k']) + rest'));
    AfterFirst(":", encode(m[k]) + rest, encode(m'[k']) + rest');
    CutOff(encode, m[k], m'[k'], rest, rest');
  }

  lemma {:induction false} MembersDetermine<V(!new)>(
    m: map<string, V>, m': map<string, V>, keys: seq<string>, keys': seq<string>,
    quote: string -> string, encode: V -> string)
    requires IsPrefixFree(quote) && IsPrefixFree(encode)
    requires forall k :: k in keys ==> k in m
    requires forall k :: k in keys' ==> k in m'
    requires keys != [] && keys' != []
    requires Members(m, keys, quote, encode) + "}" == Members(m', keys', quote, encode) + "}"
    ensures keys == keys' && forall k :: k in keys ==> m[k] == m'[k]
  {
    hide IsPrefixFree, Members;
    FirstMember(m, keys, quote, encode, "}");
    FirstMember(m', keys', quote, encode, "}");
    var rest, rest' := AfterMember(m, keys, quote, encode, "}"), AfterMember(m', keys', quote, encode, "}");
    FirstMemberDetermined(m, m', keys[0], keys'[0], quote, encode, rest, rest');
    assert rest[0] == rest'[0];
    if |keys| > 1 {
      AfterFirst(",", Members(m, keys[1..], quote, encode) + "}", Members(m', keys'[1..], quote, encode) + "}");
      MembersDetermine(m, m', keys[1..], keys'[1..], quote, encode);
    }
    assert keys == [keys[0]] + keys[1..] && keys' == [keys'[0]] + keys'[1..];
  }

  lemma AfterFirst(c: string, s: string, t: string)
    requires |c| == 1 && c + s == c + t
    ensures s == t
  {
    assert s == (c + s)[1..] && t == (c + t)[1..];
  }

  lemma {:induction false} MembersStart<V>(
    m: map<string, V>, keys: seq<string>, quote: string -> string, encode: V -> string)
    requires keys != [] && forall k :: k in keys ==> k in m
    ensures quote(keys[0]) <= Members(m, keys, quote, encode)
  {
  }

  /** The canonical text determines the object: equal texts come from equal maps, whatever order they were walked in. */
  lemma CanonicalTextDetermines<V(!new)>(
    m: map<string, V>, m': map<string, V>, keys: seq<string>, keys': seq<string>,
    quote: string -> string, encode: V -> string)
    requires IsPrefixFree(quote) && IsPrefixFree(encode)
    requires forall k :: quote(k) != "" && quote(k)[0] != '}'
    requires IsKeyList(m, keys) && IsKeyList(m', keys')
    ensures "{" + Members(m, keys, quote, encode) + "}" == "{" + Members(m', keys', quote, encode) + "}" <==> m == m'
  {
    LessIsStrictTotal();
    var s, s' := Members(m, keys, quote, encode), Members(m', keys', quote, encode);
    if m == m' {
      StrictUnique(Less, keys, keys');
    }
    if "{" + s + "}" == "{" + s' + "}" {
      assert "{" + s + "}" == "{" + (s + "}") && "{" + s' + "}" == "{" + (s' + "}");
      AfterFirst("{", s + "}", s' + "}");
      if keys != [] { MembersStart(m, keys, quote, encode); }
      if keys' != [] { MembersStart(m', keys', quote, encode); }
      assert keys == [] <==> keys' == [] by {
        assert (s + "}")[0] == (s' + "}")[0];
      }
      if keys != [] {
        MembersDetermine(m, m', keys, keys', quote, encode);
      }
    }
  }
}
