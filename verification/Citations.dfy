/** Citation markers and the rule which sentences are streamed, of internal/streamsynth/streamsynth.go. */
module Citations {
  import opened Prelude
  import opened Sentences

  datatype Citation = Citation(marker: int, docId: string, url: string, title: string)

  datatype Payload = Payload(index: nat, text: string, citations: seq<Citation>)

  const MAX_INT: nat := 0x7FFF_FFFF_FFFF_FFFF

  predicate IsDigit(c: char) {
    '0' <= c <= '9'
  }

  function Digits(u: string): (n: nat)
    ensures n <= |u|
    ensures forall i :: 0 <= i < n ==> IsDigit(u[i])
    ensures n < |u| ==> !IsDigit(u[n])
  {
    if u == "" || !IsDigit(u[0]) then 0 else 1 + Digits(u[1..])
  }

  function Number(digits: string): nat
    requires forall i :: 0 <= i < |digits| ==> IsDigit(digits[i])
  {
    if digits == "" then 0
    else
      assert IsDigit(digits[|digits| - 1]);
      Number(digits[..|digits| - 1]) * 10 + (digits[|digits| - 1] as int - '0' as int)
  }

  /** The marker expression at the start of `u`: the number of digits, or 0 if there is no match here. */
  function MatchHere(u: string): (n: nat)
    ensures n > 0 ==> IsMarker(u, 0, n)
  {
    if u == "" || u[0] != '[' then 0
    else
      var n := Digits(u[1..]);
      assert forall i :: 1 <= i <= n ==> u[i] == u[1..][i - 1];
      if n + 1 < |u| && u[n + 1] == ']' then n else 0
  }

  /** `[`, n digits, `]` at index `i`. */
  predicate IsMarker(u: string, i: nat, n: nat) {
    && n > 0 && i + n + 1 < |u| && u[i] == '[' && u[i + n + 1] == ']'
    && forall j :: i < j <= i + n ==> IsDigit(u[j])
  }

  /** The number behind a marker. */
  function MarkerValue(u: string, i: nat, n: nat): nat
    requires IsMarker(u, i, n)
  {
    Number(u[i + 1..i + n + 1])
  }

  /** FindAllStringSubmatch: the numbers of the leftmost matches that do not overlap. */
  function Markers(u: string): seq<nat>
    decreases |u|
  {
    if u == "" then []
    else
      var n := MatchHere(u);
      if n > 0 then [MarkerValue(u, 0, n)] + Markers(u[n + 2..]) else Markers(u[1..])
  }

  /** The sentence cites `value`: somewhere in it stands a marker with this number. */
  ghost predicate Cites(u: string, value: nat) {
    exists i, n :: IsMarker(u, i, n) && MarkerValue(u, i, n) == value
  }

  lemma MarkerShift(u: string, k: nat, i: nat, n: nat)
    requires k <= |u|
    ensures IsMarker(u[k..], i, n) <==> IsMarker(u, i + k, n)
    ensures IsMarker(u, i + k, n) ==> MarkerValue(u[k..], i, n) == MarkerValue(u, i + k, n)
  {
    var rest := u[k..];
    assert forall j :: 0 <= j < |rest| ==> rest[j] == u[j + k];
    if IsMarker(rest, i, n) {
      forall j | i + k < j <= i + k + n
        ensures IsDigit(u[j])
      {
        assert IsDigit(rest[j - k]);
      }
    }
    if IsMarker(u, i + k, n) {
      assert rest[i + 1..i + n + 1] == u[i + k + 1..i + k + n + 1];
    }
  }

  /** A marker is as long as its digits, so there is at most one at an index. */
  lemma MarkerHere(u: string, n: nat)
    requires IsMarker(u, 0, n)
    ensures MatchHere(u) == n
  {
    var d := Digits(u[1..]);
    assert forall i :: 1 <= i < |u| ==> u[i] == u[1..][i - 1];
    assert forall j :: 0 <= j < n ==> IsDigit(u[1..][j]);
    assert d >= n;
  }

  /** Inside a match no other one starts. */
  lemma NoMarkerInside(u: string, m: nat, i: nat, n: nat)
    requires IsMarker(u, 0, m) && IsMarker(u, i, n) && i > 0
    ensures i >= m + 2
  {
    var c := u[i];
    assert i <= m ==> IsDigit(c);
  }

  /** What the scan may skip after looking at the start of `u`. */
  function Skip(u: string): (k: nat)
    requires u != ""
    ensures 0 < k <= |u|
  {
    if MatchHere(u) > 0 then MatchHere(u) + 2 else 1
  }

  lemma CitesLater(u: string, value: nat)
    requires u != ""
    ensures Cites(u[Skip(u)..], value) ==> Cites(u, value)
  {
    var k := Skip(u);
    if i: nat, n: nat :| IsMarker(u[k..], i, n) && MarkerValue(u[k..], i, n) == value {
      MarkerShift(u, k, i, n);
      assert IsMarker(u, i + k, n) && MarkerValue(u, i + k, n) == value;
    }
  }

  lemma CitesHereOrLater(u: string, value: nat)
    requires u != "" && Cites(u, value)
    ensures (MatchHere(u) > 0 && MarkerValue(u, 0, MatchHere(u)) == value) || Cites(u[Skip(u)..], value)
  {
    var k, m := Skip(u), MatchHere(u);
    var i: nat, n: nat :| IsMarker(u, i, n) && MarkerValue(u, i, n) == value;
    if i == 0 {
      MarkerHere(u, n);
    } else {
      if m > 0 {
        NoMarkerInside(u, m, i, n);
      }
      MarkerShift(u, k, i - k, n);
      assert IsMarker(u[k..], i - k, n) && MarkerValue(u[k..], i - k, n) == value;
    }
  }

  /** Scanning from the left misses no marker. */
  lemma {:induction false} MarkersAreCited(u: string, value: nat)
    ensures value in Markers(u) <==> Cites(u, value)
    decreases |u|
  {
    if u != "" {
      MarkersAreCited(u[Skip(u)..], value);
      CitesLater(u, value);
      if Cites(u, value) {
        CitesHereOrLater(u, value);
      }
      if MatchHere(u) > 0 && MarkerValue(u, 0, MatchHere(u)) == value {
        assert Cites(u, value);
      }
      hide MatchHere, Cites;
    }
  }

  /** The last citation with this marker among the first `k`. */
  function LastWith(citations: seq<Citation>, n: int, k: nat): (c: Option<Citation>)
    requires k <= |citations|
    ensures c.Some? ==> c.value.marker == n && c.value in citations[..k]
    ensures c.None? ==> forall j :: 0 <= j < k ==> citations[j].marker != n
    ensures c.Some? ==>
        exists i :: 0 <= i < k && citations[i] == c.value && forall j :: i < j < k ==> citations[j].marker != n
  {
    if k == 0 then None
    else if citations[k - 1].marker == n then Some(citations[k - 1])
    else
      var c := LastWith(citations, n, k - 1);
      assert c.Some? ==> citations[..k - 1] <= citations[..k];
      c
  }

  function CitationMap(citations: seq<Citation>): map<int, Citation> {
    if citations == [] then map[]
    else
      var last := citations[|citations| - 1];
      CitationMap(citations[..|citations| - 1])[last.marker := last]
  }

  /** The map holds exactly the given markers, each with the last citation that carries it. */
  lemma {:induction false} CitationMapMeaning(citations: seq<Citation>, n: int)
    ensures LastWith(citations, n, |citations|)
         == if n in CitationMap(citations) then Some(CitationMap(citations)[n]) else None
  {
    if citations != [] {
      var k := |citations| - 1;
      CitationMapMeaning(citations[..k], n);
      SameLast(citations, n, k, k);
    }
  }

  lemma {:induction false} SameLast(citations: seq<Citation>, n: int, k: nat, m: nat)
    requires k <= m <= |citations|
    ensures LastWith(citations[..m], n, k) == LastWith(citations, n, k)
  {
    if k > 0 {
      SameLast(citations, n, k - 1, m);
    }
  }

  /** buildCitationMap: of two citations with one marker the later wins. */
  method BuildCitationMap(citations: seq<Citation>) returns (m: map<int, Citation>)
    ensures m == CitationMap(citations) && WellIndexed(m)
    ensures forall n :: LastWith(citations, n, |citations|) == if n in m then Some(m[n]) else None
  {
    m := map[];
    for i := 0 to |citations|
      invariant m == CitationMap(citations[..i])
    {
      assert citations[..i + 1][..i] == citations[..i];
      m := m[citations[i].marker := citations[i]];
    }
    assert citations[..|citations|] == citations;
    forall n
      ensures LastWith(citations, n, |citations|) == if n in m then Some(m[n]) else None
    {
      CitationMapMeaning(citations, n);
    }
  }

  predicate WellIndexed(m: map<int, Citation>) {
    forall n :: n in m ==> m[n].marker == n
  }

  /** Where a number first occurs. */
  function FirstAt(values: seq<nat>, n: nat): (i: nat)
    requires n in values
    ensures i < |values| && values[i] == n && forall j :: 0 <= j < i ==> values[j] != n
  {
    if values[0] == n then 0 else 1 + FirstAt(values[1..], n)
  }

  /** Numbers too large for the platform's integer count as unresolved. */
  predicate Resolvable(m: map<int, Citation>, n: nat) {
    n <= MAX_INT && n in m
  }

  /** The citations of the first `k` markers: each known number once, by first occurrence. */
  ghost predicate Resolves(values: seq<nat>, m: map<int, Citation>, k: nat, refs: seq<Citation>)
    requires k <= |values|
  {
    && (forall r :: 0 <= r < |refs| ==>
          && refs[r].marker >= 0 && Resolvable(m, refs[r].marker) && refs[r] == m[refs[r].marker]
          && refs[r].marker in values[..k])
    && (forall q, r :: 0 <= q < r < |refs| ==>
          FirstAt(values[..k], refs[q].marker) < FirstAt(values[..k], refs[r].marker))
    && (forall i :: 0 <= i < k && Resolvable(m, values[i]) ==> m[values[i]] in refs)
  }

  lemma ResolvesStep(values: seq<nat>, m: map<int, Citation>, k: nat, refs: seq<Citation>)
    requires k < |values| && Resolves(values, m, k, refs) && WellIndexed(m)
    ensures
      var n := values[k];
      Resolves(values, m, k + 1, if n !in values[..k] && Resolvable(m, n) then refs + [m[n]] else refs)
  {
    var n := values[k];
    KeepsFirst(values, k);
    hide FirstAt;
    assert values[..k + 1] == values[..k] + [n];
    if n in values[..k] || !Resolvable(m, n) {
      ResolvesKnown(values, m, k, refs);
    } else {
      ResolvesNew(values, m, k, refs);
    }
  }

  lemma ResolvesKnown(values: seq<nat>, m: map<int, Citation>, k: nat, refs: seq<Citation>)
    requires k < |values| && Resolves(values, m, k, refs)
    requires values[k] in values[..k] || !Resolvable(m, values[k])
    ensures Resolves(values, m, k + 1, refs)
  {
    KeepsFirst(values, k);
    hide FirstAt;
    forall i | 0 <= i < k + 1 && Resolvable(m, values[i])
      ensures m[values[i]] in refs
    {
      if i == k {
        var j :| 0 <= j < k && values[j] == values[k];
      }
    }
  }

  lemma ResolvesNew(values: seq<nat>, m: map<int, Citation>, k: nat, refs: seq<Citation>)
    requires k < |values| && Resolves(values, m, k, refs) && WellIndexed(m)
    requires values[k] !in values[..k] && Resolvable(m, values[k])
    ensures Resolves(values, m, k + 1, refs + [m[values[k]]])
  {
    KeepsFirst(values, k);
    assert values[..k + 1][k] == values[k];
    LastIsNew(values, k);
    hide FirstAt, Resolvable;
  }

  lemma LastIsNew(values: seq<nat>, k: nat)
    requires k < |values| && values[k] !in values[..k]
    ensures values[k] in values[..k + 1] && FirstAt(values[..k + 1], values[k]) == k
  {
    assert values[..k + 1][k] == values[k];
    var i := FirstAt(values[..k + 1], values[k]);
    assert values[..k + 1][i] == values[i];
    assert forall j :: 0 <= j < k ==> values[j] in values[..k];
  }

  lemma KeepsFirst(values: seq<nat>, k: nat)
    requires k < |values|
    ensures forall x :: x in values[..k] ==>
        x in values[..k + 1] && FirstAt(values[..k + 1], x) == FirstAt(values[..k], x) < k
  {
    forall x | x in values[..k]
      ensures x in values[..k + 1] && FirstAt(values[..k + 1], x) == FirstAt(values[..k], x) < k
    {
      SameFirst(values, k, x);
    }
  }

  lemma SameFirst(values: seq<nat>, k: nat, x: nat)
    requires k < |values| && x in values[..k]
    ensures x in values[..k + 1] && FirstAt(values[..k + 1], x) == FirstAt(values[..k], x)
  {
    var i := FirstAt(values[..k], x);
    assert values[..k + 1][i] == x;
    assert forall j :: 0 <= j < i ==> values[..k + 1][j] == values[..k][j];
  }

  lemma NothingResolved(values: seq<nat>, m: map<int, Citation>)
    ensures Resolves(values, m, 0, [])
  {
  }

  method ResolveCitations(sentence: string, m: map<int, Citation>) returns (refs: seq<Citation>)
    requires WellIndexed(m)
    ensures Resolves(Markers(sentence), m, |Markers(sentence)|, refs)
    ensures refs != [] <==> exists n :: n <= 9223372036854775807 && n in m && Cites(sentence, n)
  {
    hide Markers, Resolves;
    var values := Markers(sentence);
    var seen: set<nat> := {};
    refs := [];
    NothingResolved(values, m);
    for k := 0 to |values|
      invariant forall x :: x in seen <==> x in values[..k] && x <= MAX_INT
      invariant Resolves(values, m, k, refs)
    {
      var n := values[k];
      ResolvesStep(values, m, k, refs);
      assert values[..k + 1] == values[..k] + [n];
      if n <= MAX_INT && n !in seen {
        seen := seen + {n};
        if n in m {
          refs := refs + [m[n]];
        }
      }
    }
    assert values[..|values|] == values;
    SomeResolved(sentence, m, refs);
  }

  lemma SomeResolved(sentence: string, m: map<int, Citation>, refs: seq<Citation>)
    requires Resolves(Markers(sentence), m, |Markers(sentence)|, refs)
    ensures refs != [] <==> exists n :: Resolvable(m, n) && Cites(sentence, n)
  {
    var values := Markers(sentence);
    if refs != [] {
      MarkersAreCited(sentence, refs[0].marker);
      assert Resolvable(m, refs[0].marker) && Cites(sentence, refs[0].marker);
    }
    if n: nat :| Resolvable(m, n) && Cites(sentence, n) {
      MarkersAreCited(sentence, n);
      var i := FirstAt(values, n);
      assert m[values[i]] in refs;
    }
  }

  ghost predicate IsCited(sentence: string, m: map<int, Citation>) {
    exists n :: Resolvable(m, n) && Cites(sentence, n)
  }

  /** The streamed payloads for the first `k` sentences: the cited ones, in order, each with its citations. */
  ghost predicate Streams(sentences: seq<string>, m: map<int, Citation>, k: nat, payloads: seq<Payload>)
    requires k <= |sentences|
  {
    && (forall p :: 0 <= p < |payloads| ==> IsPayload(sentences, m, k, payloads[p]))
    && (forall p, q :: 0 <= p < q < |payloads| ==> payloads[p].index < payloads[q].index)
    && (forall i :: 0 <= i < k && IsCited(sentences[i], m) ==> exists p :: 0 <= p < |payloads| && payloads[p].index == i)
  }

  ghost predicate IsPayload(sentences: seq<string>, m: map<int, Citation>, k: nat, p: Payload)
    requires k <= |sentences|
  {
    && p.index < k && p.text == sentences[p.index] && IsCited(p.text, m)
    && Resolves(Markers(p.text), m, |Markers(p.text)|, p.citations)
  }

  lemma StreamsStep(
    sentences: seq<string>, m: map<int, Citation>, k: nat, payloads: seq<Payload>, refs: seq<Citation>)
    requires k < |sentences| && Streams(sentences, m, k, payloads)
    requires Resolves(Markers(sentences[k]), m, |Markers(sentences[k])|, refs)
    requires refs != [] <==> IsCited(sentences[k], m)
    ensures
      Streams(sentences, m, k + 1, if refs == [] then payloads else payloads + [Payload(k, sentences[k], refs)])
  {
    hide Resolves, IsCited, Markers;
    if refs == [] {
      StreamsSkip(sentences, m, k, payloads);
    } else {
      StreamsAdd(sentences, m, k, payloads, refs);
    }
  }

  lemma StreamsSkip(sentences: seq<string>, m: map<int, Citation>, k: nat, payloads: seq<Payload>)
    requires k < |sentences| && Streams(sentences, m, k, payloads) && !IsCited(sentences[k], m)
    ensures Streams(sentences, m, k + 1, payloads)
  {
    hide Resolves, IsCited, Markers;
    assert forall p :: 0 <= p < |payloads| ==> IsPayload(sentences, m, k, payloads[p]);
  }

  lemma StreamsAdd(
    sentences: seq<string>, m: map<int, Citation>, k: nat, payloads: seq<Payload>, refs: seq<Citation>)
    requires k < |sentences| && Streams(sentences, m, k, payloads) && IsCited(sentences[k], m)
    requires Resolves(Markers(sentences[k]), m, |Markers(sentences[k])|, refs)
    ensures Streams(sentences, m, k + 1, payloads + [Payload(k, sentences[k], refs)])
  {
    hide Resolves, IsCited, Markers;
    var last := Payload(k, sentences[k], refs);
    var all := payloads + [last];
    assert IsPayload(sentences, m, k + 1, last);
    assert forall p :: 0 <= p < |payloads| ==> IsPayload(sentences, m, k, payloads[p]) && all[p] == payloads[p];
    assert all[|payloads|].index == k;
    forall i | 0 <= i < k && IsCited(sentences[i], m)
      ensures exists p :: 0 <= p < |all| && all[p].index == i
    {
      var p :| 0 <= p < |payloads| && payloads[p].index == i;
      assert all[p].index == i;
    }
  }

  /** The sentence loop of StreamSynthesize. The first `clear` sentences go through; at the next one, if there is one,
      the context is done or the write fails. */
  method StreamSynthesize(text: string, citations: seq<Citation>, clear: nat)
      returns (payloads: seq<Payload>)
    ensures Streams(Segments(Trim(text)), CitationMap(citations), Min(clear, |Segments(Trim(text))|), payloads)
  {
    hide Streams, Segments, Trim;
    var sentences := SegmentSentences(text);
    var citationMap := BuildCitationMap(citations);
    payloads := [];
    NothingStreamed(sentences, citationMap);
    for i := 0 to |sentences|
      invariant i <= clear && Streams(sentences, citationMap, i, payloads)
    {
      if i == clear {
        return;
      }
      var refs := ResolveCitations(sentences[i], citationMap);
      StreamsStep(sentences, citationMap, i, payloads, refs);
      if refs != [] {
        payloads := payloads + [Payload(i, sentences[i], refs)];
      }
    }
  }

  lemma NothingStreamed(sentences: seq<string>, m: map<int, Citation>)
    ensures Streams(sentences, m, 0, [])
  {
  }

  // ---------- markers as they are written ----------

  const DIGITS := "0123456789"

  /** A number in decimal notation. */
  function Decimal(n: nat): (d: string)
    ensures d != ""
  {
    if n < 10 then [DIGITS[n]] else Decimal(n / 10) + [DIGITS[n % 10]]
  }

  lemma DigitValue(n: nat)
    requires n < 10
    ensures IsDigit(DIGITS[n]) && DIGITS[n] as int - '0' as int == n
  {
    assert DIGITS == ['0', '1', '2', '3', '4', '5', '6', '7', '8', '9'];
  }

  lemma DigitCharacters(c: char)
    ensures IsDigit(c) <==> c in DIGITS
  {
    if IsDigit(c) {
      DigitValue(c as int - '0' as int);
    }
  }

  /** Decimal notation is read back. */
  lemma {:induction false} DecimalReadBack(n: nat)
    ensures forall i :: 0 <= i < |Decimal(n)| ==> IsDigit(Decimal(n)[i])
    ensures Number(Decimal(n)) == n
  {
    DigitValue(n % 10);
    if n < 10 {
      var d := Decimal(n);
      assert d[..0] == "" && Number("") == 0 && IsDigit(d[0]);
    } else {
      DecimalReadBack(n / 10);
      var d := Decimal(n);
      assert d[..|d| - 1] == Decimal(n / 10) && IsDigit(d[|d| - 1]);
    }
  }

  /** Zeros in front do not count. */
  lemma {:induction false} LeadingZero(d: string)
    requires forall i :: 0 <= i < |d| ==> IsDigit(d[i])
    ensures forall i :: 0 <= i < |"0" + d| ==> IsDigit(("0" + d)[i])
    ensures Number("0" + d) == Number(d)
  {
    var z := "0" + d;
    if d == "" {
      assert z == "0" && z[..0] == "" && Number("") == 0;
    } else {
      var n := |d| - 1;
      LeadingZero(d[..n]);
      assert z[..|z| - 1] == "0" + d[..n] && z[|z| - 1] == d[n];
    }
  }

  /** A sentence cites a number if and only if it contains, somewhere, digits with that value in square brackets. */
  lemma CitesIff(u: string, value: nat)
    ensures Cites(u, value) <==> exists p, d, q :: IsBracketed(u, p, d, q, value)
  {
    if i: nat, n: nat :| IsMarker(u, i, n) && MarkerValue(u, i, n) == value {
      var d := u[i + 1..i + n + 1];
      assert u == u[..i] + ("[" + d + "]") + u[i + n + 2..];
      forall j | 0 <= j < |d|
        ensures d[j] in DIGITS
      {
        assert IsDigit(u[i + 1 + j]);
        DigitCharacters(d[j]);
      }
      assert IsBracketed(u, u[..i], d, u[i + n + 2..], value);
    }
    if p, d, q :| IsBracketed(u, p, d, q, value) {
      BracketedIsMarker(u, p, d, q, value);
    }
  }

  predicate IsBracketed(u: string, p: string, d: string, q: string, value: nat) {
    && u == p + ("[" + d + "]") + q && d != "" && (forall j :: 0 <= j < |d| ==> IsDigit(d[j]) && d[j] in DIGITS)
    && Number(d) == value
  }

  lemma BracketedIsMarker(u: string, p: string, d: string, q: string, value: nat)
    requires IsBracketed(u, p, d, q, value)
    ensures Cites(u, value)
  {
    var i, n := |p|, |d|;
    assert u[i + 1..i + n + 1] == d && u[i] == '[' && u[i + n + 1] == ']';
    forall j | i < j <= i + n
      ensures IsDigit(u[j])
    {
      assert u[j] == d[j - i - 1];
    }
    assert IsMarker(u, i, n) && MarkerValue(u, i, n) == value;
  }

  /** Wherever "[n]" is written, n is cited. */
  lemma WrittenIsCited(p: string, n: nat, q: string)
    ensures Cites(p + ("[" + Decimal(n) + "]") + q, n)
  {
    DecimalReadBack(n);
    forall j | 0 <= j < |Decimal(n)|
      ensures Decimal(n)[j] in DIGITS
    {
      DigitCharacters(Decimal(n)[j]);
    }
    BracketedIsMarker(p + ("[" + Decimal(n) + "]") + q, p, Decimal(n), q, n);
  }
}
