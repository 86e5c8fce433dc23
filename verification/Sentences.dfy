/** Sentence segmentation and citation filtering of internal/streamsynth/streamsynth.go, over Unicode code points. */
module Sentences {
  import opened Prelude

  /** unicode.IsSpace */
  predicate IsSpace(c: char) {
    var n := c as int;
    || 0x09 <= n <= 0x0D || n == 0x20 || n == 0x85 || n == 0xA0 || n == 0x1680 || 0x2000 <= n <= 0x200A
    || n == 0x2028 || n == 0x2029 || n == 0x202F || n == 0x205F || n == 0x3000
  }

  /** \s of the regular expression, which knows fewer spaces than strings.TrimSpace. */
  predicate IsBlank(c: char) {
    var n := c as int;
    n == 0x09 || n == 0x0A || n == 0x0C || n == 0x0D || n == 0x20
  }

  predicate IsStop(c: char) {
    var n := c as int;
    c == '.' || c == '!' || c == '?' || n == 0x3002 || n == 0xFF01 || n == 0xFF1F
  }

  predicate AllSpace(s: string) {
    forall i :: 0 <= i < |s| ==> IsSpace(s[i])
  }

  function TrimLeft(s: string): string {
    if s != "" && IsSpace(s[0]) then TrimLeft(s[1..]) else s
  }

  function TrimRight(s: string): string {
    if s != "" && IsSpace(s[|s| - 1]) then TrimRight(s[..|s| - 1]) else s
  }

  /** strings.TrimSpace */
  function Trim(s: string): string {
    TrimRight(TrimLeft(s))
  }

  /** Neither end is a space. */
  predicate IsTrimmed(s: string) {
    s == "" || (!IsSpace(s[0]) && !IsSpace(s[|s| - 1]))
  }

  lemma SpacesJoined(a: string, b: string)
    ensures AllSpace(a + b) <==> AllSpace(a) && AllSpace(b)
    ensures |a| == 1 ==> (AllSpace(a) <==> IsSpace(a[0]))
    ensures |b| == 1 ==> (AllSpace(b) <==> IsSpace(b[0]))
  {
    hide IsSpace;
    if AllSpace(a + b) {
      forall i | 0 <= i < |a|
        ensures IsSpace(a[i])
      {
        assert (a + b)[i] == a[i];
      }
      forall i | 0 <= i < |b|
        ensures IsSpace(b[i])
      {
        assert (a + b)[|a| + i] == b[i];
      }
    }
  }

  lemma {:induction false} TrimLeftCut(s: string) returns (a: nat)
    ensures a <= |s| && TrimLeft(s) == s[a..] && AllSpace(s[..a])
    ensures a < |s| ==> !IsSpace(s[a])
  {
    if s != "" && IsSpace(s[0]) {
      var b := TrimLeftCut(s[1..]);
      a := b + 1;
      hide IsSpace, AllSpace;
      SpacesJoined([s[0]], s[1..][..b]);
      assert s[..a] == [s[0]] + s[1..][..b] && s[a..] == s[1..][b..];
    } else {
      a := 0;
    }
  }

  lemma {:induction false} TrimRightCut(s: string) returns (b: nat)
    ensures b <= |s| && TrimRight(s) == s[..b] && AllSpace(s[b..])
    ensures b > 0 ==> !IsSpace(s[b - 1])
  {
    if s != "" && IsSpace(s[|s| - 1]) {
      var init, last := s[..|s| - 1], s[|s| - 1];
      b := TrimRightCut(init);
      hide IsSpace, AllSpace;
      SpacesJoined(init[b..], [last]);
      assert s[b..] == init[b..] + [last] && s[..b] == init[..b];
    } else {
      b := |s|;
    }
  }

  /** Trimming cuts spaces off both ends and nothing else. */
  lemma TrimCut(s: string) returns (a: nat, b: nat)
    ensures a <= b <= |s| && Trim(s) == s[a..b]
    ensures forall i :: 0 <= i < a || b <= i < |s| ==> IsSpace(s[i])
    ensures a < b ==> !IsSpace(s[a]) && !IsSpace(s[b - 1])
  {
    a := TrimLeftCut(s);
    var c := TrimRightCut(s[a..]);
    b := a + c;
    forall i | 0 <= i < a || b <= i < |s|
      ensures IsSpace(s[i])
    {
      if i < a {
        assert s[i] == s[..a][i];
      } else {
        assert s[i] == s[a..][c..][i - b];
      }
    }
  }

  lemma TrimIsTrimmed(s: string)
    ensures IsTrimmed(Trim(s))
    ensures IsTrimmed(s) ==> Trim(s) == s
  {
    var a, b := TrimCut(s);
    assert s != "" ==> (a > 0 ==> IsSpace(s[0])) && (b < |s| ==> IsSpace(s[|s| - 1]));
  }

  /** A sentence ends here: punctuation in front of a blank or of the end of the text. */
  predicate IsBoundary(u: string, i: nat)
    requires i < |u|
  {
    IsStop(u[i]) && (i + 1 == |u| || IsBlank(u[i + 1]))
  }

  function FirstBoundary(u: string): (i: nat)
    ensures i <= |u|
    ensures i < |u| ==> IsBoundary(u, i)
    ensures forall j :: 0 <= j < i ==> !IsBoundary(u, j)
  {
    if u == "" then 0
    else if IsBoundary(u, 0) then 0
    else
      assert forall j :: 0 < j < |u| ==> IsBoundary(u, j) == IsBoundary(u[1..], j - 1);
      1 + FirstBoundary(u[1..])
  }

  function Blanks(u: string): (n: nat)
    ensures n <= |u|
    ensures forall j :: 0 <= j < n ==> IsBlank(u[j])
    ensures n < |u| ==> !IsBlank(u[n])
  {
    if u == "" || !IsBlank(u[0]) then 0 else 1 + Blanks(u[1..])
  }

  /** The end of the first match of the sentence expression, or None. */
  function FirstMatch(u: string): (end: Option<nat>)
    ensures end.Some? ==> 0 < end.value <= |u|
  {
    var i := FirstBoundary(u);
    if i == |u| then None else Some(i + 1 + Blanks(u[i + 1..]))
  }

  /** The ends of all matches from `pos` on, as FindAllStringIndex reports them. */
  function MatchEnds(t: string, pos: nat): seq<nat>
    requires pos <= |t|
    decreases |t| - pos
  {
    match FirstMatch(t[pos..])
    case None => []
    case Some(e) => [pos + e] + MatchEnds(t, pos + e)
  }

  /** The sentences of a text that is already trimmed. */
  function Segments(u: string): seq<string>
    decreases |u|
  {
    match FirstMatch(u)
    case None => if Trim(u) == "" then [] else [Trim(u)]
    case Some(e) => (if Trim(u[..e]) == "" then [] else [Trim(u[..e])]) + Segments(u[e..])
  }

  method SegmentSentences(text: string) returns (sentences: seq<string>)
    ensures sentences == Segments(Trim(text))
  {
    hide FirstMatch, Trim;
    var t := Trim(text);
    sentences := [];
    if t == "" {
      EmptyText();
      return;
    }
    var prev := 0;
    var matches := MatchEnds(t, 0);
    assert t[0..] == t;
    for k := 0 to |matches|
      invariant prev <= |t| && matches[k..] == MatchEnds(t, prev)
      invariant sentences + Segments(t[prev..]) == Segments(t)
    {
      var end := matches[k];
      ghost var u := t[prev..];
      assert matches[k..][0] == end && matches[k..][1..] == matches[k + 1..];
      assert t[prev..end] == u[..end - prev] && t[end..] == u[end - prev..];
      var sentence := Trim(t[prev..end]);
      if sentence != "" {
        sentences := sentences + [sentence];
      }
      prev := end;
    }
    if prev < |t| {
      var trailing := Trim(t[prev..]);
      if trailing != "" {
        sentences := sentences + [trailing];
      }
    } else {
      assert t[prev..] == "";
      EmptyText();
    }
  }

  lemma EmptyText()
    ensures Segments("") == []
  {
  }

  // ---------- nothing but spaces is lost ----------

  /** `text` is the segments in order, with only spaces before, between and after them; every segment but the last is
      followed directly by a space, tab, newline, form feed or carriage return. */
  ghost predicate IsSpacedOut(text: string, segments: seq<string>)
    decreases |segments|
  {
    if segments == [] then AllSpace(text)
    else exists a: nat, b: nat ::
      IsCut(text, a, b, segments) && IsSpacedOut(text[b..], segments[1..])
  }

  /** From a to b stands the first segment, spaces before it and, if more are to follow, a blank behind it. */
  predicate IsCut(text: string, a: nat, b: nat, segments: seq<string>)
    requires segments != []
  {
    && a <= b <= |text| && AllSpace(text[..a]) && text[a..b] == segments[0]
    && (|segments| > 1 ==> b < |text| && IsBreak(text[b]))
  }

  predicate IsBreak(c: char) {
    c in BLANKS
  }

  const BLANKS := " \t\n\r\U{C}"

  const STOPS := ".!?\U{3002}\U{FF01}\U{FF1F}"

  lemma Characters(c: char)
    ensures IsBlank(c) <==> c in BLANKS
    ensures IsStop(c) <==> c in STOPS
  {
  }

  lemma ShiftedCut(gap: string, text: string, a: nat, b: nat)
    requires a <= b <= |text|
    ensures
      var all, g := gap + text, |gap|;
      all[..g + a] == gap + text[..a] && all[g + a..g + b] == text[a..b] && all[g + b..] == text[b..]
  {
  }

  lemma SameCut(text: string, gap: string, a: nat, b: nat)
    requires a <= b <= |text|
    ensures
      var all := text + gap;
      all[..a] == text[..a] && all[a..b] == text[a..b] && all[b..] == text[b..] + gap
  {
  }

  lemma InnerCut(u: string, e: nat, a: nat, b: nat)
    requires a <= b <= e <= |u|
    ensures u[..e][a..b] == u[a..b] && u[..e][..a] == u[..a] && u[..e][b..] == u[b..e]
  {
  }

  /** Spaces in front do not matter. */
  lemma SpacedOutAfter(gap: string, text: string, segments: seq<string>)
    requires AllSpace(gap) && IsSpacedOut(text, segments)
    ensures IsSpacedOut(gap + text, segments)
  {
    hide IsBreak, AllSpace;
    if segments == [] {
      SpacesJoined(gap, text);
    } else {
      var a: nat, b: nat :|
        IsCut(text, a, b, segments) && IsSpacedOut(text[b..], segments[1..]);
      SpacesJoined(gap, text[..a]);
      var g := |gap|;
      ShiftedCut(gap, text, a, b);
      assert AllSpace((gap + text)[..g + a]);
      assert b < |text| ==> (gap + text)[g + b] == text[b];
      assert IsCut(gap + text, g + a, g + b, segments);
    }
  }

  lemma {:induction false} SegmentsSpacedOut(u: string)
    ensures IsSpacedOut(u, Segments(u))
    decreases |u|
  {
    hide IsSpacedOut, FirstMatch, Trim, AllSpace, IsBreak;
    match FirstMatch(u)
    case None =>
      assert u[|u|..] == "" && u[..|u|] == u;
      NothingSpacedOut();
      PieceSpacedOut(u, |u|, []);
      assert forall piece: seq<string> :: piece + [] == piece;
    case Some(e) =>
      SegmentsSpacedOut(u[e..]);
      if e == |u| {
        EmptyText();
        assert u[e..] == "";
      } else {
        BlankAfterMatch(u, e);
      }
      PieceSpacedOut(u, e, Segments(u[e..]));
  }

  lemma NothingSpacedOut()
    ensures IsSpacedOut("", [])
  {
  }

  /** A match that is not at the end of the text gives a sentence with a blank behind it. */
  lemma BlankAfterMatch(u: string, e: nat)
    requires FirstMatch(u) == Some(e) && e < |u|
    ensures exists a, b :: 0 <= a < b < e && Trim(u[..e]) == u[a..b] && IsBreak(u[b]) && AllSpace(u[..a]) && AllSpace(u[b..e])
  {
    var i, piece := FirstBoundary(u), u[..e];
    forall j | i < j < e
      ensures IsSpace(u[j])
    {
      assert u[j] == u[i + 1..][j - i - 1];
    }
    var stop := piece[i];
    assert stop == u[i] && !IsSpace(stop);
    var a, b := TrimCut(piece);
    assert b == i + 1 by {
      assert piece[b - 1] == u[b - 1];
      assert b <= i ==> IsSpace(stop);
    }
    assert i + 1 < |u| && IsBlank(u[i + 1]);
    assert u[i + 1..][0] == u[i + 1] && i + 1 < e;
    Characters(u[b]);
    forall j | 0 <= j < a
      ensures IsSpace(u[j])
    {
      assert piece[j] == u[j];
    }
    assert Trim(piece) == u[a..b] && AllSpace(u[..a]) && AllSpace(u[b..e]);
  }

  /** A trimmed piece in front of what is already accounted for. */
  lemma PieceSpacedOut(u: string, e: nat, rest: seq<string>)
    requires e <= |u| && IsSpacedOut(u[e..], rest)
    requires rest != [] ==>
        exists a, b :: (0 <= a < b < e
          && Trim(u[..e]) == u[a..b] && IsBreak(u[b]) && AllSpace(u[..a]) && AllSpace(u[b..e]))
    ensures IsSpacedOut(u, (if Trim(u[..e]) == "" then [] else [Trim(u[..e])]) + rest)
  {
    hide IsBreak, IsSpacedOut, AllSpace, Trim;
    if rest != [] {
      var a, b :| 0 <= a < b < e
        && Trim(u[..e]) == u[a..b] && IsBreak(u[b]) && AllSpace(u[..a]) && AllSpace(u[b..e]);
      SpacedOutAfter(u[b..e], u[e..], rest);
      assert u[b..e] + u[e..] == u[b..];
      CutInFront(u, a, b, rest);
    } else {
      LastPiece(u, e);
      assert (if Trim(u[..e]) == "" then [] else [Trim(u[..e])]) + rest == if Trim(u[..e]) == "" then [] else [Trim(u[..e])];
    }
  }

  lemma LastPiece(u: string, e: nat)
    requires e <= |u| && IsSpacedOut(u[e..], [])
    ensures IsSpacedOut(u, if Trim(u[..e]) == "" then [] else [Trim(u[..e])])
  {
    var piece := u[..e];
    var a, b := TrimCut(piece);
    assert u == piece + u[e..];
    assert u[..a] == piece[..a] && u[a..b] == piece[a..b] && piece[b..] + u[e..] == u[b..];
    assert AllSpace(piece[..a]) && AllSpace(piece[b..]);
    assert a == b ==> AllSpace(piece);
    hide IsBreak, IsSpacedOut, AllSpace, Trim;
    if a == b {
      SpacedOutAfter(piece, u[e..], []);
    } else {
      SpacedOutAfter(piece[b..], u[e..], []);
      CutInFront(u, a, b, []);
      assert [u[a..b]] + [] == [u[a..b]];
    }
  }

  lemma CutInFront(u: string, a: nat, b: nat, rest: seq<string>)
    requires a <= b <= |u| && AllSpace(u[..a]) && IsSpacedOut(u[b..], rest)
    requires rest != [] ==> b < |u| && IsBreak(u[b])
    ensures IsSpacedOut(u, [u[a..b]] + rest)
  {
    hide IsBreak;
    var all := [u[a..b]] + rest;
    assert all[1..] == rest && IsCut(u, a, b, all);
  }

  lemma TrimParts(text: string) returns (before: string, after: string)
    ensures text == before + (Trim(text) + after) && AllSpace(before) && AllSpace(after)
  {
    var a, b := TrimCut(text);
    before, after := text[..a], text[b..];
  }

  /** Segmenting loses nothing but whitespace. */
  lemma SegmentationLossless(text: string)
    ensures IsSpacedOut(text, Segments(Trim(text)))
    ensures forall s :: s in Segments(Trim(text)) ==> s != "" && IsTrimmed(s)
  {
    hide *;
    var t := Trim(text);
    var before, after := TrimParts(text);
    SegmentsSpacedOut(t);
    SpacedOutBefore(t, after, Segments(t));
    SpacedOutAfter(before, t + after, Segments(t));
    SegmentsTrimmed(t);
  }

  lemma {:induction false} SpacedOutBefore(text: string, gap: string, segments: seq<string>)
    requires AllSpace(gap) && IsSpacedOut(text, segments)
    ensures IsSpacedOut(text + gap, segments)
    decreases |segments|
  {
    hide AllSpace, IsBreak;
    SpacesJoined(text, gap);
    if segments != [] {
      var a: nat, b: nat :|
        IsCut(text, a, b, segments) && IsSpacedOut(text[b..], segments[1..]);
      SpacedOutBefore(text[b..], gap, segments[1..]);
      SameCut(text, gap, a, b);
      assert b < |text| ==> (text + gap)[b] == text[b];
      assert IsCut(text + gap, a, b, segments);
    }
  }

  lemma {:induction false} SegmentsTrimmed(u: string)
    ensures forall s :: s in Segments(u) ==> s != "" && IsTrimmed(s)
    decreases |u|
  {
    TrimIsTrimmed(u);
    match FirstMatch(u)
    case None =>
    case Some(e) =>
      TrimIsTrimmed(u[..e]);
      SegmentsTrimmed(u[e..]);
  }

  // ---------- segmenting again ----------

  /** No sentence ends strictly inside `s`. */
  predicate IsUnbroken(s: string) {
    forall i :: 0 <= i < |s| - 1 ==> !IsBoundary(s, i)
  }

  /** Sentences that stand on their own; all but the last end in punctuation. */
  predicate AreSentences(segments: seq<string>) {
    && (forall k :: 0 <= k < |segments| ==>
          segments[k] != "" && IsTrimmed(segments[k]) && IsUnbroken(segments[k]))
    && (forall k :: 0 <= k < |segments| - 1 ==> IsStop(segments[k][|segments[k]| - 1]))
  }

  function Joined(segments: seq<string>): string {
    if segments == [] then ""
    else if |segments| == 1 then segments[0]
    else segments[0] + " " + Joined(segments[1..])
  }

  lemma OneMoreSentence(first: string, rest: seq<string>)
    requires AreSentences(rest) && first != "" && IsTrimmed(first) && IsUnbroken(first)
    requires rest == [] || IsStop(first[|first| - 1])
    ensures AreSentences([first] + rest)
  {
    var all := [first] + rest;
    forall k | 0 <= k < |all|
      ensures all[k] != "" && IsTrimmed(all[k]) && IsUnbroken(all[k])
      ensures k < |all| - 1 ==> IsStop(all[k][|all[k]| - 1])
    {
      if k > 0 {
        assert all[k] == rest[k - 1];
      }
    }
  }

  lemma {:induction false} SegmentsAreSentences(u: string)
    requires u == "" || !IsSpace(u[|u| - 1])
    ensures AreSentences(Segments(u))
    ensures u != "" ==> Segments(u) != []
    decreases |u|
  {
    hide AreSentences, IsTrimmed, IsUnbroken, FirstBoundary, Trim;
    NoSentences();
    match FirstMatch(u)
    case None =>
      if u != "" {
        LastIsSentence(u);
        OneMoreSentence(Trim(u), []);
        assert [Trim(u)] + [] == [Trim(u)];
      }
      EmptyTrim();
    case Some(e) =>
      SegmentsAreSentences(u[e..]);
      MatchIsSentence(u, e);
      OneMoreSentence(Trim(u[..e]), Segments(u[e..]));
  }

  lemma EmptyTrim()
    ensures Trim("") == ""
  {
  }

  lemma NoSentences()
    ensures AreSentences([])
  {
  }

  /** A space-free position survives trimming. */
  lemma KeepsNonSpace(s: string, i: nat)
    requires i < |s| && !IsSpace(s[i])
    ensures Trim(s) != ""
  {
    var a, b := TrimCut(s);
  }

  lemma LastIsSentence(u: string)
    requires u != "" && !IsSpace(u[|u| - 1]) && FirstMatch(u) == None
    ensures Trim(u) != "" && IsTrimmed(Trim(u)) && IsUnbroken(Trim(u))
  {
    KeepsNonSpace(u, |u| - 1);
    TrimIsTrimmed(u);
    var a, b := TrimCut(u);
    forall j | 0 <= j < |Trim(u)| - 1
      ensures !IsBoundary(Trim(u), j)
    {
      InnerBoundary(u, a, b, j);
    }
  }

  /** Inside a cut, boundaries are boundaries of the whole. */
  lemma InnerBoundary(u: string, a: nat, b: nat, j: nat)
    requires a <= b <= |u| && j + 1 < b - a
    ensures IsBoundary(u[a..b], j) <==> IsBoundary(u, a + j)
  {
    assert u[a..b][j] == u[a + j] && u[a..b][j + 1] == u[a + j + 1];
  }

  /** A match gives one sentence, which ends at its punctuation: only blanks follow it. */
  lemma MatchIsSentence(u: string, e: nat)
    requires FirstMatch(u) == Some(e)
    ensures Trim(u[..e]) != "" && IsTrimmed(Trim(u[..e])) && IsUnbroken(Trim(u[..e]))
    ensures IsStop(Trim(u[..e])[|Trim(u[..e])| - 1])
  {
    var i, piece := FirstBoundary(u), u[..e];
    forall j | i < j < e
      ensures IsSpace(u[j])
    {
      assert u[j] == u[i + 1..][j - i - 1];
    }
    var stop := piece[i];
    assert stop == u[i] && !IsSpace(stop);
    KeepsNonSpace(piece, i);
    TrimIsTrimmed(piece);
    var a, b := TrimCut(piece);
    assert b == i + 1 by {
      assert piece[b - 1] == u[b - 1];
      assert b <= i ==> IsSpace(stop);
    }
    InnerCut(u, e, a, b);
    assert Trim(piece) == u[a..b];
    forall j | 0 <= j < |Trim(piece)| - 1
      ensures !IsBoundary(Trim(piece), j)
    {
      InnerBoundary(u, a, b, j);
    }
  }

  lemma {:induction false} JoinedEnds(segments: seq<string>)
    requires AreSentences(segments) && segments != []
    ensures Joined(segments) != "" && IsTrimmed(Joined(segments))
  {
    if |segments| > 1 {
      JoinedEnds(segments[1..]);
    }
  }

  /** Sentences joined by single spaces are found again, one by one. */
  lemma {:induction false} SegmentsOfJoined(segments: seq<string>)
    requires AreSentences(segments)
    ensures Segments(Joined(segments)) == segments
    decreases |segments|
  {
    hide Segments, IsTrimmed, IsUnbroken, IsStop;
    if segments == [] {
      EmptyText();
    } else if |segments| == 1 {
      SingleSegment(segments[0]);
    } else {
      var s, rest := segments[0], Joined(segments[1..]);
      JoinedEnds(segments[1..]);
      SegmentsOfJoined(segments[1..]);
      FirstOfJoined(s, rest);
      assert segments == [s] + segments[1..];
    }
  }

  lemma SingleSegment(s: string)
    requires s != "" && IsTrimmed(s) && IsUnbroken(s)
    ensures Segments(s) == [s]
  {
    TrimIsTrimmed(s);
    var i := FirstBoundary(s);
    if i < |s| {
      assert i == |s| - 1;
      assert s[i + 1..] == "";
      assert s[..|s|] == s && s[|s|..] == "";
      EmptyText();
    }
  }

  lemma MatchOfJoined(s: string, rest: string)
    requires s != "" && IsTrimmed(s) && IsUnbroken(s) && IsStop(s[|s| - 1])
    requires rest != "" && IsTrimmed(rest)
    ensures FirstMatch(s + " " + rest) == Some(|s| + 1)
  {
    var u, n := s + " " + rest, |s|;
    assert u[n] == ' ' && u[n - 1] == s[n - 1];
    assert IsBoundary(u, n - 1);
    var i := FirstBoundary(u);
    assert s == u[0..n];
    if i < n - 1 {
      InnerBoundary(u, 0, n, i);
    }
    assert i == n - 1;
    var tail := u[n..];
    assert tail == " " + rest;
    assert tail[0] == ' ' && tail[1] == rest[0] && !IsBlank(rest[0]);
    assert Blanks(tail) == 1;
  }

  lemma FirstOfJoined(s: string, rest: string)
    requires s != "" && IsTrimmed(s) && IsUnbroken(s) && IsStop(s[|s| - 1])
    requires rest != "" && IsTrimmed(rest)
    ensures Segments(s + " " + rest) == [s] + Segments(rest)
  {
    var u, n := s + " " + rest, |s|;
    MatchOfJoined(s, rest);
    TrimSpaceAfter(s);
    hide FirstMatch, Trim, IsTrimmed, IsUnbroken;
    assert u[..n + 1] == s + " " && u[n + 1..] == rest;
  }

  lemma TrimSpaceAfter(s: string)
    requires s != "" && IsTrimmed(s)
    ensures Trim(s + " ") == s
  {
    var t := s + " ";
    var a, b := TrimCut(t);
    assert t[0] == s[0] && t[|s| - 1] == s[|s| - 1] && t[|s|] == ' ';
    assert a == 0 && b == |s|;
  }

  /** Joining the sentences with single spaces and segmenting again gives the same sentences. */
  lemma SegmentationStable(text: string)
    ensures
      var segments := Segments(Trim(text));
      Segments(Trim(Joined(segments))) == segments
  {
    var segments := Segments(Trim(text));
    TrimIsTrimmed(text);
    SegmentsAreSentences(Trim(text));
    if segments != [] {
      JoinedEnds(segments);
    }
    TrimIsTrimmed(Joined(segments));
    SegmentsOfJoined(segments);
  }

  /** Sentences end where the punctuation is: every one but the last in one of .!? and their full-width forms, and in
      no sentence does such a character stand in front of a blank. */
  lemma SegmentsEndAtStops(text: string)
    ensures
      var segments := Segments(Trim(text));
      && (forall k :: 0 <= k < |segments| - 1 ==> segments[k] != "" && segments[k][|segments[k]| - 1] in STOPS)
      && (forall k, i :: 0 <= k < |segments| && 0 <= i < |segments[k]| - 1 ==>
            !(segments[k][i] in STOPS && segments[k][i + 1] in BLANKS))
  {
    var segments := Segments(Trim(text));
    TrimIsTrimmed(text);
    SegmentsAreSentences(Trim(text));
    hide Segments, Trim;
    forall k | 0 <= k < |segments| - 1
      ensures segments[k] != "" && segments[k][|segments[k]| - 1] in STOPS
    {
      Characters(segments[k][|segments[k]| - 1]);
    }
    forall k, i | 0 <= k < |segments| && 0 <= i < |segments[k]| - 1
      ensures !(segments[k][i] in STOPS && segments[k][i + 1] in BLANKS)
    {
      assert IsUnbroken(segments[k]) && !IsBoundary(segments[k], i);
      Characters(segments[k][i]);
      Characters(segments[k][i + 1]);
    }
  }

  /** What is trimmed off: the white space of Unicode. */
  lemma SpaceCharacters(c: char)
    ensures IsSpace(c)
       <==> c in " \t\n\U{B}\U{C}\r\U{85}\U{A0}\U{1680}\U{2000}\U{2001}\U{2002}\U{2003}\U{2004}\U{2005}\U{2006}"
              + "\U{2007}\U{2008}\U{2009}\U{200A}\U{2028}\U{2029}\U{202F}\U{205F}\U{3000}"
  {
  }
}
