/** The parser of internal/synthesis/stream.go on arbitrary streams, not only on what the writer sends, against a reading
    of section 9.2.6 of the WHATWG HTML Standard. */
module SseRules {
  import opened Sse

  // ---------- a line ----------

  /** The line is the field's name alone, or the name, a colon, and the value after at most one space. */
  predicate IsField(line: string, name: string, value: string) {
    && ':' !in name
    && (|| (line == name && value == "")
        || line == name + ": " + value
        || (line == name + ":" + value && (value == "" || value[0] != ' ')))
  }

  lemma {:induction false} PrefixAt(s: string, c: char, n: nat)
    requires n < |s| && s[n] == c && c !in s[..n]
    ensures Prefix(s, c) == n
  {
    if n > 0 {
      assert s[0] in s[..n];
      assert s[1..][..n - 1] == s[..n][1..];
      PrefixAt(s[1..], c, n - 1);
    }
  }

  lemma {:induction false} PrefixNone(s: string, c: char)
    requires c !in s
    ensures Prefix(s, c) == |s|
  {
    if s != [] {
      PrefixNone(s[1..], c);
    }
  }

  /** A line splits into a field in exactly one way, and that is how it is parsed. */
  lemma ParseFieldIff(line: string, name: string, value: string)
    ensures ParseField(line) == (name, value) <==> IsField(line, name, value)
  {
    var n := Prefix(line, ':');
    if n < |line| {
      assert line == line[..n] + ":" + line[n + 1..];
      if n + 1 < |line| && line[n + 1] == ' ' {
        assert line == line[..n] + ": " + line[n + 2..];
      }
    } else {
      assert line[..n] == line;
    }
    if IsField(line, name, value) {
      FieldParses(line, name, value);
    }
  }

  lemma FieldParses(line: string, name: string, value: string)
    requires IsField(line, name, value)
    ensures ParseField(line) == (name, value)
  {
    if line == name && value == "" {
      PrefixNone(line, ':');
    } else {
      assert line[..|name|] == name && line[|name|] == ':';
      PrefixAt(line, ':', |name|);
      if line == name + ": " + value {
        assert line[|name| + 1] == ' ' && line[|name| + 2..] == value;
      } else {
        assert line[|name| + 1..] == value;
        assert value != "" ==> line[|name| + 1] == value[0];
      }
    }
  }

  /** The scanner gives up exactly when the next 1048576 characters hold no newline. */
  lemma TooLongIff(input: string)
    ensures ScanLine(input).TooLong? <==> |input| >= 1048576 && '\n' !in input[..1048576]
  {
    var n := Prefix(input, '\n');
    if n < 1048576 <= |input| {
      assert input[..1048576][n] == '\n';
    }
    assert input[..n][..if n >= 1048576 then 1048576 else 0] == input[..if n >= 1048576 then 1048576 else 0];
  }

  // ---------- a block of lines ----------

  function Name(line: string): string {
    ParseField(line).0
  }

  function Value(line: string): string {
    ParseField(line).1
  }

  predicate IsComment(line: string) {
    line != "" && line[0] == ':'
  }

  /** The value of the last line with this field. */
  function LastValue(lines: seq<string>, name: string): string {
    if lines == [] then ""
    else
      var l := lines[|lines| - 1];
      if !IsComment(l) && Name(l) == name then Value(l) else LastValue(lines[..|lines| - 1], name)
  }

  function DataValues(lines: seq<string>): seq<string> {
    if lines == [] then []
    else
      var l := lines[|lines| - 1];
      DataValues(lines[..|lines| - 1]) + if !IsComment(l) && Name(l) == "data" then [Value(l)] else []
  }

  /** Without the empty values in front. */
  function FromFirstText(values: seq<string>): seq<string> {
    if values != [] && values[0] == "" then FromFirstText(values[1..]) else values
  }

  /** The values, one per line. */
  function Lines(values: seq<string>): string {
    if values == [] then ""
    else if |values| == 1 then values[0]
    else Lines(values[..|values| - 1]) + "\n" + values[|values| - 1]
  }

  /** The event a block stands for: its last type and id, and all its data lines from the first that is not empty. */
  function EventOf(lines: seq<string>): SSEEvent {
    SSEEvent(LastValue(lines, "event"), Lines(FromFirstText(DataValues(lines))), LastValue(lines, "id"))
  }

  predicate IsPlain(line: string) {
    line != "" && '\n' !in line && line[|line| - 1] != '\r' && |line| < 1048576
  }

  function Block(lines: seq<string>): string {
    if lines == [] then "" else lines[0] + "\n" + Block(lines[1..])
  }

  predicate HasField(lines: seq<string>) {
    exists k :: 0 <= k < |lines| && !IsComment(lines[k])
  }

  // ---------- the parser's fold over a block ----------

  function Taken(ev: SSEEvent, line: string): SSEEvent {
    if IsComment(line) then ev else Apply(ev, line)
  }

  function Folded(ev: SSEEvent, lines: seq<string>): SSEEvent
    decreases |lines|
  {
    if lines == [] then ev else Folded(Taken(ev, lines[0]), lines[1..])
  }

  lemma {:induction false} FoldedLast(ev: SSEEvent, lines: seq<string>, line: string)
    ensures Folded(ev, lines + [line]) == Taken(Folded(ev, lines), line)
    decreases |lines|
  {
    if lines == [] {
      assert ([] + [line])[1..] == [];
    } else {
      assert (lines + [line])[1..] == lines[1..] + [line];
      FoldedLast(Taken(ev, lines[0]), lines[1..], line);
    }
  }

  lemma {:induction false} FromFirstTextLast(values: seq<string>, v: string)
    ensures FromFirstText(values + [v])
         == if FromFirstText(values) == [] && v == "" then [] else FromFirstText(values) + [v]
    ensures FromFirstText(values) != [] ==> FromFirstText(values)[0] != ""
  {
    if values == [] {
      assert [] + [v] == [v] && [v][1..] == [];
    } else if values[0] == "" {
      assert (values + [v])[1..] == values[1..] + [v];
      FromFirstTextLast(values[1..], v);
    }
  }

  lemma {:induction false} LinesOfText(values: seq<string>)
    requires values != [] && values[0] != ""
    ensures Lines(values) != ""
  {
  }

  lemma DataLast(values: seq<string>, v: string)
    ensures
      var text := Lines(FromFirstText(values));
      Lines(FromFirstText(values + [v])) == if text != "" then text + "\n" + v else v
  {
    FromFirstTextLast(values, v);
    var kept := FromFirstText(values);
    if kept != [] {
      LinesOfText(kept);
      assert (kept + [v])[..|kept|] == kept;
    }
  }

  lemma {:induction false} FoldIsEvent(lines: seq<string>)
    ensures Folded(EMPTY, lines) == EventOf(lines)
  {
    if lines == [] {
      assert FromFirstText([]) == [] && Lines([]) == "";
    } else {
      var init, l := lines[..|lines| - 1], lines[|lines| - 1];
      assert lines == init + [l];
      FoldIsEvent(init);
      FoldedLast(EMPTY, init, l);
      EventStep(init, l);
    }
  }

  lemma EventStep(lines: seq<string>, l: string)
    ensures EventOf(lines + [l]) == Taken(EventOf(lines), l)
  {
    var all := lines + [l];
    assert all[..|all| - 1] == lines && all[|all| - 1] == l;
    DataLast(DataValues(lines), Value(l));
    hide ParseField, Lines, FromFirstText;
    assert Apply(EventOf(lines), l) == ApplyNamed(EventOf(lines), Name(l), Value(l));
    assert Name(l) != "data" ==> DataValues(all) == DataValues(lines) + [] == DataValues(lines);
  }

  function ApplyNamed(ev: SSEEvent, name: string, value: string): SSEEvent {
    if name == "event" then ev.(event := value)
    else if name == "data" then ev.(data := if ev.data != "" then ev.data + "\n" + value else value)
    else if name == "id" then ev.(id := value)
    else ev
  }

  lemma {:induction false} BlockRead(lines: seq<string>, tail: string, ev: SSEEvent, hasContent: bool)
    requires forall k :: 0 <= k < |lines| ==> IsPlain(lines[k])
    ensures NextEvent(Block(lines) + tail, ev, hasContent)
         == NextEvent(tail, Folded(ev, lines), hasContent || HasField(lines))
    decreases |lines|
  {
    if lines == [] {
      assert Block(lines) + tail == tail;
    } else {
      var l, rest := lines[0], Block(lines[1..]) + tail;
      assert Block(lines) + tail == l + "\n" + rest;
      LineRead(l, rest);
      BlockRead(lines[1..], tail, Taken(ev, l), hasContent || !IsComment(l));
      FieldInRest(lines);
      hide Folded, Block, ScanLine, Apply;
      assert Folded(ev, lines) == Folded(Taken(ev, l), lines[1..]) by { FoldedFirst(ev, lines); }
    }
  }

  lemma FoldedFirst(ev: SSEEvent, lines: seq<string>)
    requires lines != []
    ensures Folded(ev, lines) == Folded(Taken(ev, lines[0]), lines[1..])
  {
  }

  lemma FieldInRest(lines: seq<string>)
    requires lines != []
    ensures HasField(lines) <==> !IsComment(lines[0]) || HasField(lines[1..])
  {
    if k :| 0 <= k < |lines| && !IsComment(lines[k]) {
      assert k > 0 ==> !IsComment(lines[1..][k - 1]);
    }
    if k :| 0 <= k < |lines[1..]| && !IsComment(lines[1..][k]) {
      assert !IsComment(lines[k + 1]);
    }
  }

  lemma LineRead(line: string, rest: string)
    requires IsPlain(line)
    ensures ScanLine(line + "\n" + rest) == Line(line, rest)
  {
    var input := line + "\n" + rest;
    assert input[..|line|] == line && input[|line|] == '\n' && input[|line| + 1..] == rest;
    PrefixAt(input, '\n', |line|);
  }

  lemma {:induction false} CommentsOnly(ev: SSEEvent, lines: seq<string>)
    requires !HasField(lines)
    ensures Folded(ev, lines) == ev
    decreases |lines|
  {
    if lines != [] {
      FieldInRest(lines);
      CommentsOnly(ev, lines[1..]);
    }
  }

  /** A block that ends in an empty line is one event, if it has any field at all; the parser goes on behind it. */
  lemma BlockIsEvent(lines: seq<string>, rest: string)
    requires forall k :: 0 <= k < |lines| ==> IsPlain(lines[k])
    ensures NextEvent(Block(lines) + "\n" + rest, EMPTY, false)
         == if HasField(lines) then Got(EventOf(lines), rest) else NextEvent(rest, EMPTY, false)
  {
    var tail := "\n" + rest;
    assert Block(lines) + "\n" + rest == Block(lines) + tail;
    BlockRead(lines, tail, EMPTY, false);
    FoldIsEvent(lines);
    PrefixAt(tail, '\n', 0);
    assert tail[..0] == "" && tail[1..] == rest;
    if !HasField(lines) {
      CommentsOnly(EMPTY, lines);
    }
    hide Folded, EventOf, HasField, Block;
  }

  /** So is a last block that the stream breaks off after; without a field there is nothing but the end. */
  lemma LastBlockIsEvent(lines: seq<string>)
    requires forall k :: 0 <= k < |lines| ==> IsPlain(lines[k])
    ensures NextEvent(Block(lines), EMPTY, false) == if HasField(lines) then Got(EventOf(lines), "") else EOF
  {
    assert Block(lines) + "" == Block(lines);
    BlockRead(lines, "", EMPTY, false);
    FoldIsEvent(lines);
    hide Folded, EventOf, HasField, Block;
  }

  /** A carriage return before the newline is not part of the line. */
  lemma CarriageReturnDropped(line: string, rest: string)
    requires '\n' !in line && |line| + 1 < 1048576
    ensures ScanLine(line + "\r\n" + rest) == Line(line, rest)
  {
    var input, full := line + "\r\n" + rest, line + "\r";
    assert input == full + "\n" + rest;
    assert input[..|full|] == full && input[|full|] == '\n' && input[|full| + 1..] == rest;
    PrefixAt(input, '\n', |full|);
    assert full[..|full| - 1] == line;
  }
}
