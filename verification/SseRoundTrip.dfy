/** Writing and parsing undo each other: any interleaving of whole events and comments reads back as the events. */
module SseRoundTrip {
  import opened Sse

  // ---------- scanning what was written ----------

  lemma {:induction false} PrefixOf(s: string, c: char, rest: string)
    requires c !in s
    ensures Prefix(s + [c] + rest, c) == |s|
  {
    if s != [] {
      assert (s + [c] + rest)[1..] == s[1..] + [c] + rest;
      PrefixOf(s[1..], c, rest);
    }
  }

  lemma ScanWritten(line: string, rest: string)
    requires '\n' !in line
    ensures ScanLine(line + "\n" + rest)
         == if |line| >= MAX_TOKEN then TooLong else Line(DropCR(line), rest)
  {
    var input := line + "\n" + rest;
    PrefixOf(line, '\n', rest);
    assert input[..|line|] == line && input[|line| + 1..] == rest;
  }

  lemma FieldWritten(field: string, value: string)
    requires ':' !in field
    ensures ParseField(field + ": " + value) == (field, value)
  {
    var line := field + ": " + value;
    PrefixOf(field, ':', " " + value);
    assert line == field + [':'] + (" " + value);
    assert line[..|field|] == field && line[|field| + 2..] == value;
  }

  lemma DropCRWritten(field: string, value: string)
    ensures DropCR(field + ": " + value) == field + ": " + DropCR(value)
  {
    var line := field + ": " + value;
    if value == "" {
      assert line[|line| - 1] == ' ';
    } else {
      assert line[|line| - 1] == value[|value| - 1];
      assert line[..|line| - 1] == field + ": " + value[..|value| - 1];
    }
  }

  // ---------- what the parser makes of one event ----------

  /** The parser's data buffer after these data lines: a separator goes in only once something is in the buffer. */
  function Gather(acc: string, lines: seq<string>): string
    decreases |lines|
  {
    if lines == [] then acc
    else Gather(if acc != "" then acc + "\n" + DropCR(lines[0]) else DropCR(lines[0]), lines[1..])
  }

  function Received(eventType: string, data: string): SSEEvent {
    SSEEvent(DropCR(eventType), Gather("", Split(data)), "")
  }

  predicate FitsLines(lines: seq<string>) {
    forall k :: 0 <= k < |lines| ==> |"data: "| + |lines[k]| < MAX_TOKEN
  }

  predicate Fits(m: Message) {
    match m
    case Event(eventType, data) => |"event: "| + |eventType| < MAX_TOKEN && FitsLines(Split(data))
    case Comment(text) => |": "| + |text| < MAX_TOKEN
  }

  predicate OneLineHead(m: Message) {
    match m
    case Event(eventType, _) => '\n' !in eventType
    case Comment(text) => '\n' !in text
  }

  /** A written field line, as the parser sees it. */
  lemma FieldLine(field: string, value: string, rest: string, ev: SSEEvent, hasContent: bool)
    requires '\n' !in field && ':' !in field && '\n' !in value && field != ""
    ensures NextEvent(field + ": " + value + "\n" + rest, ev, hasContent)
         == if |field| + 2 + |value| >= MAX_TOKEN then ScanError
            else NextEvent(rest, Apply(ev, field + ": " + DropCR(value)), true)
    ensures ParseField(field + ": " + DropCR(value)) == (field, DropCR(value))
  {
    var line := field + ": " + value;
    ScanWritten(line, rest);
    DropCRWritten(field, value);
    FieldWritten(field, DropCR(value));
    assert line + "\n" + rest == field + ": " + value + "\n" + rest;
    assert (field + ": " + DropCR(value))[0] == field[0];
    assert field[0] in field;
  }

  lemma {:induction false} ReadDataLines(lines: seq<string>, rest: string, ev: SSEEvent)
    requires forall l :: l in lines ==> '\n' !in l
    ensures NextEvent(DataLines(lines) + "\n" + rest, ev, true)
         == if FitsLines(lines) then Got(ev.(data := Gather(ev.data, lines)), rest) else ScanError
  {
    if lines == [] {
      ScanWritten("", rest);
      assert DataLines([]) + "\n" + rest == "" + "\n" + rest;
    } else {
      var l := lines[0];
      assert l in lines;
      var tail := DataLines(lines[1..]) + "\n" + rest;
      assert DataLines(lines) + "\n" + rest == "data" + ": " + l + "\n" + tail;
      FieldLine("data", l, tail, ev, true);
      ReadDataLines(lines[1..], rest, Apply(ev, "data" + ": " + DropCR(l)));
      assert FitsLines(lines) <==> |"data: "| + |l| < MAX_TOKEN && FitsLines(lines[1..]) by {
        assert forall k :: 0 < k < |lines| ==> lines[k] == lines[1..][k - 1];
      }
    }
  }

  lemma ReadEvent(eventType: string, data: string, rest: string)
    requires '\n' !in eventType
    ensures NextEvent(EventWire(eventType, data) + rest, EMPTY, false)
         == if Fits(Event(eventType, data)) then Got(Received(eventType, data), rest) else ScanError
  {
    var tail := DataLines(Split(data)) + "\n" + rest;
    assert EventWire(eventType, data) + rest == "event" + ": " + eventType + "\n" + tail;
    FieldLine("event", eventType, tail, EMPTY, false);
    ReadDataLines(Split(data), rest, Apply(EMPTY, "event" + ": " + DropCR(eventType)));
  }

  lemma ReadComment(text: string, rest: string)
    requires '\n' !in text
    ensures NextEvent(CommentWire(text) + rest, EMPTY, false)
         == if Fits(Comment(text)) then NextEvent(rest, EMPTY, false) else ScanError
  {
    var line := ": " + text;
    assert CommentWire(text) + rest == line + "\n" + ("\n" + rest);
    ScanWritten(line, "\n" + rest);
    assert "\n" + rest == "" + "\n" + rest;
    ScanWritten("", rest);
    assert DropCR(line)[0] == ':';
  }

  // ---------- whole streams ----------

  /** What arrives: every event up to the first line that does not fit the scanner. */
  function Delivered(messages: seq<Message>): Transcript {
    if messages == [] then Transcript([], true)
    else if !Fits(messages[0]) then Transcript([], false)
    else
      var tail := Delivered(messages[1..]);
      match messages[0]
      case Event(eventType, data) => Transcript([Received(eventType, data)] + tail.events, tail.clean)
      case Comment(_) => tail
  }

  /** Reading back any interleaving of whole writes, for arbitrary data. */
  lemma {:induction false} ReadBack(messages: seq<Message>)
    requires forall m :: m in messages ==> OneLineHead(m)
    ensures ReadAll(Wire(messages)) == Delivered(messages)
  {
    if messages != [] {
      var m, rest := messages[0], Wire(messages[1..]);
      assert m in messages;
      ReadBack(messages[1..]);
      assert Wire(messages) == MessageWire(m) + rest;
      match m
      case Event(eventType, data) => ReadEvent(eventType, data, rest);
      case Comment(text) => ReadComment(text, rest);
    }
  }

  /** The events that were written, in order. */
  function Sent(messages: seq<Message>): seq<SSEEvent> {
    if messages == [] then []
    else
      match messages[0]
      case Event(eventType, data) => [SSEEvent(eventType, data, "")] + Sent(messages[1..])
      case Comment(_) => Sent(messages[1..])
  }

  // ---------- which data survives ----------

  predicate EndsInCR(line: string) {
    line != "" && line[|line| - 1] == '\r'
  }

  function Join(lines: seq<string>): string
    requires lines != []
  {
    if |lines| == 1 then lines[0] else lines[0] + "\n" + Join(lines[1..])
  }

  lemma SplitFirst(s: string)
    ensures
      var n := Prefix(s, '\n');
      && (n == |s| ==> Split(s) == [s])
      && (n < |s| ==> s[n] == '\n' && Split(s) == [s[..n]] + Split(s[n + 1..]))
  {
  }

  lemma JoinFront(line: string, lines: seq<string>)
    requires lines != []
    ensures Join([line] + lines) == line + "\n" + Join(lines)
  {
    assert ([line] + lines)[1..] == lines;
  }

  lemma {:induction false} JoinSplit(s: string)
    ensures Join(Split(s)) == s
    decreases |s|
  {
    hide Split, Prefix;
    var n := Prefix(s, '\n');
    SplitFirst(s);
    if n < |s| {
      var rest := s[n + 1..];
      JoinSplit(rest);
      assert s == s[..n] + "\n" + rest;
      JoinFront(s[..n], Split(rest));
      hide *;
    }
  }

  lemma {:induction false} GatherNonempty(acc: string, lines: seq<string>)
    requires acc != "" && lines != []
    ensures |Gather(acc, lines)| <= |acc| + 1 + |Join(lines)|
    ensures Gather(acc, lines) == acc + "\n" + Join(lines)
       <==> forall k :: 0 <= k < |lines| ==> !EndsInCR(lines[k])
    ensures (exists k :: 0 <= k < |lines| && EndsInCR(lines[k])) ==> |Gather(acc, lines)| < |acc| + 1 + |Join(lines)|
    decreases |lines|
  {
    var l, next := lines[0], acc + "\n" + DropCR(lines[0]);
    if |lines| == 1 {
      assert lines[1..] == [];
      assert Gather(acc, lines) == next;
      assert |next| < |acc + "\n" + l| || next == acc + "\n" + l;
    } else {
      GatherNonempty(next, lines[1..]);
      assert forall k :: 0 < k < |lines| ==> lines[k] == lines[1..][k - 1];
      assert acc + "\n" + Join(lines) == (acc + "\n" + l) + "\n" + Join(lines[1..]);
    }
  }

  /** From an empty buffer, data comes back unless a line loses its carriage return or leading empty lines are
      swallowed; whatever is lost makes the data shorter. */
  lemma {:induction false} GatherFromEmpty(lines: seq<string>)
    requires lines != []
    ensures |Gather("", lines)| <= |Join(lines)|
    ensures |lines| > 1 && DropCR(lines[0]) == "" ==> |Gather("", lines)| < |Join(lines)|
    ensures Gather("", lines) == Join(lines)
       <==> (|lines| == 1 || lines[0] != "") && forall k :: 0 <= k < |lines| ==> !EndsInCR(lines[k])
    decreases |lines|
  {
    var l := lines[0];
    if |lines| == 1 {
      assert lines[1..] == [];
    } else {
      assert forall k :: 0 < k < |lines| ==> lines[k] == lines[1..][k - 1];
      if DropCR(l) == "" {
        GatherFromEmpty(lines[1..]);
        assert Gather("", lines) == Gather("", lines[1..]);
        assert |Join(lines)| == |l| + 1 + |Join(lines[1..])|;
        assert l == "" || EndsInCR(lines[0]);
      } else {
        GatherNonempty(DropCR(l), lines[1..]);
        assert Join(lines) == l + "\n" + Join(lines[1..]);
      }
    }
  }

  predicate DataSurvives(data: string) {
    && (data == "" || data[0] != '\n')
    && forall l :: l in Split(data) ==> !EndsInCR(l)
  }

  /** The data of an event survives exactly when it does not start with a newline and no line of it ends in a
      carriage return. */
  lemma DataSurvivesIff(data: string)
    ensures Gather("", Split(data)) == data <==> DataSurvives(data)
  {
    var lines := Split(data);
    JoinSplit(data);
    GatherFromEmpty(lines);
    var n := Prefix(data, '\n');
    assert lines[0] == data[..n];
    assert |lines| == 1 <==> n == |data|;
    assert |lines| > 1 ==> (lines[0] == "" <==> data[0] == '\n');
  }

  predicate Survives(m: Message) {
    match m
    case Event(eventType, data) => Fits(m) && !EndsInCR(eventType) && DataSurvives(data)
    case Comment(_) => Fits(m)
  }

  lemma {:induction false} DeliveredIff(messages: seq<Message>)
    ensures Delivered(messages) == Transcript(Sent(messages), true)
       <==> forall k :: 0 <= k < |messages| ==> Survives(messages[k])
  {
    if messages != [] {
      var m, tail := messages[0], Delivered(messages[1..]);
      DeliveredIff(messages[1..]);
      assert forall k :: 0 < k < |messages| ==> messages[k] == messages[1..][k - 1];
      if m.Event? && Fits(m) {
        DataSurvivesIff(m.data);
        var got, sent := [Received(m.eventType, m.data)] + tail.events, [SSEEvent(m.eventType, m.data, "")] + Sent(messages[1..]);
        assert got == sent <==> got[0] == sent[0] && got[1..] == sent[1..];
        assert got[1..] == tail.events && sent[1..] == Sent(messages[1..]);
      }
    }
  }

  // ---------- event types with newlines ----------

  lemma {:induction false} ParsedTypeHasNoNewline(input: string, ev: SSEEvent, hasContent: bool)
    requires '\n' !in ev.event
    ensures
      var r := NextEvent(input, ev, hasContent);
      r.Got? ==> '\n' !in r.event.event
    decreases |input|
  {
    match ScanLine(input)
    case EndOfInput =>
    case TooLong =>
    case Line(line, rest) =>
      LineHasNoNewline(input);
      ParsedTypeHasNoNewline(rest, ev, hasContent);
      ParsedTypeHasNoNewline(rest, Apply(ev, line), true);
  }

  lemma LineHasNoNewline(input: string)
    ensures ScanLine(input).Line? ==> '\n' !in ScanLine(input).text
  {
    if input != "" {
      assert '\n' !in input[..Prefix(input, '\n')];
    }
  }

  lemma {:induction false} ReadTypesHaveNoNewline(input: string)
    ensures forall ev :: ev in ReadAll(input).events ==> '\n' !in ev.event
    decreases |input|
  {
    ParsedTypeHasNoNewline(input, EMPTY, false);
    match NextEvent(input, EMPTY, false)
    case EOF =>
    case ScanError =>
    case Got(event, rest) => ReadTypesHaveNoNewline(rest);
  }

  lemma {:induction false} SentTypes(messages: seq<Message>, k: nat)
    requires k < |messages| && messages[k].Event?
    ensures exists ev :: ev in Sent(messages) && ev.event == messages[k].eventType
  {
    if k == 0 {
      assert SSEEvent(messages[0].eventType, messages[0].data, "") in Sent(messages);
    } else {
      SentTypes(messages[1..], k - 1);
      var ev :| ev in Sent(messages[1..]) && ev.event == messages[k].eventType;
      assert ev in Sent(messages);
    }
  }

  /** Whatever was written, with heartbeat comments of one line each in between: the parser answers exactly the
      written (event, data) sequence and then EOF if and only if every event type is a single line not ending in a
      carriage return, no data starts with a newline, no data line ends in a carriage return, and every line fits
      the scanner. Inner and trailing empty lines of the data are kept. */
  lemma RoundTripIff(messages: seq<Message>)
    requires forall m :: m in messages && m.Comment? ==> '\n' !in m.text
    ensures ReadAll(Wire(messages)) == Transcript(Sent(messages), true)
       <==> forall k :: 0 <= k < |messages| ==> OneLineHead(messages[k]) && Survives(messages[k])
  {
    if k :| 0 <= k < |messages| && !OneLineHead(messages[k]) {
      assert messages[k] in messages;
      SentTypes(messages, k);
      ReadTypesHaveNoNewline(Wire(messages));
    } else {
      ReadBack(messages);
      DeliveredIff(messages);
    }
  }

  /** One writer, one parser at the other end of the wire. */
  method Relay(messages: seq<Message>) returns (t: Transcript)
    requires forall m :: m in messages && m.Comment? ==> '\n' !in m.text
    ensures t == Transcript(Sent(messages), true)
       <==> forall k :: 0 <= k < |messages| ==> OneLineHead(messages[k]) && Survives(messages[k])
  {
    hide *;
    var w := new Writer();
    WriteAll(w, messages);
    assert "" + Wire(messages) == Wire(messages);
    var p := new SSEParser(w.out);
    t := ReadToEnd(p);
    RoundTripIff(messages);
  }
}
