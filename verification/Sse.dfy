/** The server-sent-event writer of internal/sse/writer.go and the parser of internal/synthesis/stream.go, which follow
    section 9.2 of the WHATWG HTML Standard. Both work on bytes; here a character stands for one byte. */
module Sse {

  /** The scanner's buffer: a line, with its newline, has to fit. */
  const MAX_TOKEN := 1024 * 1024

  function Prefix(s: string, c: char): (n: nat)
    ensures n <= |s| && c !in s[..n] && (n < |s| ==> s[n] == c)
  {
    if s == [] || s[0] == c then 0 else
      var n := 1 + Prefix(s[1..], c);
      assert s[..n] == [s[0]] + s[1..][..n - 1];
      n
  }

  // ---------- writing ----------

  /** strings.Split(s, "\n") */
  function Split(s: string): (lines: seq<string>)
    ensures lines != []
    ensures forall l :: l in lines ==> '\n' !in l
    decreases |s|
  {
    var n := Prefix(s, '\n');
    if n == |s| then assert s[..n] == s; [s] else [s[..n]] + Split(s[n + 1..])
  }

  function DataLines(lines: seq<string>): string {
    if lines == [] then "" else "data: " + lines[0] + "\n" + DataLines(lines[1..])
  }

  lemma {:induction false} DataLinesAppend(lines: seq<string>, line: string)
    ensures DataLines(lines + [line]) == DataLines(lines) + ("data: " + line + "\n")
  {
    if lines == [] {
      assert [line][1..] == [];
    } else {
      assert (lines + [line])[1..] == lines[1..] + [line];
      DataLinesAppend(lines[1..], line);
    }
  }

  function EventWire(eventType: string, data: string): string {
    "event: " + eventType + "\n" + DataLines(Split(data)) + "\n"
  }

  function CommentWire(text: string): string {
    ": " + text + "\n\n"
  }

  datatype Message = Event(eventType: string, data: string) | Comment(text: string)

  /** Whole messages in the order in which their writers held the lock. */
  function Wire(messages: seq<Message>): string {
    if messages == [] then ""
    else MessageWire(messages[0]) + Wire(messages[1..])
  }

  lemma {:induction false} WireAppend(messages: seq<Message>, m: Message)
    ensures Wire(messages + [m]) == Wire(messages) + MessageWire(m)
  {
    if messages == [] {
      assert [m][1..] == [];
    } else {
      assert (messages + [m])[1..] == messages[1..] + [m];
      WireAppend(messages[1..], m);
    }
  }

  function MessageWire(m: Message): string {
    match m
    case Event(eventType, data) => EventWire(eventType, data)
    case Comment(text) => CommentWire(text)
  }

  class Writer {
    var out: string    // what the underlying response writer has received

    constructor ()
      ensures out == ""
    {
      out := "";
    }

    method WriteEvent(eventType: string, data: string)
      modifies this
      ensures out == old(out) + EventWire(eventType, data)
    {
      out := out + "event: " + eventType + "\n";
      ghost var head := out;
      var lines := Split(data);
      for i := 0 to |lines|
        invariant out == head + DataLines(lines[..i])
      {
        out := out + "data: " + lines[i] + "\n";
        DataLinesAppend(lines[..i], lines[i]);
        assert lines[..i + 1] == lines[..i] + [lines[i]];
      }
      assert lines[..|lines|] == lines;
      out := out + "\n";
    }

    method WriteComment(text: string)
      modifies this
      ensures out == old(out) + CommentWire(text)
    {
      out := out + ": " + text + "\n\n";
    }
  }

  // ---------- reading ----------

  datatype SSEEvent = SSEEvent(event: string, data: string, id: string)

  datatype Scan = EndOfInput | TooLong | Line(text: string, rest: string)

  datatype Next = Got(event: SSEEvent, rest: string) | EOF | ScanError

  function DropCR(line: string): string {
    if line != "" && line[|line| - 1] == '\r' then line[..|line| - 1] else line
  }

  /** bufio.ScanLines with the parser's buffer. */
  function ScanLine(input: string): (r: Scan)
    ensures r.Line? ==> |r.rest| < |input|
  {
    if input == "" then EndOfInput
    else
      var n := Prefix(input, '\n');
      if n >= MAX_TOKEN then TooLong
      else Line(DropCR(input[..n]), if n == |input| then "" else input[n + 1..])
  }

  function ParseField(line: string): (string, string) {
    var n := Prefix(line, ':');
    if n == |line| then (line, "")
    else
      var start := if n + 1 < |line| && line[n + 1] == ' ' then n + 2 else n + 1;
      (line[..n], line[start..])
  }

  /** What one field line does to the event under construction. */
  function Apply(ev: SSEEvent, line: string): SSEEvent {
    var (field, value) := ParseField(line);
    if field == "event" then ev.(event := value)
    else if field == "data" then ev.(data := if ev.data != "" then ev.data + "\n" + value else value)
    else if field == "id" then ev.(id := value)
    else ev
  }

  const EMPTY := SSEEvent("", "", "")

  /** The next event from here on, given the part of it that has been read. */
  function NextEvent(input: string, ev: SSEEvent, hasContent: bool): (r: Next)
    ensures r.Got? ==> |r.rest| < |input| || (hasContent && |r.rest| == |input| == 0)
    decreases |input|
  {
    match ScanLine(input)
    case EndOfInput => if hasContent then Got(ev, "") else EOF
    case TooLong => ScanError
    case Line(line, rest) =>
      if line == "" then (if hasContent then Got(ev, rest) else NextEvent(rest, ev, false))
      else if line[0] == ':' then NextEvent(rest, ev, hasContent)
      else NextEvent(rest, Apply(ev, line), true)
  }

  class SSEParser {
    var input: string    // what the scanner has not consumed
    var failed: bool     // a scanner that stopped on an error stays stopped

    constructor (input: string)
      ensures this.input == input && !failed
    {
      this.input := input;
      failed := false;
    }

    method Next() returns (r: Next)
      modifies this
      ensures r == if old(failed) then ScanError else NextEvent(old(input), EMPTY, false)
      ensures r.Got? ==> input == r.rest && !failed
      ensures r.EOF? ==> !failed
      ensures failed <==> r.ScanError?
    {
      var event, hasContent := EMPTY, false;
      while !failed
        invariant old(failed) ==> failed
        invariant !old(failed) ==> !failed && NextEvent(input, event, hasContent) == NextEvent(old(input), EMPTY, false)
        decreases |input|
      {
        var scan := ScanLine(input);
        match scan
        case EndOfInput => break;
        case TooLong =>
          failed := true;
          return ScanError;
        case Line(line, rest) =>
          input := rest;
          if line == "" {
            if hasContent {
              return Got(event, rest);
            }
          } else if line[0] != ':' {
            hasContent := true;
            event := Apply(event, line);
          }
      }
      if failed {
        return ScanError;
      }
      return if hasContent then Got(event, "") else EOF;
    }
  }

  datatype Transcript = Transcript(events: seq<SSEEvent>, clean: bool)

  /** Calling Next until it stops answering events; `clean` says that it stopped with EOF. */
  function ReadAll(input: string): Transcript
    decreases |input|
  {
    match NextEvent(input, EMPTY, false)
    case EOF => Transcript([], true)
    case ScanError => Transcript([], false)
    case Got(event, rest) =>
      var tail := ReadAll(rest);
      Transcript([event] + tail.events, tail.clean)
  }

  /** The locked sections of all goroutines that share one writer, in the order in which they got the lock. */
  method WriteAll(w: Writer, messages: seq<Message>)
    modifies w
    ensures w.out == old(w.out) + Wire(messages)
  {
    assert Wire(messages[..0]) == "";
    hide MessageWire, Wire;
    for i := 0 to |messages|
      invariant w.out == old(w.out) + Wire(messages[..i])
    {
      Send(w, messages[i]);
      assert messages[..i + 1] == messages[..i] + [messages[i]];
      WireAppend(messages[..i], messages[i]);
      Regroup(old(w.out), Wire(messages[..i]), MessageWire(messages[i]));
    }
    assert messages[..|messages|] == messages;
  }

  lemma Regroup(a: string, b: string, c: string)
    ensures (a + b) + c == a + (b + c)
  {
  }

  method Send(w: Writer, m: Message)
    modifies w
    ensures w.out == old(w.out) + MessageWire(m)
  {
    match m
    case Event(eventType, data) => w.WriteEvent(eventType, data);
    case Comment(text) => w.WriteComment(text);
  }

  /** The consumer's loop: Next until it stops answering events. */
  method ReadToEnd(p: SSEParser) returns (t: Transcript)
    requires !p.failed
    modifies p
    ensures t == ReadAll(old(p.input))
  {
    var events: seq<SSEEvent> := [];
    while true
      invariant !p.failed
      invariant ReadAll(old(p.input))
             == Transcript(events + ReadAll(p.input).events, ReadAll(p.input).clean)
      decreases |p.input|
    {
      ghost var before := p.input;
      var r := p.Next();
      match r
      case EOF => return Transcript(events, true);
      case ScanError => return Transcript(events, false);
      case Got(event, rest) =>
        assert ReadAll(before) == Transcript([event] + ReadAll(rest).events, ReadAll(rest).clean);
        assert events + ([event] + ReadAll(rest).events) == events + [event] + ReadAll(rest).events;
        events := events + [event];
    }
  }
}
