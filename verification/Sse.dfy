/**
  The incremental parser for server-sent events: every complete line is handled
  as soon as it is there, and an empty line completes a message.
 */
module Sse {
  import opened Options
  import opened Text

  datatype Message = Message(event: Option<string>, data: seq<string>)

  const Empty := Message(None, [])

  /** The messages completed by some text, and the parser state after it. */
  datatype Drained = Drained(out: seq<Message>, buffer: string, current: Message)

  // ------------------------------------------------------------------
  // Lines
  // ------------------------------------------------------------------

  predicate IsBlank(m: Message) {
    m.data == [] && m.event.None?
  }

  function TrimLineEnd(s: string): string {
    if s != "" && s[|s| - 1] in {'\r', '\n'} then TrimLineEnd(s[..|s| - 1]) else s
  }

  lemma {:induction false} TrimLineEndIsPrefix(s: string)
    ensures var r := TrimLineEnd(s);
            r <= s && (r != "" ==> r[|r| - 1] != '\r' && r[|r| - 1] != '\n')
  {
    if s != "" && s[|s| - 1] in {'\r', '\n'} {
      TrimLineEndIsPrefix(s[..|s| - 1]);
    }
  }

  function TrimEnd(s: string): string {
    if s != "" && IsSpace(s[|s| - 1]) then TrimEnd(s[..|s| - 1]) else s
  }

  /** The effect of one nonempty line on the message being collected. */
  function AddField(current: Message, line: string): Message {
    var p := Find(line, ':');
    if p == |line| then current
    else
      var name, value := TrimEnd(TrimStart(line[..p])), TrimStart(line[p + 1..]);
      if name == "event" then current.(event := Some(value))
      else if name == "data" then current.(data := current.data + [value])
      else current
  }

  /** What a complete line does: the message collected after it, and the messages it completes. */
  function OnLine(current: Message, line: string): (Message, seq<Message>) {
    if line != "" then (AddField(current, line), [])
    else if IsBlank(current) then (current, [])
    else (Empty, [current])
  }

  // ------------------------------------------------------------------
  // Fields
  // ------------------------------------------------------------------

  /** No white space at either end, and no colon inside. */
  predicate IsName(name: string) {
    ':' !in name && (name != "" ==> !IsSpace(name[0]) && !IsSpace(name[|name| - 1]))
  }

  /** The value of `event` replaces, that of `data` is added, and every other field is skipped. */
  function WithField(m: Message, name: string, value: string): Message {
    if name == "event" then m.(event := Some(value)) else if name == "data" then m.(data := m.data + [value]) else m
  }

  lemma {:induction false} TrimEndSpace(s: string, space: string)
    requires AllSpace(space) && (s != "" ==> !IsSpace(s[|s| - 1]))
    ensures TrimEnd(s + space) == s
  {
    if space == "" {
      assert s + space == s;
    } else {
      assert (s + space)[..|s + space| - 1] == s + space[..|space| - 1];
      TrimEndSpace(s, space[..|space| - 1]);
    }
  }

  lemma {:induction false} TrimEndSplits(s: string) returns (space: string)
    ensures AllSpace(space) && s == TrimEnd(s) + space
    ensures TrimEnd(s) != "" ==> !IsSpace(TrimEnd(s)[|TrimEnd(s)| - 1])
  {
    if s != "" && IsSpace(s[|s| - 1]) {
      var front := TrimEndSplits(s[..|s| - 1]);
      space := front + [s[|s| - 1]];
    } else {
      space := "";
    }
  }

  lemma NameIsTrimmed(before: string, name: string, after: string)
    requires AllSpace(before) && IsName(name) && AllSpace(after)
    ensures TrimEnd(TrimStart(before + name + after)) == name
  {
    assert before + name + after == before + (name + after);
    TrimSpace(before, name + after);
    if name == "" {
      assert "" + after == after;
      TrimAll(after);
    } else {
      TrimSolid(name + after);
      TrimEndSpace(name, after);
    }
  }

  /** A line with a colon: the name before the first one and the value after it, with white space around both. */
  function FieldText(before: string, name: string, after: string, lead: string, value: string): string {
    before + name + after + ":" + (lead + value)
  }

  /** What a line with a colon does: its name decides, and the white space does not matter. */
  lemma FieldLineAdds(before: string, name: string, after: string, lead: string, value: string, current: Message)
    requires AllSpace(before) && IsName(name) && AllSpace(after) && AllSpace(lead)
    requires value != "" ==> !IsSpace(value[0])
    ensures AddField(current, FieldText(before, name, after, lead, value)) == WithField(current, name, value)
  {
    var head := before + name + after;
    var line := head + ":" + (lead + value);
    assert line[..|head|] == head && line[|head|] == ':' && line[|head| + 1..] == lead + value;
    assert forall c :: c in head ==> c in before || c in name || c in after;
    assert forall k :: 0 <= k < |head| ==> line[k] == head[k] && head[k] in head;
    FindIs(line, ':', |head|);
    NameIsTrimmed(before, name, after);
    TrimSpace(lead, value);
    TrimSolid(value);
  }

  lemma CutName(head: string) returns (before: string, name: string, after: string)
    requires ':' !in head
    ensures AllSpace(before) && IsName(name) && AllSpace(after) && head == before + name + after
  {
    before := TrimSplits(head);
    var rest := TrimStart(head);
    after := TrimEndSplits(rest);
    name := TrimEnd(rest);
    Associates(before, name, after);
    assert head == before + (name + after);
    PartKeeps(before, name, after, ':');
    assert name != "" ==> name[0] == rest[0];
  }

  lemma Associates(a: string, b: string, c: string)
    ensures a + (b + c) == a + b + c
  {
  }

  lemma PartKeeps(a: string, b: string, c: string, x: char)
    ensures x in b ==> x in a + b + c
  {
  }

  lemma CutAt(line: string, p: nat)
    requires p < |line|
    ensures line == line[..p] + [line[p]] + line[p + 1..]
  {
  }

  lemma NotBefore(line: string, p: nat, x: char)
    requires p <= |line| && forall k :: 0 <= k < p ==> line[k] != x
    ensures x !in line[..p]
  {
  }

  lemma CutAtColon(line: string)
    requires ':' in line
    ensures var p := Find(line, ':');
            p < |line| && ':' !in line[..p] && line == line[..p] + ":" + line[p + 1..]
  {
    var p := Find(line, ':');
    FindFirst(line, ':');
    NotBefore(line, p, ':');
    assert line[..|line|] == line;
    if p < |line| {
      CutAt(line, p);
      assert [line[p]] == ":";
    }
  }

  /** Every line with a colon is such a line. */
  lemma LineIsField(line: string) returns (before: string, name: string, after: string, lead: string, value: string)
    requires ':' in line
    ensures AllSpace(before) && IsName(name) && AllSpace(after) && AllSpace(lead)
    ensures value != "" ==> !IsSpace(value[0])
    ensures line == FieldText(before, name, after, lead, value)
  {
    CutAtColon(line);
    var p := Find(line, ':');
    before, name, after := CutName(line[..p]);
    lead := TrimSplits(line[p + 1..]);
    value := TrimStart(line[p + 1..]);
  }

  /** A line without a colon is skipped. */
  lemma OtherLinesAreSkipped(line: string, current: Message)
    requires ':' !in line
    ensures AddField(current, line) == current
  {
    FindFirst(line, ':');
  }

  type LineHandler = (Message, string) -> (Message, seq<Message>)

  /** Takes all complete lines out of the buffer. */
  function Drain(on: LineHandler, buffer: string, current: Message): Drained
    decreases |buffer|
  {
    var p := Find(buffer, '\n');
    if p == |buffer| then Drained([], buffer, current)
    else
      var (next, done) := on(current, TrimLineEnd(buffer[..p + 1]));
      Before(done, Drain(on, buffer[p + 1..], next))
  }

  function Before(done: seq<Message>, d: Drained): Drained {
    d.(out := done + d.out)
  }

  lemma BeforeTwice(a: seq<Message>, b: seq<Message>, d: Drained)
    ensures Before(a, Before(b, d)) == Before(a + b, d)
  {
  }

  lemma BeforeNothing(d: Drained)
    ensures Before([], d) == d
  {
  }

  predicate NoLine(buffer: string) {
    Find(buffer, '\n') == |buffer|
  }

  class SseParser {
    var buffer: string
    var current: Message

    /** Between calls the buffer holds at most one unfinished line. */
    ghost predicate Valid()
      reads this
    {
      NoLine(buffer)
    }

    constructor ()
      ensures Valid() && buffer == "" && current == Empty
    {
      buffer, current := "", Empty;
    }

    /** The loop body: one complete line leaves the buffer. */
    method TakeLine() returns (done: seq<Message>)
      requires !NoLine(buffer)
      modifies this
      ensures |buffer| < |old(buffer)|
      ensures Drain(OnLine, old(buffer), old(current)) == Before(done, Drain(OnLine, buffer, current))
    {
      var pos := Find(buffer, '\n');
      var line := TrimLineEnd(buffer[..pos + 1]);
      buffer := buffer[pos + 1..];
      done := [];
      if line == "" {
        if current.data != [] || current.event.Some? {
          done, current := [current], Empty;
        }
      } else {
        current := AddField(current, line);
      }
    }

    method Feed(chunk: string) returns (out: seq<Message>)
      modifies this
      ensures Valid()
      ensures Drained(out, buffer, current) == Drain(OnLine, old(buffer) + chunk, old(current))
    {
      buffer := buffer + chunk;
      out := [];
      ghost var whole := Drain(OnLine, buffer, current);
      BeforeNothing(whole);
      while !NoLine(buffer)
        invariant Before(out, Drain(OnLine, buffer, current)) == whole
        decreases |buffer|
      {
        var done := TakeLine();
        BeforeTwice(out, done, Drain(OnLine, buffer, current));
        out := out + done;
      }
    }

    method Finish() returns (r: Option<Message>)
      ensures r == if IsBlank(current) then None else Some(current)
    {
      r := if current.data == [] && current.event.None? then None else Some(current);
    }
  }

  // ------------------------------------------------------------------
  // Chunking does not matter
  // ------------------------------------------------------------------

  lemma FindInPrefix(a: string, b: string, c: char)
    requires Find(a, c) < |a|
    ensures Find(a + b, c) == Find(a, c)
  {
    FindFirst(a, c);
    FindIs(a + b, c, Find(a, c));
  }

  /** Draining `a` and then `b` with what `a` left over is draining both at once. */
  lemma {:induction false} DrainInTwo(on: LineHandler, a: string, b: string, current: Message)
    ensures var first := Drain(on, a, current);
            Drain(on, a + b, current) == Before(first.out, Drain(on, first.buffer + b, first.current))
    decreases |a|
  {
    var p := Find(a, '\n');
    if p == |a| {
      BeforeNothing(Drain(on, a + b, current));
    } else {
      FindInPrefix(a, b, '\n');
      assert (a + b)[..p + 1] == a[..p + 1] && (a + b)[p + 1..] == a[p + 1..] + b;
      var (next, done) := on(current, TrimLineEnd(a[..p + 1]));
      DrainInTwo(on, a[p + 1..], b, next);
      var first := Drain(on, a[p + 1..], next);
      BeforeTwice(done, first.out, Drain(on, first.buffer + b, first.current));
    }
  }

  function Concat(chunks: seq<string>): string {
    if chunks == [] then "" else chunks[0] + Concat(chunks[1..])
  }

  /** Feeding chunks one after the other and collecting everything they complete. */
  function FeedAll(on: LineHandler, buffer: string, current: Message, chunks: seq<string>): Drained
    decreases |chunks|
  {
    if chunks == [] then Drained([], buffer, current)
    else
      var first := Drain(on, buffer + chunks[0], current);
      Before(first.out, FeedAll(on, first.buffer, first.current, chunks[1..]))
  }

  lemma {:induction false} DrainLeavesNoLine(on: LineHandler, buffer: string, current: Message)
    ensures NoLine(Drain(on, buffer, current).buffer)
    decreases |buffer|
  {
    var p := Find(buffer, '\n');
    if p < |buffer| {
      DrainLeavesNoLine(on, buffer[p + 1..], on(current, TrimLineEnd(buffer[..p + 1])).0);
    }
  }

  /** Main theorem: however a text is cut into chunks, the messages and the final state are those of one feed. */
  lemma {:induction false} ChunkingDoesNotMatter(on: LineHandler, buffer: string, current: Message, chunks: seq<string>)
    requires NoLine(buffer)
    ensures FeedAll(on, buffer, current, chunks) == Drain(on, buffer + Concat(chunks), current)
    decreases |chunks|
  {
    if chunks == [] {
      assert buffer + "" == buffer;
    } else {
      var first := Drain(on, buffer + chunks[0], current);
      DrainLeavesNoLine(on, buffer + chunks[0], current);
      ChunkingDoesNotMatter(on, first.buffer, first.current, chunks[1..]);
      DrainInTwo(on, buffer + chunks[0], Concat(chunks[1..]), current);
      assert buffer + chunks[0] + Concat(chunks[1..]) == buffer + Concat(chunks);
    }
  }

  // ------------------------------------------------------------------
  // Printing and parsing
  // ------------------------------------------------------------------

  function DataText(data: seq<string>): string {
    if data == [] then "" else "data: " + data[0] + "\n" + DataText(data[1..])
  }

  function EventText(event: Option<string>): string {
    match event case None => "" case Some(e) => "event: " + e + "\n"
  }

  function MessageText(m: Message): string {
    EventText(m.event) + DataText(m.data) + "\n"
  }

  function MessagesText(ms: seq<Message>): string {
    if ms == [] then "" else MessageText(ms[0]) + MessagesText(ms[1..])
  }

  /** Values that survive a line: no line feed, no leading white space, no trailing carriage return. */
  predicate GoodValue(v: string) {
    && '\n' !in v
    && (v != "" ==> !IsSpace(v[0]) && v[|v| - 1] != '\r')
  }

  predicate GoodFields(m: Message) {
    && (m.event.Some? ==> GoodValue(m.event.value))
    && forall k :: 0 <= k < |m.data| ==> GoodValue(m.data[k])
  }

  predicate GoodMessage(m: Message) {
    GoodFields(m) && (m.event.Some? || m.data != [])
  }

  lemma LineOfText(line: string, rest: string)
    requires '\n' !in line && (line != "" ==> line[|line| - 1] != '\r')
    ensures Find(line + "\n" + rest, '\n') == |line|
    ensures TrimLineEnd((line + "\n" + rest)[..|line| + 1]) == line
    ensures (line + "\n" + rest)[|line| + 1..] == rest
  {
    var s := line + "\n" + rest;
    assert s[..|line| + 1] == line + "\n";
    assert forall k :: 0 <= k < |line| ==> s[k] == line[k] && line[k] in line;
    FindIs(s, '\n', |line|);
    assert (line + "\n")[..|line|] == line;
  }

  /** A good line is handed to the handler as it is. */
  lemma DrainLine(on: LineHandler, line: string, rest: string, current: Message)
    requires '\n' !in line && (line != "" ==> line[|line| - 1] != '\r')
    ensures Drain(on, line + "\n" + rest, current) == Before(on(current, line).1, Drain(on, rest, on(current, line).0))
  {
    LineOfText(line, rest);
  }

  lemma NamesAreSolid()
    ensures IsName("event") && IsName("data") && '\n' !in "event" && '\n' !in "data" && AllSpace(" ")
  {
  }

  /** `name: value` on a line of its own adds the field. */
  lemma FieldLine(name: string, value: string, current: Message)
    requires name in {"event", "data"} && GoodValue(value)
    ensures AddField(current, name + ": " + value) == WithField(current, name, value)
  {
    NamesAreSolid();
    FieldLineAdds("", name, "", " ", value, current);
    assert "" + name + "" == name && ": " == ":" + " ";
    assert name + ": " + value == name + ":" + (" " + value);
  }

  lemma DrainFieldLine(name: string, value: string, current: Message, rest: string)
    requires name in {"event", "data"} && GoodValue(value)
    ensures Drain(OnLine, name + ": " + value + "\n" + rest, current) ==
        Drain(OnLine, rest, WithField(current, name, value))
  {
    var line := name + ": " + value;
    NamesAreSolid();
    assert ": "[0] == ':' && ": "[1] == ' ';
    DrainLine(OnLine, line, rest, current);
    FieldLine(name, value, current);
    BeforeNothing(Drain(OnLine, rest, WithField(current, name, value)));
  }

  lemma DataTextStep(data: seq<string>, rest: string)
    requires data != []
    ensures DataText(data) + rest == "data" + ": " + data[0] + "\n" + (DataText(data[1..]) + rest)
  {
    assert "data: " == "data" + ": ";
  }

  lemma DrainOneDatum(data: seq<string>, current: Message, rest: string)
    requires data != [] && GoodValue(data[0])
    ensures Drain(OnLine, DataText(data) + rest, current) ==
            Drain(OnLine, DataText(data[1..]) + rest, WithField(current, "data", data[0]))
  {
    DataTextStep(data, rest);
    DrainFieldLine("data", data[0], current, DataText(data[1..]) + rest);
  }

  function WithData(m: Message, data: seq<string>): Message {
    m.(data := m.data + data)
  }

  lemma WithDataTwice(m: Message, v: string, data: seq<string>)
    requires data != [] && data[0] == v
    ensures WithData(WithField(m, "data", v), data[1..]) == WithData(m, data)
  {
    assert (m.data + [v]) + data[1..] == m.data + data;
  }

  lemma DrainNoData(current: Message, rest: string)
    ensures Drain(OnLine, DataText([]) + rest, current) == Drain(OnLine, rest, WithData(current, []))
  {
    assert DataText([]) + rest == rest;
    assert WithData(current, []) == current;
  }

  lemma {:induction false} DrainDataText(data: seq<string>, current: Message, rest: string)
    requires forall k :: 0 <= k < |data| ==> GoodValue(data[k])
    ensures Drain(OnLine, DataText(data) + rest, current) == Drain(OnLine, rest, WithData(current, data))
    decreases |data|
  {
    if data == [] {
      DrainNoData(current, rest);
    } else {
      DrainOneDatum(data, current, rest);
      DrainDataText(data[1..], WithField(current, "data", data[0]), rest);
      WithDataTwice(current, data[0], data);
    }
  }

  lemma DrainEventText(event: Option<string>, rest: string)
    requires event.Some? ==> GoodValue(event.value)
    ensures Drain(OnLine, EventText(event) + rest, Empty) == Drain(OnLine, rest, Empty.(event := event))
  {
    if event.Some? {
      assert EventText(event) + rest == "event" + ": " + event.value + "\n" + rest;
      DrainFieldLine("event", event.value, Empty, rest);
    } else {
      assert "" + rest == rest;
    }
  }

  lemma DrainMessageText(m: Message, rest: string)
    requires GoodMessage(m)
    ensures Drain(OnLine, MessageText(m) + rest, Empty) == Before([m], Drain(OnLine, rest, Empty))
  {
    var tail := "" + "\n" + rest;
    assert MessageText(m) + rest == EventText(m.event) + (DataText(m.data) + tail);
    DrainEventText(m.event, DataText(m.data) + tail);
    var start := Empty.(event := m.event);
    DrainDataText(m.data, start, tail);
    assert WithData(start, m.data) == m;
    DrainLine(OnLine, "", rest, m);
  }

  lemma {:induction false} PrintedMessagesParse(ms: seq<Message>)
    requires forall k :: 0 <= k < |ms| ==> GoodMessage(ms[k])
    ensures Drain(OnLine, MessagesText(ms), Empty) == Drained(ms, "", Empty)
    decreases |ms|
  {
    if ms != [] {
      DrainMessageText(ms[0], MessagesText(ms[1..]));
      PrintedMessagesParse(ms[1..]);
      assert [ms[0]] + ms[1..] == ms;
    }
  }

  /** A field taken from a line always has a good value. */
  lemma AddFieldKeepsGood(current: Message, line: string)
    requires GoodFields(current) && '\n' !in line && (line != "" ==> line[|line| - 1] != '\r')
    ensures GoodFields(AddField(current, line))
  {
    var p := Find(line, ':');
    if p < |line| {
      ValueIsGood(line, p);
    }
  }

  lemma ValueIsGood(line: string, p: nat)
    requires p < |line| && '\n' !in line && line[|line| - 1] != '\r'
    ensures GoodValue(TrimStart(line[p + 1..]))
  {
    var value := TrimStart(line[p + 1..]);
    TrimStartIsSuffix(line[p + 1..]);
    assert value != "" ==> value[|value| - 1] == line[|line| - 1];
    assert forall c :: c in value ==> c in line;
  }

  lemma {:induction false} TrimStartIsSuffix(s: string)
    ensures TrimStart(s) == s[|s| - |TrimStart(s)|..]
  {
    if s != "" && IsSpace(s[0]) {
      TrimStartIsSuffix(s[1..]);
    }
  }

  lemma LineIsClean(buffer: string)
    requires Find(buffer, '\n') < |buffer|
    ensures '\n' !in TrimLineEnd(buffer[..Find(buffer, '\n') + 1])
    ensures var line := TrimLineEnd(buffer[..Find(buffer, '\n') + 1]);
            line != "" ==> line[|line| - 1] != '\r'
  {
    var p := Find(buffer, '\n');
    var line := TrimLineEnd(buffer[..p + 1]);
    FindFirst(buffer, '\n');
    TrimLineEndIsPrefix(buffer[..p + 1]);
    assert buffer[..p + 1][p] == '\n';
    assert |line| <= p;
    assert forall k :: 0 <= k < |line| ==> line[k] == buffer[k];
  }

  lemma {:induction false} DrainedIsGood(buffer: string, current: Message)
    requires GoodFields(current)
    ensures forall k :: 0 <= k < |Drain(OnLine, buffer, current).out| ==>
        GoodMessage(Drain(OnLine, buffer, current).out[k])
    decreases |buffer|
  {
    var p := Find(buffer, '\n');
    if p < |buffer| {
      var line := TrimLineEnd(buffer[..p + 1]);
      LineIsClean(buffer);
      AddFieldKeepsGood(current, line);
      DrainedIsGood(buffer[p + 1..], OnLine(current, line).0);
    }
  }

  /** Main theorem: a list of messages survives printing and parsing exactly when each message is good. */
  lemma PrintParseIff(ms: seq<Message>)
    ensures Drain(OnLine, MessagesText(ms), Empty).out == ms <==> forall k :: 0 <= k < |ms| ==> GoodMessage(ms[k])
  {
    if forall k :: 0 <= k < |ms| ==> GoodMessage(ms[k]) {
      PrintedMessagesParse(ms);
    }
    DrainedIsGood(MessagesText(ms), Empty);
  }
}
