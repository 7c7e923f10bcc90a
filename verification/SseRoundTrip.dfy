/**
 Printing a server's frames and parsing them back, whatever line ending the transport
 uses.
 */
module SseRoundTrip {
  import opened SseText
  import opened SseFrames

  /** What a server sends: events with a payload, a number and a name if any, and comment heartbeats. */
  datatype Item = Event(id: string, name: string, payload: string) | Comment(text: string)

  predicate Printable(item: Item) {
    match item
    case Event(id, name, payload) => OneLine(id) && OneLine(name) && LfOnly(payload)
    case Comment(text) => OneLine(text)
  }

  function PrintField(field: string, value: string): string {
    field + ": " + value + "\n"
  }

  function PrintOptional(field: string, value: string): string {
    if value == "" then "" else PrintField(field, value)
  }

  function PrintData(lines: seq<string>): string {
    if lines == [] then "" else PrintField("data", lines[0]) + PrintData(lines[1..])
  }

  function Print(item: Item): string {
    match item
    case Event(id, name, payload) =>
      PrintOptional("id", id) + PrintOptional("event", name) + PrintData(SplitLines(payload)) + "\n"
    case Comment(text) => ":" + text + "\n\n"
  }

  function PrintAll(items: seq<Item>): string {
    if items == [] then "" else Print(items[0]) + PrintAll(items[1..])
  }

  function MessagesOfItem(item: Item): seq<Message> {
    match item
    case Event(_, name, payload) => [Message(name, payload)]
    case Comment(_) => []
  }

  function MessagesOfItems(items: seq<Item>): seq<Message> {
    if items == [] then [] else MessagesOfItem(items[0]) + MessagesOfItems(items[1..])
  }

  lemma {:induction false} IndexOfSeparator(field: string, value: string)
    requires ':' !in field
    ensures IndexOf(field + ":" + value, ':') == |field|
  {
    if field != "" {
      assert (field + ":" + value)[1..] == field[1..] + ":" + value;
      IndexOfSeparator(field[1..], value);
    }
  }

  lemma ProcessField(m: Machine, field: string, value: string)
    requires field == "event" || field == "data" || field == "id"
    ensures ProcessLine(m, field + ":" + (" " + value))
         == if field == "event" then m.(eventType := value)
            else if field == "data" then m.(dataBuffer := m.dataBuffer + value + "\n")
            else m
  {
    var line := field + ":" + (" " + value);
    IndexOfSeparator(field, " " + value);
    assert line[..|field|] == field && line[|field| + 1..] == " " + value;
    assert (" " + value)[1..] == value;
  }

  lemma InterpretField(m: Machine, field: string, value: string, rest: string, flush: bool)
    requires (field == "event" || field == "data" || field == "id") && OneLine(value)
    ensures Interpret(m, PrintField(field, value) + rest, flush)
         == Interpret(
              if field == "event" then m.(eventType := value)
              else if field == "data" then m.(dataBuffer := m.dataBuffer + value + "\n")
              else m,
              rest, flush)
  {
    var line := field + ":" + (" " + value);
    assert PrintField(field, value) + rest == line + "\n" + rest;
    assert OneLine(line) by { assert OneLine(field) && OneLine(":") && OneLine(" "); }
    InterpretLine(m, line, rest, flush);
    ProcessField(m, field, value);
  }

  function Terminated(lines: seq<string>): string {
    if lines == [] then "" else lines[0] + "\n" + Terminated(lines[1..])
  }

  lemma {:induction false} InterpretData(m: Machine, lines: seq<string>, rest: string, flush: bool)
    requires forall i :: 0 <= i < |lines| ==> OneLine(lines[i])
    ensures Interpret(m, PrintData(lines) + rest, flush)
         == Interpret(m.(dataBuffer := m.dataBuffer + Terminated(lines)), rest, flush)
    decreases |lines|
  {
    if lines == [] {
      assert PrintData(lines) + rest == rest;
      assert m.dataBuffer + "" == m.dataBuffer;
    } else {
      var tail := lines[1..];
      var m' := m.(dataBuffer := m.dataBuffer + lines[0] + "\n");
      assert PrintData(lines) + rest == PrintField("data", lines[0]) + (PrintData(tail) + rest);
      InterpretField(m, "data", lines[0], PrintData(tail) + rest, flush);
      InterpretData(m', tail, rest, flush);
      assert m'.dataBuffer + Terminated(tail) == m.dataBuffer + Terminated(lines);
    }
  }

  lemma TerminatedCons(head: string, rest: seq<string>)
    ensures Terminated([head] + rest) == head + "\n" + Terminated(rest)
  {
    assert ([head] + rest)[1..] == rest;
  }

  lemma SplitFirstLine(s: string) returns (head: string, tail: string)
    requires LfOnly(s) && FirstBreak(s) < |s|
    ensures SplitLines(s) == [head] + SplitLines(tail)
    ensures s == head + "\n" + tail && OneLine(head) && LfOnly(tail)
  {
    var e := FirstBreak(s);
    head, tail := s[..e], s[e + 1..];
    assert s[e] == '\n';
    CutAround(s, e);
    TailIsLfOnly(s, e + 1);
  }

  lemma CutAround(s: string, e: nat)
    requires e < |s|
    ensures s == s[..e] + [s[e]] + s[e + 1..]
  {
  }

  lemma TailIsLfOnly(s: string, k: nat)
    requires LfOnly(s) && k <= |s|
    ensures LfOnly(s[k..])
  {
  }

  lemma {:induction false} SplitLinesTerminated(s: string)
    requires LfOnly(s)
    ensures Terminated(SplitLines(s)) == s + "\n"
    ensures forall i :: 0 <= i < |SplitLines(s)| ==> OneLine(SplitLines(s)[i])
    decreases |s|
  {
    if FirstBreak(s) == |s| {
      assert Terminated([s]) == s + "\n" + Terminated([]);
    } else {
      var head, tail := SplitFirstLine(s);
      SplitLinesTerminated(tail);
      TerminatedCons(head, SplitLines(tail));
      assert s + "\n" == head + "\n" + (tail + "\n");
    }
  }

  lemma InterpretComment(text: string, rest: string, flush: bool)
    requires OneLine(text)
    ensures Interpret(START, Print(Comment(text)) + rest, flush) == Interpret(START, rest, flush)
  {
    assert Print(Comment(text)) + rest == (":" + text) + "\n" + ("\n" + rest);
    InterpretLine(START, ":" + text, "\n" + rest, flush);
    InterpretBlankLine(START, rest, flush);
  }

  /** A field left out leaves the machine as it starts, like an empty name does. */
  lemma InterpretOptional(field: string, value: string, rest: string, flush: bool)
    requires (field == "event" || field == "id") && OneLine(value)
    ensures Interpret(START, PrintOptional(field, value) + rest, flush)
         == Interpret(if field == "event" then Machine("", value) else START, rest, flush)
  {
    if value == "" {
      assert PrintOptional(field, value) + rest == rest;
    } else {
      InterpretField(START, field, value, rest, flush);
    }
  }

  lemma InterpretEvent(id: string, name: string, payload: string, rest: string, flush: bool)
    requires OneLine(id) && OneLine(name) && LfOnly(payload)
    ensures Interpret(START, Print(Event(id, name, payload)) + rest, flush)
         == [Message(name, payload)] + Interpret(START, rest, flush)
  {
    var lines := SplitLines(payload);
    var tail := PrintData(lines) + ("\n" + rest);
    assert Print(Event(id, name, payload)) + rest == PrintOptional("id", id) + (PrintOptional("event", name) + tail);
    InterpretOptional("id", id, PrintOptional("event", name) + tail, flush);
    InterpretOptional("event", name, tail, flush);
    var named := Machine("", name);
    SplitLinesTerminated(payload);
    InterpretData(named, lines, "\n" + rest, flush);
    assert "" + (payload + "\n") == payload + "\n";
    var full := Machine(payload + "\n", name);
    InterpretBlankLine(full, rest, flush);
    assert (payload + "\n")[..|payload|] == payload;
  }

  lemma InterpretItem(item: Item, rest: string, flush: bool)
    requires Printable(item)
    ensures Interpret(START, Print(item) + rest, flush)
         == MessagesOfItem(item) + Interpret(START, rest, flush)
  {
    match item
    case Comment(text) => InterpretComment(text, rest, flush);
    case Event(id, name, payload) => InterpretEvent(id, name, payload, rest, flush);
  }

  lemma {:induction false} InterpretAll(items: seq<Item>, flush: bool)
    requires forall i :: 0 <= i < |items| ==> Printable(items[i])
    ensures Interpret(START, PrintAll(items), flush) == MessagesOfItems(items)
    decreases |items|
  {
    if items != [] {
      InterpretItem(items[0], PrintAll(items[1..]), flush);
      InterpretAll(items[1..], flush);
    }
  }

  lemma {:induction false} PrintDataHasNoCr(lines: seq<string>)
    requires forall i :: 0 <= i < |lines| ==> OneLine(lines[i])
    ensures '\r' !in PrintData(lines)
  {
    if lines != [] { PrintDataHasNoCr(lines[1..]); }
  }

  lemma PrintHasNoCr(item: Item)
    requires Printable(item)
    ensures '\r' !in Print(item)
  {
    if item.Event? {
      SplitLinesTerminated(item.payload);
      PrintDataHasNoCr(SplitLines(item.payload));
    }
  }

  lemma {:induction false} PrintAllHasNoCr(items: seq<Item>)
    requires forall i :: 0 <= i < |items| ==> Printable(items[i])
    ensures '\r' !in PrintAll(items)
  {
    if items != [] {
      PrintHasNoCr(items[0]);
      PrintAllHasNoCr(items[1..]);
    }
  }

  /**
   Print any events and heartbeats, write every LF as LF, CR LF or CR, cut the text into
   any chunks: parsing gives back each event's name and payload, in order, and nothing
   for a heartbeat. The standard's machine, which drops an unterminated block, agrees.
   */
  lemma PrintedFramesParseBack(items: seq<Item>, ending: string, chunks: seq<string>)
    requires forall i :: 0 <= i < |items| ==> Printable(items[i])
    requires IsLineEnding(ending) && Concat(chunks) == WithEnding(PrintAll(items), ending)
    ensures OneShot(Concat(chunks)) == MessagesOfItems(items)
    ensures Interpret(START, Concat(chunks), false) == MessagesOfItems(items)
  {
    var text := Concat(chunks);
    PrintAllHasNoCr(items);
    NormalizeWithEnding(PrintAll(items), ending);
    OneShotMeetsStandard(text);
    InterpretNormalized(START, text, true);
    InterpretNormalized(START, text, false);
    InterpretAll(items, true);
    InterpretAll(items, false);
  }
}
