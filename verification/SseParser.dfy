/**
 The incremental parser: it is handed a stream in arbitrary chunks, and does to the
 stream exactly what one-shot normalise, split and decode does to the whole text.
 */
module SseParser {
  import opened Wrappers
  import opened SseText
  import opened SseFrames

  datatype Json =
    | JNull
    | JBool(b: bool)
    | JNumber(n: int)
    | JString(s: string)
    | JArray(items: seq<Json>)
    | JObject(fields: map<string, Json>)

  /** `JSON.parse`, as a partial function of the text: `None` is the exception. */
  type JsonParser = string -> Option<Json>

  datatype Output = Event(payload: Json) | Close(reason: string)

  /** What the callbacks have been given, and whether decoding has thrown. */
  datatype Sink = Sink(out: seq<Output>, failed: bool)

  const EMPTY_SINK := Sink([], false)
  const CLOSE_EVENT_NAME := "closed"

  function CloseReasonOf(value: Json): Option<string> {
    if value.JObject? && "reason" in value.fields then
      var reason := value.fields["reason"];
      if reason.JString? && |reason.s| > 0 then Some(reason.s) else None
    else None
  }

  predicate IsRealtimeEvent(value: Json) {
    value.JObject? && "topics" in value.fields && value.fields["topics"].JArray?
    && forall topic | topic in value.fields["topics"].items :: topic.JString?
  }

  /** The outputs one decoded message causes. */
  function OutputsOf(name: string, value: Json): seq<Output> {
    if name == CLOSE_EVENT_NAME then
      match CloseReasonOf(value)
      case Some(reason) => [Close(reason)]
      case None => []
    else if IsRealtimeEvent(value) then [Event(value)]
    else []
  }

  /** A message that does not decode ends the parse; nothing is received after it. */
  function Receive(parse: JsonParser, sink: Sink, m: Message): Sink {
    if sink.failed then sink
    else
      match parse(m.data)
      case None => sink.(failed := true)
      case Some(value) => sink.(out := sink.out + OutputsOf(m.name, value))
  }

  function ReceiveAll(parse: JsonParser, sink: Sink, messages: seq<Message>): Sink
    decreases |messages|
  {
    if messages == [] then sink
    else ReceiveAll(parse, Receive(parse, sink, messages[0]), messages[1..])
  }

  lemma {:induction false} ReceiveAllAppend(parse: JsonParser, sink: Sink, a: seq<Message>, b: seq<Message>)
    ensures ReceiveAll(parse, sink, a + b) == ReceiveAll(parse, ReceiveAll(parse, sink, a), b)
    decreases |a|
  {
    if a == [] {
      assert a + b == b;
    } else {
      assert (a + b)[1..] == a[1..] + b;
      ReceiveAllAppend(parse, Receive(parse, sink, a[0]), a[1..], b);
    }
  }

  lemma {:induction false} FailureIsFinal(parse: JsonParser, sink: Sink, messages: seq<Message>)
    requires sink.failed
    ensures ReceiveAll(parse, sink, messages) == sink
    decreases |messages|
  {
    if messages != [] { FailureIsFinal(parse, sink, messages[1..]); }
  }

  lemma {:induction false} MessagesOfFramesAppend(a: seq<string>, b: seq<string>)
    ensures MessagesOfFrames(a + b) == MessagesOfFrames(a) + MessagesOfFrames(b)
    decreases |a|
  {
    if a == [] {
      assert a + b == b;
    } else {
      assert (a + b)[1..] == a[1..] + b;
      MessagesOfFramesAppend(a[1..], b);
    }
  }

  // ----- the end-of-stream guard

  /** The white space and line terminators `String.prototype.trim` removes. */
  predicate IsSpace(c: char) {
    c in "\t\n\r \U{000B}\U{000C}\U{00A0}\U{1680}\U{2028}\U{2029}\U{202F}\U{205F}\U{3000}\U{FEFF}"
    || '\U{2000}' <= c <= '\U{200A}'
  }

  predicate Blank(s: string) {
    forall i :: 0 <= i < |s| ==> IsSpace(s[i])
  }

  lemma BlankLineIsIgnored(f: Fields, line: string)
    requires Blank(line)
    ensures ApplyLine(f, line) == f
  {
    if line != "" {
      assert IsSpace(line[0]);
      assert FieldOf(line) != "data" && FieldOf(line) != "event" by {
        if FieldOf(line) != "" { assert FieldOf(line)[0] == line[0]; }
      }
    }
  }

  lemma {:induction false} BlankLinesAreIgnored(f: Fields, s: string)
    requires Blank(s)
    ensures ApplyLines(f, SplitLines(s)) == f
    decreases |s|
  {
    var e := FirstBreak(s);
    if e == |s| {
      BlankLineIsIgnored(f, s);
      assert ApplyLines(f, [s]) == ApplyLine(f, s);
    } else {
      BlankLineIsIgnored(f, s[..e]);
      var rest := SplitLines(s[AfterBreak(s, e)..]);
      BlankLinesAreIgnored(f, s[AfterBreak(s, e)..]);
      assert ([s[..e]] + rest)[1..] == rest;
    }
  }

  // ----- the parser

  /** Reading one more chunk extends the text normalised so far. */
  lemma ChunkExtends(consumed: string, chunk: string)
    ensures var held := if EndsWithCr(consumed) then "\r" else "";
            && Normalize(WithoutTrailingCr(consumed + chunk))
               == Normalize(WithoutTrailingCr(consumed)) + Normalize(WithoutTrailingCr(held + chunk))
            && EndsWithCr(consumed + chunk) == EndsWithCr(held + chunk)
  {
    var held := if EndsWithCr(consumed) then "\r" else "";
    var before, all := WithoutTrailingCr(consumed), consumed + chunk;
    assert all == before + (held + chunk);
    if held + chunk == "" {
      assert all == consumed && chunk == "";
      assert CrlfToLf("") == "" && CrToLf("") == "";
    } else {
      assert WithoutTrailingCr(all) == before + WithoutTrailingCr(held + chunk);
      NormalizeAppend(before, WithoutTrailingCr(held + chunk));
    }
  }

  /** Delivering the frames of the leftover plus new text carries on from where it stood. */
  lemma DrainExtends(parse: JsonParser, before: string, text: string)
    ensures var sink := ReceiveAll(parse, EMPTY_SINK, MessagesOfFrames(Frames(before)));
            ReceiveAll(parse, EMPTY_SINK, MessagesOfFrames(Frames(before + text)))
            == ReceiveAll(parse, sink, MessagesOfFrames(Frames(Rest(before) + text)))
    ensures Rest(before + text) == Rest(Rest(before) + text)
  {
    var more := Frames(Rest(before) + text);
    FramesAppend(before, text);
    RestAppend(before, text);
    MessagesOfFramesAppend(Frames(before), more);
    ReceiveAllAppend(parse, EMPTY_SINK, MessagesOfFrames(Frames(before)), MessagesOfFrames(more));
  }

  /** What the one-shot parse has after the frames of a prefix. */
  lemma OneShotAfter(prefix: string, whole: string) returns (second: seq<Message>)
    requires prefix <= whole
    ensures OneShot(whole) == MessagesOfFrames(Frames(Normalize(WithoutTrailingCr(prefix)))) + second
  {
    var more := whole[|prefix|..];
    assert whole == prefix + more;
    NormalizeHeldBack(prefix, more);
    var text := Normalize(WithoutTrailingCr(prefix));
    var tail := Normalize((if EndsWithCr(prefix) then "\r" else "") + more);
    FramesAppend(text, tail);
    MessagesOfFramesAppend(Frames(text), Frames(Rest(text) + tail));
    second := MessagesOfFrames(Frames(Rest(text) + tail)) + MessagesOfFrame(Rest(text + tail));
  }

  /** A failure on a prefix of the stream is the outcome of the whole stream. */
  lemma FailedPrefix(parse: JsonParser, prefix: string, whole: string)
    requires prefix <= whole
    requires ReceiveAll(parse, EMPTY_SINK, MessagesOfFrames(Frames(Normalize(WithoutTrailingCr(prefix))))).failed
    ensures ReceiveAll(parse, EMPTY_SINK, OneShot(whole))
         == ReceiveAll(parse, EMPTY_SINK, MessagesOfFrames(Frames(Normalize(WithoutTrailingCr(prefix)))))
  {
    var first := MessagesOfFrames(Frames(Normalize(WithoutTrailingCr(prefix))));
    var second := OneShotAfter(prefix, whole);
    ReceiveAllAppend(parse, EMPTY_SINK, first, second);
    FailureIsFinal(parse, ReceiveAll(parse, EMPTY_SINK, first), second);
  }

  lemma NormalizeHeldCr()
    ensures Normalize("\r") == "\n" && Normalize("") == ""
  {
    assert CrToLf("\r") == "\n" + CrToLf("");
  }

  lemma MessagesOfTextAppend(before: string, text: string)
    ensures MessagesOfText(before + text, true)
         == MessagesOfFrames(Frames(before)) + MessagesOfText(Rest(before) + text, true)
  {
    FramesAppend(before, text);
    RestAppend(before, text);
    MessagesOfFramesAppend(Frames(before), Frames(Rest(before) + text));
  }

  lemma RestIsPlain(consumed: string)
    ensures LfOnly(Rest(Normalize(consumed))) && Boundary(Rest(Normalize(consumed))) == -1
  {
    NormalizeHasNoCr(consumed);
    RestIsSuffix(Normalize(consumed));
    RestHasNoBoundary(Normalize(consumed));
  }

  /** The flush at end of stream completes the one-shot parse. */
  lemma FinishCompletes(consumed: string)
    ensures var before := Normalize(WithoutTrailingCr(consumed));
            var text := Normalize(if EndsWithCr(consumed) then "\r" else "");
            OneShot(consumed) == MessagesOfFrames(Frames(before)) + MessagesOfFrame(Rest(before) + text)
  {
    var before := Normalize(WithoutTrailingCr(consumed));
    var held := if EndsWithCr(consumed) then "\r" else "";
    var rest := Rest(before);
    NormalizeHeldCr();
    NormalizeHeldBack(consumed, "");
    assert consumed + "" == consumed && held + "" == held && rest + "" == rest;
    RestIsPlain(WithoutTrailingCr(consumed));
    FlushAsOneFrame(rest);
    MessagesOfTextAppend(before, Normalize(held));
  }

  class Parser {
    const parse: JsonParser
    var buffer: string
    var pendingCr: bool
    var out: seq<Output>
    var failed: bool
    /** How many times `onBytes` has fired. */
    var pulses: nat

    constructor (parse: JsonParser)
      ensures this.parse == parse && Valid("") && !failed && pulses == 0
    {
      this.parse := parse;
      buffer, pendingCr, out, failed, pulses := "", false, [], false, 0;
      new;
      assert Normalize("") == "";
    }

    function SinkNow(): Sink
      reads this
    {
      Sink(out, failed)
    }

    /** Every complete frame of `text` is delivered, and the buffer keeps the rest. */
    ghost predicate Delivered(text: string)
      reads this
    {
      && SinkNow() == ReceiveAll(parse, EMPTY_SINK, MessagesOfFrames(Frames(text)))
      && (!failed ==> buffer == Rest(text))
    }

    /** The state after the chunks read so far, whose concatenation is `consumed`. */
    ghost predicate Valid(consumed: string)
      reads this
    {
      && pendingCr == EndsWithCr(consumed)
      && Delivered(Normalize(WithoutTrailingCr(consumed)))
    }

    /** Between chunks the buffer holds neither a CR nor a complete frame. */
    lemma BufferHoldsNoFrame(consumed: string)
      requires Valid(consumed) && !failed
      ensures '\r' !in buffer && Boundary(buffer) == -1
    {
      var text := Normalize(WithoutTrailingCr(consumed));
      NormalizeHasNoCr(WithoutTrailingCr(consumed));
      RestHasNoBoundary(text);
      RestIsSuffix(text);
    }

    method NormalizeChunk(decoded: string, final: bool) returns (text: string)
      modifies this`pendingCr
      ensures var whole := (if old(pendingCr) then "\r" else "") + decoded;
              && text == Normalize(if final then whole else WithoutTrailingCr(whole))
              && pendingCr == (!final && EndsWithCr(whole))
    {
      text := (if pendingCr then "\r" else "") + decoded;
      pendingCr := false;
      if !final && EndsWithCr(text) {
        pendingCr := true;
        text := text[..|text| - 1];
      }
      text := Normalize(text);
    }

    method EmitFrame(frame: string)
      requires !failed
      modifies this`out, this`failed
      ensures SinkNow() == ReceiveAll(parse, old(SinkNow()), MessagesOfFrame(frame))
    {
      var lines := SplitLines(frame);
      var fields := NO_FIELDS;
      for i := 0 to |lines|
        invariant ApplyLines(fields, lines[i..]) == ApplyLines(NO_FIELDS, lines)
      {
        fields := ApplyLine(fields, lines[i]);
        assert lines[i..][1..] == lines[i + 1..];
      }
      if fields.data == [] { return; }
      var m := Message(fields.name, JoinLines(fields.data));
      assert MessagesOfFrame(frame) == [m];
      match parse(m.data)
      case None =>
        failed := true;
      case Some(value) =>
        if m.name == CLOSE_EVENT_NAME {
          var reason := CloseReasonOf(value);
          if reason.Some? { out := out + [Close(reason.value)]; }
        } else if IsRealtimeEvent(value) {
          out := out + [Event(value)];
        }
    }

    /** The frame loop: deliver every complete frame the buffer holds. */
    method DrainFrames()
      requires !failed
      modifies this`buffer, this`out, this`failed
      ensures SinkNow() == ReceiveAll(parse, old(SinkNow()), MessagesOfFrames(Frames(old(buffer))))
      ensures !failed ==> buffer == Rest(old(buffer))
    {
      var boundary := Boundary(buffer);
      while boundary != -1
        invariant boundary == Boundary(buffer) && !failed
        invariant Rest(buffer) == Rest(old(buffer))
        invariant ReceiveAll(parse, SinkNow(), MessagesOfFrames(Frames(buffer)))
               == ReceiveAll(parse, old(SinkNow()), MessagesOfFrames(Frames(old(buffer))))
        decreases |buffer|
      {
        var frame := buffer[..boundary];
        ghost var rest := Frames(buffer[boundary + 2..]);
        FramesCons(buffer);
        MessagesOfFramesCons(frame, rest);
        ReceiveAllAppend(parse, SinkNow(), MessagesOfFrame(frame), MessagesOfFrames(rest));
        buffer := buffer[boundary + 2..];
        EmitFrame(frame);
        if failed {
          FailureIsFinal(parse, SinkNow(), MessagesOfFrames(rest));
          return;
        }
        boundary := Boundary(buffer);
      }
      assert MessagesOfFrames([]) == [];
    }

    method Absorb(more: string, ghost text: string)
      requires Delivered(text) && !failed
      modifies this`buffer, this`out, this`failed
      ensures Delivered(text + more)
    {
      DrainExtends(parse, text, more);
      buffer := buffer + more;
      DrainFrames();
    }

    /** One network chunk. */
    method Feed(chunk: string, ghost consumed: string)
      requires Valid(consumed) && !failed
      modifies this
      ensures Valid(consumed + chunk) && pulses == old(pulses) + 1
    {
      pulses := pulses + 1;
      var text := NormalizeChunk(chunk, false);
      ChunkExtends(consumed, chunk);
      Absorb(text, Normalize(WithoutTrailingCr(consumed)));
    }

    /** The final flush: all that is left is one frame, unless it is only white space. */
    method Flush(more: string, ghost text: string)
      requires Delivered(text) && !failed
      modifies this`buffer, this`out, this`failed
      ensures SinkNow() == ReceiveAll(parse, EMPTY_SINK,
                                      MessagesOfFrames(Frames(text)) + MessagesOfFrame(Rest(text) + more))
    {
      ReceiveAllAppend(parse, EMPTY_SINK, MessagesOfFrames(Frames(text)), MessagesOfFrame(Rest(text) + more));
      buffer := buffer + more;
      if !Blank(buffer) {
        EmitFrame(buffer);
      } else {
        BlankLinesAreIgnored(NO_FIELDS, buffer);
      }
    }

    /** End of stream: flush the held CR and the unterminated last frame. */
    method Finish(ghost consumed: string)
      requires Valid(consumed) && !failed
      modifies this
      ensures SinkNow() == ReceiveAll(parse, EMPTY_SINK, OneShot(consumed)) && pulses == old(pulses)
    {
      FinishCompletes(consumed);
      assert "\r" + "" == "\r" && "" + "" == "";
      var text := NormalizeChunk("", true);
      Flush(text, Normalize(WithoutTrailingCr(consumed)));
    }

    /**
     The whole stream. Whatever the chunks, the callbacks see what the one-shot parse of
     the concatenation gives, and decoding fails at the same frame or not at all.
     */
    method ParseStream(chunks: seq<string>)
      requires Valid("") && !failed && pulses == 0
      modifies this
      ensures SinkNow() == ReceiveAll(parse, EMPTY_SINK, OneShot(Concat(chunks)))
      ensures SinkNow() == ReceiveAll(parse, EMPTY_SINK, Interpret(START, Concat(chunks), true))
      ensures pulses <= |chunks| && (!failed ==> pulses == |chunks|)
    {
      OneShotMeetsStandard(Concat(chunks));
      for i := 0 to |chunks|
        invariant Valid(Concat(chunks[..i])) && !failed && pulses == i
      {
        assert chunks[..i + 1][..i] == chunks[..i];
        Feed(chunks[i], Concat(chunks[..i]));
        if failed {
          ConcatPrefix(chunks, i + 1);
          FailedPrefix(parse, Concat(chunks[..i + 1]), Concat(chunks));
          return;
        }
      }
      assert chunks[..|chunks|] == chunks;
      Finish(Concat(chunks));
    }
  }
}
