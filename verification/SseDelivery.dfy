/** From what a server sends to what the callbacks of the parser are given. */
module SseDelivery {
  import opened Wrappers
  import opened SseText
  import opened SseFrames
  import opened SseParser
  import RoundTrip = SseRoundTrip

  function Strings(topics: seq<string>): seq<Json> {
    seq(|topics|, i requires 0 <= i < |topics| => JString(topics[i]))
  }

  /** An event payload: topics that are strings, and any other fields. */
  function Update(topics: seq<string>, others: map<string, Json>): Json {
    JObject(others["topics" := JArray(Strings(topics))])
  }

  /** A closing payload: a reason, and any other fields. */
  function Closing(reason: string, others: map<string, Json>): Json {
    JObject(others["reason" := JString(reason)])
  }

  ghost predicate IsUpdate(value: Json) {
    exists topics, others :: value == Update(topics, others)
  }

  ghost predicate GivesReason(value: Json, reason: string) {
    reason != "" && exists others :: value == Closing(reason, others)
  }

  lemma EventIsUpdate(value: Json)
    ensures IsRealtimeEvent(value) <==> IsUpdate(value)
  {
    if IsRealtimeEvent(value) {
      var items := value.fields["topics"].items;
      forall i | 0 <= i < |items| ensures items[i].JString? { assert items[i] in items; }
      var topics := seq(|items|, i requires 0 <= i < |items| => items[i].s);
      assert Strings(topics) == items;
      assert value == Update(topics, value.fields);
    }
  }

  lemma ReasonIsGiven(value: Json, reason: string)
    ensures CloseReasonOf(value) == Some(reason) <==> GivesReason(value, reason)
  {
    if CloseReasonOf(value) == Some(reason) {
      assert value == Closing(reason, value.fields);
    }
  }

  /** What one decoded event gives: its reason when it is named `closed`, else itself when its topics are strings. */
  ghost predicate Gives(name: string, value: Json, out: seq<Output>) {
    if name == "closed" then
      && (forall reason | GivesReason(value, reason) :: out == [Close(reason)])
      && ((forall reason :: !GivesReason(value, reason)) ==> out == [])
    else out == if IsUpdate(value) then [Event(value)] else []
  }

  lemma OutputsAreGiven(name: string, value: Json)
    ensures Gives(name, value, OutputsOf(name, value))
  {
    EventIsUpdate(value);
    forall reason ensures CloseReasonOf(value) == Some(reason) <==> GivesReason(value, reason) {
      ReasonIsGiven(value, reason);
    }
  }

  predicate Decodes(parse: JsonParser, item: RoundTrip.Item) {
    item.Event? ==> parse(item.payload).Some?
  }

  /** What one sent item gives; a heartbeat gives nothing. */
  ghost predicate Yields(parse: JsonParser, item: RoundTrip.Item, out: seq<Output>) {
    Decodes(parse, item) && if item.Comment? then out == [] else Gives(item.name, parse(item.payload).value, out)
  }

  function Flat(outs: seq<seq<Output>>): seq<Output> {
    if outs == [] then [] else Flat(outs[..|outs| - 1]) + outs[|outs| - 1]
  }

  lemma MessagesSnoc(items: seq<RoundTrip.Item>, item: RoundTrip.Item)
    ensures RoundTrip.MessagesOfItems(items + [item])
         == RoundTrip.MessagesOfItems(items) + RoundTrip.MessagesOfItem(item)
  {
    if items == [] {
      assert items + [item] == [item] && [item][1..] == [];
    } else {
      assert (items + [item])[1..] == items[1..] + [item];
      MessagesSnoc(items[1..], item);
    }
  }

  lemma ReceiveOne(parse: JsonParser, sink: Sink, item: RoundTrip.Item) returns (out: seq<Output>)
    requires !sink.failed && Decodes(parse, item)
    ensures Yields(parse, item, out)
    ensures ReceiveAll(parse, sink, RoundTrip.MessagesOfItem(item)) == sink.(out := sink.out + out)
  {
    if item.Comment? {
      out := [];
    } else {
      out := OutputsOf(item.name, parse(item.payload).value);
      OutputsAreGiven(item.name, parse(item.payload).value);
      assert RoundTrip.MessagesOfItem(item)[1..] == [];
    }
  }

  lemma {:induction false} ReceiveItems(parse: JsonParser, items: seq<RoundTrip.Item>) returns (outs: seq<seq<Output>>)
    requires forall i :: 0 <= i < |items| ==> Decodes(parse, items[i])
    ensures |outs| == |items| && forall i :: 0 <= i < |items| ==> Yields(parse, items[i], outs[i])
    ensures ReceiveAll(parse, EMPTY_SINK, RoundTrip.MessagesOfItems(items)) == Sink(Flat(outs), false)
    decreases |items|
  {
    if items == [] {
      outs := [];
    } else {
      var init, item := items[..|items| - 1], items[|items| - 1];
      var before := ReceiveItems(parse, init);
      var out := ReceiveOne(parse, Sink(Flat(before), false), item);
      outs := before + [out];
      assert items == init + [item] && outs[..|before|] == before;
      MessagesSnoc(init, item);
      ReceiveAllAppend(parse, EMPTY_SINK, RoundTrip.MessagesOfItems(init), RoundTrip.MessagesOfItem(item));
    }
  }

  /** An item whose payload does not decode ends the parse. */
  lemma ReceiveUndecodable(parse: JsonParser, sink: Sink, items: seq<RoundTrip.Item>)
    requires !sink.failed && items != [] && !Decodes(parse, items[0])
    ensures ReceiveAll(parse, sink, RoundTrip.MessagesOfItems(items)) == sink.(failed := true)
  {
    var m := RoundTrip.MessagesOfItem(items[0]);
    ReceiveAllAppend(parse, sink, m, RoundTrip.MessagesOfItems(items[1..]));
    assert m[1..] == [];
    FailureIsFinal(parse, sink.(failed := true), RoundTrip.MessagesOfItems(items[1..]));
  }

  lemma {:induction false} MessagesSplit(items: seq<RoundTrip.Item>, k: nat)
    requires k <= |items|
    ensures RoundTrip.MessagesOfItems(items)
         == RoundTrip.MessagesOfItems(items[..k]) + RoundTrip.MessagesOfItems(items[k..])
    decreases k
  {
    if k == 0 {
      assert items[..0] == [] && items[0..] == items;
    } else {
      MessagesSplit(items, k - 1);
      assert items[..k] == items[..k - 1] + [items[k - 1]];
      MessagesSnoc(items[..k - 1], items[k - 1]);
      assert items[k - 1..][1..] == items[k..] && items[k - 1..][0] == items[k - 1];
    }
  }

  /**
   What is sent is what is delivered: print any items, in any line ending, cut the text into any
   chunks, and the parser's callbacks have been given what each item gives, in order, up to the
   first item whose payload does not decode, which ends the parse.
   */
  lemma SentIsDelivered(parser: Parser, items: seq<RoundTrip.Item>, k: nat, ending: string, chunks: seq<string>)
    returns (outs: seq<seq<Output>>)
    requires forall i :: 0 <= i < |items| ==> RoundTrip.Printable(items[i])
    requires IsLineEnding(ending) && Concat(chunks) == WithEnding(RoundTrip.PrintAll(items), ending)
    requires k <= |items| && (forall i :: 0 <= i < k ==> Decodes(parser.parse, items[i]))
    requires k < |items| ==> !Decodes(parser.parse, items[k])
    requires parser.SinkNow() == ReceiveAll(parser.parse, EMPTY_SINK, OneShot(Concat(chunks)))
    ensures |outs| == k && forall i :: 0 <= i < k ==> Yields(parser.parse, items[i], outs[i])
    ensures parser.out == Flat(outs) && parser.failed == (k < |items|)
  {
    RoundTrip.PrintedFramesParseBack(items, ending, chunks);
    MessagesSplit(items, k);
    outs := ReceiveItems(parser.parse, items[..k]);
    ReceiveAllAppend(parser.parse, EMPTY_SINK,
                     RoundTrip.MessagesOfItems(items[..k]), RoundTrip.MessagesOfItems(items[k..]));
    if k < |items| { ReceiveUndecodable(parser.parse, Sink(Flat(outs), false), items[k..]); }
  }
}
