/**
 Decoding frames into events, and the reference the decoder is compared with: the
 line-by-line machine of the WHATWG HTML Living Standard, section 9.2.5 (line
 terminators) and section 9.2.6 (interpreting an event stream).
 */
module SseFrames {
  import opened Sequences
  import opened SseText

  // ----- lines

  predicate IsBreak(c: char) {
    c == '\r' || c == '\n'
  }

  /** Position of the first line terminator, or the length of `s`. */
  function FirstBreak(s: string): (e: nat)
    ensures e <= |s|
    ensures forall i :: 0 <= i < e ==> !IsBreak(s[i])
    ensures e < |s| ==> IsBreak(s[e])
  {
    if s == "" || IsBreak(s[0]) then 0 else 1 + FirstBreak(s[1..])
  }

  /** Where the text goes on after the terminator at `e`: a CR LF pair is one terminator. */
  function AfterBreak(s: string, e: nat): (k: nat)
    requires e < |s|
    ensures e < k <= |s|
  {
    if s[e] == '\r' && e + 1 < |s| && s[e + 1] == '\n' then e + 2 else e + 1
  }

  /** `frame.split(/\r\n|\n|\r/)` */
  function SplitLines(s: string): seq<string>
    decreases |s|
  {
    var e := FirstBreak(s);
    if e == |s| then [s] else [s[..e]] + SplitLines(s[AfterBreak(s, e)..])
  }

  // ----- fields

  datatype Fields = Fields(data: seq<string>, name: string)

  const NO_FIELDS := Fields([], "")

  function IndexOf(s: string, c: char): (i: int)
    ensures -1 <= i < |s|
    ensures i == -1 ==> c !in s
    ensures i >= 0 ==> s[i] == c && c !in s[..i]
  {
    if s == "" then -1
    else if s[0] == c then 0
    else
      var rest := IndexOf(s[1..], c);
      assert s == [s[0]] + s[1..];
      assert rest >= 0 ==> s[..rest + 1] == [s[0]] + s[1..][..rest];
      if rest == -1 then -1 else rest + 1
  }

  function DropOneSpace(s: string): string {
    if s != "" && s[0] == ' ' then s[1..] else s
  }

  function FieldOf(line: string): string {
    var colon := IndexOf(line, ':');
    if colon == -1 then line else line[..colon]
  }

  function ValueOf(line: string): string {
    var colon := IndexOf(line, ':');
    if colon == -1 then "" else DropOneSpace(line[colon + 1..])
  }

  function ApplyLine(f: Fields, line: string): Fields {
    if line == "" || line[0] == ':' then f
    else if FieldOf(line) == "data" then f.(data := f.data + [ValueOf(line)])
    else if FieldOf(line) == "event" then f.(name := ValueOf(line))
    else f
  }

  function ApplyLines(f: Fields, lines: seq<string>): Fields
    decreases |lines|
  {
    if lines == [] then f else ApplyLines(ApplyLine(f, lines[0]), lines[1..])
  }

  function JoinLines(data: seq<string>): string
    requires data != []
  {
    if |data| == 1 then data[0]
    else JoinLines(data[..|data| - 1]) + "\n" + data[|data| - 1]
  }

  // ----- messages

  /** An event name and its joined data string, before the data is decoded. */
  datatype Message = Message(name: string, data: string)

  /** A frame without a `data` line yields nothing. */
  function MessagesOfFields(f: Fields): seq<Message> {
    if f.data == [] then [] else [Message(f.name, JoinLines(f.data))]
  }

  function MessagesOfFrame(frame: string): seq<Message> {
    MessagesOfFields(ApplyLines(NO_FIELDS, SplitLines(frame)))
  }

  function MessagesOfFrames(frames: seq<string>): seq<Message> {
    if frames == [] then [] else MessagesOfFrame(frames[0]) + MessagesOfFrames(frames[1..])
  }

  /** The messages of a normalised text; the last block only when `flush` asks for it. */
  function MessagesOfText(s: string, flush: bool): seq<Message> {
    MessagesOfFrames(Frames(s)) + if flush then MessagesOfFrame(Rest(s)) else []
  }

  /** Every message of a whole text: its frames, then the unterminated last one. */
  function OneShot(text: string): seq<Message> {
    MessagesOfText(Normalize(text), true)
  }

  // ----- the reference machine

  datatype Machine = Machine(dataBuffer: string, eventType: string)

  const START := Machine("", "")

  function ProcessLine(m: Machine, line: string): Machine
    requires line != ""
  {
    if line[0] == ':' then m
    else
      var colon := IndexOf(line, ':');
      var field := if colon == -1 then line else line[..colon];
      var value := if colon == -1 then "" else DropOneSpace(line[colon + 1..]);
      match field
      case "event" => m.(eventType := value)
      case "data" => m.(dataBuffer := m.dataBuffer + value + "\n")
      case _ => m
  }

  function DispatchOf(m: Machine): seq<Message> {
    if m.dataBuffer == "" then []
    else [Message(m.eventType, m.dataBuffer[..|m.dataBuffer| - 1])]
  }

  /**
   The messages the standard dispatches for `text`, read from state `m`. The
   standard discards a last block that no blank line ends (`flush` false); the code
   delivers it (`flush` true).
   */
  function Interpret(m: Machine, text: string, flush: bool): seq<Message>
    decreases |text|
  {
    var e := FirstBreak(text);
    if e == |text| then
      if flush then DispatchOf(if text == "" then m else ProcessLine(m, text)) else []
    else
      var rest := text[AfterBreak(text, e)..];
      if e == 0 then DispatchOf(m) + Interpret(START, rest, flush)
      else Interpret(ProcessLine(m, text[..e]), rest, flush)
  }

  // ----- the reference does not care how lines end

  lemma FirstBreakUnique(s: string, e: nat)
    requires e <= |s| && (e < |s| ==> IsBreak(s[e]))
    requires forall i :: 0 <= i < e ==> !IsBreak(s[i])
    ensures FirstBreak(s) == e
  {
  }

  lemma {:induction false} NormalizePlain(s: string)
    requires forall i :: 0 <= i < |s| ==> s[i] != '\r'
    ensures Normalize(s) == s
  {
    if s != "" {
      NormalizePlain(s[1..]);
      assert s == [s[0]] + s[1..];
      NormalizeAppend([s[0]], s[1..]);
      assert CrToLf([s[0]]) == [s[0]] + CrToLf("");
    }
  }

  lemma NormalizeLine(line: string, ending: string)
    requires forall i :: 0 <= i < |line| ==> !IsBreak(line[i])
    requires IsLineEnding(ending)
    ensures Normalize(line + ending) == line + "\n"
  {
    NormalizePlain(line);
    NormalizeAppend(line, ending);
    assert WithEnding("\n", ending) == ending + WithEnding("", ending) == ending;
    NormalizeWithEnding("\n", ending);
  }

  lemma {:induction false} InterpretNormalized(m: Machine, text: string, flush: bool)
    ensures Interpret(m, text, flush) == Interpret(m, Normalize(text), flush)
    decreases |text|
  {
    var e := FirstBreak(text);
    if e == |text| {
      NormalizePlain(text);
    } else {
      var k := AfterBreak(text, e);
      var line, ending, rest := text[..e], text[e..k], text[k..];
      assert IsLineEnding(ending);
      assert text == (line + ending) + rest;
      NormalizeLine(line, ending);
      NormalizeAppend(line + ending, rest);
      var n := Normalize(text);
      assert n == (line + "\n") + Normalize(rest);
      FirstBreakUnique(n, e);
      assert n[..e] == line && n[e + 1..] == Normalize(rest);
      InterpretNormalized(if e == 0 then START else ProcessLine(m, line), rest, flush);
    }
  }

  // ----- the decoder's fields against the machine's buffers

  function Buffer(data: seq<string>): string {
    if data == [] then "" else Buffer(data[..|data| - 1]) + data[|data| - 1] + "\n"
  }

  function MachineOf(f: Fields): Machine {
    Machine(Buffer(f.data), f.name)
  }

  lemma {:induction false} BufferIsJoined(data: seq<string>)
    requires data != []
    ensures Buffer(data) == JoinLines(data) + "\n"
  {
    var init := data[..|data| - 1];
    if init != [] {
      BufferIsJoined(init);
    } else {
      assert Buffer(init) == "";
    }
  }

  lemma DispatchOfMachine(f: Fields)
    ensures DispatchOf(MachineOf(f)) == MessagesOfFields(f)
  {
    if f.data != [] {
      BufferIsJoined(f.data);
      var b := Buffer(f.data);
      assert b[..|b| - 1] == JoinLines(f.data);
    }
  }

  lemma ProcessLineOfMachine(f: Fields, line: string)
    requires line != ""
    ensures ProcessLine(MachineOf(f), line) == MachineOf(ApplyLine(f, line))
  {
    var g := ApplyLine(f, line);
    if g.data != f.data {
      assert g.data[..|g.data| - 1] == f.data;
    }
  }

  predicate LfOnly(s: string) {
    forall i :: 0 <= i < |s| ==> s[i] != '\r'
  }

  lemma ApplyLinesCons(f: Fields, line: string, lines: seq<string>)
    ensures ApplyLines(f, [line] + lines) == ApplyLines(ApplyLine(f, line), lines)
  {
    assert ([line] + lines)[1..] == lines;
  }

  lemma ApplyFirstLine(f: Fields, s: string, e: nat)
    requires e == FirstBreak(s) < |s| && s[e] == '\n'
    ensures ApplyLines(f, SplitLines(s)) == ApplyLines(ApplyLine(f, s[..e]), SplitLines(s[e + 1..]))
  {
    ApplyLinesCons(f, s[..e], SplitLines(s[e + 1..]));
  }

  lemma InterpretLastLine(f: Fields, s: string, flush: bool)
    requires FirstBreak(s) == |s|
    ensures Interpret(MachineOf(f), s, flush)
         == if flush then MessagesOfFields(ApplyLines(f, SplitLines(s))) else []
  {
    assert ApplyLines(f, [s]) == ApplyLine(f, s);
    if s != "" { ProcessLineOfMachine(f, s); }
    DispatchOfMachine(ApplyLine(f, s));
  }

  lemma BlockTail(s: string, e: nat)
    requires LfOnly(s) && Boundary(s) == -1 && e < |s| && s[e] == '\n'
    ensures LfOnly(s[e + 1..]) && Boundary(s[e + 1..]) == -1 && !StartsWithLf(s[e + 1..])
  {
    var rest := s[e + 1..];
    assert !BlankAt(s, e);
    forall i | BlankAt(rest, i) ensures false { assert BlankAt(s, i + e + 1); }
  }

  /** A block with no blank line in it: the machine only reaches its end. */
  lemma {:induction false} InterpretLastBlock(f: Fields, s: string, flush: bool)
    requires LfOnly(s) && Boundary(s) == -1 && !StartsWithLf(s)
    ensures Interpret(MachineOf(f), s, flush)
         == if flush then MessagesOfFields(ApplyLines(f, SplitLines(s))) else []
    decreases |s|
  {
    var e := FirstBreak(s);
    if e == |s| {
      InterpretLastLine(f, s, flush);
    } else {
      BlockTail(s, e);
      ProcessLineOfMachine(f, s[..e]);
      ApplyFirstLine(f, s, e);
      InterpretLastBlock(ApplyLine(f, s[..e]), s[e + 1..], flush);
    }
  }

  predicate OneLine(s: string) {
    forall i :: 0 <= i < |s| ==> !IsBreak(s[i])
  }

  lemma InterpretLine(m: Machine, line: string, rest: string, flush: bool)
    requires OneLine(line)
    ensures Interpret(m, line + "\n" + rest, flush)
         == if line == "" then DispatchOf(m) + Interpret(START, rest, flush)
            else Interpret(ProcessLine(m, line), rest, flush)
  {
    var text := line + "\n" + rest;
    FirstBreakUnique(text, |line|);
    assert text[..|line|] == line && text[|line| + 1..] == rest;
  }

  lemma InterpretBlankLine(m: Machine, rest: string, flush: bool)
    ensures Interpret(m, "\n" + rest, flush) == DispatchOf(m) + Interpret(START, rest, flush)
  {
    assert "\n" + rest == "" + "\n" + rest;
    InterpretLine(m, "", rest, flush);
  }

  /** A frame that neither starts nor ends with LF and holds no blank line. */
  ghost predicate Compact(frame: string) {
    && frame != "" && frame[0] != '\n' && frame[|frame| - 1] != '\n'
    && (forall i :: !BlankAt(frame, i))
  }

  lemma InterpretOneLine(f: Fields, line: string, rest: string, flush: bool)
    requires OneLine(line) && line != ""
    ensures Interpret(MachineOf(f), line + "\n\n" + rest, flush)
         == MessagesOfFields(ApplyLines(f, SplitLines(line))) + Interpret(START, rest, flush)
  {
    var g := ApplyLine(f, line);
    assert line + "\n\n" + rest == line + "\n" + ("\n" + rest);
    InterpretLine(MachineOf(f), line, "\n" + rest, flush);
    ProcessLineOfMachine(f, line);
    InterpretBlankLine(MachineOf(g), rest, flush);
    DispatchOfMachine(g);
    FirstBreakUnique(line, |line|);
    ApplyLinesCons(f, line, []);
    assert [line] + [] == [line];
  }

  /** The first line of a compact frame of several lines. */
  lemma CompactHead(frame: string, e: nat)
    requires LfOnly(frame) && Compact(frame) && e == FirstBreak(frame) < |frame|
    ensures OneLine(frame[..e]) && e > 0 && frame[e] == '\n' && LfOnly(frame[e + 1..])
  {
  }

  lemma CompactTail(frame: string, e: nat)
    requires Compact(frame) && 0 < e < |frame| && frame[e] == '\n'
    ensures Compact(frame[e + 1..])
  {
    var tail := frame[e + 1..];
    assert !BlankAt(frame, e);
    forall i ensures !BlankAt(tail, i) {
      assert !BlankAt(frame, i + e + 1);
    }
  }

  lemma InterpretHead(f: Fields, line: string, tail: string, rest: string, flush: bool)
    requires OneLine(line) && line != ""
    ensures Interpret(MachineOf(f), line + "\n" + tail + "\n\n" + rest, flush)
         == Interpret(MachineOf(ApplyLine(f, line)), tail + "\n\n" + rest, flush)
  {
    var more := tail + "\n\n" + rest;
    assert line + "\n" + tail + "\n\n" + rest == line + "\n" + more;
    InterpretLine(MachineOf(f), line, more, flush);
    ProcessLineOfMachine(f, line);
  }

  /** The first line of a compact frame of several, and the frame after it. */
  lemma CompactLine(f: Fields, frame: string) returns (head: string, tail: string)
    requires LfOnly(frame) && Compact(frame) && FirstBreak(frame) < |frame|
    ensures frame == head + "\n" + tail && OneLine(head) && head != "" && LfOnly(tail) && Compact(tail)
    ensures ApplyLines(f, SplitLines(frame)) == ApplyLines(ApplyLine(f, head), SplitLines(tail))
  {
    var e := FirstBreak(frame);
    CompactHead(frame, e);
    CompactTail(frame, e);
    ApplyFirstLine(f, frame, e);
    head, tail := frame[..e], frame[e + 1..];
  }

  /** A frame ended by a blank line: the machine dispatches it and starts afresh. */
  lemma {:induction false} InterpretBlock(f: Fields, frame: string, rest: string, flush: bool)
    requires LfOnly(frame) && Compact(frame)
    ensures Interpret(MachineOf(f), frame + "\n\n" + rest, flush)
         == MessagesOfFields(ApplyLines(f, SplitLines(frame))) + Interpret(START, rest, flush)
    decreases |frame|
  {
    var e := FirstBreak(frame);
    if e == |frame| {
      InterpretOneLine(f, frame, rest, flush);
    } else {
      var head, tail := CompactLine(f, frame);
      InterpretHead(f, head, tail, rest, flush);
      InterpretBlock(ApplyLine(f, head), tail, rest, flush);
    }
  }

  /** A leading blank line does nothing, to the machine or to the decoder. */
  lemma LeadingLf(s: string)
    requires StartsWithLf(s)
    ensures ApplyLines(NO_FIELDS, SplitLines(s)) == ApplyLines(NO_FIELDS, SplitLines(s[1..]))
    ensures forall flush :: Interpret(START, s, flush) == Interpret(START, s[1..], flush)
  {
    assert FirstBreak(s) == 0 && s[..0] == "";
    assert ([""] + SplitLines(s[1..]))[1..] == SplitLines(s[1..]);
  }

  lemma InterpretEmptyFrame(s: string, flush: bool)
    requires Boundary(s) == 0
    ensures Interpret(START, s, flush) == MessagesOfFrame(s[..0]) + Interpret(START, s[2..], flush)
  {
    LeadingLf(s);
    LeadingLf(s[1..]);
    assert s[1..][1..] == s[2..];
    assert ApplyLines(NO_FIELDS, [""]) == NO_FIELDS;
    assert s[..0] == "" && SplitLines("") == [""];
  }

  lemma FrameIsCompact(s: string)
    requires LfOnly(s) && Boundary(s) > 0 && !StartsWithLf(s)
    ensures LfOnly(s[..Boundary(s)]) && Compact(s[..Boundary(s)])
    ensures s == s[..Boundary(s)] + "\n\n" + s[Boundary(s) + 2..]
  {
    var b := Boundary(s);
    assert !BlankAt(s, b - 1);
    forall i ensures !BlankAt(s[..b], i) {
      if BlankAt(s[..b], i) { assert BlankAt(s, i); }
    }
  }

  lemma InterpretCompactFrame(s: string, flush: bool)
    requires LfOnly(s) && Boundary(s) > 0 && !StartsWithLf(s)
    ensures Interpret(START, s, flush)
         == MessagesOfFrame(s[..Boundary(s)]) + Interpret(START, s[Boundary(s) + 2..], flush)
  {
    FrameIsCompact(s);
    assert MachineOf(NO_FIELDS) == START;
    InterpretBlock(NO_FIELDS, s[..Boundary(s)], s[Boundary(s) + 2..], flush);
  }

  lemma BoundaryAfterLf(s: string)
    requires LfOnly(s) && StartsWithLf(s) && Boundary(s) > 0
    ensures Boundary(s[1..]) == Boundary(s) - 1 > 0 && !StartsWithLf(s[1..]) && LfOnly(s[1..])
  {
    var b, t := Boundary(s), s[1..];
    assert BlankAt(t, b - 1);
    forall i | BlankAt(t, i) ensures b - 1 <= i { assert BlankAt(s, i + 1); }
    BoundaryUnique(t, b - 1);
    assert !BlankAt(s, 0);
    assert forall i :: 0 <= i < |t| ==> t[i] == s[i + 1];
  }

  lemma InterpretFrameAfterLf(s: string, flush: bool)
    requires LfOnly(s) && Boundary(s) > 0 && StartsWithLf(s)
    ensures Interpret(START, s, flush)
         == MessagesOfFrame(s[..Boundary(s)]) + Interpret(START, s[Boundary(s) + 2..], flush)
  {
    LeadingLf(s);
    BoundaryAfterLf(s);
    InterpretCompactFrame(s[1..], flush);
    FrameAfterLf(s, Boundary(s));
  }

  lemma FrameAfterLf(s: string, b: nat)
    requires StartsWithLf(s) && 0 < b && b + 2 <= |s|
    ensures s[1..][b - 1 + 2..] == s[b + 2..]
    ensures MessagesOfFrame(s[1..][..b - 1]) == MessagesOfFrame(s[..b])
  {
    SliceAfterOne(s, b);
    LeadingLf(s[..b]);
  }

  lemma SliceAfterOne(s: string, b: nat)
    requires 0 < b && b + 2 <= |s|
    ensures s[1..][..b - 1] == s[..b][1..] && s[1..][b - 1 + 2..] == s[b + 2..]
  {
  }

  lemma InterpretFirstFrame(s: string, flush: bool)
    requires LfOnly(s) && Boundary(s) != -1
    ensures Interpret(START, s, flush)
         == MessagesOfFrame(s[..Boundary(s)]) + Interpret(START, s[Boundary(s) + 2..], flush)
  {
    if Boundary(s) == 0 {
      InterpretEmptyFrame(s, flush);
    } else if StartsWithLf(s) {
      InterpretFrameAfterLf(s, flush);
    } else {
      InterpretCompactFrame(s, flush);
    }
  }

  lemma InterpretRest(s: string, flush: bool)
    requires LfOnly(s) && Boundary(s) == -1
    ensures Interpret(START, s, flush) == if flush then MessagesOfFrame(s) else []
  {
    assert MachineOf(NO_FIELDS) == START;
    if StartsWithLf(s) {
      var t := s[1..];
      LeadingLf(s);
      assert !BlankAt(s, 0);
      forall i | BlankAt(t, i) ensures false { assert BlankAt(s, i + 1); }
      InterpretLastBlock(NO_FIELDS, t, flush);
    } else {
      InterpretLastBlock(NO_FIELDS, s, flush);
    }
  }

  lemma MessagesOfFramesCons(frame: string, frames: seq<string>)
    ensures MessagesOfFrames([frame] + frames) == MessagesOfFrame(frame) + MessagesOfFrames(frames)
  {
    assert ([frame] + frames)[1..] == frames;
  }

  lemma MessagesOfTextCons(s: string, flush: bool)
    requires Boundary(s) != -1
    ensures MessagesOfText(s, flush)
         == MessagesOfFrame(s[..Boundary(s)]) + MessagesOfText(s[Boundary(s) + 2..], flush)
  {
    var b := Boundary(s);
    FramesCons(s);
    MessagesOfFramesCons(s[..b], Frames(s[b + 2..]));
    AppendAssociates(MessagesOfFrame(s[..b]), MessagesOfFrames(Frames(s[b + 2..])),
                     if flush then MessagesOfFrame(Rest(s)) else []);
  }

  lemma {:induction false} InterpretLf(s: string, flush: bool)
    requires LfOnly(s)
    ensures Interpret(START, s, flush) == MessagesOfText(s, flush)
    decreases |s|
  {
    var b := Boundary(s);
    if b == -1 {
      InterpretRest(s, flush);
      assert MessagesOfFrames([]) == [];
    } else {
      InterpretLf(s[b + 2..], flush);
      InterpretFrameByFrame(s, flush);
    }
  }

  lemma InterpretFrameByFrame(s: string, flush: bool)
    requires LfOnly(s) && Boundary(s) != -1
    requires Interpret(START, s[Boundary(s) + 2..], flush) == MessagesOfText(s[Boundary(s) + 2..], flush)
    ensures Interpret(START, s, flush) == MessagesOfText(s, flush)
  {
    InterpretFirstFrame(s, flush);
    MessagesOfTextCons(s, flush);
  }

  /**
   Normalise, cut at blank lines, decode: what the code does to a whole text is what
   the standard's machine dispatches for it, plus the unterminated last block.
   */
  lemma OneShotMeetsStandard(text: string)
    ensures OneShot(text) == Interpret(START, text, true)
    ensures OneShot(text)
         == Interpret(START, text, false) + MessagesOfFrame(Rest(Normalize(text)))
  {
    NormalizeHasNoCr(text);
    InterpretNormalized(START, text, true);
    InterpretNormalized(START, text, false);
    InterpretLf(Normalize(text), true);
    InterpretLf(Normalize(text), false);
  }

  // ----- end of stream: a held CR that closes a blank line

  lemma {:induction false} ApplyLinesAppend(f: Fields, a: seq<string>, b: seq<string>)
    ensures ApplyLines(f, a + b) == ApplyLines(ApplyLines(f, a), b)
    decreases |a|
  {
    if a == [] {
      assert a + b == b;
    } else {
      assert (a + b)[1..] == a[1..] + b;
      ApplyLinesAppend(ApplyLine(f, a[0]), a[1..], b);
    }
  }

  lemma {:induction false} SplitLinesTrailingLf(s: string)
    requires LfOnly(s)
    ensures SplitLines(s + "\n") == SplitLines(s) + [""]
    decreases |s|
  {
    var t, e := s + "\n", FirstBreak(s);
    FirstBreakUnique(t, e);
    assert t[..e] == s[..e];
    if e == |s| {
      assert s[..e] == s && t[e + 1..] == "";
    } else {
      assert t[e + 1..] == s[e + 1..] + "\n";
      SplitLinesTrailingLf(s[e + 1..]);
    }
  }

  lemma TrailingLf(s: string)
    requires LfOnly(s)
    ensures MessagesOfFrame(s + "\n") == MessagesOfFrame(s)
  {
    SplitLinesTrailingLf(s);
    ApplyLinesAppend(NO_FIELDS, SplitLines(s), [""]);
    var f := ApplyLines(NO_FIELDS, SplitLines(s));
    assert ApplyLines(f, [""]) == ApplyLine(f, "");
  }

  /**
   The final flush decodes the whole leftover as one frame, even when the held CR just
   completed a blank line; that changes no message.
   */
  lemma FlushAsOneFrame(s: string)
    requires LfOnly(s) && Boundary(s) == -1
    ensures MessagesOfFrame(s + "\n") == MessagesOfText(s + "\n", true)
    ensures MessagesOfFrame(s) == MessagesOfText(s, true)
  {
    assert MessagesOfFrames([]) == [];
    if Boundary(s + "\n") != -1 {
      var g := FlushedFrame(s);
      assert LfOnly(g) by { assert forall i :: 0 <= i < |g| ==> g[i] == s[i]; }
      TrailingLf(g);
      TrailingLf(s);
      OneFrameText(s + "\n", g);
    }
  }

  lemma OneFrameText(t: string, g: string)
    requires Frames(t) == [g] && Rest(t) == ""
    ensures MessagesOfText(t, true) == MessagesOfFrame(g)
  {
    MessagesOfFramesCons(g, []);
    assert [g] + [] == [g];
    assert ApplyLines(NO_FIELDS, [""]) == NO_FIELDS && SplitLines("") == [""];
  }

  lemma FlushedFrame(s: string) returns (g: string)
    requires Boundary(s) == -1 && Boundary(s + "\n") != -1
    ensures s == g + "\n" && Frames(s + "\n") == [g] && Rest(s + "\n") == ""
  {
    var t := s + "\n";
    var b := Boundary(t);
    if b + 2 < |t| { assert BlankAt(s, b); }
    g := t[..b];
    assert t[b + 2..] == "";
    assert Frames("") == [];
  }
}
