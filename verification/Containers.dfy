/**
 What the container scan consumes of a printed list or tuple, nested to any depth: everything
 up to the closing bracket of the first nested container that holds a container itself.
 */
module Containers {
  import opened Scanners

  /** A string with the quote it is printed in, or a bytes string. */
  datatype Item = Item(text: string, quote: char, isBytes: bool)

  /** Strings, lists and tuples. */
  datatype Tree = Leaf(item: Item) | Node(children: seq<Tree>, isList: bool)

  predicate WellQuoted(t: Tree) {
    match t
    case Leaf(i) => IsQuote(i.quote)
    case Node(children, _) => forall c | c in children :: WellQuoted(c)
  }

  function PrintItem(i: Item): string {
    (if i.isBytes then "b" else "") + [i.quote] + Escape(i.text, i.quote) + [i.quote]
  }

  function Opener(isList: bool): char {
    if isList then '[' else '('
  }

  function Closer(isList: bool): char {
    if isList then ']' else ')'
  }

  /** A one-element tuple keeps its comma. */
  function Tail(isList: bool, count: nat): string {
    (if !isList && count == 1 then "," else "") + [Closer(isList)]
  }

  function Print(t: Tree): string
    decreases t, 0
  {
    match t
    case Leaf(i) => PrintItem(i)
    case Node(children, isList) => [Opener(isList)] + PrintAll(children) + Tail(isList, |children|)
  }

  function PrintAll(ts: seq<Tree>): string
    decreases ts, 1
  {
    if ts == [] then ""
    else if |ts| == 1 then Print(ts[0])
    else Print(ts[0]) + ", " + PrintAll(ts[1..])
  }

  /** A container that holds a container. */
  predicate Deep(t: Tree) {
    t.Node? && exists c :: c in t.children && c.Node?
  }

  predicate NoneDeep(ts: seq<Tree>) {
    forall t | t in ts :: !Deep(t)
  }

  /** Where the scan stops in the first deep one of some trees. */
  function StopIn(ts: seq<Tree>): nat
    decreases ts, 1
  {
    if ts == [] then 0
    else if Deep(ts[0]) then StopAt(ts[0])
    else |Print(ts[0])| + 2 + StopIn(ts[1..])
  }

  /** Where the scan stops in a deep container: in its first deep child, else at its end. */
  function StopAt(t: Tree): nat
    decreases t, 0
  {
    match t
    case Leaf(_) => 0
    case Node(children, _) => if NoneDeep(children) then |Print(t)| else 1 + StopIn(children)
  }

  // ----- the scan as a machine of two states

  /** What is read from here on, inside a nested container or outside. */
  function Reads(t: string, nested: bool): (n: nat)
    ensures n <= |t|
    decreases |t|
  {
    if t == "" then 0
    else if IsOpener(t[0]) then 1 + Reads(t[1..], true)
    else if IsCloser(t[0]) then if nested then 1 + Reads(t[1..], false) else 1
    else ElemLen(t) + Reads(t[ElemLen(t)..], nested)
  }

  lemma {:induction false} ReadsElements(t: string, nested: bool)
    ensures Reads(t, nested) == ElemRun(t) + Reads(t[ElemRun(t)..], nested)
    decreases |t|
  {
    if ElemLen(t) > 0 {
      var rest := t[ElemLen(t)..];
      ReadsElements(rest, nested);
      assert rest[ElemRun(rest)..] == t[ElemRun(t)..];
    } else {
      assert t[0..] == t;
    }
  }

  /** A nested container: its elements, and its closer if that is what follows. */
  lemma ReadsGroup(t: string)
    requires t != "" && IsOpener(t[0])
    ensures Reads(t, false) == GroupLen(t) + Reads(t[GroupLen(t)..], false)
  {
    var rest := t[1..];
    var n := ElemRun(rest);
    ReadsElements(rest, true);
    ElemRunStops(rest);
    assert rest[n..] == t[1 + n..];
    if n < |rest| && IsCloser(rest[n]) { assert t[1 + n..][1..] == t[2 + n..]; }
  }

  lemma {:induction false} ReadsBody(t: string)
    ensures Reads(t, false) == Closed(t, BodyRun(t))
    decreases |t|
  {
    if UnitLen(t) == 0 {
    } else {
      var n := UnitLen(t);
      var rest := t[n..];
      if ElemLen(t) == 0 { ReadsGroup(t); }
      ReadsBody(rest);
      assert BodyRun(rest) < |rest| ==> rest[BodyRun(rest)] == t[n + BodyRun(rest)];
    }
  }

  /** On any text: the possessive pattern reads what the machine reads. */
  lemma ContainerIsMachine(t: string)
    requires t != "" && IsOpener(t[0])
    ensures ContainerLen(t) == 1 + Reads(t[1..], false)
  {
    var rest := t[1..];
    ReadsBody(rest);
    assert BodyRun(rest) < |rest| ==> rest[BodyRun(rest)] == t[1 + BodyRun(rest)];
  }

  // ----- the machine over printed trees

  /** The machine goes over `s`, whatever follows. */
  ghost predicate Passes(s: string, from: bool, to: bool) {
    forall rest {:trigger Reads(s + rest, from)} :: Reads(s + rest, from) == |s| + Reads(rest, to)
  }

  /** The machine stops in `s`, whatever follows. */
  ghost predicate Stops(s: string, from: bool, n: nat) {
    forall rest {:trigger Reads(s + rest, from)} :: Reads(s + rest, from) == n
  }

  lemma PassPass(a: string, b: string, x: bool, y: bool, z: bool)
    requires Passes(a, x, y) && Passes(b, y, z)
    ensures Passes(a + b, x, z)
  {
    forall rest ensures Reads(a + b + rest, x) == |a + b| + Reads(rest, z) {
      assert a + b + rest == a + (b + rest);
    }
  }

  lemma PassStop(a: string, b: string, x: bool, y: bool, n: nat)
    requires Passes(a, x, y) && Stops(b, y, n)
    ensures Stops(a + b, x, |a| + n)
  {
    forall rest ensures Reads(a + b + rest, x) == |a| + n {
      assert a + b + rest == a + (b + rest);
    }
  }

  lemma StopThen(a: string, b: string, x: bool, n: nat)
    requires Stops(a, x, n)
    ensures Stops(a + b, x, n)
  {
    forall rest ensures Reads(a + b + rest, x) == n {
      assert a + b + rest == a + (b + rest);
    }
  }

  lemma NothingPasses(x: bool)
    ensures Passes("", x, x)
  {
    forall rest: string ensures "" + rest == rest { }
  }

  lemma ElementPasses(piece: string, x: bool)
    requires piece != "" && forall rest :: ElemLen(piece + rest) == |piece|
    ensures Passes(piece, x, x)
  {
    forall rest ensures Reads(piece + rest, x) == |piece| + Reads(rest, x) {
      assert ElemLen(piece + rest) == |piece|;
      assert (piece + rest)[|piece|..] == rest;
    }
  }

  lemma PlainPasses(c: char, x: bool)
    requires !IsQuote(c) && !IsOpener(c) && !IsCloser(c)
    ensures Passes([c], x, x)
  {
    ElementPasses([c], x);
  }

  lemma SeparatorPasses(x: bool)
    ensures Passes(", ", x, x)
  {
    PlainPasses(',', x);
    PlainPasses(' ', x);
    PassPass([','], [' '], x, x, x);
    assert ", " == [','] + [' '];
  }

  lemma {:induction false} StringRunOfEscape(s: string, q: char, rest: string)
    requires IsQuote(q)
    ensures StringRun(Escape(s, q) + [q] + rest, q) == |Escape(s, q)|
  {
    var t := Escape(s, q) + [q] + rest;
    if s != "" {
      var e := EscapeChar(s[0], q);
      assert t[|e|..] == Escape(s[1..], q) + [q] + rest;
      assert t[0] == e[0] && (|e| == 2 ==> t[1] == e[1]);
      StringRunOfEscape(s[1..], q, rest);
    }
  }

  lemma QuotedElem(i: Item, rest: string)
    requires IsQuote(i.quote) && !i.isBytes
    ensures ElemLen(PrintItem(i) + rest) == |PrintItem(i)|
  {
    var t := PrintItem(i) + rest;
    assert t[1..] == Escape(i.text, i.quote) + [i.quote] + rest;
    StringRunOfEscape(i.text, i.quote, rest);
  }

  lemma ItemPasses(i: Item, x: bool)
    requires IsQuote(i.quote)
    ensures Passes(PrintItem(i), x, x)
  {
    var bare := i.(isBytes := false);
    forall rest ensures ElemLen(PrintItem(bare) + rest) == |PrintItem(bare)| {
      QuotedElem(bare, rest);
    }
    ElementPasses(PrintItem(bare), x);
    if i.isBytes {
      PlainPasses('b', x);
      PassPass(['b'], PrintItem(bare), x, x, x);
      assert PrintItem(i) == ['b'] + PrintItem(bare);
    }
  }

  lemma OpenerPasses(isList: bool, x: bool)
    ensures Passes([Opener(isList)], x, true)
  {
    forall rest ensures Reads([Opener(isList)] + rest, x) == 1 + Reads(rest, true) {
      assert ([Opener(isList)] + rest)[1..] == rest;
    }
  }

  lemma CloserReads(isList: bool)
    ensures Passes([Closer(isList)], true, false) && Stops([Closer(isList)], false, 1)
  {
    forall rest
      ensures Reads([Closer(isList)] + rest, true) == 1 + Reads(rest, false) && Reads([Closer(isList)] + rest, false) == 1
    {
      assert ([Closer(isList)] + rest)[1..] == rest;
    }
  }

  /** The end of a container: read over inside a nested one, the end of the scan outside. */
  lemma TailReads(isList: bool, count: nat)
    ensures Passes(Tail(isList, count), true, false) && Stops(Tail(isList, count), false, |Tail(isList, count)|)
  {
    CloserReads(isList);
    if !isList && count == 1 {
      PlainPasses(',', true);
      PlainPasses(',', false);
      PassPass([','], [Closer(isList)], true, true, false);
      PassStop([','], [Closer(isList)], false, false, 1);
      assert Tail(isList, count) == [','] + [Closer(isList)];
    } else {
      assert Tail(isList, count) == [Closer(isList)];
    }
  }

  predicate NoNode(ts: seq<Tree>) {
    forall t | t in ts :: t.Leaf?
  }

  /** What the machine does with a printed tree. */
  ghost predicate TreeRead(t: Tree, x: bool) {
    if Deep(t) then Stops(Print(t), x, StopAt(t)) else Passes(Print(t), x, x && t.Leaf?)
  }

  /** And with several. */
  ghost predicate TreesRead(ts: seq<Tree>, x: bool) {
    if NoneDeep(ts) then Passes(PrintAll(ts), x, x && NoNode(ts)) else Stops(PrintAll(ts), x, StopIn(ts))
  }

  lemma {:induction false} ReadTree(t: Tree, x: bool)
    requires WellQuoted(t)
    ensures TreeRead(t, x)
    decreases t, 0
  {
    match t
    case Leaf(i) => ItemPasses(i, x);
    case Node(children, isList) =>
      var open, body, tail := [Opener(isList)], PrintAll(children), Tail(isList, |children|);
      OpenerPasses(isList, x);
      ReadTrees(children, true);
      TailReads(isList, |children|);
      assert Print(t) == open + body + tail;
      if !NoneDeep(children) {
        DeeperIsDeep(children, isList);
        PassStop(open, body, x, true, StopIn(children));
        StopThen(open + body, tail, x, 1 + StopIn(children));
      } else {
        PassPass(open, body, x, true, NoNode(children));
        if NoNode(children) {
          PassPass(open + body, tail, x, true, false);
        } else {
          PassStop(open + body, tail, x, false, |tail|);
        }
      }
  }

  lemma DeeperIsDeep(children: seq<Tree>, isList: bool)
    requires !NoneDeep(children)
    ensures Deep(Node(children, isList))
  {
    var c :| c in children && Deep(c);
    assert c in Node(children, isList).children && c.Node?;
  }

  lemma {:induction false} ReadTrees(ts: seq<Tree>, x: bool)
    requires forall t | t in ts :: WellQuoted(t)
    ensures TreesRead(ts, x)
    decreases ts, 1
  {
    if ts == [] {
      NothingPasses(x);
    } else {
      var t, rest := ts[0], ts[1..];
      assert t in ts && ts == [t] + rest;
      ReadTree(t, x);
      if |ts| == 1 {
        assert PrintAll(ts) == Print(t) && rest == [];
      } else {
        ReadTrees(rest, x && t.Leaf?);
        JoinTrees(t, rest, x);
      }
    }
  }

  lemma JoinTrees(t: Tree, rest: seq<Tree>, x: bool)
    requires rest != [] && TreeRead(t, x) && TreesRead(rest, x && t.Leaf?)
    ensures TreesRead([t] + rest, x)
  {
    var ts, y := [t] + rest, x && t.Leaf?;
    assert ts[0] == t && ts[1..] == rest;
    var front := Print(t) + ", ";
    assert PrintAll(ts) == front + PrintAll(rest);
    if Deep(t) {
      StopThen(Print(t), ", ", x, StopAt(t));
      StopThen(front, PrintAll(rest), x, StopAt(t));
      assert t in ts;
    } else {
      SeparatorPasses(y);
      PassPass(Print(t), ", ", x, y, y);
      if NoneDeep(rest) {
        PassPass(front, PrintAll(rest), x, y, y && NoNode(rest));
      } else {
        PassStop(front, PrintAll(rest), x, y, StopIn(rest));
        var c :| c in rest && Deep(c);
        assert c in ts;
      }
    }
  }

  lemma InsideReads(children: seq<Tree>, isList: bool)
    requires forall t | t in children :: WellQuoted(t)
    ensures var inside := PrintAll(children) + Tail(isList, |children|);
            Stops(inside, false, if NoneDeep(children) then |inside| else StopIn(children))
  {
    var body, tail := PrintAll(children), Tail(isList, |children|);
    ReadTrees(children, false);
    TailReads(isList, |children|);
    if NoneDeep(children) {
      PassStop(body, tail, false, false, |tail|);
    } else {
      StopThen(body, tail, false, StopIn(children));
    }
  }

  lemma AfterOpener(open: char, inside: string, suffix: string, n: nat)
    requires IsOpener(open) && Stops(inside, false, n)
    ensures ContainerLen([open] + inside + suffix) == 1 + n
  {
    var text := [open] + inside + suffix;
    ContainerIsMachine(text);
    assert text[1..] == inside + suffix;
  }

  /**
   Exactly what the scan consumes of a printed container, whatever brackets, quotes and
   backslashes its strings hold and whatever follows it: the whole of it, unless one of its
   containers is deep, and then no more than up to the end of the first such container.
   */
  lemma ContainerScansExactly(children: seq<Tree>, isList: bool, suffix: string)
    requires forall t | t in children :: WellQuoted(t)
    ensures var t := Node(children, isList);
            ContainerLen(Print(t) + suffix) == if NoneDeep(children) then |Print(t)| else 1 + StopIn(children)
  {
    var inside := PrintAll(children) + Tail(isList, |children|);
    InsideReads(children, isList);
    AfterOpener(Opener(isList), inside, suffix, if NoneDeep(children) then |inside| else StopIn(children));
    assert Print(Node(children, isList)) == [Opener(isList)] + inside;
  }

  /** A printed container is consumed whole if and only if it is nested at most two deep. */
  lemma PrintedContainerScans(children: seq<Tree>, isList: bool, suffix: string)
    requires forall t | t in children :: WellQuoted(t)
    ensures var t := Node(children, isList);
            ContainerLen(Print(t) + suffix) == |Print(t)| <==> NoneDeep(children)
  {
    ContainerScansExactly(children, isList, suffix);
    if !NoneDeep(children) { LeftIn(children); }
  }

  // ----- what is left behind

  /** Closing brackets, and commas of one-element tuples. */
  predicate OnlyClosers(s: string) {
    forall i :: 0 <= i < |s| ==> IsCloser(s[i]) || s[i] == ','
  }

  /** The first deep one is the last, and so inside it, down to one that holds no deep one. */
  predicate EndsDeep(ts: seq<Tree>) {
    ts != []
    && if Deep(ts[0]) then |ts| == 1 && (NoneDeep(ts[0].children) || EndsDeep(ts[0].children)) else EndsDeep(ts[1..])
  }

  lemma OnlyClosersAppend(a: string, b: string)
    ensures OnlyClosers(a + b) <==> OnlyClosers(a) && OnlyClosers(b)
  {
    assert forall i :: 0 <= i < |a| ==> (a + b)[i] == a[i];
    assert forall i :: 0 <= i < |b| ==> (a + b)[|a| + i] == b[i];
  }

  lemma DropFront(a: string, b: string, n: nat)
    requires n <= |b|
    ensures (a + b)[|a| + n..] == b[n..]
  {
  }

  /** The separator before the next one is no closing bracket. */
  lemma SpaceIsLeft(first: string, rest: string, n: nat)
    requires n <= |first|
    ensures !OnlyClosers((first + ", " + rest)[n..])
  {
    assert (first + ", " + rest)[n..][|first| + 1 - n] == ' ';
  }

  lemma {:induction false} LeftIn(ts: seq<Tree>)
    requires !NoneDeep(ts)
    ensures StopIn(ts) <= |PrintAll(ts)|
    ensures OnlyClosers(PrintAll(ts)[StopIn(ts)..]) <==> EndsDeep(ts)
    decreases ts, 1
  {
    assert ts == [ts[0]] + ts[1..];
    var first := Print(ts[0]);
    if Deep(ts[0]) {
      LeftAt(ts[0]);
      if |ts| > 1 { SpaceIsLeft(first, PrintAll(ts[1..]), StopAt(ts[0])); }
    } else {
      LeftIn(ts[1..]);
      DropFront(first + ", ", PrintAll(ts[1..]), StopIn(ts[1..]));
    }
  }

  lemma {:induction false} LeftAt(t: Tree)
    requires Deep(t)
    ensures StopAt(t) <= |Print(t)|
    ensures OnlyClosers(Print(t)[StopAt(t)..]) <==> NoneDeep(t.children) || EndsDeep(t.children)
    decreases t, 0
  {
    if !NoneDeep(t.children) {
      LeftIn(t.children);
      LeftInside(t.children, t.isList);
    }
  }

  lemma LeftInside(children: seq<Tree>, isList: bool)
    requires StopIn(children) <= |PrintAll(children)|
    ensures var t, n := Node(children, isList), 1 + StopIn(children);
            n <= |Print(t)| && (OnlyClosers(Print(t)[n..]) <==> OnlyClosers(PrintAll(children)[StopIn(children)..]))
  {
    var body, tail := PrintAll(children), Tail(isList, |children|);
    CutInside(Opener(isList), body, tail, StopIn(children));
    OnlyClosersAppend(body[StopIn(children)..], tail);
    TailIsClosers(isList, |children|);
  }

  lemma CutInside(open: char, body: string, tail: string, n: nat)
    requires n <= |body|
    ensures ([open] + body + tail)[1 + n..] == body[n..] + tail
  {
  }

  lemma TailIsClosers(isList: bool, count: nat)
    ensures OnlyClosers(Tail(isList, count))
  {
  }

  /**
   Exactly when nothing but closing brackets of a printed container is left behind the scan:
   none of its containers is deep, or the first deep one, and each deep one that it then holds
   first, comes last.
   */
  lemma OnlyClosersAreLeft(children: seq<Tree>, isList: bool, suffix: string)
    requires forall t | t in children :: WellQuoted(t)
    ensures var t := Node(children, isList);
            var n := ContainerLen(Print(t) + suffix);
            n <= |Print(t)| && (OnlyClosers(Print(t)[n..]) <==> NoneDeep(children) || EndsDeep(children))
  {
    ContainerScansExactly(children, isList, suffix);
    if !NoneDeep(children) {
      LeftIn(children);
      LeftInside(children, isList);
    }
  }

  /** Three deep, a string behind the innermost lists is left, not only closing brackets. */
  lemma DeepLeavesStrings(inner: seq<Tree>, b: Item, suffix: string)
    requires inner != [] && (forall t | t in inner :: WellQuoted(t)) && IsQuote(b.quote)
    requires NoneDeep(inner) && exists t | t in inner :: t.Node?
    ensures var t := Node([Node(inner, true), Leaf(b)], true);
            ContainerLen(Print(t) + suffix) == |Print(t)| - |", " + PrintItem(b) + "]"|
  {
    var first := Node(inner, true);
    var children := [first, Leaf(b)];
    assert Deep(first) && first in children;
    ContainerScansExactly(children, true, suffix);
    assert StopIn(children) == |Print(first)|;
    TwoPrinted(first, Leaf(b));
    assert Print(Leaf(b)) == PrintItem(b) && Tail(true, 2) == "]";
  }

  lemma TwoPrinted(a: Tree, b: Tree)
    ensures PrintAll([a, b]) == Print(a) + ", " + Print(b)
  {
    assert [a, b][1..] == [b];
  }
}
