/**
 Text theory behind the event-stream parser: line-ending normalisation, and
 cutting a normalised text at its blank lines.
 */
module SseText {
  import opened Sequences

  /** The first of the two global replacements: every CR LF pair becomes LF. */
  function CrlfToLf(s: string): string {
    if |s| < 2 then s
    else if s[0] == '\r' && s[1] == '\n' then "\n" + CrlfToLf(s[2..])
    else [s[0]] + CrlfToLf(s[1..])
  }

  /** The second global replacement: every remaining CR becomes LF. */
  function CrToLf(s: string): string {
    if s == "" then "" else [if s[0] == '\r' then '\n' else s[0]] + CrToLf(s[1..])
  }

  function Normalize(s: string): string {
    CrToLf(CrlfToLf(s))
  }

  predicate EndsWithCr(s: string) {
    s != "" && s[|s| - 1] == '\r'
  }

  predicate StartsWithLf(s: string) {
    s != "" && s[0] == '\n'
  }

  function Concat(chunks: seq<string>): string {
    if chunks == [] then "" else Concat(chunks[..|chunks| - 1]) + chunks[|chunks| - 1]
  }

  lemma {:induction false} CrlfToLfAppend(a: string, b: string)
    requires !(EndsWithCr(a) && StartsWithLf(b))
    ensures CrlfToLf(a + b) == CrlfToLf(a) + CrlfToLf(b)
  {
    if a == "" {
      assert a + b == b;
    } else if |a| == 1 {
      assert (a + b)[1..] == b;
      if b == "" { assert a + b == a; }
    } else if a[0] == '\r' && a[1] == '\n' {
      var rest := a[2..];
      assert (a + b)[2..] == rest + b;
      CrlfToLfAppend(rest, b);
      AppendAssociates("\n", CrlfToLf(rest), CrlfToLf(b));
    } else {
      var rest := a[1..];
      assert (a + b)[1..] == rest + b;
      CrlfToLfAppend(rest, b);
      AppendAssociates([a[0]], CrlfToLf(rest), CrlfToLf(b));
    }
  }

  lemma {:induction false} CrToLfAppend(a: string, b: string)
    ensures CrToLf(a + b) == CrToLf(a) + CrToLf(b)
  {
    if a == "" {
      assert a + b == b;
    } else {
      assert (a + b)[1..] == a[1..] + b;
      CrToLfAppend(a[1..], b);
    }
  }

  /** Normalising in two pieces is normalising the whole, unless a CR LF pair is cut in half. */
  lemma NormalizeAppend(a: string, b: string)
    requires !(EndsWithCr(a) && StartsWithLf(b))
    ensures Normalize(a + b) == Normalize(a) + Normalize(b)
  {
    CrlfToLfAppend(a, b);
    CrToLfAppend(CrlfToLf(a), CrlfToLf(b));
  }

  /** All of `s` but a trailing CR: what may be normalised before the next chunk is known. */
  function WithoutTrailingCr(s: string): string {
    if EndsWithCr(s) then s[..|s| - 1] else s
  }

  /** Text held back at a trailing CR is never wrongly normalised, whatever follows. */
  lemma NormalizeHeldBack(s: string, more: string)
    ensures Normalize(s + more)
         == Normalize(WithoutTrailingCr(s)) + Normalize((if EndsWithCr(s) then "\r" else "") + more)
  {
    var tail := (if EndsWithCr(s) then "\r" else "") + more;
    assert s + more == WithoutTrailingCr(s) + tail;
    NormalizeAppend(WithoutTrailingCr(s), tail);
  }

  lemma {:induction false} ConcatPrefix(chunks: seq<string>, k: nat)
    requires k <= |chunks|
    ensures Concat(chunks[..k]) <= Concat(chunks)
    decreases |chunks|
  {
    if k < |chunks| {
      var init := chunks[..|chunks| - 1];
      ConcatPrefix(init, k);
      assert init[..k] == chunks[..k];
    } else {
      assert chunks[..k] == chunks;
    }
  }

  lemma NormalizeHasNoCr(s: string)
    ensures '\r' !in Normalize(s)
  {
    CrToLfHasNoCr(CrlfToLf(s));
  }

  lemma {:induction false} CrToLfHasNoCr(s: string)
    ensures '\r' !in CrToLf(s)
  {
    if s != "" { CrToLfHasNoCr(s[1..]); }
  }

  predicate BlankAt(s: string, i: int) {
    0 <= i && i + 2 <= |s| && s[i] == '\n' && s[i + 1] == '\n'
  }

  /** Position of the first blank-line boundary (two adjacent LFs), or -1. */
  function Boundary(s: string): (b: int)
    ensures b == -1 || BlankAt(s, b)
    ensures forall i :: BlankAt(s, i) ==> 0 <= b <= i
  {
    if |s| < 2 then -1
    else if BlankAt(s, 0) then 0
    else
      var rest := Boundary(s[1..]);
      assert forall i :: BlankAt(s, i) ==> i > 0 && BlankAt(s[1..], i - 1);
      if rest == -1 then -1 else rest + 1
  }

  /** The frames of a normalised text: what precedes each blank line, leftmost first. */
  function Frames(s: string): seq<string> {
    var b := Boundary(s);
    if b == -1 then [] else [s[..b]] + Frames(s[b + 2..])
  }

  /** What follows the last blank line. */
  function Rest(s: string): string {
    var b := Boundary(s);
    if b == -1 then s else Rest(s[b + 2..])
  }

  lemma BoundaryUnique(s: string, b: nat)
    requires BlankAt(s, b) && forall i :: BlankAt(s, i) ==> b <= i
    ensures Boundary(s) == b
  {
  }

  lemma BoundaryAppend(a: string, b: string)
    requires Boundary(a) != -1
    ensures Boundary(a + b) == Boundary(a)
  {
    var k := Boundary(a);
    assert BlankAt(a + b, k);
    forall i | BlankAt(a + b, i) ensures k <= i {
      if i < k { assert BlankAt(a, i); }
    }
    BoundaryUnique(a + b, k);
  }

  lemma {:induction false} RestIsSuffix(s: string)
    ensures |Rest(s)| <= |s| && Rest(s) == s[|s| - |Rest(s)|..]
    decreases |s|
  {
    if Boundary(s) != -1 { RestIsSuffix(s[Boundary(s) + 2..]); }
  }

  /** What is left over after cutting holds no blank-line boundary. */
  lemma {:induction false} RestHasNoBoundary(s: string)
    ensures Boundary(Rest(s)) == -1
    decreases |s|
  {
    if Boundary(s) != -1 { RestHasNoBoundary(s[Boundary(s) + 2..]); }
  }

  lemma CutAppend(a: string, b: string, k: nat)
    requires k + 2 <= |a|
    ensures (a + b)[k + 2..] == a[k + 2..] + b && (a + b)[..k] == a[..k]
  {
  }

  lemma {:induction false} RestAppend(a: string, b: string)
    ensures Rest(a + b) == Rest(Rest(a) + b)
    decreases |a|
  {
    var k := Boundary(a);
    if k != -1 {
      BoundaryAppend(a, b);
      CutAppend(a, b, k);
      RestAppend(a[k + 2..], b);
    }
  }

  lemma FramesCons(s: string)
    requires Boundary(s) != -1
    ensures Frames(s) == [s[..Boundary(s)]] + Frames(s[Boundary(s) + 2..])
    ensures Rest(s) == Rest(s[Boundary(s) + 2..])
  {
  }

  /** Cutting is incremental: keep only what follows the last blank line, and go on from it. */
  lemma {:induction false} FramesAppend(a: string, b: string)
    ensures Frames(a + b) == Frames(a) + Frames(Rest(a) + b)
    decreases |a|
  {
    var k := Boundary(a);
    if k == -1 {
      assert Frames(a) == [] && Rest(a) == a;
    } else {
      var tail := a[k + 2..];
      BoundaryAppend(a, b);
      CutAppend(a, b, k);
      FramesAppend(tail, b);
      FramesCons(a);
      FramesCons(a + b);
      AppendAssociates([a[..k]], Frames(tail), Frames(Rest(tail) + b));
    }
  }

  // ----- the other two line endings

  /** Write every LF of `s` as `ending`. */
  function WithEnding(s: string, ending: string): string {
    if s == "" then ""
    else (if s[0] == '\n' then ending else [s[0]]) + WithEnding(s[1..], ending)
  }

  predicate IsLineEnding(ending: string) {
    ending == "\n" || ending == "\r\n" || ending == "\r"
  }

  lemma {:induction false} NormalizeWithEnding(s: string, ending: string)
    requires '\r' !in s && IsLineEnding(ending)
    ensures Normalize(WithEnding(s, ending)) == s
  {
    if s != "" {
      var head := if s[0] == '\n' then ending else [s[0]];
      var tail := WithEnding(s[1..], ending);
      NormalizeWithEnding(s[1..], ending);
      assert CrlfToLf(head) == head || head == "\r\n";
      assert Normalize(head) == [s[0]] by {
        if head == "\r\n" {
          assert CrlfToLf(head) == "\n" + CrlfToLf("");
        }
        assert CrToLf("\n") == "\n" + CrToLf("") == "\n";
        assert CrToLf("\r") == "\n" + CrToLf("") == "\n";
        assert CrToLf([s[0]]) == [s[0]] + CrToLf("");
      }
      if s[1..] != "" && ending == "\r" && s[0] == '\n' {
        assert tail[0] != '\n';
      }
      NormalizeAppend(head, tail);
      assert s == [s[0]] + s[1..];
    }
  }
}
