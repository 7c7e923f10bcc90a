/**
 A pattern of an alternation that survives in some output survives in a short one: checking
 short outputs decides whether a scan is complete, whatever the patterns.
 */
module RedactShort {
  import opened Wrappers
  import opened RedactPattern
  import opened RedactScan
  import opened RedactExact

  lemma FirstMatchIsPositive(ps: seq<seq<Atom>>, t: string)
    requires NoEmpty(ps) && FirstMatch(ps, t).Some?
    ensures 0 < FirstMatch(ps, t).value <= |t|
  {
    var p := FirstMatchFound(ps, t);
  }

  /** The scan, as a function of the remaining text alone. */
  function Output(ps: seq<seq<Atom>>, t: string): string
    requires NoEmpty(ps)
    decreases |t|
  {
    if t == "" then ""
    else
      match FirstMatch(ps, t)
      case None => [t[0]] + Output(ps, t[1..])
      case Some(n) => FirstMatchIsPositive(ps, t); REDACTED + Output(ps, t[n..])
  }

  /** What the scan does first to a text: the piece it puts, and how far it goes. */
  lemma FirstStep(ps: seq<seq<Atom>>, t: string) returns (piece: string, n: nat)
    requires NoEmpty(ps) && t != ""
    ensures StepsTo(ps, t, piece, n) && Output(ps, t) == piece + Output(ps, t[n..])
  {
    if FirstMatch(ps, t).Some? {
      FirstMatchIsPositive(ps, t);
      piece, n := REDACTED, FirstMatch(ps, t).value;
    } else {
      piece, n := [t[0]], 1;
    }
  }

  predicate StepsTo(ps: seq<seq<Atom>>, t: string, piece: string, n: nat) {
    && 0 < n <= |t| && 0 < |piece| <= |REDACTED|
    && ((FirstMatch(ps, t) == Some(n) && piece == REDACTED) || (FirstMatch(ps, t) == None && n == 1 && piece == [t[0]]))
  }

  /** A cut after the first step changes nothing in it. */
  lemma StepOfCut(ps: seq<seq<Atom>>, t: string, piece: string, n: nat, e: nat)
    requires StepsTo(ps, t, piece, n) && n <= e <= |t|
    ensures StepsTo(ps, t[..e], piece, n)
  {
    if FirstMatch(ps, t).Some? {
      FirstMatchCut(ps, t[..e], t);
    } else if FirstMatch(ps, t[..e]).Some? {
      FirstMatchExtends(ps, t[..e], t);
    }
  }

  lemma OutputOfStep(ps: seq<seq<Atom>>, t: string, piece: string, n: nat)
    requires NoEmpty(ps) && StepsTo(ps, t, piece, n)
    ensures Output(ps, t) == piece + Output(ps, t[n..])
  {
  }

  /** The hits say what the first step from each position is. */
  ghost predicate StepsAt(ps: seq<seq<Atom>>, text: string, hits: Hits, i: nat)
    requires i < |text| && Within(hits, text)
  {
    StepsTo(ps, text[i..], StepPiece(hits, {}, text, i), StepLen(hits, i))
  }

  lemma HitIsStep(ps: seq<seq<Atom>>, text: string, i: nat)
    requires NoEmpty(ps) && i < |text|
    ensures StepsAt(ps, text, HitsOf(ps, text), i)
  {
    assert text[i..][0] == text[i];
    if FirstMatch(ps, text[i..]).Some? { FirstMatchIsPositive(ps, text[i..]); }
  }

  lemma {:induction false} ScanIsOutput(ps: seq<seq<Atom>>, text: string, hits: Hits, i: nat)
    requires NoEmpty(ps) && i <= |text| && Within(hits, text)
    requires AllSteps(ps, text, hits)
    ensures Sub(hits, {}, text, i) == Output(ps, text[i..])
    decreases |text| - i
  {
    if i < |text| {
      var next := NextStep(hits, text, i);
      ScanIsOutput(ps, text, hits, next);
      ScanStep(ps, text, hits, i, next);
    } else {
      assert text[i..] == "";
    }
  }

  lemma ScanStep(ps: seq<seq<Atom>>, text: string, hits: Hits, i: nat, next: nat)
    requires NoEmpty(ps) && i < |text| && Within(hits, text) && AllSteps(ps, text, hits)
    requires next == i + StepLen(hits, i) && next <= |text| && Sub(hits, {}, text, next) == Output(ps, text[next..])
    ensures Sub(hits, {}, text, i) == Output(ps, text[i..])
  {
    StepAgrees(ps, text, hits, i);
    SubUnfolds(hits, text, i, next);
  }

  lemma SubUnfolds(hits: Hits, text: string, i: nat, next: nat)
    requires i < |text| && Within(hits, text) && next == i + StepLen(hits, i)
    ensures Sub(hits, {}, text, i) == StepPiece(hits, {}, text, i) + Sub(hits, {}, text, next)
  {
  }

  ghost predicate AllSteps(ps: seq<seq<Atom>>, text: string, hits: Hits)
    requires Within(hits, text)
  {
    forall j :: 0 <= j < |text| ==> StepsAt(ps, text, hits, j)
  }

  lemma StepAgrees(ps: seq<seq<Atom>>, text: string, hits: Hits, i: nat)
    requires NoEmpty(ps) && i < |text| && Within(hits, text) && AllSteps(ps, text, hits)
    ensures var n := StepLen(hits, i);
            && 0 < n && i + n <= |text|
            && Output(ps, text[i..]) == StepPiece(hits, {}, text, i) + Output(ps, text[i + n..])
  {
    var piece, n := StepPiece(hits, {}, text, i), StepLen(hits, i);
    assert StepsAt(ps, text, hits, i);
    OutputOfStep(ps, text[i..], piece, n);
    DropDrop(text, i, n);
  }

  lemma DropDrop(t: string, i: nat, n: nat)
    requires i + n <= |t|
    ensures t[i..][n..] == t[i + n..]
  {
  }

  lemma MaskedIsOutput(ps: seq<seq<Atom>>, text: string)
    requires NoEmpty(ps)
    ensures Masked(ps, text) == Output(ps, text)
  {
    forall i | 0 <= i < |text| ensures StepsAt(ps, text, HitsOf(ps, text), i) {
      HitIsStep(ps, text, i);
    }
    ScanIsOutput(ps, text, HitsOf(ps, text), 0);
    assert text[0..] == text;
  }

  /** Up to a cut after the first step the output is the same piece and the output of the rest. */
  lemma CutAfterStep(ps: seq<seq<Atom>>, t: string, piece: string, n: nat, f: nat)
    requires NoEmpty(ps) && StepsTo(ps, t, piece, n) && n + f <= |t|
    ensures Output(ps, t[..n + f]) == piece + Output(ps, t[n..][..f])
  {
    StepOfCut(ps, t, piece, n, n + f);
    OutputOfStep(ps, t[..n + f], piece, n);
    assert t[..n + f][n..] == t[n..][..f];
  }

  lemma JoinWindow(piece: string, rest: string, inner: string, k: nat)
    requires inner <= rest && 0 < |piece| <= |REDACTED| && k > 0
    requires if k <= |piece| then inner == "" else k - |piece| <= |inner| < k - |piece| + |REDACTED|
    ensures piece + inner <= piece + rest && k <= |piece + inner| < k + |REDACTED|
  {
  }

  /** A beginning of the text whose output covers `k` characters of the output, and few more. */
  lemma {:induction false} Window(ps: seq<seq<Atom>>, t: string, k: nat) returns (e: nat)
    requires NoEmpty(ps) && k <= |Output(ps, t)|
    ensures e <= |t| && Output(ps, t[..e]) <= Output(ps, t)
    ensures if k == 0 then Output(ps, t[..e]) == "" else k <= |Output(ps, t[..e])| < k + |REDACTED|
    decreases |t|
  {
    if k == 0 {
      e := 0;
    } else {
      var piece, n := FirstStep(ps, t);
      var rest := t[n..];
      var f := Window(ps, rest, if k <= |piece| then 0 else k - |piece|);
      CutAfterStep(ps, t, piece, n, f);
      JoinWindow(piece, Output(ps, rest), Output(ps, rest[..f]), k);
      e := n + f;
    }
  }

  lemma {:induction false} MatchIsShort(p: seq<Atom>, t: string)
    ensures MatchLen(p, t).Some? ==> MatchLen(p, t).value <= 2 * |p|
    decreases |p|
  {
    if p != [] { MatchIsShort(p[1..], t[AtomLen(p[0], t)..]); }
  }

  /** A match behind the first piece is one in the output of what is left. */
  lemma HeldByRest(p: seq<Atom>, piece: string, rest: string, k: nat)
    requires |piece| <= k <= |piece + rest| && !NoMatchAt(p, piece + rest, k)
    ensures !Absent(p, rest)
  {
    assert (piece + rest)[k..] == rest[k - |piece|..];
    assert !NoMatchAt(p, rest, k - |piece|);
  }

  /** A match that begins in the first piece is in the output of a beginning of the text. */
  lemma HeldByWindow(ps: seq<seq<Atom>>, p: seq<Atom>, t: string, k: nat) returns (short: string)
    requires NoEmpty(ps) && k <= |REDACTED| && k <= |Output(ps, t)| && !NoMatchAt(p, Output(ps, t), k)
    ensures !Absent(p, Output(ps, short)) && |Output(ps, short)| < 2 * |p| + 2 * |REDACTED|
  {
    var n := MatchLen(p, Output(ps, t)[k..]).value;
    MatchIsShort(p, Output(ps, t)[k..]);
    var e := Window(ps, t, k + n);
    short := t[..e];
    StillMatches(p, Output(ps, t), Output(ps, short), k, n);
  }

  /** A surviving match has a short output it survives in. */
  lemma {:induction false} SurvivesShortly(ps: seq<seq<Atom>>, p: seq<Atom>, text: string) returns (short: string)
    requires NoEmpty(ps) && !Absent(p, Output(ps, text))
    ensures !Absent(p, Output(ps, short)) && |Output(ps, short)| < 2 * |p| + 2 * |REDACTED|
    decreases |text|
  {
    var k :| 0 <= k <= |Output(ps, text)| && !NoMatchAt(p, Output(ps, text), k);
    if text == "" || k <= |REDACTED| {
      short := HeldByWindow(ps, p, text, k);
    } else {
      var piece, n := FirstStep(ps, text);
      HeldByRest(p, piece, Output(ps, text[n..]), k);
      short := SurvivesShortly(ps, p, text[n..]);
    }
  }

  lemma StillMatches(p: seq<Atom>, out: string, cut: string, o: nat, n: nat)
    requires cut <= out && o + n <= |cut| && MatchLen(p, out[o..]) == Some(n)
    ensures !Absent(p, cut)
  {
    assert out[o..][..n] == cut[o..][..n];
    MatchIsLocal(p, out[o..], cut[o..]);
    assert !NoMatchAt(p, cut, o);
  }

  /**
   For any alternation and any pattern, escapes and all: it is absent from every output if and
   only if it is absent from the outputs shorter than twice its length and two placeholders.
   */
  lemma ShortOutputsDecide(ps: seq<seq<Atom>>, p: seq<Atom>)
    requires NoEmpty(ps) && p != []
    ensures (forall text :: Absent(p, Masked(ps, text)))
       <==> (forall text | |Masked(ps, text)| < 2 * |p| + 2 * |REDACTED| :: Absent(p, Masked(ps, text)))
  {
    if text :| !Absent(p, Masked(ps, text)) {
      MaskedIsOutput(ps, text);
      var short := SurvivesShortly(ps, p, text);
      MaskedIsOutput(ps, short);
    }
  }
}
