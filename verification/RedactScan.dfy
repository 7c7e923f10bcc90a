/**
 The scan-and-replace of the value-based redactor: leftmost match, first alternative,
 non-overlapping; and why nothing it was given survives it.
 */
module RedactScan {
  import opened Wrappers
  import opened Sequences
  import opened RedactPattern

  const REDACTED := "<redacted>"

  /** The alternation at the start of `t`: the first pattern that matches wins. */
  function FirstMatch(ps: seq<seq<Atom>>, t: string): (r: Option<nat>)
    ensures r.Some? ==> r.value <= |t|
  {
    if ps == [] then None
    else if MatchLen(ps[0], t).Some? then MatchLen(ps[0], t)
    else FirstMatch(ps[1..], t)
  }

  lemma {:induction false} FirstMatchFound(ps: seq<seq<Atom>>, t: string) returns (p: seq<Atom>)
    requires FirstMatch(ps, t).Some?
    ensures p in ps && MatchLen(p, t) == FirstMatch(ps, t)
  {
    if MatchLen(ps[0], t).Some? {
      p := ps[0];
    } else {
      p := FirstMatchFound(ps[1..], t);
      assert ps == [ps[0]] + ps[1..];
    }
  }

  lemma {:induction false} FirstMatchMissed(ps: seq<seq<Atom>>, t: string, p: seq<Atom>)
    requires FirstMatch(ps, t).None? && p in ps
    ensures MatchLen(p, t).None?
  {
    assert ps == [ps[0]] + ps[1..];
    if p != ps[0] { FirstMatchMissed(ps[1..], t, p); }
  }

  // ----- the scan

  /** Occurrences of a text, as start and end. */
  type Spans = set<(nat, nat)>

  /** The match the alternation finds at each position of a text where it finds one. */
  type Hits = map<nat, nat>

  predicate Within(hits: Hits, text: string) {
    forall i | i in hits :: 0 < hits[i] && i + hits[i] <= |text|
  }

  /** `_mask_known_value`: an occurrence the key-name guard spares stays readable. */
  function Mask(text: string, start: nat, end: nat, spared: Spans): string
    requires start <= end <= |text|
  {
    if (start, end) in spared then text[start..end] else REDACTED
  }

  function StepLen(hits: Hits, i: nat): nat {
    if i in hits then hits[i] else 1
  }

  function StepPiece(hits: Hits, spared: Spans, text: string, i: nat): string
    requires i < |text| && Within(hits, text)
  {
    if i in hits then Mask(text, i, i + hits[i], spared) else [text[i]]
  }

  /** `pattern.sub`, from position `i` on: leftmost, non-overlapping. */
  function Sub(hits: Hits, spared: Spans, text: string, i: nat): string
    requires i <= |text| && Within(hits, text)
    decreases |text| - i
  {
    if i == |text| then ""
    else StepPiece(hits, spared, text, i) + Sub(hits, spared, text, i + StepLen(hits, i))
  }

  predicate NoEmpty(ps: seq<seq<Atom>>) {
    forall p | p in ps :: p != []
  }

  /** What the alternation of `ps` finds in `text`. */
  function HitsOf(ps: seq<seq<Atom>>, text: string): (hits: Hits)
    requires NoEmpty(ps)
    ensures Within(hits, text)
    ensures forall i :: i in hits <==> 0 <= i < |text| && FirstMatch(ps, text[i..]).Some?
    ensures forall i | i in hits :: FirstMatch(ps, text[i..]) == Some(hits[i])
  {
    var hits := map i: nat | 0 <= i < |text| && FirstMatch(ps, text[i..]).Some? :: FirstMatch(ps, text[i..]).value;
    assert Within(hits, text) by {
      forall i | i in hits ensures 0 < hits[i] && i + hits[i] <= |text| {
        var p := FirstMatchFound(ps, text[i..]);
      }
    }
    hits
  }

  lemma SubStep(hits: Hits, spared: Spans, text: string, i: nat, out: string)
    requires i < |text| && Within(hits, text)
    ensures out + StepPiece(hits, spared, text, i) + Sub(hits, spared, text, i + StepLen(hits, i))
         == out + Sub(hits, spared, text, i)
  {
    AppendAssociates(out, StepPiece(hits, spared, text, i), Sub(hits, spared, text, i + StepLen(hits, i)));
  }

  /** The scan as the loop it is. */
  method Substitute(ps: seq<seq<Atom>>, text: string, spared: Spans) returns (out: string)
    requires NoEmpty(ps)
    ensures out == Sub(HitsOf(ps, text), spared, text, 0)
  {
    var hits := HitsOf(ps, text);
    out := ScanHits(hits, spared, text);
  }

  method ScanHits(hits: Hits, spared: Spans, text: string) returns (out: string)
    requires Within(hits, text)
    ensures out == Sub(hits, spared, text, 0)
  {
    out := "";
    var i := 0;
    while i < |text|
      invariant i <= |text| && out + Sub(hits, spared, text, i) == Sub(hits, spared, text, 0)
      decreases |text| - i
    {
      SubStep(hits, spared, text, i, out);
      out, i := ScanStep(hits, spared, text, i, out);
    }
    assert out + "" == out;
  }

  /** One match replaced, or one character kept. */
  method ScanStep(hits: Hits, spared: Spans, text: string, i: nat, out: string) returns (more: string, next: nat)
    requires Within(hits, text) && i < |text|
    ensures more == out + StepPiece(hits, spared, text, i) && i < next == i + StepLen(hits, i) <= |text|
  {
    if i in hits {
      return out + Mask(text, i, i + hits[i], spared), i + hits[i];
    }
    return out + [text[i]], i + 1;
  }

  // ----- nothing is left

  lemma AtomIsLocal(a: Atom, t: string, t': string, k: nat)
    requires AtomLen(a, t) > 0 && AtomLen(a, t) <= k <= |t| && k <= |t'| && t[..k] == t'[..k]
    ensures AtomLen(a, t') == AtomLen(a, t)
  {
    assert t[..k][0] == t'[..k][0];
    if k >= 2 { assert t[..k][1] == t'[..k][1]; }
  }

  lemma CutDrop(t: string, n: nat, k: nat)
    requires n <= k <= |t|
    ensures t[n..][..k - n] == t[..k][n..]
  {
  }

  /** Whether a pattern matches depends on the matched text only. */
  lemma {:induction false} MatchIsLocal(p: seq<Atom>, t: string, t': string)
    requires MatchLen(p, t).Some? && MatchLen(p, t).value <= |t'|
    requires t[..MatchLen(p, t).value] == t'[..MatchLen(p, t).value]
    ensures MatchLen(p, t') == MatchLen(p, t)
    decreases |p|
  {
    if p != [] {
      var n, k := AtomLen(p[0], t), MatchLen(p, t).value;
      AtomIsLocal(p[0], t, t', k);
      CutDrop(t, n, k);
      CutDrop(t', n, k);
      MatchIsLocal(p[1..], t[n..], t'[n..]);
    }
  }

  predicate NoMatchAt(p: seq<Atom>, text: string, j: nat)
    requires j <= |text|
  {
    MatchLen(p, text[j..]).None?
  }

  /** `p` matches nowhere in `out`. */
  predicate Absent(p: seq<Atom>, out: string) {
    forall j :: 0 <= j <= |out| ==> NoMatchAt(p, out, j)
  }

  lemma AbsentAppend(p: seq<Atom>, piece: string, rest: string)
    requires Absent(p, rest)
    requires forall j :: 0 <= j < |piece| ==> NoMatchAt(p, piece + rest, j)
    ensures Absent(p, piece + rest)
  {
    var out := piece + rest;
    forall j | 0 <= j <= |out| ensures NoMatchAt(p, out, j) {
      if j >= |piece| {
        assert out[j..] == rest[j - |piece|..];
        assert NoMatchAt(p, rest, j - |piece|);
      }
    }
  }

  /** No match of `p` in the output begins in what the scan puts at position `i`. */
  ghost predicate PieceHoldsNone(p: seq<Atom>, hits: Hits, text: string, i: nat)
    requires i < |text| && Within(hits, text)
  {
    forall j :: 0 <= j < |StepPiece(hits, {}, text, i)| && j <= |Sub(hits, {}, text, i)| ==>
      NoMatchAt(p, Sub(hits, {}, text, i), j)
  }

  /** The output holds no match of `p` when no piece of it begins one. */
  lemma {:induction false} SubLeavesNothing(p: seq<Atom>, hits: Hits, text: string, i: nat)
    requires i <= |text| && Within(hits, text) && p != []
    requires forall k :: i <= k < |text| ==> PieceHoldsNone(p, hits, text, k)
    ensures Absent(p, Sub(hits, {}, text, i))
    decreases |text| - i
  {
    if i < |text| {
      var next := NextStep(hits, text, i);
      SubLeavesNothing(p, hits, text, next);
      PieceLeavesNothing(p, hits, text, i, next);
    } else {
      AbsentFromEnd(p);
    }
  }

  lemma AbsentFromEnd(p: seq<Atom>)
    requires p != []
    ensures Absent(p, "")
  {
  }

  lemma NextStep(hits: Hits, text: string, i: nat) returns (next: nat)
    requires i < |text| && Within(hits, text)
    ensures i < next == i + StepLen(hits, i) <= |text|
  {
    next := i + StepLen(hits, i);
  }

  lemma PieceLeavesNothing(p: seq<Atom>, hits: Hits, text: string, i: nat, next: nat)
    requires i < |text| && Within(hits, text) && PieceHoldsNone(p, hits, text, i)
    requires next == i + StepLen(hits, i) && next <= |text| && Absent(p, Sub(hits, {}, text, next))
    ensures Absent(p, Sub(hits, {}, text, i))
  {
    var out, piece, rest := Sub(hits, {}, text, i), StepPiece(hits, {}, text, i), Sub(hits, {}, text, next);
    assert out == piece + rest;
    forall j | 0 <= j < |piece| ensures NoMatchAt(p, piece + rest, j) {
      assert NoMatchAt(p, out, j);
    }
    AbsentAppend(p, piece, rest);
  }

  lemma MatchCut(p: seq<Atom>, t: string, n: nat)
    requires MatchLen(p, t) == Some(n)
    ensures Matches(p, t[..n])
  {
    assert t[..n] == t[..n][..n];
    MatchIsLocal(p, t, t[..n]);
  }

  lemma CutCut(text: string, i: nat, n: nat)
    requires i + n <= |text|
    ensures text[i..][..n] == text[i..i + n]
  {
  }

  // ----- texts that cannot overlap a placeholder

  /** One of the texts begins with the other. */
  predicate Agree(a: string, b: string) {
    a <= b || b <= a
  }

  /** The text can begin in a placeholder, at its `k`-th character. */
  predicate BeginsInside(m: string, k: nat)
    requires k <= |REDACTED|
  {
    Agree(m, REDACTED[k..])
  }

  /** The text can run into a placeholder, with its `h`-th character. */
  predicate RunsInto(m: string, h: nat)
    requires h <= |m|
  {
    Agree(m[h..], REDACTED)
  }

  /**
   No beginning of the text ends a placeholder, no end of it begins one, and neither the text
   nor the placeholder holds the other.
   */
  predicate ApartText(m: string) {
    && (forall k :: 0 <= k < |REDACTED| ==> !BeginsInside(m, k))
    && (forall h :: 0 < h < |m| ==> !RunsInto(m, h))
  }

  /** Everything the pattern matches is apart from placeholders. */
  ghost predicate Apart(p: seq<Atom>) {
    p != [] && forall m :: Matches(p, m) ==> ApartText(m)
  }

  ghost predicate AllApart(ps: seq<seq<Atom>>) {
    forall p | p in ps :: Apart(p)
  }

  lemma PrefixesAgree(whole: string, a: string, n: nat)
    requires a <= whole && n <= |whole|
    ensures Agree(whole[..n], a)
  {
  }

  /** A match that begins in a placeholder agrees with its end. */
  lemma MatchInPlaceholder(p: seq<Atom>, rest: string, j: nat) returns (m: string)
    requires j < |REDACTED| && MatchLen(p, (REDACTED + rest)[j..]).Some?
    ensures Matches(p, m) && BeginsInside(m, j)
  {
    var t := (REDACTED + rest)[j..];
    var n := MatchLen(p, t).value;
    m := t[..n];
    MatchCut(p, t, n);
    DropOfPlaceholder(rest, j);
    PrefixesAgree(t, REDACTED[j..], n);
  }

  lemma DropOfPlaceholder(rest: string, j: nat)
    requires j < |REDACTED|
    ensures REDACTED[j..] <= (REDACTED + rest)[j..]
  {
    assert (REDACTED + rest)[j..] == REDACTED[j..] + rest;
  }

  /** How far the input is kept from a position on. */
  lemma {:induction false} KeptRun(hits: Hits, text: string, i: nat) returns (h: nat)
    requires i <= |text| && Within(hits, text)
    ensures i + h <= |text| && (i + h < |text| ==> i + h in hits)
    ensures KeptOver(hits, i, i + h)
    ensures Sub(hits, {}, text, i) == text[i..i + h] + Sub(hits, {}, text, i + h)
    decreases |text| - i
  {
    if i == |text| || i in hits {
      h := 0;
    } else {
      var rest := KeptRun(hits, text, i + 1);
      h := rest + 1;
      KeptJoins(hits, text, i, h);
    }
  }

  lemma KeptJoins(hits: Hits, text: string, i: nat, h: nat)
    requires Within(hits, text) && 0 < h && i + h <= |text| && i !in hits && KeptOver(hits, i + 1, i + h)
    requires Sub(hits, {}, text, i + 1) == text[i + 1..i + h] + Sub(hits, {}, text, i + h)
    ensures Sub(hits, {}, text, i) == text[i..i + h] + Sub(hits, {}, text, i + h) && KeptOver(hits, i, i + h)
  {
    KeptStep(hits, text, i);
    KeptOneMore(text, i, h, Sub(hits, {}, text, i + h));
  }

  predicate KeptOver(hits: Hits, i: nat, n: nat) {
    forall j :: i <= j < n ==> j !in hits
  }

  lemma KeptStep(hits: Hits, text: string, i: nat)
    requires i < |text| && Within(hits, text) && i !in hits
    ensures Sub(hits, {}, text, i) == [text[i]] + Sub(hits, {}, text, i + 1)
  {
  }

  lemma KeptOneMore(text: string, i: nat, h: nat, rest: string)
    requires 0 < h && i + h <= |text|
    ensures [text[i]] + (text[i + 1..i + h] + rest) == text[i..i + h] + rest
  {
    assert text[i..i + h] == [text[i]] + text[i + 1..i + h];
  }

  lemma PlaceholderFirst(hits: Hits, text: string, i: nat) returns (rest: string)
    requires i < |text| && Within(hits, text) && i in hits
    ensures Sub(hits, {}, text, i) == REDACTED + rest
  {
    rest := Sub(hits, {}, text, i + hits[i]);
  }

  /** A match that begins in kept text, where the input has none, goes on past it. */
  lemma MatchOutlasts(p: seq<Atom>, kept: string, after: string, whole: string)
    requires kept <= whole && MatchLen(p, whole).None? && MatchLen(p, kept + after).Some?
    ensures MatchLen(p, kept + after).value > |kept|
  {
    var n := MatchLen(p, kept + after).value;
    if n <= |kept| {
      assert (kept + after)[..n] == kept[..n] == whole[..n];
      MatchIsLocal(p, kept + after, whole);
    }
  }

  lemma CutRunsInto(kept: string, rest: string, n: nat)
    requires |kept| < n <= |kept + (REDACTED + rest)|
    ensures var m := (kept + (REDACTED + rest))[..n]; m[..|kept|] == kept && RunsInto(m, |kept|)
  {
    var after := REDACTED + rest;
    var m := (kept + after)[..n];
    assert m[|kept|..] == after[..n - |kept|];
    PrefixesAgree(after, REDACTED, n - |kept|);
  }

  /** A match that begins in kept text, where the input has none, runs into a placeholder. */
  lemma MatchFromKept(p: seq<Atom>, hits: Hits, text: string, i: nat) returns (m: string, h: nat)
    requires i < |text| && Within(hits, text) && i !in hits && NoMatchAt(p, text, i)
    requires MatchLen(p, Sub(hits, {}, text, i)).Some?
    ensures Matches(p, m) && 0 < h < |m| && RunsInto(m, h)
    ensures m <= Sub(hits, {}, text, i)
    ensures i + h in hits && m[..h] == text[i..i + h] && KeptOver(hits, i, i + h)
  {
    var out := Sub(hits, {}, text, i);
    var n := MatchLen(p, out).value;
    h := KeptRun(hits, text, i);
    var kept, after := text[i..i + h], Sub(hits, {}, text, i + h);
    assert kept <= text[i..] && out == kept + after;
    MatchOutlasts(p, kept, after, text[i..]);
    var rest := PlaceholderFirst(hits, text, i + h);
    m := out[..n];
    MatchCut(p, out, n);
    CutRunsInto(kept, rest, n);
  }

  lemma KeptPiece(p: seq<Atom>, hits: Hits, text: string, i: nat)
    requires i < |text| && Within(hits, text) && i !in hits
    ensures PieceHoldsNone(p, hits, text, i) <==> MatchLen(p, Sub(hits, {}, text, i)).None?
  {
    var out := Sub(hits, {}, text, i);
    assert out[0..] == out && |StepPiece(hits, {}, text, i)| == 1;
    assert MatchLen(p, out).None? <==> NoMatchAt(p, out, 0);
  }

  /** Completeness of the scan, piece by piece: whatever overlaps what in the input. */
  lemma ApartPiece(p: seq<Atom>, hits: Hits, text: string, i: nat)
    requires i < |text| && Within(hits, text) && Apart(p)
    requires i !in hits ==> NoMatchAt(p, text, i)
    ensures PieceHoldsNone(p, hits, text, i)
  {
    if i in hits {
      var rest := PlaceholderFirst(hits, text, i);
      forall j | 0 <= j < |REDACTED| ensures NoMatchAt(p, REDACTED + rest, j) {
        if MatchLen(p, (REDACTED + rest)[j..]).Some? {
          var m := MatchInPlaceholder(p, rest, j);
        }
      }
    } else {
      KeptPiece(p, hits, text, i);
      if MatchLen(p, Sub(hits, {}, text, i)).Some? {
        var m, h := MatchFromKept(p, hits, text, i);
      }
    }
  }

  /** After the scan for patterns apart from placeholders, none of them matches anywhere. */
  lemma ScanIsComplete(ps: seq<seq<Atom>>, text: string, p: seq<Atom>)
    requires p in ps && AllApart(ps) && NoEmpty(ps)
    ensures Absent(p, Sub(HitsOf(ps, text), {}, text, 0))
  {
    var hits := HitsOf(ps, text);
    forall i | 0 <= i < |text| ensures PieceHoldsNone(p, hits, text, i) {
      if i !in hits { FirstMatchMissed(ps, text[i..], p); }
      ApartPiece(p, hits, text, i);
    }
    SubLeavesNothing(p, hits, text, 0);
  }

  /** The text of a hit is one whole match of one of the patterns. */
  lemma HitIsMatch(ps: seq<seq<Atom>>, text: string, i: nat) returns (p: seq<Atom>)
    requires NoEmpty(ps) && i in HitsOf(ps, text)
    ensures p in ps && Matches(p, text[i..i + HitsOf(ps, text)[i]])
  {
    p := FirstMatchFound(ps, text[i..]);
    MatchCut(p, text[i..], HitsOf(ps, text)[i]);
    CutCut(text, i, HitsOf(ps, text)[i]);
  }
}
