/**
 Exactly which renderings can survive the scan of a whole alternation: those that can begin
 inside a placeholder, or run into one while their own beginning stays kept in front of it.
 */
module RedactExact {
  import opened Wrappers
  import opened Sequences
  import opened RedactPattern
  import opened RedactScan
  import opened RedactApart
  import opened RedactKnown

  /** The output of the scan when nothing is spared. */
  function Masked(ps: seq<seq<Atom>>, text: string): string
    requires NoEmpty(ps)
  {
    Sub(HitsOf(ps, text), {}, text, 0)
  }

  /** What must follow a placeholder for the value, cut there, to go on. */
  function Beyond(v: string, placeholder: string): string {
    if |v| <= |placeholder| then "" else v[|placeholder|..]
  }

  predicate Hit(ps: seq<seq<Atom>>, text: string, j: nat)
    requires j <= |text|
  {
    FirstMatch(ps, text[j..]).Some?
  }

  predicate NoHitIn(ps: seq<seq<Atom>>, text: string, i: nat, end: nat)
    requires end <= |text|
  {
    forall j :: i <= j < end ==> !Hit(ps, text, j)
  }

  /** The beginning of `m`, some text the scan masks, and what lets `m` go on after a placeholder. */
  function Exposing(m: string, h: nat, w: string): string
    requires h <= |m|
  {
    m[..h] + w + Beyond(m[h..], REDACTED)
  }

  /** In that text the beginning of `m` is kept, and exactly `w` is masked after it. */
  predicate Exposed(ps: seq<seq<Atom>>, m: string, h: nat, w: string)
    requires h <= |m|
  {
    && RunsInto(m, h) && NoHitIn(ps, Exposing(m, h, w), 0, h)
    && FirstMatch(ps, Exposing(m, h, w)[h..]) == Some(|w|)
  }

  /** The condition: a beginning inside a placeholder, or an exposed run into one. */
  ghost predicate Survivable(ps: seq<seq<Atom>>, m: string) {
    || (exists k :: 0 <= k < |REDACTED| && BeginsInside(m, k))
    || (exists h, w :: 0 < h < |m| && Exposed(ps, m, h, w))
  }

  /** After a placeholder that it holds, the text does not run into another. */
  predicate HoldsNoSecond(m: string) {
    forall h, g :: 0 < h && h + |REDACTED| <= g < |m| && RunsInto(m, h) ==> !RunsInto(m, g)
  }

  // ----- a match depends on the matched text only

  lemma {:induction false} FirstMatchExtends(ps: seq<seq<Atom>>, t: string, whole: string)
    requires t <= whole && FirstMatch(ps, t).Some?
    ensures FirstMatch(ps, whole).Some?
  {
    if MatchLen(ps[0], t).Some? {
      MatchIsLocal(ps[0], t, whole);
    } else {
      FirstMatchExtends(ps[1..], t, whole);
    }
  }

  lemma {:induction false} FirstMatchCut(ps: seq<seq<Atom>>, t: string, whole: string)
    requires t <= whole && FirstMatch(ps, whole).Some? && FirstMatch(ps, whole).value <= |t|
    ensures FirstMatch(ps, t) == FirstMatch(ps, whole)
  {
    if MatchLen(ps[0], whole).Some? {
      MatchIsLocal(ps[0], whole, t);
    } else {
      if MatchLen(ps[0], t).Some? { MatchIsLocal(ps[0], t, whole); }
      FirstMatchCut(ps[1..], t, whole);
    }
  }

  lemma DropPrefix(t: string, whole: string, i: nat, j: nat)
    requires i <= |whole| && t <= whole[i..] && j <= |t|
    ensures t[j..] <= whole[i + j..]
  {
    assert whole[i..][j..] == whole[i + j..];
    assert whole[i..] == t + whole[i..][|t|..];
  }

  /** A part of a text, cut at the end of a masked match, is scanned as it was in the text. */
  lemma CutScansAlike(ps: seq<seq<Atom>>, text: string, i: nat, t: string, h: nat, n: nat)
    requires i <= |text| && t <= text[i..] && h + n <= |t|
    requires NoHitIn(ps, text, i, i + h) && FirstMatch(ps, text[i + h..]) == Some(n)
    ensures NoHitIn(ps, t, 0, h) && FirstMatch(ps, t[h..]) == Some(n)
  {
    forall j | 0 <= j < h ensures !Hit(ps, t, j) {
      DropPrefix(t, text, i, j);
      assert !Hit(ps, text, i + j);
      if Hit(ps, t, j) { FirstMatchExtends(ps, t[j..], text[i + j..]); }
    }
    DropPrefix(t, text, i, h);
    FirstMatchCut(ps, t[h..], text[i + h..]);
  }

  // ----- what is not survivable is absent

  /** After the first placeholder of an occurrence, its remainder is kept text. */
  lemma RemainderIsKept(hits: Hits, text: string, e: nat, m: string, h: nat)
    requires Within(hits, text) && e <= |text| && 0 < h < |m| && RunsInto(m, h) && HoldsNoSecond(m)
    requires Beyond(m[h..], REDACTED) <= Sub(hits, {}, text, e)
    ensures Beyond(m[h..], REDACTED) <= text[e..]
  {
    var b, out := Beyond(m[h..], REDACTED), Sub(hits, {}, text, e);
    var r := KeptRun(hits, text, e);
    if r < |b| {
      var rest := PlaceholderFirst(hits, text, e + r);
      RunsAgain(m, h, out, r, rest);
    } else {
      assert b <= text[e..e + r] <= text[e..];
    }
  }

  /** Where a placeholder cuts into the remainder, the text runs into it. */
  lemma RunsAgain(m: string, h: nat, out: string, r: nat, rest: string)
    requires h <= |m| && Beyond(m[h..], REDACTED) <= out && r < |Beyond(m[h..], REDACTED)|
    requires out[r..] == REDACTED + rest
    ensures h + |REDACTED| + r < |m| && RunsInto(m, h + |REDACTED| + r)
  {
    var b := Beyond(m[h..], REDACTED);
    assert m[h + |REDACTED| + r..] == b[r..];
    assert b[r..] == out[r..][..|b| - r];
    PrefixesAgree(out[r..], REDACTED, |b| - r);
  }

  lemma ThreeParts(a: string, b: string, c: string, text: string, i: nat)
    requires i + |a| + |b| <= |text| && a == text[i..i + |a|]
    requires b == text[i + |a|..i + |a| + |b|] && c <= text[i + |a| + |b|..]
    ensures a + b + c <= text[i..]
  {
    assert text[i..] == a + b + text[i + |a| + |b|..];
  }

  /** An occurrence that starts in kept text, and the input text it comes from. */
  lemma OccurrenceComesFrom(hits: Hits, text: string, i: nat, m: string, h: nat) returns (w: string)
    requires Within(hits, text) && i + h < |text| && 0 < h < |m| && RunsInto(m, h) && HoldsNoSecond(m)
    requires i + h in hits && KeptOver(hits, i, i + h) && m[..h] == text[i..i + h]
    requires m <= Sub(hits, {}, text, i)
    ensures |w| == hits[i + h] && Exposing(m, h, w) <= text[i..]
  {
    var e := i + h + hits[i + h];
    w := text[i + h..e];
    AfterPlaceholder(hits, text, i, m, h);
    RemainderIsKept(hits, text, e, m, h);
    ThreeParts(m[..h], w, Beyond(m[h..], REDACTED), text, i);
  }

  lemma AfterPlaceholder(hits: Hits, text: string, i: nat, m: string, h: nat)
    requires Within(hits, text) && i + h < |text| && h < |m| && m[..h] == text[i..i + h]
    requires i + h in hits && KeptOver(hits, i, i + h) && m <= Sub(hits, {}, text, i)
    ensures Beyond(m[h..], REDACTED) <= Sub(hits, {}, text, i + h + hits[i + h])
  {
    KeptThenMasked(hits, text, i, h);
    RemainderFollows(m, h, Sub(hits, {}, text, i + h + hits[i + h]));
  }

  lemma KeptHasNoHit(ps: seq<seq<Atom>>, text: string, i: nat, end: nat)
    requires NoEmpty(ps) && end <= |text| && KeptOver(HitsOf(ps, text), i, end)
    ensures NoHitIn(ps, text, i, end)
  {
    forall j | i <= j < end ensures !Hit(ps, text, j) {
      assert j !in HitsOf(ps, text);
    }
  }

  /** An occurrence that starts in kept text exposes what it is an occurrence of. */
  lemma OccurrenceExposes(ps: seq<seq<Atom>>, text: string, i: nat, m: string, h: nat)
    requires NoEmpty(ps) && i + h < |text| && 0 < h < |m| && RunsInto(m, h) && HoldsNoSecond(m)
    requires var hits := HitsOf(ps, text);
             && i + h in hits && KeptOver(hits, i, i + h) && m[..h] == text[i..i + h]
             && m <= Sub(hits, {}, text, i)
    ensures exists w :: Exposed(ps, m, h, w)
  {
    KeptHasNoHit(ps, text, i, i + h);
    var w := OccurrenceComesFrom(HitsOf(ps, text), text, i, m, h);
    CutScansAlike(ps, text, i, Exposing(m, h, w), h, |w|);
    assert Exposed(ps, m, h, w);
  }

  lemma KeptThenMasked(hits: Hits, text: string, i: nat, h: nat)
    requires Within(hits, text) && i + h < |text| && i + h in hits && KeptOver(hits, i, i + h)
    ensures Sub(hits, {}, text, i) == text[i..i + h] + (REDACTED + Sub(hits, {}, text, i + h + hits[i + h]))
  {
    var r := KeptRun(hits, text, i);
    assert r == h;
  }

  lemma RemainderFollows(m: string, h: nat, rest: string)
    requires h <= |m| && m <= m[..h] + (REDACTED + rest)
    ensures Beyond(m[h..], REDACTED) <= rest
  {
    var out := m[..h] + (REDACTED + rest);
    assert out[h..] == REDACTED + rest && m[h..] <= out[h..];
    assert out[h..][|REDACTED|..] == rest;
  }

  lemma UnsurvivablePiece(ps: seq<seq<Atom>>, p: seq<Atom>, text: string, i: nat)
    requires NoEmpty(ps) && p in ps && i < |text|
    requires forall m :: Matches(p, m) ==> !Survivable(ps, m) && HoldsNoSecond(m)
    ensures PieceHoldsNone(p, HitsOf(ps, text), text, i)
  {
    var hits := HitsOf(ps, text);
    if i in hits {
      var rest := PlaceholderFirst(hits, text, i);
      forall j | 0 <= j < |REDACTED| ensures NoMatchAt(p, REDACTED + rest, j) {
        if MatchLen(p, (REDACTED + rest)[j..]).Some? {
          var m := MatchInPlaceholder(p, rest, j);
        }
      }
    } else {
      KeptPiece(p, hits, text, i);
      FirstMatchMissed(ps, text[i..], p);
      if MatchLen(p, Sub(hits, {}, text, i)).Some? {
        var m, h := MatchFromKept(p, hits, text, i);
        OccurrenceExposes(ps, text, i, m, h);
      }
    }
  }

  /** In any alternation: a pattern none of whose matches is survivable is absent from every output. */
  lemma UnsurvivableIsAbsent(ps: seq<seq<Atom>>, p: seq<Atom>, text: string)
    requires NoEmpty(ps) && p in ps
    requires forall m :: Matches(p, m) ==> !Survivable(ps, m) && HoldsNoSecond(m)
    ensures Absent(p, Masked(ps, text))
  {
    forall i | 0 <= i < |text| ensures PieceHoldsNone(p, HitsOf(ps, text), text, i) {
      UnsurvivablePiece(ps, p, text, i);
    }
    SubLeavesNothing(p, HitsOf(ps, text), text, 0);
  }

  // ----- what is survivable has a text it survives

  /** A single hit: what is before and after it is kept. */
  lemma OneHit(hits: Hits, text: string, h: nat, n: nat)
    requires Within(hits, text) && h in hits && hits[h] == n && forall j | j in hits :: h <= j < h + n
    ensures Sub(hits, {}, text, 0) == text[..h] + REDACTED + text[h + n..]
  {
    var run := KeptRun(hits, text, 0);
    assert run == h;
    NoHitsNoChange(hits, {}, text, h + n);
    AppendAssociates(text[..h], REDACTED, text[h + n..]);
  }

  /** Too little text is left for any of the patterns. */
  lemma {:induction false} TooShort(ps: seq<seq<Atom>>, t: string)
    requires forall q | q in ps :: |q| > |t|
    ensures FirstMatch(ps, t).None?
  {
    if ps != [] {
      assert ps[0] in ps;
      TooShort(ps[1..], t);
    }
  }

  /** One masked text, kept text before it, and too little after it for another. */
  lemma OneMasked(ps: seq<seq<Atom>>, text: string, h: nat, n: nat)
    requires NoEmpty(ps) && h + n <= |text| && NoHitIn(ps, text, 0, h)
    requires FirstMatch(ps, text[h..]) == Some(n) && forall q | q in ps :: |q| > |text| - (h + n)
    ensures Masked(ps, text) == text[..h] + REDACTED + text[h + n..]
  {
    var hits := HitsOf(ps, text);
    assert n > 0 by {
      var p := FirstMatchFound(ps, text[h..]);
    }
    forall j | j in hits ensures h <= j < h + n {
      assert Hit(ps, text, j);
      if j >= h + n { TooShort(ps, text[j..]); }
    }
    OneHit(hits, text, h, n);
  }

  lemma OccursIn(v: string, out: string, k: nat)
    requires NoEscapeSign(v) && k <= |out| && v <= out[k..]
    ensures !Absent(Compile(v, true), out)
  {
    PlainOccurs(v, out[k..]);
    assert !NoMatchAt(Compile(v, true), out, k);
  }

  lemma {:induction false} PlainOccurs(v: string, t: string)
    requires NoEscapeSign(v) && v <= t
    ensures MatchLen(Compile(v, true), t) == Some(|v|)
    decreases |v|
  {
    if v != "" {
      assert Compile(v, true) == [Literal(v[0])] + Compile(v[1..], true);
      PlainOccurs(v[1..], t[1..]);
    }
  }

  /** A plain value's pattern matches the value and nothing else. */
  lemma {:induction false} PlainMatches(v: string, m: string)
    requires NoEscapeSign(v) && Matches(Compile(v, true), m)
    ensures m == v
    decreases |v|
  {
    if v != "" {
      assert Compile(v, true) == [Literal(v[0])] + Compile(v[1..], true);
      PlainMatches(v[1..], m[1..]);
      assert m == [m[0]] + m[1..] && v == [v[0]] + v[1..];
    }
  }

  /** A rendering is a match of its own pattern. */
  lemma OwnMatch(u: string)
    ensures Matches(Compile(u, true), u)
  {
    var p := Compile(u, true);
    forall i | 0 <= i < |u| ensures AtomLen(p[i], u[i..]) == 1 {
      AtomAt(u, true, i);
    }
    AtomByAtom(p, u);
  }

  lemma {:induction false} AtomByAtom(p: seq<Atom>, t: string)
    requires |p| == |t| && forall i :: 0 <= i < |p| ==> AtomLen(p[i], t[i..]) == 1
    ensures MatchLen(p, t) == Some(|t|)
    decreases |p|
  {
    if p != [] {
      assert t[0..] == t;
      forall i | 0 <= i < |p[1..]| ensures AtomLen(p[1..][i], t[1..][i..]) == 1 {
        assert p[1..][i] == p[i + 1] && t[1..][i..] == t[i + 1..];
      }
      AtomByAtom(p[1..], t[1..]);
    }
  }

  /** The first alternative masks a rendering of its own, whatever follows. */
  lemma FirstAlternative(ps: seq<seq<Atom>>, u: string, rest: string)
    requires ps != [] && ps[0] == Compile(u, true)
    ensures FirstMatch(ps, u + rest) == Some(|u|)
  {
    OwnMatch(u);
    MatchIsLocal(ps[0], u, u + rest);
  }

  lemma AgreeGoesOn(v: string, placeholder: string)
    requires Agree(v, placeholder)
    ensures v <= placeholder + Beyond(v, placeholder)
  {
  }

  /** The first alternative's own rendering, before too little text for another match. */
  lemma FirstMasksOwn(ps: seq<seq<Atom>>, u: string, tail: string)
    requires NoEmpty(ps) && ps != [] && ps[0] == Compile(u, true) && forall q | q in ps :: |q| > |tail|
    ensures Masked(ps, u + tail) == REDACTED + tail
  {
    var text := u + tail;
    assert text[0..] == text;
    FirstAlternative(ps, u, tail);
    OneMasked(ps, text, 0, |u|);
    NothingInFront(u, tail);
  }

  lemma NothingInFront(u: string, tail: string)
    ensures (u + tail)[..0] + REDACTED + (u + tail)[|u|..] == REDACTED + tail
  {
  }

  lemma SomeFirst(ps: seq<seq<Atom>>, variants: set<string>, v: string) returns (u: string)
    requires Alternation(ps, variants) && v in variants
    ensures ps != [] && u in variants && ps[0] == Compile(u, true)
  {
    assert Compile(v, true) in ps && ps[0] in ps;
    u :| u in variants && ps[0] == Compile(u, true);
  }

  /** Inside a placeholder that the first alternative leaves, before the rest of the value. */
  lemma InsideSurvives(ps: seq<seq<Atom>>, variants: set<string>, v: string, k: nat) returns (text: string)
    requires Alternation(ps, variants) && v in variants && NoEscapeSign(v)
    requires k < |REDACTED| && BeginsInside(v, k) && forall u | u in variants :: |u| >= |v|
    ensures !Absent(Compile(v, true), Masked(ps, text))
  {
    var u := SomeFirst(ps, variants, v);
    var tail := Beyond(v, REDACTED[k..]);
    text := u + tail;
    PatternsAreLong(ps, variants, |v|);
    FirstMasksOwn(ps, u, tail);
    InsideOccurs(v, k, tail);
    OccursIn(v, REDACTED + tail, k);
  }

  lemma InsideOccurs(v: string, k: nat, tail: string)
    requires k < |REDACTED| && BeginsInside(v, k) && tail == Beyond(v, REDACTED[k..])
    ensures v <= (REDACTED + tail)[k..]
  {
    AgreeGoesOn(v, REDACTED[k..]);
    assert (REDACTED + tail)[k..] == REDACTED[k..] + tail;
  }

  lemma PatternsAreLong(ps: seq<seq<Atom>>, variants: set<string>, n: nat)
    requires Alternation(ps, variants) && forall u | u in variants :: |u| >= n
    ensures forall q | q in ps :: |q| >= n
  {
  }

  /** The front of a placeholder, or a whole one, after the value's own kept beginning. */
  lemma ExposedSurvives(ps: seq<seq<Atom>>, variants: set<string>, v: string, h: nat, w: string)
    requires Alternation(ps, variants) && v in variants && NoEscapeSign(v)
    requires 0 < h < |v| && Exposed(ps, v, h, w) && forall u | u in variants :: |u| >= |v|
    ensures !Absent(Compile(v, true), Masked(ps, Exposing(v, h, w)))
  {
    var text, tail := Exposing(v, h, w), Beyond(v[h..], REDACTED);
    PatternsAreLong(ps, variants, |v|);
    ExposingParts(v, h, w);
    OneMasked(ps, text, h, |w|);
    ExposedOccurs(v, h);
    OccursIn(v, v[..h] + REDACTED + tail, 0);
  }

  lemma ExposedOccurs(v: string, h: nat)
    requires h <= |v| && RunsInto(v, h)
    ensures var out := v[..h] + REDACTED + Beyond(v[h..], REDACTED); v <= out[0..]
  {
    var tail := Beyond(v[h..], REDACTED);
    AgreeGoesOn(v[h..], REDACTED);
    var out := v[..h] + REDACTED + tail;
    assert v == v[..h] + v[h..] && out == v[..h] + (REDACTED + tail);
    assert out[0..] == out;
  }

  lemma ExposingParts(v: string, h: nat, w: string)
    requires h <= |v|
    ensures var text := Exposing(v, h, w);
            text[..h] == v[..h] && text[h + |w|..] == Beyond(v[h..], REDACTED)
  {
  }

  // ----- exactly

  /** No text keeps an occurrence of the rendering. */
  ghost predicate NeverSurvives(ps: seq<seq<Atom>>, v: string)
    requires NoEmpty(ps)
  {
    forall text :: Absent(Compile(v, true), Masked(ps, text))
  }

  /**
   For a rendering free of escape signs that is a shortest one of its alternation: survivable,
   it survives in some text; and when it is not, it is absent from every output.
   */
  lemma ShortestExactly(ps: seq<seq<Atom>>, variants: set<string>, v: string)
    requires Alternation(ps, variants) && v in variants && NoEscapeSign(v)
    requires forall u | u in variants :: |u| >= |v|
    ensures Survivable(ps, v) ==> !NeverSurvives(ps, v)
    ensures HoldsNoSecond(v) ==> (NeverSurvives(ps, v) <==> !Survivable(ps, v))
  {
    if Survivable(ps, v) {
      if k :| 0 <= k < |REDACTED| && BeginsInside(v, k) {
        var text := InsideSurvives(ps, variants, v, k);
      } else {
        var h, w :| 0 < h < |v| && Exposed(ps, v, h, w);
        ExposedSurvives(ps, variants, v, h, w);
      }
    } else if HoldsNoSecond(v) {
      forall m | Matches(Compile(v, true), m) ensures !Survivable(ps, m) && HoldsNoSecond(m) {
        PlainMatches(v, m);
      }
      forall text ensures Absent(Compile(v, true), Masked(ps, text)) {
        UnsurvivableIsAbsent(ps, Compile(v, true), text);
      }
    }
  }

  // ----- one value under all its renderings

  ghost predicate KeepsLength(f: string -> string) {
    forall s {:trigger f(s)} :: |f(s)| >= |s|
  }

  ghost predicate KeepsLengthUnpadded(f: string -> string) {
    KeepsLength(f) && forall s, u {:trigger Unpadded(f(s), u)} :: Unpadded(f(s), u) ==> |u| >= |s|
  }

  /** The library encoders never shorten a text, not even without their padding. */
  ghost predicate NeverShortens(enc: Encoders) {
    && KeepsLength(enc.quote) && KeepsLength(enc.quotePlus) && KeepsLength(enc.json) && KeepsLength(enc.repr)
    && KeepsLengthUnpadded(enc.base64) && KeepsLengthUnpadded(enc.base64Url)
  }

  lemma Base64IsLong(enc: Encoders, s: string)
    requires NeverShortens(enc)
    ensures AllAtLeast(Base64Spellings(enc, s), |s|)
  {
    StripPadUnpads(enc.base64(s), StripPad(enc.base64(s)));
    StripPadUnpads(enc.base64Url(s), StripPad(enc.base64Url(s)));
  }

  predicate AllAtLeast(xs: seq<string>, n: nat) {
    forall x | x in xs :: |x| >= n
  }

  lemma {:induction false} FlatIsLong(enc: Encoders, xs: seq<string>, n: nat)
    requires NeverShortens(enc) && AllAtLeast(xs, n)
    ensures AllAtLeast(FlatPercent(enc, xs), n) && AllAtLeast(FlatBase64(enc, xs), n)
    decreases |xs|
  {
    if xs != [] {
      var init, last := xs[..|xs| - 1], xs[|xs| - 1];
      assert xs == init + [last];
      FlatIsLong(enc, init, n);
      Base64IsLong(enc, last);
    }
  }

  /** The value itself is a shortest one of its renderings. */
  lemma RenderingIsLong(enc: Encoders, value: string, u: string)
    requires NeverShortens(enc) && Rendering(enc, value, u)
    ensures |u| >= |value|
  {
    RenderingsAreListed(enc, value, u);
    Base64IsLong(enc, value);
    NestedIsLong(enc, value, u);
  }

  lemma NestedIsLong(enc: Encoders, value: string, u: string)
    requires NeverShortens(enc)
    ensures Nested(enc, value, u) ==> |u| >= |value|
  {
    PercentIsLong(enc, value);
    Base64IsLong(enc, value);
    FlatIsLong(enc, PercentSpellings(enc, value), |value|);
    FlatIsLong(enc, Base64Spellings(enc, value), |value|);
    FlatIsLong(enc, PercentHexSpellings(enc, value), |value|);
  }

  lemma PercentIsLong(enc: Encoders, value: string)
    requires NeverShortens(enc)
    ensures AllAtLeast(PercentSpellings(enc, value), |value|) && AllAtLeast(PercentHexSpellings(enc, value), |value|)
  {
    LowerPercentLength(PercentSpellings(enc, value)[0]);
    LowerPercentLength(PercentSpellings(enc, value)[1]);
  }

  /** The alternation for one value: all its renderings, and nothing else. */
  ghost predicate AlternationFor(enc: Encoders, value: string, ps: seq<seq<Atom>>, variants: set<string>) {
    Alternation(ps, variants) && forall u :: u in variants <==> Rendering(enc, value, u)
  }

  /**
   For one value free of escape signs, under the alternation of all its renderings, none of
   them a key word: it survives in some text if it is survivable; and, unless it runs into a
   placeholder after one that it holds, only then.
   */
  lemma OneValueExactly(enc: Encoders, v: string, ps: seq<seq<Atom>>, variants: set<string>,
                        words: set<string>, role: KeyRole)
    requires NeverShortens(enc) && AlternationFor(enc, v, ps, variants) && v != "" && NoEscapeSign(v)
    requires PlainWords(words) && forall u | u in variants :: !IsKeyWord(u, words)
    ensures Survivable(ps, v) ==> exists text :: !Absent(Compile(v, true), Scanned(ps, text, words, role))
    ensures HoldsNoSecond(v) && !Survivable(ps, v) ==>
              forall text :: Absent(Compile(v, true), Scanned(ps, text, words, role))
  {
    forall u | u in variants ensures |u| >= |v| {
      RenderingIsLong(enc, v, u);
    }
    assert v in variants;
    ShortestExactly(ps, variants, v);
    forall text ensures Scanned(ps, text, words, role) == Masked(ps, text) {
      NoneSpared(variants, ps, text, words, role);
    }
    if Survivable(ps, v) {
      var text :| !Absent(Compile(v, true), Masked(ps, text));
      assert !Absent(Compile(v, true), Scanned(ps, text, words, role));
    }
  }

  // ----- an encoded form in place of the value

  /** No rendering but the value itself is hit early in the value's beginning before `w`. */
  ghost predicate OthersStart(variants: set<string>, v: string, h: nat, w: string)
    requires h <= |v|
  {
    forall u, j | u in variants && u != v && 0 <= j < h :: NoMatchAt(Compile(u, true), v[..h] + w, j)
  }

  /** Before a rendering without brackets the value itself is not hit early. */
  lemma ValueIsNotEarly(v: string, h: nat, w: string, j: nat)
    requires NoEscapeSign(v) && 0 < h < |v| && RunsInto(v, h) && '<' !in w && |w| >= |v| && j < h
    ensures NoMatchAt(Compile(v, true), v[..h] + w, j)
  {
    var t := v[..h] + w;
    assert v[h..][0] == REDACTED[0] == v[h];
    assert t[j + h] == w[j] && w[j] in w;
    if MatchLen(Compile(v, true), t[j..]).Some? {
      MatchIsPrefix(v, t[j..]);
    }
  }

  lemma MatchIsPrefix(v: string, t: string)
    requires NoEscapeSign(v) && MatchLen(Compile(v, true), t).Some?
    ensures v <= t
  {
    var n := MatchLen(Compile(v, true), t).value;
    MatchCut(Compile(v, true), t, n);
    PlainMatches(v, t[..n]);
  }

  lemma {:induction false} NoneMatches(ps: seq<seq<Atom>>, t: string)
    requires forall p | p in ps :: MatchLen(p, t).None?
    ensures FirstMatch(ps, t).None?
  {
    if ps != [] {
      assert ps[0] in ps;
      NoneMatches(ps[1..], t);
    }
  }

  lemma NothingEarly(ps: seq<seq<Atom>>, variants: set<string>, v: string, h: nat, w: string)
    requires Alternation(ps, variants) && NoEscapeSign(v) && 0 < h < |v| && RunsInto(v, h)
    requires '<' !in w && |w| >= |v| && OthersStart(variants, v, h, w)
    ensures NoHitIn(ps, v[..h] + w, 0, h)
  {
    var t := v[..h] + w;
    forall j | 0 <= j < h ensures !Hit(ps, t, j) {
      ValueIsNotEarly(v, h, w, j);
      forall p | p in ps ensures MatchLen(p, t[j..]).None? {
        var u :| u in variants && p == Compile(u, true);
        assert NoMatchAt(Compile(u, true), t, j);
      }
      NoneMatches(ps, t[j..]);
    }
  }

  /** The front of a placeholder: the value's beginning before a rendering without brackets. */
  lemma EncodedFormExposes(ps: seq<seq<Atom>>, variants: set<string>, v: string, h: nat, w: string)
    requires Alternation(ps, variants) && NoEscapeSign(v) && w in variants && '<' !in w && |w| >= |v|
    requires 0 < h < |v| <= h + |REDACTED| && RunsInto(v, h) && OthersStart(variants, v, h, w)
    ensures Survivable(ps, v)
  {
    var t := v[..h] + w;
    NothingEarly(ps, variants, v, h, w);
    OwnMatch(w);
    assert t[h..] == w;
    if FirstMatch(ps, w).None? { FirstMatchMissed(ps, w, Compile(w, true)); }
    var n := FirstMatch(ps, w).value;
    var cut := v[..h] + w[..n];
    assert t[0..] == t && cut <= t;
    CutScansAlike(ps, t, 0, cut, h, n);
    assert Exposing(v, h, w[..n]) == cut;
    assert Exposed(ps, v, h, w[..n]);
  }

  /**
   Being apart from placeholders is enough; and where some rendering without brackets, such as
   the base64 one, can follow the value's beginning with no other rendering hit early, it is
   exactly what is needed.
   */
  lemma ApartExactly(ps: seq<seq<Atom>>, variants: set<string>, v: string, w: string)
    requires Alternation(ps, variants) && NoEscapeSign(v) && w in variants && '<' !in w && |w| >= |v|
    requires forall h | 0 < h < |v| && RunsInto(v, h) :: |v| <= h + |REDACTED| && OthersStart(variants, v, h, w)
    ensures Survivable(ps, v) <==> !ApartText(v)
  {
    if h :| 0 < h < |v| && RunsInto(v, h) {
      EncodedFormExposes(ps, variants, v, h, w);
    }
  }
}
