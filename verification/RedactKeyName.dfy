/**
 The key-name guard of the value-based redactor: when an occurrence that is a key word is
 left readable, and why its separator probe stays linear.
 */
module RedactKeyName {
  import opened Wrappers
  import opened RedactScan
  import opened RedactKnown
  import Scanners

  // ----- the separator probe: ['"]?\s*[:=]\s*|['"]\s*,\s*

  predicate IsSpace(c: char) {
    || '\t' <= c <= '\r' || '\U{1C}' <= c <= ' ' || c == '\U{85}' || c == '\U{A0}' || c == '\U{1680}'
    || '\U{2000}' <= c <= '\U{200A}' || c == '\U{2028}' || c == '\U{2029}' || c == '\U{202F}'
    || c == '\U{205F}' || c == '\U{3000}'
  }

  predicate IsPunctuation(c: char) {
    c == ':' || c == '=' || c == ','
  }

  predicate AllSpace(s: string) {
    forall i :: 0 <= i < |s| ==> IsSpace(s[i])
  }

  /** The length of the run of spaces at the start. */
  function SpaceRun(t: string): (n: nat)
    ensures n <= |t| && AllSpace(t[..n]) && (n < |t| ==> !IsSpace(t[n]))
  {
    if t != "" && IsSpace(t[0]) then
      var n := 1 + SpaceRun(t[1..]);
      assert t[..n] == [t[0]] + t[1..][..n - 1];
      n
    else 0
  }

  function OpenQuote(t: string): nat {
    if t != "" && Scanners.IsQuote(t[0]) then 1 else 0
  }

  /** How far the probe reads: a quote, a run of spaces, one character, and the spaces after a hit. */
  function Probe(t: string): Option<nat> {
    var q := OpenQuote(t);
    var k := q + SpaceRun(t[q..]);
    if k < |t| && (t[k] == ':' || t[k] == '=' || (q == 1 && t[k] == ',')) then Some(k + 1 + SpaceRun(t[k + 1..]))
    else None
  }

  /** A quote where the text opens with one, spaces, a separator, and spaces again. */
  predicate IsSeparator(s: string, quote: string, before: string, mark: char, after: string) {
    && s == quote + before + [mark] + after && AllSpace(before) && AllSpace(after)
    && (quote == "" || (|quote| == 1 && Scanners.IsQuote(quote[0])))
    && (mark == ':' || mark == '=' || (mark == ',' && quote != ""))
  }

  predicate SpaceBetween(t: string, i: nat, j: nat)
    requires j <= |t|
  {
    forall k | i <= k < j :: IsSpace(t[k])
  }

  lemma {:induction false} SpaceRunAtLeast(t: string, i: nat, j: nat)
    requires i <= j <= |t| && SpaceBetween(t, i, j)
    ensures SpaceRun(t[i..]) >= j - i
    decreases j - i
  {
    if i < j {
      SpaceRunAtLeast(t, i + 1, j);
      assert t[i..][1..] == t[i + 1..];
    }
  }

  lemma SpaceRunStops(t: string, i: nat, j: nat)
    requires i <= j < |t| && !IsSpace(t[j])
    ensures SpaceRun(t[i..]) <= j - i
  {
    var run := SpaceRun(t[i..]);
    forall k | i <= k < i + run ensures IsSpace(t[k]) {
      assert t[i..][..run][k - i] == t[k];
    }
  }

  /** The parts of a separator, by position. */
  lemma SeparatorParts(t: string, n: nat, quote: string, before: string, mark: char, after: string)
    requires n <= |t| && IsSeparator(t[..n], quote, before, mark, after)
    ensures var q := |quote|;
            var k := q + |before|;
            && OpenQuote(t) == q && k < n && n == k + 1 + |after| && t[k] == mark
            && SpaceBetween(t, q, k) && SpaceBetween(t, k + 1, n)
  {
    var s, q, k := t[..n], |quote|, |quote| + |before|;
    assert forall i :: q <= i < k ==> s[i] == before[i - q];
    assert forall i :: k < i < n ==> s[i] == after[i - k - 1];
    assert s[k] == mark;
    assert t[0] == s[0] == if q == 1 then quote[0] else if before != "" then before[0] else mark;
  }

  /** The probe finds a separator whenever there is one, and reads it to its longest end. */
  lemma ProbeFindsSeparator(t: string, n: nat, quote: string, before: string, mark: char, after: string)
    requires n <= |t| && IsSeparator(t[..n], quote, before, mark, after)
    ensures Probe(t).Some? && n <= Probe(t).value
  {
    SeparatorParts(t, n, quote, before, mark, after);
    var q, k := |quote|, |quote| + |before|;
    SpaceRunAtLeast(t, q, k);
    SpaceRunStops(t, q, k);
    SpaceRunAtLeast(t, k + 1, n);
  }

  /** What the probe reports is a separator. */
  lemma ProbeIsSeparator(t: string) returns (quote: string, before: string, mark: char, after: string)
    requires Probe(t).Some?
    ensures Probe(t).value <= |t| && IsSeparator(t[..Probe(t).value], quote, before, mark, after)
  {
    var q := OpenQuote(t);
    var k := q + SpaceRun(t[q..]);
    var n := Probe(t).value;
    quote, before, mark, after := t[..q], t[q..k], t[k], t[k + 1..n];
    assert before == t[q..][..k - q];
    TailCut(t, k + 1, n);
    InParts(t, q, k, n);
  }

  lemma TailCut(t: string, k: nat, n: nat)
    requires k <= n <= |t|
    ensures t[k..n] == t[k..][..n - k]
  {
  }

  lemma InParts(t: string, q: nat, k: nat, n: nat)
    requires q <= k < n <= |t|
    ensures t[..n] == t[..q] + t[q..k] + [t[k]] + t[k + 1..n]
  {
  }

  /** How many characters of the text a probe looks at without seeing a non-separator character. */
  function Reach(t: string): nat {
    var q := OpenQuote(t);
    if Probe(t).Some? then Probe(t).value else q + SpaceRun(t[q..])
  }

  /** A character that starts no separator and continues none. */
  predicate IsWordStart(c: char) {
    !IsSpace(c) && !Scanners.IsQuote(c) && !IsPunctuation(c)
  }

  /**
   A later occurrence that starts with a word character starts after everything an earlier
   probe has read: the probed regions of a scan are pairwise disjoint.
   */
  lemma ProbesAreDisjoint(text: string, end: nat, start: nat)
    requires end <= start < |text| && IsWordStart(text[start])
    ensures end + Reach(text[end..]) <= start
  {
    var t, d := text[end..], start - end;
    var n := Reach(t);
    assert t[d] == text[start];
    ReachHoldsNoWord(t);
  }

  lemma ReachHoldsNoWord(t: string)
    ensures Reach(t) <= |t| && forall i :: 0 <= i < Reach(t) ==> !IsWordStart(t[i])
  {
    var q := OpenQuote(t);
    var run := SpaceRun(t[q..]);
    var k := q + run;
    forall i | q <= i < k ensures IsSpace(t[i]) {
      assert t[i] == t[q..][..run][i - q];
    }
    if Probe(t).Some? {
      var n := Probe(t).value;
      forall i | k + 1 <= i < n ensures IsSpace(t[i]) {
        assert t[i] == t[k + 1..][..n - (k + 1)][i - (k + 1)];
      }
    }
  }

  // ----- the guard

  /** What a shape grammar matched: where it starts, its key, and its value. */
  datatype Shape = Shape(start: nat, keyStart: nat, keyEnd: nat, valueStart: nat)

  /** The grammars: the authority prefix before a position, and each shape's matches in order. */
  datatype Grammar = Grammar(
    authority: (string, nat, nat) -> bool,
    word: char -> bool,
    shapes: (string, nat, nat) -> seq<seq<Shape>>)

  const AUTHORITY_SCAN_WINDOW := 512
  const SHAPE_KEY_SCAN_WINDOW := 96
  const SHAPE_VALUE_SCAN_WINDOW := 512

  predicate IdentifierChar(g: Grammar, c: char) {
    g.word(c) || c == '-'
  }

  /** The identifier that ends at a position begins here. */
  predicate BeginsIdentifier(g: Grammar, text: string, i: nat, end: nat)
    requires end <= |text|
  {
    && i <= end && (forall j :: i <= j < end ==> g.word(text[j]) || text[j] == '-')
    && (i > 0 ==> !g.word(text[i - 1]) && text[i - 1] != '-')
  }

  function IdentifierStart(g: Grammar, text: string, i: nat): (r: nat)
    requires i <= |text|
    ensures BeginsIdentifier(g, text, r, i)
  {
    if i > 0 && IdentifierChar(g, text[i - 1]) then IdentifierStart(g, text, i - 1) else i
  }

  function Below(n: nat, window: nat): nat {
    if n < window then 0 else n - window
  }

  function Least(a: nat, b: nat): nat {
    if a < b then a else b
  }

  predicate Covers(s: Shape, start: nat, end: nat) {
    s.keyStart <= start < end <= s.keyEnd && s.valueStart >= end
  }

  /** Some grammar matches with the occurrence inside its key and its value after it. */
  predicate SomeShapeCovers(shapes: seq<seq<Shape>>, start: nat, end: nat) {
    exists i, j :: 0 <= i < |shapes| && 0 <= j < |shapes[i]| && Covers(shapes[i][j], start, end)
  }

  /** Matches come from left to right, and a key lies within its match. */
  predicate Ordered(shapes: seq<seq<Shape>>) {
    forall i :: 0 <= i < |shapes| ==> InOrder(shapes[i])
  }

  predicate InOrder(found: seq<Shape>) {
    && (forall j :: 0 <= j < |found| ==> found[j].start <= found[j].keyStart)
    && (forall j, k :: 0 <= j < k < |found| ==> found[j].start <= found[k].start)
  }

  /** Whether an occurrence of a key word stands as a key that the shape pass goes on to use. */
  predicate StandsAsKey(g: Grammar, text: string, start: nat, end: nat) {
    start < end <= |text|
    && var ident := IdentifierStart(g, text, start);
       && !g.authority(text, Below(ident, AUTHORITY_SCAN_WINDOW), ident)
       && Probe(text[end..]).Some?
       && SomeShapeCovers(g.shapes(text, Below(start, SHAPE_KEY_SCAN_WINDOW),
                                   Least(|text|, end + Probe(text[end..]).value + SHAPE_VALUE_SCAN_WINDOW)),
                          start, end)
  }

  // ----- the same, told without the loops

  /** A separator of this length begins the text. */
  ghost predicate SeparatorOf(t: string, n: nat) {
    n <= |t| && exists quote, before, mark, after :: IsSeparator(t[..n], quote, before, mark, after)
  }

  ghost predicate LongestSeparator(t: string, n: nat) {
    SeparatorOf(t, n) && forall k: nat :: SeparatorOf(t, k) ==> k <= n
  }

  lemma ProbeIsLongest(t: string, n: nat)
    ensures Probe(t) == Some(n) <==> LongestSeparator(t, n)
  {
    forall k: nat | SeparatorOf(t, k) ensures Probe(t).Some? && k <= Probe(t).value {
      var quote, before, mark, after :| IsSeparator(t[..k], quote, before, mark, after);
      ProbeFindsSeparator(t, k, quote, before, mark, after);
    }
    if Probe(t).Some? {
      var quote, before, mark, after := ProbeIsSeparator(t);
      assert SeparatorOf(t, Probe(t).value);
    }
  }

  lemma OneIdentifier(g: Grammar, text: string, i: nat, j: nat, end: nat)
    requires end <= |text| && BeginsIdentifier(g, text, i, end) && BeginsIdentifier(g, text, j, end)
    ensures i == j
  {
  }

  /** Some match has the occurrence in its key and its value behind it. */
  ghost predicate HeldInKey(shapes: seq<seq<Shape>>, start: nat, end: nat) {
    exists found, shape | found in shapes && shape in found ::
      shape.keyStart <= start && end <= shape.keyEnd && end <= shape.valueStart
  }

  lemma HeldIsCovered(shapes: seq<seq<Shape>>, start: nat, end: nat)
    requires start < end
    ensures HeldInKey(shapes, start, end) <==> SomeShapeCovers(shapes, start, end)
  {
    if SomeShapeCovers(shapes, start, end) {
      var i, j :| 0 <= i < |shapes| && 0 <= j < |shapes[i]| && Covers(shapes[i][j], start, end);
      assert shapes[i] in shapes && shapes[i][j] in shapes[i];
    }
    if HeldInKey(shapes, start, end) {
      var found, shape :| found in shapes && shape in found
                          && shape.keyStart <= start && end <= shape.keyEnd && end <= shape.valueStart;
      var i :| 0 <= i < |shapes| && shapes[i] == found;
      var j :| 0 <= j < |found| && found[j] == shape;
      assert Covers(shapes[i][j], start, end);
    }
  }

  /** The shapes that the guard looks at: from 96 before the occurrence to 512 behind its separator. */
  function ShapesAround(g: Grammar, text: string, start: nat, valueAt: nat): seq<seq<Shape>> {
    g.shapes(text, if start < 96 then 0 else start - 96, if |text| < valueAt + 512 then |text| else valueAt + 512)
  }

  /** An authority ends at the identifier, as far as the 512 characters before it tell. */
  predicate InAuthority(g: Grammar, text: string, ident: nat) {
    g.authority(text, if ident < 512 then 0 else ident - 512, ident)
  }

  ghost predicate ReadableAt(g: Grammar, text: string, start: nat, end: nat, ident: nat, n: nat)
    requires start < end <= |text|
  {
    && BeginsIdentifier(g, text, ident, start) && LongestSeparator(text[end..], n)
    && !InAuthority(g, text, ident) && HeldInKey(ShapesAround(g, text, start, end + n), start, end)
  }

  /**
   The occurrence stands as a key: no authority ends at its identifier, a separator follows it,
   and a shape found around it has the occurrence in its key and its value behind it.
   */
  ghost predicate Readable(g: Grammar, text: string, start: nat, end: nat) {
    start < end <= |text| && exists ident: nat, n: nat :: ReadableAt(g, text, start, end, ident, n)
  }

  lemma StandsAt(g: Grammar, text: string, start: nat, end: nat, n: nat)
    requires start < end <= |text| && Probe(text[end..]) == Some(n)
    ensures StandsAsKey(g, text, start, end)
       <==> !InAuthority(g, text, IdentifierStart(g, text, start))
            && SomeShapeCovers(ShapesAround(g, text, start, end + n), start, end)
  {
  }

  lemma StandsReadsAt(g: Grammar, text: string, start: nat, end: nat, n: nat)
    requires start < end <= |text| && Probe(text[end..]) == Some(n)
    ensures StandsAsKey(g, text, start, end) <==> ReadableAt(g, text, start, end, IdentifierStart(g, text, start), n)
  {
    StandsAt(g, text, start, end, n);
    ProbeIsLongest(text[end..], n);
    HeldIsCovered(ShapesAround(g, text, start, end + n), start, end);
  }

  lemma ReadableOnlyAt(g: Grammar, text: string, start: nat, end: nat, ident: nat, n: nat)
    requires start < end <= |text| && ReadableAt(g, text, start, end, ident, n)
    ensures ident == IdentifierStart(g, text, start) && Probe(text[end..]) == Some(n)
  {
    OneIdentifier(g, text, ident, IdentifierStart(g, text, start), start);
    ProbeIsLongest(text[end..], n);
  }

  lemma StandsReads(g: Grammar, text: string, start: nat, end: nat)
    requires start < end <= |text|
    ensures StandsAsKey(g, text, start, end) <==> Readable(g, text, start, end)
  {
    if StandsAsKey(g, text, start, end) { StandsReadsAt(g, text, start, end, Probe(text[end..]).value); }
    if ident: nat, n: nat :| ReadableAt(g, text, start, end, ident, n) {
      ReadableOnlyAt(g, text, start, end, ident, n);
      StandsReadsAt(g, text, start, end, n);
    }
  }

  function RoleOf(g: Grammar): KeyRole {
    (text: string, start: nat, end: nat) => StandsAsKey(g, text, start, end)
  }

  ghost predicate OrderedGrammar(g: Grammar) {
    forall text, from, to :: Ordered(g.shapes(text, from, to))
  }

  /** The loop over the grammars; it leaves a grammar at the first match past the occurrence. */
  method Verified(shapes: seq<seq<Shape>>, start: nat, end: nat) returns (covered: bool)
    requires Ordered(shapes)
    ensures covered <==> SomeShapeCovers(shapes, start, end)
  {
    for i := 0 to |shapes|
      invariant forall a, b :: 0 <= a < i && 0 <= b < |shapes[a]| ==> !Covers(shapes[a][b], start, end)
    {
      var found := shapes[i];
      assert InOrder(found);
      var j := 0;
      while j < |found| && found[j].start <= start
        invariant 0 <= j <= |found| && forall b :: 0 <= b < j ==> !Covers(found[b], start, end)
      {
        if found[j].keyStart <= start < end <= found[j].keyEnd && found[j].valueStart >= end {
          return true;
        }
        j := j + 1;
      }
    }
    covered := false;
  }

  /** `_mask_known_value`: the replacement the scan puts for one match. */
  method MaskKnownValue(g: Grammar, words: set<string>, text: string, start: nat, end: nat) returns (shown: string)
    requires start < end <= |text| && OrderedGrammar(g)
    ensures shown == if IsKeyWord(text[start..end], words) && RoleOf(g)(text, start, end)
                     then text[start..end] else REDACTED
    ensures shown == if IsKeyWord(text[start..end], words) && Readable(g, text, start, end)
                     then text[start..end] else "<redacted>"
  {
    StandsReads(g, text, start, end);
    var matched := text[start..end];
    if !IsKeyWord(matched, words) { return REDACTED; }
    var spared := CheckKeyRole(g, text, start, end);
    return if spared then matched else REDACTED;
  }

  /** The conditions after the first: no authority in front, a separator behind, a shape around. */
  method CheckKeyRole(g: Grammar, text: string, start: nat, end: nat) returns (stands: bool)
    requires start < end <= |text| && OrderedGrammar(g)
    ensures stands == StandsAsKey(g, text, start, end)
  {
    var identStart := start;
    while identStart > 0 && IdentifierChar(g, text[identStart - 1])
      invariant 0 <= identStart <= start
      invariant IdentifierStart(g, text, identStart) == IdentifierStart(g, text, start)
    {
      identStart := identStart - 1;
    }
    if g.authority(text, Below(identStart, AUTHORITY_SCAN_WINDOW), identStart) { return false; }
    var separator := Probe(text[end..]);
    if separator.None? { return false; }
    var to := Least(|text|, end + separator.value + SHAPE_VALUE_SCAN_WINDOW);
    stands := Verified(g.shapes(text, Below(start, SHAPE_KEY_SCAN_WINDOW), to), start, end);
  }

  /** The replacement is what the scan shows for that match. */
  lemma MaskIsTheScans(g: Grammar, words: set<string>, hits: Hits, text: string, i: nat)
    requires Within(hits, text) && i in hits
    ensures Mask(text, i, i + hits[i], SparedSpans(hits, text, words, RoleOf(g)))
         == if IsKeyWord(text[i..i + hits[i]], words) && RoleOf(g)(text, i, i + hits[i])
            then text[i..i + hits[i]] else REDACTED
  {
    SparedExactly(hits, text, words, RoleOf(g), i);
  }
}
