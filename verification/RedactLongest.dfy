/**
 Ordering the alternatives by the length of their pattern source makes the alternative
 taken at each position the longest match there.
 */
module RedactLongest {
  import opened Wrappers
  import opened RedactPattern
  import opened RedactScan

  /** The characters `re.escape` puts a backslash before. */
  predicate IsSpecial(c: char) {
    c in "()[]{}?*+-|^$\\.&~# \t\n\r\U{000B}\U{000C}"
  }

  /** The pattern source of one atom. */
  function AtomText(a: Atom): string {
    match a
    case Literal(c) => if IsSpecial(c) then ['\\', c] else [c]
    case HexDigit(c) => if IsDigit(c) then [c] else "[" + [UpperHex(c), FoldHex(c)] + "]"
    case Solidus => "(?:/|\\\\/)"
  }

  function UpperHex(c: char): char {
    if 'a' <= c <= 'f' then c - 'a' + 'A' else c
  }

  /** How many characters of pattern source one atom takes. */
  function AtomSource(a: Atom): (n: nat)
    ensures n == |AtomText(a)|
  {
    match a
    case Literal(c) => if IsSpecial(c) then 2 else 1
    case HexDigit(c) => if IsDigit(c) then 1 else 4
    case Solidus => 9
  }

  function SourceLen(p: seq<Atom>): nat {
    if p == [] then 0 else AtomSource(p[0]) + SourceLen(p[1..])
  }

  /** The source length of the pattern compiled from `s`. */
  function Weight(s: string): nat {
    SourceLen(Compile(s, false))
  }

  lemma {:induction false} SourceLenAppend(p: seq<Atom>, q: seq<Atom>)
    ensures SourceLen(p + q) == SourceLen(p) + SourceLen(q)
    decreases |p|
  {
    if p == [] {
      assert p + q == q;
    } else {
      assert (p + q)[1..] == p[1..] + q;
      SourceLenAppend(p[1..], q);
    }
  }

  lemma WeightStep(s: string)
    requires s != ""
    ensures Weight(s) == SourceLen(TokenAtoms(s, false)) + Weight(s[TokenLen(s)..])
  {
    SourceLenAppend(TokenAtoms(s, false), Compile(s[TokenLen(s)..], false));
  }

  /** The same text but for the case of hex digits anywhere. */
  predicate Similar(a: string, b: string) {
    |a| == |b| && forall i :: 0 <= i < |a| ==> a[i] == b[i] || HexSame(a[i], b[i])
  }

  lemma SimilarEscape(a: string, b: string)
    requires Similar(a, b)
    ensures EscapeLen(a) == EscapeLen(b)
  {
    assert forall i :: 0 <= i < |a| ==> (IsHex(a[i]) <==> IsHex(b[i]));
  }

  lemma {:induction false} PointwiseSource(p: seq<Atom>, q: seq<Atom>)
    requires |p| == |q| && forall i :: 0 <= i < |p| ==> AtomSource(p[i]) == AtomSource(q[i])
    ensures SourceLen(p) == SourceLen(q)
    decreases |p|
  {
    if p != [] { PointwiseSource(p[1..], q[1..]); }
  }

  lemma HexIsPlain(c: char)
    requires IsHex(c)
    ensures !IsSpecial(c)
  {
  }

  /** Atoms of the same kind for the same character up to hex case take the same source. */
  lemma SimilarAtom(a: char, b: char)
    requires a == b || HexSame(a, b)
    ensures AtomSource(Literal(a)) == AtomSource(Literal(b)) && AtomSource(HexDigit(a)) == AtomSource(HexDigit(b))
  {
    if HexSame(a, b) {
      HexIsPlain(a);
      HexIsPlain(b);
    }
  }

  lemma SimilarToken(a: string, b: string)
    requires Similar(a, b) && a != ""
    ensures TokenLen(a) == TokenLen(b) && SourceLen(TokenAtoms(a, false)) == SourceLen(TokenAtoms(b, false))
  {
    SimilarEscape(a, b);
    assert a[0] == b[0] || HexSame(a[0], b[0]);
    SimilarAtom(a[0], b[0]);
    var p, q := TokenAtoms(a, false), TokenAtoms(b, false);
    forall i | 0 <= i < |p| ensures AtomSource(p[i]) == AtomSource(q[i]) {
      assert a[i] == b[i] || HexSame(a[i], b[i]);
      SimilarAtom(a[i], b[i]);
      if EscapeLen(a) > 0 {
        EscapeAtomAt(a, i);
        EscapeAtomAt(b, i);
      }
    }
    PointwiseSource(p, q);
  }

  lemma {:induction false} SimilarWeight(a: string, b: string)
    requires Similar(a, b)
    ensures Weight(a) == Weight(b)
    decreases |a|
  {
    if a != "" {
      var k := TokenLen(a);
      SimilarToken(a, b);
      WeightStep(a);
      WeightStep(b);
      assert Similar(a[k..], b[k..]) by {
        assert forall i :: 0 <= i < |a[k..]| ==> a[k..][i] == a[i + k] && b[k..][i] == b[i + k];
      }
      SimilarWeight(a[k..], b[k..]);
    }
  }

  lemma {:induction false} HexWeight(s: string)
    requires AllHex(s)
    ensures Weight(s) == |s|
    decreases |s|
  {
    if s != "" {
      assert IsHex(s[0]) && EscapeLen(s) == 0;
      WeightOne(s);
      HexIsPlain(s[0]);
      HexWeight(s[1..]);
    }
  }

  lemma {:induction false} SourceAtLeast(p: seq<Atom>)
    ensures SourceLen(p) >= |p|
    decreases |p|
  {
    if p != [] { SourceAtLeast(p[1..]); }
  }

  lemma WeightOne(s: string)
    requires s != "" && EscapeLen(s) == 0
    ensures Weight(s) == AtomSource(Literal(s[0])) + Weight(s[1..])
  {
    WeightStep(s);
    assert SourceLen([Literal(s[0])]) == AtomSource(Literal(s[0])) + SourceLen([]);
  }

  /** What is left of a percent escape, `%25` included, weighs what it is long. */
  lemma CutPercentWeight(a: string)
    requires a != "" && a[0] == '%' && AllHex(a[1..]) && (|a| >= 3 ==> a[1] == '2' && a[2] == '5') && |a| <= 4
    ensures Weight(a) == |a|
  {
    if EscapeLen(a) == 0 {
      WeightOne(a);
      HexWeight(a[1..]);
    } else {
      WeightStep(a);
      EscapeAtomAt(a, 0);
      EscapeAtomAt(a, 1);
      EscapeAtomAt(a, 2);
      ThreeAtoms(TokenAtoms(a, false));
      assert AllHex(a[3..]) by {
        assert forall i :: 0 <= i < |a[3..]| ==> a[3..][i] == a[1..][i + 2];
      }
      HexWeight(a[3..]);
    }
  }

  lemma ThreeAtoms(p: seq<Atom>)
    requires |p| == 3
    ensures SourceLen(p) == AtomSource(p[0]) + AtomSource(p[1]) + AtomSource(p[2])
  {
    var q := p[1..];
    assert SourceLen(q) == AtomSource(q[0]) + SourceLen(q[1..]);
    assert SourceLen(q[1..]) == AtomSource(q[1..][0]) + SourceLen([]);
  }

  /** A percent escape cut short: what is left re-tokenises to lighter text. */
  lemma CutPercent(a: string, b: string)
    requires EscapeLen(b) > |a| > 0 && a <= b && b[0] == '%'
    ensures Weight(a) < SourceLen(TokenAtoms(b, false))
  {
    SourceAtLeast(TokenAtoms(b, false));
    assert forall i :: 0 <= i < |a| ==> a[i] == b[i];
    assert AllHex(a[1..]);
    CutPercentWeight(a);
  }

  lemma CutBackslash(a: string, b: string)
    requires EscapeLen(b) > |a| > 0 && a <= b && b[0] == '\\'
    ensures Weight(a) < SourceLen(TokenAtoms(b, false))
  {
    var p := TokenAtoms(b, false);
    EscapeAtomAt(b, 0);
    SourceAtLeast(p[1..]);
    assert SourceLen(p) == AtomSource(p[0]) + SourceLen(p[1..]);
    assert forall i :: 0 <= i < |a| ==> a[i] == b[i];
    assert EscapeLen(a) == 0;
    WeightOne(a);
    if |a| == 1 {
      assert Weight("") == 0;
    } else {
      CutAfterLead(a[1..], b);
    }
  }

  lemma CutAfterLead(c: string, b: string)
    requires EscapeLen(b) > |c| + 1 && c != "" && b[0] == '\\'
    requires forall i :: 0 <= i < |c| ==> c[i] == b[i + 1]
    ensures Weight(c) == |c|
  {
    assert c[0] == b[1];
    forall i | 0 <= i < |c[1..]| ensures IsHex(c[1..][i]) {
      assert c[1..][i] == c[i + 1] == b[i + 2];
    }
    LeadWeight(c);
  }

  /** The letter after a backslash, and hex digits. */
  lemma LeadWeight(c: string)
    requires c != "" && (c[0] == 'u' || c[0] == 'x') && AllHex(c[1..])
    ensures Weight(c) == |c|
  {
    WeightOne(c);
    HexWeight(c[1..]);
  }

  /** Text after the first token does not change how it is read. */
  lemma TokenIsLocal(a: string, x: string)
    requires a != "" && TokenLen(a + x) <= |a|
    ensures TokenLen(a) == TokenLen(a + x) && TokenAtoms(a, false) == TokenAtoms(a + x, false)
  {
    var b := a + x;
    assert forall i :: 0 <= i < |a| ==> a[i] == b[i];
    assert EscapeLen(a) == EscapeLen(b);
    if EscapeLen(a) > 0 {
      forall i | 0 <= i < EscapeLen(a) ensures EscapeAtoms(a)[i] == EscapeAtoms(b)[i] {
        EscapeAtomAt(a, i);
        EscapeAtomAt(b, i);
      }
    }
  }

  lemma CutToken(a: string, x: string)
    requires x != "" && (a == "" || TokenLen(a + x) > |a|)
    ensures Weight(a) < Weight(a + x)
  {
    var b := a + x;
    WeightStep(b);
    SourceAtLeast(TokenAtoms(b, false));
    if a == "" {
      assert Weight("") == 0;
    } else if b[0] == '%' {
      CutPercent(a, b);
    } else {
      CutBackslash(a, b);
    }
  }

  /** A proper prefix compiles to strictly less source, even where it cuts an escape. */
  lemma {:induction false} PrefixWeighsLess(a: string, x: string)
    requires x != ""
    ensures Weight(a) < Weight(a + x)
    decreases |a|
  {
    if a == "" || TokenLen(a + x) > |a| {
      CutToken(a, x);
    } else {
      TokenIsLocal(a, x);
      SameToken(a, a + x);
      DropAppend(a, x, TokenLen(a));
      PrefixWeighsLess(a[TokenLen(a)..], x);
    }
  }

  lemma SameToken(a: string, b: string)
    requires a != "" && b != "" && TokenLen(a) == TokenLen(b) && TokenAtoms(a, false) == TokenAtoms(b, false)
    ensures Weight(b) - Weight(a) == Weight(b[TokenLen(b)..]) - Weight(a[TokenLen(a)..])
  {
    WeightStep(a);
    WeightStep(b);
  }

  lemma DropAppend(a: string, x: string, k: nat)
    requires k <= |a|
    ensures (a + x)[k..] == a[k..] + x
  {
  }

  lemma ShorterMatchWeighsLess(t: string, m: nat, n: nat)
    requires m < n <= |t|
    ensures Weight(t[..m]) < Weight(t[..n])
  {
    assert t[..n] == t[..m] + t[m..n];
    PrefixWeighsLess(t[..m], t[m..n]);
  }

  /**
   If one rendering's match is a proper prefix of another's, its pattern is strictly
   shorter source: the longest match is the one with the longest pattern.
   */
  lemma LongerMatchLongerSource(u: string, v: string, t: string)
    requires MatchLen(Compile(u, false), t).Some? && MatchLen(Compile(v, false), t).Some?
    requires MatchLen(Compile(u, false), t).value < MatchLen(Compile(v, false), t).value
    ensures SourceLen(Compile(u, false)) < SourceLen(Compile(v, false))
  {
    MatchIsSimilar(u, t);
    MatchIsSimilar(v, t);
    SimilarWeight(u, t[..|u|]);
    SimilarWeight(v, t[..|v|]);
    ShorterMatchWeighsLess(t, |u|, |v|);
  }

  lemma PointwiseSimilar(p: seq<Atom>, s: string, t: string)
    requires |p| == |s| && forall i :: 0 <= i < |s| ==> p[i] == Literal(s[i]) || p[i] == HexDigit(s[i])
    requires MatchLen(p, t).Some?
    ensures MatchLen(p, t) == Some(|s|) && Similar(s, t[..|s|])
  {
    MatchPointwise(p, t);
    forall i | 0 <= i < |s| ensures s[i] == t[..|s|][i] || HexSame(s[i], t[..|s|][i]) {
      assert AtomLen(p[i], [t[i]]) == 1;
    }
  }

  lemma MatchIsSimilar(s: string, t: string)
    requires MatchLen(Compile(s, false), t).Some?
    ensures MatchLen(Compile(s, false), t) == Some(|s|) && Similar(s, t[..|s|])
  {
    var p := Compile(s, false);
    forall i | 0 <= i < |s| ensures p[i] == Literal(s[i]) || p[i] == HexDigit(s[i]) {
      AtomAt(s, false, i);
    }
    PointwiseSimilar(p, s, t);
  }

  function CompileAll(variants: seq<string>): (ps: seq<seq<Atom>>)
    ensures |ps| == |variants| && forall i :: 0 <= i < |ps| ==> ps[i] == Compile(variants[i], false)
  {
    seq(|variants|, i requires 0 <= i < |variants| => Compile(variants[i], false))
  }

  /** `sorted(set(patterns), key=len, reverse=True)`, in any order among equals. */
  predicate LongestSourceFirst(variants: seq<string>) {
    forall i, j :: 0 <= i < j < |variants| ==> Weight(variants[i]) >= Weight(variants[j])
  }

  /** The alternative taken is the longest match there is at that position. */
  lemma {:induction false} FirstIsLongest(variants: seq<string>, t: string, k: nat)
    requires LongestSourceFirst(variants) && k < |variants| && MatchLen(Compile(variants[k], false), t).Some?
    ensures var first := FirstMatch(CompileAll(variants), t);
            first.Some? && MatchLen(Compile(variants[k], false), t).value <= first.value
    decreases |variants|
  {
    var ps := CompileAll(variants);
    if MatchLen(ps[0], t).Some? {
      if k > 0 && MatchLen(ps[0], t).value < MatchLen(ps[k], t).value {
        LongerMatchLongerSource(variants[0], variants[k], t);
      }
    } else {
      assert ps[1..] == CompileAll(variants[1..]);
      FirstIsLongest(variants[1..], t, k - 1);
    }
  }
}
