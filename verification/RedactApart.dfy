/** A rendering apart from placeholders compiles to a pattern that matches only such texts. */
module RedactApart {
  import opened RedactPattern
  import opened RedactScan

  predicate IsEscapeSign(c: char) {
    c == '%' || c == '\\' || c == '/'
  }

  predicate NoEscapeSign(s: string) {
    forall i :: 0 <= i < |s| ==> !IsEscapeSign(s[i])
  }

  lemma PlaceholderHasNoSign(k: nat)
    requires k <= |REDACTED|
    ensures NoEscapeSign(REDACTED[k..])
  {
    assert forall i :: 0 <= i < |REDACTED| ==> !IsEscapeSign(REDACTED[i]);
  }

  /** A pattern that starts with a sign-free character reads it literally. */
  lemma FirstAtomIsLiteral(v: string, m: string)
    requires v != "" && m != "" && AtomLen(Compile(v, true)[0], m) > 0 && !IsEscapeSign(m[0])
    ensures v[0] == m[0] && EscapeLen(v) == 0 && AtomLen(Compile(v, true)[0], m) == 1
    ensures Compile(v, true)[1..] == Compile(v[1..], true)
  {
    if EscapeLen(v) > 0 { EscapeAtomAt(v, 0); }
  }

  /** Up to its first escape sign a match is its rendering, character by character. */
  lemma {:induction false} SignFreePrefix(v: string, m: string, n: nat)
    requires Matches(Compile(v, true), m) && n <= |m| && NoEscapeSign(m[..n])
    ensures n <= |v| && v[..n] == m[..n] && (n == |m| ==> v == m)
    decreases n
  {
    if n > 0 {
      assert m[..n][0] == m[0];
      var k := MatchTail(Compile(v, true), m);
      FirstAtomIsLiteral(v, m);
      SignFreeTail(m, n);
      SignFreePrefix(v[1..], m[1..], n - 1);
      ConsPrefix(v, m, n);
    }
  }

  lemma ConsPrefix(v: string, m: string, n: nat)
    requires v != "" && 0 < n <= |m| && v[0] == m[0]
    requires n <= |v| && v[1..][..n - 1] == m[1..][..n - 1]
    ensures v[..n] == m[..n] && (v[1..] == m[1..] ==> v == m)
  {
    assert v == [v[0]] + v[1..] && m == [m[0]] + m[1..];
    assert v[..n] == [v[0]] + v[1..][..n - 1] && m[..n] == [m[0]] + m[1..][..n - 1];
  }

  lemma SignFreeTail(m: string, n: nat)
    requires 0 < n <= |m| && NoEscapeSign(m[..n])
    ensures NoEscapeSign(m[1..][..n - 1])
  {
    var t := m[1..][..n - 1];
    forall i | 0 <= i < |t| ensures !IsEscapeSign(t[i]) {
      assert t[i] == m[..n][i + 1];
    }
  }

  /** Where a match agrees with sign-free text, so does its rendering. */
  lemma AgreementCarries(v: string, m: string, t: string)
    requires Matches(Compile(v, true), m) && NoEscapeSign(t) && Agree(m, t)
    ensures Agree(v, t)
  {
    var n := if |m| <= |t| then |m| else |t|;
    assert m[..n] == t[..n];
    SignFreePrefix(v, m, n);
    if |m| <= |t| { assert m[..n] == m; } else { assert t[..n] == t; }
  }

  /** The character of the rendering that reads an opening bracket of a match. */
  lemma {:induction false} BracketAtom(p: seq<Atom>, m: string, h: nat) returns (i: nat)
    requires Matches(p, m) && h < |m| && m[h] == '<'
    ensures i < |p| && p[i] == Literal('<') && Matches(p[i..], m[h..]) && (h > 0 ==> i > 0)
    decreases |p|
  {
    if h == 0 {
      i := 0;
      assert p[0..] == p && m[0..] == m;
    } else {
      var n := MatchTail(p, m);
      assert n <= h;
      var j := BracketAtom(p[1..], m[n..], h - n);
      i := j + 1;
      assert p[1..][j..] == p[i..] && m[n..][h - n..] == m[h..];
    }
  }

  /** What the first atom of a match takes, and the match of the others. */
  lemma MatchTail(p: seq<Atom>, m: string) returns (n: nat)
    requires Matches(p, m) && m != ""
    ensures p != [] && n == AtomLen(p[0], m) && 1 <= n <= |m| && (n == 2 ==> m[1] == '/')
    ensures Matches(p[1..], m[n..])
  {
    n := AtomLen(p[0], m);
  }

  /** No recognised escape holds a bracket, so a pattern can be cut at one. */
  lemma {:induction false} CutAtBracket(v: string, i: nat)
    requires i < |v| && v[i] == '<'
    ensures Compile(v, true)[i..] == Compile(v[i..], true)
    decreases |v|
  {
    var k := TokenLen(v);
    if i == 0 {
      assert v[0..] == v && Compile(v, true)[0..] == Compile(v, true);
    } else {
      EscapeHasNoBracket(v, i);
      var rest := v[k..];
      CutAtBracket(rest, i - k);
      assert rest[i - k..] == v[i..];
      assert Compile(v, true)[i..] == Compile(rest, true)[i - k..];
    }
  }

  lemma EscapeHasNoBracket(v: string, i: nat)
    requires 0 < i < |v| && v[i] == '<'
    ensures TokenLen(v) <= i
  {
  }

  /** A match that runs into a placeholder comes from a rendering that does. */
  lemma RunsIntoCarries(v: string, m: string, h: nat) returns (i: nat)
    requires Matches(Compile(v, true), m) && 0 < h < |m| && RunsInto(m, h)
    ensures 0 < i < |v| && RunsInto(v, i)
  {
    var p := Compile(v, true);
    assert m[h..][0] == REDACTED[0];
    i := BracketAtom(p, m, h);
    AtomAt(v, true, i);
    CutAtBracket(v, i);
    PlaceholderHasNoSign(0);
    assert REDACTED[0..] == REDACTED;
    AgreementCarries(v[i..], m[h..], REDACTED);
  }

  /** The condition on a rendering covers everything its pattern matches. */
  lemma ApartPattern(v: string)
    requires v != "" && ApartText(v)
    ensures Apart(Compile(v, true))
  {
    forall m | Matches(Compile(v, true), m) ensures ApartText(m) {
      forall k | 0 <= k < |REDACTED| ensures !BeginsInside(m, k) {
        if BeginsInside(m, k) {
          PlaceholderHasNoSign(k);
          AgreementCarries(v, m, REDACTED[k..]);
          assert BeginsInside(v, k);
        }
      }
      forall h | 0 < h < |m| ensures !RunsInto(m, h) {
        if RunsInto(m, h) { var i := RunsIntoCarries(v, m, h); }
      }
    }
  }

  /** A placeholder's end holds its bracket. */
  lemma EndHasBracket(v: string, k: nat)
    requires k < |REDACTED| && REDACTED[k..] <= v
    ensures '>' in v
  {
    assert v[|REDACTED| - 1 - k] == REDACTED[k..][|REDACTED| - 1 - k] == '>';
  }

  /** Long parts of a placeholder hold a bracket, but for its word. */
  lemma InsideHasBracket(v: string, k: nat)
    requires k < |REDACTED| && v <= REDACTED[k..] && |v| >= 8
    ensures v == "redacted" || '<' in v || '>' in v
  {
    if |v| == |REDACTED| - k {
      EndHasBracket(v, k);
    } else if k == 0 {
      assert v[0] == REDACTED[k..][0];
    } else {
      assert v == REDACTED[1..9] == "redacted";
    }
  }

  /** Long text without brackets, other than the placeholder's own word, is apart. */
  lemma BracketlessIsApart(v: string)
    requires |v| >= 8 && v != "redacted" && '<' !in v && '>' !in v
    ensures ApartText(v)
  {
    forall k | 0 <= k < |REDACTED| ensures !BeginsInside(v, k) {
      if v <= REDACTED[k..] {
        InsideHasBracket(v, k);
      } else if REDACTED[k..] <= v {
        EndHasBracket(v, k);
      }
    }
    forall h | 0 < h < |v| ensures !RunsInto(v, h) {
      assert v[h..][0] == v[h] && v[h] in v;
    }
  }
}
