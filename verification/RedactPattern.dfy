/**
 The patterns the value-based redactor compiles from one rendering of a secret: every
 character is matched literally, except that hex digits inside a recognised escape match
 in either case and a solidus may also be spelled with a backslash.
 */
module RedactPattern {
  import opened Wrappers
  import opened Sequences

  predicate IsDigit(c: char) {
    '0' <= c <= '9'
  }

  predicate IsHex(c: char) {
    IsDigit(c) || 'a' <= c <= 'f' || 'A' <= c <= 'F'
  }

  /** Lower case of a hex letter. */
  function FoldHex(c: char): char {
    if 'A' <= c <= 'F' then c - 'A' + 'a' else c
  }

  /** The same hex digit, in either case (section 6.2.2.1 of RFC 3986). */
  predicate HexSame(a: char, b: char) {
    IsHex(a) && IsHex(b) && FoldHex(a) == FoldHex(b)
  }

  predicate AllHex(s: string) {
    forall i :: 0 <= i < |s| ==> IsHex(s[i])
  }

  /**
   `%25[0-9A-Fa-f]{2}|%[0-9A-Fa-f]{2}|\\u[0-9A-Fa-f]{4}|\\x[0-9A-Fa-f]{2}` at the start
   of `s`: the length of the escape, or 0.
   */
  function EscapeLen(s: string): (k: nat)
    ensures k <= |s| && (k == 0 || k == 3 || k == 4 || k == 5 || k == 6)
  {
    if |s| >= 5 && s[0] == '%' && s[1] == '2' && s[2] == '5' && IsHex(s[3]) && IsHex(s[4]) then 5
    else if |s| >= 3 && s[0] == '%' && IsHex(s[1]) && IsHex(s[2]) then 3
    else if |s| >= 6 && s[0] == '\\' && s[1] == 'u'
            && IsHex(s[2]) && IsHex(s[3]) && IsHex(s[4]) && IsHex(s[5]) then 6
    else if |s| >= 4 && s[0] == '\\' && s[1] == 'x' && IsHex(s[2]) && IsHex(s[3]) then 4
    else 0
  }

  /** The part of an escape that is matched literally: `%`, `\u` or `\x`. */
  function LeadLen(s: string): nat {
    if s != "" && s[0] == '%' then 1 else 2
  }

  datatype Atom = Literal(c: char) | HexDigit(c: char) | Solidus

  function Literals(s: string): seq<Atom> {
    seq(|s|, i requires 0 <= i < |s| => Literal(s[i]))
  }

  /** The escape at the start of `s`: its lead literally, its digits in either case. */
  function EscapeAtoms(s: string): seq<Atom> {
    seq(EscapeLen(s), i requires 0 <= i < EscapeLen(s) => if i < LeadLen(s) then Literal(s[i]) else HexDigit(s[i]))
  }

  lemma EscapeAtomAt(s: string, i: nat)
    requires i < EscapeLen(s)
    ensures EscapeAtoms(s)[i] == if i < LeadLen(s) then Literal(s[i]) else HexDigit(s[i])
  {
  }

  /** An escape, or one character. */
  function TokenLen(s: string): (k: nat)
    requires s != ""
    ensures 0 < k <= |s|
  {
    if EscapeLen(s) > 0 then EscapeLen(s) else 1
  }

  function TokenAtoms(s: string, tolerant: bool): (p: seq<Atom>)
    requires s != ""
    ensures |p| == TokenLen(s)
  {
    if EscapeLen(s) > 0 then EscapeAtoms(s)
    else [if s[0] == '/' && tolerant then Solidus else Literal(s[0])]
  }

  /** The pattern of a whole rendering; a solidus is tolerant only where asked for. */
  function Compile(s: string, tolerant: bool): (p: seq<Atom>)
    ensures |p| == |s|
    decreases |s|
  {
    if s == "" then [] else TokenAtoms(s, tolerant) + Compile(s[TokenLen(s)..], tolerant)
  }

  /** How much of `t` one atom matches; 0 for no match. */
  function AtomLen(a: Atom, t: string): (n: nat)
    ensures n <= |t| && n <= 2
  {
    if t == "" then 0
    else
      match a
      case Literal(c) => if t[0] == c then 1 else 0
      case HexDigit(c) => if HexSame(c, t[0]) then 1 else 0
      case Solidus =>
        if t[0] == '/' then 1
        else if |t| >= 2 && t[0] == '\\' && t[1] == '/' then 2
        else 0
  }

  /** The length of the match of `p` at the start of `t`, if there is one. */
  function MatchLen(p: seq<Atom>, t: string): (r: Option<nat>)
    ensures r.Some? ==> |p| <= r.value <= |t|
    decreases |p|
  {
    if p == [] then Some(0)
    else
      var n := AtomLen(p[0], t);
      if n == 0 then None else Longer(MatchLen(p[1..], t[n..]), n)
  }

  function Longer(r: Option<nat>, extra: nat): Option<nat> {
    match r
    case None => None
    case Some(n) => Some(n + extra)
  }

  /** The whole of `m` is one match. */
  predicate Matches(p: seq<Atom>, m: string) {
    MatchLen(p, m) == Some(|m|)
  }

  // ----- how the source builds the pattern

  /** Where the next escape of `s` starts, at or after `from`. */
  function NextEscape(s: string, from: nat): (r: nat)
    requires from <= |s|
    ensures from <= r <= |s| && (r < |s| ==> EscapeLen(s[r..]) > 0)
    ensures forall i :: from <= i < r ==> EscapeLen(s[i..]) == 0
    decreases |s| - from
  {
    if from == |s| || EscapeLen(s[from..]) > 0 then from else NextEscape(s, from + 1)
  }

  lemma CompileOne(s: string, from: nat)
    requires from < |s| && EscapeLen(s[from..]) == 0
    ensures Compile(s[from..], false) == [Literal(s[from])] + Compile(s[from + 1..], false)
  {
    var rest := s[from..];
    assert rest[1..] == s[from + 1..] && rest[0] == s[from];
  }

  lemma LiteralsCons(s: string, from: nat, to: nat)
    requires from < to <= |s|
    ensures Literals(s[from..to]) == [Literal(s[from])] + Literals(s[from + 1..to])
  {
  }

  lemma {:induction false} CompileLiterals(s: string, from: nat, to: nat)
    requires from <= to <= |s| && forall i :: from <= i < to ==> EscapeLen(s[i..]) == 0
    ensures Compile(s[from..], false) == Literals(s[from..to]) + Compile(s[to..], false)
    decreases |s| - from
  {
    if from < to {
      CompileOne(s, from);
      CompileLiterals(s, from + 1, to);
      LiteralsCons(s, from, to);
      AppendAssociates([Literal(s[from])], Literals(s[from + 1..to]), Compile(s[to..], false));
    } else {
      assert Literals(s[from..to]) == [];
    }
  }

  lemma CompileEscape(s: string)
    requires EscapeLen(s) > 0
    ensures Compile(s, false) == EscapeAtoms(s) + Compile(s[EscapeLen(s)..], false)
  {
  }

  /** `_variant_regex`: literal text between the escapes, digit classes inside them. */
  method VariantRegex(variant: string) returns (parts: seq<Atom>)
    ensures parts == Compile(variant, false)
  {
    parts := [];
    var pos := 0;
    assert variant[0..] == variant;
    while pos < |variant|
      invariant pos <= |variant|
      invariant parts + Compile(variant[pos..], false) == Compile(variant, false)
    {
      var start := NextEscape(variant, pos);
      CompileLiterals(variant, pos, start);
      AppendAssociates(parts, Literals(variant[pos..start]), Compile(variant[start..], false));
      parts := parts + Literals(variant[pos..start]);
      pos := start;
      if start < |variant| {
        var token := variant[start..];
        CompileEscape(token);
        pos := start + EscapeLen(token);
        assert token[EscapeLen(token)..] == variant[pos..];
        AppendAssociates(parts, EscapeAtoms(token), Compile(variant[pos..], false));
        parts := parts + EscapeAtoms(token);
      }
    }
  }

  /** No escape reaches over a solidus. */
  lemma EscapeStopsAtSolidus(a: string, b: string)
    requires a != ""
    ensures EscapeLen(a + "/" + b) == EscapeLen(a) && TokenLen(a + "/" + b) == TokenLen(a)
  {
    var t := a + "/" + b;
    assert t[|a|] == '/';
    assert forall i :: 0 <= i < |a| ==> t[i] == a[i];
  }

  lemma TokenBeforeSolidus(a: string, b: string)
    requires a != "" && '/' !in a
    ensures var k := TokenLen(a);
            && TokenLen(a + "/" + b) == k && (a + "/" + b)[k..] == a[k..] + "/" + b
            && TokenAtoms(a + "/" + b, true) == TokenAtoms(a, false)
  {
    EscapeStopsAtSolidus(a, b);
    var t := a + "/" + b;
    assert forall i :: 0 <= i < |a| ==> t[i] == a[i];
    assert a[0] in a && LeadLen(t) == LeadLen(a);
    assert EscapeAtoms(t) == EscapeAtoms(a);
  }

  lemma {:induction false} CompileOverSolidus(a: string, b: string)
    requires '/' !in a
    ensures Compile(a + "/" + b, true) == Compile(a, false) + ([Solidus] + Compile(b, true))
    decreases |a|
  {
    var t := a + "/" + b;
    if a == "" {
      assert t[0] == '/' && EscapeLen(t) == 0 && t[1..] == b;
    } else {
      var k := TokenLen(a);
      TokenBeforeSolidus(a, b);
      CompileOverSolidus(a[k..], b);
      AppendAssociates(TokenAtoms(a, false), Compile(a[k..], false), [Solidus] + Compile(b, true));
    }
  }

  lemma {:induction false} CompilePlain(s: string)
    requires '/' !in s
    ensures Compile(s, true) == Compile(s, false)
    decreases |s|
  {
    if s != "" { CompilePlain(s[TokenLen(s)..]); }
  }

  lemma SolidusStep(s: string, start: nat, index: nat, parts: seq<Atom>)
    requires start <= index < |s| && s[index] == '/' && '/' !in s[start..index]
    ensures parts + Compile(s[start..], true)
         == parts + Compile(s[start..index], false) + [Solidus] + Compile(s[index + 1..], true)
  {
    var piece, rest := Compile(s[start..index], false), Compile(s[index + 1..], true);
    assert s[start..] == s[start..index] + "/" + s[index + 1..];
    CompileOverSolidus(s[start..index], s[index + 1..]);
    AppendAssociates(parts, piece, [Solidus] + rest);
    AppendAssociates(parts + piece, [Solidus], rest);
  }

  lemma NoSolidusYet(s: string, start: nat, index: nat)
    requires start <= index + 1 <= |s| && (start <= index ==> '/' !in s[start..index] && s[index] != '/')
    ensures '/' !in s[start..index + 1]
  {
    if start <= index {
      assert s[start..index + 1] == s[start..index] + [s[index]];
    }
  }

  /** `_solidus_tolerant_regex`: one tolerant alternative at each solidus of the body. */
  method SolidusTolerantRegex(variant: string) returns (parts: seq<Atom>)
    ensures parts == Compile(variant, true)
  {
    parts := [];
    var start := 0;
    assert variant[0..] == variant;
    for index := 0 to |variant|
      invariant start <= index && '/' !in variant[start..index]
      invariant parts + Compile(variant[start..], true) == Compile(variant, true)
    {
      if variant[index] == '/' {
        SolidusStep(variant, start, index, parts);
        var piece := VariantRegex(variant[start..index]);
        parts := parts + piece + [Solidus];
        start := index + 1;
      }
      NoSolidusYet(variant, start, index);
    }
    var last := VariantRegex(variant[start..]);
    assert variant[start..|variant|] == variant[start..];
    CompilePlain(variant[start..]);
    parts := parts + last;
  }

  // ----- the language of a pattern

  /** Position `i` of `s` is a hex digit inside an escape the left-to-right scan recognises. */
  predicate InEscape(s: string, i: nat)
    requires i < |s|
    decreases |s|
  {
    if i < TokenLen(s) then EscapeLen(s) > 0 && LeadLen(s) <= i
    else InEscape(s[TokenLen(s)..], i - TokenLen(s))
  }

  /** `m` is `s` but for the case of hex digits inside recognised escapes. */
  predicate CaseVariant(s: string, m: string) {
    |m| == |s| && forall i :: 0 <= i < |s| ==> m[i] == s[i] || (InEscape(s, i) && HexSame(s[i], m[i]))
  }

  /** The atom at each position. */
  lemma {:induction false} AtomAt(s: string, tolerant: bool, i: nat)
    requires i < |s|
    ensures Compile(s, tolerant)[i]
         == if InEscape(s, i) then HexDigit(s[i])
            else if s[i] == '/' && tolerant then Solidus
            else Literal(s[i])
    ensures InEscape(s, i) ==> IsHex(s[i])
    decreases |s|
  {
    var k := TokenLen(s);
    if i >= k { AtomAt(s[k..], tolerant, i - k); }
  }

  /** Without a solidus, matching is position by position. */
  lemma {:induction false} MatchPointwise(p: seq<Atom>, t: string)
    requires forall i :: 0 <= i < |p| ==> !p[i].Solidus?
    ensures MatchLen(p, t)
         == if |p| <= |t| && (forall i :: 0 <= i < |p| ==> AtomLen(p[i], [t[i]]) == 1) then Some(|p|) else None
    decreases |p|
  {
    if p != [] && t != "" {
      MatchPointwise(p[1..], t[1..]);
      assert AtomLen(p[0], t) == AtomLen(p[0], [t[0]]);
      if |p| <= |t| {
        assert (forall i :: 0 <= i < |p| ==> AtomLen(p[i], [t[i]]) == 1)
          <==> AtomLen(p[0], [t[0]]) == 1
               && (forall i :: 0 <= i < |p[1..]| ==> AtomLen(p[1..][i], [t[1..][i]]) == 1) by {
          assert forall i :: 0 < i < |p| ==> p[i] == p[1..][i - 1] && t[i] == t[1..][i - 1];
        }
      }
    }
  }

  // ----- escapes by position

  predicate HexAt(s: string, i: int) {
    0 <= i < |s| && IsHex(s[i])
  }

  predicate CharAt(s: string, i: int, c: char) {
    0 <= i < |s| && s[i] == c
  }

  /** `%` and two hex digits, or `%25` and two more, or `\u` and four, or `\x` and two. */
  predicate EscapeFrom(s: string, j: int, len: int) {
    || (len == 3 && CharAt(s, j, '%') && HexAt(s, j + 1) && HexAt(s, j + 2))
    || (len == 5 && CharAt(s, j, '%') && CharAt(s, j + 1, '2') && CharAt(s, j + 2, '5')
        && HexAt(s, j + 3) && HexAt(s, j + 4))
    || (len == 6 && CharAt(s, j, '\\') && CharAt(s, j + 1, 'u')
        && HexAt(s, j + 2) && HexAt(s, j + 3) && HexAt(s, j + 4) && HexAt(s, j + 5))
    || (len == 4 && CharAt(s, j, '\\') && CharAt(s, j + 1, 'x') && HexAt(s, j + 2) && HexAt(s, j + 3))
  }

  /** Position `i` is a digit of some escape, wherever in the text it starts. */
  predicate Varies(s: string, i: int) {
    exists j, len | 0 <= j < i < j + len && len <= 6 :: EscapeFrom(s, j, len) && (s[j] == '\\' ==> j + 1 < i)
  }

  /** No escape starts inside another: a digit of any escape is one of an escape that the scan recognises. */
  lemma {:induction false} InEscapeVaries(s: string, i: nat)
    requires i < |s|
    ensures InEscape(s, i) <==> Varies(s, i)
    decreases |s|
  {
    var k := TokenLen(s);
    if i < k {
      FirstTokenVaries(s, i);
    } else {
      InEscapeVaries(s[k..], i - k);
      VariesBehindToken(s, i);
    }
  }

  lemma FirstTokenVaries(s: string, i: nat)
    requires i < |s| && i < TokenLen(s)
    ensures Varies(s, i) <==> EscapeLen(s) > 0 && LeadLen(s) <= i
  {
    if EscapeLen(s) > 0 {
      assert EscapeFrom(s, 0, EscapeLen(s));
    }
    if Varies(s, i) {
      var j, len :| 0 <= j < i < j + len && len <= 6 && EscapeFrom(s, j, len) && (s[j] == '\\' ==> j + 1 < i);
      assert j == 0;
    }
  }

  lemma VariesBehindToken(s: string, i: nat)
    requires s != "" && TokenLen(s) <= i < |s|
    ensures Varies(s, i) <==> Varies(s[TokenLen(s)..], i - TokenLen(s))
  {
    var k := TokenLen(s);
    if Varies(s, i) {
      var j, len :| 0 <= j < i < j + len && len <= 6 && EscapeFrom(s, j, len) && (s[j] == '\\' ==> j + 1 < i);
      EscapeStartsAtToken(s, j, len, i);
      EscapeShifts(s, k, j - k, len);
      assert EscapeFrom(s[k..], j - k, len);
    }
    if j, len :| 0 <= j < i - k < j + len && len <= 6 && EscapeFrom(s[k..], j, len) && (s[k..][j] == '\\' ==> j + 1 < i - k) {
      EscapeShifts(s, k, j, len);
      assert EscapeFrom(s, j + k, len) && s[j + k] == s[k..][j];
    }
  }

  lemma EscapeShifts(s: string, k: nat, j: nat, len: int)
    requires k <= |s|
    ensures EscapeFrom(s[k..], j, len) <==> EscapeFrom(s, j + k, len)
  {
    forall x | j <= x < j + 6 ensures HexAt(s[k..], x) <==> HexAt(s, x + k) {
    }
    forall x, c | j <= x < j + 6 ensures CharAt(s[k..], x, c) <==> CharAt(s, x + k, c) {
    }
  }

  /** An escape that reaches past the first token starts behind it. */
  lemma EscapeStartsAtToken(s: string, j: nat, len: nat, i: nat)
    requires s != "" && EscapeFrom(s, j, len) && j < i < j + len && TokenLen(s) <= i < |s|
    ensures j >= TokenLen(s)
  {
  }

  /**
   The exact language of `_variant_regex`: the strings of the same length that differ only in
   the case of digits of escapes, which are `%XX`, `%25XX`, `\uXXXX` and `\xXX`.
   */
  lemma VariantLanguage(s: string, m: string)
    ensures Matches(Compile(s, false), m) <==> CaseVariant(s, m)
    ensures Matches(Compile(s, false), m)
       <==> |m| == |s| && forall i :: 0 <= i < |s| ==> m[i] == s[i] || (Varies(s, i) && HexSame(s[i], m[i]))
  {
    var p := Compile(s, false);
    forall i | 0 <= i < |s|
      ensures p[i] == if InEscape(s, i) then HexDigit(s[i]) else Literal(s[i])
      ensures InEscape(s, i) ==> IsHex(s[i])
      ensures InEscape(s, i) <==> Varies(s, i)
    {
      AtomAt(s, false, i);
      InEscapeVaries(s, i);
    }
    MatchPointwise(p, m);
  }

  /** `m` spells `s` from position `i` on: digits of escapes in either case, a solidus with or without a backslash. */
  predicate Spells(s: string, i: nat, m: string)
    requires i <= |s|
    decreases |s| - i
  {
    if i == |s| then m == ""
    else if s[i] == '/' then
      || (m != "" && m[0] == '/' && Spells(s, i + 1, m[1..]))
      || (|m| >= 2 && m[0] == '\\' && m[1] == '/' && Spells(s, i + 1, m[2..]))
    else m != "" && (m[0] == s[i] || (Varies(s, i) && HexSame(s[i], m[0]))) && Spells(s, i + 1, m[1..])
  }

  /** What each position of a rendering becomes. */
  ghost predicate AtomsOf(s: string, p: seq<Atom>) {
    |p| == |s| && forall i | 0 <= i < |s| :: AtomOf(s, i, p[i])
  }

  predicate AtomOf(s: string, i: nat, a: Atom)
    requires i < |s|
  {
    if s[i] == '/' then a == Solidus && !Varies(s, i)
    else a == if Varies(s, i) then HexDigit(s[i]) else Literal(s[i])
  }

  lemma CompiledAtoms(s: string)
    ensures AtomsOf(s, Compile(s, true))
  {
    forall i | 0 <= i < |s| ensures AtomOf(s, i, Compile(s, true)[i]) {
      AtomAt(s, true, i);
      InEscapeVaries(s, i);
    }
  }

  lemma MatchesCons(a: Atom, rest: seq<Atom>, m: string)
    ensures var n := AtomLen(a, m); Matches([a] + rest, m) <==> n > 0 && Matches(rest, m[n..])
  {
    assert ([a] + rest)[1..] == rest;
  }

  lemma {:induction false} SpellsFrom(s: string, p: seq<Atom>, i: nat, m: string)
    requires AtomsOf(s, p) && i <= |s|
    ensures Matches(p[i..], m) <==> Spells(s, i, m)
    decreases |s| - i
  {
    if i < |s| {
      assert p[i..] == [p[i]] + p[i + 1..] && AtomOf(s, i, p[i]);
      MatchesCons(p[i], p[i + 1..], m);
      SpellsFrom(s, p, i + 1, m[AtomLen(p[i], m)..]);
    } else {
      assert p[i..] == [];
    }
  }

  /** The exact language of `_solidus_tolerant_regex`. */
  lemma TolerantLanguage(s: string, m: string)
    ensures Matches(Compile(s, true), m) <==> Spells(s, 0, m)
  {
    CompiledAtoms(s);
    SpellsFrom(s, Compile(s, true), 0, m);
    assert Compile(s, true)[0..] == Compile(s, true);
  }
}
