/**
 The escape-aware scanners of the shape-based redactor, and where they stop on any text: a
 quoted literal is consumed up to its own closing quote, a container's body up to a bracket.
 */
module Scanners {

  predicate IsQuote(c: char) {
    c == '\'' || c == '"'
  }

  // ----- `_QUOTED_VALUE`: (?:\\[\s\S]|(?!(?P=q))[^\\])*

  /** How much of `t` the run consumes, for the opening quote `q`. */
  function QuotedRun(t: string, q: char): (n: nat)
    ensures n <= |t|
    decreases |t|
  {
    if t == "" then 0
    else if t[0] == '\\' then if |t| >= 2 then 2 + QuotedRun(t[2..], q) else 0
    else if t[0] == q then 0
    else 1 + QuotedRun(t[1..], q)
  }

  /** The body of a quoted literal: escaped pairs, and characters that need no escape. */
  predicate LiteralBody(b: string, q: char)
    decreases |b|
  {
    b == ""
    || (b[0] == '\\' && |b| >= 2 && LiteralBody(b[2..], q))
    || (b[0] != '\\' && b[0] != q && LiteralBody(b[1..], q))
  }

  /** One character as a literal prints it between quotes `q`. */
  function EscapeChar(c: char, q: char): string {
    if c == '\\' || c == q then ['\\', c]
    else if c == '\n' then "\\n"
    else if c == '\r' then "\\r"
    else if c == '\t' then "\\t"
    else [c]
  }

  function Escape(s: string, q: char): string {
    if s == "" then "" else EscapeChar(s[0], q) + Escape(s[1..], q)
  }

  lemma EscapedCharIsBody(c: char, rest: string, q: char)
    requires IsQuote(q) && LiteralBody(rest, q)
    ensures LiteralBody(EscapeChar(c, q) + rest, q)
  {
    var e := EscapeChar(c, q);
    assert (e + rest)[|e|..] == rest;
  }

  lemma {:induction false} EscapeIsBody(s: string, q: char)
    requires IsQuote(q)
    ensures LiteralBody(Escape(s, q), q)
  {
    if s != "" {
      EscapeIsBody(s[1..], q);
      EscapedCharIsBody(s[0], Escape(s[1..], q), q);
    }
  }

  /** The run consumes exactly a literal's body, whatever follows the closing quote. */
  lemma {:induction false} QuotedRunOfBody(b: string, q: char, suffix: string)
    requires IsQuote(q) && LiteralBody(b, q)
    ensures QuotedRun(b + [q] + suffix, q) == |b|
    decreases |b|
  {
    var t := b + [q] + suffix;
    if b != "" {
      var k := if b[0] == '\\' then 2 else 1;
      assert t[k..] == b[k..] + [q] + suffix;
      QuotedRunOfBody(b[k..], q, suffix);
    }
  }

  lemma BodyCons(t: string, q: char, k: nat, n: nat)
    requires k <= n <= |t| && LiteralBody(t[k..][..n - k], q)
    requires (k == 2 && t[0] == '\\') || (k == 1 && t[0] != '\\' && t[0] != q)
    ensures LiteralBody(t[..n], q)
  {
    assert t[..n][k..] == t[k..][..n - k];
    assert t[..n][0] == t[0];
  }

  /** A truncated literal is swallowed whole, but for a lone last backslash. */
  lemma {:induction false} QuotedRunIsBody(t: string, q: char)
    requires IsQuote(q)
    ensures var n := QuotedRun(t, q);
            && LiteralBody(t[..n], q)
            && (n == |t| || t[n] == q || (n == |t| - 1 && t[n] == '\\'))
    decreases |t|
  {
    var n := QuotedRun(t, q);
    if n > 0 {
      var k := if t[0] == '\\' then 2 else 1;
      QuotedRunIsBody(t[k..], q);
      BodyCons(t, q, k, n);
    }
  }

  /** Printing a text and scanning the literal gives back exactly the printed body. */
  lemma PrintedLiteralScans(s: string, q: char, suffix: string)
    requires IsQuote(q)
    ensures QuotedRun(Escape(s, q) + [q] + suffix, q) == |Escape(s, q)|
  {
    EscapeIsBody(s, q);
    QuotedRunOfBody(Escape(s, q), q, suffix);
  }

  // ----- `_CONTAINER_ELEM` and `_CONTAINER_BODY`

  predicate IsOpener(c: char) {
    c == '[' || c == '('
  }

  predicate IsCloser(c: char) {
    c == ']' || c == ')'
  }

  /** `(?:[^q\\]|\\.)*+`: as above, except that an escaped newline stops it. */
  function StringRun(t: string, q: char): (n: nat)
    ensures n <= |t|
    decreases |t|
  {
    if t == "" then 0
    else if t[0] == '\\' then if |t| >= 2 && t[1] != '\n' then 2 + StringRun(t[2..], q) else 0
    else if t[0] == q then 0
    else 1 + StringRun(t[1..], q)
  }

  /** One quoted string, its closing quote optional, or one plain character; 0 for neither. */
  function ElemLen(t: string): (n: nat)
    ensures n <= |t|
  {
    if t == "" || IsOpener(t[0]) || IsCloser(t[0]) then 0
    else if IsQuote(t[0]) then
      var n := 1 + StringRun(t[1..], t[0]);
      if n < |t| && t[n] == t[0] then n + 1 else n
    else 1
  }

  function ElemRun(t: string): (n: nat)
    ensures n <= |t|
    decreases |t|
  {
    if ElemLen(t) == 0 then 0 else ElemLen(t) + ElemRun(t[ElemLen(t)..])
  }

  /** With an optional closer after the first `n` characters. */
  function Closed(t: string, n: nat): (m: nat)
    requires n <= |t|
    ensures n <= m <= |t|
  {
    if n < |t| && IsCloser(t[n]) then n + 1 else n
  }

  /** A nested group, whose elements are not groups themselves. */
  function GroupLen(t: string): (n: nat)
    ensures n <= |t|
  {
    if t == "" || !IsOpener(t[0]) then 0 else Closed(t, 1 + ElemRun(t[1..]))
  }

  function UnitLen(t: string): (n: nat)
    ensures n <= |t|
  {
    if ElemLen(t) > 0 then ElemLen(t) else GroupLen(t)
  }

  function BodyRun(t: string): (n: nat)
    ensures n <= |t|
    decreases |t|
  {
    if UnitLen(t) == 0 then 0 else UnitLen(t) + BodyRun(t[UnitLen(t)..])
  }

  /** The `value` group of the container patterns, at an opening bracket. */
  function ContainerLen(t: string): (n: nat)
    ensures n <= |t|
  {
    if t == "" || !IsOpener(t[0]) then 0 else Closed(t, 1 + BodyRun(t[1..]))
  }

  // ----- where the runs stop, on any text

  /** The body of a string inside a container: no backslash before a newline. */
  predicate StringBody(b: string, q: char)
    decreases |b|
  {
    b == ""
    || (b[0] == '\\' && |b| >= 2 && b[1] != '\n' && StringBody(b[2..], q))
    || (b[0] != '\\' && b[0] != q && StringBody(b[1..], q))
  }

  lemma StringBodyCons(t: string, q: char, k: nat, n: nat)
    requires k <= n <= |t| && StringBody(t[k..][..n - k], q)
    requires (k == 2 && t[0] == '\\' && t[1] != '\n') || (k == 1 && t[0] != '\\' && t[0] != q)
    ensures StringBody(t[..n], q)
  {
    assert t[..n][k..] == t[k..][..n - k];
    assert t[..n][0] == t[0] && (k == 2 ==> t[..n][1] == t[1]);
  }

  /** The run takes a body and stops at the quote, at the end, or at a backslash it cannot read. */
  lemma {:induction false} StringRunIsBody(t: string, q: char)
    requires IsQuote(q)
    ensures var n := StringRun(t, q);
            && StringBody(t[..n], q)
            && (n == |t| || t[n] == q || (t[n] == '\\' && (n + 1 == |t| || t[n + 1] == '\n')))
    decreases |t|
  {
    var n := StringRun(t, q);
    if n > 0 {
      var k := if t[0] == '\\' then 2 else 1;
      StringRunIsBody(t[k..], q);
      StringBodyCons(t, q, k, n);
    }
  }

  /** Elements go on to the next bracket outside a string, or to the end: truncated strings are swallowed. */
  lemma {:induction false} ElemRunStops(t: string)
    ensures var n := ElemRun(t); n == |t| || IsOpener(t[n]) || IsCloser(t[n])
    decreases |t|
  {
    if ElemLen(t) > 0 { ElemRunStops(t[ElemLen(t)..]); }
  }
}
