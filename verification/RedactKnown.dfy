/**
 The value-based redactor: the renderings of the configured secrets, their patterns in
 one alternation, the scan, and the key-name guard.
 */
module RedactKnown {
  import opened RedactPattern
  import opened RedactScan
  import opened RedactApart
  import opened RedactLongest

  const MAX_NESTED_CANDIDATE_LENGTH := 16 * 1024
  const MAX_NESTED_CANDIDATES := 64

  // ----- renderings

  /** The library encoders, as total functions of the text. */
  datatype Encoders = Encoders(
    quote: string -> string, quotePlus: string -> string,
    base64: string -> string, base64Url: string -> string,
    json: string -> string, repr: string -> string)

  /** `u` is `s` without the `=` signs that end it. */
  predicate Unpadded(s: string, u: string) {
    u <= s && (u == "" || u[|u| - 1] != '=') && forall i :: |u| <= i < |s| ==> s[i] == '='
  }

  predicate PercentForm(enc: Encoders, s: string, v: string) {
    v == enc.quote(s) || v == enc.quotePlus(s)
  }

  /** Either alphabet, with or without padding. */
  predicate Base64Form(enc: Encoders, s: string, v: string) {
    v == enc.base64(s) || Unpadded(enc.base64(s), v) || v == enc.base64Url(s) || Unpadded(enc.base64Url(s), v)
  }

  /** Position `i` is one of the two hex digits after a percent sign. */
  predicate PercentDigit(s: string, i: nat) {
    EscapeFrom(s, i - 1, 3) || EscapeFrom(s, i - 2, 3)
  }

  /** The same text, its percent escapes in lower case. */
  predicate LowerForm(s: string, l: string) {
    |l| == |s| && forall i :: 0 <= i < |s| ==> l[i] == if PercentDigit(s, i) then FoldHex(s[i]) else s[i]
  }

  /** A percent form as it is, or in lower case. */
  ghost predicate CasedPercentForm(enc: Encoders, value: string, l: string) {
    exists p :: PercentForm(enc, value, p) && (l == p || LowerForm(p, l))
  }

  /** Percent twice, base64 of percent in upper or lower case, percent of base64. */
  ghost predicate NestedForm(enc: Encoders, value: string, v: string) {
    || (exists p :: PercentForm(enc, value, p) && PercentForm(enc, p, v))
    || (exists l :: CasedPercentForm(enc, value, l) && Base64Form(enc, l, v))
    || (exists b :: Base64Form(enc, value, b) && PercentForm(enc, b, v))
  }

  /** A rendering of the secret that is masked: no count is ever cut off. */
  ghost predicate Rendering(enc: Encoders, value: string, v: string) {
    v != "" &&
    (v == value || PercentForm(enc, value, v) || Base64Form(enc, value, v)
     || v == enc.json(value) || v == enc.repr(value) || (|v| <= 16384 && NestedForm(enc, value, v)))
  }

  /** `rstrip("=")` */
  function StripPad(s: string): string {
    if s != "" && s[|s| - 1] == '=' then StripPad(s[..|s| - 1]) else s
  }

  /** `_PERCENT_HEX_RE.sub(lower)`: the same percent text with lower-case hex. */
  function LowerPercentHex(s: string): string
    decreases |s|
  {
    if s == "" then ""
    else if |s| >= 3 && s[0] == '%' && IsHex(s[1]) && IsHex(s[2]) then
      ['%', FoldHex(s[1]), FoldHex(s[2])] + LowerPercentHex(s[3..])
    else [s[0]] + LowerPercentHex(s[1..])
  }

  function PercentSpellings(enc: Encoders, s: string): seq<string> {
    [enc.quote(s), enc.quotePlus(s)]
  }

  function Base64Spellings(enc: Encoders, s: string): seq<string> {
    [enc.base64(s), StripPad(enc.base64(s)), enc.base64Url(s), StripPad(enc.base64Url(s))]
  }

  /** `dict.fromkeys`: the first of each, in order. */
  function Distinct(xs: seq<string>): (r: seq<string>)
    ensures |r| <= |xs| && forall x :: x in r <==> x in xs
  {
    if xs == [] then []
    else
      var init, last := xs[..|xs| - 1], xs[|xs| - 1];
      assert xs == init + [last];
      if last in init then Distinct(init) else Distinct(init) + [last]
  }

  function PercentHexSpellings(enc: Encoders, value: string): seq<string> {
    var p := PercentSpellings(enc, value);
    Distinct([p[0], LowerPercentHex(p[0]), p[1], LowerPercentHex(p[1])])
  }

  function FlatPercent(enc: Encoders, xs: seq<string>): (r: seq<string>)
    ensures |r| == 2 * |xs|
  {
    if xs == [] then [] else FlatPercent(enc, xs[..|xs| - 1]) + PercentSpellings(enc, xs[|xs| - 1])
  }

  function FlatBase64(enc: Encoders, xs: seq<string>): (r: seq<string>)
    ensures |r| == 4 * |xs|
  {
    if xs == [] then [] else FlatBase64(enc, xs[..|xs| - 1]) + Base64Spellings(enc, xs[|xs| - 1])
  }

  /** The three listed depth-two families. */
  function PercentTwice(enc: Encoders, value: string): (r: seq<string>)
    ensures |r| == 4
  {
    FlatPercent(enc, PercentSpellings(enc, value))
  }

  function Base64OfPercent(enc: Encoders, value: string): (r: seq<string>)
    ensures |r| <= 16
  {
    FlatBase64(enc, PercentHexSpellings(enc, value))
  }

  function PercentOfBase64(enc: Encoders, value: string): (r: seq<string>)
    ensures |r| == 8
  {
    FlatPercent(enc, Base64Spellings(enc, value))
  }

  predicate Nested(enc: Encoders, value: string, c: string) {
    c in PercentTwice(enc, value) || c in Base64OfPercent(enc, value) || c in PercentOfBase64(enc, value)
  }

  predicate Baseline(enc: Encoders, value: string, v: string) {
    v == value || v in PercentSpellings(enc, value) || v in Base64Spellings(enc, value)
    || v == enc.json(value) || v == enc.repr(value)
  }

  predicate Listed(enc: Encoders, value: string, v: string) {
    v != "" && (Baseline(enc, value, v) || (Nested(enc, value, v) && |v| <= MAX_NESTED_CANDIDATE_LENGTH))
  }

  // ----- the lists hold the renderings

  lemma {:induction false} StripPadUnpads(s: string, u: string)
    ensures Unpadded(s, u) <==> u == StripPad(s)
    decreases |s|
  {
    if s != "" && s[|s| - 1] == '=' {
      var init := s[..|s| - 1];
      StripPadUnpads(init, u);
      assert s == init + "=";
      if Unpadded(s, u) { assert u != s; }
    }
  }

  lemma LowerAtFront(s: string)
    requires |s| >= 3 && s[0] == '%' && IsHex(s[1]) && IsHex(s[2])
    ensures !PercentDigit(s, 0) && PercentDigit(s, 1) && PercentDigit(s, 2)
    ensures forall i | 3 <= i < |s| :: PercentDigit(s, i) <==> PercentDigit(s[3..], i - 3)
  {
    forall i | 3 <= i < |s| ensures PercentDigit(s, i) <==> PercentDigit(s[3..], i - 3) {
      assert EscapeFrom(s, i - 1, 3) <==> EscapeFrom(s[3..], i - 3 - 1, 3);
      assert EscapeFrom(s, i - 2, 3) <==> EscapeFrom(s[3..], i - 3 - 2, 3);
    }
  }

  lemma PlainAtFront(s: string)
    requires s != "" && !(|s| >= 3 && s[0] == '%' && IsHex(s[1]) && IsHex(s[2]))
    ensures !PercentDigit(s, 0) && forall i | 1 <= i < |s| :: PercentDigit(s, i) <==> PercentDigit(s[1..], i - 1)
  {
    forall i | 1 <= i < |s| ensures PercentDigit(s, i) <==> PercentDigit(s[1..], i - 1) {
      assert EscapeFrom(s, i - 1, 3) <==> EscapeFrom(s[1..], i - 1 - 1, 3);
      assert EscapeFrom(s, i - 2, 3) <==> EscapeFrom(s[1..], i - 1 - 2, 3);
    }
  }

  lemma {:induction false} LowerPercentIsLower(s: string)
    ensures LowerForm(s, LowerPercentHex(s))
    decreases |s|
  {
    var l := LowerPercentHex(s);
    if s == "" {
    } else if |s| >= 3 && s[0] == '%' && IsHex(s[1]) && IsHex(s[2]) {
      LowerPercentIsLower(s[3..]);
      LowerAtFront(s);
      assert forall i :: 3 <= i < |s| ==> l[i] == LowerPercentHex(s[3..])[i - 3] && s[i] == s[3..][i - 3];
    } else {
      LowerPercentIsLower(s[1..]);
      PlainAtFront(s);
      assert forall i :: 1 <= i < |s| ==> l[i] == LowerPercentHex(s[1..])[i - 1] && s[i] == s[1..][i - 1];
    }
  }

  lemma LowerFormIsUnique(s: string, l: string)
    ensures LowerForm(s, l) <==> l == LowerPercentHex(s)
  {
    LowerPercentIsLower(s);
  }

  lemma Base64Listed(enc: Encoders, s: string, v: string)
    ensures Base64Form(enc, s, v) <==> v in Base64Spellings(enc, s)
  {
    StripPadUnpads(enc.base64(s), v);
    StripPadUnpads(enc.base64Url(s), v);
  }

  lemma {:induction false} FlatPercentListed(enc: Encoders, xs: seq<string>, v: string)
    ensures v in FlatPercent(enc, xs) <==> exists x | x in xs :: PercentForm(enc, x, v)
    decreases |xs|
  {
    if xs != [] {
      var init, last := xs[..|xs| - 1], xs[|xs| - 1];
      assert xs == init + [last];
      FlatPercentListed(enc, init, v);
      assert v in PercentSpellings(enc, last) <==> PercentForm(enc, last, v);
    }
  }

  lemma {:induction false} FlatBase64Listed(enc: Encoders, xs: seq<string>, v: string)
    ensures v in FlatBase64(enc, xs) <==> exists x | x in xs :: Base64Form(enc, x, v)
    decreases |xs|
  {
    if xs != [] {
      var init, last := xs[..|xs| - 1], xs[|xs| - 1];
      assert xs == init + [last];
      FlatBase64Listed(enc, init, v);
      Base64Listed(enc, last, v);
    }
  }

  lemma PercentHexListed(enc: Encoders, value: string, l: string)
    ensures l in PercentHexSpellings(enc, value) <==> CasedPercentForm(enc, value, l)
  {
    var p := PercentSpellings(enc, value);
    LowerFormIsUnique(p[0], l);
    LowerFormIsUnique(p[1], l);
    assert PercentForm(enc, value, p[0]) && PercentForm(enc, value, p[1]);
  }

  lemma NestedListed(enc: Encoders, value: string, v: string)
    ensures NestedForm(enc, value, v) <==> Nested(enc, value, v)
  {
    FlatPercentListed(enc, PercentSpellings(enc, value), v);
    FlatBase64Listed(enc, PercentHexSpellings(enc, value), v);
    FlatPercentListed(enc, Base64Spellings(enc, value), v);
    forall x ensures PercentForm(enc, value, x) <==> x in PercentSpellings(enc, value) {
    }
    forall x ensures Base64Form(enc, value, x) <==> x in Base64Spellings(enc, value) {
      Base64Listed(enc, value, x);
    }
    forall l ensures l in PercentHexSpellings(enc, value) <==> CasedPercentForm(enc, value, l) {
      PercentHexListed(enc, value, l);
    }
  }

  /** The lists that the code builds hold exactly the renderings. */
  lemma RenderingsAreListed(enc: Encoders, value: string, v: string)
    ensures Rendering(enc, value, v) <==> Listed(enc, value, v)
  {
    Base64Listed(enc, value, v);
    NestedListed(enc, value, v);
  }

  function ToSet(xs: seq<string>): set<string> {
    set x | x in xs
  }

  /** One family; the count limit would stop it, and never does. */
  method AcceptFamily(family: seq<string>, before: set<string>) returns (accepted: set<string>)
    requires |before| + |family| <= MAX_NESTED_CANDIDATES
    ensures forall c :: c in accepted <==> c in before || (c in family && |c| <= MAX_NESTED_CANDIDATE_LENGTH)
    ensures |accepted| <= |before| + |family|
  {
    accepted := before;
    for i := 0 to |family|
      invariant forall c :: c in accepted <==> c in before || (c in family[..i] && |c| <= MAX_NESTED_CANDIDATE_LENGTH)
      invariant |accepted| <= |before| + i
    {
      if |accepted| >= MAX_NESTED_CANDIDATES { break; }
      assert family[..i + 1] == family[..i] + [family[i]];
      if |family[i]| <= MAX_NESTED_CANDIDATE_LENGTH { accepted := accepted + {family[i]}; }
    }
    assert family[..|family|] == family;
  }

  /** `_secret_value_variants`: exactly the renderings; the count limit of 64 is out of reach. */
  method SecretValueVariants(enc: Encoders, value: string) returns (variants: set<string>)
    ensures forall v :: v in variants <==> Rendering(enc, value, v)
  {
    variants := ListVariants(enc, value);
    forall v ensures v in variants <==> Rendering(enc, value, v) {
      RenderingsAreListed(enc, value, v);
    }
  }

  method ListVariants(enc: Encoders, value: string) returns (variants: set<string>)
    ensures forall v :: v in variants <==> Listed(enc, value, v)
  {
    var percent, base64 := PercentSpellings(enc, value), Base64Spellings(enc, value);
    variants := {value} + ToSet(percent) + ToSet(base64) + {enc.json(value), enc.repr(value)};
    var twice, ofPercent, ofBase64 := PercentTwice(enc, value), Base64OfPercent(enc, value), PercentOfBase64(enc, value);
    var accepted := AcceptNested(twice, ofPercent, ofBase64);
    assert forall v :: v in variants <==> Baseline(enc, value, v);
    variants := variants + accepted;
    variants := set v | v in variants && v != "";
  }

  /** The families in order, each only while the count limit is not reached. */
  method AcceptNested(f1: seq<string>, f2: seq<string>, f3: seq<string>) returns (accepted: set<string>)
    requires |f1| + |f2| + |f3| < MAX_NESTED_CANDIDATES
    ensures forall c :: c in accepted <==> (c in f1 || c in f2 || c in f3) && |c| <= MAX_NESTED_CANDIDATE_LENGTH
  {
    accepted := AcceptFamily(f1, {});
    if |accepted| >= MAX_NESTED_CANDIDATES { return; }
    accepted := AcceptFamily(f2, accepted);
    if |accepted| >= MAX_NESTED_CANDIDATES { return; }
    accepted := AcceptFamily(f3, accepted);
  }

  // ----- the key-name guard

  function LowerChar(c: char): char {
    if 'A' <= c <= 'Z' then c - 'A' + 'a'
    else if c == '\U{0130}' || c == '\U{0131}' then 'i'
    else if c == '\U{017F}' then 's'
    else if c == '\U{212A}' then 'k'
    else c
  }

  function Lower(s: string): string {
    if s == "" then "" else [LowerChar(s[0])] + Lower(s[1..])
  }

  const API_WORDS: set<string> := {"apikey", "api-key", "api_key"}
  const ACCESS_WORDS: set<string> := {"accesstoken", "access-token", "access_token"}
  const AUTH_WORDS: set<string> := {"authtoken", "auth-token", "auth_token"}
  const FERNET_WORDS: set<string> := {"fernetkey", "fernet-key", "fernet_key"}
  const SINGLE_WORDS: set<string> := {
    "token", "passkey", "password", "passwd", "pwd", "secret", "authorization"}

  const KEY_WORDS: set<string> := API_WORDS + ACCESS_WORDS + AUTH_WORDS + FERNET_WORDS + SINGLE_WORDS

  /** `_KEY_WORD_FULL_RE.fullmatch`, case-insensitively as Python folds case. */
  predicate IsKeyWord(m: string, words: set<string>) {
    Lower(m) in words
  }

  /** Key words hold no character that a pattern treats specially. */
  predicate PlainWords(words: set<string>) {
    forall w | w in words :: NoEscapeSign(w)
  }

  /**
   The rest of the guard: whether the occurrence at these positions of the text stands as
   the key of a pair that the shape grammar goes on to mask.
   */
  type KeyRole = (string, nat, nat) -> bool

  /** The occurrences `_mask_known_value` leaves readable. */
  function SparedSpans(hits: Hits, text: string, words: set<string>, role: KeyRole): (spared: Spans)
    requires Within(hits, text)
    ensures forall o | o in spared ::
              o.0 in hits && o.1 == o.0 + hits[o.0] && IsKeyWord(text[o.0..o.0 + hits[o.0]], words)
  {
    set i | i in hits && IsKeyWord(text[i..i + hits[i]], words) && role(text, i, i + hits[i]) :: (i, i + hits[i])
  }

  lemma SparedExactly(hits: Hits, text: string, words: set<string>, role: KeyRole, i: nat)
    requires Within(hits, text) && i in hits
    ensures (i, i + hits[i]) in SparedSpans(hits, text, words, role)
       <==> IsKeyWord(text[i..i + hits[i]], words) && role(text, i, i + hits[i])
  {
  }

  // ----- what may be masked for good

  predicate Bracketless(s: string) {
    '<' !in s && '>' !in s
  }

  /** A value long enough, free of angle brackets, and not the placeholder's own word. */
  predicate Clean(s: string) {
    |s| >= 8 && Bracketless(s) && s != "redacted"
  }

  lemma {:induction false} LowerAt(s: string, i: nat)
    requires i < |s|
    ensures |Lower(s)| == |s| && Lower(s)[i] == LowerChar(s[i])
    decreases |s|
  {
    if i > 0 {
      LowerAt(s[1..], i - 1);
    } else if s[1..] != "" {
      LowerAt(s[1..], 0);
    }
  }

  lemma ApiWordsArePlain()
    ensures PlainWords(API_WORDS) && PlainWords(ACCESS_WORDS)
  {
  }

  lemma AuthWordsArePlain()
    ensures PlainWords(AUTH_WORDS) && PlainWords(FERNET_WORDS)
  {
  }

  lemma SingleWordsArePlain()
    ensures PlainWords(SINGLE_WORDS)
  {
  }

  lemma KeyWordsArePlain()
    ensures PlainWords(KEY_WORDS)
  {
    ApiWordsArePlain();
    AuthWordsArePlain();
    SingleWordsArePlain();
  }

  lemma KeyWordIsPlain(m: string, words: set<string>)
    requires IsKeyWord(m, words) && PlainWords(words)
    ensures NoEscapeSign(m)
  {
    assert NoEscapeSign(Lower(m));
    forall i | 0 <= i < |m| ensures !IsEscapeSign(m[i]) {
      LowerAt(m, i);
    }
  }

  /** A rendering that is no key word has no match that is one. */
  lemma NoMatchIsKeyWord(v: string, m: string, words: set<string>)
    requires PlainWords(words) && !IsKeyWord(v, words) && Matches(Compile(v, true), m)
    ensures !IsKeyWord(m, words)
  {
    if IsKeyWord(m, words) {
      KeyWordIsPlain(m, words);
      assert m[..|m|] == m;
      SignFreePrefix(v, m, |m|);
    }
  }

  // ----- the whole pass

  ghost predicate Rendered(enc: Encoders, values: seq<string>, minLength: nat, v: string) {
    exists value | value in values :: value != "" && |value| >= minLength && Rendering(enc, value, v)
  }

  /** No rendering of a qualifying value can overlap a placeholder or is a key word. */
  ghost predicate AllMaskable(enc: Encoders, values: seq<string>, minLength: nat) {
    forall v :: Rendered(enc, values, minLength, v) ==> ApartText(v) && !IsKeyWord(v, KEY_WORDS)
  }

  function InsertLongest(p: seq<Atom>, ps: seq<seq<Atom>>): (r: seq<seq<Atom>>)
    ensures forall q :: q in r <==> q == p || q in ps
  {
    if ps == [] || SourceLen(p) >= SourceLen(ps[0]) then [p] + ps
    else
      assert ps == [ps[0]] + ps[1..];
      [ps[0]] + InsertLongest(p, ps[1..])
  }

  predicate Descending(ps: seq<seq<Atom>>) {
    forall i, j :: 0 <= i < j < |ps| ==> SourceLen(ps[i]) >= SourceLen(ps[j])
  }

  lemma {:induction false} InsertKeepsDescending(p: seq<Atom>, ps: seq<seq<Atom>>)
    requires Descending(ps)
    ensures Descending(InsertLongest(p, ps))
    decreases |ps|
  {
    if ps != [] && SourceLen(p) < SourceLen(ps[0]) {
      InsertKeepsDescending(p, ps[1..]);
      var rest := InsertLongest(p, ps[1..]);
      forall q | q in rest ensures SourceLen(q) <= SourceLen(ps[0]) {
        if q != p {
          var k :| 0 <= k < |ps[1..]| && ps[1..][k] == q;
          assert ps[k + 1] == q;
        }
      }
    }
  }

  /** `sorted(set(patterns), key=len, reverse=True)`, from the set in any order. */
  method SortPatterns(patterns: set<seq<Atom>>) returns (ps: seq<seq<Atom>>)
    ensures Descending(ps) && forall p :: p in ps <==> p in patterns
  {
    ps := [];
    var left := patterns;
    while left != {}
      invariant left <= patterns && Descending(ps) && forall p :: p in ps <==> p in patterns && p !in left
      decreases |left|
    {
      var p :| p in left;
      InsertKeepsDescending(p, ps);
      ps := InsertLongest(p, ps);
      left := left - {p};
    }
  }

  method CollectVariants(enc: Encoders, values: seq<string>, minLength: nat) returns (variants: set<string>)
    ensures forall v :: v in variants <==> Rendered(enc, values, minLength, v)
  {
    variants := {};
    for i := 0 to |values|
      invariant forall v :: v in variants <==> Rendered(enc, values[..i], minLength, v)
    {
      assert values[..i + 1] == values[..i] + [values[i]];
      if values[i] != "" && |values[i]| >= minLength {
        var more := SecretValueVariants(enc, values[i]);
        variants := variants + more;
      }
    }
    assert values[..|values|] == values;
  }

  method CompilePatterns(variants: set<string>) returns (patterns: set<seq<Atom>>)
    ensures forall p :: p in patterns <==> exists v | v in variants :: p == Compile(v, true)
  {
    patterns := {};
    var left := variants;
    while left != {}
      invariant left <= variants
      invariant forall p :: p in patterns <==> exists v | v in variants - left :: p == Compile(v, true)
      decreases |left|
    {
      var v :| v in left;
      var p := SolidusTolerantRegex(v);
      patterns := patterns + {p};
      assert variants - (left - {v}) == variants - left + {v};
      left := left - {v};
    }
    assert variants - left == variants;
  }

  /** The patterns of `ps` are those of some renderings, none of them a key word. */
  ghost predicate FromPlain(ps: seq<seq<Atom>>, variants: set<string>, words: set<string>) {
    && PlainWords(words)
    && (forall p | p in ps :: exists v | v in variants :: p == Compile(v, true))
    && (forall v | v in variants :: !IsKeyWord(v, words))
  }

  lemma PlainPattern(p: seq<Atom>, ps: seq<seq<Atom>>, variants: set<string>, m: string, words: set<string>)
    requires FromPlain(ps, variants, words) && p in ps && Matches(p, m)
    ensures !IsKeyWord(m, words)
  {
    var v :| v in variants && p == Compile(v, true);
    NoMatchIsKeyWord(v, m, words);
  }

  /** No occurrence of such renderings is spared. */
  lemma NoneSpared(variants: set<string>, ps: seq<seq<Atom>>, text: string, words: set<string>, role: KeyRole)
    requires NoEmpty(ps) && FromPlain(ps, variants, words)
    ensures SparedSpans(HitsOf(ps, text), text, words, role) == {}
  {
    forall i | i in HitsOf(ps, text) ensures NoKeyWordAt(HitsOf(ps, text), text, words, i) {
      HitIsNoKeyWord(variants, ps, text, words, i);
    }
    NoKeyWordNoneSpared(HitsOf(ps, text), text, words, role);
  }

  predicate NoKeyWordAt(hits: Hits, text: string, words: set<string>, i: nat)
    requires Within(hits, text) && i in hits
  {
    !IsKeyWord(text[i..i + hits[i]], words)
  }

  lemma NoKeyWordNoneSpared(hits: Hits, text: string, words: set<string>, role: KeyRole)
    requires Within(hits, text) && forall i | i in hits :: NoKeyWordAt(hits, text, words, i)
    ensures SparedSpans(hits, text, words, role) == {}
  {
  }

  lemma HitIsNoKeyWord(variants: set<string>, ps: seq<seq<Atom>>, text: string, words: set<string>, i: nat)
    requires NoEmpty(ps) && FromPlain(ps, variants, words) && i in HitsOf(ps, text)
    ensures NoKeyWordAt(HitsOf(ps, text), text, words, i)
  {
    var p := HitIsMatch(ps, text, i);
    PlainPattern(p, ps, variants, text[i..i + HitsOf(ps, text)[i]], words);
  }

  lemma AbsentFromNothing(v: string)
    requires v != ""
    ensures Absent(Compile(v, true), "")
  {
  }

  /** What the scan leaves of maskable renderings: nothing. */
  lemma OutputHoldsNone(
    variants: set<string>, ps: seq<seq<Atom>>, text: string, words: set<string>, role: KeyRole, v: string)
    requires NoEmpty(ps) && FromPlain(ps, variants, words) && v in variants && Compile(v, true) in ps
    requires "" !in variants && forall u | u in variants :: ApartText(u)
    ensures Absent(Compile(v, true), Sub(HitsOf(ps, text), SparedSpans(HitsOf(ps, text), text, words, role), text, 0))
  {
    NoneSpared(variants, ps, text, words, role);
    forall p | p in ps ensures Apart(p) {
      var u :| u in variants && p == Compile(u, true);
      ApartPattern(u);
    }
    ScanIsComplete(ps, text, Compile(v, true));
  }

  /** The patterns of some renderings, each once or more, the longest source first. */
  ghost predicate Alternation(ps: seq<seq<Atom>>, variants: set<string>) {
    && NoEmpty(ps) && Descending(ps)
    && (forall p | p in ps :: exists v | v in variants :: p == Compile(v, true))
    && (forall v | v in variants :: Compile(v, true) in ps)
  }

  function Scanned(ps: seq<seq<Atom>>, text: string, words: set<string>, role: KeyRole): string
    requires NoEmpty(ps)
  {
    Sub(HitsOf(ps, text), SparedSpans(HitsOf(ps, text), text, words, role), text, 0)
  }

  /** Past the last hit the scan changes nothing. */
  lemma {:induction false} NoHitsNoChange(hits: Hits, spared: Spans, text: string, i: nat)
    requires i <= |text| && Within(hits, text) && forall j | j in hits :: j < i
    ensures Sub(hits, spared, text, i) == text[i..]
    decreases |text| - i
  {
    if i < |text| { NoHitsNoChange(hits, spared, text, i + 1); }
  }

  lemma NoPatternsNoChange(text: string, words: set<string>, role: KeyRole)
    ensures Alternation([], {}) && Scanned([], text, words, role) == text
  {
    assert HitsOf([], text) == map[];
    NoHitsNoChange(map[], SparedSpans(map[], text, words, role), text, 0);
  }

  /** The alternation over a set of renderings, and the scan. */
  method MaskVariants(variants: set<string>, text: string, words: set<string>, role: KeyRole) returns (out: string)
    requires "" !in variants && PlainWords(words)
    ensures exists ps :: Alternation(ps, variants) && out == Scanned(ps, text, words, role)
    ensures (forall v | v in variants :: ApartText(v) && !IsKeyWord(v, words)) ==>
              forall v | v in variants :: Absent(Compile(v, true), out)
  {
    var patterns := CompilePatterns(variants);
    var ps := SortPatterns(patterns);
    assert forall v | v in variants :: Compile(v, true) in ps;
    assert NoEmpty(ps);
    var hits := HitsOf(ps, text);
    var spared := SparedSpans(hits, text, words, role);
    out := ScanHits(hits, spared, text);
    assert Alternation(ps, variants) && out == Scanned(ps, text, words, role);
    if forall v | v in variants :: ApartText(v) && !IsKeyWord(v, words) {
      forall v | v in variants ensures Absent(Compile(v, true), out) {
        OutputHoldsNone(variants, ps, text, words, role, v);
      }
    }
  }

  /** The output of one scan for exactly the renderings of the qualifying values. */
  ghost predicate PassedOver(
    enc: Encoders, text: string, values: seq<string>, minLength: nat, role: KeyRole, out: string)
  {
    exists variants: set<string>, ps ::
      && Alternation(ps, variants) && (forall v :: v in variants <==> Rendered(enc, values, minLength, v))
      && out == Scanned(ps, text, KEY_WORDS, role)
  }

  /**
   `redact_known_secrets`: with maskable renderings, no match of any rendering of any
   qualifying value is left anywhere in the output; with no qualifying value, or an empty
   text, nothing changes.
   */
  method RedactKnownSecrets(enc: Encoders, text: string, values: seq<string>, minLength: nat, role: KeyRole)
    returns (out: string)
    ensures AllMaskable(enc, values, minLength) ==>
              forall v :: Rendered(enc, values, minLength, v) ==> Absent(Compile(v, true), out)
    ensures text != "" ==> PassedOver(enc, text, values, minLength, role, out)
    ensures text == "" || (forall value | value in values :: value == "" || |value| < minLength) ==> out == text
  {
    if text == "" {
      forall v | Rendered(enc, values, minLength, v) ensures Absent(Compile(v, true), "") {
        AbsentFromNothing(v);
      }
      return text;
    }
    var variants := CollectVariants(enc, values, minLength);
    if variants == {} {
      NoPatternsNoChange(text, KEY_WORDS, role);
      return text;
    }
    KeyWordsArePlain();
    out := MaskVariants(variants, text, KEY_WORDS, role);
    assert (forall v :: v in variants <==> Rendered(enc, values, minLength, v));
  }

  // ----- from the values to their renderings

  /** An encoder that neither shortens a clean text below the floor nor spells the placeholder. */
  ghost predicate KeepsClean(f: string -> string) {
    forall s :: Clean(s) ==> Clean(f(s))
  }

  /** The same of an encoder whose padding may be dropped. */
  ghost predicate KeepsCleanUnpadded(f: string -> string) {
    KeepsClean(f) && forall s, u :: Clean(s) && Unpadded(f(s), u) ==> Clean(u)
  }

  ghost predicate SoundEncoders(enc: Encoders) {
    && KeepsClean(enc.quote) && KeepsClean(enc.quotePlus) && KeepsClean(enc.json) && KeepsClean(enc.repr)
    && KeepsCleanUnpadded(enc.base64) && KeepsCleanUnpadded(enc.base64Url)
  }

  lemma {:induction false} LowerPercentLength(s: string)
    ensures |LowerPercentHex(s)| == |s| && (Bracketless(s) ==> Bracketless(LowerPercentHex(s)))
    ensures '%' in s <==> '%' in LowerPercentHex(s)
    ensures '%' !in s ==> LowerPercentHex(s) == s
    decreases |s|
  {
    if s != "" {
      if |s| >= 3 && s[0] == '%' && IsHex(s[1]) && IsHex(s[2]) {
        assert s == s[..3] + s[3..];
        LowerPercentLength(s[3..]);
      } else {
        assert s == [s[0]] + s[1..];
        LowerPercentLength(s[1..]);
      }
    }
  }

  lemma LowerPercentIsClean(s: string)
    requires Clean(s)
    ensures Clean(LowerPercentHex(s))
  {
    LowerPercentLength(s);
  }

  lemma {:induction false} FlatPercentIsClean(enc: Encoders, xs: seq<string>)
    requires SoundEncoders(enc) && forall x | x in xs :: Clean(x)
    ensures forall c | c in FlatPercent(enc, xs) :: Clean(c)
    decreases |xs|
  {
    if xs != [] {
      var init, last := xs[..|xs| - 1], xs[|xs| - 1];
      assert xs == init + [last];
      FlatPercentIsClean(enc, init);
    }
  }

  lemma Base64IsClean(enc: Encoders, s: string)
    requires SoundEncoders(enc) && Clean(s)
    ensures forall c | c in Base64Spellings(enc, s) :: Clean(c)
  {
    StripPadUnpads(enc.base64(s), StripPad(enc.base64(s)));
    StripPadUnpads(enc.base64Url(s), StripPad(enc.base64Url(s)));
  }

  lemma {:induction false} FlatBase64IsClean(enc: Encoders, xs: seq<string>)
    requires SoundEncoders(enc) && forall x | x in xs :: Clean(x)
    ensures forall c | c in FlatBase64(enc, xs) :: Clean(c)
    decreases |xs|
  {
    if xs != [] {
      var init, last := xs[..|xs| - 1], xs[|xs| - 1];
      assert xs == init + [last];
      FlatBase64IsClean(enc, init);
      Base64IsClean(enc, last);
    }
  }

  lemma RenderingIsClean(enc: Encoders, value: string, v: string)
    requires SoundEncoders(enc) && Clean(value) && Rendering(enc, value, v)
    ensures Clean(v)
  {
    var p := PercentSpellings(enc, value);
    RenderingsAreListed(enc, value, v);
    LowerPercentIsClean(p[0]);
    LowerPercentIsClean(p[1]);
    Base64IsClean(enc, value);
    FlatPercentIsClean(enc, p);
    FlatPercentIsClean(enc, Base64Spellings(enc, value));
    FlatBase64IsClean(enc, PercentHexSpellings(enc, value));
  }

  /**
   If no value of the default length holds an angle bracket or is the placeholder's word,
   and no rendering is a key word, every rendering is maskable; the pass then leaves none.
   */
  lemma ValuesAreMaskable(enc: Encoders, values: seq<string>)
    requires SoundEncoders(enc)
    requires forall value | value in values && |value| >= 8 ::
               Bracketless(value) && value != "redacted"
    requires forall v :: Rendered(enc, values, 8, v) ==> !IsKeyWord(v, KEY_WORDS)
    ensures AllMaskable(enc, values, 8)
  {
    forall v | Rendered(enc, values, 8, v) ensures ApartText(v) {
      var value :| value in values && |value| >= 8 && Rendering(enc, value, v);
      RenderingIsClean(enc, value, v);
      BracketlessIsApart(v);
    }
  }
}
