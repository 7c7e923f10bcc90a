/**
 The percent-encoded rendering of a secret (section 2.1 of RFC 3986): what its pattern
 matches, and when every match still decodes to the secret.
 */
module RedactQuote {
  import opened RedactPattern

  /** A byte of the secret's UTF-8 encoding. */
  type Byte = b: int | 0 <= b < 256 witness 0

  predicate Unreserved(b: Byte) {
    48 <= b <= 57 || 65 <= b <= 90 || 97 <= b <= 122 || b == 45 || b == 46 || b == 95 || b == 126
  }

  function HexChar(n: int): char
    requires 0 <= n < 16
  {
    if n < 10 then '0' + n as char else 'A' + (n - 10) as char
  }

  function HexValue(c: char): (n: int)
    requires IsHex(c)
    ensures 0 <= n < 16
  {
    if IsDigit(c) then c as int - '0' as int
    else FoldHex(c) as int - 'a' as int + 10
  }

  /** `quote(text, safe="")`, one byte. */
  function QuoteByte(b: Byte): (s: string)
    ensures s != "" && (|s| == 1 || |s| == 3)
  {
    if Unreserved(b) then [b as char] else ['%', HexChar(b / 16), HexChar(b % 16)]
  }

  function Quote(bytes: seq<Byte>): string {
    if bytes == [] then "" else QuoteByte(bytes[0]) + Quote(bytes[1..])
  }

  /** Percent-decoding, one triplet or one plain character at a time. */
  function PercentDecode(s: string): seq<int>
    decreases |s|
  {
    if s == "" then []
    else if |s| >= 3 && s[0] == '%' && IsHex(s[1]) && IsHex(s[2]) then
      [16 * HexValue(s[1]) + HexValue(s[2])] + PercentDecode(s[3..])
    else [s[0] as int] + PercentDecode(s[1..])
  }

  predicate HexByte(b: Byte) {
    IsHex(b as char)
  }

  predicate HexLetter(c: char) {
    IsHex(c) && !IsDigit(c)
  }

  /** The secret holds a percent sign and two hex digits, so its quote holds `%25` and two hex digits. */
  predicate EscapedHere(bytes: seq<Byte>) {
    |bytes| >= 3 && bytes[0] == 37 && HexByte(bytes[1]) && HexByte(bytes[2])
  }

  /** The secret holds `%XX` with a hex letter in it. */
  predicate Ambiguous(bytes: seq<Byte>)
    decreases |bytes|
  {
    bytes != [] &&
    ((EscapedHere(bytes) && (HexLetter(bytes[1] as char) || HexLetter(bytes[2] as char)))
     || Ambiguous(bytes[1..]))
  }

  // ----- tokens of a quoted secret

  lemma HexBytesAreUnreserved(b: Byte)
    requires HexByte(b)
    ensures Unreserved(b) && QuoteByte(b) == [b as char]
  {
  }

  lemma QuoteHexChars(b: Byte)
    requires !Unreserved(b)
    ensures IsHex(HexChar(b / 16)) && IsHex(HexChar(b % 16))
    ensures 16 * HexValue(HexChar(b / 16)) + HexValue(HexChar(b % 16)) == b
    ensures HexChar(b / 16) == '2' && HexChar(b % 16) == '5' <==> b == 37
  {
  }

  lemma QuoteUnfold(bytes: seq<Byte>)
    requires EscapedHere(bytes)
    ensures Quote(bytes) == ['%', '2', '5', bytes[1] as char, bytes[2] as char] + Quote(bytes[3..])
  {
    HexBytesAreUnreserved(bytes[1]);
    HexBytesAreUnreserved(bytes[2]);
    var tail := bytes[1..];
    assert Quote(bytes) == "%25" + Quote(tail);
    assert Quote(tail) == [tail[0] as char] + Quote(tail[1..]);
    assert Quote(tail[1..]) == [tail[1..][0] as char] + Quote(tail[1..][1..]);
    assert tail[1..][1..] == bytes[3..];
  }

  lemma FirstCharIsHex(bytes: seq<Byte>)
    requires bytes != []
    ensures Quote(bytes) != ""
    ensures IsHex(Quote(bytes)[0]) <==> HexByte(bytes[0])
    ensures HexByte(bytes[0]) ==> Quote(bytes)[1..] == Quote(bytes[1..])
  {
    if HexByte(bytes[0]) { HexBytesAreUnreserved(bytes[0]); }
    if Unreserved(bytes[0]) { assert Quote(bytes)[0] == bytes[0] as char; }
  }

  /** The first token of a quote: one character, one triplet, or `%25` with two hex digits. */
  lemma QuoteToken(bytes: seq<Byte>)
    requires bytes != []
    ensures var q := Quote(bytes);
            && q != ""
            && EscapeLen(q) == (if Unreserved(bytes[0]) then 0 else if EscapedHere(bytes) then 5 else 3)
            && q[TokenLen(q)..] == Quote(bytes[if EscapedHere(bytes) then 3 else 1..])
  {
    var q, rest := Quote(bytes), bytes[1..];
    if Unreserved(bytes[0]) {
      assert q[0] == bytes[0] as char;
    } else if EscapedHere(bytes) {
      QuoteUnfold(bytes);
    } else {
      QuoteHexChars(bytes[0]);
      assert q[3..] == Quote(rest);
      assert q[0] == '%' && q[1] == HexChar(bytes[0] / 16) && q[2] == HexChar(bytes[0] % 16);
      if bytes[0] == 37 && rest != [] {
        FirstCharIsHex(rest);
        if HexByte(rest[0]) && rest[1..] != [] { FirstCharIsHex(rest[1..]); }
        if |q| >= 5 {
          assert q[3] == q[3..][0] && q[4] == q[3..][1];
        }
      }
    }
  }

  // ----- case variants, token by token

  lemma CaseVariantTail(s: string, m: string)
    requires s != "" && CaseVariant(s, m)
    ensures CaseVariant(s[TokenLen(s)..], m[TokenLen(s)..])
  {
    var k := TokenLen(s);
    forall i | 0 <= i < |s[k..]|
      ensures m[k..][i] == s[k..][i] || (InEscape(s[k..], i) && HexSame(s[k..][i], m[k..][i]))
    {
      assert m[i + k] == s[i + k] || (InEscape(s, i + k) && HexSame(s[i + k], m[i + k]));
    }
  }

  lemma CaseVariantCons(s: string, m: string)
    requires s != "" && |m| == |s| && CaseVariant(s[TokenLen(s)..], m[TokenLen(s)..])
    requires forall i :: 0 <= i < TokenLen(s) ==> m[i] == s[i] || (InEscape(s, i) && HexSame(s[i], m[i]))
    ensures CaseVariant(s, m)
  {
    var k := TokenLen(s);
    forall i | 0 <= i < |s|
      ensures m[i] == s[i] || (InEscape(s, i) && HexSame(s[i], m[i]))
    {
      if i >= k { assert m[k..][i - k] == m[i] && s[k..][i - k] == s[i]; }
    }
  }

  lemma SameDigitSameValue(a: char, b: char)
    requires HexSame(a, b)
    ensures HexValue(a) == HexValue(b) && (IsDigit(a) ==> a == b)
  {
  }

  // ----- decoding

  lemma DecodeTriplet(m: string, b: int)
    requires |m| >= 3 && m[0] == '%' && IsHex(m[1]) && IsHex(m[2]) && 16 * HexValue(m[1]) + HexValue(m[2]) == b
    ensures PercentDecode(m) == [b] + PercentDecode(m[3..])
  {
  }

  lemma DecodePlain(m: string)
    requires m != "" && m[0] != '%'
    ensures PercentDecode(m) == [m[0] as int] + PercentDecode(m[1..])
  {
  }

  lemma DecodeEscaped(m: string)
    requires |m| >= 5 && m[..3] == "%25" && m[3] != '%' && m[4] != '%'
    ensures PercentDecode(m) == [37, m[3] as int, m[4] as int] + PercentDecode(m[5..])
  {
    assert m[0] == "%25"[0] && m[1] == "%25"[1] && m[2] == "%25"[2];
    DecodeTriplet(m, 37);
    DecodePlain(m[3..]);
    DecodePlain(m[3..][1..]);
    assert m[3..][1..][1..] == m[5..];
  }

  lemma StaysUnambiguous(bytes: seq<Byte>)
    requires !Ambiguous(bytes) && EscapedHere(bytes)
    ensures IsDigit(bytes[1] as char) && IsDigit(bytes[2] as char) && !Ambiguous(bytes[3..])
  {
    assert !Ambiguous(bytes[1..]) && bytes[1..][1..] == bytes[2..];
    assert !Ambiguous(bytes[2..]) && bytes[2..][1..] == bytes[3..];
  }

  /** Every mixed-case spelling of an unambiguous secret's quote decodes to the secret. */
  lemma {:induction false} VariantsDecode(bytes: seq<Byte>, m: string)
    requires !Ambiguous(bytes) && CaseVariant(Quote(bytes), m)
    ensures PercentDecode(m) == bytes
    decreases |bytes|
  {
    if bytes != [] {
      var q := Quote(bytes);
      QuoteToken(bytes);
      CaseVariantTail(q, m);
      if EscapedHere(bytes) {
        StaysUnambiguous(bytes);
        VariantsDecode(bytes[3..], m[5..]);
        EscapedVariant(bytes, m);
        assert bytes == [37, bytes[1], bytes[2]] + bytes[3..];
      } else if Unreserved(bytes[0]) {
        VariantsDecode(bytes[1..], m[1..]);
        assert !InEscape(q, 0);
        DecodePlain(m);
      } else {
        VariantsDecode(bytes[1..], m[3..]);
        TripletVariant(bytes, m);
      }
    }
  }

  lemma EscapedVariant(bytes: seq<Byte>, m: string)
    requires EscapedHere(bytes) && CaseVariant(Quote(bytes), m)
    requires IsDigit(bytes[1] as char) && IsDigit(bytes[2] as char) && |m| >= 5
    ensures PercentDecode(m) == [37, bytes[1], bytes[2]] + PercentDecode(m[5..])
  {
    var q := Quote(bytes);
    QuoteToken(bytes);
    QuoteUnfold(bytes);
    forall i | 0 <= i < 5 ensures m[i] == q[i] {
      if m[i] != q[i] { SameDigitSameValue(q[i], m[i]); }
    }
    assert m[..3] == "%25";
    DecodeEscaped(m);
  }

  lemma TripletVariant(bytes: seq<Byte>, m: string)
    requires bytes != [] && !Unreserved(bytes[0]) && !EscapedHere(bytes) && CaseVariant(Quote(bytes), m)
    ensures PercentDecode(m) == [bytes[0] as int] + PercentDecode(m[3..])
  {
    var q := Quote(bytes);
    QuoteToken(bytes);
    QuoteHexChars(bytes[0]);
    assert q[0] == '%' && q[1] == HexChar(bytes[0] / 16) && q[2] == HexChar(bytes[0] % 16);
    assert !InEscape(q, 0);
    if m[1] != q[1] { SameDigitSameValue(q[1], m[1]); }
    if m[2] != q[2] { SameDigitSameValue(q[2], m[2]); }
    DecodeTriplet(m, bytes[0]);
  }

  // ----- an ambiguous secret over-matches

  function FlipCase(c: char): char
    requires HexLetter(c)
  {
    if 'a' <= c <= 'f' then c - 'a' + 'A' else c - 'A' + 'a'
  }

  /** The quote of an ambiguous secret with one hex letter in the other case. */
  function Flipped(bytes: seq<Byte>): string
    requires Ambiguous(bytes)
    decreases |bytes|
  {
    if EscapedHere(bytes) && HexLetter(bytes[1] as char) then
      ['%', '2', '5', FlipCase(bytes[1] as char), bytes[2] as char] + Quote(bytes[3..])
    else if EscapedHere(bytes) && HexLetter(bytes[2] as char) then
      ['%', '2', '5', bytes[1] as char, FlipCase(bytes[2] as char)] + Quote(bytes[3..])
    else if EscapedHere(bytes) then
      AmbiguousLater(bytes);
      ['%', '2', '5', bytes[1] as char, bytes[2] as char] + Flipped(bytes[3..])
    else QuoteByte(bytes[0]) + Flipped(bytes[1..])
  }

  lemma AmbiguousLater(bytes: seq<Byte>)
    requires Ambiguous(bytes) && EscapedHere(bytes)
    requires !HexLetter(bytes[1] as char) && !HexLetter(bytes[2] as char)
    ensures Ambiguous(bytes[3..])
  {
    assert Ambiguous(bytes[1..]) && !EscapedHere(bytes[1..]);
    assert bytes[1..][1..] == bytes[2..];
    assert Ambiguous(bytes[2..]) && !EscapedHere(bytes[2..]);
    assert bytes[2..][1..] == bytes[3..];
  }

  lemma FlipIsSame(c: char)
    requires HexLetter(c)
    ensures HexSame(c, FlipCase(c)) && FlipCase(c) != c && FlipCase(c) != '%'
  {
  }

  lemma {:induction false} CaseVariantSelf(s: string)
    ensures CaseVariant(s, s)
  {
  }

  lemma {:induction false} FlippedIsVariant(bytes: seq<Byte>)
    requires Ambiguous(bytes)
    ensures CaseVariant(Quote(bytes), Flipped(bytes))
    decreases |bytes|
  {
    var q, m := Quote(bytes), Flipped(bytes);
    QuoteToken(bytes);
    if EscapedHere(bytes) {
      QuoteUnfold(bytes);
      assert InEscape(q, 3) && InEscape(q, 4);
      CaseVariantSelf(Quote(bytes[3..]));
      if HexLetter(bytes[1] as char) {
        FlipIsSame(bytes[1] as char);
        assert m[5..] == Quote(bytes[3..]);
      } else if HexLetter(bytes[2] as char) {
        FlipIsSame(bytes[2] as char);
        assert m[5..] == Quote(bytes[3..]);
      } else {
        AmbiguousLater(bytes);
        FlippedIsVariant(bytes[3..]);
        assert m[5..] == Flipped(bytes[3..]);
      }
    } else {
      FlippedIsVariant(bytes[1..]);
      assert m[TokenLen(q)..] == Flipped(bytes[1..]);
    }
    CaseVariantCons(q, m);
  }

  lemma {:induction false} FlippedDecodesWrong(bytes: seq<Byte>)
    requires Ambiguous(bytes)
    ensures PercentDecode(Flipped(bytes)) != bytes
    decreases |bytes|
  {
    var m := Flipped(bytes);
    var decoded := PercentDecode(m);
    if EscapedHere(bytes) {
      var x, y := bytes[1] as char, bytes[2] as char;
      if HexLetter(x) {
        FlipIsSame(x);
      } else if HexLetter(y) {
        FlipIsSame(y);
      } else {
        AmbiguousLater(bytes);
        FlippedDecodesWrong(bytes[3..]);
        assert m[5..] == Flipped(bytes[3..]);
      }
      assert m[..3] == "%25" && m[3] != '%' && m[4] != '%';
      DecodeEscaped(m);
      assert decoded[1] == m[3] as int && decoded[2] == m[4] as int;
      assert decoded[3..] == PercentDecode(m[5..]);
    } else {
      FlippedDecodesWrong(bytes[1..]);
      if Unreserved(bytes[0]) {
        DecodePlain(m);
        assert m[1..] == Flipped(bytes[1..]);
      } else {
        QuoteHexChars(bytes[0]);
        DecodeTriplet(m, bytes[0]);
        assert m[3..] == Flipped(bytes[1..]);
      }
      assert decoded[1..] == PercentDecode(Flipped(bytes[1..]));
    }
  }

  /**
   Exactly when the pattern of a secret's percent-encoding matches nothing but spellings
   of that secret: when the secret holds no `%XX` with a hex letter. The matches are all
   the mixed-case spellings.
   */
  lemma QuoteMatchesOnlySpellings(bytes: seq<Byte>)
    ensures (forall m :: Matches(Compile(Quote(bytes), false), m) ==> PercentDecode(m) == bytes)
       <==> !Ambiguous(bytes)
    ensures forall m :: Matches(Compile(Quote(bytes), false), m) <==> CaseVariant(Quote(bytes), m)
  {
    var q := Quote(bytes);
    forall m ensures Matches(Compile(q, false), m) <==> CaseVariant(q, m) {
      VariantLanguage(q, m);
    }
    if Ambiguous(bytes) {
      FlippedIsVariant(bytes);
      FlippedDecodesWrong(bytes);
    } else {
      forall m | Matches(Compile(q, false), m) ensures PercentDecode(m) == bytes {
        VariantsDecode(bytes, m);
      }
    }
  }
}
