/** The key words that the key-name guard may spare, told from their grammar and in any case. */
module RedactWords {
  import opened RedactKnown

  /** Two parts with nothing, a dash or an underscore between them. */
  predicate TwoParts(w: string, a: string, b: string) {
    w == a + b || w == a + "-" + b || w == a + "_" + b
  }

  /** The words of the shape grammar's keys, and `authorization`. */
  predicate InGrammar(w: string) {
    || TwoParts(w, "api", "key") || TwoParts(w, "access", "token") || TwoParts(w, "auth", "token")
    || TwoParts(w, "fernet", "key") || w == "token" || w == "passkey" || w == "password" || w == "passwd"
    || w == "pwd" || w == "secret" || w == "authorization"
  }

  /** The character is this letter in either case, or one that Python's case folding takes for it. */
  predicate CaseOf(c: char, w: char) {
    || c == w || ('a' <= w <= 'z' && c as int == w as int - 32)
    || (w == 'i' && (c == '\U{0130}' || c == '\U{0131}'))
    || (w == 's' && c == '\U{017F}') || (w == 'k' && c == '\U{212A}')
  }

  predicate InCaseOf(m: string, w: string) {
    |m| == |w| && forall i :: 0 <= i < |m| ==> CaseOf(m[i], w[i])
  }

  predicate NoCapital(w: string) {
    forall i :: 0 <= i < |w| ==> !('A' <= w[i] <= 'Z') && w[i] < '\U{0080}'
  }

  lemma LowerReads(m: string, w: string)
    requires NoCapital(w)
    ensures Lower(m) == w <==> InCaseOf(m, w)
  {
    LowerLength(m);
    forall i | 0 <= i < |m| ensures Lower(m)[i] == LowerChar(m[i]) {
      LowerAt(m, i);
    }
    forall i | 0 <= i < |m| && i < |w| ensures LowerChar(m[i]) == w[i] <==> CaseOf(m[i], w[i]) {
      FoldReads(m[i], w[i]);
    }
    if InCaseOf(m, w) { assert forall i :: 0 <= i < |m| ==> Lower(m)[i] == w[i]; }
  }

  lemma FoldReads(c: char, w: char)
    requires !('A' <= w <= 'Z') && w < '\U{0080}'
    ensures LowerChar(c) == w <==> CaseOf(c, w)
  {
  }

  lemma {:induction false} LowerLength(m: string)
    ensures |Lower(m)| == |m|
  {
    if m != "" { LowerLength(m[1..]); }
  }

  lemma ApiWords(w: string)
    ensures w in API_WORDS <==> TwoParts(w, "api", "key")
    ensures w in ACCESS_WORDS <==> TwoParts(w, "access", "token")
  {
    assert "api" + "key" == "apikey" && "api" + "-" + "key" == "api-key" && "api" + "_" + "key" == "api_key";
    assert "access" + "token" == "accesstoken";
    assert "access" + "-" + "token" == "access-token" && "access" + "_" + "token" == "access_token";
  }

  lemma AuthWords(w: string)
    ensures w in AUTH_WORDS <==> TwoParts(w, "auth", "token")
    ensures w in FERNET_WORDS <==> TwoParts(w, "fernet", "key")
  {
    assert "auth" + "token" == "authtoken";
    assert "auth" + "-" + "token" == "auth-token" && "auth" + "_" + "token" == "auth_token";
    assert "fernet" + "key" == "fernetkey";
    assert "fernet" + "-" + "key" == "fernet-key" && "fernet" + "_" + "key" == "fernet_key";
  }

  lemma GrammarHasNoCapital(w: string)
    requires InGrammar(w)
    ensures NoCapital(w)
  {
    ApiWords(w);
    AuthWords(w);
  }

  /** An occurrence is a key word exactly when it spells a word of the grammar, in any case. */
  lemma KeyWordsAre(m: string)
    ensures IsKeyWord(m, KEY_WORDS) <==> exists w | InGrammar(w) :: InCaseOf(m, w)
  {
    forall w ensures w in KEY_WORDS <==> InGrammar(w) {
      ApiWords(w);
      AuthWords(w);
    }
    if IsKeyWord(m, KEY_WORDS) {
      GrammarHasNoCapital(Lower(m));
      LowerReads(m, Lower(m));
    }
    if w :| InGrammar(w) && InCaseOf(m, w) {
      GrammarHasNoCapital(w);
      LowerReads(m, w);
    }
  }
}
