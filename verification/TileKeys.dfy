/** The query key of a set of visible tiles: it names the set, whatever the order and the repeats. */
module TileKeys {
  import opened Media
  import ScopeKey

  datatype TileKey = TileKey(mediaType: MediaType, tmdbId: int)

  function TypeText(m: MediaType): string {
    match m
    case Movie => "movie"
    case Tv => "tv"
  }

  /** `tileKeyToken` */
  function Token(k: TileKey): string {
    TypeText(k.mediaType) + [':'] + ScopeKey.Decimal(k.tmdbId)
  }

  lemma TokenInjective(a: TileKey, b: TileKey)
    requires Token(a) == Token(b)
    ensures a == b
  {
    ScopeKey.SplitAtSeparator(TypeText(a.mediaType), ScopeKey.Decimal(a.tmdbId),
                              TypeText(b.mediaType), ScopeKey.Decimal(b.tmdbId), ':');
    ScopeKey.DecimalInjective(a.tmdbId, b.tmdbId);
    assert |TypeText(a.mediaType)| == |TypeText(b.mediaType)|;
  }

  // ----- tokens in order

  /** The order of `Array.sort` on strings. */
  predicate Before(a: string, b: string) {
    b != "" && (a == "" || a[0] < b[0] || (a[0] == b[0] && Before(a[1..], b[1..])))
  }

  lemma {:induction false} BeforeIsTotal(a: string, b: string)
    ensures Before(a, b) || a == b || Before(b, a)
    ensures !(Before(a, b) && Before(b, a)) && (a == b ==> !Before(a, b))
  {
    if a != "" && b != "" && a[0] == b[0] {
      BeforeIsTotal(a[1..], b[1..]);
      assert a == [a[0]] + a[1..] && b == [b[0]] + b[1..];
    }
  }

  lemma {:induction false} BeforeChains(a: string, b: string, c: string)
    requires Before(a, b) && Before(b, c)
    ensures Before(a, c)
  {
    if a != "" && a[0] == b[0] && b[0] == c[0] { BeforeChains(a[1..], b[1..], c[1..]); }
  }

  ghost predicate Ascending(xs: seq<string>) {
    forall i, j :: 0 <= i < j < |xs| ==> Before(xs[i], xs[j])
  }

  /** A token put in its place among others in order, unless it is there. */
  function Insert(x: string, xs: seq<string>): (r: seq<string>)
    ensures forall y :: y in r <==> y == x || y in xs
  {
    if xs == [] || Before(x, xs[0]) then [x] + xs
    else if x == xs[0] then xs
    else
      assert xs == [xs[0]] + xs[1..];
      [xs[0]] + Insert(x, xs[1..])
  }

  function Sorted(xs: seq<string>): (r: seq<string>)
    ensures forall y :: y in r <==> y in xs
    decreases |xs|
  {
    if xs == [] then []
    else
      assert xs == xs[..|xs| - 1] + [xs[|xs| - 1]];
      Insert(xs[|xs| - 1], Sorted(xs[..|xs| - 1]))
  }

  lemma ConsAscending(x: string, xs: seq<string>)
    requires Ascending(xs) && forall y | y in xs :: Before(x, y)
    ensures Ascending([x] + xs)
  {
    var r := [x] + xs;
    forall i, j | 0 <= i < j < |r| ensures Before(r[i], r[j]) {
      assert r[j] == xs[j - 1] && xs[j - 1] in xs;
      assert i > 0 ==> r[i] == xs[i - 1];
    }
  }

  lemma HeadIsFirst(xs: seq<string>)
    requires Ascending(xs) && xs != []
    ensures Ascending(xs[1..]) && forall y | y in xs[1..] :: Before(xs[0], y)
  {
    forall y | y in xs[1..] ensures Before(xs[0], y) {
      var i :| 0 <= i < |xs[1..]| && xs[1..][i] == y;
      assert xs[i + 1] == y;
    }
  }

  lemma {:induction false} InsertAscends(x: string, xs: seq<string>)
    requires Ascending(xs)
    ensures Ascending(Insert(x, xs))
    decreases |xs|
  {
    if xs == [] {
      ConsAscending(x, xs);
    } else {
      HeadIsFirst(xs);
      BeforeIsTotal(x, xs[0]);
      if Before(x, xs[0]) {
        forall y | y in xs ensures Before(x, y) {
          assert xs == [xs[0]] + xs[1..];
          if y != xs[0] { BeforeChains(x, xs[0], y); }
        }
        ConsAscending(x, xs);
      } else if x != xs[0] {
        InsertAscends(x, xs[1..]);
        ConsAscending(xs[0], Insert(x, xs[1..]));
      }
    }
  }

  lemma {:induction false} SortedAscends(xs: seq<string>)
    ensures Ascending(Sorted(xs))
    decreases |xs|
  {
    if xs != [] {
      SortedAscends(xs[..|xs| - 1]);
      InsertAscends(xs[|xs| - 1], Sorted(xs[..|xs| - 1]));
    }
  }

  lemma HeadIsNotRepeated(xs: seq<string>, y: string)
    requires Ascending(xs) && xs != []
    ensures y in xs[1..] <==> y in xs && y != xs[0]
  {
    HeadIsFirst(xs);
    BeforeIsTotal(xs[0], xs[0]);
    assert xs == [xs[0]] + xs[1..];
  }

  /** A list in order is determined by its elements. */
  lemma {:induction false} AscendingUnique(xs: seq<string>, ys: seq<string>)
    requires Ascending(xs) && Ascending(ys) && forall z :: z in xs <==> z in ys
    ensures xs == ys
    decreases |xs|
  {
    assert xs == [] || xs[0] in xs;
    assert ys == [] || ys[0] in ys;
    if xs != [] {
      HeadIsNotRepeated(xs, ys[0]);
      HeadIsNotRepeated(ys, xs[0]);
      HeadIsFirst(xs);
      HeadIsFirst(ys);
      BeforeIsTotal(xs[0], ys[0]);
      assert xs[0] == ys[0];
      forall z ensures z in xs[1..] <==> z in ys[1..] {
        HeadIsNotRepeated(xs, z);
        HeadIsNotRepeated(ys, z);
      }
      AscendingUnique(xs[1..], ys[1..]);
      assert xs == [xs[0]] + xs[1..] && ys == [ys[0]] + ys[1..];
    }
  }

  // ----- the query key

  function Tokens(items: seq<TileKey>): (r: seq<string>)
    ensures |r| == |items| && forall i | 0 <= i < |r| :: r[i] == Token(items[i])
  {
    seq(|items|, i requires 0 <= i < |items| => Token(items[i]))
  }

  /** The token list that names the query. */
  function QueryTokens(items: seq<TileKey>): seq<string> {
    Sorted(Tokens(items))
  }

  /**
   The keys a surface asks for: the visible tiles, each once, in the order of their tokens. A
   map keeps the last item of each token, and its tokens are sorted.
   */
  method CollectKeys(items: seq<TileKey>) returns (keys: seq<TileKey>)
    ensures Tokens(keys) == QueryTokens(items)
    ensures forall k :: k in keys <==> k in items
  {
    var byToken, tokens := GatherTokens(items);
    SortForgetsOrder(tokens, Tokens(items));
    var sorted := Sorted(tokens);
    keys := KeysOf(byToken, sorted);
    SameTokensSameKeys(keys, items);
  }

  method GatherTokens(items: seq<TileKey>) returns (byToken: map<string, TileKey>, tokens: seq<string>)
    ensures Gathered(byToken, tokens, items)
  {
    byToken, tokens := map[], [];
    ghost var seen := [];
    for i := 0 to |items|
      invariant seen == items[..i] && Gathered(byToken, tokens, seen)
    {
      byToken, tokens := GatherOne(byToken, tokens, items[i], seen);
      seen := seen + [items[i]];
    }
    assert items[..|items|] == items;
  }

  method GatherOne(byToken: map<string, TileKey>, tokens: seq<string>, k: TileKey, ghost seen: seq<TileKey>)
    returns (byToken': map<string, TileKey>, tokens': seq<string>)
    requires Gathered(byToken, tokens, seen)
    ensures Gathered(byToken', tokens', seen + [k])
  {
    GatheredOneMore(byToken, tokens, seen, k);
    var token := Token(k);
    tokens' := if token in byToken then tokens else tokens + [token];
    byToken' := byToken[token := k];
  }

  method KeysOf(byToken: map<string, TileKey>, sorted: seq<string>) returns (keys: seq<TileKey>)
    requires forall t | t in sorted :: t in byToken && Token(byToken[t]) == t
    ensures Tokens(keys) == sorted
  {
    keys := [];
    for i := 0 to |sorted|
      invariant |keys| == i && forall j | 0 <= j < i :: Token(keys[j]) == sorted[j]
    {
      assert sorted[i] in sorted;
      keys := keys + [byToken[sorted[i]]];
    }
  }

  /** The map and its keys in insertion order, after some items. */
  ghost predicate Gathered(byToken: map<string, TileKey>, tokens: seq<string>, items: seq<TileKey>) {
    && (forall t :: t in byToken <==> t in tokens)
    && (forall t :: t in tokens <==> t in Tokens(items))
    && (forall t | t in byToken :: Token(byToken[t]) == t)
  }

  lemma GatheredOneMore(byToken: map<string, TileKey>, tokens: seq<string>, items: seq<TileKey>, k: TileKey)
    requires Gathered(byToken, tokens, items)
    ensures Gathered(byToken[Token(k) := k], if Token(k) in byToken then tokens else tokens + [Token(k)], items + [k])
  {
    assert Tokens(items + [k]) == Tokens(items) + [Token(k)];
  }

  /** Sorting depends on the elements only. */
  lemma SortForgetsOrder(xs: seq<string>, ys: seq<string>)
    requires forall t :: t in xs <==> t in ys
    ensures Sorted(xs) == Sorted(ys)
  {
    SortedAscends(xs);
    SortedAscends(ys);
    AscendingUnique(Sorted(xs), Sorted(ys));
  }

  lemma TokenOfMember(items: seq<TileKey>, k: TileKey)
    ensures Token(k) in Tokens(items) <==> k in items
  {
    var ts := Tokens(items);
    if Token(k) in ts {
      var i :| 0 <= i < |ts| && ts[i] == Token(k);
      TokenInjective(items[i], k);
    }
    if k in items {
      var i :| 0 <= i < |items| && items[i] == k;
      assert ts[i] == Token(k);
    }
  }

  lemma SameTokensSameKeys(keys: seq<TileKey>, items: seq<TileKey>)
    requires forall t :: t in Tokens(keys) <==> t in Tokens(items)
    ensures forall k :: k in keys <==> k in items
  {
    forall k ensures k in keys <==> k in items {
      TokenOfMember(keys, k);
      TokenOfMember(items, k);
    }
  }

  /** Two surfaces share a query exactly when they show the same tiles. */
  lemma QueryNamesTheSet(a: seq<TileKey>, b: seq<TileKey>)
    ensures QueryTokens(a) == QueryTokens(b) <==> forall k :: k in a <==> k in b
  {
    if QueryTokens(a) == QueryTokens(b) {
      forall t ensures t in Tokens(a) <==> t in Tokens(b) {
        assert t in Tokens(a) <==> t in QueryTokens(a);
        assert t in Tokens(b) <==> t in QueryTokens(b);
      }
      SameTokensSameKeys(a, b);
    }
    if forall k :: k in a <==> k in b {
      forall t ensures t in Tokens(a) <==> t in Tokens(b) {
        SameKeysSameToken(a, b, t);
        SameKeysSameToken(b, a, t);
      }
      SortForgetsOrder(Tokens(a), Tokens(b));
    }
  }

  /** The first difference decides, or the end of the shorter text. */
  ghost predicate Precedes(a: string, b: string) {
    exists n :: 0 <= n <= |a| && n < |b| && a[..n] == b[..n] && (n == |a| || a[n] < b[n])
  }

  lemma {:induction false} BeforePrecedes(a: string, b: string)
    requires Before(a, b)
    ensures Precedes(a, b)
  {
    if a == "" || a[0] < b[0] {
      assert a[..0] == b[..0];
    } else {
      BeforePrecedes(a[1..], b[1..]);
      var n :| 0 <= n <= |a[1..]| && n < |b[1..]| && a[1..][..n] == b[1..][..n]
               && (n == |a[1..]| || a[1..][n] < b[1..][n]);
      assert a[..n + 1] == [a[0]] + a[1..][..n] && b[..n + 1] == [b[0]] + b[1..][..n];
    }
  }

  predicate Reads(t: string, k: TileKey) {
    t == (if k.mediaType == Movie then "movie:" else "tv:") + ScopeKey.Decimal(k.tmdbId)
  }

  lemma TokenReads(k: TileKey)
    ensures Reads(Token(k), k)
  {
  }

  /** The key spelled out: type, colon and number of each visible tile, in the order of code units. */
  lemma QueryReads(items: seq<TileKey>)
    ensures var q := QueryTokens(items);
            && (forall i, j | 0 <= i < j < |q| :: Precedes(q[i], q[j]))
            && (forall t | t in q :: exists k | k in items :: Reads(t, k))
            && (forall k | k in items :: exists t | t in q :: Reads(t, k))
  {
    var q := QueryTokens(items);
    SortedAscends(Tokens(items));
    forall i, j | 0 <= i < j < |q| ensures Precedes(q[i], q[j]) { BeforePrecedes(q[i], q[j]); }
    forall t | t in q ensures exists k | k in items :: Reads(t, k) {
      var i :| 0 <= i < |items| && Tokens(items)[i] == t;
      TokenReads(items[i]);
      assert items[i] in items;
    }
    forall k | k in items ensures exists t | t in q :: Reads(t, k) {
      TokenOfMember(items, k);
      TokenReads(k);
    }
  }

  lemma SameKeysSameToken(a: seq<TileKey>, b: seq<TileKey>, t: string)
    requires forall k :: k in a <==> k in b
    ensures t in Tokens(a) ==> t in Tokens(b)
  {
    if t in Tokens(a) {
      var i :| 0 <= i < |a| && Tokens(a)[i] == t;
      TokenOfMember(b, a[i]);
      assert a[i] in a;
    }
  }
}
