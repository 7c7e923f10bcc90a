/** The canonical key of a download scope: a season and a set of episodes, as one string. */
module ScopeKey {
  import opened Wrappers

  // ----- numbers and lists as text

  function Digit(d: nat): char
    requires d < 10
  {
    '0' + d as char
  }

  function DecimalNat(n: nat): string {
    if n < 10 then [Digit(n)] else DecimalNat(n / 10) + [Digit(n % 10)]
  }

  function Decimal(n: int): string {
    if n < 0 then "-" + DecimalNat(-n) else DecimalNat(n)
  }

  function DigitValue(c: char): nat {
    if '0' <= c <= '9' then (c as int - '0' as int) as nat else 0
  }

  function ValueOf(s: string): nat {
    if s == "" then 0 else 10 * ValueOf(s[..|s| - 1]) + DigitValue(s[|s| - 1])
  }

  lemma {:induction false} DecimalNatValue(n: nat)
    ensures DecimalNat(n) != "" && (forall c | c in DecimalNat(n) :: '0' <= c <= '9')
    ensures ValueOf(DecimalNat(n)) == n
  {
    var s := DecimalNat(n);
    if n >= 10 {
      DecimalNatValue(n / 10);
      assert s[..|s| - 1] == DecimalNat(n / 10);
    } else {
      assert s[..0] == "" && ValueOf("") == 0;
    }
  }

  lemma DecimalChars(n: int)
    ensures Decimal(n) != "" && forall c | c in Decimal(n) :: c == '-' || '0' <= c <= '9'
    ensures Decimal(n)[0] == '-' <==> n < 0
  {
    var d := DecimalNat(if n < 0 then -n else n);
    DecimalNatValue(if n < 0 then -n else n);
    assert d[0] in d;
  }

  lemma DecimalInjective(a: int, b: int)
    requires Decimal(a) == Decimal(b)
    ensures a == b
  {
    DecimalChars(a);
    DecimalChars(b);
    DecimalNatValue(if a < 0 then -a else a);
    DecimalNatValue(if b < 0 then -b else b);
    if a < 0 {
      assert Decimal(a)[1..] == DecimalNat(-a) && Decimal(b)[1..] == DecimalNat(-b);
    }
  }

  /** `json.dumps` of a non-empty list with separators `,` and `:`, without the brackets. */
  function Joined(xs: seq<int>): string
    requires xs != []
  {
    if |xs| == 1 then Decimal(xs[0]) else Decimal(xs[0]) + "," + Joined(xs[1..])
  }

  /** Text before a separator that it does not contain is determined. */
  lemma {:induction false} SplitAtSeparator(a: string, x: string, b: string, y: string, c: char)
    requires c !in a && c !in b && a + [c] + x == b + [c] + y
    ensures a == b && x == y
  {
    var s, t := a + [c] + x, b + [c] + y;
    assert s[|a|] == c && t[|b|] == c;
    forall k | 0 <= k < |a| ensures s[k] != c {
      assert s[k] == a[k] && a[k] in a;
    }
    forall k | 0 <= k < |b| ensures t[k] != c {
      assert t[k] == b[k] && b[k] in b;
    }
    assert |a| == |b|;
    assert s[..|a|] == a && t[..|b|] == b;
    assert s[|a| + 1..] == x && t[|b| + 1..] == y;
  }

  lemma {:induction false} JoinedChars(xs: seq<int>)
    requires xs != []
    ensures Joined(xs) != "" && '|' !in Joined(xs) && '*' !in Joined(xs) && '[' !in Joined(xs)
    ensures ',' in Joined(xs) <==> |xs| > 1
    decreases |xs|
  {
    DecimalChars(xs[0]);
    if |xs| > 1 {
      JoinedChars(xs[1..]);
      assert Joined(xs)[|Decimal(xs[0])|] == ',';
    }
  }

  lemma {:induction false} JoinedInjective(xs: seq<int>, ys: seq<int>)
    requires xs != [] && ys != [] && Joined(xs) == Joined(ys)
    ensures xs == ys
    decreases |xs|
  {
    JoinedChars(xs);
    JoinedChars(ys);
    DecimalChars(xs[0]);
    DecimalChars(ys[0]);
    if |xs| == 1 {
      DecimalInjective(xs[0], ys[0]);
    } else {
      SplitAtSeparator(Decimal(xs[0]), Joined(xs[1..]), Decimal(ys[0]), Joined(ys[1..]), ',');
      DecimalInjective(xs[0], ys[0]);
      JoinedInjective(xs[1..], ys[1..]);
      assert xs == [xs[0]] + xs[1..] && ys == [ys[0]] + ys[1..];
    }
  }

  // ----- sorted sets of episodes

  function Insert(n: int, sorted: seq<int>): (r: seq<int>)
    ensures forall x :: x in r <==> x == n || x in sorted
  {
    if sorted == [] || n < sorted[0] then [n] + sorted
    else if n == sorted[0] then sorted
    else
      assert sorted == [sorted[0]] + sorted[1..];
      [sorted[0]] + Insert(n, sorted[1..])
  }

  /** `sorted({...})` */
  function SortedSet(xs: seq<int>): (r: seq<int>)
    ensures forall x :: x in r <==> x in xs
  {
    if xs == [] then []
    else
      assert xs == [xs[0]] + xs[1..];
      Insert(xs[0], SortedSet(xs[1..]))
  }

  predicate Increasing(xs: seq<int>) {
    forall i, j :: 0 <= i < j < |xs| ==> xs[i] < xs[j]
  }

  lemma ConsIncreasing(h: int, tail: seq<int>)
    requires Increasing(tail) && forall x | x in tail :: h < x
    ensures Increasing([h] + tail)
  {
    var r := [h] + tail;
    forall i, j | 0 <= i < j < |r| ensures r[i] < r[j] {
      assert r[j] == tail[j - 1] && tail[j - 1] in tail;
      assert i > 0 ==> r[i] == tail[i - 1];
    }
  }

  lemma HeadIsLeast(sorted: seq<int>, x: int)
    requires Increasing(sorted) && sorted != [] && x in sorted[1..]
    ensures sorted[0] < x
  {
    var i :| 0 <= i < |sorted[1..]| && sorted[1..][i] == x;
    assert sorted[i + 1] == x;
  }

  lemma TailIncreasing(sorted: seq<int>)
    requires Increasing(sorted) && sorted != []
    ensures Increasing(sorted[1..])
  {
  }

  lemma {:induction false} InsertIncreasing(n: int, sorted: seq<int>)
    requires Increasing(sorted)
    ensures Increasing(Insert(n, sorted))
    decreases |sorted|
  {
    if sorted == [] {
      assert Increasing([n] + sorted);
    } else if sorted[0] < n {
      TailIncreasing(sorted);
      InsertIncreasing(n, sorted[1..]);
      forall x | x in Insert(n, sorted[1..]) ensures sorted[0] < x {
        if x != n { HeadIsLeast(sorted, x); }
      }
      ConsIncreasing(sorted[0], Insert(n, sorted[1..]));
    } else if n < sorted[0] {
      forall x | x in sorted ensures n < x {
        if x != sorted[0] {
          assert sorted == [sorted[0]] + sorted[1..];
          HeadIsLeast(sorted, x);
        }
      }
      ConsIncreasing(n, sorted);
    }
  }

  lemma {:induction false} SortedSetIncreasing(xs: seq<int>)
    ensures Increasing(SortedSet(xs))
  {
    if xs != [] {
      SortedSetIncreasing(xs[1..]);
      InsertIncreasing(xs[0], SortedSet(xs[1..]));
    }
  }

  /** An increasing list is determined by its elements. */
  lemma {:induction false} IncreasingUnique(xs: seq<int>, ys: seq<int>)
    requires Increasing(xs) && Increasing(ys) && forall x :: x in xs <==> x in ys
    ensures xs == ys
    decreases |xs|
  {
    assert xs == [] || xs[0] in xs;
    assert ys == [] || ys[0] in ys;
    if xs != [] {
      assert xs[0] in ys && ys != [] && ys[0] in xs;
      var i :| 0 <= i < |ys| && ys[i] == xs[0];
      var j :| 0 <= j < |xs| && xs[j] == ys[0];
      assert xs[0] == ys[0];
      forall x ensures x in xs[1..] <==> x in ys[1..] {
        TailElement(xs, x);
        TailElement(ys, x);
      }
      IncreasingUnique(xs[1..], ys[1..]);
      assert xs == [xs[0]] + xs[1..] && ys == [ys[0]] + ys[1..];
    }
  }

  function Elements(xs: seq<int>): set<int> {
    set x | x in xs
  }

  lemma SameElements(xs: seq<int>, ys: seq<int>)
    requires Increasing(xs) && Increasing(ys) && Elements(xs) == Elements(ys)
    ensures xs == ys
  {
    forall x ensures x in xs <==> x in ys {
      assert x in xs <==> x in Elements(xs);
      assert x in ys <==> x in Elements(ys);
    }
    IncreasingUnique(xs, ys);
  }

  lemma TailElement(xs: seq<int>, x: int)
    requires xs != [] && Increasing(xs)
    ensures x in xs[1..] <==> x in xs && x != xs[0]
  {
    assert xs == [xs[0]] + xs[1..];
    if x in xs[1..] {
      var i :| 0 <= i < |xs[1..]| && xs[1..][i] == x;
      assert xs[i + 1] == x;
    }
  }

  // ----- the column and the key

  /** A value of the episodes column, or of the JSON text in it. */
  datatype Json = JNull | JText(s: string) | JList(items: seq<Json>) | JScalar(code: int)

  /** The library: `json.loads` and `int()`, each of which may raise. */
  datatype Library = Library(loads: string -> Option<Json>, toInt: Json -> Option<int>)

  datatype Normalized = Raises | Whole | Episodes(list: seq<int>)

  function ToInts(lib: Library, items: seq<Json>): Option<seq<int>> {
    if items == [] then Some([])
    else
      match (lib.toInt(items[0]), ToInts(lib, items[1..]))
      case (Some(n), Some(rest)) => Some([n] + rest)
      case _ => None
  }

  /** The value `json.loads` yields for a text, the value itself for anything else. */
  function Parsed(lib: Library, value: Json): Option<Json> {
    match value
    case JText(s) => lib.loads(s)
    case _ => Some(value)
  }

  /** `_normalize_episodes` */
  function NormalizeEpisodes(lib: Library, value: Json): Normalized {
    if value == JNull || value == JText("") || value == JText("null") then Whole
    else
      match Parsed(lib, value)
      case None => Raises
      case Some(JList(items)) =>
        (match ToInts(lib, items)
         case None => Raises
         case Some(ints) => if SortedSet(ints) == [] then Whole else Episodes(SortedSet(ints)))
      case Some(_) => Whole
  }

  function SeasonText(season: Option<int>): string {
    match season
    case None => "null"
    case Some(n) => Decimal(n)
  }

  function EpisodesText(n: Normalized): string
    requires !n.Raises? && (n.Episodes? ==> n.list != [])
  {
    match n
    case Whole => "*"
    case Episodes(list) => "[" + Joined(list) + "]"
  }

  /** `_scope_key`; `None` when it raises. */
  function KeyOf(lib: Library, season: Option<int>, value: Json): Option<string> {
    var n := NormalizeEpisodes(lib, value);
    if n.Raises? then None
    else Some("season:" + SeasonText(season) + "|episodes:" + EpisodesText(n))
  }

  // ----- canonical and injective

  /** The episodes a value names; none for null, empty, missing or anything but a list. */
  function EpisodeSet(lib: Library, value: Json): set<int> {
    if value == JNull || value == JText("") || value == JText("null") then {}
    else
      match Parsed(lib, value)
      case Some(JList(items)) =>
        (match ToInts(lib, items)
         case Some(ints) => Elements(ints)
         case None => {})
      case _ => {}
  }

  /** The list of a normal form, empty when there is none. */
  function ListOf(n: Normalized): seq<int> {
    if n.Episodes? then n.list else []
  }

  lemma NormalizedList(lib: Library, value: Json)
    requires !NormalizeEpisodes(lib, value).Raises?
    ensures var n := NormalizeEpisodes(lib, value);
            && Increasing(ListOf(n)) && (n.Episodes? <==> ListOf(n) != [])
            && Elements(ListOf(n)) == EpisodeSet(lib, value)
  {
    var n := NormalizeEpisodes(lib, value);
    match Parsed(lib, value)
    case Some(JList(items)) =>
      if value != JNull && value != JText("") && value != JText("null") {
        var ints := ToInts(lib, items).value;
        SortedSetIncreasing(ints);
        assert Elements(SortedSet(ints)) == Elements(ints);
      }
    case _ =>
  }

  lemma EpisodesTextInjective(m: Normalized, n: Normalized)
    requires !m.Raises? && !n.Raises? && (m.Episodes? ==> m.list != []) && (n.Episodes? ==> n.list != [])
    requires EpisodesText(m) == EpisodesText(n)
    ensures m == n
  {
    assert EpisodesText(m)[0] == EpisodesText(n)[0];
    if m.Episodes? && n.Episodes? {
      var s, t := EpisodesText(m), EpisodesText(n);
      assert s[1..|s| - 1] == Joined(m.list) && t[1..|t| - 1] == Joined(n.list);
      JoinedInjective(m.list, n.list);
    }
  }

  lemma SeasonTextStart(a: Option<int>)
    ensures SeasonText(a) != "" && (SeasonText(a)[0] == 'n' <==> a.None?)
  {
    if a.Some? {
      DecimalChars(a.value);
      assert SeasonText(a)[0] in SeasonText(a);
    }
  }

  lemma SeasonTextInjective(a: Option<int>, b: Option<int>)
    requires SeasonText(a) == SeasonText(b)
    ensures a == b
  {
    SeasonTextStart(a);
    SeasonTextStart(b);
    if a.Some? && b.Some? {
      DecimalInjective(a.value, b.value);
    }
  }

  lemma SeasonHasNoBar(a: Option<int>)
    ensures '|' !in "season:" + SeasonText(a)
  {
    if a.Some? { DecimalChars(a.value); }
  }

  lemma KeyParts(lib: Library, season: Option<int>, value: Json)
    requires KeyOf(lib, season, value).Some?
    ensures KeyOf(lib, season, value).value
         == ("season:" + SeasonText(season)) + ['|'] + ("episodes:" + EpisodesText(NormalizeEpisodes(lib, value)))
  {
  }

  lemma SameTexts(s1: Option<int>, n1: Normalized, s2: Option<int>, n2: Normalized)
    requires !n1.Raises? && !n2.Raises? && (n1.Episodes? ==> n1.list != []) && (n2.Episodes? ==> n2.list != [])
    requires ("season:" + SeasonText(s1)) + ['|'] + ("episodes:" + EpisodesText(n1))
          == ("season:" + SeasonText(s2)) + ['|'] + ("episodes:" + EpisodesText(n2))
    ensures s1 == s2 && n1 == n2
  {
    SeasonHasNoBar(s1);
    SeasonHasNoBar(s2);
    SplitAtSeparator("season:" + SeasonText(s1), "episodes:" + EpisodesText(n1),
                     "season:" + SeasonText(s2), "episodes:" + EpisodesText(n2), '|');
    DropPrefix("season:", SeasonText(s1), SeasonText(s2));
    DropPrefix("episodes:", EpisodesText(n1), EpisodesText(n2));
    SeasonTextInjective(s1, s2);
    EpisodesTextInjective(n1, n2);
  }

  /** The normal form is determined by the set of episodes, and determines it. */
  lemma NormalFormIsSet(lib: Library, v1: Json, v2: Json)
    requires !NormalizeEpisodes(lib, v1).Raises? && !NormalizeEpisodes(lib, v2).Raises?
    ensures NormalizeEpisodes(lib, v1) == NormalizeEpisodes(lib, v2)
       <==> EpisodeSet(lib, v1) == EpisodeSet(lib, v2)
  {
    NormalizedList(lib, v1);
    NormalizedList(lib, v2);
    if EpisodeSet(lib, v1) == EpisodeSet(lib, v2) {
      SameElements(ListOf(NormalizeEpisodes(lib, v1)), ListOf(NormalizeEpisodes(lib, v2)));
    }
  }

  /**
   Two keys are equal exactly when the seasons are equal and the same set of episodes is
   meant, whatever the order, the repeats, and the way nothing is spelled.
   */
  lemma KeysAreCanonical(lib: Library, s1: Option<int>, v1: Json, s2: Option<int>, v2: Json)
    requires KeyOf(lib, s1, v1).Some? && KeyOf(lib, s2, v2).Some?
    ensures KeyOf(lib, s1, v1) == KeyOf(lib, s2, v2)
       <==> s1 == s2 && EpisodeSet(lib, v1) == EpisodeSet(lib, v2)
  {
    NormalFormIsSet(lib, v1, v2);
    NormalizedList(lib, v1);
    NormalizedList(lib, v2);
    if KeyOf(lib, s1, v1) == KeyOf(lib, s2, v2) {
      KeyParts(lib, s1, v1);
      KeyParts(lib, s2, v2);
      SameTexts(s1, NormalizeEpisodes(lib, v1), s2, NormalizeEpisodes(lib, v2));
    }
  }

  /** The key spelled out: the season, and the episodes that are meant in increasing order. */
  lemma KeyReads(lib: Library, season: Option<int>, value: Json) returns (list: seq<int>)
    requires KeyOf(lib, season, value).Some?
    ensures Increasing(list) && Elements(list) == EpisodeSet(lib, value)
    ensures KeyOf(lib, season, value).value
         == "season:" + (if season.Some? then Decimal(season.value) else "null")
            + "|episodes:" + (if list == [] then "*" else "[" + Joined(list) + "]")
  {
    NormalizedList(lib, value);
    list := ListOf(NormalizeEpisodes(lib, value));
  }

  lemma {:induction false} ToIntsFails(lib: Library, items: seq<Json>)
    ensures ToInts(lib, items).None? <==> exists x | x in items :: lib.toInt(x).None?
  {
    if items != [] {
      ToIntsFails(lib, items[1..]);
      assert items == [items[0]] + items[1..];
    }
  }

  /** The value is a text other than "" and "null" that does not parse, or a list with an item that is no number. */
  predicate Unreadable(lib: Library, value: Json) {
    match value
    case JText(s) =>
      && s != "" && s != "null"
      && (lib.loads(s).None? || (lib.loads(s).value.JList? && HoldsNoNumber(lib, lib.loads(s).value.items)))
    case JList(items) => HoldsNoNumber(lib, items)
    case _ => false
  }

  predicate HoldsNoNumber(lib: Library, items: seq<Json>) {
    exists x | x in items :: lib.toInt(x).None?
  }

  /** A key does not exist exactly for unreadable episodes, whatever the season. */
  lemma KeyFailsExactly(lib: Library, season: Option<int>, value: Json)
    ensures KeyOf(lib, season, value).None? <==> Unreadable(lib, value)
  {
    match Parsed(lib, value)
    case Some(JList(items)) => ToIntsFails(lib, items);
    case _ =>
  }

  lemma DropPrefix(p: string, x: string, y: string)
    requires p + x == p + y
    ensures x == y
  {
    assert (p + x)[|p|..] == x && (p + y)[|p|..] == y;
  }
}
