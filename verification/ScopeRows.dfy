/** The tables around download scopes, and the query that fills the new one. */
module ScopeRows {
  import opened Wrappers
  import opened Media
  import opened ScopeKey

  // ----- tables

  datatype RequestStatus =
    | Pending | Searching | NoRelease | WaitingForAirDate | Downloading | Completed | Available
    | PartiallyAvailable | FailedRequest | BlockedRequest | Evicted | Cancelled | Unlisted(text: string)

  datatype DownloadStatus = Imported | ImportBlocked | Failed | NoAcceptableRelease | InFlight(text: string)

  datatype ScopeStatus = Active | ScopeImported | ScopeBlocked | ScopeFailed | ScopeNoRelease

  datatype MediaRequest = MediaRequest(id: int, tmdbId: int, mediaType: MediaType, status: RequestStatus)

  datatype SeasonRequest = SeasonRequest(id: int, request: int, season: int, status: RequestStatus)

  datatype Download = Download(id: int, request: Option<int>, season: Option<int>, status: DownloadStatus,
                               mediaType: Option<MediaType>, episodes: Json)

  datatype Row = Row(download: int, request: Option<int>, seasonRequest: Option<int>, season: Option<int>,
                     episodes: Json, status: ScopeStatus)

  // ----- the constraints of the schema before the migration

  predicate UniqueRequests(ms: seq<MediaRequest>) {
    forall i, j :: 0 <= i < j < |ms| ==> ms[i].id != ms[j].id
  }

  predicate UniqueDownloads(ds: seq<Download>) {
    forall i, j :: 0 <= i < j < |ds| ==> ds[i].id != ds[j].id
  }

  /** `uq_season_requests_media_season` */
  predicate UniqueSeasons(ss: seq<SeasonRequest>) {
    forall i, j :: 0 <= i < j < |ss| ==> !(ss[i].request == ss[j].request && ss[i].season == ss[j].season)
  }

  /** The predicate of `uq_downloads_active_request`. */
  predicate InActiveIndex(d: Download) {
    d.request.Some? && !d.status.Imported? && !d.status.Failed? && !d.status.NoAcceptableRelease?
  }

  function Coalesce(season: Option<int>): int {
    if season.Some? then season.value else -1
  }

  predicate SameSlot(a: Download, b: Download) {
    && InActiveIndex(a) && InActiveIndex(b)
    && a.request == b.request && Coalesce(a.season) == Coalesce(b.season)
  }

  /** `uq_downloads_active_request` */
  predicate UniqueActiveDownloads(ds: seq<Download>) {
    forall i, j :: 0 <= i < j < |ds| ==> !SameSlot(ds[i], ds[j])
  }

  // ----- conditions in three values

  datatype Truth = Yes | No | Unknown

  function Or(a: Truth, b: Truth): Truth {
    if a.Yes? || b.Yes? then Yes else if a.No? && b.No? then No else Unknown
  }

  function And(a: Truth, b: Truth): Truth {
    if a.No? || b.No? then No else if a.Yes? && b.Yes? then Yes else Unknown
  }

  function Of(b: bool): Truth {
    if b then Yes else No
  }

  function Equal<T(==)>(a: Option<T>, b: Option<T>): Truth {
    if a.None? || b.None? then Unknown else Of(a.value == b.value)
  }

  function TypeOf(m: Option<MediaRequest>): Option<MediaType> {
    if m.Some? then Some(m.value.mediaType) else None
  }

  /** The WHERE clause, with no request row standing for its columns being null. */
  function Where(d: Download, m: Option<MediaRequest>): Truth {
    And(Of(d.season.Some?),
        Or(Or(Equal(d.mediaType, Some(Tv)), Equal(TypeOf(m), Some(Tv))),
           And(Of(d.mediaType.None?), Or(Equal(TypeOf(m), Some(Tv)), Of(m.None?)))))
  }

  predicate JoinsRequest(d: Download, m: MediaRequest) {
    Equal(Some(m.id), d.request).Yes?
  }

  predicate JoinsSeason(d: Download, s: SeasonRequest) {
    And(Equal(Some(s.request), d.request), Equal(Some(s.season), d.season)).Yes?
  }

  // ----- the joins

  function MatchingRequests(d: Download, ms: seq<MediaRequest>): seq<Option<MediaRequest>> {
    if ms == [] then []
    else (if JoinsRequest(d, ms[0]) then [Some(ms[0])] else []) + MatchingRequests(d, ms[1..])
  }

  function MatchingSeasons(d: Download, ss: seq<SeasonRequest>): seq<Option<SeasonRequest>> {
    if ss == [] then []
    else (if JoinsSeason(d, ss[0]) then [Some(ss[0])] else []) + MatchingSeasons(d, ss[1..])
  }

  /** A left join keeps the left row when nothing matches. */
  function OrNull<T>(matches: seq<Option<T>>): seq<Option<T>> {
    if matches == [] then [None] else matches
  }

  function StatusOf(s: DownloadStatus): ScopeStatus {
    match s
    case Imported => ScopeImported
    case ImportBlocked => ScopeBlocked
    case Failed => ScopeFailed
    case NoAcceptableRelease => ScopeNoRelease
    case InFlight(_) => Active
  }

  function MakeRow(d: Download, s: Option<SeasonRequest>): Row {
    Row(d.id, d.request, if s.Some? then Some(s.value.id) else None, d.season, d.episodes, StatusOf(d.status))
  }

  function RowsWithSeasons(d: Download, m: Option<MediaRequest>, ss: seq<Option<SeasonRequest>>): seq<Row> {
    if ss == [] then []
    else (if Where(d, m).Yes? then [MakeRow(d, ss[0])] else []) + RowsWithSeasons(d, m, ss[1..])
  }

  function RowsWithRequests(d: Download, ms: seq<Option<MediaRequest>>, ss: seq<Option<SeasonRequest>>): seq<Row> {
    if ms == [] then [] else RowsWithSeasons(d, ms[0], ss) + RowsWithRequests(d, ms[1..], ss)
  }

  /** `SELECT … FROM downloads LEFT JOIN media_requests … LEFT JOIN season_requests … WHERE …` */
  function Select(ds: seq<Download>, ms: seq<MediaRequest>, ss: seq<SeasonRequest>): seq<Row> {
    if ds == [] then []
    else
      RowsWithRequests(ds[0], OrNull(MatchingRequests(ds[0], ms)), OrNull(MatchingSeasons(ds[0], ss)))
      + Select(ds[1..], ms, ss)
  }

  // ----- what the query means

  predicate HasRequest(d: Download, ms: seq<MediaRequest>) {
    exists m :: m in ms && d.request == Some(m.id)
  }

  predicate HasTvRequest(d: Download, ms: seq<MediaRequest>) {
    exists m :: m in ms && d.request == Some(m.id) && m.mediaType == Tv
  }

  /** A download of one season of a show, as far as the tables tell. */
  predicate Wanted(d: Download, ms: seq<MediaRequest>) {
    && d.season.Some?
    && (d.mediaType == Some(Tv) || HasTvRequest(d, ms) || (d.mediaType.None? && !HasRequest(d, ms)))
  }

  /** The season request a download belongs to, when there is one. */
  predicate IsSeasonOf(d: Download, s: SeasonRequest) {
    d.request == Some(s.request) && d.season == Some(s.season)
  }

  ghost predicate Describes(r: Row, d: Download, ss: seq<SeasonRequest>) {
    && r.download == d.id && r.request == d.request && r.season == d.season && r.episodes == d.episodes
    && (r.status.ScopeImported? <==> d.status.Imported?) && (r.status.ScopeBlocked? <==> d.status.ImportBlocked?)
    && (r.status.ScopeFailed? <==> d.status.Failed?) && (r.status.ScopeNoRelease? <==> d.status.NoAcceptableRelease?)
    && (r.status.Active? <==> d.status.InFlight?)
    && (r.seasonRequest.Some? ==> exists s :: s in ss && IsSeasonOf(d, s) && r.seasonRequest == Some(s.id))
    && (r.seasonRequest.None? ==> forall s | s in ss :: !IsSeasonOf(d, s))
  }

  lemma {:induction false} NoRequestMatches(d: Download, ms: seq<MediaRequest>)
    requires forall m | m in ms :: !JoinsRequest(d, m)
    ensures MatchingRequests(d, ms) == []
  {
    if ms != [] {
      assert ms[0] in ms;
      NoRequestMatches(d, ms[1..]);
    }
  }

  /** At most one request row joins: ids are unique. */
  lemma {:induction false} OneRequestMatches(d: Download, ms: seq<MediaRequest>)
    requires UniqueRequests(ms)
    ensures |MatchingRequests(d, ms)| <= 1
    ensures MatchingRequests(d, ms) == [] <==> !HasRequest(d, ms)
    ensures forall m | m in MatchingRequests(d, ms) :: m.Some? && m.value in ms && d.request == Some(m.value.id)
    decreases |ms|
  {
    if ms != [] {
      if JoinsRequest(d, ms[0]) {
        assert ms[0] in ms && HasRequest(d, ms);
        forall m | m in ms[1..] ensures !JoinsRequest(d, m) {
          var i :| 0 <= i < |ms[1..]| && ms[1..][i] == m;
          assert ms[i + 1] == m;
        }
        NoRequestMatches(d, ms[1..]);
      } else {
        OneRequestMatches(d, ms[1..]);
        assert ms == [ms[0]] + ms[1..];
        assert HasRequest(d, ms) <==> HasRequest(d, ms[1..]);
      }
    }
  }

  lemma {:induction false} NoSeasonMatches(d: Download, ss: seq<SeasonRequest>)
    requires forall s | s in ss :: !IsSeasonOf(d, s)
    ensures MatchingSeasons(d, ss) == []
  {
    if ss != [] {
      assert ss[0] in ss;
      NoSeasonMatches(d, ss[1..]);
    }
  }

  /** At most one season row joins: a show has one row per season. */
  lemma {:induction false} OneSeasonMatches(d: Download, ss: seq<SeasonRequest>)
    requires UniqueSeasons(ss)
    ensures |MatchingSeasons(d, ss)| <= 1
    ensures MatchingSeasons(d, ss) == [] ==> forall s | s in ss :: !IsSeasonOf(d, s)
    ensures forall s | s in MatchingSeasons(d, ss) :: s.Some? && s.value in ss && IsSeasonOf(d, s.value)
    decreases |ss|
  {
    if ss != [] {
      if JoinsSeason(d, ss[0]) {
        forall s | s in ss[1..] ensures !IsSeasonOf(d, s) {
          var i :| 0 <= i < |ss[1..]| && ss[1..][i] == s;
          assert ss[i + 1] == s;
        }
        NoSeasonMatches(d, ss[1..]);
      } else {
        OneSeasonMatches(d, ss[1..]);
        assert ss == [ss[0]] + ss[1..];
      }
    }
  }

  /** The condition, read off the three-valued clause. */
  lemma WhereMeans(d: Download, ms: seq<MediaRequest>, m: Option<MediaRequest>)
    requires UniqueRequests(ms)
    requires m.Some? ==> m.value in ms && d.request == Some(m.value.id)
    requires m.None? ==> !HasRequest(d, ms)
    ensures Where(d, m).Yes? <==> Wanted(d, ms)
  {
    if m.Some? {
      assert HasRequest(d, ms);
      if HasTvRequest(d, ms) {
        var n :| n in ms && d.request == Some(n.id) && n.mediaType == Tv;
        assert n == m.value;
      }
    }
  }

  lemma JoinOfOnes(d: Download, m: Option<MediaRequest>, s: Option<SeasonRequest>)
    ensures RowsWithSeasons(d, m, [s]) == if Where(d, m).Yes? then [MakeRow(d, s)] else []
    ensures RowsWithRequests(d, [m], [s]) == RowsWithSeasons(d, m, [s])
  {
    assert [s][1..] == [] && [m][1..] == [];
    assert RowsWithSeasons(d, m, []) == [] && RowsWithRequests(d, [], [s]) == [];
  }

  /** The rows one download contributes: one that describes it when it is wanted, none otherwise. */
  lemma RowsOfOne(d: Download, ms: seq<MediaRequest>, ss: seq<SeasonRequest>) returns (rows: seq<Row>)
    requires UniqueRequests(ms) && UniqueSeasons(ss)
    ensures rows == RowsWithRequests(d, OrNull(MatchingRequests(d, ms)), OrNull(MatchingSeasons(d, ss)))
    ensures Wanted(d, ms) ==> |rows| == 1 && Describes(rows[0], d, ss)
    ensures !Wanted(d, ms) ==> rows == []
  {
    OneRequestMatches(d, ms);
    OneSeasonMatches(d, ss);
    var joinedRequests, joinedSeasons := OrNull(MatchingRequests(d, ms)), OrNull(MatchingSeasons(d, ss));
    var m, s := joinedRequests[0], joinedSeasons[0];
    assert joinedRequests == [m] && joinedSeasons == [s];
    assert m.Some? ==> m in MatchingRequests(d, ms);
    assert s.Some? ==> s in MatchingSeasons(d, ss);
    WhereMeans(d, ms, m);
    rows := RowsWithSeasons(d, m, [s]);
    JoinOfOnes(d, m, s);
    if Wanted(d, ms) {
      if s.Some? { assert s.value in ss && IsSeasonOf(d, s.value); }
    }
  }

  // ----- one row for each wanted download

  function RowsFor(id: int, rows: seq<Row>): seq<Row> {
    if rows == [] then []
    else (if rows[0].download == id then [rows[0]] else []) + RowsFor(id, rows[1..])
  }

  lemma {:induction false} RowsForAppend(id: int, a: seq<Row>, b: seq<Row>)
    ensures RowsFor(id, a + b) == RowsFor(id, a) + RowsFor(id, b)
  {
    if a == [] {
      assert a + b == b;
    } else {
      var head := if a[0].download == id then [a[0]] else [];
      assert (a + b)[0] == a[0] && (a + b)[1..] == a[1..] + b;
      assert RowsFor(id, a + b) == head + RowsFor(id, a[1..] + b);
      RowsForAppend(id, a[1..], b);
      assert head + (RowsFor(id, a[1..]) + RowsFor(id, b)) == (head + RowsFor(id, a[1..])) + RowsFor(id, b);
    }
  }

  lemma {:induction false} RowsForOthers(id: int, rows: seq<Row>)
    requires forall r | r in rows :: r.download != id
    ensures RowsFor(id, rows) == []
  {
    if rows != [] {
      assert rows[0] in rows;
      RowsForOthers(id, rows[1..]);
    }
  }

  /** Every row comes from a wanted download. */
  ghost predicate ComesFrom(r: Row, ds: seq<Download>, ms: seq<MediaRequest>, ss: seq<SeasonRequest>) {
    exists d :: d in ds && Wanted(d, ms) && Describes(r, d, ss)
  }

  lemma {:induction false} RowsComeFromDownloads(ds: seq<Download>, ms: seq<MediaRequest>, ss: seq<SeasonRequest>)
    requires UniqueRequests(ms) && UniqueSeasons(ss)
    ensures forall r | r in Select(ds, ms, ss) :: ComesFrom(r, ds, ms, ss)
  {
    if ds != [] {
      var first := RowsOfOne(ds[0], ms, ss);
      RowsComeFromDownloads(ds[1..], ms, ss);
      assert Select(ds, ms, ss) == first + Select(ds[1..], ms, ss);
      forall r | r in first ensures ComesFrom(r, ds, ms, ss) {
        assert ds[0] in ds && Describes(r, ds[0], ss);
      }
      forall r | r in Select(ds[1..], ms, ss) ensures ComesFrom(r, ds, ms, ss) {
        ComesFromMore(r, ds, ms, ss);
      }
    }
  }

  lemma ComesFromMore(r: Row, ds: seq<Download>, ms: seq<MediaRequest>, ss: seq<SeasonRequest>)
    requires ds != [] && ComesFrom(r, ds[1..], ms, ss)
    ensures ComesFrom(r, ds, ms, ss)
  {
    var d :| d in ds[1..] && Wanted(d, ms) && Describes(r, d, ss);
    assert d in ds;
  }

  /** The rows of one download: one that describes it when it is wanted, none otherwise. */
  ghost predicate OneRowIfWanted(d: Download, ms: seq<MediaRequest>, ss: seq<SeasonRequest>, rows: seq<Row>) {
    if Wanted(d, ms) then |rows| == 1 && Describes(rows[0], d, ss) else rows == []
  }

  /** The first download's rows are what its joins contribute. */
  lemma FirstHasItsRows(ds: seq<Download>, ms: seq<MediaRequest>, ss: seq<SeasonRequest>)
    requires UniqueRequests(ms) && UniqueSeasons(ss) && UniqueDownloads(ds) && ds != []
    ensures OneRowIfWanted(ds[0], ms, ss, RowsFor(ds[0].id, Select(ds, ms, ss)))
  {
    var id := ds[0].id;
    var first := RowsOfOne(ds[0], ms, ss);
    var rest := Select(ds[1..], ms, ss);
    RowsForAppend(id, first, rest);
    RowsComeFromDownloads(ds[1..], ms, ss);
    OthersHaveOtherIds(ds, ms, ss, rest);
    RowsForOthers(id, rest);
    if Wanted(ds[0], ms) {
      OwnRow(id, first);
    }
  }

  /** The other downloads' rows are those of the selection from the other downloads. */
  lemma FirstLendsNoRow(ds: seq<Download>, ms: seq<MediaRequest>, ss: seq<SeasonRequest>, id: int)
    requires UniqueRequests(ms) && UniqueSeasons(ss) && ds != [] && id != ds[0].id
    ensures RowsFor(id, Select(ds, ms, ss)) == RowsFor(id, Select(ds[1..], ms, ss))
  {
    var first := RowsOfOne(ds[0], ms, ss);
    forall r | r in first ensures r.download != id {
      assert r == first[0];
    }
    RowsForOthers(id, first);
    RowsForAppend(id, first, Select(ds[1..], ms, ss));
  }

  /**
   The joins collapse: each wanted download gets exactly one row, which describes it and names
   its season request, and no other download gets any.
   */
  lemma {:induction false} OneRowEach(ds: seq<Download>, ms: seq<MediaRequest>, ss: seq<SeasonRequest>, k: nat)
    requires UniqueRequests(ms) && UniqueSeasons(ss) && UniqueDownloads(ds) && k < |ds|
    ensures OneRowIfWanted(ds[k], ms, ss, RowsFor(ds[k].id, Select(ds, ms, ss)))
    decreases |ds|
  {
    if k == 0 {
      FirstHasItsRows(ds, ms, ss);
    } else {
      assert ds[1..][k - 1] == ds[k] && ds[0].id != ds[k].id;
      FirstLendsNoRow(ds, ms, ss, ds[k].id);
      OneRowEach(ds[1..], ms, ss, k - 1);
    }
  }

  lemma OwnRow(id: int, rows: seq<Row>)
    requires |rows| == 1 && rows[0].download == id
    ensures RowsFor(id, rows) == rows
  {
    assert rows[1..] == [] && rows == [rows[0]];
  }

  lemma OthersHaveOtherIds(ds: seq<Download>, ms: seq<MediaRequest>, ss: seq<SeasonRequest>, rest: seq<Row>)
    requires ds != [] && UniqueDownloads(ds)
    requires forall r | r in rest :: ComesFrom(r, ds[1..], ms, ss)
    ensures forall r | r in rest :: r.download != ds[0].id
  {
    forall r | r in rest ensures r.download != ds[0].id {
      var d :| d in ds[1..] && Wanted(d, ms) && Describes(r, d, ss);
      var i :| 0 <= i < |ds[1..]| && ds[1..][i] == d;
      assert ds[i + 1] == d;
    }
  }

  // ----- no two rows share an active scope

  predicate InScopeIndex(r: Row) {
    r.request.Some? && (r.status.Active? || r.status.ScopeBlocked?)
  }

  /** Two rows that the unique index on active scopes refuses. */
  predicate Clash(lib: Library, a: Row, b: Row) {
    && InScopeIndex(a) && InScopeIndex(b) && a.request == b.request
    && KeyOf(lib, a.season, a.episodes).Some?
    && KeyOf(lib, a.season, a.episodes) == KeyOf(lib, b.season, b.episodes)
  }

  predicate NoClash(lib: Library, rows: seq<Row>) {
    forall i, j :: 0 <= i < j < |rows| ==> !Clash(lib, rows[i], rows[j])
  }

  /** Rows that clash come from downloads that the old index does not allow side by side. */
  lemma ClashIsOldClash(lib: Library, a: Row, b: Row, d: Download, e: Download, ss: seq<SeasonRequest>)
    requires Describes(a, d, ss) && Describes(b, e, ss) && Clash(lib, a, b)
    ensures SameSlot(d, e)
  {
    KeysAreCanonical(lib, a.season, a.episodes, b.season, b.episodes);
  }

  lemma FirstDoesNotClash(lib: Library, ds: seq<Download>, ms: seq<MediaRequest>, ss: seq<SeasonRequest>,
                          first: Row, r: Row)
    requires ds != [] && UniqueActiveDownloads(ds) && Describes(first, ds[0], ss)
    requires ComesFrom(r, ds[1..], ms, ss)
    ensures !Clash(lib, first, r)
  {
    var d :| d in ds[1..] && Wanted(d, ms) && Describes(r, d, ss);
    var i :| 0 <= i < |ds[1..]| && ds[1..][i] == d;
    assert !SameSlot(ds[0], ds[i + 1]);
    if Clash(lib, first, r) {
      ClashIsOldClash(lib, first, r, ds[0], d, ss);
    }
  }

  /** The old partial index implies the new one, for every way the titles parse to keys. */
  lemma {:induction false} RowsDoNotClash(lib: Library, ds: seq<Download>, ms: seq<MediaRequest>,
                                          ss: seq<SeasonRequest>)
    requires UniqueRequests(ms) && UniqueSeasons(ss) && UniqueActiveDownloads(ds)
    ensures NoClash(lib, Select(ds, ms, ss))
  {
    if ds != [] {
      var first := RowsOfOne(ds[0], ms, ss);
      var rest := Select(ds[1..], ms, ss);
      assert UniqueActiveDownloads(ds[1..]) by {
        forall i, j | 0 <= i < j < |ds[1..]| ensures !SameSlot(ds[1..][i], ds[1..][j]) {
          assert !SameSlot(ds[i + 1], ds[j + 1]);
        }
      }
      RowsDoNotClash(lib, ds[1..], ms, ss);
      RowsComeFromDownloads(ds[1..], ms, ss);
      if first != [] {
        forall r | r in rest ensures !Clash(lib, first[0], r) {
          FirstDoesNotClash(lib, ds, ms, ss, first[0], r);
        }
        ConsNoClash(lib, first[0], rest);
        assert first + rest == [first[0]] + rest;
      } else {
        assert first + rest == rest;
      }
    }
  }

  lemma ConsNoClash(lib: Library, r: Row, rest: seq<Row>)
    requires NoClash(lib, rest) && forall x | x in rest :: !Clash(lib, r, x)
    ensures NoClash(lib, [r] + rest)
  {
    var all := [r] + rest;
    forall i, j | 0 <= i < j < |all| ensures !Clash(lib, all[i], all[j]) {
      assert all[j] == rest[j - 1] && rest[j - 1] in rest;
      if i > 0 {
        assert all[i] == rest[i - 1];
        assert !Clash(lib, rest[i - 1], rest[j - 1]);
      }
    }
  }

  /** Without the unique index on seasons one download becomes two clashing rows. */
  lemma RepeatedSeasonClashes(lib: Library) returns (d: Download, ms: seq<MediaRequest>, ss: seq<SeasonRequest>)
    ensures UniqueRequests(ms) && UniqueActiveDownloads([d]) && !UniqueSeasons(ss)
    ensures !NoClash(lib, Select([d], ms, ss))
  {
    d := Download(1, Some(1), Some(1), InFlight("downloading"), Some(Tv), JNull);
    ms := [MediaRequest(1, 1, Tv, Pending)];
    var a, b := SeasonRequest(1, 1, 1, Pending), SeasonRequest(2, 1, 1, Pending);
    ss := [a, b];
    var m := Some(ms[0]);
    assert ss[1..] == [b] && ms[1..] == [];
    assert MatchingSeasons(d, [b]) == [Some(b)];
    assert MatchingSeasons(d, ss) == [Some(a), Some(b)];
    assert MatchingRequests(d, ms) == [m];
    assert RowsWithSeasons(d, m, [Some(b)]) == [MakeRow(d, Some(b))];
    assert RowsWithSeasons(d, m, [Some(a), Some(b)]) == [MakeRow(d, Some(a)), MakeRow(d, Some(b))] by {
      assert [Some(a), Some(b)][1..] == [Some(b)];
    }
    var joined := [Some(a), Some(b)];
    assert RowsWithRequests(d, [m], joined) == RowsWithSeasons(d, m, joined) + RowsWithRequests(d, [], joined);
    var rows := Select([d], ms, ss);
    assert [d][1..] == [] && Select([], ms, ss) == [];
    assert rows == [MakeRow(d, Some(a)), MakeRow(d, Some(b))];
    assert Clash(lib, rows[0], rows[1]);
  }
}
