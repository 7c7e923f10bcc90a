/** The upgrade and the downgrade, step by step over the tables, their checks and indexes. */
module ScopeMigration {
  import opened Wrappers
  import opened ScopeKey
  import opened ScopeRows

  /** The constraints on request statuses before and after the new status exists. */
  datatype Release = Before | After

  /** `ck_media_requests_status_enum` and `ck_season_requests_status_enum` */
  predicate Listed(release: Release, s: RequestStatus) {
    !s.Unlisted? && (s.WaitingForAirDate? ==> release.After?)
  }

  /** The predicate of `uq_media_requests_active`. */
  predicate InActive(release: Release, s: RequestStatus) {
    || s.Pending? || s.Searching? || s.NoRelease? || s.Downloading? || s.BlockedRequest? || s.Completed?
    || s.PartiallyAvailable? || (release.After? && s.WaitingForAirDate?)
  }

  predicate AllListed(release: Release, ms: seq<MediaRequest>, ss: seq<SeasonRequest>) {
    && (forall m | m in ms :: Listed(release, m.status))
    && (forall s | s in ss :: Listed(release, s.status))
  }

  predicate SameActiveTitle(release: Release, a: MediaRequest, b: MediaRequest) {
    && InActive(release, a.status) && InActive(release, b.status)
    && a.tmdbId == b.tmdbId && a.mediaType == b.mediaType
  }

  /** `uq_media_requests_active` */
  predicate UniqueActive(release: Release, ms: seq<MediaRequest>) {
    forall i, j :: 0 <= i < j < |ms| ==> !SameActiveTitle(release, ms[i], ms[j])
  }

  // ----- scopes

  datatype Scope = Scope(id: int, row: Row, key: Option<string>)

  /** Rows as the insertion stores them: numbered, and without a key. */
  function Inserted(rows: seq<Row>, next: int): (r: seq<Scope>)
    ensures |r| == |rows|
    ensures forall i | 0 <= i < |r| :: r[i] == Scope(next + i, rows[i], None)
  {
    if rows == [] then [] else [Scope(next, rows[0], None)] + Inserted(rows[1..], next + 1)
  }

  predicate UniqueScopes(scopes: seq<Scope>) {
    forall i, j :: 0 <= i < j < |scopes| ==> scopes[i].id != scopes[j].id
  }

  function KeyOfRow(lib: Library, r: Row): Option<string> {
    KeyOf(lib, r.season, r.episodes)
  }

  /** `UPDATE download_scopes SET scope_key = :scope_key WHERE id = :id` */
  function SetKey(scopes: seq<Scope>, id: int, key: string): (r: seq<Scope>)
    ensures |r| == |scopes|
    ensures forall i | 0 <= i < |r| ::
              r[i] == if scopes[i].id == id then scopes[i].(key := Some(key)) else scopes[i]
  {
    if scopes == [] then []
    else
      [if scopes[0].id == id then scopes[0].(key := Some(key)) else scopes[0]] + SetKey(scopes[1..], id, key)
  }

  /** Each scope with the key of its own season and episodes. */
  predicate Keyed(lib: Library, before: seq<Scope>, after: seq<Scope>) {
    && |after| == |before|
    && forall i | 0 <= i < |after| ::
         after[i] == before[i].(key := KeyOfRow(lib, before[i].row)) && after[i].key.Some?
  }

  /** As `Keyed`, for the first scopes; the others are as they were. */
  ghost predicate KeyedUpTo(lib: Library, before: seq<Scope>, after: seq<Scope>, k: nat)
    requires k <= |before|
  {
    && |after| == |before|
    && (forall i | 0 <= i < k ::
          after[i] == before[i].(key := KeyOfRow(lib, before[i].row)) && after[i].key.Some?)
    && forall i | k <= i < |after| :: after[i] == before[i]
  }

  lemma KeyedOneMore(lib: Library, before: seq<Scope>, after: seq<Scope>, k: nat)
    requires k < |before| && UniqueScopes(before) && KeyedUpTo(lib, before, after, k)
    requires KeyOfRow(lib, before[k].row).Some?
    ensures KeyedUpTo(lib, before, SetKey(after, before[k].id, KeyOfRow(lib, before[k].row).value), k + 1)
  {
  }

  lemma KeyedThrough(lib: Library, before: seq<Scope>, after: seq<Scope>)
    requires KeyedUpTo(lib, before, after, |before|)
    ensures Keyed(lib, before, after)
    ensures forall s | s in before :: KeyOfRow(lib, s.row).Some?
  {
    forall s | s in before ensures KeyOfRow(lib, s.row).Some? {
      var i :| 0 <= i < |before| && before[i] == s;
      assert after[i].key.Some?;
    }
  }

  predicate SameActiveScope(a: Scope, b: Scope) {
    && InScopeIndex(a.row) && InScopeIndex(b.row) && a.row.request == b.row.request
    && a.key == b.key && a.key.Some?
  }

  /** `uq_download_scopes_active_scope` */
  predicate UniqueActiveScopes(scopes: seq<Scope>) {
    forall i, j :: 0 <= i < j < |scopes| ==> !SameActiveScope(scopes[i], scopes[j])
  }

  predicate NoNullKey(scopes: seq<Scope>) {
    forall s | s in scopes :: s.key.Some?
  }

  /** The whole table after an upgrade: the selected rows in order, each with its key. */
  predicate Filled(lib: Library, rows: seq<Row>, scopes: seq<Scope>) {
    Keyed(lib, Inserted(rows, 1), scopes)
  }

  predicate KeysExist(lib: Library, rows: seq<Row>) {
    forall r | r in rows :: KeyOfRow(lib, r).Some?
  }

  lemma FilledDoesNotClash(lib: Library, rows: seq<Row>, scopes: seq<Scope>)
    requires Filled(lib, rows, scopes) && NoClash(lib, rows)
    ensures UniqueActiveScopes(scopes) && NoNullKey(scopes) && UniqueScopes(scopes)
  {
    forall i, j | 0 <= i < j < |scopes| ensures !SameActiveScope(scopes[i], scopes[j]) {
      assert !Clash(lib, rows[i], rows[j]);
    }
  }

  // ----- the new status

  function Demoted(s: RequestStatus): RequestStatus {
    if s.WaitingForAirDate? then Pending else s
  }

  function DemotedRequests(ms: seq<MediaRequest>): (r: seq<MediaRequest>)
    ensures |r| == |ms|
    ensures forall i | 0 <= i < |ms| :: r[i] == ms[i].(status := Demoted(ms[i].status))
  {
    if ms == [] then [] else [ms[0].(status := Demoted(ms[0].status))] + DemotedRequests(ms[1..])
  }

  function DemotedSeasons(ss: seq<SeasonRequest>): (r: seq<SeasonRequest>)
    ensures |r| == |ss|
    ensures forall i | 0 <= i < |ss| :: r[i] == ss[i].(status := Demoted(ss[i].status))
  {
    if ss == [] then [] else [ss[0].(status := Demoted(ss[0].status))] + DemotedSeasons(ss[1..])
  }

  /** Rows the old check admits are active under one index exactly when under the other. */
  lemma OldChecksSuffice(ms: seq<MediaRequest>, ss: seq<SeasonRequest>)
    requires AllListed(Before, ms, ss) && UniqueActive(Before, ms)
    ensures AllListed(After, ms, ss) && UniqueActive(After, ms)
  {
    forall i, j | 0 <= i < j < |ms| ensures !SameActiveTitle(After, ms[i], ms[j]) {
      assert ms[i] in ms && ms[j] in ms;
      assert !SameActiveTitle(Before, ms[i], ms[j]);
    }
  }

  /** Demoting the new status restores what the old check and the old index demand. */
  lemma DemotionSuffices(ms: seq<MediaRequest>, ss: seq<SeasonRequest>)
    requires AllListed(After, ms, ss) && UniqueActive(After, ms)
    ensures AllListed(Before, DemotedRequests(ms), DemotedSeasons(ss))
    ensures UniqueActive(Before, DemotedRequests(ms)) && UniqueActive(After, DemotedRequests(ms))
  {
    var ns, ts := DemotedRequests(ms), DemotedSeasons(ss);
    forall n | n in ns ensures Listed(Before, n.status) {
      var i :| 0 <= i < |ns| && ns[i] == n;
      assert ms[i] in ms;
    }
    forall t | t in ts ensures Listed(Before, t.status) {
      var i :| 0 <= i < |ts| && ts[i] == t;
      assert ss[i] in ss;
    }
    forall i, j | 0 <= i < j < |ns|
      ensures !SameActiveTitle(After, ns[i], ns[j]) && !SameActiveTitle(Before, ns[i], ns[j])
    {
      assert !SameActiveTitle(After, ms[i], ms[j]);
    }
  }

  /** Row by row: however many requests an update has demoted so far, the index in place holds. */
  lemma EveryRowKeepsTheIndex(ms: seq<MediaRequest>, k: nat)
    requires UniqueActive(After, ms) && k <= |ms|
    ensures UniqueActive(After, DemotedRequests(ms[..k]) + ms[k..])
  {
    var ns := DemotedRequests(ms[..k]) + ms[k..];
    forall i, j | 0 <= i < j < |ns| ensures !SameActiveTitle(After, ns[i], ns[j]) {
      assert !SameActiveTitle(After, ms[i], ms[j]);
    }
  }

  /** Demotion changes nothing that was there before the upgrade. */
  lemma NothingToDemote(ms: seq<MediaRequest>, ss: seq<SeasonRequest>)
    requires AllListed(Before, ms, ss)
    ensures DemotedRequests(ms) == ms && DemotedSeasons(ss) == ss
  {
    var ns, ts := DemotedRequests(ms), DemotedSeasons(ss);
    forall i | 0 <= i < |ms| ensures ns[i] == ms[i] { assert ms[i] in ms; }
    forall i | 0 <= i < |ss| ensures ts[i] == ss[i] { assert ss[i] in ss; }
  }

  lemma UniqueRequestsKept(ms: seq<MediaRequest>, ss: seq<SeasonRequest>)
    ensures UniqueRequests(ms) ==> UniqueRequests(DemotedRequests(ms))
    ensures UniqueSeasons(ss) ==> UniqueSeasons(DemotedSeasons(ss))
  {
  }

  // ----- the constraints, told from the statuses they name

  predicate AllAmong(ms: seq<MediaRequest>, ss: seq<SeasonRequest>, admitted: set<RequestStatus>) {
    (forall m | m in ms :: m.status in admitted) && (forall s | s in ss :: s.status in admitted)
  }

  /** No title has two requests with such statuses. */
  predicate OnePerTitle(ms: seq<MediaRequest>, active: set<RequestStatus>) {
    forall i, j | 0 <= i < j < |ms| && ms[i].tmdbId == ms[j].tmdbId && ms[i].mediaType == ms[j].mediaType ::
      ms[i].status !in active || ms[j].status !in active
  }

  const SETTLED_DOWNLOADS: set<DownloadStatus> := {Imported, Failed, NoAcceptableRelease}

  /** No season counts as season -1. */
  predicate SameSeason(a: Option<int>, b: Option<int>) {
    a == b || (a == None && b == Some(-1)) || (a == Some(-1) && b == None)
  }

  /** No request has two downloads of one season, or of no season, with neither settled. */
  predicate OnePerSlot(ds: seq<Download>) {
    forall i, j | 0 <= i < j < |ds| && ds[i].request.Some? && ds[i].request == ds[j].request
                  && SameSeason(ds[i].season, ds[j].season) ::
      ds[i].status in SETTLED_DOWNLOADS || ds[j].status in SETTLED_DOWNLOADS
  }

  /** No request has two active or blocked scopes with one key. */
  predicate OnePerScope(scopes: seq<Scope>) {
    forall i, j | 0 <= i < j < |scopes| && scopes[i].row.request.Some? && scopes[i].row.request == scopes[j].row.request
                  && scopes[i].key.Some? && scopes[i].key == scopes[j].key ::
      scopes[i].row.status !in {Active, ScopeBlocked} || scopes[j].row.status !in {Active, ScopeBlocked}
  }

  const OLD_STATUSES: set<RequestStatus> :=
    {Pending, Searching, NoRelease, Downloading, Completed, Available, PartiallyAvailable, FailedRequest,
     BlockedRequest, Evicted, Cancelled}

  const OLD_ACTIVE: set<RequestStatus> :=
    {Pending, Searching, NoRelease, Downloading, BlockedRequest, Completed, PartiallyAvailable}

  lemma ListedReads(s: RequestStatus)
    ensures Listed(Before, s) <==> s in OLD_STATUSES
    ensures Listed(After, s) <==> s in OLD_STATUSES + {WaitingForAirDate}
    ensures InActive(Before, s) <==> s in OLD_ACTIVE
    ensures InActive(After, s) <==> s in OLD_ACTIVE + {WaitingForAirDate}
  {
  }

  lemma ConstraintsRead(ms: seq<MediaRequest>, ss: seq<SeasonRequest>)
    ensures AllListed(Before, ms, ss) <==> AllAmong(ms, ss, OLD_STATUSES)
    ensures AllListed(After, ms, ss) <==> AllAmong(ms, ss, OLD_STATUSES + {WaitingForAirDate})
    ensures UniqueActive(Before, ms) <==> OnePerTitle(ms, OLD_ACTIVE)
    ensures UniqueActive(After, ms) <==> OnePerTitle(ms, OLD_ACTIVE + {WaitingForAirDate})
  {
    forall s: RequestStatus
      ensures Listed(Before, s) <==> s in OLD_STATUSES
      ensures Listed(After, s) <==> s in OLD_STATUSES + {WaitingForAirDate}
      ensures InActive(Before, s) <==> s in OLD_ACTIVE
      ensures InActive(After, s) <==> s in OLD_ACTIVE + {WaitingForAirDate}
    {
      ListedReads(s);
    }
    ActiveReads(Before, OLD_ACTIVE, ms);
    ActiveReads(After, OLD_ACTIVE + {WaitingForAirDate}, ms);
  }

  lemma ActiveReads(release: Release, active: set<RequestStatus>, ms: seq<MediaRequest>)
    requires forall s: RequestStatus :: InActive(release, s) <==> s in active
    ensures UniqueActive(release, ms) <==> OnePerTitle(ms, active)
  {
    if OnePerTitle(ms, active) {
      forall i, j | 0 <= i < j < |ms| ensures !SameActiveTitle(release, ms[i], ms[j]) {
        assert InActive(release, ms[i].status) <==> ms[i].status in active;
        assert InActive(release, ms[j].status) <==> ms[j].status in active;
      }
    }
    if UniqueActive(release, ms) {
      forall i, j | 0 <= i < j < |ms| && ms[i].tmdbId == ms[j].tmdbId && ms[i].mediaType == ms[j].mediaType
        ensures ms[i].status !in active || ms[j].status !in active
      {
        assert !SameActiveTitle(release, ms[i], ms[j]);
      }
    }
  }

  lemma SlotsRead(ds: seq<Download>)
    ensures UniqueActiveDownloads(ds) <==> OnePerSlot(ds)
  {
    if UniqueActiveDownloads(ds) {
      forall i, j | 0 <= i < j < |ds| && ds[i].request.Some? && ds[i].request == ds[j].request
                    && SameSeason(ds[i].season, ds[j].season)
        ensures ds[i].status in SETTLED_DOWNLOADS || ds[j].status in SETTLED_DOWNLOADS
      {
        assert !SameSlot(ds[i], ds[j]);
      }
    }
  }

  lemma ScopesRead(scopes: seq<Scope>)
    ensures UniqueActiveScopes(scopes) <==> OnePerScope(scopes)
  {
    if UniqueActiveScopes(scopes) {
      forall i, j | 0 <= i < j < |scopes| && scopes[i].row.request.Some? && scopes[i].row.request == scopes[j].row.request
                    && scopes[i].key.Some? && scopes[i].key == scopes[j].key
        ensures scopes[i].row.status !in {Active, ScopeBlocked} || scopes[j].row.status !in {Active, ScopeBlocked}
      {
        assert !SameActiveScope(scopes[i], scopes[j]);
      }
    }
  }

  // ----- the database

  class Database {
    var requests: seq<MediaRequest>
    var seasons: seq<SeasonRequest>
    var downloads: seq<Download>
    /** The table of scopes, when it exists. */
    var scopes: Option<seq<Scope>>
    /** Which release's check constraints are in place. */
    var checks: Release
    /** Which release's active index is in place, if any. */
    var activeIndex: Option<Release>
    var keyNotNull: bool
    var scopeIndex: bool

    constructor (ms: seq<MediaRequest>, ss: seq<SeasonRequest>, ds: seq<Download>)
      ensures requests == ms && seasons == ss && downloads == ds
      ensures scopes == None && checks == Before && activeIndex == Some(Before) && !scopeIndex && !keyNotNull
    {
      requests, seasons, downloads := ms, ss, ds;
      scopes, checks, activeIndex, scopeIndex, keyNotNull := None, Before, Some(Before), false, false;
    }

    /** Constraints that neither direction touches. */
    predicate Keys()
      reads this
    {
      UniqueRequests(requests) && UniqueDownloads(downloads) && UniqueSeasons(seasons)
      && UniqueActiveDownloads(downloads)
    }

    /** The data meet the constraints in place, and those are the given release's. */
    predicate At(release: Release)
      reads this
    {
      && Keys() && checks == release && activeIndex == Some(release)
      && AllListed(release, requests, seasons) && UniqueActive(release, requests)
      && scopes.Some? == release.After? && scopeIndex == release.After? && keyNotNull == release.After?
      && (scopes.Some? ==>
            UniqueScopes(scopes.value) && UniqueActiveScopes(scopes.value) && NoNullKey(scopes.value))
    }

    /** What a release's constraints come to, in words. */
    ghost predicate Reads(release: Release)
      reads this
    {
      var more: set<RequestStatus> := if release.After? then {WaitingForAirDate} else {};
      && UniqueRequests(requests) && UniqueDownloads(downloads) && UniqueSeasons(seasons) && OnePerSlot(downloads)
      && AllAmong(requests, seasons, OLD_STATUSES + more) && OnePerTitle(requests, OLD_ACTIVE + more)
      && (release.After? ==> scopes.Some? && OnePerScope(scopes.value) && forall s | s in scopes.value :: s.key.Some?)
    }

    /** The constraints in place are what the data are bound to. */
    lemma AtReads(release: Release)
      requires checks == release && activeIndex == Some(release)
      requires scopes.Some? == release.After? && scopeIndex == release.After? && keyNotNull == release.After?
      requires scopes.Some? ==> UniqueScopes(scopes.value)
      ensures At(release) <==> Reads(release)
    {
      ConstraintsRead(requests, seasons);
      SlotsRead(downloads);
      if scopes.Some? { ScopesRead(scopes.value); }
      assert OLD_STATUSES + {} == OLD_STATUSES && OLD_ACTIVE + {} == OLD_ACTIVE;
    }

    /** `_update_status_constraints`: the copy of a table fails on a row that breaks the check. */
    method UpdateStatusConstraints(release: Release) returns (ok: bool)
      modifies this`checks
      ensures ok == AllListed(release, requests, seasons)
      ensures checks == if ok then release else old(checks)
    {
      ok := AllListed(release, requests, seasons);
      if ok { checks := release; }
    }

    /** `_recreate_active_index` */
    method RecreateActiveIndex(release: Release) returns (ok: bool)
      modifies this`activeIndex
      ensures ok == UniqueActive(release, requests)
      ensures activeIndex == if ok then Some(release) else None
    {
      activeIndex := None;
      ok := UniqueActive(release, requests);
      if ok { activeIndex := Some(release); }
    }

    /** `_backfill_scope_keys`: it raises at the first row whose episodes do not parse. */
    method BackfillScopeKeys(lib: Library) returns (ok: bool)
      requires scopes.Some? && UniqueScopes(scopes.value)
      modifies this`scopes
      ensures scopes.Some?
      ensures ok <==> forall s | s in old(scopes.value) :: KeyOfRow(lib, s.row).Some?
      ensures ok ==> Keyed(lib, old(scopes.value), scopes.value)
    {
      var rows, k := scopes.value, 0;
      while k < |rows|
        invariant 0 <= k <= |rows| && scopes.Some? && KeyedUpTo(lib, rows, scopes.value, k)
      {
        var key := KeyOfRow(lib, rows[k].row);
        if key.None? {
          assert rows[k] in rows;
          return false;
        }
        KeyedOneMore(lib, rows, scopes.value, k);
        scopes := Some(SetKey(scopes.value, rows[k].id, key.value));
        k := k + 1;
      }
      KeyedThrough(lib, rows, scopes.value);
      ok := true;
    }

    /** `alter_column("scope_key", nullable=False)` */
    method ForbidNullKeys() returns (ok: bool)
      requires scopes.Some?
      modifies this`keyNotNull
      ensures ok == NoNullKey(scopes.value)
      ensures keyNotNull == (old(keyNotNull) || ok)
    {
      ok := NoNullKey(scopes.value);
      if ok { keyNotNull := true; }
    }

    /** `create_index("uq_download_scopes_active_scope", …)` */
    method CreateScopeIndex() returns (ok: bool)
      requires scopes.Some?
      modifies this`scopeIndex
      ensures ok == UniqueActiveScopes(scopes.value)
      ensures scopeIndex == (old(scopeIndex) || ok)
    {
      ok := UniqueActiveScopes(scopes.value);
      if ok { scopeIndex := true; }
    }

    /**
     From any database that meets the old constraints the upgrade fails only where a wanted
     download's episodes have no key; otherwise every new constraint can be put in place and
     the table holds the selected rows.
     */
    method Upgrade(lib: Library) returns (ok: bool)
      requires At(Before)
      modifies this
      ensures requests == old(requests) && seasons == old(seasons) && downloads == old(downloads)
      ensures ok <==> KeysExist(lib, Select(downloads, requests, seasons))
      ensures ok ==> At(After) && Filled(lib, Select(downloads, requests, seasons), scopes.value)
    {
      OldChecksSuffice(requests, seasons);
      ghost var rows := Select(downloads, requests, seasons);
      RowsDoNotClash(lib, downloads, requests, seasons);
      ok := UpdateStatusConstraints(After);
      if !ok { return; }
      ok := RecreateActiveIndex(After);
      if !ok { return; }
      scopes := Some(Inserted(Select(downloads, requests, seasons), 1));
      ok := BackfillScopeKeys(lib);
      InsertedRows(lib, rows);
      if !ok { return; }
      FilledDoesNotClash(lib, rows, scopes.value);
      ok := ForbidNullKeys();
      if !ok { return; }
      ok := CreateScopeIndex();
    }

    /** `UPDATE media_requests SET status = 'pending' WHERE status = 'waiting_for_air_date'` */
    method DemoteRequests() returns (ok: bool)
      requires activeIndex.Some?
      modifies this`requests
      ensures ok == (UniqueActive(activeIndex.value, DemotedRequests(old(requests)))
                     && AllListed(checks, DemotedRequests(old(requests)), []))
      ensures requests == if ok then DemotedRequests(old(requests)) else old(requests)
    {
      var ms := DemotedRequests(requests);
      ok := UniqueActive(activeIndex.value, ms) && AllListed(checks, ms, []);
      if ok { requests := ms; }
    }

    /** `UPDATE season_requests SET status = 'pending' WHERE status = 'waiting_for_air_date'` */
    method DemoteSeasons() returns (ok: bool)
      modifies this`seasons
      ensures ok == AllListed(checks, [], DemotedSeasons(old(seasons)))
      ensures seasons == if ok then DemotedSeasons(old(seasons)) else old(seasons)
    {
      var ss := DemotedSeasons(seasons);
      ok := AllListed(checks, [], ss);
      if ok { seasons := ss; }
    }

    /** From any database that meets the new constraints the downgrade succeeds. */
    method Downgrade() returns (ok: bool)
      requires At(After)
      modifies this
      ensures ok && At(Before) && downloads == old(downloads)
      ensures |requests| == |old(requests)| && |seasons| == |old(seasons)|
      ensures forall i | 0 <= i < |requests| :: var m := old(requests)[i];
                requests[i] == if m.status == WaitingForAirDate then m.(status := Pending) else m
      ensures forall i | 0 <= i < |seasons| :: var s := old(seasons)[i];
                seasons[i] == if s.status == WaitingForAirDate then s.(status := Pending) else s
    {
      DemotionSuffices(requests, seasons);
      UniqueRequestsKept(requests, seasons);
      DemotedIsListed(requests, seasons);
      ok := DemoteRequests();
      if !ok { return; }
      ok := DemoteSeasons();
      if !ok { return; }
      scopeIndex, keyNotNull, scopes := false, false, None;
      ok := RecreateActiveIndex(Before);
      if !ok { return; }
      ok := UpdateStatusConstraints(Before);
    }
  }

  lemma InsertedRows(lib: Library, rows: seq<Row>)
    ensures KeysExist(lib, rows) <==> forall s | s in Inserted(rows, 1) :: KeyOfRow(lib, s.row).Some?
  {
    var scopes := Inserted(rows, 1);
    forall s | s in scopes ensures s.row in rows {
      var i :| 0 <= i < |scopes| && scopes[i] == s;
    }
    forall r | r in rows ensures exists s :: s in scopes && s.row == r {
      var i :| 0 <= i < |rows| && rows[i] == r;
      assert scopes[i] in scopes;
    }
  }

  lemma DemotedIsListed(ms: seq<MediaRequest>, ss: seq<SeasonRequest>)
    requires AllListed(After, ms, ss) && UniqueActive(After, ms)
    ensures AllListed(After, DemotedRequests(ms), DemotedSeasons(ss))
  {
    DemotionSuffices(ms, ss);
  }

  /** What a wanted download becomes, from the old constraints to the new table. */
  lemma UpgradedScopes(lib: Library, ds: seq<Download>, ms: seq<MediaRequest>, ss: seq<SeasonRequest>,
                       scopes: seq<Scope>, k: nat)
    requires UniqueRequests(ms) && UniqueSeasons(ss) && UniqueDownloads(ds) && UniqueActiveDownloads(ds)
    requires Filled(lib, Select(ds, ms, ss), scopes) && k < |scopes|
    ensures exists d :: && d in ds && Wanted(d, ms) && Describes(scopes[k].row, d, ss)
                        && scopes[k].key == KeyOf(lib, d.season, d.episodes)
  {
    var rows := Select(ds, ms, ss);
    RowsComeFromDownloads(ds, ms, ss);
    assert rows[k] in rows;
    var d :| d in ds && Wanted(d, ms) && Describes(rows[k], d, ss);
    assert scopes[k].row == rows[k];
  }
}
