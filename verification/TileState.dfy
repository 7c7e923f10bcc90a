/**
 The badge of a discover tile: the live request over the server's base, and the client's
 own record of when it first saw each request settled badly.
 */
module TileState {
  import opened Wrappers

  // ----- statuses and labels

  datatype Intent = Searching | Downloading | Available | Error | Neutral

  datatype Presentation = Presentation(text: string, intent: Intent)

  function Spaced(c: char): char {
    if c == '_' then ' ' else c
  }

  function Upper(c: char): char {
    if 'a' <= c <= 'z' then c - 32 as char else c
  }

  /** Underscores become spaces, then a leading ASCII letter is capitalised. */
  function Humanize(s: string): (r: string)
    ensures |r| == |s|
    ensures forall i | 0 <= i < |s| :: r[i] == if i == 0 then Upper(Spaced(s[0])) else Spaced(s[i])
  {
    seq(|s|, i requires 0 <= i < |s| => if i == 0 then Upper(Spaced(s[0])) else Spaced(s[i]))
  }

  function RequestStatus(s: string): Presentation {
    if s == "pending" then Presentation("Requested", Neutral)
    else if s == "searching" then Presentation("Searching", Searching)
    else if s == "no_acceptable_release" then Presentation("No release", Error)
    else if s == "waiting_for_air_date" then Presentation("Waiting for air date", Neutral)
    else if s == "downloading" then Presentation("Downloading", Downloading)
    else if s == "import_blocked" then Presentation("Import blocked", Error)
    else if s == "completed" then Presentation("Finalizing", Downloading)
    else if s == "available" then Presentation("In library", Available)
    else if s == "partially_available" then Presentation("Partially available", Available)
    else if s == "failed" then Presentation("Failed", Error)
    else if s == "evicted" then Presentation("Evicted", Neutral)
    else if s == "cancelled" then Presentation("Cancelled", Neutral)
    else Presentation(Humanize(s), Neutral)
  }

  /** `OVERLAY_SUPPRESSED` */
  predicate Suppressed(s: string) {
    s == "failed" || s == "evicted" || s == "cancelled"
  }

  datatype LibraryState = InLibrary | PartlyInLibrary | Requested | Processing | NotThere | Unlisted

  function LibraryPresentation(state: LibraryState): Option<Presentation> {
    match state
    case InLibrary => Some(RequestStatus("available"))
    case PartlyInLibrary => Some(RequestStatus("partially_available"))
    case Requested => Some(RequestStatus("pending"))
    case Processing => Some(Presentation("Requested", Searching))
    case NotThere => None
    case Unlisted => None
  }

  function SettledBaseFallback(state: LibraryState, settled: string, contradicted: bool): Option<Presentation> {
    if settled == "evicted" || contradicted then None
    else if state == InLibrary then LibraryPresentation(state) else None
  }

  // ----- the record of observed settles

  /** The live state of a tile: its request, the request's status, and an older available one. */
  datatype Live = Live(request: int, status: string, coexisting: bool)

  /** One derivation: what the caller passes, and the clock. */
  datatype Call = Call(base: LibraryState, live: Option<Live>, baseFetchedAt: Option<int>,
                       requestsFetchedAt: Option<int>, now: int)

  datatype Record = Record(observedAt: map<int, int>, invalidations: nat)

  const NOTHING_SEEN := Record(map[], 0)

  function ObservedTime(c: Call): int {
    if c.requestsFetchedAt.Some? then c.requestsFetchedAt.value else c.now
  }

  function Tracked(r: Record, c: Call): Record {
    if c.live.None? then r
    else
      var id := c.live.value.request;
      if !Suppressed(c.live.value.status) then r.(observedAt := r.observedAt - {id})
      else if id in r.observedAt then r
      else Record(r.observedAt[id := ObservedTime(c)], r.invalidations + 1)
  }

  function Derived(r: Record, c: Call): Option<Presentation> {
    if c.live.None? then LibraryPresentation(c.base)
    else
      var live := c.live.value;
      if !Suppressed(live.status) then Some(RequestStatus(live.status))
      else if live.request in r.observedAt && c.baseFetchedAt.Some?
              && c.baseFetchedAt.value > r.observedAt[live.request] then LibraryPresentation(c.base)
      else SettledBaseFallback(c.base, live.status, live.coexisting)
  }

  /** The module's registry, changed by every derivation. */
  class Tiles {
    var settleObservedAt: map<int, int>
    var invalidations: nat

    ghost function Seen(): Record
      reads this
    {
      Record(settleObservedAt, invalidations)
    }

    constructor ()
      ensures Seen() == NOTHING_SEEN
    {
      settleObservedAt, invalidations := map[], 0;
    }

    method TrackSettleObservations(c: Call)
      modifies this
      ensures Seen() == Tracked(old(Seen()), c)
    {
      if c.live.None? { return; }
      var live := c.live.value;
      var observed := if c.requestsFetchedAt.Some? then c.requestsFetchedAt.value else c.now;
      if !Suppressed(live.status) {
        settleObservedAt := settleObservedAt - {live.request};
      } else if live.request !in settleObservedAt {
        settleObservedAt := settleObservedAt[live.request := observed];
        invalidations := invalidations + 1;
      }
    }

    method DeriveTileState(c: Call) returns (shown: Option<Presentation>)
      modifies this
      ensures Seen() == Tracked(old(Seen()), c)
      ensures shown == Derived(Seen(), c)
    {
      TrackSettleObservations(c);
      if c.live.Some? {
        var live := c.live.value;
        if !Suppressed(live.status) {
          return Some(RequestStatus(live.status));
        }
        if c.baseFetchedAt.Some? && live.request in settleObservedAt
           && c.baseFetchedAt.value > settleObservedAt[live.request] {
          return LibraryPresentation(c.base);
        }
        return SettledBaseFallback(c.base, live.status, live.coexisting);
      }
      return LibraryPresentation(c.base);
    }
  }

  // ----- runs of derivations, and the episodes in them

  function RecordAfter(calls: seq<Call>): Record {
    if calls == [] then NOTHING_SEEN
    else Tracked(RecordAfter(calls[..|calls| - 1]), calls[|calls| - 1])
  }

  predicate Sees(c: Call, id: int) {
    c.live.Some? && c.live.value.request == id
  }

  predicate SeesSettled(c: Call, id: int) {
    Sees(c, id) && Suppressed(c.live.value.status)
  }

  /** From a position on, the request is seen settled there and is never seen otherwise. */
  predicate EpisodeFrom(calls: seq<Call>, id: int, at: nat) {
    && at < |calls| && SeesSettled(calls[at], id)
    && forall i | at <= i < |calls| && Sees(calls[i], id) :: SeesSettled(calls[i], id)
  }

  /** The position opens an episode: before it the request was never seen, or last seen otherwise. */
  predicate Opens(calls: seq<Call>, at: nat) {
    && at < |calls| && calls[at].live.Some? && SeesSettled(calls[at], calls[at].live.value.request)
    && forall j | 0 <= j < at :: !EpisodeFrom(calls[..at], calls[at].live.value.request, j)
  }

  /** The current episode of a request, from its opening. */
  predicate CurrentEpisode(calls: seq<Call>, id: int, at: nat) {
    EpisodeFrom(calls, id, at) && Opens(calls, at)
  }

  function Openings(calls: seq<Call>): nat {
    if calls == [] then 0
    else Openings(calls[..|calls| - 1]) + if Opens(calls, |calls| - 1) then 1 else 0
  }

  lemma EpisodeSnoc(init: seq<Call>, c: Call, id: int, at: nat)
    requires at < |init|
    ensures EpisodeFrom(init + [c], id, at) <==> EpisodeFrom(init, id, at) && (Sees(c, id) ==> SeesSettled(c, id))
  {
    var all := init + [c];
    assert all[|init|] == c;
    if EpisodeFrom(all, id, at) {
      forall i | at <= i < |init| && Sees(init[i], id) ensures SeesSettled(init[i], id) {
        assert all[i] == init[i];
      }
    }
  }

  lemma OpensSnoc(init: seq<Call>, c: Call, at: nat)
    requires at < |init|
    ensures Opens(init + [c], at) <==> Opens(init, at)
  {
    assert (init + [c])[..at] == init[..at];
  }

  /** A request is on record exactly when an episode of it is open. */
  ghost predicate OnRecord(calls: seq<Call>, id: int) {
    exists at :: 0 <= at < |calls| && EpisodeFrom(calls, id, at)
  }

  lemma OnRecordSnoc(init: seq<Call>, c: Call, id: int)
    ensures OnRecord(init + [c], id)
       <==> SeesSettled(c, id) || (OnRecord(init, id) && (Sees(c, id) ==> SeesSettled(c, id)))
  {
    var all := init + [c];
    if OnRecord(all, id) {
      var at :| 0 <= at < |all| && EpisodeFrom(all, id, at);
      if at < |init| { EpisodeSnoc(init, c, id, at); }
    }
    if SeesSettled(c, id) {
      assert EpisodeFrom(all, id, |init|);
    } else if OnRecord(init, id) && !Sees(c, id) {
      var at :| 0 <= at < |init| && EpisodeFrom(init, id, at);
      EpisodeSnoc(init, c, id, at);
    }
  }

  lemma {:induction false} RecordedIsOpen(calls: seq<Call>, id: int)
    ensures id in RecordAfter(calls).observedAt <==> OnRecord(calls, id)
    decreases |calls|
  {
    if calls != [] {
      var init, c := calls[..|calls| - 1], calls[|calls| - 1];
      RecordedIsOpen(init, id);
      assert calls == init + [c];
      OnRecordSnoc(init, c, id);
    }
  }

  /** A last derivation opens an episode exactly when it puts its request on record. */
  lemma OpensIsRecorded(init: seq<Call>, c: Call)
    ensures Opens(init + [c], |init|)
       <==> c.live.Some? && Suppressed(c.live.value.status)
            && c.live.value.request !in RecordAfter(init).observedAt
  {
    var all := init + [c];
    assert all[..|init|] == init && all[|init|] == c;
    if c.live.Some? { RecordedIsOpen(init, c.live.value.request); }
  }

  /** Every episode queues exactly one invalidation. */
  lemma {:induction false} OneInvalidationEach(calls: seq<Call>)
    ensures RecordAfter(calls).invalidations == Openings(calls)
    decreases |calls|
  {
    if calls != [] {
      var init, c := calls[..|calls| - 1], calls[|calls| - 1];
      OneInvalidationEach(init);
      assert calls == init + [c];
      OpensIsRecorded(init, c);
    }
  }

  /** Every episode keeps one observation time: that of the derivation that opened it. */
  lemma {:induction false} OneObservationEach(calls: seq<Call>, id: int, at: nat)
    requires CurrentEpisode(calls, id, at)
    ensures id in RecordAfter(calls).observedAt
    ensures RecordAfter(calls).observedAt[id] == ObservedTime(calls[at])
    decreases |calls|
  {
    var init, c := calls[..|calls| - 1], calls[|calls| - 1];
    assert calls == init + [c];
    if at == |init| {
      OpensIsRecorded(init, c);
    } else {
      EpisodeSnoc(init, c, id, at);
      OpensSnoc(init, c, at);
      OneObservationEach(init, id, at);
    }
  }

  /** An open episode has one opening. */
  lemma {:induction false} EpisodeHasOpening(calls: seq<Call>, id: int) returns (at: nat)
    requires OnRecord(calls, id)
    ensures CurrentEpisode(calls, id, at)
    decreases |calls|
  {
    var init, c := calls[..|calls| - 1], calls[|calls| - 1];
    assert calls == init + [c];
    OnRecordSnoc(init, c, id);
    if OnRecord(init, id) {
      at := EpisodeHasOpening(init, id);
      EpisodeSnoc(init, c, id, at);
      OpensSnoc(init, c, at);
    } else {
      at := |init|;
      RecordedIsOpen(init, id);
      OpensIsRecorded(init, c);
    }
  }

  // ----- what is shown

  /** What a tile shows at the end of a run. */
  function Shown(calls: seq<Call>): Option<Presentation>
    requires calls != []
  {
    Derived(RecordAfter(calls), calls[|calls| - 1])
  }

  /** A base that is shown, by what the server says of the library. */
  predicate ReadsBase(state: LibraryState, shown: Option<Presentation>) {
    && (state == InLibrary ==> shown == Some(Presentation("In library", Available)))
    && (state == PartlyInLibrary ==> shown == Some(Presentation("Partially available", Available)))
    && (state == Requested ==> shown == Some(Presentation("Requested", Neutral)))
    && (state == Processing ==> shown == Some(Presentation("Requested", Searching)))
    && (state == NotThere || state == Unlisted ==> shown == None)
  }

  lemma BaseReads(state: LibraryState)
    ensures ReadsBase(state, LibraryPresentation(state))
  {
  }

  /**
   In an episode, a base fetched after its opening is shown as it is, and any other base, or
   one of unknown age, shows nothing or the library badge, the latter only for a base that
   said so, for a request neither evicted nor beside an older available one.
   */
  lemma SettledTileShows(calls: seq<Call>, at: nat)
    requires calls != [] && calls[|calls| - 1].live.Some?
    requires CurrentEpisode(calls, calls[|calls| - 1].live.value.request, at)
    ensures var c := calls[|calls| - 1];
            var live := c.live.value;
            var first := calls[at];
            var observed := if first.requestsFetchedAt.Some? then first.requestsFetchedAt.value else first.now;
            && live.status in {"failed", "evicted", "cancelled"}
            && if c.baseFetchedAt.Some? && c.baseFetchedAt.value > observed then ReadsBase(c.base, Shown(calls))
               else Shown(calls) == if c.base == InLibrary && live.status != "evicted" && !live.coexisting
                              then Some(Presentation("In library", Available)) else None
  {
    var c := calls[|calls| - 1];
    OneObservationEach(calls, c.live.value.request, at);
    assert EpisodeFrom(calls, c.live.value.request, at) && SeesSettled(c, c.live.value.request);
  }

  /** A live status that is shown; one without a label of its own is spelled out in neutral. */
  predicate ReadsStatus(status: string, shown: Presentation) {
    match status
    case "pending" => shown == Presentation("Requested", Neutral)
    case "searching" => shown == Presentation("Searching", Searching)
    case "no_acceptable_release" => shown == Presentation("No release", Error)
    case "waiting_for_air_date" => shown == Presentation("Waiting for air date", Neutral)
    case "downloading" => shown == Presentation("Downloading", Downloading)
    case "import_blocked" => shown == Presentation("Import blocked", Error)
    case "completed" => shown == Presentation("Finalizing", Downloading)
    case "available" => shown == Presentation("In library", Available)
    case "partially_available" => shown == Presentation("Partially available", Available)
    case other =>
      && shown.intent == Neutral && |shown.text| == |other|
      && forall i | 0 <= i < |other| ::
           shown.text[i] == if i == 0 && 'a' <= other[0] <= 'z' then other[0] - 'a' + 'A'
                            else if other[i] == '_' then ' ' else other[i]
  }

  lemma StatusReads(status: string)
    requires status !in {"failed", "evicted", "cancelled"}
    ensures !Suppressed(status) && ReadsStatus(status, RequestStatus(status))
  {
  }

  /**
   Outside an episode: with no live request the base is read, and a live one hides the base
   whatever it is.
   */
  lemma UnsettledTileShows(calls: seq<Call>)
    requires calls != []
    requires var live := calls[|calls| - 1].live;
             live.Some? ==> live.value.status !in {"failed", "evicted", "cancelled"}
    ensures var c := calls[|calls| - 1];
            if c.live.None? then ReadsBase(c.base, Shown(calls))
            else
              Shown(calls).Some? && ReadsStatus(c.live.value.status, Shown(calls).value)
  {
    var c := calls[|calls| - 1];
    if c.live.Some? { StatusReads(c.live.value.status); } else { BaseReads(c.base); }
  }

  /** Once a base is trusted in an episode, so is every later one in it. */
  lemma TrustLasts(calls: seq<Call>, stretch: seq<Call>, c: Call, id: int)
    requires calls != [] && SeesSettled(calls[|calls| - 1], id) && SeesSettled(c, id)
    requires forall x | x in stretch && Sees(x, id) :: SeesSettled(x, id)
    requires var b := calls[|calls| - 1].baseFetchedAt;
             && id in RecordAfter(calls).observedAt && b.Some? && b.value > RecordAfter(calls).observedAt[id]
             && c.baseFetchedAt.Some? && c.baseFetchedAt.value >= b.value
    ensures ReadsBase(c.base, Shown(calls + stretch + [c]))
  {
    RecordStays(calls, stretch, id);
    RecordSnoc(calls + stretch, c);
    TrustedShows(RecordAfter(calls + stretch + [c]), c, id);
    BaseReads(c.base);
    assert (calls + stretch + [c])[|calls + stretch|] == c;
  }

  lemma TrustedShows(r: Record, c: Call, id: int)
    requires SeesSettled(c, id) && id in r.observedAt
    requires c.baseFetchedAt.Some? && c.baseFetchedAt.value > r.observedAt[id]
    ensures Derived(r, c) == LibraryPresentation(c.base)
  {
  }

  lemma RecordSnoc(init: seq<Call>, c: Call)
    ensures RecordAfter(init + [c]) == Tracked(RecordAfter(init), c)
  {
    assert (init + [c])[..|init|] == init;
  }

  lemma {:induction false} RecordStays(calls: seq<Call>, stretch: seq<Call>, id: int)
    requires id in RecordAfter(calls).observedAt
    requires forall x | x in stretch && Sees(x, id) :: SeesSettled(x, id)
    ensures id in RecordAfter(calls + stretch).observedAt
    ensures RecordAfter(calls + stretch).observedAt[id] == RecordAfter(calls).observedAt[id]
    decreases |stretch|
  {
    if stretch == [] {
      assert calls + stretch == calls;
    } else {
      var init, c := stretch[..|stretch| - 1], stretch[|stretch| - 1];
      assert stretch == init + [c] && c in stretch;
      RecordStays(calls, init, id);
      RecordSnoc(calls + init, c);
      assert calls + stretch == (calls + init) + [c];
    }
  }

  // ----- no tile shows a bad settle

  lemma HumanizeInverse(s: string, word: string, lower: string)
    requires |word| == |lower| > 0 && word[1..] == lower[1..] && 'A' <= word[0] <= 'Z' && Upper(lower[0]) == word[0]
    requires 'a' <= lower[0] <= 'z' && ' ' !in word && Humanize(s) == word
    ensures s == word || s == lower
  {
    forall i | 0 < i < |s| ensures s[i] == word[i] && s[i] == lower[i] {
      assert word[1..][i - 1] == lower[1..][i - 1];
      assert word[i] in word && Humanize(s)[i] == Spaced(s[i]);
    }
    assert Humanize(s)[0] == Upper(Spaced(s[0]));
    if s[0] == word[0] {
      assert s == word;
    } else {
      assert s[0] == lower[0];
      assert s == lower;
    }
  }

  predicate BadText(text: string) {
    text == "Failed" || text == "Evicted" || text == "Cancelled"
  }

  lemma OverlayShowsBad(s: string)
    requires !Suppressed(s)
    ensures BadText(RequestStatus(s).text) <==> BadText(s)
  {
    BadAfterHumanize(s);
  }

  lemma BadAfterHumanize(s: string)
    requires !Suppressed(s)
    ensures BadText(Humanize(s)) <==> BadText(s)
  {
    if Humanize(s) == "Failed" { HumanizeInverse(s, "Failed", "failed"); }
    if Humanize(s) == "Evicted" { HumanizeInverse(s, "Evicted", "evicted"); }
    if Humanize(s) == "Cancelled" { HumanizeInverse(s, "Cancelled", "cancelled"); }
    if BadText(s) { HumanizeOfBad(s); }
  }

  lemma HumanizeOfBad(s: string)
    requires BadText(s)
    ensures Humanize(s) == s
  {
    assert forall i :: 0 < i < |s| ==> Spaced(s[i]) == s[i];
  }

  /**
   Whatever was recorded, a tile reads Failed, Evicted or Cancelled exactly when its live
   status is that very word, capital and all: no status of the contract is.
   */
  lemma BadSettleIsNeverShown(r: Record, c: Call)
    ensures Derived(r, c).Some? && BadText(Derived(r, c).value.text)
       <==> c.live.Some? && BadText(c.live.value.status)
  {
    if c.live.Some? && !Suppressed(c.live.value.status) { OverlayShowsBad(c.live.value.status); }
  }
}
