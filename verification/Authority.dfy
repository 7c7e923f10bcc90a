/**
 When a live state may be trusted: the epoch that a surface opens when it looks, and what
 authority in one of its renders means over every run of renders, fetches and invalidations.
 */
module Authority {
  import opened Wrappers

  /** What the cache holds for one key. */
  datatype Query = Query(hasData: bool, dataUpdatedAt: int, errorUpdatedAt: int, invalidated: bool, isFetching: bool)

  const EMPTY := Query(false, 0, 0, false, false)

  /** The baseline of an epoch. */
  datatype Snapshot = Snapshot(key: string, enabled: bool, dataUpdatedAt: int, errorUpdatedAt: int, freshAtStart: bool)

  datatype Event =
    | Render(key: string, enabled: bool, stale: bool)
    | Settle(key: string, success: bool, stamp: int)
    | Invalidate(key: string)
    | StartFetch(key: string)

  predicate SameEpoch(s: Snapshot, key: string, enabled: bool) {
    s.key == key && s.enabled == enabled
  }

  function Capture(q: Query, key: string, enabled: bool, stale: bool): Snapshot {
    Snapshot(key, enabled, q.dataUpdatedAt, q.errorUpdatedAt, !stale)
  }

  /** The epoch after a render. */
  function Baseline(epoch: Option<Snapshot>, q: Query, key: string, enabled: bool, stale: bool): Snapshot {
    if epoch.Some? && SameEpoch(epoch.value, key, enabled) then epoch.value else Capture(q, key, enabled, stale)
  }

  predicate Superseded(q: Query) {
    q.invalidated && q.isFetching
  }

  predicate Judged(baseline: Snapshot, q: Query, enabled: bool) {
    && enabled && !Superseded(q) && q.hasData
    && (baseline.freshAtStart || q.dataUpdatedAt != baseline.dataUpdatedAt
        || q.errorUpdatedAt != baseline.errorUpdatedAt)
  }

  /** `useLiveStateAuthority`: the epoch is state that renders re-capture. */
  class LiveStateAuthority {
    var epoch: Option<Snapshot>

    constructor ()
      ensures epoch == None
    {
      epoch := None;
    }

    method Render(q: Query, key: string, enabled: bool, stale: bool) returns (authoritative: bool)
      modifies this
      ensures epoch == Some(Baseline(old(epoch), q, key, enabled, stale))
      ensures authoritative == Judged(epoch.value, q, enabled)
    {
      var snapshot := Snapshot(key, enabled, q.dataUpdatedAt, q.errorUpdatedAt, !stale);
      if epoch.None? {
        epoch := Some(snapshot);
      }
      var epochChanged := epoch.value.key != key || epoch.value.enabled != enabled;
      var baseline := if epochChanged then snapshot else epoch.value;
      if epochChanged {
        epoch := Some(snapshot);
      }
      var superseded := q.invalidated && q.isFetching;
      if !enabled || superseded || !q.hasData { return false; }
      return baseline.freshAtStart || q.dataUpdatedAt != baseline.dataUpdatedAt
             || q.errorUpdatedAt != baseline.errorUpdatedAt;
    }
  }

  // ----- the cache

  /** A settled fetch stamps one of the two times; an error leaves the data and flags it. */
  function Changed(q: Query, e: Event): Query {
    match e
    case Render(_, _, _) => q
    case Settle(_, true, stamp) => Query(true, stamp, q.errorUpdatedAt, false, false)
    case Settle(_, false, stamp) => Query(q.hasData, q.dataUpdatedAt, stamp, true, false)
    case Invalidate(_) => q.(invalidated := true, isFetching := true)
    case StartFetch(_) => q.(isFetching := true)
  }

  function QueryAt(events: seq<Event>, key: string): Query {
    if events == [] then EMPTY
    else
      var before, e := QueryAt(events[..|events| - 1], key), events[|events| - 1];
      if e.key == key then Changed(before, e) else before
  }

  /** The epoch of an observer after a run. */
  function EpochAt(events: seq<Event>): Option<Snapshot> {
    if events == [] then None
    else
      var init, e := events[..|events| - 1], events[|events| - 1];
      if e.Render? then Some(Baseline(EpochAt(init), QueryAt(init, e.key), e.key, e.enabled, e.stale))
      else EpochAt(init)
  }

  /** Whether the next render is authoritative. */
  predicate Granted(events: seq<Event>, key: string, enabled: bool, stale: bool) {
    var q := QueryAt(events, key);
    Judged(Baseline(EpochAt(events), q, key, enabled, stale), q, enabled)
  }

  // ----- what happened, without any stamps

  /** The render that opened the current epoch: where it is in the run, and whether its data were fresh. */
  datatype Opening = Opening(key: string, enabled: bool, wasFresh: bool, at: nat)

  function OpeningAt(events: seq<Event>): Option<Opening> {
    if events == [] then None
    else
      var init, e := events[..|events| - 1], events[|events| - 1];
      var before := OpeningAt(init);
      if !e.Render? || (before.Some? && before.value.key == e.key && before.value.enabled == e.enabled) then before
      else Some(Opening(e.key, e.enabled, !e.stale, |init|))
  }

  /** A fetch of the key settled at or after a position of the run. */
  predicate SettledSince(events: seq<Event>, at: nat, key: string) {
    exists i :: at <= i < |events| && events[i].Settle? && events[i].key == key
  }

  function Stamps(events: seq<Event>, key: string, success: bool): set<int> {
    if events == [] then {0}
    else
      var e := events[|events| - 1];
      Stamps(events[..|events| - 1], key, success)
      + if e.Settle? && e.key == key && e.success == success then {e.stamp} else {}
  }

  /** The hypothesis: every settled fetch moves its time to a value not used before. */
  predicate NewStamps(events: seq<Event>) {
    forall i :: 0 <= i < |events| && events[i].Settle? ==>
      events[i].stamp !in Stamps(events[..i], events[i].key, events[i].success)
  }

  // ----- the link between the two

  predicate Moved(s: Snapshot, q: Query) {
    q.dataUpdatedAt != s.dataUpdatedAt || q.errorUpdatedAt != s.errorUpdatedAt
  }

  /** The snapshot is that of the opening, and its times have moved exactly when a fetch settled. */
  ghost predicate Linked(events: seq<Event>, exact: bool) {
    var epoch, opening := EpochAt(events), OpeningAt(events);
    && epoch.Some? == opening.Some?
    && (epoch.Some? ==>
          var s, o := epoch.value, opening.value;
          var q := QueryAt(events, s.key);
          && s.key == o.key && s.enabled == o.enabled && s.freshAtStart == o.wasFresh && o.at < |events|
          && (Moved(s, q) ==> SettledSince(events, o.at, s.key))
          && (exact ==> (SettledSince(events, o.at, s.key) ==> Moved(s, q))
                        && s.dataUpdatedAt in Stamps(events, s.key, true)
                        && s.errorUpdatedAt in Stamps(events, s.key, false)))
  }

  lemma {:induction false} TimesAreStamps(events: seq<Event>, key: string)
    ensures QueryAt(events, key).dataUpdatedAt in Stamps(events, key, true)
    ensures QueryAt(events, key).errorUpdatedAt in Stamps(events, key, false)
    decreases |events|
  {
    if events != [] { TimesAreStamps(events[..|events| - 1], key); }
  }

  lemma SettledSnoc(init: seq<Event>, e: Event, at: nat, key: string)
    requires at <= |init|
    ensures SettledSince(init + [e], at, key) <==> SettledSince(init, at, key) || (e.Settle? && e.key == key)
  {
    var all := init + [e];
    if SettledSince(init, at, key) {
      var i :| at <= i < |init| && init[i].Settle? && init[i].key == key;
      assert all[i] == init[i];
    }
    if e.Settle? && e.key == key {
      assert all[|init|] == e;
    }
  }

  /** A render keeps the link or opens an epoch with nothing settled yet. */
  lemma LinkedRender(init: seq<Event>, e: Event, exact: bool)
    requires Linked(init, exact) && e.Render?
    ensures Linked(init + [e], exact)
  {
    var all := init + [e];
    assert all[..|init|] == init && all[|init|] == e;
    var o := OpeningAt(all).value;
    if o.at < |init| {
      SettledSnoc(init, e, o.at, o.key);
    } else {
      TimesAreStamps(init, e.key);
      assert !SettledSince(all, o.at, o.key);
    }
  }

  lemma LinkedOther(init: seq<Event>, e: Event, exact: bool)
    requires Linked(init, exact) && !e.Render?
    requires exact && e.Settle? ==> e.stamp !in Stamps(init, e.key, e.success)
    ensures Linked(init + [e], exact)
  {
    var all := init + [e];
    assert all[..|init|] == init && all[|init|] == e;
    if EpochAt(init).Some? {
      var s, o := EpochAt(init).value, OpeningAt(init).value;
      SettledSnoc(init, e, o.at, s.key);
    }
  }

  lemma {:induction false} AlwaysLinked(events: seq<Event>, exact: bool)
    requires exact ==> NewStamps(events)
    ensures Linked(events, exact)
    decreases |events|
  {
    if events != [] {
      var init, e := events[..|events| - 1], events[|events| - 1];
      if exact {
        forall i | 0 <= i < |init| && init[i].Settle?
          ensures init[i].stamp !in Stamps(init[..i], init[i].key, init[i].success)
        {
          assert init[i] == events[i] && init[..i] == events[..i];
        }
      }
      AlwaysLinked(init, exact);
      assert init + [e] == events && events[..|init|] == init;
      if e.Render? { LinkedRender(init, e, exact); } else { LinkedOther(init, e, exact); }
    }
  }

  // ----- the promises

  /** The opening that a render at the end of a run belongs to. */
  function OpeningFor(events: seq<Event>, key: string, enabled: bool, stale: bool): Opening {
    OpeningAt(events + [Render(key, enabled, stale)]).value
  }

  predicate SettlesKey(e: Event, key: string) {
    e.Settle? && e.key == key
  }

  /** Some fetch of the key has succeeded. */
  predicate Fetched(events: seq<Event>, key: string) {
    exists i :: 0 <= i < |events| && SettlesKey(events[i], key) && events[i].success
  }

  /** The key was invalidated, and no fetch of it has settled since. */
  predicate Awaiting(events: seq<Event>, key: string) {
    exists j :: 0 <= j < |events| && events[j] == Invalidate(key) && !SettledSince(events, j, key)
  }

  /** The last fetch of the key to settle has failed. */
  predicate LastFailed(events: seq<Event>, key: string) {
    exists i :: 0 <= i < |events| && SettlesKey(events[i], key) && !events[i].success
                && !SettledSince(events, i + 1, key)
  }

  /** A fetch of the key was started, by itself or by an invalidation, and none has settled since. */
  predicate UnderWay(events: seq<Event>, key: string) {
    exists j :: 0 <= j < |events| && (events[j] == Invalidate(key) || events[j] == StartFetch(key))
                && !SettledSince(events, j, key)
  }

  lemma FetchedSnoc(init: seq<Event>, e: Event, key: string)
    ensures Fetched(init + [e], key) <==> Fetched(init, key) || (SettlesKey(e, key) && e.success)
  {
    var all := init + [e];
    assert all[|init|] == e;
    if i :| 0 <= i < |init| && SettlesKey(init[i], key) && init[i].success { assert all[i] == init[i]; }
  }

  lemma AwaitingSnoc(init: seq<Event>, e: Event, key: string)
    ensures Awaiting(init + [e], key) <==> e == Invalidate(key) || (Awaiting(init, key) && !SettlesKey(e, key))
  {
    var all := init + [e];
    assert all[|init|] == e && !SettledSince(init, |init|, key);
    SettledSnoc(init, e, |init|, key);
    if j :| 0 <= j < |init| && init[j] == Invalidate(key) && !SettledSince(init, j, key) {
      SettledSnoc(init, e, j, key);
      assert all[j] == init[j];
    }
    if j :| 0 <= j < |init| && all[j] == Invalidate(key) && !SettledSince(all, j, key) {
      SettledSnoc(init, e, j, key);
      assert all[j] == init[j];
    }
  }

  lemma LastFailedSnoc(init: seq<Event>, e: Event, key: string)
    ensures LastFailed(init + [e], key)
       <==> if SettlesKey(e, key) then !e.success else LastFailed(init, key)
  {
    var all := init + [e];
    assert all[|init|] == e && !SettledSince(all, |all|, key);
    if i :| 0 <= i < |init| && SettlesKey(init[i], key) && !init[i].success && !SettledSince(init, i + 1, key) {
      SettledSnoc(init, e, i + 1, key);
      assert all[i] == init[i];
    }
    if i :| 0 <= i < |init| && SettlesKey(all[i], key) && !all[i].success && !SettledSince(all, i + 1, key) {
      SettledSnoc(init, e, i + 1, key);
      assert all[i] == init[i];
    }
  }

  lemma UnderWaySnoc(init: seq<Event>, e: Event, key: string)
    ensures UnderWay(init + [e], key)
       <==> e == Invalidate(key) || e == StartFetch(key) || (UnderWay(init, key) && !SettlesKey(e, key))
  {
    var all := init + [e];
    assert all[|init|] == e && !SettledSince(init, |init|, key);
    SettledSnoc(init, e, |init|, key);
    if j :| 0 <= j < |init| && (init[j] == Invalidate(key) || init[j] == StartFetch(key))
            && !SettledSince(init, j, key) {
      SettledSnoc(init, e, j, key);
      assert all[j] == init[j];
    }
    if j :| 0 <= j < |init| && (all[j] == Invalidate(key) || all[j] == StartFetch(key)) && !SettledSince(all, j, key) {
      SettledSnoc(init, e, j, key);
      assert all[j] == init[j];
    }
  }

  /** What the cache says of a key, told from what happened. */
  lemma {:induction false} CacheTells(events: seq<Event>, key: string)
    ensures var q := QueryAt(events, key);
            && (q.hasData <==> Fetched(events, key))
            && (q.invalidated <==> Awaiting(events, key) || LastFailed(events, key))
            && (q.isFetching <==> UnderWay(events, key))
    decreases |events|
  {
    if events != [] {
      var init, e := events[..|events| - 1], events[|events| - 1];
      assert events == init + [e];
      CacheTells(init, key);
      FetchedSnoc(init, e, key);
      AwaitingSnoc(init, e, key);
      LastFailedSnoc(init, e, key);
      UnderWaySnoc(init, e, key);
    }
  }

  /** Waiting for what replaces the data: an invalidation's fetch, or another fetch after a failed one. */
  predicate AwaitsReplacement(events: seq<Event>, key: string) {
    Awaiting(events, key) || (LastFailed(events, key) && UnderWay(events, key))
  }

  lemma SupersededMeans(events: seq<Event>, key: string)
    ensures Superseded(QueryAt(events, key)) <==> AwaitsReplacement(events, key)
  {
    CacheTells(events, key);
    if Awaiting(events, key) {
      var j :| 0 <= j < |events| && events[j] == Invalidate(key) && !SettledSince(events, j, key);
      assert UnderWay(events, key);
    }
  }

  /** The data were fresh when the epoch opened, or a fetch has settled in it. */
  predicate SeenInEpoch(events: seq<Event>, key: string, enabled: bool, stale: bool) {
    var o := OpeningFor(events, key, enabled, stale);
    o.wasFresh || SettledSince(events, o.at, key)
  }

  /**
   Authority, in any run: the observer is enabled, some fetch of the key has succeeded, no
   replacement of its data is under way, and the data were fresh when the epoch opened or a
   fetch has settled since then.
   */
  lemma AuthorityMeans(events: seq<Event>, key: string, enabled: bool, stale: bool)
    requires Granted(events, key, enabled, stale)
    ensures enabled && Fetched(events, key) && !AwaitsReplacement(events, key)
    ensures SeenInEpoch(events, key, enabled, stale)
  {
    GrantedInTermsOfOpening(events, key, enabled, stale, false);
    CacheTells(events, key);
    SupersededMeans(events, key);
  }

  /** When stamps are never reused, nothing else withholds it. */
  lemma AuthorityExactly(events: seq<Event>, key: string, enabled: bool, stale: bool)
    requires NewStamps(events)
    ensures Granted(events, key, enabled, stale)
       <==> enabled && Fetched(events, key) && !AwaitsReplacement(events, key)
            && SeenInEpoch(events, key, enabled, stale)
  {
    GrantedInTermsOfOpening(events, key, enabled, stale, true);
    CacheTells(events, key);
    SupersededMeans(events, key);
  }

  lemma GrantedInTermsOfOpening(events: seq<Event>, key: string, enabled: bool, stale: bool, exact: bool)
    requires exact ==> NewStamps(events)
    ensures var q, o := QueryAt(events, key), OpeningFor(events, key, enabled, stale);
            var trusted := enabled && q.hasData && !Superseded(q) && (o.wasFresh || SettledSince(events, o.at, key));
            && (Granted(events, key, enabled, stale) ==> trusted)
            && (exact && trusted ==> Granted(events, key, enabled, stale))
  {
    var e := Render(key, enabled, stale);
    var all := events + [e];
    AlwaysLinked(events, exact);
    LinkedRender(events, e, exact);
    assert all[..|events|] == events && all[|events|] == e;
    var o := OpeningAt(all).value;
    SettledSnoc(events, e, o.at, key);
    assert QueryAt(all, key) == QueryAt(events, key);
  }

  /** A reused stamp only ever withholds: the same time twice looks like no fetch at all. */
  lemma ReusedStampWithholds(key: string)
    ensures var events := [Settle(key, true, 1), Render(key, true, true), Settle(key, true, 1)];
            SettledSince(events, 1, key) && !Granted(events, key, true, true)
  {
    var one, two := [Settle(key, true, 1)], [Settle(key, true, 1), Render(key, true, true)];
    var all := two + [Settle(key, true, 1)];
    assert all == [Settle(key, true, 1), Render(key, true, true), Settle(key, true, 1)];
    assert one[..0] == [] && two[..1] == one && all[..2] == two;
    assert all[2].Settle?;
    assert QueryAt([], key) == EMPTY && EpochAt([]) == None;
    assert QueryAt(one, key).dataUpdatedAt == 1 && EpochAt(one) == None;
    assert EpochAt(two) == Some(Snapshot(key, true, 1, 0, false));
    assert EpochAt(all) == EpochAt(two);
    assert QueryAt(two, key) == QueryAt(one, key) && QueryAt(one, key).errorUpdatedAt == 0;
    assert QueryAt(all, key) == Changed(QueryAt(two, key), Settle(key, true, 1));
  }

  /** Stale data in a render that opens an epoch is never trusted in that render. */
  lemma OpeningWithholdsStale(events: seq<Event>, key: string, enabled: bool)
    requires EpochAt(events).Some? ==> !SameEpoch(EpochAt(events).value, key, enabled)
    ensures !Granted(events, key, enabled, true)
  {
  }

  /** Every render of a stretch is for one key and one enabled flag. */
  predicate OneEpoch(events: seq<Event>, key: string, enabled: bool) {
    forall e | e in events && e.Render? :: e.key == key && e.enabled == enabled
  }

  lemma {:induction false} EpochStays(before: seq<Event>, stretch: seq<Event>, key: string, enabled: bool)
    requires OpeningAt(before).Some? && OneEpoch(stretch, key, enabled)
    requires OpeningAt(before).value.key == key && OpeningAt(before).value.enabled == enabled
    ensures OpeningAt(before + stretch) == OpeningAt(before)
    decreases |stretch|
  {
    if stretch == [] {
      assert before + stretch == before;
    } else {
      var init, e := stretch[..|stretch| - 1], stretch[|stretch| - 1];
      assert stretch == init + [e];
      EpochStays(before, init, key, enabled);
      OpeningSnoc(before + init, e);
      assert before + stretch == (before + init) + [e];
    }
  }

  lemma OpeningSnoc(init: seq<Event>, e: Event)
    ensures var before := OpeningAt(init);
            OpeningAt(init + [e])
            == if !e.Render? || (before.Some? && before.value.key == e.key && before.value.enabled == e.enabled)
               then before else Some(Opening(e.key, e.enabled, !e.stale, |init|))
  {
    assert (init + [e])[..|init|] == init;
  }

  lemma {:induction false} DataStay(before: seq<Event>, stretch: seq<Event>, key: string)
    requires QueryAt(before, key).hasData
    ensures QueryAt(before + stretch, key).hasData
    decreases |stretch|
  {
    if stretch == [] {
      assert before + stretch == before;
    } else {
      var init, e := stretch[..|stretch| - 1], stretch[|stretch| - 1];
      DataStay(before, init, key);
      assert (before + stretch)[..|before + stretch| - 1] == before + init;
    }
  }

  /** Within one epoch a grant is withdrawn by supersession only. */
  lemma GrantLasts(events: seq<Event>, key: string, enabled: bool, stale: bool, stretch: seq<Event>, later: bool)
    requires var first := events + [Render(key, enabled, stale)];
             && NewStamps(first + stretch) && OneEpoch(stretch, key, enabled)
             && Granted(events, key, enabled, stale)
    ensures var all := events + [Render(key, enabled, stale)] + stretch;
            Granted(all, key, enabled, later) || AwaitsReplacement(all, key)
  {
    var e := Render(key, enabled, stale);
    var first := events + [e];
    var all := first + stretch;
    GrantedInTermsOfOpening(events, key, enabled, stale, false);
    AuthorityExactly(all, key, enabled, later);
    CacheTells(all, key);
    OpeningSnoc(events, e);
    EpochStays(first, stretch, key, enabled);
    OpeningSnoc(all, Render(key, enabled, later));
    assert first[..|events|] == events && QueryAt(first, key) == QueryAt(events, key);
    DataStay(first, stretch, key);
    var o := OpeningFor(events, key, enabled, stale);
    if SettledSince(events, o.at, key) {
      var i :| o.at <= i < |events| && events[i].Settle? && events[i].key == key;
      assert all[i] == events[i];
    }
  }
}
