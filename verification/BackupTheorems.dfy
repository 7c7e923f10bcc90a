/** The promises of the backup hook over every run. */
module BackupTheorems {
  import opened Wrappers
  import opened BackupDisk
  import opened BackupHook
  import opened BackupEffects
  import opened BackupProtocol
  import opened BackupSafety

  lemma {:induction false} RunKeepsSound(w: World, es: seq<Event>)
    requires Sound(w) && RunBut(None, w, es)
    ensures Sound(Exec(w, es))
    decreases |es|
  {
    if es != [] {
      var init := es[..|es| - 1];
      RunKeepsSound(w, init);
      EventKeepsSound(Exec(w, init), es[|es| - 1]);
    }
  }

  /**
   Over every lawful run of starts, kills, half-applied revisions, intermediate stamps,
   image changes, archiving and rollbacks, from an empty backups directory: every
   published unit is clean, there is one per revision, and an upgrade in flight is
   shielded by a marker that names a published unit.
   */
  lemma OnlyCleanUnitsArePublished(w: World, es: seq<Event>)
    requires Initial(w) && RunBut(None, w, es)
    ensures var end := Exec(w, es);
            && (forall n | n in end.disk.units :: CleanUnit(end.revs, n, end.disk.units[n]))
            && (forall m, n | m in end.disk.units && n in end.disk.units && m.rev == n.rev :: m == n)
            && WellFormed(end) && (InFlight(end) ==> Shielded(end))
  {
    assert Sound(w);
    RunKeepsSound(w, es);
  }

  // ----- the upgrade's own unit

  /** A start that an upgrade begins from leaves the marker on the unit of its own revision. */
  predicate LeavesOwnUnit(w: World, e: Event) {
    WellFormed(w) && Begins(w, e) ==>
      var v := Started(w, e.start);
      v.disk.marker.Some? && v.disk.marker.value.backup.rev == LabelAt(w.revs, w.rest)
  }

  predicate AlwaysLeavesOwnUnit(w: World, es: seq<Event>) {
    es == [] ||
    (AlwaysLeavesOwnUnit(w, es[..|es| - 1]) && LeavesOwnUnit(Exec(w, es[..|es| - 1]), es[|es| - 1]))
  }

  /** The marker over an upgrade names the unit of the revision the upgrade starts from. */
  ghost predicate GuardIsOwn(w: World)
    requires WellFormed(w)
  {
    InFlight(w) || (w.migrating && w.rest < w.image) ==>
      w.disk.marker.Some? && w.disk.marker.value.backup.rev == LabelAt(w.revs, w.rest)
  }

  lemma EventKeepsOwn(w: World, e: Event)
    requires Sound(w) && GuardIsOwn(w) && Possible(w, e) && Lawful(w, e) && LeavesOwnUnit(w, e)
    ensures Sound(Next(w, e)) && GuardIsOwn(Next(w, e))
  {
    EventKeepsSound(w, e);
    if (e.Boot? || e.Kill?) && InFlight(w) {
      Untouched(w.disk);
      ShieldedIsSilent(w, e.start);
      if e.Kill? { assert PlanAt(w, e.start).effects[..e.effects] == []; }
    }
  }

  lemma {:induction false} RunKeepsOwn(w: World, es: seq<Event>)
    requires Sound(w) && GuardIsOwn(w) && RunBut(None, w, es) && AlwaysLeavesOwnUnit(w, es)
    ensures Sound(Exec(w, es)) && GuardIsOwn(Exec(w, es))
    decreases |es|
  {
    if es != [] {
      var init := es[..|es| - 1];
      RunKeepsOwn(w, init);
      EventKeepsOwn(Exec(w, init), es[|es| - 1]);
    }
  }

  /**
   When no upgrade begins under another upgrade's marker, the unit that guards an upgrade in
   flight is the clean snapshot of the very state the upgrade started from.
   */
  lemma OwnUnitGuards(w: World, es: seq<Event>)
    requires Initial(w) && RunBut(None, w, es) && AlwaysLeavesOwnUnit(w, es)
    ensures var end := Exec(w, es);
            InFlight(end) ==>
              && end.disk.marker.Some? && end.disk.marker.value.backup in end.disk.units
              && end.disk.units[end.disk.marker.value.backup].db == Some(Database(end.rest, false))
  {
    assert Sound(w);
    RunKeepsOwn(w, es);
    var end := Exec(w, es);
    if InFlight(end) {
      var n := end.disk.marker.value.backup;
      LabelsDiffer(end.revs, end.disk.units[n].db.value.applied, end.rest);
    }
  }

  /** Any other lawful beginning is followed by an upgrade that some other state's unit guards. */
  lemma OthersUnitGuards(w: World, s: Start)
    requires Sound(w) && Possible(w, Boot(s)) && Lawful(w, Boot(s)) && Begins(w, Boot(s))
    requires !LeavesOwnUnit(w, Boot(s))
    ensures var v := Next(w, Boot(s));
            && Possible(v, ApplyPart) && InFlight(Next(v, ApplyPart))
            && v.disk.units[v.disk.marker.value.backup].db != Some(Database(w.rest, false))
  {
    BootKeepsSound(w, s);
  }

  // ----- retries and progress

  /** An event of an upgrade that keeps being retried, by starts that can read the marker. */
  predicate Retry(e: Event) {
    || ((e.Boot? || e.Kill?) && !e.start.faults.readMarker)
    || e.ApplyPart? || e.StampNext? || e.Halt?
  }

  /** A start short of the head changes nothing once the upgrade is shielded, raise or not. */
  lemma ShieldedRetryIsSilent(w: World, e: Event)
    requires Sound(w) && Shielded(w) && w.rest < w.image && Possible(w, e) && Retry(e) && (e.Boot? || e.Kill?)
    ensures Next(w, e).disk == w.disk
  {
    ShieldedIsSilent(w, e.start);
    Untouched(w.disk);
    if e.Kill? { assert PlanAt(w, e.start).effects[..e.effects] == []; }
  }

  /**
   Once an upgrade is shielded, any number of same-image restarts, kills and half-done
   revisions short of the head leave the disk as it is.
   */
  lemma {:induction false} RetriesChangeNothing(w: World, es: seq<Event>)
    requires Sound(w) && Shielded(w) && w.rest < w.image && RunBut(None, w, es)
    requires forall i :: 0 <= i < |es| ==> Retry(es[i])
    requires forall k :: 0 <= k <= |es| ==> Exec(w, es[..k]).rest == w.rest
    ensures Exec(w, es).disk == w.disk && Exec(w, es).image == w.image && Exec(w, es).revs == w.revs
    decreases |es|
  {
    if es != [] {
      var init, last := es[..|es| - 1], es[|es| - 1];
      forall k | 0 <= k <= |init| ensures Exec(w, init[..k]).rest == w.rest {
        assert init[..k] == es[..k];
      }
      RetriesChangeNothing(w, init);
      RunKeepsSound(w, init);
      var before := Exec(w, init);
      assert es[..|es| - 1] == init && es[..|es|] == es;
      assert Exec(w, es[..|init|]).rest == w.rest;
      if last.Boot? || last.Kill? { ShieldedRetryIsSilent(before, last); }
    }
  }

  /** No step of a start raises. */
  predicate Faultless(s: Start) {
    s.faults == Faults(false, false, false, false, false, false, false, false, false, false)
  }

  /**
   A faultless start that has an upgrade to guard publishes a unit of the current
   database exactly when none is published for its revision and no marker stands that
   names another unit and another head.
   */
  lemma PendingStartPublishes(w: World, s: Start)
    requires WellFormed(w) && ValidHistory(w.revs) && w.db.Some? && Faultless(s) && s.settings.onDiskSqlite
    requires s.headKnown && w.db.value.applied < w.image
    ensures var n := Name(LabelAt(w.revs, w.db.value.applied), s.timestamp);
            var plan := PlanAt(w, s);
            var stands := w.disk.marker.Some? && w.disk.marker.value.backup in w.disk.units
                          && Some(w.disk.marker.value.head) != Stamp(w.revs, w.db.value.applied);
            if CurrentPublished(w) || stands then plan == Plan([], NoBackup)
            else
              var after := ApplyAll(w.disk, plan.effects);
              plan.outcome == Backup(n) && n in after.units && after.units[n].db == w.db
              && after.marker == Some(Marker(n.rev, LabelAt(w.revs, w.image), n))
  {
    var env := EnvOf(w, s);
    LabelsDiffer(w.revs, w.db.value.applied, w.image);
    assert env.FromLabel() == LabelAt(w.revs, w.db.value.applied);
    if !CurrentPublished(w) {
      TakeResult(env, w.disk);
      TakeResult(env, ApplyAll(w.disk, Clearing(env)));
      ApplyAllAppend(w.disk, Clearing(env), TakeBackup(env, ApplyAll(w.disk, Clearing(env))).effects);
    }
  }

  /** A completed upgrade is at rest at the head, with the disk as it was. */
  lemma CompletedUpgradeIsAtRest(w: World)
    requires Sound(w) && w.migrating && w.rest < w.image && w.db.value.applied + 1 == w.image
    ensures Possible(w, StampNext) && Possible(Next(w, StampNext), Halt)
    ensures Next(Next(w, StampNext), Halt)
         == w.(db := Some(Database(w.image, false)), rest := w.image, migrating := false)
  {
  }

  /**
   After an upgrade with a known head completes, the first start of a newer image publishes
   a clean unit of the completed state if none is there for its revision; if one is there,
   that start takes no backup and is not shielded.
   */
  lemma CompletedUpgradeIsBackedUp(w: World, image: nat, s: Start)
    requires Sound(w) && w.migrating && w.rest < w.image && w.db.value.applied + 1 == w.image
    requires w.disk.marker.value.head == LabelAt(w.revs, w.image)
    requires w.image < image <= |w.revs| && Faultless(s) && s.settings.onDiskSqlite && s.headKnown
    ensures var next := Next(Next(Next(w, StampNext), Halt), Install(image));
            var n := Name(LabelAt(w.revs, w.image), s.timestamp);
            && Lawful(Next(Next(w, StampNext), Halt), Install(image)) && Possible(next, Boot(s))
            && if LabelPublished(LabelAt(w.revs, w.image), w.disk.units) then
                 PlanAt(next, s).outcome == NoBackup && Begins(next, Boot(s)) && !BeginsShielded(next, Boot(s))
               else
                 && Lawful(next, Boot(s)) && n in Next(next, Boot(s)).disk.units
                 && Next(next, Boot(s)).disk.units[n].db == Some(Database(w.image, false))
  {
    CompletedUpgradeIsAtRest(w);
    var next := Next(Next(Next(w, StampNext), Halt), Install(image));
    LabelsDiffer(w.revs, w.image, w.image);
    PendingStartPublishes(next, s);
    ReachedHeadShieldsNothing(next);
    if LabelPublished(LabelAt(w.revs, w.image), w.disk.units) {
      SkippedBackup(next, s);
    } else {
      BackupShields(next, s);
    }
  }

  lemma ReachedHeadShieldsNothing(w: World)
    requires WellFormed(w) && w.disk.marker.Some? && w.rest < w.image
    requires Some(w.disk.marker.value.head) == Stamp(w.revs, w.rest)
    ensures !Shielded(w)
  {
  }

  // ----- the documented rollback

  /**
   Putting a unit's database back, re-pointing the image, starting, and only then moving the
   unit out, as the manifest says, is lawful from any sound world; it leaves the next upgrade
   without unit or marker, so that its start takes a fresh backup.
   */
  lemma DocumentedRollback(w: World, n: Name, s: Start) returns (run: seq<Event>)
    requires Sound(w) && !w.migrating && n in w.disk.units
    requires Faultless(s) && s.settings.onDiskSqlite && s.headKnown
    ensures var k := w.disk.units[n].db.value.applied;
            && run == [Restore(k, {}), Install(k), Boot(s), Halt, Archive(n)] && RunBut(None, w, run)
            && Exec(w, run) == w.(image := k, db := Some(Database(k, false)), rest := k,
                                  disk := Disk(w.disk.units - {n}, w.disk.staging, None))
            && !CurrentPublished(Exec(w, run))
  {
    var k := w.disk.units[n].db.value.applied;
    var v := w.(db := Some(Database(k, false)), rest := k);
    assert w.disk.units - {} == w.disk.units;
    run := StartAndMoveOut(v.(image := k), n, s);
    run := PutBack(w, k, run);
    RunKeepsSound(w, run);
    CleanNames(w.revs, Exec(w, run).disk, k);
    assert run == [Restore(k, {}), Install(k), Boot(s), Halt, Archive(n)];
  }

  lemma PutBack(w: World, k: nat, tail: seq<Event>) returns (run: seq<Event>)
    requires WellFormed(w) && w.db.Some? && !w.migrating && k <= |w.revs|
    requires RunBut(None, w.(db := Some(Database(k, false)), rest := k, image := k), tail)
    ensures run == [Restore(k, {}), Install(k)] + tail && RunBut(None, w, run)
    ensures Exec(w, run) == Exec(w.(db := Some(Database(k, false)), rest := k, image := k), tail)
  {
    RestoreAlone(w, k);
    run := PointImage(w.(db := Some(Database(k, false)), rest := k), tail);
    run := Prepend(None, w, Restore(k, {}), run);
  }

  /** At rest, re-pointing to the image of the database's revision. */
  lemma PointImage(v: World, tail: seq<Event>) returns (run: seq<Event>)
    requires WellFormed(v) && v.db == Some(Database(v.rest, false)) && !v.migrating
    requires RunBut(None, v.(image := v.rest), tail)
    ensures run == [Install(v.rest)] + tail && RunBut(None, v, run)
    ensures Exec(v, run) == Exec(v.(image := v.rest), tail)
  {
    InstallAlone(v);
    run := Prepend(None, v, Install(v.rest), tail);
  }

  lemma InstallAlone(v: World)
    requires WellFormed(v) && v.db == Some(Database(v.rest, false)) && !v.migrating
    ensures Possible(v, Install(v.rest)) && Lawful(v, Install(v.rest))
    ensures Next(v, Install(v.rest)) == v.(image := v.rest)
  {
  }

  lemma RestoreAlone(w: World, k: nat)
    requires WellFormed(w) && w.db.Some? && !w.migrating && k <= |w.revs|
    ensures Possible(w, Restore(k, {})) && Lawful(w, Restore(k, {}))
    ensures Next(w, Restore(k, {})) == w.(db := Some(Database(k, false)), rest := k)
  {
    assert w.disk.units - {} == w.disk.units;
  }

  lemma StartAndMoveOut(v: World, n: Name, s: Start) returns (run: seq<Event>)
    requires WellFormed(v) && !v.migrating && v.db == Some(Database(v.image, false)) && v.rest == v.image
    requires Faultless(s) && s.settings.onDiskSqlite && s.headKnown
    ensures run == [Boot(s), Halt, Archive(n)] && RunBut(None, v, run)
    ensures Exec(v, run) == v.(disk := Disk(v.disk.units - {n}, v.disk.staging, None))
  {
    var cleared := v.(disk := v.disk.(marker := None));
    StartAtHeadClears(v, s);
    run := MoveUnitOut(cleared, n);
    run := Prepend(None, cleared.(migrating := true), Halt, run);
    run := Prepend(None, v, Boot(s), run);
  }

  lemma MoveUnitOut(v: World, n: Name) returns (run: seq<Event>)
    requires WellFormed(v) && !v.migrating && v.db.Some? && !InFlight(v)
    ensures run == [Archive(n)] && RunBut(None, v, run)
    ensures Exec(v, run) == v.(disk := v.disk.(units := v.disk.units - {n}))
  {
    run := Prepend(None, v, Archive(n), []);
  }

  /** A faultless start at its head clears the marker and nothing else. */
  lemma StartAtHeadClears(w: World, s: Start)
    requires WellFormed(w) && w.db.Some? && w.db.value.applied == w.image
    requires Faultless(s) && s.settings.onDiskSqlite && s.headKnown
    ensures PlanAt(w, s) == Plan([ClearMarker], NoBackup)
    ensures ApplyAll(w.disk, PlanAt(w, s).effects) == w.disk.(marker := None)
  {
    ApplyOne(w.disk, ClearMarker);
  }
}
