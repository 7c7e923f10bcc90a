/**
 Each hypothesis is needed: without it, and obeying all the others, some run publishes a
 snapshot of a half-migrated database.
 */
module BackupWitnesses {
  import opened Wrappers
  import opened BackupDisk
  import opened BackupHook
  import opened BackupProtocol
  import opened BackupEffects
  import opened BackupSafety
  import opened BackupTheorems

  const NO_FAULTS := Faults(false, false, false, false, false, false, false, false, false, false)

  /** An ordinary start: known head, no key, nothing fails. */
  const PLAIN := Start(Settings(true, None, None), true, "20260101T000000Z", 0, Scan([], [], {}, {}), NO_FAULTS)

  ghost predicate DirtyPublished(w: World) {
    exists n | n in w.disk.units :: w.disk.units[n].db.Some? && w.disk.units[n].db.value.dirty
  }

  /** The marker does not stop a start at `applied` revisions. */
  predicate MarkerGivesWay(w: World, applied: nat)
    requires applied <= |w.revs|
  {
    w.disk.marker.Some? && w.disk.marker.value.backup in w.disk.units ==>
      Some(w.disk.marker.value.head) == Stamp(w.revs, applied)
  }

  /** Migration steps and stops obey every hypothesis. */
  lemma Inside(but: Option<Hypothesis>, v: World, e: Event, tail: seq<Event>) returns (run: seq<Event>)
    requires WellFormed(v) && v.db.Some? && (e.StampNext? || e.ApplyPart? || e.Halt?) && Possible(v, e)
    requires RunBut(but, Next(v, e), tail)
    ensures RunBut(but, v, run) && Exec(v, run) == Exec(Next(v, e), tail)
  {
    assert LawfulBut(but, v, e);
    run := Prepend(but, v, e, tail);
  }

  /** One revision is stamped, short of the head. */
  lemma Stamps(but: Option<Hypothesis>, v: World, tail: seq<Event>) returns (run: seq<Event>)
    requires WellFormed(v) && v.db.Some? && v.migrating && v.db.value.applied + 1 < v.image
    requires RunBut(but, v.(db := Some(Database(v.db.value.applied + 1, false))), tail)
    ensures RunBut(but, v, run)
    ensures Exec(v, run) == Exec(v.(db := Some(Database(v.db.value.applied + 1, false))), tail)
  {
    run := Inside(but, v, StampNext, tail);
  }

  /** The start that breaks the promise: half migrated, unguarded, and a backup is taken. */
  lemma DirtyStart(but: Option<Hypothesis>, v: World) returns (run: seq<Event>)
    requires WellFormed(v) && ValidHistory(v.revs) && v.db.Some? && v.db.value.dirty && !v.migrating
    requires v.db.value.applied < v.image && !CurrentPublished(v) && MarkerGivesWay(v, v.db.value.applied)
    ensures RunBut(but, v, run) && DirtyPublished(Exec(v, run))
  {
    PendingStartPublishes(v, PLAIN);
    run := Prepend(but, v, Boot(PLAIN), []);
    assert Name(LabelAt(v.revs, v.db.value.applied), PLAIN.timestamp) in Exec(v, run).disk.units;
  }

  /** The next revision is half applied when the container stops. */
  lemma DiesHalfWay(but: Option<Hypothesis>, v: World, tail: seq<Event>) returns (run: seq<Event>)
    requires WellFormed(v) && v.db.Some? && !v.db.value.dirty && v.migrating && v.db.value.applied < v.image
    requires RunBut(but, v.(db := Some(Database(v.db.value.applied, true)), migrating := false), tail)
    ensures RunBut(but, v, run)
    ensures Exec(v, run) == Exec(v.(db := Some(Database(v.db.value.applied, true)), migrating := false), tail)
  {
    run := Inside(but, Next(v, ApplyPart), Halt, tail);
    run := Inside(but, v, ApplyPart, run);
  }

  /** A migration that stamps one revision, dies inside the next and is restarted. */
  lemma HalfMigrated(but: Option<Hypothesis>, v: World) returns (run: seq<Event>)
    requires WellFormed(v) && ValidHistory(v.revs) && v.db.Some? && !v.db.value.dirty && v.migrating
    requires v.db.value.applied + 1 < v.image
    requires !LabelPublished(LabelAt(v.revs, v.db.value.applied + 1), v.disk.units)
    requires MarkerGivesWay(v, v.db.value.applied + 1)
    ensures RunBut(but, v, run) && DirtyPublished(Exec(v, run))
  {
    var next := v.(db := Some(Database(v.db.value.applied + 1, false)));
    run := DirtyStart(but, next.(db := Some(Database(v.db.value.applied + 1, true)), migrating := false));
    run := DiesHalfWay(but, next, run);
    run := Stamps(but, v, run);
  }

  /** The first backup of a run: one unit, for the revision the run starts at. */
  lemma FirstBackup(w: World, s: Start)
    requires Initial(w) && s.settings == PLAIN.settings && !s.faults.readRevision
    requires !s.faults.makeStaging && !s.faults.snapshot && !s.faults.writeManifest && !s.faults.replace
    requires s.headKnown ==> w.rest < w.image
    ensures var n := Name(LabelAt(w.revs, w.rest), s.timestamp);
            var plan := PlanAt(w, s);
            var after := ApplyAll(w.disk, plan.effects);
            && plan.outcome == Backup(n) && after.units.Keys == {n}
            && after.units[n].db == Some(Database(w.rest, false))
            && after.marker == (if s.faults.writeMarker then None else
                 Some(Marker(n.rev, if s.headKnown then LabelAt(w.revs, w.image) else UNKNOWN_HEAD, n)))
  {
    var env := EnvOf(w, s);
    LabelsDiffer(w.revs, w.rest, w.image);
    assert env.FromLabel() == LabelAt(w.revs, w.rest);
    TakeResult(env, w.disk);
  }

  /** The first backup shields the upgrade. */
  lemma StartShields(w: World, s: Start)
    requires Initial(w) && s == PLAIN && w.rest < w.image
    ensures Shielded(Started(w, s)) && LawfulBut(None, w, Boot(s))
  {
    FirstBackup(w, s);
    BackupShields(w, s);
  }

  lemma OnlyLabel(revs: seq<string>, i: nat, j: nat, n: Name, units: map<Name, Dir>)
    requires ValidHistory(revs) && i <= |revs| && j <= |revs| && units.Keys == {n} && n.rev == LabelAt(revs, i)
    ensures LabelPublished(LabelAt(revs, j), units) <==> i == j
  {
    LabelsDiffer(revs, i, j);
    LabelsDiffer(revs, j, j);
    GlobHitsOwnLabel(LabelAt(revs, j), n);
    assert n in units;
  }

  /** (a) A start in flight could not read the marker. */
  lemma WithoutMarkerRead(w: World) returns (run: seq<Event>)
    requires Initial(w) && w.rest + 2 <= w.image
    ensures RunBut(Some(MarkerRead), w, run) && DirtyPublished(Exec(w, run))
  {
    var v := Next(w, Boot(PLAIN));
    FirstBackup(w, PLAIN);
    StartShields(w, PLAIN);
    run := BlindRestart(v, Name(LabelAt(w.revs, w.rest), PLAIN.timestamp));
    run := Prepend(Some(MarkerRead), w, Boot(PLAIN), run);
  }

  /** Half applied at a revision without a unit, and started blind. */
  lemma BlindRestart(v: World, n: Name) returns (run: seq<Event>)
    requires WellFormed(v) && ValidHistory(v.revs) && v.db == Some(Database(v.rest, false)) && v.migrating
    requires v.rest + 2 <= v.image && v.disk.units.Keys == {n} && n.rev == LabelAt(v.revs, v.rest)
    ensures RunBut(Some(MarkerRead), v, run) && DirtyPublished(Exec(v, run))
  {
    var but := Some(MarkerRead);
    var next := v.(db := Some(Database(v.rest + 1, false)));
    var half := next.(db := Some(Database(v.rest + 1, true)), migrating := false);
    OnlyLabel(v.revs, v.rest, v.rest + 1, n, v.disk.units);
    run := BlindStart(half);
    run := DiesHalfWay(but, next, run);
    run := Stamps(but, v, run);
  }

  lemma BlindStart(v: World) returns (run: seq<Event>)
    requires WellFormed(v) && ValidHistory(v.revs) && v.db.Some? && v.db.value.dirty && !v.migrating
    requires v.db.value.applied < v.image && !CurrentPublished(v)
    ensures RunBut(Some(MarkerRead), v, run) && DirtyPublished(Exec(v, run))
  {
    var s := PLAIN.(faults := NO_FAULTS.(readMarker := true));
    var env := EnvOf(v, s);
    LabelsDiffer(v.revs, v.db.value.applied, v.image);
    TakeResult(env, v.disk);
    run := Prepend(Some(MarkerRead), v, Boot(s), []);
    assert env.UnitName() in Exec(v, run).disk.units;
  }

  /** (b) A newer image was installed in flight, and the marker's head became an intermediate stamp. */
  lemma WithoutSteadyImage(w: World) returns (run: seq<Event>)
    requires Initial(w) && w.image == w.rest + 2 && w.rest + 3 <= |w.revs|
    ensures RunBut(Some(SteadyImage), w, run) && DirtyPublished(Exec(w, run))
  {
    var but := Some(SteadyImage);
    var n := Name(LabelAt(w.revs, w.rest), PLAIN.timestamp);
    var v := Next(w, Boot(PLAIN));
    FirstBackup(w, PLAIN);
    StartShields(w, PLAIN);
    run := ChangedInFlight(v, n);
    run := Prepend(but, w, Boot(PLAIN), run);
  }

  /** One stamp of two, a stop, and an image with one revision more. */
  lemma ChangedInFlight(v: World, n: Name) returns (run: seq<Event>)
    requires WellFormed(v) && ValidHistory(v.revs) && v.image == v.rest + 2 && v.rest + 3 <= |v.revs| && v.migrating
    requires v.db == Some(Database(v.rest, false)) && v.disk.units.Keys == {n} && n.rev == LabelAt(v.revs, v.rest)
    requires v.disk.marker == Some(Marker(n.rev, LabelAt(v.revs, v.rest + 2), n))
    ensures RunBut(Some(SteadyImage), v, run) && DirtyPublished(Exec(v, run))
  {
    var but := Some(SteadyImage);
    var v2 := v.(db := Some(Database(v.rest + 1, false)));
    var v3 := v2.(migrating := false);
    run := NewHeadInFlight(v3.(image := v.rest + 3), n);
    run := Prepend(but, v3, Install(v.rest + 3), run);
    run := Inside(but, v2, Halt, run);
    run := Stamps(but, v, run);
  }

  /** In flight at a first stamp, under a marker whose head has become the second of three. */
  lemma NewHeadInFlight(v: World, n: Name) returns (run: seq<Event>)
    requires WellFormed(v) && ValidHistory(v.revs) && v.image == v.rest + 3 && !v.migrating
    requires v.db == Some(Database(v.rest + 1, false)) && v.disk.units.Keys == {n} && n.rev == LabelAt(v.revs, v.rest)
    requires v.disk.marker == Some(Marker(n.rev, LabelAt(v.revs, v.rest + 2), n))
    ensures RunBut(Some(SteadyImage), v, run) && DirtyPublished(Exec(v, run))
  {
    LabelsDiffer(v.revs, v.rest + 1, v.rest + 2);
    OnlyLabel(v.revs, v.rest, v.rest + 1, n, v.disk.units);
    OnlyLabel(v.revs, v.rest, v.rest + 2, n, v.disk.units);
    run := HalfMigrated(Some(SteadyImage), v.(migrating := true));
    run := StandingStart(Some(SteadyImage), v, run);
  }

  /** A start in flight that the marker stops does nothing. */
  lemma StandingStart(but: Option<Hypothesis>, v: World, tail: seq<Event>) returns (run: seq<Event>)
    requires WellFormed(v) && ValidHistory(v.revs) && v.db.Some? && !v.migrating && InFlight(v)
    requires v.db.value.applied < v.image && !MarkerGivesWay(v, v.db.value.applied)
    requires RunBut(but, v.(migrating := true), tail)
    ensures RunBut(but, v, run) && Exec(v, run) == Exec(v.(migrating := true), tail)
  {
    PendingStartPublishes(v, PLAIN);
    Untouched(v.disk);
    run := Prepend(but, v, Boot(PLAIN), tail);
  }

  /** (c) The unit that the marker names was moved out in flight. */
  lemma WithoutGuardKept(w: World) returns (run: seq<Event>)
    requires Initial(w) && w.rest + 1 <= w.image
    ensures RunBut(Some(GuardKept), w, run) && DirtyPublished(Exec(w, run))
  {
    var but := Some(GuardKept);
    var n := Name(LabelAt(w.revs, w.rest), PLAIN.timestamp);
    var v1 := Next(w, Boot(PLAIN));
    FirstBackup(w, PLAIN);
    StartShields(w, PLAIN);
    var v2 := v1.(db := Some(Database(w.rest, true)), migrating := false);
    var v3 := Next(v2, Archive(n));
    assert v3.disk.units == map[];
    run := DirtyStart(but, v3);
    run := Prepend(but, v2, Archive(n), run);
    run := DiesHalfWay(but, v1, run);
    run := Prepend(but, w, Boot(PLAIN), run);
  }

  // ----- (d) five ways to an unshielded upgrade

  /** The marker of a backup could not be written. */
  lemma UnwrittenMarkerUnshields(w: World) returns (run: seq<Event>)
    requires Initial(w) && w.rest + 2 <= w.image
    ensures RunBut(Some(ShieldedStart), w, run) && DirtyPublished(Exec(w, run))
  {
    var s := PLAIN.(faults := NO_FAULTS.(writeMarker := true));
    var v := Next(w, Boot(s));
    FirstBackup(w, s);
    OnlyLabel(w.revs, w.rest, w.rest + 1, Name(LabelAt(w.revs, w.rest), s.timestamp), v.disk.units);
    run := HalfMigrated(Some(ShieldedStart), v);
    run := Prepend(Some(ShieldedStart), w, Boot(s), run);
  }

  lemma FailedSnapshot(w: World, s: Start)
    requires Initial(w) && w.rest < w.image && s == PLAIN.(faults := NO_FAULTS.(snapshot := true))
    ensures PlanAt(w, s).outcome == Raised && ApplyAll(w.disk, PlanAt(w, s).effects).units == map[]
  {
    var env := EnvOf(w, s);
    LabelsDiffer(w.revs, w.rest, w.image);
    OpenResult(env, w.disk);
    ApplyAllSnoc(w.disk, OpenEffects(env), DropStaging(env.UnitName()));
  }

  /** The snapshot raised, and the migration ran all the same. */
  lemma RaisedHookUnshields(w: World) returns (run: seq<Event>)
    requires Initial(w) && w.rest + 2 <= w.image
    ensures RunBut(Some(ShieldedStart), w, run) && DirtyPublished(Exec(w, run))
  {
    var s := PLAIN.(faults := NO_FAULTS.(snapshot := true));
    FailedSnapshot(w, s);
    run := HalfMigrated(Some(ShieldedStart), Next(w, Boot(s)));
    run := Prepend(Some(ShieldedStart), w, Boot(s), run);
  }

  /** An upgrade of two revisions from one whose unit is published, with no marker in the way. */
  lemma UnguardedUpgrade(v: World, n: Name) returns (run: seq<Event>)
    requires WellFormed(v) && ValidHistory(v.revs) && !v.migrating && v.db == Some(Database(v.rest, false))
    requires v.rest + 2 == v.image && v.disk.units.Keys == {n} && n.rev == LabelAt(v.revs, v.rest)
    requires MarkerGivesWay(v, v.rest + 1)
    ensures RunBut(Some(ShieldedStart), v, run) && DirtyPublished(Exec(v, run))
  {
    OnlyLabel(v.revs, v.rest, v.rest, n, v.disk.units);
    OnlyLabel(v.revs, v.rest, v.rest + 1, n, v.disk.units);
    PendingStartPublishes(v, PLAIN);
    Untouched(v.disk);
    run := HalfMigrated(Some(ShieldedStart), v.(migrating := true));
    run := Prepend(Some(ShieldedStart), v, Boot(PLAIN), run);
  }

  /** A newer image was installed between the backup and the migration it guards. */
  lemma PendingImageUnshields(w: World) returns (run: seq<Event>)
    requires Initial(w) && w.image == w.rest + 1 && w.rest + 2 <= |w.revs|
    ensures RunBut(Some(ShieldedStart), w, run) && DirtyPublished(Exec(w, run))
  {
    var but := Some(ShieldedStart);
    var n := Name(LabelAt(w.revs, w.rest), PLAIN.timestamp);
    var effects := PlanAt(w, PLAIN).effects;
    FirstBackup(w, PLAIN);
    assert effects[..|effects|] == effects;
    var v1 := Next(w, Kill(PLAIN, |effects|));
    run := UnguardedUpgrade(v1.(image := w.rest + 2), n);
    run := Prepend(but, v1, Install(w.rest + 2), run);
    run := Prepend(but, w, Kill(PLAIN, |effects|), run);
  }

  /** A start that finds the database at its head clears the marker and nothing else. */
  lemma StartAtHead(v: World, tail: seq<Event>) returns (run: seq<Event>)
    requires WellFormed(v) && v.db.Some? && v.db.value.applied == v.image == v.rest && !v.migrating
    requires RunBut(Some(ShieldedStart), v.(disk := v.disk.(marker := None)), tail)
    ensures RunBut(Some(ShieldedStart), v, run)
    ensures Exec(v, run) == Exec(v.(disk := v.disk.(marker := None)), tail)
  {
    StartAtHeadClears(v, PLAIN);
    run := Inside(Some(ShieldedStart), Next(v, Boot(PLAIN)), Halt, tail);
    run := Prepend(Some(ShieldedStart), v, Boot(PLAIN), run);
  }

  /** An upgrade of two revisions that runs through. */
  lemma TwoRevisions(v: World, tail: seq<Event>) returns (run: seq<Event>)
    requires WellFormed(v) && v.db.Some? && v.migrating && v.db.value.applied + 2 == v.image
    requires RunBut(Some(ShieldedStart),
                    v.(db := Some(Database(v.image, false)), rest := v.image, migrating := false), tail)
    ensures RunBut(Some(ShieldedStart), v, run)
    ensures Exec(v, run)
         == Exec(v.(db := Some(Database(v.image, false)), rest := v.image, migrating := false), tail)
  {
    var but := Some(ShieldedStart);
    var v1 := Next(v, StampNext);
    run := Inside(but, Next(v1, StampNext), Halt, tail);
    run := Inside(but, v1, StampNext, run);
    run := Inside(but, v, StampNext, run);
  }

  /** The database was rolled back and the old unit was never moved out. */
  lemma KeptUnitUnshields(w: World) returns (run: seq<Event>)
    requires Initial(w) && w.image == w.rest + 2
    ensures RunBut(Some(ShieldedStart), w, run) && DirtyPublished(Exec(w, run))
  {
    var but := Some(ShieldedStart);
    var n := Name(LabelAt(w.revs, w.rest), PLAIN.timestamp);
    var v1 := Next(w, Boot(PLAIN));
    FirstBackup(w, PLAIN);
    var v2 := v1.(db := Some(Database(w.image, false)), rest := w.image, migrating := false);
    var v3 := v2.(disk := v2.disk.(marker := None));
    var v4 := Next(v3, Restore(w.rest, {}));
    assert v4.disk.units == v3.disk.units;
    run := UnguardedUpgrade(v4, n);
    run := Prepend(but, v3, Restore(w.rest, {}), run);
    run := StartAtHead(v2, run);
    run := TwoRevisions(v1, run);
    run := Prepend(but, w, Boot(PLAIN), run);
  }

  /**
   A start that could not tell its head published a unit of a database at rest; the next one
   found the database at its head and cleared the marker.
   */
  lemma ClearedMarkerUnshields(w: World) returns (run: seq<Event>)
    requires Initial(w) && w.image == w.rest && w.rest + 2 <= |w.revs|
    ensures RunBut(Some(ShieldedStart), w, run) && DirtyPublished(Exec(w, run))
  {
    var but := Some(ShieldedStart);
    var unsure := PLAIN.(headKnown := false);
    var n := Name(LabelAt(w.revs, w.rest), PLAIN.timestamp);
    var v1 := Next(w, Boot(unsure));
    FirstBackup(w, unsure);
    var v2 := v1.(migrating := false);
    var v3 := v2.(disk := v2.disk.(marker := None));
    run := UnguardedUpgrade(v3.(image := w.rest + 2), n);
    run := Prepend(but, v3, Install(w.rest + 2), run);
    run := StartAtHead(v2, run);
    run := Inside(but, v1, Halt, run);
    run := Prepend(but, w, Boot(unsure), run);
  }

  /** (e) A fresh install died inside its first migration. */
  lemma WithoutExistingDatabase(w: World) returns (run: seq<Event>)
    requires WellFormed(w) && ValidHistory(w.revs) && !w.migrating && w.db.None? && 0 < w.image
    requires w.disk == Disk(map[], map[], None)
    ensures RunBut(Some(ExistingDatabase), w, run) && DirtyPublished(Exec(w, run))
  {
    var but := Some(ExistingDatabase);
    Untouched(w.disk);
    var v1 := w.(migrating := true);
    var v2 := v1.(db := Some(Database(0, true)));
    run := DirtyStart(but, v2.(migrating := false));
    run := Inside(but, v2, Halt, run);
    run := Prepend(but, v1, ApplyPart, run);
    run := Prepend(but, w, Boot(PLAIN), run);
  }
}
