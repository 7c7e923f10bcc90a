/**
 What one container start does, told from the world it finds: which of its ends it comes to,
 what a backup and a raise leave, what is pruned, and that the marker precedes the unit.
 */
module BackupStart {
  import opened Wrappers
  import opened BackupDisk
  import opened BackupHook
  import opened BackupPrune
  import opened BackupEffects
  import opened BackupProtocol

  /** The key file is the active key: it is there, and no override is set to a non-empty value. */
  predicate KeyFileActive(s: Settings) {
    s.keyFile.Some? && (s.fernetKey == None || s.fernetKey == Some(""))
  }

  /** A step between the staging directory and the rename raises. */
  predicate StepRaises(s: Start) {
    || s.faults.makeStaging || s.faults.snapshot || s.faults.writeManifest || s.faults.replace
    || (s.faults.copyKey && KeyFileActive(s.settings))
  }

  /** The marker that is read names a published unit, and a head other than the current revision. */
  predicate Stands(w: World, s: Start)
    requires WellFormed(w) && w.db.Some?
  {
    && !s.faults.readMarker && w.disk.marker.Some? && w.disk.marker.value.backup in w.disk.units
    && Some(w.disk.marker.value.head) != Stamp(w.revs, w.db.value.applied)
  }

  /** Below the head, or the head unknown; no unit of the revision; no marker in the way. */
  predicate Due(w: World, s: Start)
    requires WellFormed(w)
  {
    && s.settings.onDiskSqlite && w.db.Some? && !s.faults.readRevision
    && (s.headKnown ==> w.db.value.applied < w.image)
    && !CurrentPublished(w) && !Stands(w, s)
  }

  /** The unit that a start would publish. */
  function UnitOf(w: World, s: Start): Name
    requires WellFormed(w) && w.db.Some?
  {
    Name(LabelAt(w.revs, w.db.value.applied), s.timestamp)
  }

  /** The marker that names it, and the head it guards the way to. */
  function MarkerOf(w: World, s: Start): Marker
    requires WellFormed(w) && w.db.Some?
  {
    Marker(UnitOf(w, s).rev, if s.headKnown then LabelAt(w.revs, w.image) else "__unknown__", UnitOf(w, s))
  }

  lemma EnvReads(w: World, s: Start)
    requires WellFormed(w) && ValidHistory(w.revs) && w.db.Some?
    ensures var env := EnvOf(w, s);
            && env.UnitName() == UnitOf(w, s) && env.FromLabel() == LabelAt(w.revs, w.db.value.applied)
            && (env.current == env.head <==> s.headKnown && w.db.value.applied == w.image)
            && (env.current.Some? && env.head != Some(UNKNOWN_HEAD) && !env.inGraph
                <==> s.headKnown && w.db.value.applied > w.image)
            && (BuildFails(env) || env.faults.replace <==> StepRaises(s))
            && (env.Disposition() == FileIncluded <==> KeyFileActive(s.settings))
  {
    LabelsDiffer(w.revs, w.db.value.applied, w.image);
    LabelsDiffer(w.revs, w.image, w.image);
  }

  /**
   Every end a start can come to, whatever fails: what it finds decides, and only a backup that
   is due is attempted. Without one, at most the marker is cleared, and that only at the head.
   */
  lemma StartExactly(w: World, s: Start)
    requires WellFormed(w) && ValidHistory(w.revs)
    ensures var d, after, outcome := w.disk, Started(w, s).disk, PlanAt(w, s).outcome;
            if !s.settings.onDiskSqlite || w.db.None? then outcome == NoBackup && after == d
            else if s.faults.readRevision then outcome == Raised && after == d
            else if s.headKnown && w.db.value.applied == w.image then
              outcome == NoBackup && after == if s.faults.clearMarker then d else d.(marker := None)
            else if !Due(w, s) then outcome == NoBackup && after == d
            else outcome == if StepRaises(s) then Raised else Backup(UnitOf(w, s))
  {
    Untouched(w.disk);
    if w.db.Some? {
      EnvReads(w, s);
      ClearingResult(EnvOf(w, s), w.disk);
    }
  }

  /** What a due backup starts from: its marker is cleared when it was read and no longer guards. */
  lemma DuePlan(w: World, s: Start) returns (d: Disk)
    requires WellFormed(w) && ValidHistory(w.revs) && Due(w, s)
    ensures d.units == w.disk.units && d.staging == w.disk.staging
    ensures d.marker == if s.faults.readMarker || s.faults.clearMarker then w.disk.marker else None
    ensures TakeBackup(EnvOf(w, s), d).outcome == PlanAt(w, s).outcome
    ensures ApplyAll(d, TakeBackup(EnvOf(w, s), d).effects) == Started(w, s).disk
  {
    var env := EnvOf(w, s);
    EnvReads(w, s);
    ClearingResult(env, w.disk);
    d := w.disk;
    if ReadMarker(env, w.disk).Some? {
      d := ApplyAll(w.disk, Clearing(env));
      ApplyAllAppend(w.disk, Clearing(env), TakeBackup(env, d).effects);
    }
  }

  // ----- a backup

  /** Only the staging directory of the unit is touched before it is published. */
  lemma PublicationResult(env: Env, d: Disk)
    requires env.db.Some?
    ensures ApplyAll(d, PublishEffects(env)).staging == d.staging - {env.UnitName()}
  {
    var n := env.UnitName();
    var copies := [CopyDatabase(n, env.db.value)] + KeyEffects(env);
    var last := WriteManifest(n, Manifest(env.current, env.Disposition()), env.now);
    OpenResult(env, d);
    CopiesResult(env, ApplyAll(d, OpenEffects(env)));
    BuildInParts(env, d, copies, last);
    ApplyAllSnoc(d, BuildEffects(env), Publish(n));
  }

  /** What a backup leaves: the unit with its contents and its marker; of the old units, some. */
  lemma BackupLeaves(w: World, s: Start)
    requires WellFormed(w) && ValidHistory(w.revs) && Due(w, s) && !StepRaises(s)
    ensures var d, after, n := w.disk, Started(w, s).disk, UnitOf(w, s);
            && n in after.units && after.units[n].db == w.db && after.units[n].mtime == s.now
            && (KeyFileActive(s.settings) ==> after.units[n].key == s.settings.keyFile)
            && after.units[n].manifest.Some?
            && after.units[n].manifest.value.revision == Stamp(w.revs, w.db.value.applied)
            && (after.units[n].manifest.value.key == FileIncluded <==> KeyFileActive(s.settings))
            && after.marker == if s.faults.writeMarker
                               then if s.faults.readMarker || s.faults.clearMarker then d.marker else None
                               else Some(MarkerOf(w, s))
  {
    var env := EnvOf(w, s);
    var d := DuePlan(w, s);
    EnvReads(w, s);
    var published := ApplyAll(d, PublishEffects(env));
    TakeResult(env, d);
    PublishedUnit(env, d);
    HookPruneHolds(env, published.units.Keys, published);
    ApplyAllAppend(d, PublishEffects(env), HookPrune(env, published.units));
  }

  /** The scan after the rename lists every directory once, and each can be removed. */
  predicate ListsAll(w: World, s: Start)
    requires WellFormed(w) && w.db.Some?
  {
    && NoDuplicates(s.scan.units) && Elements(s.scan.units) == w.disk.units.Keys + {UnitOf(w, s)}
    && NoDuplicates(s.scan.staging) && Elements(s.scan.staging) == w.disk.staging.Keys - {UnitOf(w, s)}
    && s.scan.stuckUnits == {} && s.scan.stuckStaging == {}
  }

  /** What the hook prunes from a disk whose directories it lists: nothing under an unknown head. */
  lemma HookPrunes(env: Env, d: Disk)
    requires env.UnitName() in d.units && Exact(env.scan.units, d.units) && Exact(env.scan.staging, d.staging)
    requires env.scan.stuckUnits == {} && env.scan.stuckStaging == {}
    ensures var after := ApplyAll(d, HookPrune(env, d.units));
            if env.head == Some(UNKNOWN_HEAD) then after == d
            else NewestSurvive(d.units, after.units, {env.UnitName()}, 4) && after.staging == map[]
  {
    if env.head == Some(UNKNOWN_HEAD) {
      Untouched(d);
    } else {
      PruneKeepsNewest(env.scan, d, 5, Some(env.UnitName()));
    }
  }

  lemma TakePrunes(env: Env, d: Disk)
    requires env.db.Some? && !BuildFails(env) && !env.faults.replace
    requires env.scan.stuckUnits == {} && env.scan.stuckStaging == {}
    requires NoDuplicates(env.scan.units) && Elements(env.scan.units) == d.units.Keys + {env.UnitName()}
    requires NoDuplicates(env.scan.staging) && Elements(env.scan.staging) == d.staging.Keys - {env.UnitName()}
    ensures var after, n := ApplyAll(d, TakeBackup(env, d).effects), env.UnitName();
            && n in after.units
            && if env.head == Some(UNKNOWN_HEAD) then
                 after.units == d.units[n := after.units[n]] && after.staging == d.staging - {n}
               else
                 NewestSurvive(d.units[n := after.units[n]], after.units, {n}, 4) && after.staging == map[]
  {
    var published := ApplyAll(d, PublishEffects(env));
    PublicationResult(env, d);
    PublishedUnit(env, d);
    HookPrunes(env, published);
    ApplyAllAppend(d, PublishEffects(env), HookPrune(env, published.units));
  }

  /**
   A backup below a known head leaves the new unit, whatever its time, and the four newest
   others, and no staging directory. Under an unknown head nothing is removed.
   */
  lemma BackupPrunes(w: World, s: Start)
    requires WellFormed(w) && ValidHistory(w.revs) && Due(w, s) && !StepRaises(s) && ListsAll(w, s)
    ensures var d, after, n := w.disk, Started(w, s).disk, UnitOf(w, s);
            && n in after.units
            && if s.headKnown then
                 NewestSurvive(d.units[n := after.units[n]], after.units, {n}, 4) && after.staging == map[]
               else
                 after.units == d.units[n := after.units[n]] && after.staging == d.staging - {n}
  {
    var d := DuePlan(w, s);
    EnvReads(w, s);
    LabelsDiffer(w.revs, w.image, w.image);
    TakePrunes(EnvOf(w, s), d);
  }

  // ----- a raise

  /** A step of the build raises, not the staging directory before it nor the rename after it. */
  predicate BuildStepRaises(s: Start) {
    s.faults.snapshot || s.faults.writeManifest || (s.faults.copyKey && KeyFileActive(s.settings))
  }

  /** Effects on one staging directory. */
  predicate StagesOnly(n: Name, e: Effect) {
    (e.MakeStaging? || e.CopyDatabase? || e.CopyKey? || e.WriteManifest? || e.DropStaging?) && e.name == n
  }

  lemma {:induction false} StagesOne(n: Name, d: Disk, effects: seq<Effect>)
    requires forall e | e in effects :: StagesOnly(n, e)
    ensures ApplyAll(d, effects).staging - {n} == d.staging - {n}
    decreases |effects|
  {
    if effects != [] {
      var init, last := effects[..|effects| - 1], effects[|effects| - 1];
      StagesOne(n, d, init);
      assert last in effects && StagesOnly(n, last);
    }
  }

  lemma FailedFill(env: Env, d: Disk)
    requires env.db.Some? && FillFails(env)
    ensures var r := ApplyAll(d, FillEffects(env));
            r.staging - {env.UnitName()} == d.staging - {env.UnitName()}
            && (!env.faults.cleanup ==> env.UnitName() !in r.staging)
  {
    var n := env.UnitName();
    assert forall e | e in FillEffects(env) :: StagesOnly(n, e);
    StagesOne(n, d, FillEffects(env));
    if !env.faults.cleanup {
      var before := if env.faults.snapshot then [] else Copies(env);
      assert FillEffects(env) == before + [DropStaging(n)];
      ApplyAllSnoc(d, before, DropStaging(n));
    }
  }

  lemma FailedBuildStaging(env: Env, d: Disk)
    requires env.db.Some? && BuildFails(env) && !env.faults.makeStaging
    ensures var after := ApplyAll(d, FailedBuild(env));
            && after.staging - {env.UnitName()} == d.staging - {env.UnitName()}
            && (!env.faults.cleanup ==> env.UnitName() !in after.staging)
  {
    OpenAndFill(env);
    OpenResult(env, d);
    FailedFill(env, ApplyAll(d, OpenEffects(env)));
    ApplyAllAppend(d, OpenEffects(env), FillEffects(env));
  }

  /** A backup that raises touches the staging directory of its unit only. */
  lemma TakeRaisesStaging(env: Env, d: Disk)
    requires env.db.Some? && TakeBackup(env, d).outcome == Raised
    ensures var after := ApplyAll(d, TakeBackup(env, d).effects);
            && after.staging - {env.UnitName()} == d.staging - {env.UnitName()}
            && (env.faults.makeStaging ==> after.staging == d.staging)
            && (FillFails(env) && !env.faults.makeStaging && !env.faults.cleanup ==> env.UnitName() !in after.staging)
  {
    if env.faults.makeStaging {
      Untouched(d);
    } else if BuildFails(env) {
      FailedBuildStaging(env, d);
    } else {
      PublicationResult(env, d);
      ApplyAllSnoc(d, BuildEffects(env), Publish(env.UnitName()));
    }
  }

  /**
   A raise publishes and removes nothing; the marker is written before the first step that can
   raise after the staging directory, and a build that raises clears that directory.
   */
  lemma RaiseLeaves(w: World, s: Start)
    requires WellFormed(w) && ValidHistory(w.revs) && Due(w, s) && StepRaises(s)
    ensures var d, after, n := w.disk, Started(w, s).disk, UnitOf(w, s);
            && after.units == d.units && after.staging - {n} == d.staging - {n}
            && (s.faults.makeStaging ==> after.staging == d.staging)
            && (BuildStepRaises(s) && !s.faults.makeStaging && !s.faults.cleanup ==> n !in after.staging)
            && after.marker == if s.faults.makeStaging || s.faults.writeMarker
                               then if s.faults.readMarker || s.faults.clearMarker then d.marker else None
                               else Some(MarkerOf(w, s))
  {
    var env := EnvOf(w, s);
    var d := DuePlan(w, s);
    EnvReads(w, s);
    TakeRaises(env, d);
    TakeRaisesStaging(env, d);
  }

  // ----- the order of the effects

  /** Nothing but the unit has become visible, and where it is, its marker is in place. */
  predicate Guarded(n: Name, m: Marker, before: set<Name>, d: Disk) {
    d.units.Keys <= before + {n} && (n in d.units ==> d.marker == Some(m))
  }

  lemma NotYetThere(n: Name, m: Marker, before: set<Name>, d: Disk, effects: seq<Effect>)
    requires d.units.Keys <= before && n !in before && forall e | e in effects :: !e.Publish?
    ensures Throughout((x: Disk) => Guarded(n, m, before, x), d, effects)
    ensures ApplyAll(d, effects).units.Keys <= before
  {
    var absent := (x: Disk) => x.units.Keys <= before;
    forall e | e in effects ensures Preserves(absent, e) {
    }
    PreservedThroughout(absent, d, effects);
    ThroughoutWeaker(absent, (x: Disk) => Guarded(n, m, before, x), d, effects);
  }

  lemma GuardedWhilePruned(env: Env, before: set<Name>, d: Disk)
    requires env.UnitName() in d.units && d.units.Keys <= before + {env.UnitName()} && d.marker == Some(env.NewMarker())
    ensures Throughout((x: Disk) => Guarded(env.UnitName(), env.NewMarker(), before, x), d, HookPrune(env, d.units))
  {
    var n, m := env.UnitName(), env.NewMarker();
    var marked := (x: Disk) => x.units.Keys <= before + {n} && x.marker == Some(m);
    HookPruneSpares(env, d.units);
    forall e | e in HookPrune(env, d.units) ensures Preserves(marked, e) {
      assert e.DropStaging? || e.RemoveUnit?;
    }
    PreservedThroughout(marked, d, HookPrune(env, d.units));
    ThroughoutWeaker(marked, (x: Disk) => Guarded(n, m, before, x), d, HookPrune(env, d.units));
  }

  lemma PublishGuards(env: Env, before: set<Name>, d: Disk)
    requires env.db.Some? && d.units.Keys <= before && env.UnitName() !in before && !env.faults.writeMarker
    ensures Throughout((x: Disk) => Guarded(env.UnitName(), env.NewMarker(), before, x), d, PublishEffects(env))
  {
    var n, m := env.UnitName(), env.NewMarker();
    var ok := (x: Disk) => Guarded(n, m, before, x);
    BuildParts(env);
    NotYetThere(n, m, before, d, BuildEffects(env));
    PublishHolds(env, d);
    ApplyAllSnoc(d, BuildEffects(env), Publish(n));
    assert BuildEffects(env)[..|BuildEffects(env)|] == BuildEffects(env);
    assert ok(ApplyAll(d, BuildEffects(env)));
    SingleThroughout(ok, ApplyAll(d, BuildEffects(env)), Publish(n));
    ThroughoutAppend(ok, d, BuildEffects(env), [Publish(n)]);
  }

  lemma TakeGuards(env: Env, before: set<Name>, d: Disk)
    requires env.db.Some? && d.units.Keys <= before && env.UnitName() !in before && !env.faults.writeMarker
    ensures Throughout((x: Disk) => Guarded(env.UnitName(), env.NewMarker(), before, x), d, TakeBackup(env, d).effects)
  {
    var n, m := env.UnitName(), env.NewMarker();
    if TakeBackup(env, d).outcome == Raised {
      BuildParts(env);
      NotYetThere(n, m, before, d, TakeBackup(env, d).effects);
    } else {
      var published := ApplyAll(d, PublishEffects(env));
      PublishGuards(env, before, d);
      PublishHolds(env, d);
      GuardedWhilePruned(env, before, published);
      ThroughoutAppend((x: Disk) => Guarded(n, m, before, x), d, PublishEffects(env), HookPrune(env, published.units));
    }
  }

  lemma StartGuards(w: World, s: Start)
    requires WellFormed(w) && ValidHistory(w.revs) && w.db.Some? && !s.faults.writeMarker
    requires UnitOf(w, s) !in w.disk.units
    ensures var env := EnvOf(w, s);
            Throughout((x: Disk) => Guarded(env.UnitName(), env.NewMarker(), w.disk.units.Keys, x),
                       w.disk, PlanAt(w, s).effects)
  {
    var env := EnvOf(w, s);
    var n, m, before := env.UnitName(), env.NewMarker(), w.disk.units.Keys;
    EnvReads(w, s);
    NotYetThere(n, m, before, w.disk, Clearing(env));
    if Takes(env, w.disk) {
      var cleared := ApplyAll(w.disk, Clearing(env));
      TakeGuards(env, before, w.disk);
      TakeGuards(env, before, cleared);
      ThroughoutAppend((x: Disk) => Guarded(n, m, before, x), w.disk, Clearing(env), TakeBackup(env, cleared).effects);
    } else {
      NotYetThere(n, m, before, w.disk, PlanAt(w, s).effects);
    }
  }

  /** A start that takes no backup changes no unit. */
  lemma NoBackupKeepsUnits(w: World, s: Start, k: nat)
    requires WellFormed(w) && ValidHistory(w.revs) && w.db.Some? && CurrentPublished(w) && k <= |PlanAt(w, s).effects|
    ensures ApplyAll(w.disk, PlanAt(w, s).effects[..k]).units == w.disk.units
  {
    EnvReads(w, s);
    Untouched(w.disk);
    ApplyOne(w.disk, ClearMarker);
    var effects := PlanAt(w, s).effects;
    assert effects == [] || effects == [ClearMarker];
    assert effects[..k] == [] || effects[..k] == [ClearMarker];
  }

  /**
   Wherever a start that can write its marker is killed: the only unit it can have made visible
   is its own, and the marker that names it is in place by then.
   */
  lemma MarkerPrecedesUnit(w: World, s: Start, k: nat)
    requires ValidHistory(w.revs) && Possible(w, Kill(s, k)) && w.db.Some? && !s.faults.writeMarker
    ensures var d := Next(w, Kill(s, k)).disk;
            forall n | n in d.units && n !in w.disk.units ::
              n == UnitOf(w, s) && d.marker.Some? && d.marker.value.backup == n && d.marker.value.fromRev == n.rev
  {
    var env, n := EnvOf(w, s), UnitOf(w, s);
    EnvReads(w, s);
    if n in w.disk.units {
      LabelsDiffer(w.revs, w.db.value.applied, w.image);
      GlobHitsOwnLabel(n.rev, n);
      NoBackupKeepsUnits(w, s, k);
    } else {
      StartGuards(w, s);
      var ok := (x: Disk) => Guarded(n, env.NewMarker(), w.disk.units.Keys, x);
      assert ok(ApplyAll(w.disk, PlanAt(w, s).effects[..k]));
    }
  }
}
