/**
 Operators who tidy up keep every start shielded: images change between upgrades, a rollback
 moves out the units it makes stale, and no start re-arms a unit of its own revision.
 */
module BackupTidy {
  import opened Wrappers
  import opened BackupDisk
  import opened BackupHook
  import opened BackupEffects
  import opened BackupProtocol
  import opened BackupSafety
  import opened BackupTheorems

  // ----- tidy events

  /** The marker names a published unit of the current revision, for a known head. */
  predicate UpgradePending(w: World)
    requires WellFormed(w) && w.db.Some?
  {
    && w.disk.marker.Some? && w.disk.marker.value.head != UNKNOWN_HEAD
    && w.disk.marker.value.backup in w.disk.units
    && w.disk.marker.value.backup.rev == LabelAt(w.revs, w.db.value.applied)
  }

  /** An image is only replaced when no upgrade is pending: its marker and unit written. */
  predicate ImageSettled(w: World, e: Event)
    requires WellFormed(w)
  {
    e.Install? && e.image != w.image && w.db.Some? ==> !UpgradePending(w)
  }

  /** Restoring an older database moves out every unit at or past its revision, and the marker's. */
  predicate RestoreArchives(w: World, e: Event) {
    e.Restore? ==>
      && (forall n | n in w.disk.units && n !in e.archived ::
            w.disk.units[n].db.Some? && w.disk.units[n].db.value.applied < e.applied)
      && (w.disk.marker.Some? && w.disk.marker.value.backup in w.disk.units ==>
            w.disk.marker.value.backup in e.archived)
  }

  /**
   No start that knows its head finds the database at that head while a unit for its
   own revision is published: such a start clears the marker that guards the unit.
   */
  predicate NoRearmedUnit(w: World, e: Event) {
    WellFormed(w) && w.db.Some? && (e.Boot? || e.Kill?) && e.start.headKnown ==>
      !(w.db.value.applied == w.image && CurrentPublished(w))
  }

  predicate HeadKnown(e: Event) {
    (e.Boot? || e.Kill?) ==> e.start.headKnown
  }

  /** All of them; where every start can tell its head, nothing is re-armed. */
  predicate Tidy(knownHeads: bool, w: World, e: Event)
    requires WellFormed(w)
  {
    && MarkerWorks(e) && RaiseStops(w, e) && ImageSteady(w, e) && GuardStays(w, e) && HasDatabase(w, e)
    && ImageSettled(w, e) && RestoreArchives(w, e)
    && if knownHeads then HeadKnown(e) else NoRearmedUnit(w, e)
  }

  predicate TidyRun(knownHeads: bool, w: World, es: seq<Event>) {
    es == [] ||
    (var init, last := es[..|es| - 1], es[|es| - 1];
     TidyRun(knownHeads, w, init) && Possible(Exec(w, init), last) && Tidy(knownHeads, Exec(w, init), last))
  }

  // ----- the invariant

  /** Every unit is a clean snapshot of the revision in its name; one unit per revision. */
  ghost predicate UnitsClean(revs: seq<string>, rest: nat, d: Disk) {
    && rest <= |revs|
    && (forall n | n in d.units ::
          && d.units[n].db.Some? && !d.units[n].db.value.dirty && d.units[n].db.value.applied <= rest
          && n.rev == LabelAt(revs, d.units[n].db.value.applied))
    && (forall m, n | m in d.units && n in d.units && m.rev == n.rev :: m == n)
  }

  /** A unit for the revision the database rests at is the one the marker names. */
  ghost predicate RestGuarded(revs: seq<string>, image: nat, rest: nat, d: Disk)
    requires image <= |revs| && rest <= |revs|
  {
    && (forall n | n in d.units && n.rev == LabelAt(revs, rest) ::
          && d.marker.Some? && d.marker.value.backup == n
          && (d.marker.value.head == UNKNOWN_HEAD || (d.marker.value.head == LabelAt(revs, image) && rest < image)))
    && (d.marker.Some? ==>
          && d.marker.value.head != BASE
          && (d.marker.value.backup in d.units ==>
                || d.marker.value.head == UNKNOWN_HEAD
                || d.marker.value.backup.rev == LabelAt(revs, rest)
                || d.marker.value.head == LabelAt(revs, rest)))
  }

  /** The marker names a published unit: the upgrade's own, when the head was known. */
  ghost predicate UpgradeGuarded(revs: seq<string>, image: nat, rest: nat, d: Disk)
    requires image <= |revs| && rest <= |revs|
  {
    && rest < image && d.marker.Some? && d.marker.value.backup in d.units && d.marker.value.head != BASE
    && (d.marker.value.head == UNKNOWN_HEAD
        || (d.marker.value.head == LabelAt(revs, image) && d.marker.value.backup.rev == LabelAt(revs, rest)))
  }

  ghost predicate Inv(w: World) {
    && WellFormed(w) && ValidHistory(w.revs) && w.db.Some?
    && UnitsClean(w.revs, w.rest, w.disk)
    && (if InFlight(w) then
          w.rest <= w.db.value.applied < w.image && UpgradeGuarded(w.revs, w.image, w.rest, w.disk)
        else
          && RestGuarded(w.revs, w.image, w.rest, w.disk)
          && (w.migrating && w.rest < w.image ==> UpgradeGuarded(w.revs, w.image, w.rest, w.disk)))
  }

  ghost predicate NothingPublished(rev: string, d: Disk) {
    forall n | n in d.units :: n.rev != rev
  }

  lemma TidyNames(revs: seq<string>, i: nat, rest: nat, d: Disk)
    requires ValidHistory(revs) && UnitsClean(revs, rest, d) && i <= |revs|
    ensures LabelPublished(LabelAt(revs, i), d.units) <==> !NothingPublished(LabelAt(revs, i), d)
  {
    LabelsDiffer(revs, i, i);
    forall n | n in d.units ensures DashFree(n.rev) {
      LabelsDiffer(revs, d.units[n].db.value.applied, i);
    }
    PublishedMeansLabel(LabelAt(revs, i), d.units);
  }

  // ----- the disks of one backup taken at rest

  /** At rest, with no unit for the current revision: before publication. */
  ghost predicate Before(revs: seq<string>, image: nat, rest: nat, d: Disk)
    requires image <= |revs| && rest <= |revs|
  {
    UnitsClean(revs, rest, d) && RestGuarded(revs, image, rest, d) && NothingPublished(LabelAt(revs, rest), d)
  }

  /** At rest, with the unit published and the marker naming it. */
  ghost predicate Published(revs: seq<string>, image: nat, rest: nat, m: Marker, d: Disk)
    requires image <= |revs| && rest <= |revs|
  {
    && UnitsClean(revs, rest, d) && RestGuarded(revs, image, rest, d)
    && d.marker == Some(m) && m.backup in d.units
  }

  ghost predicate AtRest(revs: seq<string>, image: nat, rest: nat, d: Disk)
    requires image <= |revs| && rest <= |revs|
  {
    UnitsClean(revs, rest, d) && RestGuarded(revs, image, rest, d)
  }

  /** A lawful start at rest that is going to take a backup. */
  ghost predicate TakesAtRest(w: World, s: Start) {
    && WellFormed(w) && ValidHistory(w.revs) && w.db == Some(Database(w.rest, false))
    && NothingPublished(LabelAt(w.revs, w.rest), w.disk)
    && !s.faults.readMarker && !s.faults.writeMarker
    && (s.headKnown ==> w.rest < w.image)
  }

  lemma NewMarkerAt(w: World, s: Start)
    requires TakesAtRest(w, s)
    ensures var m := EnvOf(w, s).NewMarker();
            && m.backup == Name(LabelAt(w.revs, w.rest), s.timestamp) && EnvOf(w, s).UnitName() == m.backup
            && m.head == (if s.headKnown then LabelAt(w.revs, w.image) else UNKNOWN_HEAD)
            && m.head != BASE
  {
    LabelsDiffer(w.revs, w.rest, w.rest);
    if s.headKnown { LabelsDiffer(w.revs, w.image, w.image); }
  }

  lemma StagingPreservesBefore(w: World, e: Effect)
    requires WellFormed(w) && StagingOnly(e)
    ensures Preserves((d: Disk) => Before(w.revs, w.image, w.rest, d), e)
  {
  }

  lemma MarkerPreservesBefore(w: World, s: Start, e: Effect)
    requires TakesAtRest(w, s) && (e == ClearMarker || e == WriteMarker(EnvOf(w, s).NewMarker()))
    ensures Preserves((d: Disk) => Before(w.revs, w.image, w.rest, d), e)
  {
    NewMarkerAt(w, s);
  }

  lemma BuildIsBefore(w: World, s: Start, d: Disk, effects: seq<Effect>)
    requires TakesAtRest(w, s) && Before(w.revs, w.image, w.rest, d)
    requires forall e | e in effects ::
               StagingOnly(e) || e == ClearMarker || e == WriteMarker(EnvOf(w, s).NewMarker())
    ensures Throughout((x: Disk) => Before(w.revs, w.image, w.rest, x), d, effects)
    ensures Before(w.revs, w.image, w.rest, ApplyAll(d, effects))
  {
    var ok := (x: Disk) => Before(w.revs, w.image, w.rest, x);
    forall e | e in effects ensures Preserves(ok, e) {
      if StagingOnly(e) {
        StagingPreservesBefore(w, e);
      } else {
        MarkerPreservesBefore(w, s, e);
      }
    }
    PreservedThroughout(ok, d, effects);
  }

  lemma PublishResult(w: World, s: Start, d: Disk)
    requires TakesAtRest(w, s) && Before(w.revs, w.image, w.rest, d)
    ensures var env := EnvOf(w, s);
            Published(w.revs, w.image, w.rest, env.NewMarker(), ApplyAll(d, PublishEffects(env)))
  {
    var env := EnvOf(w, s);
    NewMarkerAt(w, s);
    BuildResult(env, d);
    ApplyAllSnoc(d, BuildEffects(env), Publish(env.UnitName()));
  }

  lemma PrunePreservesPublished(w: World, m: Marker, e: Effect)
    requires WellFormed(w) && (e.DropStaging? || (e.RemoveUnit? && e.name != m.backup))
    ensures Preserves((d: Disk) => Published(w.revs, w.image, w.rest, m, d), e)
  {
    forall d | Published(w.revs, w.image, w.rest, m, d)
      ensures Published(w.revs, w.image, w.rest, m, Apply(d, e))
    {
      assert forall n | n in Apply(d, e).units :: n in d.units && Apply(d, e).units[n] == d.units[n];
    }
  }

  lemma PruneIsPublished(w: World, s: Start, d: Disk)
    requires TakesAtRest(w, s) && Published(w.revs, w.image, w.rest, EnvOf(w, s).NewMarker(), d)
    ensures var prune := HookPrune(EnvOf(w, s), d.units);
            && Throughout((x: Disk) => Published(w.revs, w.image, w.rest, EnvOf(w, s).NewMarker(), x), d, prune)
            && Published(w.revs, w.image, w.rest, EnvOf(w, s).NewMarker(), ApplyAll(d, prune))
  {
    var env := EnvOf(w, s);
    var m := env.NewMarker();
    var ok := (x: Disk) => Published(w.revs, w.image, w.rest, m, x);
    HookPruneSpares(env, d.units);
    forall e | e in HookPrune(env, d.units) ensures Preserves(ok, e) {
      PrunePreservesPublished(w, m, e);
    }
    PreservedThroughout(ok, d, HookPrune(env, d.units));
  }

  lemma FailedTakeIsAtRest(w: World, s: Start, d: Disk)
    requires TakesAtRest(w, s) && Before(w.revs, w.image, w.rest, d)
    requires TakeBackup(EnvOf(w, s), d).outcome == Raised
    ensures Throughout((x: Disk) => AtRest(w.revs, w.image, w.rest, x), d, TakeBackup(EnvOf(w, s), d).effects)
  {
    var effects := TakeBackup(EnvOf(w, s), d).effects;
    BuildIsBefore(w, s, d, effects);
    ThroughoutWeaker((x: Disk) => Before(w.revs, w.image, w.rest, x),
                     (x: Disk) => AtRest(w.revs, w.image, w.rest, x), d, effects);
  }

  lemma PublishIsAtRest(w: World, s: Start, d: Disk)
    requires TakesAtRest(w, s) && Before(w.revs, w.image, w.rest, d)
    ensures Throughout((x: Disk) => AtRest(w.revs, w.image, w.rest, x), d, PublishEffects(EnvOf(w, s)))
  {
    var env := EnvOf(w, s);
    var ok := (x: Disk) => AtRest(w.revs, w.image, w.rest, x);
    BuildIsBefore(w, s, d, BuildEffects(env));
    ThroughoutWeaker((x: Disk) => Before(w.revs, w.image, w.rest, x), ok, d, BuildEffects(env));
    PublishResult(w, s, d);
    ApplyAllSnoc(d, BuildEffects(env), Publish(env.UnitName()));
    SingleThroughout(ok, ApplyAll(d, BuildEffects(env)), Publish(env.UnitName()));
    ThroughoutAppend(ok, d, BuildEffects(env), [Publish(env.UnitName())]);
  }

  lemma TakeIsAtRest(w: World, s: Start, d: Disk)
    requires TakesAtRest(w, s) && Before(w.revs, w.image, w.rest, d)
    ensures var plan := TakeBackup(EnvOf(w, s), d);
            && Throughout((x: Disk) => AtRest(w.revs, w.image, w.rest, x), d, plan.effects)
            && (plan.outcome != Raised ==>
                  Published(w.revs, w.image, w.rest, EnvOf(w, s).NewMarker(), ApplyAll(d, plan.effects)))
  {
    var env := EnvOf(w, s);
    if TakeBackup(env, d).outcome == Raised {
      FailedTakeIsAtRest(w, s, d);
    } else {
      var ok := (x: Disk) => AtRest(w.revs, w.image, w.rest, x);
      var published := ApplyAll(d, PublishEffects(env));
      var prune := HookPrune(env, published.units);
      PublishIsAtRest(w, s, d);
      PublishResult(w, s, d);
      PruneIsPublished(w, s, published);
      ThroughoutWeaker((x: Disk) => Published(w.revs, w.image, w.rest, env.NewMarker(), x), ok, published, prune);
      ThroughoutAppend(ok, d, PublishEffects(env), prune);
      ApplyAllAppend(d, PublishEffects(env), prune);
    }
  }

  /** What a lawful start may assume of the world it finds. */
  ghost predicate LawfulStart(w: World, s: Start) {
    && Inv(w) && !w.migrating && s.settings.onDiskSqlite
    && !s.faults.readMarker && !s.faults.writeMarker
    && (s.headKnown ==> !(w.db.value.applied == w.image && CurrentPublished(w)))
  }

  lemma ClearPreservesBefore(w: World)
    requires WellFormed(w)
    ensures Preserves((d: Disk) => Before(w.revs, w.image, w.rest, d), ClearMarker)
  {
  }

  lemma ClearingIsBefore(w: World, s: Start, d: Disk)
    requires WellFormed(w) && Before(w.revs, w.image, w.rest, d)
    ensures Throughout((x: Disk) => AtRest(w.revs, w.image, w.rest, x), d, Clearing(EnvOf(w, s)))
    ensures Before(w.revs, w.image, w.rest, ApplyAll(d, Clearing(EnvOf(w, s))))
  {
    var ok := (x: Disk) => Before(w.revs, w.image, w.rest, x);
    ClearPreservesBefore(w);
    PreservedThroughout(ok, d, Clearing(EnvOf(w, s)));
    ThroughoutWeaker(ok, (x: Disk) => AtRest(w.revs, w.image, w.rest, x), d, Clearing(EnvOf(w, s)));
  }

  lemma PublishedGuards(w: World, m: Marker, s: Start, d: Disk)
    requires TakesAtRest(w, s) && m == EnvOf(w, s).NewMarker() && w.rest < w.image
    requires Published(w.revs, w.image, w.rest, m, d)
    ensures UpgradeGuarded(w.revs, w.image, w.rest, d)
  {
    NewMarkerAt(w, s);
  }

  /** At rest, past the guards: the marker either still guards a unit or a backup is taken. */
  lemma MarkerStep(w: World, s: Start)
    requires LawfulStart(w, s) && !InFlight(w) && TakesAtRest(w, s)
    ensures var plan := MarkerPlan(EnvOf(w, s), w.disk);
            && Throughout((x: Disk) => AtRest(w.revs, w.image, w.rest, x), w.disk, plan.effects)
            && (plan.outcome != Raised && w.rest < w.image ==>
                  UpgradeGuarded(w.revs, w.image, w.rest, ApplyAll(w.disk, plan.effects)))
  {
    var env, d := EnvOf(w, s), w.disk;
    var ok := (x: Disk) => AtRest(w.revs, w.image, w.rest, x);
    match d.marker
    case None =>
      TakeIsAtRest(w, s, d);
      if TakeBackup(env, d).outcome != Raised && w.rest < w.image {
        PublishedGuards(w, env.NewMarker(), s, ApplyAll(d, TakeBackup(env, d).effects));
      }
    case Some(m) =>
      if Some(m.head) == env.current || m.backup !in d.units {
        ClearingIsBefore(w, s, d);
        var cleared := ApplyAll(d, Clearing(env));
        var plan := TakeBackup(env, cleared);
        TakeIsAtRest(w, s, cleared);
        ThroughoutAppend(ok, d, Clearing(env), plan.effects);
        ApplyAllAppend(d, Clearing(env), plan.effects);
        if plan.outcome != Raised && w.rest < w.image {
          PublishedGuards(w, env.NewMarker(), s, ApplyAll(cleared, plan.effects));
        }
      } else {
        NoEffects(ok, d);
      }
  }

  /** A start at rest: whatever it does, and wherever it dies, the disk stays sound. */
  lemma RestStart(w: World, s: Start)
    requires LawfulStart(w, s) && !InFlight(w)
    ensures var plan := PlanAt(w, s);
            && Throughout((x: Disk) => AtRest(w.revs, w.image, w.rest, x), w.disk, plan.effects)
            && (plan.outcome != Raised && w.rest < w.image ==>
                  UpgradeGuarded(w.revs, w.image, w.rest, ApplyAll(w.disk, plan.effects)))
  {
    var env := EnvOf(w, s);
    NoEffects((x: Disk) => AtRest(w.revs, w.image, w.rest, x), w.disk);
    LabelsDiffer(w.revs, w.rest, w.image);
    TidyNames(w.revs, w.rest, w.rest, w.disk);
    assert env.FromLabel() == LabelAt(w.revs, w.rest);
    if env.faults.readRevision {
    } else if env.current == env.head {
      ClearingIsBefore(w, s, w.disk);
    } else if env.current.Some? && env.head != Some(UNKNOWN_HEAD) && !env.inGraph {
    } else if LabelPublished(env.FromLabel(), w.disk.units) {
    } else {
      MarkerStep(w, s);
    }
  }

  /** A start in flight changes nothing. */
  lemma FlightStart(w: World, s: Start)
    requires LawfulStart(w, s) && InFlight(w)
    ensures PlanAt(w, s).effects == []
  {
    LabelsDiffer(w.revs, w.db.value.applied, w.image);
  }

  lemma StartKeepsInvariant(w: World, e: Event)
    requires Inv(w) && Possible(w, e) && Tidy(false, w, e) && (e.Boot? || e.Kill?)
    ensures Inv(Next(w, e))
  {
    var s := e.start;
    var effects := PlanAt(w, s).effects;
    if InFlight(w) {
      FlightStart(w, s);
      if e.Kill? { assert effects[..e.effects] == []; }
    } else {
      RestStart(w, s);
      assert effects[..|effects|] == effects;
      var ok := (x: Disk) => AtRest(w.revs, w.image, w.rest, x);
      if e.Kill? {
        assert ok(ApplyAll(w.disk, effects[..e.effects]));
      } else {
        assert ok(ApplyAll(w.disk, effects[..|effects|]));
      }
    }
  }

  lemma StampKeepsInvariant(w: World)
    requires Inv(w) && Possible(w, StampNext)
    ensures Inv(Next(w, StampNext))
  {
    var applied := w.db.value.applied + 1;
    LabelsDiffer(w.revs, w.image, w.rest);
    if applied == w.image {
      forall n | n in w.disk.units ensures n.rev != LabelAt(w.revs, w.image) {
        LabelsDiffer(w.revs, w.disk.units[n].db.value.applied, w.image);
      }
    }
  }

  lemma RestoreKeepsInvariant(w: World, applied: nat, archived: set<Name>)
    requires Inv(w) && Possible(w, Restore(applied, archived)) && Tidy(false, w, Restore(applied, archived))
    ensures Inv(Next(w, Restore(applied, archived)))
  {
    forall n | n in w.disk.units && n !in archived ensures n.rev != LabelAt(w.revs, applied) {
      LabelsDiffer(w.revs, w.disk.units[n].db.value.applied, applied);
    }
  }

  lemma InstallKeepsInvariant(w: World, image: nat)
    requires Inv(w) && Possible(w, Install(image)) && Tidy(false, w, Install(image))
    ensures Inv(Next(w, Install(image)))
  {
    if image != w.image {
      TidyNames(w.revs, w.rest, w.rest, w.disk);
    }
  }

  /** Every tidy event keeps the invariant. */
  lemma EventKeepsInvariant(w: World, e: Event)
    requires Inv(w) && Possible(w, e) && Tidy(false, w, e)
    ensures Inv(Next(w, e))
  {
    match e
    case Boot(_) => StartKeepsInvariant(w, e);
    case Kill(_, _) => StartKeepsInvariant(w, e);
    case StampNext => StampKeepsInvariant(w);
    case Restore(applied, archived) => RestoreKeepsInvariant(w, applied, archived);
    case Install(image) => InstallKeepsInvariant(w, image);
    case ApplyPart =>
    case Halt =>
    case Archive(n) =>
  }

  // ----- known heads

  ghost predicate KnownMarker(d: Disk) {
    d.marker.Some? ==> d.marker.value.head != UNKNOWN_HEAD
  }

  lemma PlanWritesOwnMarker(env: Env, d: Disk)
    ensures OwnMarkers(env, PlanOf(env, d).effects)
  {
    var plan, cleared := PlanOf(env, d), ApplyAll(d, Clearing(env));
    assert OwnMarkers(env, []) && OwnMarkers(env, Clearing(env));
    if env.db.Some? {
      TakeWritesOwnMarker(env, d);
      TakeWritesOwnMarker(env, cleared);
      OwnMarkersAppend(env, Clearing(env), TakeBackup(env, cleared).effects);
    }
  }

  lemma OwnMarkersAppend(env: Env, a: seq<Effect>, b: seq<Effect>)
    requires OwnMarkers(env, a) && OwnMarkers(env, b)
    ensures OwnMarkers(env, a + b)
  {
  }

  /** An image without revisions never takes a backup. */
  lemma NoHeadNoMarker(env: Env, d: Disk)
    requires env.head.None? && (env.current.None? || !env.inGraph)
    ensures forall e | e in PlanOf(env, d).effects :: !e.WriteMarker?
  {
  }

  /** Every marker among `effects` is the start's own. */
  predicate OwnMarkers(env: Env, effects: seq<Effect>) {
    forall e | e in effects && e.WriteMarker? :: e.marker == env.NewMarker()
  }

  lemma PruneWritesNoMarker(env: Env, units: map<Name, Dir>)
    ensures OwnMarkers(env, HookPrune(env, units))
  {
    SweepsAreDrops(env.scan.staging, env.scan.stuckStaging);
    RemovalsAreListed(StaleUnits(env.scan, units, KEEP_COUNT, Some(env.UnitName())), env.scan.stuckUnits);
  }

  lemma BuildWritesOwnMarker(env: Env)
    requires env.db.Some?
    ensures OwnMarkers(env, FailedBuild(env)) && OwnMarkers(env, PublishEffects(env))
    ensures OwnMarkers(env, BuildEffects(env))
  {
    assert OwnMarkers(env, OpenEffects(env)) && OwnMarkers(env, KeyEffects(env));
  }

  lemma TakeWritesOwnMarker(env: Env, d: Disk)
    requires env.db.Some?
    ensures OwnMarkers(env, TakeBackup(env, d).effects)
  {
    BuildWritesOwnMarker(env);
    PruneWritesNoMarker(env, ApplyAll(d, PublishEffects(env)).units);
  }

  lemma EffectKeepsMarkerKnown(e: Effect)
    requires e.WriteMarker? ==> e.marker.head != UNKNOWN_HEAD
    ensures Preserves((d: Disk) => KnownMarker(d), e)
  {
    forall d | KnownMarker(d) ensures KnownMarker(Apply(d, e)) {
      assert !e.ClearMarker? && !e.WriteMarker? ==> Apply(d, e).marker == d.marker;
    }
  }

  lemma NewMarkerIsKnown(w: World, s: Start)
    requires WellFormed(w) && ValidHistory(w.revs) && w.db.Some? && s.headKnown
    ensures forall e | e in PlanAt(w, s).effects && e.WriteMarker? :: e.marker.head != UNKNOWN_HEAD
  {
    PlanWritesOwnMarker(EnvOf(w, s), w.disk);
    if w.image == 0 { NoHeadNoMarker(EnvOf(w, s), w.disk); }
    LabelsDiffer(w.revs, w.image, w.image);
  }

  lemma KnownStartKeepsMarkerKnown(w: World, s: Start)
    requires WellFormed(w) && ValidHistory(w.revs) && w.db.Some? && s.headKnown && KnownMarker(w.disk)
    ensures Throughout((d: Disk) => KnownMarker(d), w.disk, PlanAt(w, s).effects)
  {
    var ok := (d: Disk) => KnownMarker(d);
    var effects := PlanAt(w, s).effects;
    NewMarkerIsKnown(w, s);
    forall e | e in effects ensures Preserves(ok, e) {
      EffectKeepsMarkerKnown(e);
    }
    PreservedThroughout(ok, w.disk, effects);
  }

  /** With known markers, a tidy event under known heads re-arms nothing. */
  lemma KnownEventIsTidy(w: World, e: Event)
    requires Inv(w) && KnownMarker(w.disk) && Possible(w, e) && Tidy(true, w, e)
    ensures Tidy(false, w, e) && KnownMarker(Next(w, e).disk)
  {
    if e.Boot? || e.Kill? {
      KnownStartKeepsMarkerKnown(w, e.start);
      var effects := PlanAt(w, e.start).effects;
      assert effects[..|effects|] == effects;
      var ok := (d: Disk) => KnownMarker(d);
      assert e.Boot? ==> ok(ApplyAll(w.disk, effects[..|effects|]));
      assert e.Kill? ==> ok(ApplyAll(w.disk, effects[..e.effects]));
      if w.db.value.applied == w.image {
        TidyNames(w.revs, w.rest, w.rest, w.disk);
      }
    }
  }

  // ----- tidy runs are lawful

  lemma GuardedIsShielded(w: World)
    requires WellFormed(w) && ValidHistory(w.revs) && UpgradeGuarded(w.revs, w.image, w.rest, w.disk)
    ensures Shielded(w)
  {
    forall j | w.rest <= j < w.image ensures Some(w.disk.marker.value.head) != Stamp(w.revs, j) {
      LabelsDiffer(w.revs, j, w.image);
    }
  }

  /** A tidy start that an upgrade begins from leaves it shielded; with a known marker, by its own unit. */
  lemma TidyEventIsLawful(w: World, e: Event)
    requires Inv(w) && Possible(w, e) && Tidy(false, w, e)
    ensures Lawful(w, e) && (KnownMarker(Next(w, e).disk) ==> LeavesOwnUnit(w, e))
  {
    if Begins(w, e) {
      RestStart(w, e.start);
      GuardedIsShielded(Started(w, e.start));
    }
  }

  lemma {:induction false} TidyRunIsLawful(knownHeads: bool, w: World, es: seq<Event>)
    requires Inv(w) && TidyRun(knownHeads, w, es) && (knownHeads ==> KnownMarker(w.disk))
    ensures RunBut(None, w, es) && Inv(Exec(w, es))
    ensures knownHeads ==> KnownMarker(Exec(w, es).disk) && AlwaysLeavesOwnUnit(w, es)
    decreases |es|
  {
    if es != [] {
      var init, last := es[..|es| - 1], es[|es| - 1];
      TidyRunIsLawful(knownHeads, w, init);
      var before := Exec(w, init);
      if knownHeads { KnownEventIsTidy(before, last); }
      TidyEventIsLawful(before, last);
      EventKeepsInvariant(before, last);
    }
  }

  /** Tidy runs publish clean units only, each older than what the database rests at. */
  lemma TidyRunsStayClean(w: World, es: seq<Event>)
    requires Initial(w) && TidyRun(false, w, es)
    ensures var end := Exec(w, es);
            && RunBut(None, w, es) && WellFormed(end) && (InFlight(end) ==> Shielded(end))
            && (forall n | n in end.disk.units ::
                  CleanUnit(end.revs, n, end.disk.units[n]) && end.disk.units[n].db.value.applied <= end.rest)
  {
    TidyRunIsLawful(false, w, es);
    OnlyCleanUnitsArePublished(w, es);
  }

  /**
   Tidy runs whose starts can all tell their head need no hypothesis on re-arming, and the
   unit that guards an upgrade in flight is the clean snapshot of the state it started from.
   */
  lemma KnownHeadsKeepTheirOwnUnit(w: World, es: seq<Event>)
    requires Initial(w) && TidyRun(true, w, es)
    ensures var end := Exec(w, es);
            && RunBut(None, w, es) && (forall n | n in end.disk.units :: CleanUnit(end.revs, n, end.disk.units[n]))
            && (InFlight(end) ==>
                  && end.disk.marker.Some? && end.disk.marker.value.backup in end.disk.units
                  && end.disk.units[end.disk.marker.value.backup].db == Some(Database(end.rest, false)))
  {
    TidyRunIsLawful(true, w, es);
    OnlyCleanUnitsArePublished(w, es);
    OwnUnitGuards(w, es);
  }
}
