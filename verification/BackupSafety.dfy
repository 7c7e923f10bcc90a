/** What every lawful event keeps: clean units, and a shield over every upgrade. */
module BackupSafety {
  import opened Wrappers
  import opened BackupDisk
  import opened BackupHook
  import opened BackupEffects
  import opened BackupProtocol

  /** A unit that is a clean snapshot of a fully stamped database, at the revision it names. */
  predicate CleanUnit(revs: seq<string>, n: Name, d: Dir) {
    && d.db.Some? && !d.db.value.dirty && d.db.value.applied <= |revs|
    && n.rev == LabelAt(revs, d.db.value.applied)
  }

  /** Clean units, one per revision, and a marker whose head is not the revision it starts from. */
  ghost predicate CleanDisk(revs: seq<string>, d: Disk) {
    && (forall n | n in d.units :: CleanUnit(revs, n, d.units[n]))
    && (forall m, n | m in d.units && n in d.units && m.rev == n.rev :: m == n)
    && (d.marker.Some? ==> d.marker.value.head != d.marker.value.backup.rev)
  }

  ghost predicate Sound(w: World) {
    && WellFormed(w) && ValidHistory(w.revs) && w.db.Some? && CleanDisk(w.revs, w.disk)
    && (InFlight(w) ==> w.rest <= w.db.value.applied < w.image)
    && (InFlight(w) || (w.migrating && w.rest < w.image) ==> Shielded(w))
  }

  lemma CleanNames(revs: seq<string>, d: Disk, i: nat)
    requires ValidHistory(revs) && CleanDisk(revs, d) && i <= |revs|
    ensures LabelPublished(LabelAt(revs, i), d.units) <==> exists n :: n in d.units && n.rev == LabelAt(revs, i)
  {
    LabelsDiffer(revs, i, i);
    forall n | n in d.units ensures DashFree(n.rev) {
      LabelsDiffer(revs, d.units[n].db.value.applied, i);
    }
    PublishedMeansLabel(LabelAt(revs, i), d.units);
  }

  // ----- a start at rest

  /** A start that finds the database at rest, off the head it sees. */
  ghost predicate OffHead(w: World, s: Start) {
    && WellFormed(w) && ValidHistory(w.revs) && w.db == Some(Database(w.rest, false))
    && EnvOf(w, s).current != EnvOf(w, s).head
  }

  lemma NewMarkerIs(w: World, s: Start)
    requires OffHead(w, s)
    ensures var m := EnvOf(w, s).NewMarker();
            && m.backup == EnvOf(w, s).UnitName() == Name(LabelAt(w.revs, w.rest), s.timestamp)
            && m.head == (if s.headKnown && w.image > 0 then LabelAt(w.revs, w.image) else UNKNOWN_HEAD)
            && m.head != m.backup.rev
  {
    LabelsDiffer(w.revs, w.rest, w.image);
    LabelsDiffer(w.revs, w.image, w.rest);
  }

  lemma CleanIsTolerant(w: World, s: Start)
    requires WellFormed(w) && ValidHistory(w.revs) && w.db == Some(Database(w.rest, false))
    ensures Tolerates((d: Disk) => CleanDisk(w.revs, d), EnvOf(w, s))
  {
    var ok, env := (d: Disk) => CleanDisk(w.revs, d), EnvOf(w, s);
    if env.current != env.head { NewMarkerIs(w, s); }
    forall e: Effect | !e.Publish? && (e.WriteMarker? ==> env.current != env.head && e.marker == env.NewMarker())
      ensures Preserves(ok, e)
    {
      EffectKeepsClean(w.revs, e);
    }
  }

  lemma EffectKeepsClean(revs: seq<string>, e: Effect)
    requires !e.Publish? && (e.WriteMarker? ==> e.marker.head != e.marker.backup.rev)
    ensures Preserves((d: Disk) => CleanDisk(revs, d), e)
  {
    forall d | CleanDisk(revs, d) ensures CleanDisk(revs, Apply(d, e)) {
      assert forall n | n in Apply(d, e).units :: n in d.units && Apply(d, e).units[n] == d.units[n];
    }
  }

  lemma PublishIsClean(w: World, s: Start, d: Disk)
    requires OffHead(w, s) && CleanDisk(w.revs, d) && !LabelPublished(LabelAt(w.revs, w.rest), d.units)
    ensures CleanDisk(w.revs, ApplyAll(d, PublishEffects(EnvOf(w, s))))
  {
    var env := EnvOf(w, s);
    NewMarkerIs(w, s);
    CleanNames(w.revs, d, w.rest);
    PublishedUnit(env, d);
    PublishHolds(env, d);
  }

  /** A start at rest leaves a clean disk, wherever it is killed. */
  lemma RestStartIsClean(w: World, s: Start)
    requires Sound(w) && !InFlight(w)
    ensures Throughout((d: Disk) => CleanDisk(w.revs, d), w.disk, PlanAt(w, s).effects)
  {
    var ok, env := (d: Disk) => CleanDisk(w.revs, d), EnvOf(w, s);
    assert w.db == Some(Database(w.rest, false));
    CleanIsTolerant(w, s);
    if PlanOf(env, w.disk).outcome.Backup? {
      BackupTakes(env, w.disk);
      LabelsDiffer(w.revs, w.rest, w.rest);
      forall x: Disk | x.units == w.disk.units && x.staging == w.disk.staging && ok(x)
        ensures ok(ApplyAll(x, PublishEffects(env)))
      {
        PublishIsClean(w, s, x);
      }
    }
    StartThroughout(ok, env, w.disk);
  }

  /** A start at rest that an upgrade begins from. */
  ghost predicate AtStart(w: World, s: Start) {
    Sound(w) && Begins(w, Boot(s))
  }

  /** A backup whose marker is written shields the upgrade that follows, with its own unit. */
  lemma BackupShields(w: World, s: Start)
    requires AtStart(w, s) && PlanAt(w, s).outcome.Backup? && !s.faults.writeMarker
    ensures Shielded(Started(w, s)) && Started(w, s).disk.marker.value.backup.rev == LabelAt(w.revs, w.rest)
  {
    var env := EnvOf(w, s);
    BackupTakes(env, w.disk);
    NewMarkerIs(w, s);
    BackupEnds(env, w.disk);
    forall j | w.rest <= j < w.image ensures Some(env.NewMarker().head) != Stamp(w.revs, j) {
      LabelsDiffer(w.revs, j, w.image);
    }
  }

  /** No start clears the marker for its head before the image's head is reached. */
  predicate HeadShields(w: World)
    requires WellFormed(w)
  {
    w.disk.marker.Some? && forall j :: w.rest <= j < w.image ==> Some(w.disk.marker.value.head) != Stamp(w.revs, j)
  }

  /**
   A backup whose marker cannot be written shields exactly when the marker there before is
   kept, its head shields, and the unit it names is there after the prune.
   */
  lemma UnwrittenMarkerShieldsIff(w: World, s: Start)
    requires AtStart(w, s) && PlanAt(w, s).outcome.Backup? && s.faults.writeMarker
    ensures Shielded(Started(w, s))
       <==> (s.faults.readMarker || s.faults.clearMarker) && HeadShields(w)
            && w.disk.marker.value.backup in Started(w, s).disk.units
  {
    BackupMarker(EnvOf(w, s), w.disk);
  }

  /** A start that skips the backup before an upgrade changes nothing, so it shields when shielded. */
  lemma SkippedBackup(w: World, s: Start)
    requires WellFormed(w) && ValidHistory(w.revs) && Begins(w, Boot(s)) && PlanAt(w, s).outcome == NoBackup
    ensures Started(w, s) == w
  {
    LabelsDiffer(w.revs, w.rest, w.image);
    var env := EnvOf(w, s);
    if MarkerPlan(env, w.disk).outcome == NoBackup {
      assert MarkerPlan(env, w.disk).effects == [];
    }
    Untouched(w.disk);
  }

  /**
   A hook that raises before an upgrade shields exactly when it was shielded already and the
   hook raised before its own marker was written, or could not write it.
   */
  lemma RaisedHookShieldsIff(w: World, s: Start)
    requires AtStart(w, s) && PlanAt(w, s).outcome == Raised
    ensures Shielded(Started(w, s))
       <==> Shielded(w) && (s.faults.readRevision || s.faults.makeStaging || s.faults.writeMarker)
  {
    var env, d := EnvOf(w, s), w.disk;
    Untouched(d);
    if !s.faults.readRevision {
      var cleared := ApplyAll(d, Clearing(env));
      LabelsDiffer(w.revs, w.rest, w.image);
      NewUnitIsNew(w, s);
      ClearingResult(env, d);
      if ReadMarker(env, d).None? {
        TakeRaises(env, d);
      } else {
        TakeRaises(env, cleared);
        ApplyAllAppend(d, Clearing(env), TakeBackup(env, cleared).effects);
      }
    }
  }

  /** Past the guards the unit to be published is not there yet. */
  lemma NewUnitIsNew(w: World, s: Start)
    requires AtStart(w, s) && !LabelPublished(EnvOf(w, s).FromLabel(), w.disk.units)
    ensures EnvOf(w, s).UnitName() !in w.disk.units
  {
    var n := EnvOf(w, s).UnitName();
    LabelsDiffer(w.revs, w.rest, w.rest);
    GlobHitsOwnLabel(n.rev, n);
  }

  // ----- a start in flight

  /** Under the shield a start changes nothing. */
  lemma ShieldedIsSilent(w: World, s: Start)
    requires WellFormed(w) && ValidHistory(w.revs) && w.db.Some? && Shielded(w) && !s.faults.readMarker
    requires w.rest <= w.db.value.applied < w.image
    ensures PlanAt(w, s).effects == []
  {
    LabelsDiffer(w.revs, w.db.value.applied, w.image);
    assert Some(w.disk.marker.value.head) != Stamp(w.revs, w.db.value.applied);
  }

  // ----- every event

  lemma BootKeepsSound(w: World, s: Start)
    requires Sound(w) && Possible(w, Boot(s)) && Lawful(w, Boot(s))
    ensures Sound(Next(w, Boot(s)))
  {
    var effects := PlanAt(w, s).effects;
    if InFlight(w) {
      ShieldedIsSilent(w, s);
      Untouched(w.disk);
    } else {
      var ok := (d: Disk) => CleanDisk(w.revs, d);
      RestStartIsClean(w, s);
      assert effects[..|effects|] == effects;
      assert ok(ApplyAll(w.disk, effects[..|effects|]));
    }
  }

  lemma KillKeepsSound(w: World, s: Start, k: nat)
    requires Sound(w) && Possible(w, Kill(s, k)) && Lawful(w, Kill(s, k))
    ensures Sound(Next(w, Kill(s, k)))
  {
    var effects := PlanAt(w, s).effects;
    if InFlight(w) {
      ShieldedIsSilent(w, s);
      Untouched(w.disk);
      assert effects[..k] == [];
    } else {
      var ok := (d: Disk) => CleanDisk(w.revs, d);
      RestStartIsClean(w, s);
      assert ok(ApplyAll(w.disk, effects[..k]));
    }
  }

  lemma EventKeepsSound(w: World, e: Event)
    requires Sound(w) && Possible(w, e) && Lawful(w, e)
    ensures Sound(Next(w, e))
  {
    match e
    case Boot(s) => BootKeepsSound(w, s);
    case Kill(s, k) => KillKeepsSound(w, s, k);
    case ApplyPart =>
    case StampNext =>
    case Halt =>
    case Install(_) =>
    case Archive(n) =>
      assert forall m | m in Next(w, e).disk.units :: m in w.disk.units && Next(w, e).disk.units[m] == w.disk.units[m];
    case Restore(_, _) =>
      assert forall m | m in Next(w, e).disk.units :: m in w.disk.units && Next(w, e).disk.units[m] == w.disk.units[m];
  }

  // ----- sturdy starts

  /** The marker can be read and written. */
  predicate MarkerWorks(e: Event) {
    (e.Boot? || e.Kill?) ==> !e.start.faults.readMarker && !e.start.faults.writeMarker
  }

  /** A hook that raises is not followed by a migration. */
  predicate RaiseStops(w: World, e: Event)
    requires WellFormed(w)
  {
    e.Boot? ==> PlanAt(w, e.start).outcome != Raised
  }

  /** A start that takes no backup before an upgrade finds it shielded. */
  predicate SkipsShielded(w: World, e: Event)
    requires WellFormed(w)
  {
    Begins(w, e) && PlanAt(w, e.start).outcome == NoBackup ==> Shielded(w)
  }

  /** Sturdy starts need no other hypothesis on the marker and on beginnings. */
  lemma SturdyIsLawful(w: World, e: Event)
    requires Sound(w) && Possible(w, e) && MarkerWorks(e) && RaiseStops(w, e) && SkipsShielded(w, e)
    requires ImageSteady(w, e) && GuardStays(w, e) && HasDatabase(w, e)
    ensures Lawful(w, e)
  {
    if Begins(w, e) {
      if PlanAt(w, e.start).outcome == NoBackup { SkippedBackup(w, e.start); } else { BackupShields(w, e.start); }
    }
  }
}
