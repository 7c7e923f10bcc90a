/** What one start's effects do to a disk, whole and cut short by a kill. */
module BackupEffects {
  import opened Wrappers
  import opened BackupDisk
  import opened BackupHook
  import opened BackupPrune

  // ----- disks between two effects

  /** `ok` holds of every disk a kill can leave. */
  ghost predicate Throughout(ok: Disk -> bool, d: Disk, effects: seq<Effect>) {
    forall k :: 0 <= k <= |effects| ==> ok(ApplyAll(d, effects[..k]))
  }

  lemma ThroughoutAppend(ok: Disk -> bool, d: Disk, a: seq<Effect>, b: seq<Effect>)
    requires Throughout(ok, d, a) && Throughout(ok, ApplyAll(d, a), b)
    ensures Throughout(ok, d, a + b)
  {
    forall k | 0 <= k <= |a + b| ensures ok(ApplyAll(d, (a + b)[..k])) {
      if k <= |a| {
        assert (a + b)[..k] == a[..k];
      } else {
        assert (a + b)[..k] == a + b[..k - |a|];
        ApplyAllAppend(d, a, b[..k - |a|]);
      }
    }
  }

  ghost predicate Preserves(ok: Disk -> bool, e: Effect) {
    forall d :: ok(d) ==> ok(Apply(d, e))
  }

  lemma {:induction false} PreservedThroughout(ok: Disk -> bool, d: Disk, effects: seq<Effect>)
    requires ok(d) && forall e | e in effects :: Preserves(ok, e)
    ensures Throughout(ok, d, effects) && ok(ApplyAll(d, effects))
    decreases |effects|
  {
    if effects == [] {
      assert forall k :: 0 <= k <= |effects| ==> effects[..k] == [];
    } else {
      var init, last := effects[..|effects| - 1], effects[|effects| - 1];
      PreservedThroughout(ok, d, init);
      assert last in effects && Preserves(ok, last);
      forall k | 0 <= k <= |effects| ensures ok(ApplyAll(d, effects[..k])) {
        if k < |effects| {
          assert init[..k] == effects[..k];
        } else {
          assert effects[..k] == effects;
        }
      }
    }
  }

  lemma ThroughoutWeaker(ok: Disk -> bool, weaker: Disk -> bool, d: Disk, effects: seq<Effect>)
    requires Throughout(ok, d, effects) && forall x :: ok(x) ==> weaker(x)
    ensures Throughout(weaker, d, effects)
  {
  }

  lemma NoEffects(ok: Disk -> bool, d: Disk)
    requires ok(d)
    ensures Throughout(ok, d, [])
  {
    var none: seq<Effect> := [];
    assert forall k :: 0 <= k <= |none| ==> none[..k] == [];
  }

  lemma {:induction false} Untouched(d: Disk)
    ensures ApplyAll(d, []) == d
  {
  }

  lemma ApplyOne(d: Disk, e: Effect)
    ensures ApplyAll(d, [e]) == Apply(d, e)
  {
    assert [e] == [] + [e];
    ApplyAllSnoc(d, [], e);
  }

  lemma SingleThroughout(ok: Disk -> bool, d: Disk, e: Effect)
    requires ok(d) && ok(Apply(d, e))
    ensures Throughout(ok, d, [e])
  {
    ApplyAllSnoc(d, [], e);
    forall k | 0 <= k <= 1 ensures ok(ApplyAll(d, [e][..k])) {
      assert [e][..k] == if k == 0 then [] else [] + [e];
    }
  }

  // ----- names

  /** Labels hold no dash, so the glob for one finds the units of that revision. */
  lemma PublishedMeansLabel(rev: string, units: map<Name, Dir>)
    requires DashFree(rev) && forall n | n in units :: DashFree(n.rev)
    ensures LabelPublished(rev, units) <==> exists n :: n in units && n.rev == rev
  {
    forall n | n in units ensures GlobHits(rev, n) <==> rev == n.rev {
      GlobHitsOwnLabel(rev, n);
    }
  }

  // ----- building and publishing

  /** An effect that only touches staging directories. */
  predicate StagingOnly(e: Effect) {
    e.MakeStaging? || e.CopyDatabase? || e.CopyKey? || e.WriteManifest? || e.DropStaging?
  }

  lemma OpenResult(env: Env, d: Disk)
    ensures var r := ApplyAll(d, OpenEffects(env));
            && r.units == d.units && r.staging == d.staging[env.UnitName() := Staged(d, env.UnitName())]
            && r.marker == if env.faults.writeMarker then d.marker else Some(env.NewMarker())
  {
    ApplyAllSnoc(d, [], MakeStaging(env.UnitName()));
    if env.faults.writeMarker {
      assert OpenEffects(env) == [] + [MakeStaging(env.UnitName())];
    } else {
      ApplyAllSnoc(d, [MakeStaging(env.UnitName())], WriteMarker(env.NewMarker()));
    }
  }

  lemma CopiesResult(env: Env, d: Disk)
    requires env.db.Some?
    ensures var n := env.UnitName();
            var key := if env.Disposition() == FileIncluded then env.settings.keyFile else Staged(d, n).key;
            ApplyAll(d, [CopyDatabase(n, env.db.value)] + KeyEffects(env))
            == d.(staging := d.staging[n := Staged(d, n).(db := env.db, key := key)])
  {
    var copy := CopyDatabase(env.UnitName(), env.db.value);
    ApplyOne(d, copy);
    ApplyAllAppend(d, [copy], KeyEffects(env));
    if env.Disposition() == FileIncluded {
      ApplyOne(Apply(d, copy), CopyKey(env.UnitName(), env.settings.keyFile.value));
    }
  }

  /** The staged unit, ready to be published: a stale key survives only in a reused directory. */
  lemma BuildResult(env: Env, d: Disk)
    requires env.db.Some?
    ensures var n := env.UnitName();
            var key := if env.Disposition() == FileIncluded then env.settings.keyFile else Staged(d, n).key;
            var r := ApplyAll(d, BuildEffects(env));
            && r.units == d.units
            && Staged(r, n) == Dir(env.db, key, Some(Manifest(env.current, env.Disposition())), env.now)
            && r.marker == if env.faults.writeMarker then d.marker else Some(env.NewMarker())
  {
    var n := env.UnitName();
    var copies := [CopyDatabase(n, env.db.value)] + KeyEffects(env);
    var last := WriteManifest(n, Manifest(env.current, env.Disposition()), env.now);
    OpenResult(env, d);
    CopiesResult(env, ApplyAll(d, OpenEffects(env)));
    BuildInParts(env, d, copies, last);
  }

  lemma BuildInParts(env: Env, d: Disk, copies: seq<Effect>, last: Effect)
    requires env.db.Some?
    requires copies == [CopyDatabase(env.UnitName(), env.db.value)] + KeyEffects(env)
    requires last == WriteManifest(env.UnitName(), Manifest(env.current, env.Disposition()), env.now)
    ensures ApplyAll(d, BuildEffects(env)) == Apply(ApplyAll(ApplyAll(d, OpenEffects(env)), copies), last)
  {
    assert BuildEffects(env) == (OpenEffects(env) + copies) + [last];
    ApplyAllAppend(d, OpenEffects(env), copies);
    ApplyAllSnoc(d, OpenEffects(env) + copies, last);
  }

  lemma PublishedUnit(env: Env, d: Disk)
    requires env.db.Some?
    ensures var n := env.UnitName();
            var published := ApplyAll(d, PublishEffects(env));
            var key := if env.Disposition() == FileIncluded then env.settings.keyFile else Staged(d, n).key;
            published.units
            == d.units[n := Dir(env.db, key, Some(Manifest(env.current, env.Disposition())), env.now)]
  {
    BuildResult(env, d);
    ApplyAllSnoc(d, BuildEffects(env), Publish(env.UnitName()));
  }

  /** The effects of a build, finished or not. */
  lemma BuildParts(env: Env)
    requires env.db.Some?
    ensures forall e | e in FailedBuild(env) || e in BuildEffects(env) ::
              StagingOnly(e) || e == WriteMarker(env.NewMarker())
  {
  }

  lemma {:induction false} SweepsAreDrops(names: seq<Name>, stuck: set<Name>)
    ensures forall e | e in Sweeps(names, stuck) :: e.DropStaging?
    decreases |names|
  {
    if names != [] { SweepsAreDrops(names[..|names| - 1], stuck); }
  }

  lemma {:induction false} RemovalsAreListed(names: seq<Name>, stuck: set<Name>)
    ensures forall e | e in Removals(names, stuck) :: e.RemoveUnit? && e.name in names
    decreases |names|
  {
    if names != [] {
      var init, last := names[..|names| - 1], names[|names| - 1];
      RemovalsAreListed(init, stuck);
      assert names == init + [last];
    }
  }

  lemma HookPruneSpares(env: Env, units: map<Name, Dir>)
    requires env.UnitName() in units
    ensures forall e | e in HookPrune(env, units) ::
              e.DropStaging? || (e.RemoveUnit? && e.name != env.UnitName())
  {
    var n := env.UnitName();
    SweepsAreDrops(env.scan.staging, env.scan.stuckStaging);
    RemovalsAreListed(StaleUnits(env.scan, units, KEEP_COUNT, Some(n)), env.scan.stuckUnits);
    ProtectedIsNeverStale(env.scan, units, KEEP_COUNT, n);
  }

  /** The fresh unit `n` is published, with nothing new beside it. */
  ghost predicate Holds(n: Name, dir: Dir, m: Option<Marker>, bound: set<Name>, d: Disk) {
    n in d.units && d.units[n] == dir && d.marker == m && d.units.Keys <= bound
  }

  lemma PruneHolds(n: Name, dir: Dir, m: Option<Marker>, bound: set<Name>, e: Effect)
    requires e.DropStaging? || (e.RemoveUnit? && e.name != n)
    ensures Preserves((d: Disk) => Holds(n, dir, m, bound, d), e)
  {
  }

  lemma HookPruneHolds(env: Env, bound: set<Name>, d: Disk)
    requires env.UnitName() in d.units && d.units.Keys <= bound
    ensures var after := ApplyAll(d, HookPrune(env, d.units));
            Holds(env.UnitName(), d.units[env.UnitName()], d.marker, bound, after)
  {
    var n, m := env.UnitName(), d.marker;
    var dir, prune := d.units[n], HookPrune(env, d.units);
    HookPruneSpares(env, d.units);
    forall e | e in prune ensures Preserves((x: Disk) => Holds(n, dir, m, bound, x), e) {
      PruneHolds(n, dir, m, bound, e);
    }
    PreservedThroughout((x: Disk) => Holds(n, dir, m, bound, x), d, prune);
  }

  lemma PublishHolds(env: Env, d: Disk)
    requires env.db.Some?
    ensures var n := env.UnitName();
            var published := ApplyAll(d, PublishEffects(env));
            && published.marker == (if env.faults.writeMarker then d.marker else Some(env.NewMarker()))
            && published.units.Keys == d.units.Keys + {n} && published.units[n].db == env.db
  {
    BuildResult(env, d);
    ApplyAllSnoc(d, BuildEffects(env), Publish(env.UnitName()));
  }

  /** A backup none of whose steps raises: the unit is there, and its marker if it could be written. */
  lemma TakeResult(env: Env, d: Disk)
    requires env.db.Some? && !BuildFails(env) && !env.faults.replace
    ensures var n := env.UnitName();
            var plan := TakeBackup(env, d);
            var after := ApplyAll(d, plan.effects);
            && plan.outcome == Backup(n) && n in after.units && after.units[n].db == env.db
            && after.marker == (if env.faults.writeMarker then d.marker else Some(env.NewMarker()))
            && after.units.Keys <= d.units.Keys + {n}
  {
    var n := env.UnitName();
    var published := ApplyAll(d, PublishEffects(env));
    PublishHolds(env, d);
    HookPruneHolds(env, d.units.Keys + {n}, published);
    ApplyAllAppend(d, PublishEffects(env), HookPrune(env, published.units));
  }

  /** A build that raises publishes nothing, and marks what it began if it could. */
  lemma FailedBuildResult(env: Env, d: Disk)
    requires env.db.Some? && BuildFails(env)
    ensures var r := ApplyAll(d, FailedBuild(env));
            && r.units == d.units
            && r.marker == if env.faults.makeStaging || env.faults.writeMarker then d.marker else Some(env.NewMarker())
  {
    if !env.faults.makeStaging {
      OpenResult(env, d);
      OpenAndFill(env);
      FailedFillStages(env);
      ApplyAllAppend(d, OpenEffects(env), FillEffects(env));
      StagingKeeps(ApplyAll(d, OpenEffects(env)), FillEffects(env));
    } else {
      Untouched(d);
    }
  }

  lemma FailedFillStages(env: Env)
    requires env.db.Some? && FillFails(env)
    ensures forall e | e in FillEffects(env) :: StagingOnly(e)
  {
  }

  /** Staging effects touch neither units nor marker. */
  lemma {:induction false} StagingKeeps(d: Disk, effects: seq<Effect>)
    requires forall e | e in effects :: StagingOnly(e)
    ensures var r := ApplyAll(d, effects); r.units == d.units && r.marker == d.marker
    decreases |effects|
  {
    if effects != [] {
      var init, last := effects[..|effects| - 1], effects[|effects| - 1];
      StagingKeeps(d, init);
      assert last in effects && StagingOnly(last);
    }
  }

  /** A raise after the guards leaves the units, and the marker unless it wrote its own. */
  lemma TakeRaises(env: Env, d: Disk)
    requires env.db.Some? && TakeBackup(env, d).outcome == Raised
    ensures var r := ApplyAll(d, TakeBackup(env, d).effects);
            && r.units == d.units
            && r.marker == if env.faults.makeStaging || env.faults.writeMarker then d.marker else Some(env.NewMarker())
  {
    if BuildFails(env) { FailedBuildResult(env, d); } else { BuildResult(env, d); }
  }

  /** A backup leaves its own marker, or, when it could not be written, the one before. */
  lemma BackupMarker(env: Env, d: Disk)
    requires PlanOf(env, d).outcome.Backup?
    ensures var after := ApplyAll(d, PlanOf(env, d).effects);
            after.marker == if !env.faults.writeMarker then Some(env.NewMarker())
                            else if env.faults.readMarker || env.faults.clearMarker then d.marker else None
  {
    var cleared := ApplyAll(d, Clearing(env));
    BackupTakes(env, d);
    ClearingResult(env, d);
    if ReadMarker(env, d).None? {
      TakeResult(env, d);
    } else {
      TakeResult(env, cleared);
      ApplyAllAppend(d, Clearing(env), TakeBackup(env, cleared).effects);
    }
  }

  /** A start that takes its backup leaves the unit, and its marker if it could be written. */
  lemma BackupEnds(env: Env, d: Disk)
    requires PlanOf(env, d).outcome.Backup? && !env.faults.writeMarker
    ensures var after := ApplyAll(d, PlanOf(env, d).effects);
            && PlanOf(env, d).outcome == Backup(env.UnitName()) && env.UnitName() in after.units
            && after.units[env.UnitName()].db == env.db && after.marker == Some(env.NewMarker())
  {
    var cleared := ApplyAll(d, Clearing(env));
    BackupTakes(env, d);
    if PlanOf(env, d) == TakeBackup(env, d) {
      TakeResult(env, d);
    } else {
      TakeResult(env, cleared);
      ApplyAllAppend(d, Clearing(env), TakeBackup(env, cleared).effects);
    }
  }

  // ----- what a whole start keeps

  /** `ok` survives every effect of a start but the publication. */
  ghost predicate Tolerates(ok: Disk -> bool, env: Env) {
    && (forall e | StagingOnly(e) :: Preserves(ok, e))
    && (forall e: Effect | e.RemoveUnit? :: Preserves(ok, e))
    && Preserves(ok, ClearMarker)
    && (env.current != env.head ==> Preserves(ok, WriteMarker(env.NewMarker())))
  }

  lemma PruneThroughout(ok: Disk -> bool, env: Env, d: Disk)
    requires Tolerates(ok, env) && ok(d)
    ensures Throughout(ok, d, HookPrune(env, d.units))
  {
    SweepsAreDrops(env.scan.staging, env.scan.stuckStaging);
    RemovalsAreListed(StaleUnits(env.scan, d.units, KEEP_COUNT, Some(env.UnitName())), env.scan.stuckUnits);
    forall e | e in HookPrune(env, d.units) ensures Preserves(ok, e) {
      assert StagingOnly(e) || e.RemoveUnit?;
    }
    PreservedThroughout(ok, d, HookPrune(env, d.units));
  }

  lemma BuildThroughout(ok: Disk -> bool, env: Env, d: Disk, effects: seq<Effect>)
    requires Tolerates(ok, env) && ok(d) && env.db.Some? && env.current != env.head
    requires effects == FailedBuild(env) || effects == BuildEffects(env)
    ensures Throughout(ok, d, effects) && ok(ApplyAll(d, effects))
  {
    BuildParts(env);
    forall e | e in effects ensures Preserves(ok, e) {
      assert StagingOnly(e) || e == WriteMarker(env.NewMarker());
    }
    PreservedThroughout(ok, d, effects);
  }

  lemma TakeThroughout(ok: Disk -> bool, env: Env, d: Disk)
    requires Tolerates(ok, env) && ok(d) && env.db.Some? && env.current != env.head
    requires TakeBackup(env, d).outcome.Backup? ==> ok(ApplyAll(d, PublishEffects(env)))
    ensures Throughout(ok, d, TakeBackup(env, d).effects)
  {
    if BuildFails(env) {
      BuildThroughout(ok, env, d, FailedBuild(env));
    } else {
      BuildThroughout(ok, env, d, BuildEffects(env));
      if !env.faults.replace {
        var published := ApplyAll(d, PublishEffects(env));
        ApplyAllSnoc(d, BuildEffects(env), Publish(env.UnitName()));
        SingleThroughout(ok, ApplyAll(d, BuildEffects(env)), Publish(env.UnitName()));
        ThroughoutAppend(ok, d, BuildEffects(env), [Publish(env.UnitName())]);
        PruneThroughout(ok, env, published);
        ThroughoutAppend(ok, d, PublishEffects(env), HookPrune(env, published.units));
      }
    }
  }

  /** Clearing the marker touches neither units nor staging directories. */
  lemma ClearingResult(env: Env, d: Disk)
    ensures ApplyAll(d, Clearing(env)) == if env.faults.clearMarker then d else d.(marker := None)
  {
    Untouched(d);
    ApplyOne(d, ClearMarker);
  }

  lemma ClearingThroughout(ok: Disk -> bool, env: Env, d: Disk)
    requires Tolerates(ok, env) && ok(d)
    ensures Throughout(ok, d, Clearing(env)) && ok(ApplyAll(d, Clearing(env)))
  {
    PreservedThroughout(ok, d, Clearing(env));
  }

  /** Whatever survives every other effect and the publication survives a start killed anywhere. */
  lemma StartThroughout(ok: Disk -> bool, env: Env, d: Disk)
    requires Tolerates(ok, env) && ok(d)
    requires PlanOf(env, d).outcome.Backup? ==>
               forall x: Disk | x.units == d.units && x.staging == d.staging && ok(x) :: ok(ApplyAll(x, PublishEffects(env)))
    ensures Throughout(ok, d, PlanOf(env, d).effects)
  {
    NoEffects(ok, d);
    ClearingThroughout(ok, env, d);
    ClearingResult(env, d);
    var plan, cleared := PlanOf(env, d), ApplyAll(d, Clearing(env));
    if Takes(env, d) {
      if plan == TakeBackup(env, d) {
        TakeThroughout(ok, env, d);
      } else {
        TakeThroughout(ok, env, cleared);
        ThroughoutAppend(ok, d, Clearing(env), TakeBackup(env, cleared).effects);
      }
    }
  }

  /** The start takes a backup, at once or after clearing the marker. */
  ghost predicate Takes(env: Env, d: Disk) {
    var plan, cleared := PlanOf(env, d), ApplyAll(d, Clearing(env));
    && env.db.Some? && env.current != env.head && !LabelPublished(env.FromLabel(), d.units)
    && (plan == TakeBackup(env, d) || plan == After(Clearing(env), TakeBackup(env, cleared)))
  }

  lemma BackupTakes(env: Env, d: Disk)
    requires PlanOf(env, d).outcome.Backup?
    ensures Takes(env, d)
  {
  }

  /** A backup passes through the disk its publication leaves, but for a cleared marker. */
  lemma PublicationPoint(env: Env, d: Disk) returns (k: nat, x: Disk)
    requires PlanOf(env, d).outcome.Backup?
    ensures env.db.Some? && k <= |PlanOf(env, d).effects| && x.units == d.units && x.staging == d.staging
    ensures ApplyAll(d, PlanOf(env, d).effects[..k]) == ApplyAll(x, PublishEffects(env))
  {
    var plan := PlanOf(env, d);
    ClearingResult(env, d);
    BackupTakes(env, d);
    if plan == TakeBackup(env, d) {
      k, x := |PublishEffects(env)|, d;
      assert plan.effects[..k] == PublishEffects(env);
    } else {
      k, x := |Clearing(env)| + |PublishEffects(env)|, ApplyAll(d, Clearing(env));
      assert plan.effects[..k] == Clearing(env) + PublishEffects(env);
      ApplyAllAppend(d, Clearing(env), PublishEffects(env));
    }
  }
}
