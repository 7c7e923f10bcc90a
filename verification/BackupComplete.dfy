/**
 Whatever fails and wherever the hook dies: a directory visible under the backup prefix
 is a complete recovery unit, and there is at most one per from-revision, unless a staging
 directory is reused that still holds a key the reusing start does not want.
 */
module BackupComplete {
  import opened Wrappers
  import opened BackupDisk
  import opened BackupHook
  import opened BackupEffects

  ghost predicate UnitsComplete(d: Disk) {
    && (forall n | n in d.units :: Complete(d.units[n]) && DashFree(n.rev))
    && (forall m, n | m in d.units && n in d.units && m.rev == n.rev :: m == n)
  }

  /** One start, killed after `effects` durable effects; any step may fail. */
  datatype KilledStart = KilledStart(env: Env, effects: nat)

  function AfterStart(d: Disk, s: KilledStart): Disk {
    var plan := PlanOf(s.env, d);
    ApplyAll(d, plan.effects[..if s.effects < |plan.effects| then s.effects else |plan.effects|])
  }

  function AfterStarts(d: Disk, starts: seq<KilledStart>): Disk {
    if starts == [] then d else AfterStart(AfterStarts(d, starts[..|starts| - 1]), starts[|starts| - 1])
  }

  /** The start copies a key of its own, or its staging directory holds none. */
  predicate NoStaleKey(d: Disk, env: Env) {
    env.Disposition() == FileIncluded || Staged(d, env.UnitName()).key == None
  }

  /** Every start has a plain label, and one that takes a backup finds no stale key. */
  predicate NoStaleKeys(d: Disk, starts: seq<KilledStart>) {
    starts == [] ||
    (var init, last := starts[..|starts| - 1], starts[|starts| - 1];
     && NoStaleKeys(d, init) && DashFree(last.env.FromLabel())
     && (PlanOf(last.env, AfterStarts(d, init)).outcome.Backup? ==> NoStaleKey(AfterStarts(d, init), last.env)))
  }

  /** Exactly when a published unit is complete. */
  lemma CompleteUnlessStaleKey(env: Env, d: Disk)
    requires env.db.Some?
    ensures Complete(ApplyAll(d, PublishEffects(env)).units[env.UnitName()]) <==> NoStaleKey(d, env)
  {
    PublishedUnit(env, d);
  }

  lemma PublishKeepsComplete(env: Env, d: Disk)
    requires env.db.Some? && UnitsComplete(d) && DashFree(env.FromLabel()) && NoStaleKey(d, env)
    requires !LabelPublished(env.FromLabel(), d.units)
    ensures UnitsComplete(ApplyAll(d, PublishEffects(env)))
  {
    PublishedUnit(env, d);
    CompleteUnlessStaleKey(env, d);
    PublishedMeansLabel(env.FromLabel(), d.units);
  }

  lemma CompleteIsTolerant(env: Env)
    ensures Tolerates((d: Disk) => UnitsComplete(d), env)
  {
    var ok := (d: Disk) => UnitsComplete(d);
    forall e: Effect | !e.Publish? ensures Preserves(ok, e) {
      forall d | ok(d) ensures ok(Apply(d, e)) {
        assert forall n | n in Apply(d, e).units :: n in d.units && Apply(d, e).units[n] == d.units[n];
      }
    }
  }

  /** One start, dying anywhere: its units stay complete exactly when its backup finds no stale key. */
  lemma StartIsComplete(env: Env, d: Disk)
    requires UnitsComplete(d) && DashFree(env.FromLabel())
    ensures Throughout((x: Disk) => UnitsComplete(x), d, PlanOf(env, d).effects)
       <==> (PlanOf(env, d).outcome.Backup? ==> NoStaleKey(d, env))
  {
    var ok := (x: Disk) => UnitsComplete(x);
    var plan := PlanOf(env, d);
    if !plan.outcome.Backup? || NoStaleKey(d, env) {
      CompleteIsTolerant(env);
      if plan.outcome.Backup? {
        BackupTakes(env, d);
        forall x: Disk | x.units == d.units && x.staging == d.staging && ok(x)
          ensures ok(ApplyAll(x, PublishEffects(env)))
        {
          PublishKeepsComplete(env, x);
        }
      }
      StartThroughout(ok, env, d);
    } else {
      var k, x := PublicationPoint(env, d);
      PublishedUnit(env, x);
      CompleteUnlessStaleKey(env, x);
      assert !ok(ApplyAll(d, plan.effects[..k]));
    }
  }

  /**
   Any number of starts, each with any faults and killed at any effect, staging directories
   reused or not: every visible unit holds database and manifest, holds a key file exactly
   when the manifest says so, and is the only one of its from-revision.
   */
  lemma {:induction false} VisibleUnitsAreComplete(d: Disk, starts: seq<KilledStart>)
    requires UnitsComplete(d) && NoStaleKeys(d, starts)
    ensures UnitsComplete(AfterStarts(d, starts))
    decreases |starts|
  {
    if starts != [] {
      var init, last := starts[..|starts| - 1], starts[|starts| - 1];
      VisibleUnitsAreComplete(d, init);
      var before := AfterStarts(d, init);
      StartIsComplete(last.env, before);
      var effects := PlanOf(last.env, before).effects;
      var k := if last.effects < |effects| then last.effects else |effects|;
      var ok := (x: Disk) => UnitsComplete(x);
      assert ok(ApplyAll(before, effects[..k]));
    }
  }

  // ----- what the condition is for

  /** A start that takes its backup at once: nothing published, no marker, nothing fails. */
  predicate Backs(env: Env, d: Disk) {
    && env.settings.onDiskSqlite && env.db.Some? && env.current != env.head && env.inGraph
    && env.faults == Faults(false, false, false, false, false, false, false, false, false, false)
    && env.FromLabel() != "" && DashFree(env.FromLabel()) && d.units == map[]
  }

  /** A killed copy leaves the key in the staging directory. */
  lemma KilledAfterKey(env: Env)
    requires Backs(env, Disk(map[], map[], None)) && env.Disposition() == FileIncluded
    ensures var d := AfterStart(Disk(map[], map[], None), KilledStart(env, |BuildEffects(env)| - 1));
            && d.units == map[] && d.marker == Some(env.NewMarker())
            && Staged(d, env.UnitName()).key == env.settings.keyFile
  {
    var empty, k := Disk(map[], map[], None), |BuildEffects(env)| - 1;
    var copies := [CopyDatabase(env.UnitName(), env.db.value)] + KeyEffects(env);
    var effects := PlanOf(env, empty).effects;
    var parts := OpenEffects(env) + copies;
    assert effects[..k] == BuildEffects(env)[..k] == parts;
    OpenResult(env, empty);
    CopiesResult(env, ApplyAll(empty, OpenEffects(env)));
    ApplyAllAppend(empty, OpenEffects(env), copies);
  }

  /**
   From an empty disk: a start with a key file is killed before its manifest, and a start in
   the same second with the override set publishes the key that is not its own.
   */
  lemma StaleKeyIsPublished(env: Env, override: string)
    requires Backs(env, Disk(map[], map[], None)) && env.Disposition() == FileIncluded && override != ""
    ensures var retry := env.(settings := env.settings.(fernetKey := Some(override)));
            var starts := [KilledStart(env, |BuildEffects(env)| - 1), KilledStart(retry, |PublishEffects(retry)| + 1)];
            var end := AfterStarts(Disk(map[], map[], None), starts);
            && env.UnitName() in end.units && !Complete(end.units[env.UnitName()])
            && !NoStaleKeys(Disk(map[], map[], None), starts)
  {
    var empty := Disk(map[], map[], None);
    var retry := env.(settings := env.settings.(fernetKey := Some(override)));
    var one, two := KilledStart(env, |BuildEffects(env)| - 1), KilledStart(retry, |PublishEffects(retry)| + 1);
    KilledAfterKey(env);
    var d := AfterStart(empty, one);
    assert [one, two][..1] == [one] && [one][..0] == [];
    assert AfterStarts(empty, [one]) == d by { assert AfterStarts(empty, []) == empty; }
    RetryPublishes(retry, d);
    if NoStaleKeys(empty, [one, two]) { VisibleUnitsAreComplete(empty, [one, two]); }
  }

  /** A retry that finds the marker of a unit never published clears it and publishes. */
  lemma RetryPublishes(env: Env, d: Disk)
    requires Backs(env, d) && d.marker.Some? && !NoStaleKey(d, env)
    ensures var end := AfterStart(d, KilledStart(env, |PublishEffects(env)| + 1));
            env.UnitName() in end.units && !Complete(end.units[env.UnitName()])
  {
    var cleared := d.(marker := None);
    var effects := PlanOf(env, d).effects;
    var k := |PublishEffects(env)| + 1;
    ClearingResult(env, d);
    assert effects[..k] == [ClearMarker] + PublishEffects(env);
    ApplyAllAppend(d, [ClearMarker], PublishEffects(env));
    PublishedUnit(env, cleared);
    CompleteUnlessStaleKey(env, cleared);
  }
}
