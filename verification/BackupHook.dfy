/**
 The container entrypoint's backup hook, `create_pre_migration_backup`: a specification
 of which durable effects one start performs, and the hook itself, proved to perform
 exactly those in that order.
 */
module BackupHook {
  import opened Wrappers
  import opened Sequences
  import opened BackupDisk

  /** Which steps of this start fail. `copyKey` only matters when a key file is copied. */
  datatype Faults = Faults(
    readRevision: bool, readMarker: bool, clearMarker: bool, makeStaging: bool, writeMarker: bool,
    snapshot: bool, copyKey: bool, writeManifest: bool, cleanup: bool, replace: bool)

  /** The override wins whenever it is set to a non-empty value. */
  datatype Settings = Settings(onDiskSqlite: bool, fernetKey: Option<string>, keyFile: Option<string>) {
    predicate OverrideConfigured() {
      fernetKey.Some? && fernetKey.value != ""
    }
  }

  /** Everything one start observes. */
  datatype Env = Env(
    settings: Settings, db: Option<Database>, current: Option<string>, head: Option<string>,
    inGraph: bool, timestamp: string, now: int, scan: Scan, faults: Faults)
  {
    function FromLabel(): string {
      if current.Some? && current.value != "" then current.value else BASE
    }

    function UnitName(): Name {
      Name(FromLabel(), timestamp)
    }

    function NewMarker(): Marker {
      Marker(FromLabel(), if head.Some? then head.value else UNKNOWN_HEAD, UnitName())
    }

    function Disposition(): KeyDisposition {
      if settings.OverrideConfigured() then EnvOverride
      else if settings.keyFile.None? then Missing
      else FileIncluded
    }
  }

  datatype Outcome = NoBackup | Backup(name: Name) | Raised

  datatype Plan = Plan(effects: seq<Effect>, outcome: Outcome)

  function Clearing(env: Env): seq<Effect> {
    if env.faults.clearMarker then [] else [ClearMarker]
  }

  function Cleanup(env: Env): seq<Effect> {
    if env.faults.cleanup then [] else [DropStaging(env.UnitName())]
  }

  function OpenEffects(env: Env): seq<Effect> {
    [MakeStaging(env.UnitName())] + if env.faults.writeMarker then [] else [WriteMarker(env.NewMarker())]
  }

  function KeyEffects(env: Env): seq<Effect> {
    if env.Disposition() == FileIncluded then [CopyKey(env.UnitName(), env.settings.keyFile.value)] else []
  }

  /** Staging, marker, snapshot, key and manifest: all that precedes publication. */
  function BuildEffects(env: Env): seq<Effect>
    requires env.db.Some?
  {
    OpenEffects(env) + [CopyDatabase(env.UnitName(), env.db.value)] + KeyEffects(env)
    + [WriteManifest(env.UnitName(), Manifest(env.current, env.Disposition()), env.now)]
  }

  /** Whether a step before the rename raises. */
  predicate BuildFails(env: Env) {
    || env.faults.makeStaging || env.faults.snapshot || env.faults.writeManifest
    || (env.Disposition() == FileIncluded && env.faults.copyKey)
  }

  /** What a build that raises leaves behind. */
  function FailedBuild(env: Env): seq<Effect>
    requires env.db.Some?
  {
    if env.faults.makeStaging then []
    else if env.faults.snapshot then OpenEffects(env) + Cleanup(env)
    else
      OpenEffects(env) + [CopyDatabase(env.UnitName(), env.db.value)]
      + (if env.faults.copyKey then [] else KeyEffects(env)) + Cleanup(env)
  }

  predicate FillFails(env: Env) {
    env.faults.snapshot || env.faults.writeManifest || (env.Disposition() == FileIncluded && env.faults.copyKey)
  }

  /** The snapshot, and the key file when it is copied. */
  function Copies(env: Env): seq<Effect>
    requires env.db.Some?
  {
    [CopyDatabase(env.UnitName(), env.db.value)] + if env.faults.copyKey then [] else KeyEffects(env)
  }

  /** What follows the marker, up to the manifest or to the step that raises. */
  function FillEffects(env: Env): seq<Effect>
    requires env.db.Some?
  {
    if env.faults.snapshot then Cleanup(env)
    else Copies(env) + if FillFails(env) then Cleanup(env)
                       else [WriteManifest(env.UnitName(), Manifest(env.current, env.Disposition()), env.now)]
  }

  lemma OpenAndFill(env: Env)
    requires env.db.Some? && !env.faults.makeStaging
    ensures (if FillFails(env) then FailedBuild(env) else BuildEffects(env)) == OpenEffects(env) + FillEffects(env)
  {
  }

  function PublishEffects(env: Env): seq<Effect>
    requires env.db.Some?
  {
    BuildEffects(env) + [Publish(env.UnitName())]
  }

  /** An unknown head never prunes. */
  function HookPrune(env: Env, units: map<Name, Dir>): seq<Effect> {
    if env.head == Some(UNKNOWN_HEAD) then []
    else PruneEffects(env.scan, units, KEEP_COUNT, Some(env.UnitName()))
  }

  /** Build, publish by one rename, then prune. */
  function TakeBackup(env: Env, d: Disk): Plan
    requires env.db.Some?
  {
    if BuildFails(env) then Plan(FailedBuild(env), Raised)
    else if env.faults.replace then Plan(BuildEffects(env), Raised)
    else
      Plan(PublishEffects(env) + HookPrune(env, ApplyAll(d, PublishEffects(env)).units), Backup(env.UnitName()))
  }

  predicate LabelPublished(rev: string, units: map<Name, Dir>) {
    exists n | n in units :: GlobHits(rev, n)
  }

  function ReadMarker(env: Env, d: Disk): Option<Marker> {
    if env.faults.readMarker then None else d.marker
  }

  function After(first: seq<Effect>, rest: Plan): Plan {
    Plan(first + rest.effects, rest.outcome)
  }

  /** A marker that still guards a published unit stops the hook; any other is cleared. */
  function MarkerPlan(env: Env, d: Disk): Plan
    requires env.db.Some?
  {
    match ReadMarker(env, d)
    case None => TakeBackup(env, d)
    case Some(m) =>
      if Some(m.head) == env.current || m.backup !in d.units then
        After(Clearing(env), TakeBackup(env, ApplyAll(d, Clearing(env))))
      else Plan([], NoBackup)
  }

  /** The durable effects of one start, and how it ends. */
  function PlanOf(env: Env, d: Disk): Plan {
    if !env.settings.onDiskSqlite || env.db.None? then Plan([], NoBackup)
    else if env.faults.readRevision then Plan([], Raised)
    else if env.current == env.head then Plan(Clearing(env), NoBackup)
    else if env.current.Some? && env.head != Some(UNKNOWN_HEAD) && !env.inGraph then Plan([], NoBackup)
    else if LabelPublished(env.FromLabel(), d.units) then Plan([], NoBackup)
    else MarkerPlan(env, d)
  }

  ghost predicate StepAt(trail: seq<Disk>, done: seq<Effect>, i: nat)
    requires i < |done| && |trail| == |done| + 1
  {
    trail[i + 1] == Apply(trail[i], done[i])
  }

  ghost predicate Chained(trail: seq<Disk>, done: seq<Effect>) {
    |trail| == |done| + 1 && forall i :: 0 <= i < |done| ==> StepAt(trail, done, i)
  }

  /** The disk between two effects is what the effects so far make of the first disk. */
  lemma {:induction false} ChainedIsApplyAll(trail: seq<Disk>, done: seq<Effect>, from: nat, k: nat)
    requires Chained(trail, done) && from + k <= |done|
    ensures trail[from + k] == ApplyAll(trail[from], done[from..from + k])
    decreases k
  {
    if k > 0 {
      ChainedIsApplyAll(trail, done, from, k - 1);
      assert StepAt(trail, done, from + k - 1);
      ApplyAllSnoc(trail[from], done[from..from + k - 1], done[from + k - 1]);
      assert done[from..from + k] == done[from..from + k - 1] + [done[from + k - 1]];
    }
  }

  /** `disks` are what a process leaves that is killed after 0, 1, ... of `effects`. */
  ghost predicate KilledAt(start: Disk, effects: seq<Effect>, disks: seq<Disk>) {
    && |disks| == |effects| + 1
    && forall k :: 0 <= k <= |effects| ==> disks[k] == ApplyAll(start, effects[..k])
  }

  class BackupRoot {
    var units: map<Name, Dir>
    var staging: map<Name, Dir>
    var marker: Option<Marker>
    /** Every durable effect so far, and the disk before, between and after them. */
    ghost var done: seq<Effect>
    ghost var trail: seq<Disk>

    constructor (d: Disk)
      ensures Valid() && Now() == d && done == []
    {
      units, staging, marker := d.units, d.staging, d.marker;
      done, trail := [], [d];
    }

    function Now(): Disk
      reads this
    {
      Disk(units, staging, marker)
    }

    ghost predicate Valid()
      reads this
    {
      Chained(trail, done) && trail[|done|] == Now()
    }

    ghost method Log(e: Effect)
      requires Chained(trail, done) && Now() == Apply(trail[|done|], e)
      modifies this`done, this`trail
      ensures Valid() && old(trail) <= trail && done == old(done) + [e]
    {
      forall i | 0 <= i < |done| ensures StepAt(trail + [Now()], done + [e], i) {
        assert StepAt(trail, done, i);
      }
      done, trail := done + [e], trail + [Now()];
      assert StepAt(trail, done, |done| - 1);
    }

    lemma KillPoints(start: Disk, before: seq<Effect>, effects: seq<Effect>)
      requires Valid() && done == before + effects && trail[|before|] == start
      ensures KilledAt(start, effects, trail[|before|..])
    {
      forall k | 0 <= k <= |effects|
        ensures trail[|before|..][k] == ApplyAll(start, effects[..k])
      {
        ChainedIsApplyAll(trail, done, |before|, k);
        assert done[|before|..|before| + k] == effects[..k];
      }
    }

    lemma SinceThen(start: Disk, before: seq<Effect>, effects: seq<Effect>)
      requires Valid() && done == before + effects && trail[|before|] == start
      ensures Now() == ApplyAll(start, effects)
    {
      ChainedIsApplyAll(trail, done, |before|, |effects|);
      assert done[|before|..|before| + |effects|] == effects;
    }

    method ClearUpgradeMarker(faults: Faults)
      requires Valid()
      modifies this`marker, this`done, this`trail
      ensures Valid() && old(trail) <= trail && done == old(done) + if faults.clearMarker then [] else [ClearMarker]
    {
      if !faults.clearMarker {
        marker := None;
        Log(ClearMarker);
      }
    }

    method WriteUpgradeMarker(m: Marker, faults: Faults)
      requires Valid()
      modifies this`marker, this`done, this`trail
      ensures Valid() && old(trail) <= trail && done == old(done) + if faults.writeMarker then [] else [WriteMarker(m)]
    {
      if !faults.writeMarker {
        marker := Some(m);
        Log(WriteMarker(m));
      }
    }

    method MakeStagingDir(n: Name)
      requires Valid()
      modifies this`staging, this`done, this`trail
      ensures Valid() && old(trail) <= trail && done == old(done) + [MakeStaging(n)]
    {
      staging := staging[n := Staged(Now(), n)];
      Log(MakeStaging(n));
    }

    method DropStagingDir(n: Name)
      requires Valid()
      modifies this`staging, this`done, this`trail
      ensures Valid() && old(trail) <= trail && done == old(done) + [DropStaging(n)]
    {
      staging := staging - {n};
      Log(DropStaging(n));
    }

    /** `shutil.rmtree(staging, ignore_errors=True)` */
    method CleanUp(n: Name, faults: Faults)
      requires Valid()
      modifies this`staging, this`done, this`trail
      ensures Valid() && old(trail) <= trail && done == old(done) + if faults.cleanup then [] else [DropStaging(n)]
    {
      if !faults.cleanup { DropStagingDir(n); }
    }

    method SnapshotDatabase(db: Database, n: Name)
      requires Valid()
      modifies this`staging, this`done, this`trail
      ensures Valid() && old(trail) <= trail && done == old(done) + [CopyDatabase(n, db)]
    {
      staging := staging[n := Staged(Now(), n).(db := Some(db))];
      Log(CopyDatabase(n, db));
    }

    method WriteManifestFile(n: Name, manifest: Manifest, now: int)
      requires Valid()
      modifies this`staging, this`done, this`trail
      ensures Valid() && old(trail) <= trail && done == old(done) + [WriteManifest(n, manifest, now)]
    {
      staging := staging[n := Staged(Now(), n).(manifest := Some(manifest), mtime := now)];
      Log(WriteManifest(n, manifest, now));
    }

    /** `os.replace(staging, dest)` */
    method PublishUnit(n: Name)
      requires Valid()
      modifies this`units, this`staging, this`done, this`trail
      ensures Valid() && old(trail) <= trail && done == old(done) + [Publish(n)]
    {
      units, staging := units[n := Staged(Now(), n)], staging - {n};
      Log(Publish(n));
    }

    method RemoveUnitDir(n: Name)
      requires Valid()
      modifies this`units, this`done, this`trail
      ensures Valid() && old(trail) <= trail && done == old(done) + [RemoveUnit(n)]
    {
      units := units - {n};
      Log(RemoveUnit(n));
    }

    /** Copies the active key when it lives in a file; `None` is a failed copy. */
    method CopyActiveKey(settings: Settings, n: Name, faults: Faults) returns (r: Option<KeyDisposition>)
      requires Valid()
      modifies this`staging, this`done, this`trail
      ensures Valid() && old(trail) <= trail
      ensures r.Some? ==> (r.value == EnvOverride <==> settings.OverrideConfigured())
      ensures r.Some? ==> (r.value == FileIncluded <==> !settings.OverrideConfigured() && settings.keyFile.Some?)
      ensures r == None <==> !settings.OverrideConfigured() && settings.keyFile.Some? && faults.copyKey
      ensures done == old(done)
                      + if r == Some(FileIncluded) then [CopyKey(n, settings.keyFile.value)] else []
    {
      if settings.OverrideConfigured() { return Some(EnvOverride); }
      if settings.keyFile.None? { return Some(Missing); }
      if faults.copyKey { return None; }
      staging := staging[n := Staged(Now(), n).(key := Some(settings.keyFile.value))];
      Log(CopyKey(n, settings.keyFile.value));
      return Some(FileIncluded);
    }

    /** Abandoned staging directories go first; they never count toward `keep`. */
    method SweepStaging(scan: Scan)
      requires Valid()
      modifies this`staging, this`done, this`trail
      ensures Valid() && old(trail) <= trail && done == old(done) + Sweeps(scan.staging, scan.stuckStaging)
    {
      for i := 0 to |scan.staging|
        invariant Valid() && old(trail) <= trail && done == old(done) + Sweeps(scan.staging[..i], scan.stuckStaging)
      {
        assert scan.staging[..i + 1][..i] == scan.staging[..i];
        if scan.staging[i] !in scan.stuckStaging { DropStagingDir(scan.staging[i]); }
      }
      assert scan.staging[..|scan.staging|] == scan.staging;
    }

    method RemoveStale(stale: seq<Name>, stuck: set<Name>)
      requires Valid()
      modifies this`units, this`done, this`trail
      ensures Valid() && old(trail) <= trail && done == old(done) + Removals(stale, stuck)
    {
      for i := 0 to |stale|
        invariant Valid() && old(trail) <= trail && done == old(done) + Removals(stale[..i], stuck)
      {
        assert stale[..i + 1][..i] == stale[..i];
        if stale[i] !in stuck { RemoveUnitDir(stale[i]); }
      }
      assert stale[..|stale|] == stale;
    }

    /** `_prune` */
    method Prune(scan: Scan, keep: int, protect: Option<Name>)
      requires Valid()
      modifies this`units, this`staging, this`done, this`trail
      ensures Valid() && old(trail) <= trail && done == old(done) + PruneEffects(scan, old(units), keep, protect)
    {
      ghost var before := done;
      SweepStaging(scan);
      var protected := if protect.Some? && protect.value in units then protect else None;
      var candidates := SortByMtime(Candidates(scan.units, units, protected), units);
      var stale := Stale(candidates, KeepOthers(keep, protected.Some?));
      RemoveStale(stale, scan.stuckUnits);
      AppendAssociates(before, Sweeps(scan.staging, scan.stuckStaging), Removals(stale, scan.stuckUnits));
    }

    /** Staging directory, marker, snapshot, key, manifest; false when a step raised. */
    method BuildUnit(env: Env) returns (built: bool)
      requires Valid() && env.db.Some?
      modifies this
      ensures Valid() && old(trail) <= trail && built == !BuildFails(env)
      ensures done == old(done) + if built then BuildEffects(env) else FailedBuild(env)
    {
      if env.faults.makeStaging { return false; }
      MakeStagingDir(env.UnitName());
      WriteUpgradeMarker(env.NewMarker(), env.faults);
      assert done == old(done) + OpenEffects(env);
      built := FillUnit(env);
      OpenAndFill(env);
      AppendAssociates(old(done), OpenEffects(env), FillEffects(env));
    }

    /** Snapshot, key and manifest; a step that raises clears the staging directory. */
    method FillUnit(env: Env) returns (filled: bool)
      requires Valid() && env.db.Some?
      modifies this
      ensures Valid() && old(trail) <= trail && filled == !FillFails(env)
      ensures done == old(done) + FillEffects(env)
    {
      var n := env.UnitName();
      if env.faults.snapshot {
        CleanUp(n, env.faults);
        return false;
      }
      SnapshotDatabase(env.db.value, n);
      var disposition := CopyActiveKey(env.settings, n, env.faults);
      ghost var copies := Copies(env);
      AppendAssociates(old(done), [CopyDatabase(n, env.db.value)], if disposition.None? then [] else KeyEffects(env));
      assert done == old(done) + copies;
      if disposition.None? || env.faults.writeManifest {
        CleanUp(n, env.faults);
        AppendAssociates(old(done), copies, Cleanup(env));
        return false;
      }
      var manifest := Manifest(env.current, disposition.value);
      WriteManifestFile(n, manifest, env.now);
      AppendAssociates(old(done), copies, [WriteManifest(n, manifest, env.now)]);
      return true;
    }

    /** Builds the unit in a staging directory, publishes it, prunes. */
    method BuildAndPublish(env: Env) returns (outcome: Outcome)
      requires Valid() && env.db.Some?
      modifies this
      ensures Valid() && old(trail) <= trail
      ensures var plan := TakeBackup(env, old(Now()));
              done == old(done) + plan.effects && outcome == plan.outcome
    {
      var n := env.UnitName();
      var built := BuildUnit(env);
      if !built || env.faults.replace { return Raised; }
      PublishUnit(n);
      AppendAssociates(old(done), BuildEffects(env), [Publish(n)]);
      SinceThen(old(Now()), old(done), PublishEffects(env));
      ghost var prune := HookPrune(env, units);
      if env.head != Some(UNKNOWN_HEAD) {
        Prune(env.scan, KEEP_COUNT, Some(n));
      }
      AppendAssociates(old(done), PublishEffects(env), prune);
      return Backup(n);
    }

    /** The in-flight marker, then the backup. */
    method PastMarker(env: Env) returns (outcome: Outcome)
      requires Valid() && env.db.Some?
      modifies this
      ensures Valid() && old(trail) <= trail
      ensures var plan := MarkerPlan(env, old(Now()));
              done == old(done) + plan.effects && outcome == plan.outcome
    {
      var m := if env.faults.readMarker then None else marker;
      if m.None? {
        outcome := BuildAndPublish(env);
        return;
      }
      if Some(m.value.head) != env.current && m.value.backup in units { return NoBackup; }
      ClearUpgradeMarker(env.faults);
      SinceThen(old(Now()), old(done), Clearing(env));
      ghost var backup := TakeBackup(env, Now());
      outcome := BuildAndPublish(env);
      AppendAssociates(old(done), Clearing(env), backup.effects);
    }

    /**
     `create_pre_migration_backup`: performs its plan's effects in order, and a process
     killed after `k` of them leaves the disk they lead to.
     */
    method CreatePreMigrationBackup(env: Env) returns (outcome: Outcome)
      requires Valid()
      modifies this
      ensures Valid() && old(trail) <= trail
      ensures var plan := PlanOf(env, old(Now()));
              && done == old(done) + plan.effects && outcome == plan.outcome
              && Now() == ApplyAll(old(Now()), plan.effects)
              && KilledAt(old(Now()), plan.effects, trail[|old(done)|..])
    {
      outcome := RunHook(env);
      KillPoints(old(Now()), old(done), PlanOf(env, old(Now())).effects);
      SinceThen(old(Now()), old(done), PlanOf(env, old(Now())).effects);
    }

    method RunHook(env: Env) returns (outcome: Outcome)
      requires Valid()
      modifies this
      ensures Valid() && old(trail) <= trail
      ensures var plan := PlanOf(env, old(Now()));
              done == old(done) + plan.effects && outcome == plan.outcome
    {
      if !env.settings.onDiskSqlite || env.db.None? { return NoBackup; }
      if env.faults.readRevision { return Raised; }
      if env.current == env.head {
        ClearUpgradeMarker(env.faults);
        return NoBackup;
      }
      if env.current.Some? && env.head != Some(UNKNOWN_HEAD) && !env.inGraph { return NoBackup; }
      if LabelPublished(env.FromLabel(), units) { return NoBackup; }
      outcome := PastMarker(env);
    }
  }
}
