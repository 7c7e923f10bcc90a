/**
 Runs of the container: starts of the backup hook, kills inside it, migrations that stop
 half way, and operator actions. Over every run the published units are clean
 pre-migration snapshots, and a migration in flight always has one to go back to.
 */
module BackupProtocol {
  import opened Wrappers
  import opened BackupDisk
  import opened BackupHook

  // ----- revisions

  /** The linear migration history; an image ships its first `image` revisions. */
  ghost predicate ValidHistory(revs: seq<string>) {
    && (forall i :: 0 <= i < |revs| ==>
          revs[i] != "" && DashFree(revs[i]) && revs[i] != BASE && revs[i] != UNKNOWN_HEAD)
    && (forall i, j :: 0 <= i < j < |revs| ==> revs[i] != revs[j])
  }

  /** What `alembic_version` holds once `applied` revisions are stamped. */
  function Stamp(revs: seq<string>, applied: nat): Option<string>
    requires applied <= |revs|
  {
    if applied == 0 then None else Some(revs[applied - 1])
  }

  function LabelAt(revs: seq<string>, applied: nat): string
    requires applied <= |revs|
  {
    if applied == 0 then "base" else revs[applied - 1]
  }

  lemma LabelsDiffer(revs: seq<string>, i: nat, j: nat)
    requires ValidHistory(revs) && i <= |revs| && j <= |revs|
    ensures LabelAt(revs, i) == LabelAt(revs, j) <==> i == j
    ensures Stamp(revs, i) == Stamp(revs, j) <==> i == j
    ensures DashFree(LabelAt(revs, i)) && LabelAt(revs, i) != UNKNOWN_HEAD
    ensures i > 0 ==> LabelAt(revs, i) != BASE && LabelAt(revs, i) != ""
  {
  }

  // ----- worlds

  /**
   `rest` is the revision the database was last at rest at: where the run began, or the
   last head an upgrade reached. `db` is missing before a fresh install.
   */
  datatype World = World(
    revs: seq<string>, image: nat, db: Option<Database>, disk: Disk, migrating: bool, rest: nat)

  /** The outside conditions of one container start. */
  datatype Start = Start(
    settings: Settings, headKnown: bool, timestamp: string, now: int, scan: Scan, faults: Faults)

  predicate WellFormed(w: World) {
    w.image <= |w.revs| && w.rest <= |w.revs| && (w.db.Some? ==> w.db.value.applied <= |w.revs|)
  }

  predicate InFlight(w: World) {
    w.db.Some? && (w.db.value.dirty || w.db.value.applied != w.rest)
  }

  function EnvOf(w: World, s: Start): Env
    requires WellFormed(w)
  {
    Env(s.settings, w.db,
        if w.db.None? then None else Stamp(w.revs, w.db.value.applied),
        if s.headKnown then Stamp(w.revs, w.image) else Some(UNKNOWN_HEAD),
        w.db.None? || w.db.value.applied <= w.image,
        s.timestamp, s.now, s.scan, s.faults)
  }

  function PlanAt(w: World, s: Start): Plan
    requires WellFormed(w)
  {
    PlanOf(EnvOf(w, s), w.disk)
  }

  /** What the hook of a start leaves. */
  function Started(w: World, s: Start): World
    requires WellFormed(w)
  {
    w.(disk := ApplyAll(w.disk, PlanAt(w, s).effects))
  }

  datatype Event =
    /** The hook runs to its end and `alembic upgrade head` begins, even after an exception. */
    | Boot(start: Start)
    /** The hook runs and the process dies after `effects` durable effects. */
    | Kill(start: Start, effects: nat)
    /** Part of the next revision is applied. */
    | ApplyPart
    /** The next revision is completed and stamped. */
    | StampNext
    /** The container stops: a crash, or an ordinary shutdown. */
    | Halt
    /** Another image is installed, shipping `image` revisions. */
    | Install(image: nat)
    /** The operator moves a unit out of the backups directory. */
    | Archive(name: Name)
    /** The operator puts back a clean database of `applied` revisions and moves units out. */
    | Restore(applied: nat, archived: set<Name>)

  /** What can happen at all. */
  predicate Possible(w: World, e: Event) {
    WellFormed(w)
    && match e
       case Boot(s) => !w.migrating
       case Kill(s, k) => !w.migrating && k <= |PlanAt(w, s).effects|
       case ApplyPart => w.migrating && if w.db.None? then w.image > 0 else w.db.value.applied < w.image
       case StampNext => w.migrating && if w.db.None? then w.image > 0 else w.db.value.applied < w.image
       case Halt => true
       case Install(image) => !w.migrating && image <= |w.revs|
       case Archive(n) => !w.migrating
       case Restore(applied, _) => !w.migrating && applied <= |w.revs|
  }

  function Stamped(w: World): Database {
    if w.db.None? then Database(1, false) else Database(w.db.value.applied + 1, false)
  }

  function Next(w: World, e: Event): World
    requires Possible(w, e)
  {
    match e
    case Boot(s) => Started(w, s).(migrating := true)
    case Kill(s, k) => w.(disk := ApplyAll(w.disk, PlanAt(w, s).effects[..k]))
    case ApplyPart => w.(db := Some(Database(if w.db.None? then 0 else w.db.value.applied, true)))
    case StampNext =>
      w.(db := Some(Stamped(w)), rest := if Stamped(w).applied == w.image then w.image else w.rest)
    case Halt => w.(migrating := false)
    case Install(image) => w.(image := image)
    case Archive(n) => w.(disk := w.disk.(units := w.disk.units - {n}))
    case Restore(applied, archived) =>
      w.(db := Some(Database(applied, false)), rest := applied,
         disk := w.disk.(units := w.disk.units - archived))
  }

  // ----- the hypotheses

  predicate CurrentPublished(w: World)
    requires WellFormed(w) && w.db.Some?
  {
    LabelPublished(LabelAt(w.revs, w.db.value.applied), w.disk.units)
  }

  /** (a) While an upgrade is in flight the marker can be read. */
  predicate MarkerReads(w: World, e: Event) {
    (e.Boot? || e.Kill?) && InFlight(w) ==> !e.start.faults.readMarker
  }

  /** (b) No other image is installed while an upgrade is in flight. */
  predicate ImageSteady(w: World, e: Event) {
    e.Install? && e.image != w.image ==> !InFlight(w)
  }

  /** (c) The unit that the marker names is not moved out while an upgrade is in flight. */
  predicate GuardStays(w: World, e: Event) {
    e.Archive? && InFlight(w) && w.disk.marker.Some? ==> e.name != w.disk.marker.value.backup
  }

  /**
   The marker names a published unit and a head that no start clears it at, from the
   revision the database rests at up to the image's head.
   */
  predicate Shielded(w: World)
    requires WellFormed(w)
  {
    && w.disk.marker.Some? && w.disk.marker.value.backup in w.disk.units
    && forall j :: w.rest <= j < w.image ==> Some(w.disk.marker.value.head) != Stamp(w.revs, j)
  }

  /** A start at rest below the head: an upgrade begins, whatever the hook did. */
  predicate Begins(w: World, e: Event) {
    e.Boot? && w.db.Some? && !InFlight(w) && w.rest < w.image
  }

  /** (d) A start that an upgrade begins from leaves it shielded. */
  predicate BeginsShielded(w: World, e: Event) {
    WellFormed(w) && Begins(w, e) ==> Shielded(Started(w, e.start))
  }

  /** (e) The deployment has an SQLite file, and the run begins with a database in it. */
  predicate HasDatabase(w: World, e: Event) {
    w.db.Some? && ((e.Boot? || e.Kill?) ==> e.start.settings.onDiskSqlite)
  }

  datatype Hypothesis = MarkerRead | SteadyImage | GuardKept | ShieldedStart | ExistingDatabase

  /** All the hypotheses, but perhaps one. */
  predicate LawfulBut(but: Option<Hypothesis>, w: World, e: Event) {
    && (but == Some(MarkerRead) || MarkerReads(w, e))
    && (but == Some(SteadyImage) || ImageSteady(w, e))
    && (but == Some(GuardKept) || GuardStays(w, e))
    && (but == Some(ShieldedStart) || BeginsShielded(w, e))
    && (but == Some(ExistingDatabase) || HasDatabase(w, e))
  }

  predicate Lawful(w: World, e: Event) {
    LawfulBut(None, w, e)
  }

  ghost predicate Initial(w: World) {
    && WellFormed(w) && ValidHistory(w.revs) && !w.migrating
    && w.db == Some(Database(w.rest, false)) && w.disk == Disk(map[], map[], None)
  }

  // ----- runs

  /** The world after a run; an event that cannot happen leaves it alone. */
  function Exec(w: World, es: seq<Event>): World
  {
    if es == [] then w
    else
      var before := Exec(w, es[..|es| - 1]);
      if Possible(before, es[|es| - 1]) then Next(before, es[|es| - 1]) else before
  }

  /** A run of possible events that obey all the hypotheses, but perhaps one. */
  predicate RunBut(but: Option<Hypothesis>, w: World, es: seq<Event>) {
    es == [] ||
    (var init, last := es[..|es| - 1], es[|es| - 1];
     RunBut(but, w, init) && Possible(Exec(w, init), last) && LawfulBut(but, Exec(w, init), last))
  }

  lemma Extend(but: Option<Hypothesis>, w: World, es: seq<Event>, e: Event)
    requires RunBut(but, w, es) && Possible(Exec(w, es), e) && LawfulBut(but, Exec(w, es), e)
    ensures RunBut(but, w, es + [e]) && Exec(w, es + [e]) == Next(Exec(w, es), e)
  {
    assert (es + [e])[..|es|] == es;
  }

  /** An event in front of a run. */
  lemma Prepend(but: Option<Hypothesis>, w: World, e: Event, tail: seq<Event>) returns (run: seq<Event>)
    requires Possible(w, e) && LawfulBut(but, w, e) && RunBut(but, Next(w, e), tail)
    ensures run == [e] + tail && RunBut(but, w, run) && Exec(w, run) == Exec(Next(w, e), tail)
  {
    Extend(but, w, [], e);
    assert [] + [e] == [e];
    var end := RunAppend(but, w, [e], tail);
    run := [e] + tail;
  }

  lemma {:induction false} RunAppend(but: Option<Hypothesis>, w: World, a: seq<Event>, b: seq<Event>)
    returns (end: World)
    requires RunBut(but, w, a) && RunBut(but, Exec(w, a), b)
    ensures RunBut(but, w, a + b) && Exec(w, a + b) == end == Exec(Exec(w, a), b)
    decreases |b|
  {
    if b == [] {
      assert a + b == a;
      end := Exec(w, a);
    } else {
      var init, last := LastEvent(but, Exec(w, a), b);
      var before := RunAppend(but, w, a, init);
      AppendLast(but, w, a + init, before, last);
      end := Next(before, last);
      assert a + b == (a + init) + [last];
    }
  }

  lemma LastEvent(but: Option<Hypothesis>, w: World, es: seq<Event>) returns (init: seq<Event>, last: Event)
    requires es != [] && RunBut(but, w, es)
    ensures es == init + [last] && RunBut(but, w, init)
    ensures Possible(Exec(w, init), last) && LawfulBut(but, Exec(w, init), last)
    ensures Exec(w, es) == Next(Exec(w, init), last)
  {
    init, last := es[..|es| - 1], es[|es| - 1];
  }

  lemma AppendLast(but: Option<Hypothesis>, w: World, es: seq<Event>, v: World, e: Event)
    requires RunBut(but, w, es) && v == Exec(w, es) && Possible(v, e) && LawfulBut(but, v, e)
    ensures RunBut(but, w, es + [e]) && Exec(w, es + [e]) == Next(v, e)
  {
    Extend(but, w, es, e);
  }
}
