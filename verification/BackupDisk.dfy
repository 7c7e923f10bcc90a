/**
 What the backup hook leaves on disk: published units, staging directories and the
 upgrade marker, and the durable effects that change them one at a time. A killed
 process leaves the disk after some prefix of its effects.
 */
module BackupDisk {
  import opened Wrappers

  const PREFIX := "pre-migrate-"
  const UNKNOWN_HEAD := "__unknown__"
  const BASE := "base"
  const KEEP_COUNT := 5

  // ----- names

  /** The directory `pre-migrate-<rev>-<timestamp>`. */
  datatype Name = Name(rev: string, timestamp: string)

  function Render(n: Name): string {
    PREFIX + n.rev + "-" + n.timestamp
  }

  /** `glob(f"{PREFIX}{rev}-*")` lists directory `n`; labels hold no glob metacharacter. */
  predicate GlobHits(rev: string, n: Name) {
    PREFIX + rev + "-" <= Render(n)
  }

  predicate DashFree(s: string) {
    '-' !in s
  }

  lemma {:induction false} DashEndsLabel(a: string, b: string, rest: string)
    requires DashFree(a) && DashFree(b)
    ensures a + "-" <= b + "-" + rest <==> a == b
  {
    var x, y := a + "-", b + "-" + rest;
    if a == "" || b == "" {
      if a == b {
        assert y == x + rest;
      } else {
        assert x[0] != y[0];
      }
    } else {
      assert x[1..] == a[1..] + "-" && y[1..] == b[1..] + "-" + rest;
      DashEndsLabel(a[1..], b[1..], rest);
      assert x == [a[0]] + x[1..] && y == [b[0]] + y[1..];
      assert a == [a[0]] + a[1..] && b == [b[0]] + b[1..];
      assert x <= y <==> a[0] == b[0] && x[1..] <= y[1..];
    }
  }

  /** Revision labels hold no dash, so the glob lists the units of one label only. */
  lemma GlobHitsOwnLabel(rev: string, n: Name)
    requires DashFree(rev) && DashFree(n.rev)
    ensures GlobHits(rev, n) <==> rev == n.rev
  {
    var x, y := rev + "-", n.rev + "-" + n.timestamp;
    DashEndsLabel(rev, n.rev, n.timestamp);
    assert PREFIX + rev + "-" == PREFIX + x && Render(n) == PREFIX + y;
    assert (PREFIX + x)[|PREFIX|..] == x && (PREFIX + y)[|PREFIX|..] == y;
    assert PREFIX + x <= PREFIX + y <==> x <= y;
  }

  // ----- contents

  /** Revisions applied and stamped so far, and whether the next one is half applied. */
  datatype Database = Database(applied: nat, dirty: bool)

  datatype KeyDisposition = FileIncluded | EnvOverride | Missing

  datatype Manifest = Manifest(revision: Option<string>, key: KeyDisposition)

  datatype Dir = Dir(db: Option<Database>, key: Option<string>, manifest: Option<Manifest>, mtime: int)

  datatype Marker = Marker(fromRev: string, head: string, backup: Name)

  datatype Disk = Disk(units: map<Name, Dir>, staging: map<Name, Dir>, marker: Option<Marker>)

  /** A complete recovery unit: database, manifest, and the key file exactly when it says so. */
  predicate Complete(d: Dir) {
    && d.db.Some? && d.manifest.Some?
    && (d.key.Some? <==> d.manifest.value.key == FileIncluded)
  }

  // ----- durable effects

  datatype Effect =
    | ClearMarker
    | WriteMarker(marker: Marker)
    | MakeStaging(name: Name)
    | CopyDatabase(name: Name, db: Database)
    | CopyKey(name: Name, key: string)
    | WriteManifest(name: Name, manifest: Manifest, now: int)
    | DropStaging(name: Name)
    | Publish(name: Name)
    | RemoveUnit(name: Name)

  const EMPTY_DIR := Dir(None, None, None, 0)

  function Staged(d: Disk, n: Name): Dir {
    if n in d.staging then d.staging[n] else EMPTY_DIR
  }

  function Apply(d: Disk, e: Effect): Disk {
    match e
    case ClearMarker => d.(marker := None)
    case WriteMarker(m) => d.(marker := Some(m))
    case MakeStaging(n) => d.(staging := d.staging[n := Staged(d, n)])
    case CopyDatabase(n, db) => d.(staging := d.staging[n := Staged(d, n).(db := Some(db))])
    case CopyKey(n, key) => d.(staging := d.staging[n := Staged(d, n).(key := Some(key))])
    case WriteManifest(n, m, now) =>
      d.(staging := d.staging[n := Staged(d, n).(manifest := Some(m), mtime := now)])
    case DropStaging(n) => d.(staging := d.staging - {n})
    case Publish(n) => d.(units := d.units[n := Staged(d, n)], staging := d.staging - {n})
    case RemoveUnit(n) => d.(units := d.units - {n})
  }

  function ApplyAll(d: Disk, effects: seq<Effect>): Disk {
    if effects == [] then d
    else Apply(ApplyAll(d, effects[..|effects| - 1]), effects[|effects| - 1])
  }

  lemma ApplyAllSnoc(d: Disk, effects: seq<Effect>, e: Effect)
    ensures ApplyAll(d, effects + [e]) == Apply(ApplyAll(d, effects), e)
  {
    assert (effects + [e])[..|effects|] == effects;
  }

  lemma {:induction false} ApplyAllAppend(d: Disk, a: seq<Effect>, b: seq<Effect>)
    ensures ApplyAll(d, a + b) == ApplyAll(ApplyAll(d, a), b)
    decreases |b|
  {
    if b == [] {
      assert a + b == a;
    } else {
      var init, last := b[..|b| - 1], b[|b| - 1];
      assert a + b == (a + init) + [last];
      ApplyAllSnoc(d, a + init, last);
      ApplyAllAppend(d, a, init);
    }
  }

  // ----- pruning

  function Insert(n: Name, sorted: seq<Name>, units: map<Name, Dir>): (r: seq<Name>)
    requires n in units && forall x | x in sorted :: x in units
    ensures forall x :: x in r <==> x == n || x in sorted
    decreases |sorted|
  {
    if sorted == [] || units[n].mtime < units[sorted[0]].mtime then [n] + sorted
    else
      var rest := Insert(n, sorted[1..], units);
      assert sorted == [sorted[0]] + sorted[1..];
      [sorted[0]] + rest
  }

  /** `sorted(..., key=mtime)`: stable, oldest first. */
  function SortByMtime(names: seq<Name>, units: map<Name, Dir>): (r: seq<Name>)
    requires forall x | x in names :: x in units
    ensures forall x :: x in r <==> x in names
  {
    if names == [] then []
    else
      var init, last := names[..|names| - 1], names[|names| - 1];
      assert names == init + [last];
      Insert(last, SortByMtime(init, units), units)
  }

  /** The units the glob lists, in listing order, without the protected one. */
  function Candidates(listing: seq<Name>, units: map<Name, Dir>, protect: Option<Name>): (r: seq<Name>)
    ensures forall x :: x in r <==> x in listing && x in units && Some(x) != protect
  {
    if listing == [] then []
    else
      var rest := Candidates(listing[1..], units, protect);
      if listing[0] in units && Some(listing[0]) != protect then [listing[0]] + rest else rest
  }

  function KeepOthers(keep: int, guarded: bool): nat {
    var k := keep - if guarded then 1 else 0;
    if k > 0 then k else 0
  }

  /** `candidates[:-keep_others] if keep_others > 0 else candidates` */
  function Stale(candidates: seq<Name>, keepOthers: nat): seq<Name> {
    if keepOthers == 0 then candidates
    else if keepOthers >= |candidates| then []
    else candidates[..|candidates| - keepOthers]
  }

  /** What a directory scan lists, and which directories cannot be removed. */
  datatype Scan = Scan(units: seq<Name>, staging: seq<Name>,
                       stuckUnits: set<Name>, stuckStaging: set<Name>)

  function StaleUnits(scan: Scan, units: map<Name, Dir>, keep: int, protect: Option<Name>): seq<Name> {
    var protected := if protect.Some? && protect.value in units then protect else None;
    Stale(SortByMtime(Candidates(scan.units, units, protected), units), KeepOthers(keep, protected.Some?))
  }

  function Sweeps(names: seq<Name>, stuck: set<Name>): seq<Effect> {
    if names == [] then []
    else Sweeps(names[..|names| - 1], stuck)
         + if names[|names| - 1] in stuck then [] else [DropStaging(names[|names| - 1])]
  }

  function Removals(names: seq<Name>, stuck: set<Name>): seq<Effect> {
    if names == [] then []
    else Removals(names[..|names| - 1], stuck)
         + if names[|names| - 1] in stuck then [] else [RemoveUnit(names[|names| - 1])]
  }

  function PruneEffects(scan: Scan, units: map<Name, Dir>, keep: int, protect: Option<Name>): seq<Effect> {
    Sweeps(scan.staging, scan.stuckStaging)
    + Removals(StaleUnits(scan, units, keep, protect), scan.stuckUnits)
  }
}
