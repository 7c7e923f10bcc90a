/** What `_prune` keeps: the protected unit, and the newest of the others. */
module BackupPrune {
  import opened Wrappers
  import opened BackupDisk

  predicate NoDuplicates(names: seq<Name>) {
    forall i, j :: 0 <= i < j < |names| ==> names[i] != names[j]
  }

  predicate Sorted(names: seq<Name>, units: map<Name, Dir>)
    requires forall x | x in names :: x in units
  {
    forall i, j :: 0 <= i < j < |names| ==> units[names[i]].mtime <= units[names[j]].mtime
  }

  function Elements(names: seq<Name>): set<Name> {
    set n | n in names
  }

  /** A unit no newer than every one of a sorted list goes in front of it. */
  lemma ConsSorts(n: Name, rest: seq<Name>, units: map<Name, Dir>)
    requires n in units && (forall x | x in rest :: x in units) && Sorted(rest, units) && NoDuplicates(rest)
    requires forall x | x in rest :: x != n && units[n].mtime <= units[x].mtime
    ensures Sorted([n] + rest, units) && NoDuplicates([n] + rest)
  {
    var all := [n] + rest;
    forall i, j | 0 <= i < j < |all|
      ensures all[i] != all[j] && units[all[i]].mtime <= units[all[j]].mtime
    {
      assert all[j] == rest[j - 1] && rest[j - 1] in rest;
      assert i > 0 ==> all[i] == rest[i - 1];
    }
  }

  lemma HeadIsOldest(sorted: seq<Name>, units: map<Name, Dir>)
    requires sorted != [] && (forall x | x in sorted :: x in units) && Sorted(sorted, units) && NoDuplicates(sorted)
    ensures Sorted(sorted[1..], units) && NoDuplicates(sorted[1..])
    ensures forall x | x in sorted[1..] :: x != sorted[0] && units[sorted[0]].mtime <= units[x].mtime
  {
    forall x | x in sorted[1..] ensures x != sorted[0] && units[sorted[0]].mtime <= units[x].mtime {
      var i :| 0 <= i < |sorted[1..]| && sorted[1..][i] == x;
      assert sorted[i + 1] == x;
    }
  }

  lemma {:induction false} InsertSorts(n: Name, sorted: seq<Name>, units: map<Name, Dir>)
    requires n in units && n !in sorted && forall x | x in sorted :: x in units
    requires Sorted(sorted, units) && NoDuplicates(sorted)
    ensures var r := Insert(n, sorted, units);
            Sorted(r, units) && NoDuplicates(r) && |r| == |sorted| + 1
    decreases |sorted|
  {
    if sorted == [] {
      ConsSorts(n, sorted, units);
    } else {
      HeadIsOldest(sorted, units);
      if units[n].mtime < units[sorted[0]].mtime {
        assert sorted == [sorted[0]] + sorted[1..];
        ConsSorts(n, sorted, units);
      } else {
        InsertSorts(n, sorted[1..], units);
        ConsSorts(sorted[0], Insert(n, sorted[1..], units), units);
      }
    }
  }

  lemma {:induction false} SortSorts(names: seq<Name>, units: map<Name, Dir>)
    requires NoDuplicates(names) && forall x | x in names :: x in units
    ensures var r := SortByMtime(names, units);
            Sorted(r, units) && NoDuplicates(r) && |r| == |names|
    decreases |names|
  {
    if names != [] {
      var init, last := names[..|names| - 1], names[|names| - 1];
      SortSorts(init, units);
      InsertSorts(last, SortByMtime(init, units), units);
    }
  }

  lemma {:induction false} CandidatesNoDuplicates(listing: seq<Name>, units: map<Name, Dir>, protect: Option<Name>)
    requires NoDuplicates(listing)
    ensures NoDuplicates(Candidates(listing, units, protect))
  {
    if listing != [] {
      CandidatesNoDuplicates(listing[1..], units, protect);
      forall x | x in Candidates(listing[1..], units, protect) ensures x != listing[0] {
        var i :| 0 <= i < |listing[1..]| && listing[1..][i] == x;
        assert listing[i + 1] == x;
      }
    }
  }

  lemma {:induction false} ElementsCount(names: seq<Name>)
    requires NoDuplicates(names)
    ensures |Elements(names)| == |names|
    decreases |names|
  {
    if names != [] {
      var init, last := names[..|names| - 1], names[|names| - 1];
      ElementsCount(init);
      forall i | 0 <= i < |init| ensures init[i] != last {
        assert init[i] == names[i];
      }
      assert names == init + [last];
      assert Elements(names) == Elements(init) + {last};
    }
  }

  /** The staging directories a sweep over some names leaves. */
  ghost predicate Swept(d: Disk, after: Disk, names: seq<Name>, stuck: set<Name>) {
    && after.units == d.units && after.marker == d.marker
    && forall x :: x in after.staging <==> x in d.staging && (x !in names || x in stuck)
  }

  lemma SweptOneMore(d: Disk, after: Disk, init: seq<Name>, last: Name, stuck: set<Name>)
    requires Swept(d, after, init, stuck)
    ensures Swept(d, if last in stuck then after else Apply(after, DropStaging(last)), init + [last], stuck)
  {
  }

  lemma {:induction false} SweepsSweep(d: Disk, names: seq<Name>, stuck: set<Name>)
    ensures Swept(d, ApplyAll(d, Sweeps(names, stuck)), names, stuck)
    decreases |names|
  {
    if names != [] {
      var init, last := names[..|names| - 1], names[|names| - 1];
      SweepsSweep(d, init, stuck);
      SweptOneMore(d, ApplyAll(d, Sweeps(init, stuck)), init, last, stuck);
      assert names == init + [last];
      assert Sweeps(init, stuck) + [] == Sweeps(init, stuck);
      ApplyAllSnoc(d, Sweeps(init, stuck), DropStaging(last));
    }
  }

  /** The units a removal of some names leaves. */
  ghost predicate Removed(d: Disk, after: Disk, names: seq<Name>, stuck: set<Name>) {
    && after.staging == d.staging && after.marker == d.marker
    && (forall x :: x in after.units <==> x in d.units && (x !in names || x in stuck))
    && (forall x | x in after.units :: after.units[x] == d.units[x])
  }

  lemma RemovedOneMore(d: Disk, after: Disk, init: seq<Name>, last: Name, stuck: set<Name>)
    requires Removed(d, after, init, stuck)
    ensures Removed(d, if last in stuck then after else Apply(after, RemoveUnit(last)), init + [last], stuck)
  {
  }

  lemma {:induction false} RemovalsRemove(d: Disk, names: seq<Name>, stuck: set<Name>)
    ensures Removed(d, ApplyAll(d, Removals(names, stuck)), names, stuck)
    decreases |names|
  {
    if names != [] {
      var init, last := names[..|names| - 1], names[|names| - 1];
      RemovalsRemove(d, init, stuck);
      RemovedOneMore(d, ApplyAll(d, Removals(init, stuck)), init, last, stuck);
      assert names == init + [last];
      assert Removals(init, stuck) + [] == Removals(init, stuck);
      ApplyAllSnoc(d, Removals(init, stuck), RemoveUnit(last));
    }
  }

  /** The whole prune: swept staging directories, removed stale units, nothing else. */
  lemma PruneRemoves(scan: Scan, d: Disk, keep: int, protect: Option<Name>)
    ensures var stale := StaleUnits(scan, d.units, keep, protect);
            var after := ApplyAll(d, PruneEffects(scan, d.units, keep, protect));
            && after.marker == d.marker
            && (forall x :: x in after.units <==> x in d.units && (x !in stale || x in scan.stuckUnits))
            && (forall x | x in after.units :: after.units[x] == d.units[x])
            && (forall x :: x in after.staging <==>
                  x in d.staging && (x !in scan.staging || x in scan.stuckStaging))
  {
    var stale := StaleUnits(scan, d.units, keep, protect);
    ApplyAllAppend(d, Sweeps(scan.staging, scan.stuckStaging), Removals(stale, scan.stuckUnits));
    SweepsSweep(d, scan.staging, scan.stuckStaging);
    RemovalsRemove(ApplyAll(d, Sweeps(scan.staging, scan.stuckStaging)), stale, scan.stuckUnits);
  }

  /** The scan lists every directory once. */
  predicate Exact(names: seq<Name>, dirs: map<Name, Dir>) {
    NoDuplicates(names) && Elements(names) == dirs.Keys
  }

  function Protected(protect: Option<Name>, units: map<Name, Dir>): set<Name> {
    if protect.Some? && protect.value in units then {protect.value} else {}
  }

  /** Cutting a sorted list: the front holds the oldest, the back has the wanted length. */
  lemma StaleIsOldFront(sorted: seq<Name>, units: map<Name, Dir>, slots: nat)
    requires (forall x | x in sorted :: x in units) && Sorted(sorted, units) && NoDuplicates(sorted)
    ensures var stale := Stale(sorted, slots);
            && |stale| == |sorted| - (if |sorted| < slots then |sorted| else slots)
            && NoDuplicates(stale)
            && (forall x | x in stale :: x in sorted)
            && forall gone, kept | gone in stale && kept in sorted && kept !in stale ::
                 units[gone].mtime <= units[kept].mtime
  {
    var stale := Stale(sorted, slots);
    assert forall i :: 0 <= i < |stale| ==> stale[i] == sorted[i];
    forall gone, kept | gone in stale && kept in sorted && kept !in stale
      ensures units[gone].mtime <= units[kept].mtime
    {
      var i :| 0 <= i < |stale| && stale[i] == gone;
      var j :| 0 <= j < |sorted| && sorted[j] == kept;
      assert |stale| <= j;
    }
  }

  lemma SortedOthers(listing: seq<Name>, units: map<Name, Dir>, protected: Option<Name>)
    requires Exact(listing, units)
    ensures var sorted := SortByMtime(Candidates(listing, units, protected), units);
            && Sorted(sorted, units) && NoDuplicates(sorted)
            && (forall x :: x in sorted <==> x in units && Some(x) != protected)
  {
    CandidatesNoDuplicates(listing, units, protected);
    SortSorts(Candidates(listing, units, protected), units);
    assert forall x :: x in listing <==> x in Elements(listing);
  }

  lemma StaleIsOldest(scan: Scan, units: map<Name, Dir>, keep: int, protect: Option<Name>)
    requires Exact(scan.units, units)
    ensures var guarded := Protected(protect, units);
            var others := units.Keys - guarded;
            var slots := if keep - |guarded| > 0 then keep - |guarded| else 0;
            var stale := StaleUnits(scan, units, keep, protect);
            && Elements(stale) <= others
            && |others - Elements(stale)| == (if |others| < slots then |others| else slots)
            && forall gone, kept | gone in Elements(stale) && kept in others && kept !in Elements(stale) ::
                 units[gone].mtime <= units[kept].mtime
  {
    var guarded := Protected(protect, units);
    var others := units.Keys - guarded;
    var protected := if protect.Some? && protect.value in units then protect else None;
    SortedOthers(scan.units, units, protected);
    var sorted := SortByMtime(Candidates(scan.units, units, protected), units);
    var slots := KeepOthers(keep, protected.Some?);
    StaleIsOldFront(sorted, units, slots);
    StaleCount(sorted, others, slots);
    var stale := Stale(sorted, slots);
    assert forall x :: x in stale <==> x in Elements(stale);
  }

  lemma StaleCount(sorted: seq<Name>, others: set<Name>, slots: nat)
    requires NoDuplicates(sorted) && forall x :: x in sorted <==> x in others
    ensures var stale := Elements(Stale(sorted, slots));
            stale <= others && |others - stale| == if |others| < slots then |others| else slots
  {
    var stale := Stale(sorted, slots);
    assert forall i :: 0 <= i < |stale| ==> stale[i] == sorted[i];
    assert Elements(sorted) == others;
    ElementsCount(sorted);
    ElementsCount(stale);
    assert Elements(stale) <= others;
    SubsetDifferenceCount(others, Elements(stale));
  }

  lemma SubsetDifferenceCount(a: set<Name>, b: set<Name>)
    requires b <= a
    ensures |a - b| == |a| - |b|
  {
  }

  lemma NoneStaged(listing: seq<Name>, before: map<Name, Dir>, after: map<Name, Dir>)
    requires Exact(listing, before) && forall x | x in after :: x in before && x !in listing
    ensures after == map[]
  {
    forall x ensures x !in after {
      assert x in listing <==> x in Elements(listing);
    }
  }

  /** The guarded units survive, and of the others the given number, none older than one gone. */
  ghost predicate NewestSurvive(before: map<Name, Dir>, after: map<Name, Dir>, guarded: set<Name>, slots: nat) {
    var others := before.Keys - guarded;
    && guarded <= after.Keys <= before.Keys
    && (forall n | n in after :: after[n] == before[n])
    && |after.Keys - guarded| == (if |others| < slots then |others| else slots)
    && forall gone, kept | gone in before && gone !in after && kept in after && kept !in guarded ::
         before[gone].mtime <= before[kept].mtime
  }

  lemma Survivors(before: map<Name, Dir>, after: map<Name, Dir>, stale: set<Name>, guarded: set<Name>, slots: nat)
    requires forall x :: x in after <==> x in before && x !in stale
    requires forall n | n in after :: after[n] == before[n]
    requires guarded <= before.Keys && stale <= before.Keys - guarded
    requires var others := before.Keys - guarded;
             && |others - stale| == (if |others| < slots then |others| else slots)
             && forall gone, kept | gone in stale && kept in others && kept !in stale ::
                  before[gone].mtime <= before[kept].mtime
    ensures NewestSurvive(before, after, guarded, slots)
  {
    assert after.Keys - guarded == before.Keys - guarded - stale;
  }

  lemma Unlisted(before: map<Name, Dir>, after: map<Name, Dir>, stale: seq<Name>)
    requires forall x :: x in after <==> x in before && (x !in stale || x in {})
    ensures forall x :: x in after <==> x in before && x !in Elements(stale)
  {
    forall x ensures x in after <==> x in before && x !in Elements(stale) {
      assert x in stale <==> x in Elements(stale);
    }
  }

  /**
   When every removal succeeds, what is left is the protected unit, whatever its own
   mtime, and the newest others up to the remaining slots; no staging directory is left.
   */
  lemma PruneKeepsNewest(scan: Scan, d: Disk, keep: int, protect: Option<Name>)
    requires Exact(scan.units, d.units) && Exact(scan.staging, d.staging)
    requires scan.stuckUnits == {} && scan.stuckStaging == {}
    ensures var after := ApplyAll(d, PruneEffects(scan, d.units, keep, protect));
            var guarded := Protected(protect, d.units);
            && after.staging == map[] && after.marker == d.marker
            && NewestSurvive(d.units, after.units, guarded, if keep - |guarded| > 0 then keep - |guarded| else 0)
  {
    PruneRemoves(scan, d, keep, protect);
    PrunedKeepsNewest(scan, d, keep, protect, StaleUnits(scan, d.units, keep, protect),
                      ApplyAll(d, PruneEffects(scan, d.units, keep, protect)));
  }

  lemma PrunedKeepsNewest(scan: Scan, d: Disk, keep: int, protect: Option<Name>, stale: seq<Name>, after: Disk)
    requires Exact(scan.units, d.units) && Exact(scan.staging, d.staging)
    requires stale == StaleUnits(scan, d.units, keep, protect)
    requires forall x :: x in after.units <==> x in d.units && (x !in stale || x in {})
    requires forall x | x in after.units :: after.units[x] == d.units[x]
    requires forall x :: x in after.staging <==> x in d.staging && (x !in scan.staging || x in {})
    ensures after.staging == map[]
    ensures var guarded := Protected(protect, d.units);
            NewestSurvive(d.units, after.units, guarded, if keep - |guarded| > 0 then keep - |guarded| else 0)
  {
    StaleIsOldest(scan, d.units, keep, protect);
    NoneStaged(scan.staging, d.staging, after.staging);
    Unlisted(d.units, after.units, stale);
    var guarded := Protected(protect, d.units);
    Survivors(d.units, after.units, Elements(stale), guarded, if keep - |guarded| > 0 then keep - |guarded| else 0);
  }

  /** A removal that fails only enlarges what survives, by the directory it failed on. */
  lemma FailedRemovalOnlyEnlarges(scan: Scan, d: Disk, keep: int, protect: Option<Name>)
    ensures var ideal := ApplyAll(d, PruneEffects(scan.(stuckUnits := {}, stuckStaging := {}), d.units, keep, protect));
            var after := ApplyAll(d, PruneEffects(scan, d.units, keep, protect));
            && ideal.units.Keys <= after.units.Keys <= ideal.units.Keys + scan.stuckUnits
            && ideal.staging.Keys <= after.staging.Keys <= ideal.staging.Keys + scan.stuckStaging
            && after.units.Keys <= d.units.Keys && d.units.Keys * scan.stuckUnits <= after.units.Keys
            && (forall n | n in after.units :: n in d.units && after.units[n] == d.units[n])
  {
    PruneRemoves(scan.(stuckUnits := {}, stuckStaging := {}), d, keep, protect);
    PruneRemoves(scan, d, keep, protect);
  }

  /** The protected unit is never among the units that a prune removes. */
  lemma ProtectedIsNeverStale(scan: Scan, units: map<Name, Dir>, keep: int, n: Name)
    requires n in units
    ensures n !in StaleUnits(scan, units, keep, Some(n))
  {
    var sorted := SortByMtime(Candidates(scan.units, units, Some(n)), units);
    var stale := StaleUnits(scan, units, keep, Some(n));
    forall i | 0 <= i < |stale| ensures stale[i] != n {
      assert stale[i] == sorted[i] && sorted[i] in sorted;
    }
  }
}
