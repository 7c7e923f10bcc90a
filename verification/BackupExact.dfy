/**
 The hypothesis on beginnings is exact: an upgrade can only be followed by clean publications
 if and only if the start it begins from leaves it shielded.
 */
module BackupExact {
  import opened Wrappers
  import opened BackupDisk
  import opened BackupProtocol
  import opened BackupSafety
  import opened BackupTheorems
  import opened BackupWitnesses

  /** Where the upgrade can stop without its marker standing in the way of a start. */
  lemma OpenStop(w: World) returns (stop: nat)
    requires WellFormed(w) && w.rest < w.image && !Shielded(w)
    ensures w.rest <= stop < w.image && MarkerGivesWay(w, stop)
  {
    stop := w.rest;
    if w.disk.marker.Some? && w.disk.marker.value.backup in w.disk.units {
      stop :| w.rest <= stop < w.image && Some(w.disk.marker.value.head) == Stamp(w.revs, stop);
    }
  }

  /** Half applied at a revision whose unit, not the marker's, is moved out if there is one. */
  lemma MoveOut(v: World) returns (run: seq<Event>)
    requires WellFormed(v) && ValidHistory(v.revs) && CleanDisk(v.revs, v.disk) && v.db.Some? && !v.migrating
    requires v.db.value.dirty && v.db.value.applied < v.image && MarkerGivesWay(v, v.db.value.applied)
    ensures RunBut(None, v, run) && DirtyPublished(Exec(v, run))
  {
    var j := v.db.value.applied;
    CleanNames(v.revs, v.disk, j);
    if CurrentPublished(v) {
      var n :| n in v.disk.units && n.rev == LabelAt(v.revs, j);
      var v' := Next(v, Archive(n));
      assert forall m | m in v'.disk.units :: m in v.disk.units && v'.disk.units[m] == v.disk.units[m];
      CleanNames(v'.revs, v'.disk, j);
      run := DirtyStart(None, v');
      run := Prepend(None, v, Archive(n), run);
    } else {
      run := DirtyStart(None, v);
    }
  }

  /** The upgrade stamps its way up to an open stop and dies inside the next revision. */
  lemma {:induction false} StampUp(v: World, stop: nat) returns (run: seq<Event>)
    requires WellFormed(v) && ValidHistory(v.revs) && CleanDisk(v.revs, v.disk)
    requires v.migrating && v.db.Some? && !v.db.value.dirty && v.db.value.applied <= stop < v.image
    requires MarkerGivesWay(v, stop)
    ensures RunBut(None, v, run) && DirtyPublished(Exec(v, run))
    decreases stop - v.db.value.applied
  {
    if v.db.value.applied == stop {
      run := MoveOut(v.(db := Some(Database(stop, true)), migrating := false));
      run := DiesHalfWay(None, v, run);
    } else {
      run := StampUp(v.(db := Some(Database(v.db.value.applied + 1, false))), stop);
      run := Stamps(None, v, run);
    }
  }

  /** An unshielded upgrade has a lawful continuation that publishes a dirty unit. */
  lemma UnshieldedBreaks(v: World) returns (run: seq<Event>)
    requires WellFormed(v) && ValidHistory(v.revs) && CleanDisk(v.revs, v.disk)
    requires v.migrating && v.db == Some(Database(v.rest, false)) && v.rest < v.image && !Shielded(v)
    ensures RunBut(None, v, run) && DirtyPublished(Exec(v, run))
  {
    var stop := OpenStop(v);
    run := StampUp(v, stop);
  }

  /** No lawful continuation publishes a dirty unit. */
  ghost predicate StaysClean(w: World) {
    forall es :: RunBut(None, w, es) ==> !DirtyPublished(Exec(w, es))
  }

  /**
   Exactly, for every start at rest below the head, whatever fails in it and however its hook
   ends: it leaves the upgrade shielded if and only if every lawful continuation publishes
   clean units only.
   */
  lemma StartIsSafeIff(w: World, s: Start)
    requires Sound(w) && Possible(w, Boot(s)) && Begins(w, Boot(s))
    ensures Shielded(Next(w, Boot(s))) <==> StaysClean(Next(w, Boot(s)))
  {
    var v, effects := Next(w, Boot(s)), PlanAt(w, s).effects;
    var ok := (d: Disk) => CleanDisk(w.revs, d);
    RestStartIsClean(w, s);
    assert effects[..|effects|] == effects;
    assert ok(ApplyAll(w.disk, effects[..|effects|]));
    if Shielded(v) {
      forall es | RunBut(None, v, es) ensures !DirtyPublished(Exec(v, es)) {
        RunKeepsSound(v, es);
      }
    } else {
      var run := UnshieldedBreaks(v);
      assert DirtyPublished(Exec(v, run));
    }
  }

  /**
   The same, read off the world before the start, for each way its hook can end: a backup with
   its marker written is safe, a skipped one when shielded before, a raise when shielded before
   and the marker untouched, an unwritten marker when the old one still shields.
   */
  lemma SafeBeginnings(w: World, s: Start)
    requires Sound(w) && Possible(w, Boot(s)) && Begins(w, Boot(s))
    ensures StaysClean(Next(w, Boot(s)))
       <==> match PlanAt(w, s).outcome
            case NoBackup => Shielded(w)
            case Raised => Shielded(w) && (s.faults.readRevision || s.faults.makeStaging || s.faults.writeMarker)
            case Backup(_) =>
              !s.faults.writeMarker
              || ((s.faults.readMarker || s.faults.clearMarker) && HeadShields(w)
                  && w.disk.marker.value.backup in Started(w, s).disk.units)
  {
    StartIsSafeIff(w, s);
    match PlanAt(w, s).outcome
    case NoBackup => SkippedBackup(w, s);
    case Raised => RaisedHookShieldsIff(w, s);
    case Backup(_) =>
      if s.faults.writeMarker { UnwrittenMarkerShieldsIff(w, s); } else { BackupShields(w, s); }
  }
}
