/** Incremental dataset backups: ds_create with its cleanup.  Every zfs and ssh call may fail, and a failed one has
    no effect. */
module BackupCommands {
  import opened Options
  import opened Snapshots
  import opened ZfsNames
  import opened BackupSteps
  import opened BackupDelete

  /** What ds_create tells its caller. */
  datatype Response = Response(success: bool, updateSnapshots: seq<Renamed>, lastSnapshotName: Option<string>,
                               deletedLastSnapshotNames: seq<string>)

  ghost function Last(name: Option<string>, live: nat): (r: Option<Snapshot>) {
    if name.Some? then Some(Snapshot(name.value, live)) else None
  }

  /** Exactly the calls that succeed when no command fails by itself. */
  predicate Accepts(s: Stores, snapshot: string, dest: string, stamp: string) {
    SplitSnapshot(snapshot).Some? && Feasible(s, SnapDataset(snapshot), SnapName(snapshot), dest, ArchiveName(dest, stamp))
  }

  lemma AcceptsParts(s: Stores, snapshot: string, dest: string, stamp: string)
    ensures Accepts(s, snapshot, dest, stamp) <==>
              SplitSnapshot(snapshot).Some? && Feasible(s, SnapDataset(snapshot), SnapName(snapshot), dest, ArchiveName(dest, stamp))
  {
  }

  lemma LastComputed(name: Option<string>, live: nat)
    ensures Last(name, live) == if name.Some? then Some(Snapshot(name.value, live)) else None
  {
  }

  class Backup {
    /** Whether commands may fail for reasons outside the modelled state. */
    const faulty: bool
    var stores: Stores
    /** Renames made by archiving the destination. */
    var updateSnapshots: seq<Renamed>
    /** The snapshot created on the source. */
    var lastSnapshot: Option<string>
    /** Snapshots destroyed on the source. */
    var deletedLastSnapshotNames: seq<string>
    /** Backups deleted by ds_delete. */
    var deletedSnapshots: seq<string>

    constructor (stores: Stores, faulty: bool)
      ensures this.stores == stores && this.faulty == faulty
      ensures updateSnapshots == [] && lastSnapshot == None && deletedLastSnapshotNames == []
    {
      this.stores, this.faulty := stores, faulty;
      updateSnapshots, lastSnapshot, deletedLastSnapshotNames, deletedSnapshots := [], None, [], [];
    }

    // ---- commands ---------------------------------------------------------------------------------

    method Fault() returns (f: bool)
      ensures f ==> faulty
    {
      f := *;
      f := f && faulty;
    }

    method ListSnapshots(m: map<string, seq<Snapshot>>, ds: string) returns (ok: bool, names: seq<string>)
      ensures ok ==> ds in m && names == Listed(m[ds], PREFIX)
      ensures !ok ==> faulty || ds !in m
    {
      var f := Fault();
      ok := !f && ds in m;
      names := if ok then Listed(m[ds], PREFIX) else [];
    }

    method DestroyRemote(ds: string, names: set<string>) returns (ok: bool)
      modifies `stores
      ensures ok ==> CanDestroy(old(stores).remote, ds, names)
                     && stores == old(stores).(remote := AfterDestroy(old(stores).remote, ds, names))
      ensures !ok ==> stores == old(stores) && (faulty || !CanDestroy(stores.remote, ds, names))
    {
      var f := Fault();
      ok := !f && CanDestroy(stores.remote, ds, names);
      if ok {
        stores := stores.(remote := AfterDestroy(stores.remote, ds, names));
      }
    }

    method RenameDataset(dest: string, archive: string) returns (ok: bool)
      modifies `stores
      ensures ok ==> CanArchive(old(stores), dest, archive) && stores == AfterArchive(old(stores), dest, archive)
      ensures !ok ==> stores == old(stores) && (faulty || !CanArchive(stores, dest, archive))
    {
      var f := Fault();
      ok := !f && CanArchive(stores, dest, archive);
      if ok {
        stores := AfterArchive(stores, dest, archive);
      }
    }

    method CreateSnapshot(ds: string, name: string) returns (ok: bool, x: Snapshot)
      modifies `stores
      ensures x.name == name
      ensures ok ==> CanSnap(old(stores), ds, name) && stores == AfterSnap(old(stores), ds, x)
      ensures !ok ==> stores == old(stores) && (faulty || !CanSnap(stores, ds, name))
    {
      var f := Fault();
      var data: nat := *;
      x := Snapshot(name, data);
      ok := !f && CanSnap(stores, ds, name);
      if ok {
        stores := AfterSnap(stores, ds, x);
      }
    }

    method BackupDataset(ds: string, x: Snapshot, dest: string, base: Option<string>) returns (ok: bool)
      modifies `stores
      ensures ok ==> CanRecv(old(stores), ds, base, x, dest) && stores == AfterRecv(old(stores), base, x, dest)
      ensures !ok ==> stores == old(stores) && (faulty || !CanRecv(stores, ds, base, x, dest))
    {
      var f := Fault();
      ok := !f && CanRecv(stores, ds, base, x, dest);
      if ok {
        stores := AfterRecv(stores, base, x, dest);
      }
    }

    // ---- ds_create --------------------------------------------------------------------------------

    /** Everything up to the new snapshot: checks, the choice of the base, archiving, and the removal of snapshots
        that are of no use any more. */
    method Prepare(ds: string, dest: string, archive: string) returns (ok: bool, base: Option<string>, ghost landing: Landing)
      requires Wellformed(stores.local) && Wellformed(stores.remote)
      requires updateSnapshots == [] && deletedLastSnapshotNames == []
      modifies `stores, `updateSnapshots, `deletedLastSnapshotNames
      ensures Ledger(old(stores).remote, stores.remote, ds, deletedLastSnapshotNames, None)
      ensures landing != Received
      ensures forall x :: Landed(old(stores), stores.local, ds, x, dest, archive, landing, updateSnapshots)
      ensures ok ==> && base == Base(old(stores), ds, dest)
                     && Prepared(old(stores), stores, ds, dest, archive, updateSnapshots, deletedLastSnapshotNames)
                     && CountOf(dest, '/') >= 2 && ParentOf(dest) in old(stores).local
      ensures !ok ==> deletedLastSnapshotNames == []
      ensures Base(old(stores), ds, dest).Some? ==> landing == Untouched && (!ok ==> stores == old(stores))
      ensures !ok ==> faulty || forall name :: !Feasible(old(stores), ds, name, dest, archive)
    {
      hide *;
      ghost var s0 := stores;
      base, landing := None, Untouched;
      LedgerStart(s0.remote, ds);
      LandedStart(s0, ds, dest, archive);
      forall name | Feasible(s0, ds, name, dest, archive)
        ensures CountOf(dest, '/') >= 2 && ParentOf(dest) in s0.local && ds in s0.remote
        ensures dest in s0.local ==> Listed(s0.local[dest], PREFIX) != []
        ensures Archives(s0, ds, dest) ==> Vacant(s0.local, archive)
      {
        NotFeasible(s0, ds, name, dest, archive);
      }
      var f := Fault();
      ok := CountOf(dest, '/') >= 2 && ParentOf(dest) in stores.local && !f;
      if !ok {
        return;
      }
      var remoteSnapshots;
      ok, remoteSnapshots := ListSnapshots(stores.remote, ds);
      if !ok {
        return;
      }
      BaseComputed(s0, ds, dest);
      ArchivedComputed(s0, ds, dest, archive);
      f := Fault();
      if f {
        ok := false;
        return;
      }
      if dest in stores.local {
        var localSnapshots;
        ok, localSnapshots := ListSnapshots(stores.local, dest);
        if !ok || localSnapshots == [] {
          ok := false;
          return;
        }
        var mostRecent := localSnapshots[|localSnapshots| - 1];
        if mostRecent in remoteSnapshots {
          base := Some(mostRecent);
          remoteSnapshots := Without(remoteSnapshots, mostRecent);
        } else {
          ok := RenameDataset(dest, archive);
          if !ok {
            return;
          }
          LandedAside(s0, ds, dest, archive);
          landing := MovedAside;
          updateSnapshots := RenameTable(dest, localSnapshots, archive);
        }
      }
      DoomedGo(s0, ds, dest);
      if remoteSnapshots != [] {
        ok := DestroyRemote(ds, NameSet(remoteSnapshots));
        if !ok {
          return;
        }
        deletedLastSnapshotNames := remoteSnapshots;
      }
      PreparedNow(s0, stores, ds, dest, archive, updateSnapshots, deletedLastSnapshotNames);
    }

    /** The part of ds_create that may raise. */
    method Create(snapshot: string, ds: string, name: string, dest: string, archive: string)
      returns (ok: bool, ghost live: nat, ghost landing: Landing)
      requires Wellformed(stores.local) && Wellformed(stores.remote) && IsArchive(dest, archive)
      requires updateSnapshots == [] && deletedLastSnapshotNames == [] && lastSnapshot == None
      modifies `stores, `updateSnapshots, `deletedLastSnapshotNames, `lastSnapshot
      ensures lastSnapshot == None || lastSnapshot == Some(snapshot)
      ensures Ledger(old(stores).remote, stores.remote, ds, deletedLastSnapshotNames,
                     if lastSnapshot.Some? then Some(Snapshot(name, live)) else None)
      ensures Landed(old(stores), stores.local, ds, Snapshot(name, live), dest, archive, landing, updateSnapshots)
      ensures ok ==> && lastSnapshot.Some? && landing == Received && Feasible(old(stores), ds, name, dest, archive)
                     && Backed(old(stores), stores, ds, Snapshot(name, live), dest, archive, updateSnapshots, deletedLastSnapshotNames)
      ensures ok && !faulty && Base(old(stores), ds, dest).Some? ==> Base(old(stores), ds, dest).value in deletedLastSnapshotNames
      ensures !ok ==> Base(old(stores), ds, dest).Some? ==>
                        landing == Untouched && Base(old(stores), ds, dest).value !in deletedLastSnapshotNames
      // all but setting readonly succeeded
      ensures !ok && landing == Received ==>
                && faulty && lastSnapshot.Some? && Feasible(old(stores), ds, name, dest, archive)
                && Base(old(stores), ds, dest).None? && deletedLastSnapshotNames == Doomed(old(stores), ds, dest)
      ensures !ok ==> faulty || !Feasible(old(stores), ds, name, dest, archive)
    {
      hide *;
      ghost var s0 := stores;
      live := 0;
      var base;
      ok, base, landing := Prepare(ds, dest, archive);
      if !ok {
        return;
      }
      ghost var s1 := stores;
      PreparedBase(s0, s1, ds, dest, archive, updateSnapshots, deletedLastSnapshotNames);
      PreparedSnap(s0, s1, ds, name, dest, archive, updateSnapshots, deletedLastSnapshotNames);
      if Feasible(s0, ds, name, dest, archive) {
        SnapFits(s0, ds, name, dest, archive);
      }
      var x;
      ok, x := CreateSnapshot(ds, name);
      if !ok {
        return;
      }
      live := x.content;
      lastSnapshot := Some(snapshot);
      PreparedRecv(s0, s1, ds, x, dest, archive, updateSnapshots, deletedLastSnapshotNames);
      SnapLocal(s1, ds, x);
      ok := BackupDataset(ds, x, dest, base);
      if !ok {
        return;
      }
      ReceivedBacked(s0, s1, ds, x, dest, archive, updateSnapshots, deletedLastSnapshotNames);
      BackedLanded(s0, stores, ds, x, dest, archive, updateSnapshots, deletedLastSnapshotNames);
      landing := Received;
      ghost var deleted := deletedLastSnapshotNames;
      if base.Some? {
        BaseGone(s0, stores, ds, x, dest, archive, updateSnapshots, deleted);
        var destroyed := DestroyRemote(ds, {base.value});
        if destroyed {
          deletedLastSnapshotNames := deletedLastSnapshotNames + [base.value];
          LastIsMember(deleted, base.value);
        }
      } else {
        // Setting readonly on the new dataset.
        var f := Fault();
        ok := !f;
      }
    }

    /** ds_create_cleanup. */
    method CreateCleanup() returns (response: Response)
      modifies `stores
      ensures !response.success && response.updateSnapshots == updateSnapshots
      ensures response.deletedLastSnapshotNames == deletedLastSnapshotNames
      ensures stores.local == old(stores).local
      ensures lastSnapshot == None ==> stores == old(stores) && response.lastSnapshotName == None
      ensures lastSnapshot.Some? ==>
                var ds, name := SnapDataset(lastSnapshot.value), SnapName(lastSnapshot.value);
                if response.lastSnapshotName == None
                then stores.remote == AfterDestroy(old(stores).remote, ds, {name})
                else stores == old(stores) && response.lastSnapshotName == Some(name)
                     && (faulty || !CanDestroy(stores.remote, ds, {name}))
    {
      response := Response(false, updateSnapshots, None, deletedLastSnapshotNames);
      if lastSnapshot.Some? {
        var ok := DestroyRemote(SnapDataset(lastSnapshot.value), {SnapName(lastSnapshot.value)});
        if !ok {
          response := response.(lastSnapshotName := Some(SnapName(lastSnapshot.value)));
        }
      }
    }

    /** One backup.  Whatever fails, the books are exact on the source, no earlier backup is lost at the destination,
        and the base of a failed incremental backup is still on both sides.  `landing` tells how far it came. */
    method DsCreate(snapshot: string, dest: string, stamp: string) returns (response: Response, ghost live: nat, ghost landing: Landing)
      requires Wellformed(stores.local) && Wellformed(stores.remote) && '@' !in dest && '@' !in stamp
      requires updateSnapshots == [] && deletedLastSnapshotNames == [] && lastSnapshot == None
      modifies `stores, `updateSnapshots, `deletedLastSnapshotNames, `lastSnapshot
      ensures Wellformed(stores.remote)
      ensures response.lastSnapshotName.Some? ==> response.lastSnapshotName.value == SnapName(snapshot)
      ensures Ledger(old(stores).remote, stores.remote, SnapDataset(snapshot), response.deletedLastSnapshotNames,
                     Last(response.lastSnapshotName, live))
      // the destination side: its exact state, and what the table finds
      ensures Landed(old(stores), stores.local, SnapDataset(snapshot), Snapshot(SnapName(snapshot), live), dest,
                     ArchiveName(dest, stamp), landing, response.updateSnapshots)
      ensures Safekept(old(stores).local, stores.local, dest)
      ensures Preserved(old(stores).local, stores.local, response.updateSnapshots) <==>
                || landing == Untouched || !Archives(old(stores), SnapDataset(snapshot), dest)
                || NoBackupBelow(old(stores).local, dest)
      // success
      ensures response.success ==>
                && response.lastSnapshotName.Some? && landing == Received
                && Backed(old(stores), stores, SnapDataset(snapshot), Snapshot(SnapName(snapshot), live), dest,
                          ArchiveName(dest, stamp), response.updateSnapshots, response.deletedLastSnapshotNames)
      ensures response.success && !faulty && Base(old(stores), SnapDataset(snapshot), dest).Some? ==>
                Base(old(stores), SnapDataset(snapshot), dest).value in response.deletedLastSnapshotNames
      ensures !response.success && !faulty ==> response.lastSnapshotName == None
      // failure
      ensures !response.success && Base(old(stores), SnapDataset(snapshot), dest).Some? ==>
                && landing == Untouched && stores.local == old(stores).local
                && Base(stores, SnapDataset(snapshot), dest) == Base(old(stores), SnapDataset(snapshot), dest)
                && Base(old(stores), SnapDataset(snapshot), dest).value !in response.deletedLastSnapshotNames
      ensures !response.success && landing == Received ==>
                && faulty && Accepts(old(stores), snapshot, dest, stamp) && Base(old(stores), SnapDataset(snapshot), dest).None?
                && dest in stores.local && stores.local[dest] == [Snapshot(SnapName(snapshot), live)]
                && (Archives(stores, SnapDataset(snapshot), dest) <==>
                      response.lastSnapshotName == None || !(PREFIX <= SnapName(snapshot)))
      ensures response.success ==> Accepts(old(stores), snapshot, dest, stamp)
      ensures !response.success ==> faulty || !Accepts(old(stores), snapshot, dest, stamp)
    {
      hide *;
      ghost var s0 := stores;
      var ok := false;
      live, landing := 0, Untouched;
      ghost var ds, name := SnapDataset(snapshot), SnapName(snapshot);
      LedgerStart(s0.remote, ds);
      LandedStart(s0, ds, dest, ArchiveName(dest, stamp));
      UntouchedSafe(s0, dest);
      ArchiveFits(dest, stamp);
      AcceptsParts(s0, snapshot, dest, stamp);
      LastComputed(None, live);
      if SplitSnapshot(snapshot).Some? {
        SplitParts(snapshot);
        ok, live, landing := Create(snapshot, SplitSnapshot(snapshot).value.0, SplitSnapshot(snapshot).value.1, dest, ArchiveName(dest, stamp));
        LandedSafe(s0, stores.local, ds, Snapshot(name, live), dest, ArchiveName(dest, stamp), landing, updateSnapshots);
        LandedFound(s0, stores.local, ds, Snapshot(name, live), dest, ArchiveName(dest, stamp), landing, updateSnapshots);
        LastComputed(None, live);
        LastComputed(Some(name), live);
      }
      ghost var s1 := stores;
      if ok {
        response := Response(true, updateSnapshots, Some(SnapName(lastSnapshot.value)), deletedLastSnapshotNames);
      } else {
        if lastSnapshot.Some? {
          LedgerUndo(s0.remote, s1.remote, ds, deletedLastSnapshotNames, Snapshot(name, live));
        }
        response := CreateCleanup();
        if landing == Received {
          FeasibleSource(s0, ds, name, dest, ArchiveName(dest, stamp));
          AfterReadonlyFailure(s0, stores, ds, Snapshot(name, live), dest, ArchiveName(dest, stamp), updateSnapshots,
                               deletedLastSnapshotNames, Last(response.lastSnapshotName, live));
        }
        if Base(s0, ds, dest).Some? {
          UntouchedLocal(s0, stores.local, ds, Snapshot(name, live), dest, ArchiveName(dest, stamp), updateSnapshots);
          BaseSurvives(s0, stores, ds, dest, deletedLastSnapshotNames, Last(response.lastSnapshotName, live));
        }
      }
      if SplitSnapshot(snapshot).None? {
        LedgerWellformed(s0.remote, stores.remote, ds, [], None);
      } else {
        LedgerWellformed(s0.remote, stores.remote, ds, response.deletedLastSnapshotNames, Last(response.lastSnapshotName, live));
      }
    }

    // ---- ds_delete --------------------------------------------------------------------------------

    method DestroyLocal(ds: string, names: set<string>) returns (ok: bool)
      modifies `stores
      ensures stores.remote == old(stores).remote
      ensures ok ==> ds in old(stores).local && stores.local == AfterDestroy(old(stores).local, ds, names)
      ensures !ok ==> stores == old(stores) && (faulty || !CanDestroy(stores.local, ds, names))
    {
      var f := Fault();
      ok := !f && CanDestroy(stores.local, ds, names);
      if ok {
        stores := stores.(local := AfterDestroy(stores.local, ds, names));
      }
    }

    method DestroyTree(ds: string) returns (ok: bool)
      modifies `stores
      ensures stores.remote == old(stores).remote
      ensures ok ==> ds in old(stores).local && stores.local == WithoutTree(old(stores).local, ds)
      ensures !ok ==> stores == old(stores) && (faulty || ds !in stores.local)
    {
      var f := Fault();
      ok := !f && ds in stores.local;
      if ok {
        stores := stores.(local := WithoutTree(stores.local, ds));
      }
    }

    /** The request grouped by dataset. */
    method GroupSnapshots(snapshots: seq<string>) returns (groups: map<string, seq<string>>)
      ensures Grouped(snapshots, groups)
    {
      hide *;
      groups := map[];
      GroupedStart();
      var i := 0;
      while i < |snapshots|
        invariant 0 <= i <= |snapshots| && Grouped(snapshots[..i], groups)
      {
        var d := SnapDataset(snapshots[i]);
        GroupedStep(snapshots[..i], groups, snapshots[i]);
        assert snapshots[..i + 1] == snapshots[..i] + [snapshots[i]];
        groups := groups[d := (if d in groups then groups[d] else []) + [snapshots[i]]];
        i := i + 1;
      }
      assert snapshots[..i] == snapshots;
    }

    /** The backups that are on the affected datasets now. */
    method ListCurrent(datasets: set<string>) returns (ok: bool, current: map<string, set<string>>)
      ensures ok ==> current.Keys == datasets && AllListed(stores.local, current)
      ensures !ok ==> faulty || !(datasets <= stores.local.Keys)
    {
      hide *;
      current, ok := map[], true;
      AllListedStart(stores.local);
      var todo := datasets;
      while todo != {}
        invariant ok && todo <= datasets && current.Keys == datasets - todo && AllListed(stores.local, current)
        decreases todo
      {
        var d :| d in todo;
        var f := Fault();
        if f || d !in stores.local {
          ok := false;
          return;
        }
        AllListedStep(stores.local, current, d);
        current := current[d := Current(stores.local, d)];
        todo := todo - {d};
      }
    }

    /** Destroys what is requested of one dataset and adds it to the report. */
    method DeleteOn(d: string, group: seq<string>, current: set<string>, ghost m0: Store, ghost done: set<string>,
                    ghost snapshots: seq<string>) returns (ok: bool)
      requires Wellformed(m0) && d in m0 && d !in done && current == Current(m0, d) && group == Group(snapshots, d)
      requires Deleting(m0, stores.local, done, snapshots) && Reported(m0, done, snapshots, deletedSnapshots)
      requires done <= Datasets(snapshots) && d in Datasets(snapshots)
      modifies `stores, `deletedSnapshots
      ensures stores.remote == old(stores).remote
      ensures var now := if ok then done + {d} else done;
              Deleting(m0, stores.local, now, snapshots) && Reported(m0, now, snapshots, deletedSnapshots)
      ensures !ok ==> faulty || !Orderly(m0, snapshots)
    {
      hide *;
      ok := true;
      GroupMembers(snapshots, d);
      ChosenAreHits(m0, d, snapshots, group, current);
      var names := Chosen(group, current);
      if names == {} {
        DeletingSkip(m0, stores.local, done, snapshots, d, deletedSnapshots);
        return;
      }
      ReportedMore(m0, done, snapshots, deletedSnapshots, d, group);
      if Orderly(m0, snapshots) {
        StillThere(m0, stores.local, done, snapshots, d);
      }
      if current - NameSet(group) != {} {
        ok := DestroyLocal(d, names);
        if ok {
          DeletingKeep(m0, old(stores).local, done, snapshots, d);
        }
      } else {
        ok := DestroyTree(d);
        if ok {
          DeletingCollapse(m0, old(stores).local, done, snapshots, d);
        }
      }
      if ok {
        deletedSnapshots := deletedSnapshots + group;
      }
    }

    /** Deletes backups; the first failing command ends it, and the report names what was deleted up to then. */
    method DsDelete(snapshots: seq<string>) returns (ok: bool, ghost done: set<string>)
      requires Wellformed(stores.local)
      modifies `stores, `deletedSnapshots
      ensures stores.remote == old(stores).remote && done <= Datasets(snapshots)
      ensures Deleting(old(stores).local, stores.local, done, snapshots)
      ensures Reported(old(stores).local, done, snapshots, deletedSnapshots)
      ensures ok ==> done == Datasets(snapshots)
      ensures !ok ==> faulty || !Orderly(old(stores).local, snapshots) || !(Datasets(snapshots) <= old(stores).local.Keys)
      ensures !ok && !(Datasets(snapshots) <= old(stores).local.Keys) ==> stores == old(stores) && deletedSnapshots == []
      ensures ok ==> Datasets(snapshots) <= old(stores).local.Keys
    {
      hide *;
      ghost var m0 := stores.local;
      deletedSnapshots, done := [], {};
      DeletingStart(m0, snapshots);
      var groups := GroupSnapshots(snapshots);
      GroupedKeys(snapshots, groups);
      var current;
      ok, current := ListCurrent(groups.Keys);
      if !ok {
        return;
      }
      ListedExist(m0, current);
      var todo := groups.Keys;
      while todo != {}
        invariant ok && todo <= groups.Keys && done == groups.Keys - todo && stores.remote == old(stores).remote
        invariant Deleting(m0, stores.local, done, snapshots) && Reported(m0, done, snapshots, deletedSnapshots)
        decreases todo
      {
        var d :| d in todo;
        ListedOf(m0, current, d);
        GroupedOf(snapshots, groups, d);
        ok := DeleteOn(d, groups[d], current[d], m0, done, snapshots);
        if !ok {
          return;
        }
        todo, done := todo - {d}, done + {d};
      }
    }
  }
}

/** Runs of several backups. */
module BackupRuns {
  import opened Options
  import opened Snapshots
  import opened ZfsNames
  import opened BackupSteps
  import opened BackupDelete
  import opened BackupCommands

  /** One call of ds_create, and the source host as it is at that time. */
  datatype Call = Call(snapshot: string, dest: string, stamp: string, remote: map<string, seq<Snapshot>>)

  ghost predicate Sound(c: Call) {
    Wellformed(c.remote) && '@' !in c.dest && '@' !in c.stamp && '/' !in c.stamp
  }

  /** No destination lies below another one, and no backup below a destination. */
  ghost predicate Unnested(m: map<string, seq<Snapshot>>, calls: seq<Call>) {
    && (forall i :: 0 <= i < |calls| ==> NoBackupBelow(m, calls[i].dest))
    && forall i, j :: 0 <= i < |calls| && 0 <= j < |calls| ==> !Below(calls[i].dest, calls[j].dest)
  }

  /** From every state of a run, every backup is found in the final state through the tables reported since. */
  ghost predicate NothingLost(states: seq<map<string, seq<Snapshot>>>, tables: seq<seq<Renamed>>, final: map<string, seq<Snapshot>>) {
    |states| == |tables| && forall i :: 0 <= i < |states| ==> Traceable(states[i], final, tables[i..])
  }

  /** From every state of a run, every backup is still on the server in the final state. */
  ghost predicate AllHeld(states: seq<map<string, seq<Snapshot>>>, final: map<string, seq<Snapshot>>) {
    forall i :: 0 <= i < |states| ==> Held(states[i], final)
  }

  lemma NothingLostStep(states: seq<map<string, seq<Snapshot>>>, tables: seq<seq<Renamed>>, m: map<string, seq<Snapshot>>,
                        table: seq<Renamed>, m1: map<string, seq<Snapshot>>)
    requires NothingLost(states, tables, m) && Preserved(m, m1, table)
    ensures NothingLost(states + [m], tables + [table], m1)
  {
    var more := tables + [table];
    forall i | 0 <= i < |states + [m]| ensures Traceable((states + [m])[i], m1, more[i..]) {
      if i < |states| {
        TraceableStep(states[i], m, m1, tables[i..], table);
        assert more[i..] == tables[i..] + [table];
      } else {
        TraceableStart(m);
        TraceableStep(m, m, m1, [], table);
        assert more[i..] == [] + [table];
      }
    }
  }

  lemma AllHeldStep(states: seq<map<string, seq<Snapshot>>>, m: map<string, seq<Snapshot>>, m1: map<string, seq<Snapshot>>)
    requires AllHeld(states, m) && Held(m, m1)
    ensures AllHeld(states + [m], m1)
  {
    hide Held;
    forall i | 0 <= i < |states + [m]| ensures Held((states + [m])[i], m1) {
      if i < |states| {
        HeldTwice(states[i], m, m1);
      }
    }
  }

  lemma SafekeptParts(m0: map<string, seq<Snapshot>>, m: map<string, seq<Snapshot>>, dest: string)
    requires Safekept(m0, m, dest)
    ensures Wellformed(m) && Held(m0, m)
  {
  }

  lemma NothingLostStart(m: map<string, seq<Snapshot>>)
    ensures NothingLost([], [], m) && AllHeld([], m)
  {
  }

  /** One call neither puts a backup below a destination nor hides one. */
  lemma UnnestedStep(calls: seq<Call>, i: nat, s0: Stores, m: map<string, seq<Snapshot>>, ds: string, x: Snapshot, landing: Landing,
                     table: seq<Renamed>)
    requires Unnested(s0.local, calls) && i < |calls| && Sound(calls[i])
    requires Landed(s0, m, ds, x, calls[i].dest, ArchiveName(calls[i].dest, calls[i].stamp), landing, table)
    ensures Unnested(m, calls) && NoBackupBelow(s0.local, calls[i].dest)
  {
    hide NoBackupBelow, Landed, Below, Wellformed, ArchiveName, IsArchive;
    var dest, stamp := calls[i].dest, calls[i].stamp;
    ArchiveFits(dest, stamp);
    forall j | 0 <= j < |calls| ensures NoBackupBelow(m, calls[j].dest) {
      NotBelowArchive(calls[j].dest, dest, stamp);
      StaysUnnested(s0, m, ds, x, dest, ArchiveName(dest, stamp), landing, table, calls[j].dest);
    }
  }

  /** Over any run of ds_create calls, to any destinations, with any failures, and with the source hosts changing at
      will in between, no earlier backup is lost from the server; and if no destination has another one or a backup below
      it, following the reported tables in order finds each one. */
  method Run(start: map<string, seq<Snapshot>>, calls: seq<Call>)
    returns (final: map<string, seq<Snapshot>>, tables: seq<seq<Renamed>>, ghost states: seq<map<string, seq<Snapshot>>>)
    requires Wellformed(start) && forall i :: 0 <= i < |calls| ==> Sound(calls[i])
    ensures |tables| == |calls| && Wellformed(final) && Held(start, final)
    ensures Unnested(start, calls) ==> Traceable(start, final, tables)
    ensures |states| == |calls| && AllHeld(states, final)
    ensures Unnested(start, calls) ==> NothingLost(states, tables, final)
    ensures calls != [] ==> states[0] == start
  {
    hide *;
    final, tables, states := start, [], [];
    NothingLostStart(start);
    var i := 0;
    while i < |calls|
      invariant 0 <= i <= |calls| && |tables| == |states| == i && Wellformed(final) && AllHeld(states, final)
      invariant Unnested(start, calls) ==> Unnested(final, calls) && NothingLost(states, tables, final)
      invariant states != [] ==> states[0] == start
      invariant i == 0 ==> final == start
    {
      SoundParts(calls[i]);
      var backup := new Backup(Stores(final, calls[i].remote), true);
      ghost var s0 := backup.stores;
      var response, live, landing := backup.DsCreate(calls[i].snapshot, calls[i].dest, calls[i].stamp);
      SafekeptParts(final, backup.stores.local, calls[i].dest);
      AllHeldStep(states, final, backup.stores.local);
      if Unnested(start, calls) {
        UnnestedStep(calls, i, s0, backup.stores.local, SnapDataset(calls[i].snapshot), Snapshot(SnapName(calls[i].snapshot), live), landing,
                     response.updateSnapshots);
        NothingLostStep(states, tables, final, response.updateSnapshots, backup.stores.local);
      }
      states, tables, final := states + [final], tables + [response.updateSnapshots], backup.stores.local;
      i := i + 1;
    }
    FromTheStart(states, tables, start, final);
  }

  lemma FromTheStart(states: seq<map<string, seq<Snapshot>>>, tables: seq<seq<Renamed>>, start: map<string, seq<Snapshot>>,
                     final: map<string, seq<Snapshot>>)
    requires |states| == |tables| && AllHeld(states, final) && if states == [] then final == start else states[0] == start
    ensures Held(start, final) && (NothingLost(states, tables, final) ==> Traceable(start, final, tables))
  {
    hide Held, Traceable;
    if states == [] {
      HeldSelf(start);
      TraceableStart(start);
    } else if NothingLost(states, tables, final) {
      assert Traceable(states[0], final, tables[0..]);
      assert tables[0..] == tables;
    }
  }

  lemma SoundParts(c: Call)
    requires Sound(c)
    ensures Wellformed(c.remote) && '@' !in c.dest && '@' !in c.stamp
  {
  }

  lemma {:induction false} ParentIsOther(dataset: string)
    ensures |ParentOf(dataset)| <= |dataset| && (dataset != "" ==> |ParentOf(dataset)| < |dataset|)
  {
    if dataset != "" && dataset[|dataset| - 1] != '/' {
      ParentIsOther(dataset[..|dataset| - 1]);
    }
  }

  /** What makes the backup after a successful one go through. */
  lemma NextAccepted(s0: Stores, s: Stores, snapshot: string, x: Snapshot, dest: string, stamp: string, table: seq<Renamed>,
                     deleted: seq<string>, next: string, stamp': string)
    requires Accepts(s0, snapshot, dest, stamp) && x.name == SnapName(snapshot) && PREFIX <= x.name && Wellformed(s0.local)
    requires Ledger(s0.remote, s.remote, SnapDataset(snapshot), deleted, Some(x)) && Safekept(s0.local, s.local, dest)
    requires Backed(s0, s, SnapDataset(snapshot), x, dest, ArchiveName(dest, stamp), table, deleted)
    requires SplitSnapshot(next).Some? && SnapDataset(next) == SnapDataset(snapshot)
    requires SnapName(next) !in Names(s.remote[SnapDataset(snapshot)]) && SnapName(next) !in Names(s.local[dest])
    ensures Accepts(s, next, dest, stamp') && Base(s, SnapDataset(snapshot), dest) == Some(x.name)
  {
    hide Base, Doomed, Ledger, BasePart, Wellformed, ArchiveTable, SnapDataset, SnapName, SplitSnapshot, Listed, Preserved, Drop, Names;
    var ds := SnapDataset(snapshot);
    NextIsIncremental(s0, s, ds, x, dest, ArchiveName(dest, stamp), table, deleted);
    ParentIsOther(dest);
    FewerNames(s.remote[ds], NameSet(Doomed(s, ds, dest)));
    BaseComputed(s, ds, dest);
    assert dest != "";
    assert ParentOf(dest) in s.local;
  }

  /** A name unused before a backup is unused after it, unless the backup took it. */
  lemma StillUnused(s0: Stores, s: Stores, ds: string, x: Snapshot, dest: string, archive: string, table: seq<Renamed>,
                    deleted: seq<string>, name: string)
    requires ds in s0.remote && Ledger(s0.remote, s.remote, ds, deleted, Some(x)) && name != x.name
    requires Backed(s0, s, ds, x, dest, archive, table, deleted)
    requires name !in Names(s0.remote[ds]) && (dest in s0.local ==> name !in Names(s0.local[dest]))
    ensures ds in s.remote && name !in Names(s.remote[ds]) && dest in s.local && name !in Names(s.local[dest])
  {
    hide Base, Doomed, Ledger, ArchiveTable, Drop, Listed;
    LedgerHolds(s0.remote, s.remote, ds, deleted, Some(x));
    forall y | y in s.remote[ds] ensures y.name != name {
      if y != x { InNames(s0.remote[ds], y); }
    }
    forall y | y in s.local[dest] ensures y.name != name {
      if y != x { InNames(s0.local[dest], y); }
    }
  }

  /** The second list is the first one and a new snapshot of this name. */
  predicate Extended(a: seq<Snapshot>, b: seq<Snapshot>, name: string) {
    |b| == |a| + 1 && b[..|a|] == a && b[|a|].name == name
  }

  /** The backup after a successful one only adds to the destination. */
  lemma NextGrows(s: Stores, s': Stores, ds: string, part: seq<Snapshot>, x: Snapshot, y: Snapshot, dest: string, archive: string,
                  table: seq<Renamed>, deleted: seq<string>)
    requires Wellformed(s.local) && dest in s.local && s.local[dest] == part + [x] && Base(s, ds, dest) == Some(x.name)
    requires Backed(s, s', ds, y, dest, archive, table, deleted)
    ensures table == [] && dest in s'.local && Extended(s.local[dest], s'.local[dest], y.name)
  {
    hide Base, Doomed, Listed, BasePart, Wellformed;
    var k := BaseIsNewest(s, ds, dest);
    var l := s.local[dest];
    assert l[|part|] == x;
    DistinctIn(s.local, dest);
    assert k == |part|;
    assert l[..k + 1] == l;
  }

  lemma DistinctIn(m: map<string, seq<Snapshot>>, d: string)
    requires Wellformed(m) && d in m
    ensures Distinct(m[d])
  {
  }

  lemma BackedShape(s0: Stores, s: Stores, ds: string, x: Snapshot, dest: string, archive: string, table: seq<Renamed>, deleted: seq<string>)
    requires Backed(s0, s, ds, x, dest, archive, table, deleted)
    ensures dest in s.local && s.local[dest] == BasePart(s0.local, Base(s0, ds, dest), dest) + [x]
  {
  }

  /** After a successful backup under a name with the backup prefix, another one under an unused name succeeds, is
      incremental on the first one, archives nothing, and adds its snapshot to the destination. */
  method Twice(s: Stores, snapshot: string, dest: string, stamp: string, nextName: string, nextStamp: string)
    returns (first: Response, s1: Stores, second: Response, s2: Stores)
    requires Wellformed(s.local) && Wellformed(s.remote) && '@' !in dest && '@' !in stamp && '@' !in nextStamp && '@' !in nextName
    requires PREFIX <= SnapName(snapshot) && nextName != SnapName(snapshot)
    requires SnapDataset(snapshot) in s.remote && nextName !in Names(s.remote[SnapDataset(snapshot)])
    requires dest in s.local ==> nextName !in Names(s.local[dest])
    ensures first.success ==> second.success && second.updateSnapshots == [] && second.lastSnapshotName == Some(nextName)
    ensures first.success ==> SnapName(snapshot) in second.deletedLastSnapshotNames
    ensures first.success ==> dest in s1.local && dest in s2.local && Extended(s1.local[dest], s2.local[dest], nextName)
  {
    hide *;
    second, s2 := Response(false, [], None, []), s;
    var one := new Backup(s, true);
    ghost var live;
    ghost var landing;
    first, live, landing := one.DsCreate(snapshot, dest, stamp);
    s1 := one.stores;
    if first.success {
      var ds := SnapDataset(snapshot);
      ghost var x := Snapshot(SnapName(snapshot), live);
      LastComputed(first.lastSnapshotName, live);
      SafekeptParts(s.local, s1.local, dest);
      AcceptsParts(s, snapshot, dest, stamp);
      StillUnused(s, s1, ds, x, dest, ArchiveName(dest, stamp), first.updateSnapshots, first.deletedLastSnapshotNames, nextName);
      SplitParts(snapshot);
      SplitBuilt(ds, nextName);
      var next := BuildSnapshot(ds, nextName);
      NextAccepted(s, s1, snapshot, x, dest, stamp, first.updateSnapshots, first.deletedLastSnapshotNames, next, nextStamp);
      BackedShape(s, s1, ds, x, dest, ArchiveName(dest, stamp), first.updateSnapshots, first.deletedLastSnapshotNames);
      var two := new Backup(s1, false);
      ghost var live2;
      second, live2, landing := two.DsCreate(next, dest, nextStamp);
      s2 := two.stores;
      NextGrows(s1, s2, ds, BasePart(s.local, Base(s, ds, dest), dest), x, Snapshot(nextName, live2), dest,
                ArchiveName(dest, nextStamp), second.updateSnapshots, second.deletedLastSnapshotNames);
    }
  }

  lemma {:induction false} CountJoined(d: string, n: string)
    requires '@' !in d && '@' !in n
    ensures CountOf(d + "@" + n, '@') == 1
  {
    var s := d + "@" + n;
    if d == "" {
      assert s[1..] == n;
      CountNone(n, '@');
    } else {
      assert s[0] == d[0] && s[1..] == d[1..] + "@" + n;
      CountJoined(d[1..], n);
    }
  }

  /** A dataset and a snapshot name joined split again. */
  lemma SplitBuilt(d: string, n: string)
    requires '@' !in d && '@' !in n
    ensures SplitSnapshot(BuildSnapshot(d, n)).Some? && SnapDataset(BuildSnapshot(d, n)) == d && SnapName(BuildSnapshot(d, n)) == n
  {
    CountJoined(d, n);
    SnapshotRoundTrip(d, n, "");
  }

  /** A backup that was made can be deleted again: without failing commands the request for it succeeds, although the dataset
      lies below another one, and if it has the backup prefix it is reported and gone. */
  method CreateThenDelete(s: Stores, snapshot: string, dest: string, stamp: string)
    returns (first: Response, ok: bool, deleted: seq<string>, final: Stores)
    requires Wellformed(s.local) && Wellformed(s.remote) && '@' !in dest && '@' !in stamp
    ensures first.success ==> ok
    ensures first.success && PREFIX <= SnapName(snapshot) ==>
              var full := BuildSnapshot(dest, SnapName(snapshot));
              full in deleted && !Present(final.local, full)
  {
    hide *;
    ok, deleted := false, [];
    var one := new Backup(s, true);
    ghost var live, landing, done;
    first, live, landing := one.DsCreate(snapshot, dest, stamp);
    final := one.stores;
    if first.success {
      var name := SnapName(snapshot);
      ghost var ds, x, m0 := SnapDataset(snapshot), Snapshot(name, live), final.local;
      var request := [BuildSnapshot(dest, name)];
      AcceptsParts(s, snapshot, dest, stamp);
      SplitParts(snapshot);
      SafekeptParts(s.local, m0, dest);
      BackedShape(s, final, ds, x, dest, ArchiveName(dest, stamp), first.updateSnapshots, first.deletedLastSnapshotNames);
      LastIsMember(BasePart(s.local, Base(s, ds, dest), dest), x);
      RequestOf(dest, name, request);
      OneDatasetOrderly(m0, request, dest);
      var two := new Backup(final, false);
      ok, done := two.DsDelete(request);
      deleted, final := two.deletedSnapshots, two.stores;
      if PREFIX <= name {
        DeletedAgain(m0, final.local, request, deleted, dest, x);
      }
    }
  }

  lemma RequestOf(dest: string, name: string, request: seq<string>)
    requires request == [BuildSnapshot(dest, name)] && '@' !in dest && '@' !in name
    ensures Datasets(request) == {dest} && SnapDataset(request[0]) == dest && SnapName(request[0]) == name
  {
    hide SnapDataset, SnapName;
    SnapshotRoundTrip(dest, name, "");
    assert request[0] in request;
  }

  lemma DeletedAgain(m0: Store, m: Store, request: seq<string>, deleted: seq<string>, dest: string, x: Snapshot)
    requires Wellformed(m0) && dest in m0 && x in m0[dest] && PREFIX <= x.name && request == [BuildSnapshot(dest, x.name)]
    requires Deleting(m0, m, Datasets(request), request) && Reported(m0, Datasets(request), request, deleted)
    ensures request[0] in deleted && !Present(m, request[0])
  {
    hide SnapDataset, SnapName, Deleting, Gone;
    RequestOf(dest, x.name, request);
    InNames(m0[dest], x);
    ListedMembers(m0[dest], PREFIX);
    assert request[0] in request && x.name in Hits(m0, dest, request);
    ReportedIsAbsent(m0, m, Datasets(request), request, deleted, request[0]);
  }
}
