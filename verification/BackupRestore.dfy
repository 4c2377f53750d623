/** Restoring a backup into a dataset: the current dataset is moved aside, an empty one is created in its place, and
    either the restored data take its place or the dataset that was moved aside comes back. */
module BackupRestore {
  import opened Options
  import opened Snapshots

  datatype Child = Child(content: nat, zoned: bool)

  /** A dataset with the datasets below it, named relative to it. */
  datatype Dataset = Dataset(volume: bool, content: nat, snaps: seq<Snapshot>, zoned: bool, children: map<string, Child>)

  type Pool = map<string, Dataset>

  /** Volumes have no datasets below them and no zoned attribute. */
  ghost predicate Sound(d: Dataset) {
    d.volume ==> d.children == map[] && !d.zoned
  }

  /** The content of a new dataset. */
  const EMPTY: nat := 0

  function ZoneChildren(d: Dataset, on: bool): (r: Dataset) {
    d.(children := map c | c in d.children :: d.children[c].(zoned := on))
  }

  /** The same data, snapshots and child datasets, whatever the zoned attributes. */
  ghost predicate SameData(a: Dataset, b: Dataset) {
    && a.volume == b.volume && a.content == b.content && a.snaps == b.snaps
    && a.children.Keys == b.children.Keys && forall c :: c in a.children ==> a.children[c].content == b.children[c].content
  }

  /** How far a failed restore got. */
  datatype Stage =
    | Untouched          // a check failed, or nothing was changed yet
    | ChildrenUnzoned    // zoned is off on the children, and could not be set off on the dataset
    | Unzoned            // the dataset could not be moved aside
    | RolledBack         // the new dataset could not be created, filled, or given the children
    | TempLeft           // all done, but the dataset that was moved aside could not be destroyed

  /** What the stages before the last one leave of the dataset when their rollback succeeds. */
  function AfterFailure(d: Dataset, stage: Stage): (r: Dataset) {
    if d.volume then d
    else match stage
      case Untouched => d
      case ChildrenUnzoned => ZoneChildren(d, false)
      case Unzoned => ZoneChildren(d, false).(zoned := false)
      case RolledBack => ZoneChildren(d, true)
      case TempLeft => ZoneChildren(d, false).(zoned := false, children := map[])
  }

  /** A restored dataset: the data of the backup, and the children of the dataset that it replaces. */
  function Restored(d: Dataset, x: Snapshot, snaps: seq<Snapshot>): (r: Dataset) {
    ZoneChildren(d, true).(content := x.content, snaps := snaps)
  }

  /** A failed restore loses nothing. */
  lemma FailureKeepsData(d: Dataset, stage: Stage)
    requires stage != TempLeft
    ensures SameData(AfterFailure(d, stage), d)
    ensures stage == RolledBack ==> AfterFailure(d, stage).zoned == d.zoned
  {
  }

  lemma ZonedAlready(d: Dataset, on: bool)
    ensures ZoneChildren(d, on) == d <==> forall c :: c in d.children ==> d.children[c].zoned == on
  {
    if ZoneChildren(d, on) == d {
      forall c | c in d.children ensures d.children[c].zoned == on {
        assert ZoneChildren(d, on).children[c] == d.children[c];
      }
    } else {
      assert ZoneChildren(d, on).children != d.children;
      var c :| c in d.children && ZoneChildren(d, on).children[c] != d.children[c];
    }
  }

  lemma FailureAt(d: Dataset, stage: Stage)
    requires Sound(d) && stage != TempLeft
    ensures AfterFailure(d, stage) == d <==>
              || d.volume || stage == Untouched
              || (stage == RolledBack && forall c :: c in d.children ==> d.children[c].zoned)
              || (stage == ChildrenUnzoned && forall c :: c in d.children ==> !d.children[c].zoned)
              || (stage == Unzoned && !d.zoned && forall c :: c in d.children ==> !d.children[c].zoned)
  {
    ZonedAlready(d, true);
    ZonedAlready(d, false);
  }

  /** The datasets that every failed restore leaves exactly as they were, zoned attributes included. */
  predicate ZoningSafe(d: Dataset) {
    d.volume || (!d.zoned && d.children == map[])
  }

  /** Wherever a restore fails, a working rollback leaves the dataset exactly as it was, if and only if it is a volume or an
      unzoned filesystem with no dataset below it. */
  lemma FailureExact(d: Dataset)
    requires Sound(d)
    ensures (forall stage: Stage :: stage != TempLeft ==> AfterFailure(d, stage) == d) <==> ZoningSafe(d)
  {
    hide AfterFailure;
    forall stage: Stage | stage != TempLeft {
      FailureAt(d, stage);
    }
    if !d.volume && AfterFailure(d, RolledBack) == d && AfterFailure(d, Unzoned) == d {
      FailureAt(d, RolledBack);
      FailureAt(d, Unzoned);
      assert forall c :: c !in d.children;
    }
  }

  /** An unzoned filesystem with an unzoned child comes back from a rollback with the child zoned. */
  lemma RollbackZones() returns (d: Dataset)
    ensures Sound(d) && !d.volume && !d.zoned && SameData(AfterFailure(d, RolledBack), d) && AfterFailure(d, RolledBack) != d
  {
    d := Dataset(false, 1, [], false, map["data" := Child(2, false)]);
    FailureKeepsData(d, RolledBack);
    FailureAt(d, RolledBack);
    assert "data" in d.children && !d.children["data"].zoned;
  }

  /** The original dataset is at its place or at the temporary one. */
  ghost predicate Recoverable(d: Dataset, pool: Pool, dest: string, temp: string) {
    || (dest in pool && SameData(pool[dest], d))
    || (temp in pool && SameData(pool[temp], d))
  }

  lemma ZoningKeepsData(d: Dataset, on: bool, zoned: bool)
    ensures SameData(ZoneChildren(d, on).(zoned := zoned), d)
  {
  }

  lemma Rezoned(d: Dataset, zoned: bool)
    ensures ZoneChildren(ZoneChildren(d, false).(zoned := zoned), true) == ZoneChildren(d, true).(zoned := zoned)
  {
    var a, b := ZoneChildren(ZoneChildren(d, false).(zoned := zoned), true), ZoneChildren(d, true).(zoned := zoned);
    assert a.children == b.children;
  }

  lemma VolumeZoning(d: Dataset, on: bool)
    requires Sound(d) && d.volume
    ensures ZoneChildren(d, on) == d && d.(zoned := false) == d
  {
    assert ZoneChildren(d, on).children == d.children;
  }

  ghost predicate SameOthers(p0: Pool, p: Pool, dest: string, temp: string) {
    forall e :: e != dest && e != temp ==> (e in p <==> e in p0) && (e in p ==> p[e] == p0[e])
  }

  /** The dataset as it is moved aside. */
  function Aside(d: Dataset): (r: Dataset) {
    ZoneChildren(d, false).(zoned := false)
  }

  /** The dataset is at the temporary place, and an empty one of its kind at its own place. */
  ghost predicate SetAside(d: Dataset, p: Pool, dest: string, temp: string) {
    && dest in p && p[dest] == Dataset(d.volume, EMPTY, [], d.zoned, map[])
    && temp in p && p[temp] == Aside(d)
  }

  /** The whole pool after a failed restore whose rollback did not fail: no temporary dataset, the dataset as its
      stage says, everything else as it was. */
  ghost predicate Failed(p0: Pool, p: Pool, dest: string, stage: Stage) {
    p == if dest in p0 then p0[dest := AfterFailure(p0[dest], stage)] else p0
  }

  lemma FailedUntouched(p: Pool, dest: string)
    ensures Failed(p, p, dest, Untouched)
  {
  }

  lemma FailedStages(p: Pool, dest: string)
    requires dest in p
    ensures !p[dest].volume ==> Failed(p, p[dest := ZoneChildren(p[dest], false)], dest, ChildrenUnzoned)
    ensures !p[dest].volume ==> Failed(p, p[dest := ZoneChildren(p[dest], false).(zoned := false)], dest, Unzoned)
    ensures p[dest].volume ==> forall stage: Stage :: Failed(p, p, dest, stage)
  {
  }

  lemma FailedRolledBack(p0: Pool, p: Pool, dest: string, temp: string)
    requires SameOthers(p0, p, dest, temp) && dest in p0 && temp !in p0
    requires dest in p && temp !in p && p[dest] == AfterFailure(p0[dest], RolledBack)
    ensures Failed(p0, p, dest, RolledBack)
  {
    assert p.Keys == p0.Keys;
  }

  lemma RestoredNow(d: Dataset, x: Snapshot)
    requires Sound(d)
    ensures var aside := Aside(d);
            && Dataset(d.volume, x.content, [x], d.zoned, (if !d.volume then ZoneChildren(aside, true) else aside).children) == Restored(d, x, [x])
            && aside.(children := map[]) == AfterFailure(d, TempLeft)
  {
    Rezoned(d, false);
    if d.volume {
      VolumeZoning(d, false);
      VolumeZoning(d, true);
    }
  }

  lemma RestoredDropped(d: Dataset, x: Snapshot)
    ensures Restored(d, x, [x]).snaps == [x] && Restored(d, x, [x]).(snaps := []) == Restored(d, x, [])
    ensures Drop([x], {x.name}) == [] && x.name in Names([x])
  {
  }

  /** Restores at different times use different temporary names. */
  lemma TempNamesDiffer(dest: string, stamp: string, other: string)
    requires TempName(dest, stamp) == TempName(dest, other)
    ensures stamp == other
  {
    var n := |dest + "-esbackup-"|;
    assert TempName(dest, stamp)[n..] == stamp && TempName(dest, other)[n..] == other;
  }

  lemma TempIsOther(dest: string, stamp: string)
    ensures TempName(dest, stamp) != dest
  {
    assert |TempName(dest, stamp)| > |dest|;
  }

  lemma Set(p: Pool, dest: string, v: Dataset)
    ensures dest in p[dest := v] && p[dest := v][dest] == v
  {
  }

  lemma SoundZoned(d: Dataset)
    requires Sound(d)
    ensures d.volume ==> !d.zoned && Aside(d) == d
    ensures Aside(d) == ZoneChildren(d, false).(zoned := false)
  {
    if d.volume {
      VolumeZoning(d, false);
    }
  }

  lemma ZoneChildrenOnly(d: Dataset, on: bool)
    ensures ZoneChildren(d, on).zoned == d.zoned && ZoneChildren(d, on).volume == d.volume
  {
  }

  /** What a failed restore with a working rollback means for the dataset and the pool. */
  lemma FailedExact(p0: Pool, p: Pool, dest: string, stage: Stage)
    requires dest in p0 ==> Sound(p0[dest])
    requires Failed(p0, p, dest, stage) && stage != TempLeft
    ensures dest in p0 ==> dest in p && SameData(p[dest], p0[dest])
    ensures (dest in p0 ==> ZoningSafe(p0[dest])) ==> p == p0
  {
    hide SameData, AfterFailure, ZoningSafe, Sound;
    if dest in p0 {
      FailureKeepsData(p0[dest], stage);
      FailureExact(p0[dest]);
    }
  }

  lemma FailedFacts(p0: Pool, p: Pool, dest: string, temp: string, stage: Stage)
    requires Failed(p0, p, dest, stage) && stage != TempLeft
    ensures SameOthers(p0, p, dest, temp) && (dest in p0 ==> Recoverable(p0[dest], p, dest, temp))
    ensures dest != temp ==> (temp in p <==> temp in p0) && (dest in p <==> dest in p0)
  {
    if dest in p0 {
      FailureKeepsData(p0[dest], stage);
    }
  }

  lemma Moved(p0: Pool, p: Pool, dest: string, temp: string)
    requires dest in p0 && dest != temp && temp !in p0 && p == p0[dest := Aside(p0[dest])]
    ensures var q := (p - {dest})[temp := p[dest]];
            dest !in q && temp in q && q[temp] == Aside(p0[dest]) && SameOthers(p0, q, dest, temp)
  {
  }

  lemma Created(p0: Pool, p: Pool, dest: string, temp: string)
    requires dest in p0 && dest != temp && dest !in p && temp in p && p[temp] == Aside(p0[dest]) && SameOthers(p0, p, dest, temp)
    ensures var d := p0[dest];
            var q := p[dest := Dataset(d.volume, EMPTY, [], d.zoned, map[])];
            SetAside(d, q, dest, temp) && SameOthers(p0, q, dest, temp)
  {
  }

  lemma SameOthersAgain(p0: Pool, p1: Pool, p2: Pool, dest: string, temp: string)
    requires SameOthers(p0, p1, dest, temp) && SameOthers(p1, p2, dest, temp)
    ensures SameOthers(p0, p2, dest, temp)
  {
  }

  lemma SameOthersSet(p0: Pool, p: Pool, dest: string, temp: string, v: Dataset)
    requires SameOthers(p0, p, dest, temp) && dest != temp
    ensures SameOthers(p0, p[dest := v], dest, temp) && (temp in p[dest := v] <==> temp in p)
  {
  }

  lemma AsideFacts(d: Dataset, p: Pool, dest: string, temp: string)
    requires SetAside(d, p, dest, temp)
    ensures dest in p && temp in p && p[temp] == Aside(d) && p[dest] == Dataset(d.volume, EMPTY, [], d.zoned, map[])
  {
  }

  lemma Refilled(p0: Pool, p1: Pool, p2: Pool, dest: string, temp: string)
    requires SameOthers(p0, p1, dest, temp) && dest != temp && dest in p1 && temp in p1
    requires p2.Keys == p1.Keys && forall e :: e in p2 && e != dest ==> p2[e] == p1[e]
    ensures SameOthers(p0, p2, dest, temp) && dest in p2 && temp in p2 && p2[temp] == p1[temp]
  {
  }

  lemma StillAside(d: Dataset, p: Pool, dest: string, temp: string)
    requires temp in p && p[temp] == Aside(d)
    ensures Recoverable(d, p, dest, temp)
  {
    ZoningKeepsData(d, false, false);
  }

  lemma Destroyed(p0: Pool, p: Pool, e: string, dest: string, temp: string)
    requires SameOthers(p0, p, dest, temp) && (e == dest || e == temp)
    ensures SameOthers(p0, p - {e}, dest, temp) && e !in p - {e}
    ensures e != temp && temp in p ==> temp in p - {e} && (p - {e})[temp] == p[temp]
    ensures e != dest && dest in p ==> dest in p - {e} && (p - {e})[dest] == p[dest]
  {
  }

  lemma ChildrenMoved(p0: Pool, p: Pool, dest: string, temp: string, v: Dataset, w: Dataset)
    requires SameOthers(p0, p, dest, temp) && dest != temp && dest in p && temp in p
    ensures var q := p[dest := v][temp := w];
            SameOthers(p0, q, dest, temp) && dest in q && q[dest] == v && temp in q && q[temp] == w
  {
  }

  function TempName(dest: string, stamp: string): (r: string) {
    dest + "-esbackup-" + stamp
  }

  class Restoration {
    /** Whether commands may fail for reasons outside the modelled state. */
    var faulty: bool
    var pool: Pool
    var filesystem: bool
    var zoned: bool

    constructor (pool: Pool, faulty: bool)
      ensures this.pool == pool && this.faulty == faulty && !filesystem && !zoned
    {
      this.pool, this.faulty := pool, faulty;
      filesystem, zoned := false, false;
    }

    // ---- commands ---------------------------------------------------------------------------------

    method Fault() returns (f: bool)
      ensures f ==> faulty
    {
      f := *;
      f := f && faulty;
    }

    method SetZonedChildren(ds: string, on: bool) returns (ok: bool)
      modifies `pool
      ensures ok ==> ds in old(pool) && pool == old(pool)[ds := ZoneChildren(old(pool)[ds], on)]
      ensures !ok ==> pool == old(pool) && (faulty || ds !in pool)
    {
      var f := Fault();
      ok := !f && ds in pool;
      if ok {
        pool := pool[ds := ZoneChildren(pool[ds], on)];
      }
    }

    method SetZoned(ds: string, on: bool) returns (ok: bool)
      modifies `pool
      ensures ok ==> ds in old(pool) && pool == old(pool)[ds := old(pool)[ds].(zoned := on)]
      ensures !ok ==> pool == old(pool) && (faulty || ds !in pool)
    {
      var f := Fault();
      ok := !f && ds in pool;
      if ok {
        pool := pool[ds := pool[ds].(zoned := on)];
      }
    }

    /** With `setZoned`, zoned is set on afterwards, and a failure of that goes unnoticed. */
    method RenameDataset(ds: string, to: string, setZoned: bool) returns (ok: bool, ghost on: bool)
      modifies `pool
      ensures (on ==> setZoned) && (setZoned && !faulty ==> on)
      ensures ok ==> && ds in old(pool) && to !in old(pool)
                     && pool == (old(pool) - {ds})[to := if on then old(pool)[ds].(zoned := true) else old(pool)[ds]]
      ensures !ok ==> pool == old(pool) && (faulty || ds !in pool || to in pool)
    {
      on := setZoned;
      var f := Fault();
      ok := !f && ds in pool && to !in pool;
      if ok {
        pool := (pool - {ds})[to := pool[ds]];
        if setZoned {
          var done := SetZoned(to, true);
          on := done;
        }
      }
    }

    method CreateDataset(ds: string, d: Dataset) returns (ok: bool)
      modifies `pool
      ensures ok ==> ds !in old(pool) && pool == old(pool)[ds := d]
      ensures !ok ==> pool == old(pool) && (faulty || ds in pool)
    {
      var f := Fault();
      ok := !f && ds !in pool;
      if ok {
        pool := pool[ds := d];
      }
    }

    /** `zfs receive -F` of a full stream; a failed one may have written any part of the data. */
    method RestoreDataset(x: Snapshot, ds: string) returns (ok: bool)
      modifies `pool
      ensures ok ==> ds in old(pool) && pool == old(pool)[ds := old(pool)[ds].(content := x.content, snaps := [x])]
      ensures !ok ==> (faulty || ds !in old(pool)) && pool.Keys == old(pool).Keys
                      && forall e :: e in pool && e != ds ==> pool[e] == old(pool)[e]
    {
      var f := Fault();
      ok := !f && ds in pool;
      if ok {
        pool := pool[ds := pool[ds].(content := x.content, snaps := [x])];
      } else if ds in pool {
        var partial: nat := *;
        pool := pool[ds := pool[ds].(content := partial)];
      }
    }

    /** Moves all child datasets; with `setZoned` each gets zoned=on. */
    method RenameChildren(ds: string, to: string, setZoned: bool) returns (ok: bool)
      requires ds != to
      modifies `pool
      ensures ok ==> && ds in old(pool) && to in old(pool) && old(pool)[to].children == map[]
                     && pool == old(pool)[to := old(pool)[to].(children :=
                                   (if setZoned then ZoneChildren(old(pool)[ds], true) else old(pool)[ds]).children)]
                                [ds := old(pool)[ds].(children := map[])]
      ensures !ok ==> pool == old(pool) && (faulty || ds !in pool || to !in pool || pool[to].children != map[])
    {
      var f := Fault();
      ok := !f && ds in pool && to in pool && pool[to].children == map[];
      if ok {
        var moved := if setZoned then ZoneChildren(pool[ds], true) else pool[ds];
        pool := pool[to := pool[to].(children := moved.children)][ds := pool[ds].(children := map[])];
      }
    }

    method DestroyDataset(ds: string) returns (ok: bool)
      modifies `pool
      ensures ok ==> ds in old(pool) && pool == old(pool) - {ds}
      ensures !ok ==> pool == old(pool) && (faulty || ds !in pool)
    {
      var f := Fault();
      ok := !f && ds in pool;
      if ok {
        pool := pool - {ds};
      }
    }

    method DestroySnapshot(ds: string, name: string) returns (ok: bool)
      requires ds in pool
      modifies `pool
      ensures ok ==> pool == old(pool)[ds := old(pool)[ds].(snaps := Drop(old(pool)[ds].snaps, {name}))]
      ensures !ok ==> pool == old(pool) && (faulty || name !in Names(pool[ds].snaps))
    {
      var f := Fault();
      ok := !f && name in Names(pool[ds].snaps);
      if ok {
        pool := pool[ds := pool[ds].(snaps := Drop(pool[ds].snaps, {name}))];
      }
    }

    // ---- ds_restore -------------------------------------------------------------------------------

    /** The commands of both rollbacks once the new dataset is gone: the old one is moved back and zoned again. */
    method MoveBack(dest: string, temp: string, ghost d: Dataset) returns (ok: bool)
      requires Sound(d) && temp in pool && dest !in pool && dest != temp
      requires filesystem == !d.volume && zoned == d.zoned
      requires pool[temp] == Aside(d)
      modifies `pool
      ensures SameOthers(old(pool), pool, dest, temp)
      ensures Recoverable(d, pool, dest, temp)
      ensures !faulty ==> ok && temp !in pool && dest in pool && pool[dest] == AfterFailure(d, RolledBack)
    {
      ZoningKeepsData(d, false, false);
      ZoningKeepsData(d, false, true);
      ZoningKeepsData(d, true, false);
      ZoningKeepsData(d, true, true);
      Rezoned(d, false);
      Rezoned(d, true);
      if d.volume {
        VolumeZoning(d, false);
      }
      ghost var on;
      ok, on := RenameDataset(temp, dest, zoned);
      if ok && filesystem {
        ok := SetZonedChildren(dest, true);
      }
    }

    /** The first part of `_backup_and_create_empty_dataset`: zoned is set off on the children and the dataset. */
    method Unzone(dest: string) returns (ok: bool, ghost stage: Stage)
      requires dest in pool && Sound(pool[dest]) && !filesystem && !zoned
      modifies `pool, `filesystem, `zoned
      ensures filesystem == !old(pool)[dest].volume && zoned == old(pool)[dest].zoned
      ensures ok ==> pool == old(pool)[dest := Aside(old(pool)[dest])] && Failed(old(pool), pool, dest, stage) && stage == Unzoned
      ensures !ok ==> Failed(old(pool), pool, dest, stage) && stage != TempLeft && faulty
    {
      hide *;
      stage, ok := Untouched, true;
      ghost var p0 := pool;
      ghost var d := pool[dest];
      FailedUntouched(p0, dest);
      FailedStages(p0, dest);
      SoundZoned(d);
      Set(p0, dest, ZoneChildren(d, false));
      ZoneChildrenOnly(d, false);
      if pool[dest].volume {
        stage := Unzoned;
      } else {
        zoned, filesystem := pool[dest].zoned, true;
        ok := SetZonedChildren(dest, false);
        if !ok {
          return;
        }
        stage := if zoned then ChildrenUnzoned else Unzoned;
      }
      if zoned {
        ok := SetZoned(dest, false);
        if !ok {
          return;
        }
        stage := Unzoned;
      }
    }

    /** `_backup_and_create_empty_dataset`. */
    method BackupAndCreateEmpty(dest: string, temp: string, rollbackFaulty: bool) returns (ok: bool, ghost stage: Stage)
      requires dest in pool ==> Sound(pool[dest])
      requires !filesystem && !zoned && dest != temp
      modifies `pool, `faulty, `filesystem, `zoned
      ensures SameOthers(old(pool), pool, dest, temp)
      ensures ok ==> && faulty == old(faulty) && dest in old(pool) && temp !in old(pool)
                     && filesystem == !old(pool)[dest].volume && zoned == old(pool)[dest].zoned
                     && SetAside(old(pool)[dest], pool, dest, temp)
      ensures !ok ==> stage != TempLeft && (dest in old(pool) ==> Recoverable(old(pool)[dest], pool, dest, temp))
      ensures !ok && !rollbackFaulty ==> Failed(old(pool), pool, dest, stage)
      ensures !ok ==> old(faulty) || dest !in old(pool) || temp in old(pool)
    {
      hide *;
      stage := Untouched;
      ghost var p0 := pool;
      FailedUntouched(p0, dest);
      FailedFacts(p0, pool, dest, temp, stage);
      var f := Fault();
      ok := !f && dest in pool;
      if !ok {
        return;
      }
      ghost var d := pool[dest];
      ok, stage := Unzone(dest);
      FailedFacts(p0, pool, dest, temp, stage);
      if !ok {
        return;
      }
      ghost var on;
      ghost var p1 := pool;
      ok, on := RenameDataset(dest, temp, false);
      if !ok {
        return;
      }
      Moved(p0, p1, dest, temp);
      ghost var p2 := pool;
      ok := CreateDataset(dest, Dataset(!filesystem, EMPTY, [], zoned, map[]));
      if ok {
        Created(p0, p2, dest, temp);
      } else {
        stage := RolledBack;
        faulty := rollbackFaulty;
        var back := MoveBack(dest, temp, d);
        SameOthersAgain(p0, p2, pool, dest, temp);
        if !rollbackFaulty {
          FailedRolledBack(p0, pool, dest, temp);
        }
      }
    }

    /** The second part of ds_restore, with the dataset set aside and an empty one in its place. */
    method FillOrRollBack(x: Snapshot, dest: string, temp: string, rollbackFaulty: bool, ghost p0: Pool) returns (ok: bool, ghost stage: Stage)
      requires dest in p0 && temp !in p0 && dest != temp && Sound(p0[dest])
      requires filesystem == !p0[dest].volume && zoned == p0[dest].zoned
      requires SetAside(p0[dest], pool, dest, temp) && SameOthers(p0, pool, dest, temp)
      modifies `pool, `faulty
      ensures SameOthers(p0, pool, dest, temp)
      ensures ok ==> && dest in pool && temp !in pool
                     && (pool[dest] == Restored(p0[dest], x, [])
                         || (old(faulty) && pool[dest] == Restored(p0[dest], x, [x])))
      ensures !ok ==> stage == RolledBack || stage == TempLeft
      ensures !ok && stage != TempLeft && !rollbackFaulty ==> Failed(p0, pool, dest, stage)
      ensures !ok && stage != TempLeft ==> Recoverable(p0[dest], pool, dest, temp)
      ensures !ok && stage == TempLeft ==>
                && dest in pool && temp in pool && pool[dest] == Restored(p0[dest], x, [x])
                && pool[temp] == AfterFailure(p0[dest], TempLeft)
      ensures !ok ==> old(faulty)
    {
      hide *;
      stage := RolledBack;
      ghost var d := p0[dest];
      ghost var p1 := pool;
      AsideFacts(d, p1, dest, temp);
      ok := RestoreDataset(x, dest);
      ghost var p2 := pool;
      Refilled(p0, p1, p2, dest, temp);
      if ok {
        ok := RenameChildren(temp, dest, filesystem);
      }
      if !ok {
        faulty := rollbackFaulty;
        StillAside(d, pool, dest, temp);
        var destroyed := DestroyDataset(dest);
        ghost var p3 := pool;
        if destroyed {
          Destroyed(p0, p2, dest, dest, temp);
          var back := MoveBack(dest, temp, d);
          SameOthersAgain(p0, p3, pool, dest, temp);
        }
        if !rollbackFaulty {
          FailedRolledBack(p0, pool, dest, temp);
        }
        return;
      }
      RestoredNow(d, x);
      ghost var p4 := pool;
      ChildrenMoved(p0, p2, dest, temp, Restored(d, x, [x]), AfterFailure(d, TempLeft));
      ok := DestroyDataset(temp);
      if !ok {
        stage := TempLeft;
        return;
      }
      Destroyed(p0, p4, temp, dest, temp);
      RestoredDropped(d, x);
      ghost var p5 := pool;
      var destroyed := DestroySnapshot(dest, x.name);
      if destroyed {
        Set(p5, dest, Restored(d, x, []));
        SameOthersSet(p0, p5, dest, temp, Restored(d, x, []));
      }
    }

    /** Restores the backup `source` into `dest`. */
    method DsRestore(source: Option<Snapshot>, dest: string, stamp: string, rollbackFaulty: bool) returns (ok: bool, ghost stage: Stage)
      requires dest in pool ==> Sound(pool[dest])
      requires !filesystem && !zoned
      modifies `pool, `faulty, `filesystem, `zoned
      ensures SameOthers(old(pool), pool, dest, TempName(dest, stamp))
      ensures ok ==> && source.Some? && dest in old(pool) && TempName(dest, stamp) !in old(pool)
                     && dest in pool && TempName(dest, stamp) !in pool
                     && (pool[dest] == Restored(old(pool)[dest], source.value, [])
                         || (old(faulty) && pool[dest] == Restored(old(pool)[dest], source.value, [source.value])))
      ensures !ok && stage != TempLeft && !rollbackFaulty ==> Failed(old(pool), pool, dest, stage)
      ensures !ok && stage != TempLeft && !rollbackFaulty && dest in old(pool) ==> dest in pool && SameData(pool[dest], old(pool)[dest])
      ensures !ok && stage != TempLeft && !rollbackFaulty && (dest in old(pool) ==> ZoningSafe(old(pool)[dest])) ==> pool == old(pool)
      ensures !ok && stage != TempLeft && dest in old(pool) ==> Recoverable(old(pool)[dest], pool, dest, TempName(dest, stamp))
      ensures !ok && stage == TempLeft ==>
                && source.Some? && dest in old(pool) && dest in pool && TempName(dest, stamp) in pool
                && pool[dest] == Restored(old(pool)[dest], source.value, [source.value])
                && pool[TempName(dest, stamp)] == AfterFailure(old(pool)[dest], TempLeft)
      ensures !ok ==> old(faulty) || source.None? || dest !in old(pool) || TempName(dest, stamp) in old(pool)
    {
      hide *;
      stage := Untouched;
      ghost var p0 := pool;
      var temp := TempName(dest, stamp);
      TempIsOther(dest, stamp);
      FailedUntouched(p0, dest);
      FailedFacts(p0, pool, dest, temp, stage);
      FailedExact(p0, pool, dest, stage);
      var f := Fault();
      ok := !f && source.Some?;
      if !ok {
        return;
      }
      var x := source.value;
      ok, stage := BackupAndCreateEmpty(dest, temp, rollbackFaulty);
      if !ok {
        if !rollbackFaulty {
          FailedExact(p0, pool, dest, stage);
        }
        return;
      }
      ok, stage := FillOrRollBack(x, dest, temp, rollbackFaulty, p0);
      if !ok && stage != TempLeft && !rollbackFaulty {
        FailedExact(p0, pool, dest, stage);
      }
    }
  }
}
