/** The replication commands sync, failover, reinit and init.  A command runs on the host of the slave VM; every
    zfs, vmadm and ssh call it makes may fail, and a failure runs the cleanup of the command. */
module ReplicationCommands {
  import opened Options
  import opened Strings
  import opened Snapshots
  import opened Replicas
  import opened ReplicationSteps
  import opened LifecycleSteps
  import opened InitialSteps
  import opened InitSteps

  /** One replication command: the fields of the source object, and the state of both hosts. */
  class Replication {
    /** `rs-<id>-`, the start of every replication snapshot name of this replication. */
    const prefix: string
    /** Whether commands may fail for reasons outside the modelled state. */
    var faulty: bool
    var world: World
    /** Every state since this object was made, one entry for each command. */
    ghost var history: seq<World>

    var vmDisksSnap: seq<SnapInfo>
    var vmDisksSynced: seq<nat>
    var vmDisksCleared: seq<(nat, string)>
    var vmSync: nat
    var vmCreated: bool

    constructor (prefix: string, w: World, faulty: bool)
      ensures this.prefix == prefix && world == w && this.faulty == faulty && history == []
      ensures vmDisksSnap == [] && vmDisksSynced == [] && vmDisksCleared == [] && vmSync == 0 && !vmCreated
    {
      this.prefix, this.world, this.faulty := prefix, w, faulty;
      history := [];
      vmDisksSnap, vmDisksSynced, vmDisksCleared, vmSync, vmCreated := [], [], [], 0, false;
    }

    // ---- commands ---------------------------------------------------------------------------------

    /** Any command may fail; a failed command has no effect. */
    method Fault() returns (f: bool)
      ensures f ==> faulty
    {
      f := *;
      f := f && faulty;
    }

    /** A replication snapshot name from the clock: it is not in use on any disk of the two machines. */
    method GenerateSnapshotName() returns (snap: string)
      ensures prefix <= snap && Unused(world, snap)
    {
      var n := LongestOnDisks(world.src.disks) + LongestOnDisks(world.dst.disks) + 1;
      snap := prefix + seq(n, _ => '9');
      forall i | 0 <= i < |world.src.disks| ensures snap !in Names(world.src.disks[i].snaps) {
        assert LongestName(world.src.disks[i].snaps) < n;
      }
      forall i | 0 <= i < |world.dst.disks| ensures snap !in Names(world.dst.disks[i].snaps) {
        assert LongestName(world.dst.disks[i].snaps) < n;
      }
    }

    /** `zfs snapshot` on the master: the snapshot holds the live data of that moment. */
    method CreateSnapshot(i: nat, snap: string) returns (ok: bool, ghost live: nat)
      modifies `world, `history
      ensures history == old(history) + [world]
      ensures ok ==> CanTake(old(world), i, snap) && world == AfterTake(old(world), i, snap, live)
      ensures !ok ==> world == old(world) && (faulty || !CanTake(world, i, snap))
    {
      var f := Fault();
      var data: nat := *;
      live := data;
      ok := !f && CanTake(world, i, snap);
      if ok {
        world := AfterTake(world, i, snap, data);
      }
      history := history + [world];
    }

    method DestroySrc(i: nat, names: set<string>) returns (ok: bool)
      modifies `world, `history
      ensures history == old(history) + [world]
      ensures ok ==> CanDestroySrc(old(world), i, names) && world == AfterDestroySrc(old(world), i, names)
      ensures !ok ==> world == old(world) && (faulty || !CanDestroySrc(world, i, names))
    {
      var f := Fault();
      ok := !f && CanDestroySrc(world, i, names);
      if ok {
        world := AfterDestroySrc(world, i, names);
      }
      history := history + [world];
    }

    method DestroyDst(i: nat, names: set<string>) returns (ok: bool)
      modifies `world, `history
      ensures history == old(history) + [world]
      ensures ok ==> CanDestroyDst(old(world), i, names) && world == AfterDestroyDst(old(world), i, names)
      ensures !ok ==> world == old(world) && (faulty || !CanDestroyDst(world, i, names))
    {
      var f := Fault();
      ok := !f && CanDestroyDst(world, i, names);
      if ok {
        world := AfterDestroyDst(world, i, names);
      }
      history := history + [world];
    }

    /** Incremental send/recv of one disk. */
    method SendRecv(i: nat, base: string, snap: string) returns (ok: bool, ghost got: bool)
      modifies `world, `history
      ensures history == old(history) + [world]
      ensures ok ==> CanRecv(old(world), i, base, snap) && world == AfterRecv(old(world), i, base, snap, got)
      ensures !ok ==> world == old(world) && (faulty || !CanRecv(world, i, base, snap))
    {
      var f := Fault();
      var g: bool := *;
      got := g;
      ok := !f && CanRecv(world, i, base, snap);
      if ok {
        world := AfterRecv(world, i, base, snap, g);
      }
      history := history + [world];
    }

    method SetPropertySrc(i: nat, p: Property, v: Option<string>) returns (ok: bool)
      modifies `world, `history
      ensures history == old(history) + [world]
      ensures ok ==> CanSetSrc(old(world), i) && world == AfterSetSrc(old(world), i, p, v)
      ensures !ok ==> world == old(world) && (faulty || !CanSetSrc(world, i))
    {
      var f := Fault();
      ok := !f && CanSetSrc(world, i);
      if ok {
        world := AfterSetSrc(world, i, p, v);
      }
      history := history + [world];
    }

    method SetPropertyDst(i: nat, p: Property, v: Option<string>) returns (ok: bool)
      modifies `world, `history
      ensures history == old(history) + [world]
      ensures ok ==> CanSetDst(old(world), i) && world == AfterSetDst(old(world), i, p, v)
      ensures !ok ==> world == old(world) && (faulty || !CanSetDst(world, i))
    {
      var f := Fault();
      ok := !f && CanSetDst(world, i);
      if ok {
        world := AfterSetDst(world, i, p, v);
      }
      history := history + [world];
    }

    /** `_set_dataset_properties` on a slave disk: two commands, in either order. */
    method SetTwoDst(i: nat, v: string) returns (ok: bool)
      modifies `world, `history
      ensures ok ==> CanSetDst(old(world), i) && world == AfterTwoDst(old(world), i, v)
      ensures !ok ==> OneOfTwoDst(old(world), world, i, v) && (faulty || !CanSetDst(old(world), i))
      ensures SameSnapshots(old(world), world) && OnlyPair(old(world), world, i)
      ensures world.src == old(world).src && BothRunning(world) == BothRunning(old(world))
      ensures Kept(prefix, old(world)) ==> Safe(prefix, !BothRunning(old(world)), old(history), history)
    {
      hide *;
      var readonlyFirst: bool := *;
      ghost var h, w := history, world;
      TwoDstCommute(w, i, v);
      TwoDstFrame(w, i, v);
      PropertyFrameDst(w, i, ReadOnly, Some("on"));
      PropertyFrameDst(w, i, EsrepSrc, Some(v));
      TwoDstShape(w, i, v);
      Reflexive(prefix, h, w, i);
      SameSnapshotsSelf(w);
      if readonlyFirst {
        ok := SetPropertyDst(i, ReadOnly, Some("on"));
      } else {
        ok := SetPropertyDst(i, EsrepSrc, Some(v));
      }
      SafeOne(prefix, h, w, world);
      if !ok {
        return;
      }
      ghost var w1 := world;
      if readonlyFirst {
        ok := SetPropertyDst(i, EsrepSrc, Some(v));
      } else {
        ok := SetPropertyDst(i, ReadOnly, Some("on"));
      }
      SafeTwo(prefix, h, w, w1, world);
    }

    /** `_set_dataset_properties` on a master disk. */
    method SetTwoSrc(i: nat, v: string) returns (ok: bool, ghost mark: Option<string>)
      modifies `world, `history
      ensures ok ==> CanSetSrc(old(world), i) && world == AfterTwoSrc(old(world), i, v)
      ensures !ok ==> OneOfTwoSrc(old(world), world, i, v, mark) && (faulty || !CanSetSrc(old(world), i))
      ensures SameSnapshots(old(world), world) && OnlyPair(old(world), world, i) && MasterKeptAt(old(world), world, i)
      ensures Kept(prefix, old(world)) ==> Safe(prefix, !BothRunning(old(world)), old(history), history)
    {
      hide *;
      mark := None;
      var readonlyFirst: bool := *;
      ghost var h, w := history, world;
      TwoSrcCommute(w, i, v);
      TwoSrcFrame(w, i, v);
      PropertyFrameSrc(w, i, ReadOnly, Some("off"));
      PropertyFrameSrc(w, i, EsrepDst, Some(v));
      SetSrcMasterKept(w, i, v);
      TwoSrcShape(w, i, v);
      Reflexive(prefix, h, w, i);
      SameSnapshotsSelf(w);
      MasterKeptSame(w, w, i);
      if readonlyFirst {
        ok := SetPropertySrc(i, ReadOnly, Some("off"));
      } else {
        ok := SetPropertySrc(i, EsrepDst, Some(v));
      }
      SafeOne(prefix, h, w, world);
      if !ok {
        return;
      }
      ghost var w1 := world;
      mark := if readonlyFirst then None else Some(v);
      if readonlyFirst {
        ok := SetPropertySrc(i, EsrepDst, Some(v));
      } else {
        ok := SetPropertySrc(i, ReadOnly, Some("off"));
      }
      SafeTwo(prefix, h, w, w1, world);
    }

    /** Full or incremental send/recv of one disk of an initial sync. */
    method InitialSendRecv(i: nat, base: Option<string>, snap: string) returns (ok: bool, ghost got: bool)
      modifies `world, `history
      ensures history == old(history) + [world]
      ensures ok ==> CanInitialRecv(old(world), i, base, snap) && world == AfterInitialRecv(old(world), i, base, snap, got)
      ensures !ok ==> world == old(world) && (faulty || !CanInitialRecv(world, i, base, snap))
    {
      if base.Some? {
        ok, got := SendRecv(i, base.value, snap);
      } else {
        var f := Fault();
        var g: bool := *;
        got := g;
        ok := !f && CanRecvFull(world, i, snap);
        if ok {
          world := AfterRecvFull(world, i, snap, g);
        }
        history := history + [world];
      }
    }

    method StopSrc() returns (ok: bool)
      modifies `world, `history
      ensures history == old(history) + [world]
      ensures world == if ok then PowerSrc(old(world), false) else old(world)
      ensures !ok ==> faulty
    {
      var f := Fault();
      ok := !f;
      if ok {
        world := PowerSrc(world, false);
      }
      history := history + [world];
    }

    method SwitchDst(on: bool) returns (ok: bool)
      modifies `world, `history
      ensures history == old(history) + [world]
      ensures world == if ok then PowerDst(old(world), on) else old(world)
      ensures !ok ==> faulty
    {
      var f := Fault();
      ok := !f;
      if ok {
        world := PowerDst(world, on);
      }
      history := history + [world];
    }

    // ---- reading --------------------------------------------------------------------------------------

    /** `_vm_get_disk_property`: the disk that the property names, or an error. */
    method ReadProperty(value: Option<string>) returns (ok: bool, disk: string)
      ensures ok ==> PropertyDisk(value) == Some(disk)
      ensures !ok ==> faulty || PropertyDisk(value).None?
    {
      var f := Fault();
      disk := "";
      ok := !f && PropertyDisk(value).Some?;
      if ok {
        disk := PropertyDisk(value).value;
      }
    }

    /** `_list_dataset_snapshots`: the replication snapshots of a disk, oldest first. */
    method ListSnapshots(d: Disk) returns (ok: bool, names: seq<string>)
      ensures ok ==> d.present && names == Listed(d.snaps, prefix)
      ensures !ok ==> faulty || !d.present
    {
      var f := Fault();
      ok := !f && d.present;
      names := Listed(d.snaps, prefix);
    }

    /** `_get_common_snapshot`: the base for an incremental sync of the pair and the listings of both sides. */
    method GetCommonSnapshot(i: nat) returns (ok: bool, p: Plan)
      requires i < |world.src.disks| && i < |world.dst.disks|
      ensures ok ==> PlanFor(prefix, p, world.src.disks[i], world.dst.disks[i])
      ensures !ok ==> faulty || !PairKept(prefix, world.src.disks[i], world.dst.disks[i])
    {
      p := Plan("", [], []);
      var dstNames, srcNames;
      ok, dstNames := ListSnapshots(world.dst.disks[i]);
      if !ok {
        return;
      }
      ok, srcNames := ListSnapshots(world.src.disks[i]);
      if !ok {
        return;
      }
      var common := FindCommon(srcNames, dstNames);
      ok := common.Some?;
      if ok {
        p := Plan(common.value, srcNames, dstNames);
      } else if PairKept(prefix, world.src.disks[i], world.dst.disks[i]) {
        KeptHasCommon(prefix, world.src.disks[i], world.dst.disks[i]);
      }
    }

    /** The checks of sync: the metadata of every pair, and a base for every pair. */
    method CheckDisks() returns (ok: bool, plan: seq<Plan>)
      ensures ok ==> Linked(world) && ColdPlans(prefix, world, plan)
      ensures !ok ==> faulty || !Linked(world) || !Kept(prefix, world)
    {
      plan := [];
      if |world.src.disks| != |world.dst.disks| {
        return false, plan;
      }
      var i := 0;
      while i < |world.src.disks|
        invariant 0 <= i == |plan| <= |world.src.disks|
        invariant forall j :: 0 <= j < i ==> LinkedPair(world.src.disks[j], world.dst.disks[j])
        invariant forall j :: 0 <= j < i ==> PlanFor(prefix, plan[j], world.src.disks[j], world.dst.disks[j])
      {
        hide PlanFor, PropertyDisk, PairKept;
        var a, b := world.src.disks[i], world.dst.disks[i];
        var disk, p;
        ok, disk := ReadProperty(b.esrepSrc);
        if !ok || disk != a.name {
          assert !faulty ==> !LinkedPair(a, b);
          return false, plan;
        }
        ok, disk := ReadProperty(a.esrepDst);
        if !ok || disk != b.name {
          assert !faulty ==> !LinkedPair(a, b);
          return false, plan;
        }
        ok, p := GetCommonSnapshot(i);
        if !ok {
          return;
        }
        plan := plan + [p];
        i := i + 1;
      }
      ok := true;
    }

    // ---- sync -------------------------------------------------------------------------------------------

    /** The first half of a sync: the new snapshot on every master disk; a cold sync remembers each of them. */
    method TakeSnapshots(snap: string, save: bool) returns (ok: bool, ghost taken: nat)
      requires |world.src.disks| == |world.dst.disks| && Kept(prefix, world) && Unused(world, snap)
      requires save ==> vmDisksSnap == []
      modifies `world, `history, `vmDisksSnap
      ensures Progress(prefix, old(world), world, snap, 0, taken)
      ensures vmDisksSnap == if save then Infos(0, taken, snap) else old(vmDisksSnap)
      ensures ok ==> taken == |old(world).src.disks|
      ensures !faulty ==> ok
      ensures Trace(prefix, old(history), history)
    {
      hide *;
      taken := 0;
      ghost var w0, h0, s0 := world, history, vmDisksSnap;
      var i, n := 0, |world.src.disks|;
      ProgressStart(prefix, w0, snap);
      Reflexive(prefix, h0, w0, 0);
      while i < n
        invariant taken == i <= n == |w0.src.disks|
        invariant vmDisksSnap == if save then Infos(0, i, snap) else s0
        invariant Progress(prefix, w0, world, snap, 0, i)
        invariant Trace(prefix, h0, history)
      {
        ghost var w, h := world, history;
        ProgressTake(prefix, w0, w, snap, i, 0);
        ghost var live;
        ok, live := CreateSnapshot(i, snap);
        ProgressKept(prefix, w0, w, snap, 0, i);
        if !ok {
          TraceStep(prefix, h0, h, w);
          return;
        }
        ProgressTake(prefix, w0, w, snap, i, live);
        ProgressKept(prefix, w0, world, snap, 0, i + 1);
        TraceStep(prefix, h0, h, world);
        InfosSnoc(i, snap);
        if save {
          vmDisksSnap := vmDisksSnap + [SnapInfo(i, snap)];
        }
        i := i + 1;
        taken := i;
      }
      ok := true;
    }

    /** The pair `i` after its receive: the planned old snapshots go on both sides. */
    method DestroyOldSnapshots(i: nat, p: Plan, snap: string, ghost w0: World, ghost got: bool) returns (ok: bool)
      requires Ready(prefix, w0, i, p, snap) && Progress(prefix, w0, world, snap, i + 1, |w0.src.disks|)
      requires Stage(w0, world, i, p, snap, got, false)
      modifies `world, `history
      ensures Progress(prefix, w0, world, snap, i + 1, |w0.src.disks|)
      ensures OnlyPair(old(world), world, i)
      ensures ok ==> SyncedAt(w0, world, i, p, snap)
      ensures !faulty ==> ok
      ensures Trace(prefix, old(history), history)
    {
      hide *;
      ghost var h0, w, n := history, world, |w0.src.disks|;
      Reflexive(prefix, h0, w, i);
      ProgressKept(prefix, w0, w, snap, i + 1, n);
      DestroySrcStep(prefix, w0, w, i, p, snap, got);
      ok := DestroySrc(i, NameSet(p.srcNames));
      if !ok {
        TraceStep(prefix, h0, h0, world);
        return;
      }
      ghost var w1, h1 := world, history;
      ProgressKept(prefix, w0, w1, snap, i + 1, n);
      TraceStep(prefix, h0, h0, w1);
      DestroyDstStep(prefix, w0, w1, i, p, snap, got);
      ok := DestroyDst(i, NameSet(p.dstNames));
      if !ok {
        TraceStep(prefix, h0, h1, world);
        return;
      }
      ProgressKept(prefix, w0, world, snap, i + 1, n);
      TraceStep(prefix, h0, h1, world);
      OnlyPairTwice(w, w1, world, i);
    }

    /** One pair of the second half of a sync. */
    method SyncDisk(i: nat, p: Plan, snap: string, cold: bool, ghost w0: World) returns (ok: bool, ghost received: nat)
      requires Ready(prefix, w0, i, p, snap) && Progress(prefix, w0, world, snap, i, |w0.src.disks|)
      requires cold ==> i <= |w0.src.disks| && vmDisksSnap == Infos(i, |w0.src.disks|, snap)
      modifies `world, `history, `vmDisksSnap
      ensures i <= received <= i + 1 <= |w0.src.disks|
      ensures Progress(prefix, w0, world, snap, received, |w0.src.disks|)
      ensures vmDisksSnap == if cold then Infos(received, |w0.src.disks|, snap) else old(vmDisksSnap)
      ensures OnlyPair(old(world), world, i)
      ensures ok ==> received == i + 1 && SyncedAt(w0, world, i, p, snap)
      ensures !faulty ==> ok
      ensures Trace(prefix, old(history), history)
    {
      hide *;
      ghost var h0, w, n := history, world, |w0.src.disks|;
      Reflexive(prefix, h0, w, i);
      ReadyBound(prefix, w0, i, p, snap);
      received := i;
      RecvStep(prefix, w0, w, i, p, snap, true);
      ProgressKept(prefix, w0, w, snap, i, n);
      ghost var got;
      ok, got := SendRecv(i, p.base, snap);
      if !ok {
        TraceStep(prefix, h0, h0, world);
        return;
      }
      RecvStep(prefix, w0, w, i, p, snap, got);
      ProgressKept(prefix, w0, world, snap, i + 1, n);
      ghost var w1, h1 := world, history;
      TraceStep(prefix, h0, h0, w1);
      received := i + 1;
      if cold {
        InfosTail(i, n, snap);
        vmDisksSnap := vmDisksSnap[1..];  // received: no longer a matter of the emergency cleanup
      }
      ok := DestroyOldSnapshots(i, p, snap, w0, got);
      TraceTwice(prefix, h0, h1, history);
      OnlyPairTwice(w, w1, world, i);
    }

    /** The second half of a sync.  In a cold sync the emergency list is exactly the disks not yet received. */
    method SyncDisks(plan: seq<Plan>, snap: string, cold: bool, ghost w0: World) returns (ok: bool, ghost received: nat)
      requires Plans(prefix, w0, plan, snap) && Progress(prefix, w0, world, snap, 0, |w0.src.disks|)
      requires cold ==> vmDisksSnap == Infos(0, |w0.src.disks|, snap)
      requires vmDisksSynced == []
      modifies `world, `history, `vmDisksSnap, `vmDisksSynced
      ensures received <= |w0.src.disks|
      ensures Progress(prefix, w0, world, snap, received, |w0.src.disks|)
      ensures vmDisksSnap == if cold then Infos(received, |w0.src.disks|, snap) else old(vmDisksSnap)
      ensures ok ==> received == |plan| == |w0.src.disks| && AllSynced(w0, world, plan, snap, |plan|)
      ensures |vmDisksSynced| <= received && vmDisksSynced == UpTo(|vmDisksSynced|) && (ok ==> |vmDisksSynced| == received)
      ensures !faulty ==> ok
      ensures Trace(prefix, old(history), history)
    {
      hide *;
      UpToStep(0);
      ghost var h0, s0 := history, vmDisksSnap;
      Reflexive(prefix, h0, world, 0);
      AllSyncedStart(w0, world, plan, snap);
      PlansLength(prefix, w0, plan, snap);
      received := 0;
      var i := 0;
      while i < |plan|
        invariant received == i <= |plan| == |w0.src.disks|
        invariant Progress(prefix, w0, world, snap, i, |w0.src.disks|)
        invariant AllSynced(w0, world, plan, snap, i)
        invariant vmDisksSynced == UpTo(i) && |vmDisksSynced| == i
        invariant vmDisksSnap == if cold then Infos(i, |w0.src.disks|, snap) else s0
        invariant Trace(prefix, h0, history)
      {
        ghost var w, h := world, history;
        PlansReady(prefix, w0, plan, snap, i);
        ok, received := SyncDisk(i, plan[i], snap, cold, w0);
        TraceTwice(prefix, h0, h, history);
        if !ok {
          return;
        }
        AllSyncedStep(w0, w, world, plan, snap, i);
        UpToStep(i);
        vmDisksSynced := vmDisksSynced + [i];
        i := i + 1;
      }
      ok := true;
    }

    /** A cold sync: new snapshots on all disks, then disk by disk send/recv and destroy of all old ones. */
    method ColdSync(plan: seq<Plan>) returns (ok: bool, snap: string, ghost received: nat, ghost taken: nat)
      requires Kept(prefix, world) && ColdPlans(prefix, world, plan)
      modifies `world, `history, `vmDisksSnap, `vmDisksSynced
      ensures Unused(old(world), snap) && prefix <= snap
      ensures received <= taken && Progress(prefix, old(world), world, snap, received, taken)
      ensures vmDisksSnap == Infos(received, taken, snap)
      ensures ok ==> received == taken == |plan| && AllSynced(old(world), world, plan, snap, |plan|)
                     && Plans(prefix, old(world), plan, snap)
      ensures ok ==> vmDisksSynced == UpTo(|plan|)
      ensures !faulty ==> ok
      ensures Trace(prefix, old(history), history)
    {
      hide *;
      ghost var w0, h0 := world, history;
      snap := GenerateSnapshotName();
      vmDisksSnap, vmDisksSynced := [], [];
      ColdPlansReady(prefix, w0, plan, snap);
      PlansLength(prefix, w0, plan, snap);
      received := 0;
      ok, taken := TakeSnapshots(snap, true);
      if !ok {
        return;
      }
      ghost var h1 := history;
      ok, received := SyncDisks(plan, snap, true, w0);
      TraceTwice(prefix, h0, h1, history);
    }

    /** A hot sync: the same from the snapshot of the last round, which is destroyed afterwards. */
    method HotSync(last: string) returns (ok: bool, snap: string, ghost received: nat, ghost taken: nat)
      requires InSync(prefix, world, last)
      modifies `world, `history, `vmDisksSnap, `vmDisksSynced
      ensures vmDisksSnap == old(vmDisksSnap)
      ensures Kept(prefix, world) && MetadataKept(old(world), world) && SamePower(old(world), world)
      ensures Unused(old(world), snap) && prefix <= snap && Progress(prefix, old(world), world, snap, received, taken)
      ensures ok ==> InSync(prefix, world, snap) && SlavesListOnly(prefix, world, snap)
      ensures ok ==> |old(world).src.disks| == |world.src.disks| && vmDisksSynced == UpTo(|world.src.disks|)
      ensures !faulty ==> ok
      ensures Trace(prefix, old(history), history)
    {
      hide *;
      ghost var w0, h0 := world, history;
      received := 0;
      snap := GenerateSnapshotName();
      vmDisksSynced := [];
      var plan := HotPlans(|world.src.disks|, last);
      InSyncKept(prefix, w0, last);
      HotPlansReady(prefix, w0, last, snap);
      PlansLength(prefix, w0, plan, snap);
      ok, taken := TakeSnapshots(snap, false);
      if !ok {
        ProgressMetadata(prefix, w0, world, snap, 0, taken);
        ProgressKept(prefix, w0, world, snap, 0, taken);
        return;
      }
      ghost var h1 := history;
      ok, received := SyncDisks(plan, snap, false, w0);
      ProgressMetadata(prefix, w0, world, snap, received, |w0.src.disks|);
      ProgressKept(prefix, w0, world, snap, received, |w0.src.disks|);
      TraceTwice(prefix, h0, h1, history);
      if ok {
        HotDone(prefix, w0, world, last, snap);
        MetadataSizes(w0, world);
      }
    }

    /** The emergency cleanup of sync: destroy the new snapshots that were not received. */
    method SyncCleanup(ghost w0: World, snap: string, ghost received: nat, ghost taken: nat)
      requires Kept(prefix, w0) && Unused(w0, snap)
      requires received <= taken && Progress(prefix, w0, world, snap, received, taken)
      requires vmDisksSnap == Infos(received, taken, snap)
      modifies `world, `history
      ensures Cleaning(prefix, w0, world, snap, received, taken, taken, !faulty)
      ensures Trace(prefix, old(history), history)
    {
      hide *;
      ghost var h0 := history;
      Reflexive(prefix, h0, world, 0);
      CleaningStart(prefix, w0, world, snap, received, taken, !faulty);
      InfosLength(received, taken, snap);
      var k := 0;
      while k < |vmDisksSnap|
        invariant 0 <= k <= |vmDisksSnap| == taken - received
        invariant Cleaning(prefix, w0, world, snap, received, received + k, taken, !faulty)
        invariant Trace(prefix, h0, history)
      {
        ghost var w, h := world, history;
        InfosAt(received, taken, snap, k);
        var info := vmDisksSnap[k];
        CleaningStep(prefix, w0, w, snap, received, received + k, taken, !faulty);
        var ok := DestroySrc(info.disk, {info.snap});
        CleaningKept(prefix, w0, world, snap, received, received + k + 1, taken, !faulty);
        TraceStep(prefix, h0, h, world);
        k := k + 1;
      }
    }

    /** The command sync, with `rounds` hot syncs until it is interrupted, and its cleanup if it fails.  `last` is the
        name of the last snapshot that was taken. */
    method Sync(rounds: nat, cleanupFaulty: bool) returns (ok: bool, ghost last: string)
      requires Kept(prefix, world) && vmDisksSnap == [] && vmSync == 0
      modifies this
      // at every command, every pair keeps a snapshot to continue from
      ensures Kept(prefix, world) && Trace(prefix, old(history), history)
      ensures MetadataKept(old(world), world) && SamePower(old(world), world)
      // the outcome
      ensures !Linked(old(world)) ==> !ok && world == old(world) && history == old(history)
      ensures ok ==> InSync(prefix, world, last)
      ensures ok ==> vmSync == rounds + 1 && vmDisksSynced == UpTo(|world.src.disks|)
      ensures ok && rounds == 0 ==> SlavesListExactly(prefix, old(world), world, last)
      ensures ok && rounds > 0 ==> SlavesListOnly(prefix, world, last)
      ensures !old(faulty) && Linked(old(world)) ==> ok
      // a failed cold sync
      ensures !ok && vmSync == 0 && !cleanupFaulty ==> NothingHalfDone(old(world), world, last)
    {
      hide *;
      ghost var w0, h0 := world, history;
      Reflexive(prefix, h0, w0, 0);
      MetadataSelf(w0);
      last := "";
      var f := Fault();  // host names, VM configuration, quota
      if f {
        return false, "";
      }
      var plan, snap;
      ok, plan := CheckDisks();
      if !ok {
        return;
      }
      ghost var received, taken;
      ok, snap, received, taken := ColdSync(plan);
      last := snap;
      if !ok {
        ghost var h1 := history;
        faulty := cleanupFaulty;
        SyncCleanup(w0, snap, received, taken);
        CleaningMetadata(prefix, w0, world, snap, received, taken, !faulty);
        CleaningKept(prefix, w0, world, snap, received, taken, taken, !faulty);
        TraceTwice(prefix, h0, h1, history);
        return;
      }
      ProgressMetadata(prefix, w0, world, snap, received, taken);
      ColdDone(prefix, w0, world, plan, snap);
      InSyncKept(prefix, world, snap);
      MetadataSizes(w0, world);
      ColdPlansSize(prefix, w0, plan);
      vmSync := 1;
      var round := 0;
      while round < rounds
        invariant 0 <= round <= rounds
        invariant vmSync == round + 1 && faulty == old(faulty)
        invariant last == snap && InSync(prefix, world, snap) && vmDisksSynced == UpTo(|world.src.disks|)
        invariant round == 0 ==> SlavesListExactly(prefix, w0, world, snap)
        invariant round > 0 ==> SlavesListOnly(prefix, world, snap)
        invariant MetadataKept(w0, world) && SamePower(w0, world)
        invariant Kept(prefix, world) && Trace(prefix, h0, history)
      {
        ghost var w, h := world, history;
        ghost var hotReceived, hotTaken;
        ok, snap, hotReceived, hotTaken := HotSync(snap);
        last := snap;
        MetadataTwice(w0, w, world);
        TraceTwice(prefix, h0, h, history);
        if !ok {
          return;  // nothing to clean up: the emergency list is empty
        }
        vmSync := vmSync + 1;
        round := round + 1;
      }
      ok := true;
    }

    // ---- failover -----------------------------------------------------------------------------------------

    /** `_vm_get_disk_property` with `full`: host and disk of a property. */
    method ReadFullProperty(value: Option<string>) returns (ok: bool, host: string, disk: string)
      ensures ok ==> PropertyDisk(value) == Some(disk) && value == Some(EncodeProperty(host, disk))
      ensures !ok ==> faulty || PropertyDisk(value).None?
    {
      var f := Fault();
      host, disk := "", "";
      ok := !f && PropertyDisk(value).Some?;
      if ok {
        var parts := DecodeProperty(value.value).value;
        EncodeInverse(value.value);
        host, disk := parts.0, parts.1;
      }
    }

    /** The checks of failover; with force only that every slave disk belongs to a disk of the master VM.  Returns the
        property values of the slave disks. */
    method CheckSlaveDisks(force: bool) returns (ok: bool, values: seq<string>)
      ensures ok ==> SlaveMetadata(world, values)
      ensures ok && !force ==> Linked(world)
      ensures ok && force ==> SlavesNameMaster(world)
      ensures !ok && !force ==> faulty || !Linked(world) || !Kept(prefix, world)
      ensures !ok && force ==> faulty || !SlavesNameMaster(world) || !SlavesPresent(world)
    {
      values := [];
      if !force && |world.src.disks| != |world.dst.disks| {
        return false, values;
      }
      var host, disk;
      var i := 0;
      while i < |world.dst.disks|
        invariant 0 <= i == |values| <= |world.dst.disks|
        invariant forall j :: 0 <= j < i ==> world.dst.disks[j].present && world.dst.disks[j].esrepSrc == Some(values[j])
        invariant !force ==> forall j :: 0 <= j < i ==> PropertyDisk(world.dst.disks[j].esrepSrc) == Some(world.src.disks[j].name)
        invariant force ==> forall j :: 0 <= j < i ==> NamesMachine(world.dst.disks[j], world.src.uuid)
      {
        hide PropertyDisk, Contains;
        var b := world.dst.disks[i];
        ok, host, disk := ReadFullProperty(b.esrepSrc);
        ok := ok && b.present && if force then Contains(disk, world.src.uuid) else disk == world.src.disks[i].name;
        if !ok {
          assert !force ==> !LinkedPair(world.src.disks[i], b) || !PairKept(prefix, world.src.disks[i], b) || faulty;
          assert force ==> !NamesMachine(b, world.src.uuid) || !b.present || faulty;
          return;
        }
        values := values + [host + "/" + disk];
        i := i + 1;
      }
      i := 0;
      while !force && i < |world.src.disks|
        invariant 0 <= i <= |world.src.disks|
        invariant !force ==> forall j :: 0 <= j < i ==> PropertyDisk(world.src.disks[j].esrepDst) == Some(world.dst.disks[j].name)
      {
        hide PropertyDisk;
        ok, disk := ReadProperty(world.src.disks[i].esrepDst);
        ok := ok && disk == world.dst.disks[i].name;
        if !ok {
          assert !LinkedPair(world.src.disks[i], world.dst.disks[i]) || faulty;
          return;
        }
        i := i + 1;
      }
      ok := true;
    }

    /** One slave disk: both esrep properties go, then the disk is remembered, then it becomes writable. */
    method PromoteDisk(i: nat, values: seq<string>, ghost w0: World, ghost apart: bool) returns (ok: bool, ghost stage: nat)
      requires Kept(prefix, w0) && SlaveMetadata(w0, values) && Clearing(w0, world, i, 0) && i < |w0.dst.disks|
      requires vmDisksCleared == Remembered(values, i)
      requires apart ==> !w0.dst.running
      modifies `world, `history, `vmDisksCleared
      ensures stage <= 2 && Clearing(w0, world, if ok then i + 1 else i, if ok then 0 else stage)
      ensures vmDisksCleared == Remembered(values, if ok || stage == 2 then i + 1 else i)
      ensures world.src == old(world).src
      ensures !faulty ==> ok
      ensures Safe(prefix, apart, old(history), history)
    {
      hide *;
      ghost var h0, w := history, world;
      SafeStart(prefix, apart, h0);
      ClearingSize(w0, w, values, i, 0);
      SlaveMetadataAt(w0, values, i);
      ClearingStep(w0, w, values, i, 0);
      ClearingSafe(prefix, apart, h0, h0, w0, w, i, 0);
      stage := 0;
      ok := SetPropertyDst(i, EsrepDst, None);
      if !ok {
        return;
      }
      stage := 1;
      ghost var h1, w1 := history, world;
      PropertyPower(w, i, EsrepDst, None);
      PropertyPower(w1, i, EsrepSrc, None);
      ClearingSafe(prefix, apart, h0, h0, w0, w1, i, 1);
      ClearingStep(w0, w1, values, i, 1);
      ClearingSafe(prefix, apart, h0, h1, w0, w1, i, 1);
      ok := SetPropertyDst(i, EsrepSrc, None);
      if !ok {
        return;
      }
      stage := 2;
      vmDisksCleared := vmDisksCleared + [(i, values[i])];
      RememberedStep(values, i);
      ghost var h2, w2 := history, world;
      PropertyPower(w2, i, ReadOnly, None);
      ClearingSafe(prefix, apart, h0, h1, w0, w2, i, 2);
      ClearingStep(w0, w2, values, i, 2);
      ClearingSafe(prefix, apart, h0, h2, w0, w2, i, 2);
      ok := SetPropertyDst(i, ReadOnly, None);
      if ok {
        ClearingSafe(prefix, apart, h0, h2, w0, world, i + 1, 0);
      }
    }

    /** Clear the replication metadata of every slave disk, remembering what was there. */
    method PromoteDisks(values: seq<string>, ghost w0: World, ghost apart: bool) returns (ok: bool, ghost k: nat, ghost stage: nat)
      requires Kept(prefix, w0) && SlaveMetadata(w0, values) && Clearing(w0, world, 0, 0)
      requires apart ==> !w0.dst.running
      modifies `world, `history, `vmDisksCleared
      ensures Clearing(w0, world, k, stage) && stage <= 2 && |values| == |w0.dst.disks|
      ensures (if stage < 2 then k else k + 1) <= |values|
      ensures vmDisksCleared == Remembered(values, if stage < 2 then k else k + 1)
      ensures ok ==> k == |w0.dst.disks| && stage == 0
      ensures world.src == old(world).src
      ensures !faulty ==> ok
      ensures Safe(prefix, apart, old(history), history)
    {
      hide *;
      k, stage := 0, 0;
      vmDisksCleared := [];
      ghost var h0 := history;
      SafeStart(prefix, apart, h0);
      RememberedNone(values);
      ClearingSize(w0, world, values, 0, 0);
      var i, n := 0, |values|;
      while i < n
        invariant k == i <= n == |w0.dst.disks| && stage == 0
        invariant Clearing(w0, world, i, 0)
        invariant vmDisksCleared == Remembered(values, i)
        invariant world.src == old(world).src
        invariant Safe(prefix, apart, h0, history)
      {
        ghost var h := history;
        ok, stage := PromoteDisk(i, values, w0, apart);
        SafeTwice(prefix, apart, h0, h, history);
        if !ok {
          return;
        }
        stage := 0;
        i := i + 1;
        k := i;
      }
      ok := true;
    }

    /** The cleanup of failover: stop the slave, and give every remembered disk its metadata back.  A failing
        command ends it. */
    method FailoverCleanup(values: seq<string>, ghost w0: World, ghost m: nat, ghost apart: bool)
      requires Kept(prefix, w0) && SlaveMetadata(w0, values) && Restoring(w0, world, 0, m) && m <= |values|
      requires vmDisksCleared == Remembered(values, m)
      requires apart ==> !BothRunning(world)
      modifies `world, `history
      ensures SameSnapshots(w0, world)
      ensures !faulty ==> SlavesBack(w0, world)
      ensures !faulty && vmDisksCleared != [] ==> !world.dst.running
      ensures Safe(prefix, apart, old(history), history)
      ensures apart ==> !BothRunning(world)
    {
      hide *;
      ghost var h0, w := history, world;
      PowerFacts(w, false);
      SafeStart(prefix, apart, h0);
      RememberedLength(values, m);
      RestoringSafe(prefix, apart, h0, h0, w0, w, 0, m);
      if |vmDisksCleared| == 0 {
        RestoringDone(w0, world, m);
        return;
      }
      var stopped := SwitchDst(false);
      StoppedRestoring(prefix, apart, h0, h0, w0, w, m);
      var k := 0;
      while k < |vmDisksCleared|
        invariant 0 <= k <= |vmDisksCleared| == m <= |values|
        invariant Restoring(w0, world, k, m)
        invariant !faulty ==> !world.dst.running
        invariant apart ==> !BothRunning(world)
        invariant Safe(prefix, apart, h0, history)
      {
        RememberedAt(values, m, k);
        ghost var h, w1 := history, world;
        var ok := RestoreDisk(vmDisksCleared[k].0, vmDisksCleared[k].1, values, w0, m, apart);
        SafeTwice(prefix, apart, h0, h, history);
        if !ok {
          RestoringData(w0, world, k, m);
          return;
        }
        k := k + 1;
      }
      RestoringData(w0, world, m, m);
      RestoringDone(w0, world, m);
    }

    method RestoreDisk(k: nat, value: string, values: seq<string>, ghost w0: World, ghost m: nat, ghost apart: bool)
      returns (ok: bool)
      requires Kept(prefix, w0) && SlaveMetadata(w0, values) && Restoring(w0, world, k, m) && k < m <= |values| && values[k] == value
      requires apart ==> !BothRunning(world)
      modifies `world, `history
      ensures Restoring(w0, world, if ok then k + 1 else k, m)
      ensures world.dst.running == old(world).dst.running
      ensures apart ==> !BothRunning(world)
      ensures !faulty ==> ok
      ensures Safe(prefix, apart, old(history), history)
    {
      hide *;
      ghost var w := world;
      SlaveMetadataAt(w0, values, k);
      RestoringData(w0, w, k, m);
      SameSnapshotsKept(prefix, w0, w);
      ok := SetTwoDst(k, value);
      RestoringTwo(w0, w, world, k, m, value, ok);
      OnlyPairPower(w, world, k);
      SafeWeaker(prefix, apart, BothRunning(w), old(history), history);
    }

    /** The command failover and its cleanup if it fails.  `masterDown` says that every command on the host of the master
        fails; `stopped` reports whether the old master was stopped. */
    method Failover(force: bool, serviceExists: bool, masterDown: bool, cleanupFaulty: bool) returns (ok: bool, stopped: bool)
      requires Kept(prefix, world) && vmDisksCleared == []
      modifies this
      // at every command: no pair loses its snapshots, and without force the machines never run together
      ensures Kept(prefix, world) && SameSnapshots(old(world), world)
      ensures Safe(prefix, !force && !old(world).dst.running, old(history), history)
      // what makes it refuse, before it changes anything
      ensures ok ==> !serviceExists && (masterDown ==> force)
      ensures serviceExists || (masterDown && !force) ==> world == old(world) && history == old(history)
      ensures !force && !Linked(old(world)) ==> world == old(world) && history == old(history)
      ensures force && !SlavesNameMaster(old(world)) ==> world == old(world) && history == old(history)
      // the outcome
      ensures ok ==> Promoted(old(world), world)
      ensures ok && !force ==> Linked(old(world)) && stopped
      ensures ok && force ==> SlavesNameMaster(old(world))
      ensures ok ==> (BothRunning(world) <==> old(world).src.running && !stopped)
      ensures ok && masterDown ==> !stopped
      ensures !old(faulty) && !force && !serviceExists && !masterDown && Linked(old(world)) ==> ok
      ensures !old(faulty) && force && !serviceExists && SlavesNameMaster(old(world)) && SlavesPresent(old(world)) ==> ok
      // a failed failover
      ensures !ok && !cleanupFaulty ==> SlavesBack(old(world), world)
      ensures !ok && !cleanupFaulty && vmDisksCleared != [] ==> !world.dst.running
    {
      hide *;
      ghost var w0, h0, apart := world, history, !force && !world.dst.running;
      SafeStart(prefix, apart, h0);
      SameSnapshotsSelf(w0);
      stopped := false;
      var f := Fault();  // host names and VM configuration; failures on the side of the master are tolerated with force
      if f || (masterDown && !force) {
        return false, false;
      }
      var values;
      ok, values := CheckSlaveDisks(force);
      if !ok {
        return;
      }
      if serviceExists {
        return false, false;
      }
      if masterDown {
        history := history + [world];
      } else {
        stopped := StopSrc();
      }
      ClearingStart(w0, false);
      PowerFacts(w0, false);
      if !stopped && !force {
        ok := false;
        FailedStop(prefix, apart, h0, w0);
        return;
      }
      ghost var h1, w1 := history, world;
      StopSafe(prefix, apart, h0, w0, w1, stopped);
      ghost var k, stage;
      ok, k, stage := PromoteDisks(values, w0, apart);
      SafeTwice(prefix, apart, h0, h1, history);
      ghost var m := if stage < 2 then k else k + 1;
      ghost var h2, w2 := history, world;
      ClearingPower(w0, w1, w2, k, stage);
      RestoringStart(w0, w2, k, stage);
      ClearingApart(apart, w0, w2, k, stage);
      if ok {
        ok := SwitchDst(true);
        if ok {
          StartSafe(prefix, apart, h0, h2, w0, w2);
          vmDisksCleared := [];
          return;
        }
        NotStarted(prefix, apart, h0, h2, w0, w2, k, stage);
      }
      ghost var h3 := history;
      faulty := cleanupFaulty;
      FailoverCleanup(values, w0, m, apart);
      SafeTwice(prefix, apart, h0, h3, history);
      SameSnapshotsKept(prefix, w0, world);
    }

    // ---- the initial sync of init and reinit -----------------------------------------------------------------

    /** The new snapshot on the first `n` master disks, each remembered for the cleanup. */
    method SnapshotDisks(n: nat, snap: string, ghost keep: bool) returns (ok: bool, ghost taken: nat)
      requires n <= |world.src.disks| && Unused(world, snap) && AllPresent(world, n) && vmDisksSnap == []
      requires keep ==> OthersKept(prefix, world, snap)
      modifies `world, `history, `vmDisksSnap
      ensures taken <= n && Snapped(old(world), world, snap, taken) && vmDisksSnap == Infos(0, taken, snap)
      ensures ok ==> taken == n
      ensures !faulty ==> ok
      ensures Booked(prefix, keep, snap, world, old(history), history)
    {
      hide *;
      ghost var w0, h0 := world, history;
      BookedStart(prefix, keep, snap, w0, h0);
      SnappedStart(w0, snap);
      InfosNone(snap);
      taken := 0;
      var i := 0;
      while i < n
        invariant taken == i <= n <= |w0.src.disks|
        invariant Snapped(w0, world, snap, i) && vmDisksSnap == Infos(0, i, snap)
        invariant Booked(prefix, keep, snap, world, h0, history)
      {
        ghost var w, h := world, history;
        PresentCanTake(w0, n, i, snap);
        SnappedStep(w0, w, snap, i, 0);
        ghost var live;
        ok, live := CreateSnapshot(i, snap);
        BookedTake(prefix, keep, w0, w, snap, i, live, h0, h);
        if !ok {
          return;
        }
        SnappedStep(w0, w, snap, i, live);
        InfosSnoc(i, snap);
        vmDisksSnap := vmDisksSnap + [SnapInfo(i, snap)];
        i := i + 1;
        taken := i;
      }
      ok := true;
    }

    /** One pair of an initial sync: receive, then the metadata of the slave disk, then that of the master disk. */
    method InitialDisk(i: nat, base: Option<string>, snap: string, clearDst: bool, ghost w1: World) returns (ok: bool, ghost mark: Option<string>)
      requires Relinking(prefix, w1, world, snap, i, true) && i < |w1.src.disks| && i < |w1.dst.disks|
      requires Receivable(prefix, w1.src.disks[i], w1.dst.disks[i], base, snap)
      requires base.Some? ==> OthersKept(prefix, world, snap)
      requires clearDst ==> base.Some?
      modifies `world, `history
      ensures Relinking(prefix, w1, world, snap, if ok then i + 1 else i, ok)
      ensures !ok ==> Halted(w1, world, i, clearDst, mark)
      ensures !faulty ==> ok
      ensures Booked(prefix, base.Some?, snap, world, old(history), history)
    {
      hide *;
      ghost var h0, w, keep := history, world, base.Some?;
      BookedStart(prefix, keep, snap, w, h0);
      RelinkingRange(prefix, w1, w, snap, i, i);
      RelinkingSizes(prefix, w1, w, snap, i, true, i);
      HaltedStart(w1, w, i, clearDst);
      mark := None;
      InitialRecvStep(prefix, w, i, base, snap, true);
      RelinkingRecv(prefix, w1, w, w, snap, i) by { Reflexive(prefix, h0, w, i); }
      ghost var got;
      ok, got := InitialSendRecv(i, base, snap);
      if !ok {
        BookedStep(prefix, keep, snap, w, w, h0, h0);
        return;
      }
      InitialRecvStep(prefix, w, i, base, snap, got);
      RelinkingRecv(prefix, w1, w, world, snap, i);
      BookedRecv(prefix, keep, snap, w, world, i, h0);
      HaltedRecv(w1, w, i, base, snap, got, clearDst);
      ok, mark := LabelDisks(i, snap, clearDst, w1, keep, h0);
    }

    /** The metadata of one received pair. */
    method LabelDisks(i: nat, snap: string, clearDst: bool, ghost w1: World, ghost keep: bool, ghost h0: seq<World>)
      returns (ok: bool, ghost mark: Option<string>)
      requires Relinking(prefix, w1, world, snap, i, false) && HasNew(prefix, world, i, snap)
      requires Booked(prefix, keep, snap, world, h0, history)
      requires Halted(w1, world, i, clearDst, None) && i < |w1.src.disks| && i < |w1.dst.disks|
      modifies `world, `history
      ensures Relinking(prefix, w1, world, snap, if ok then i + 1 else i, ok)
      ensures !ok ==> Halted(w1, world, i, clearDst, mark)
      ensures !faulty ==> ok
      ensures Booked(prefix, keep, snap, world, h0, history)
    {
      hide *;
      ghost var w, h := world, history;
      mark := None;
      HasNewRange(prefix, w, i, snap);
      if clearDst {
        ok := SetPropertyDst(i, EsrepDst, None);
        PropertyFrameDst(w, i, EsrepDst, None);
        Reflexive(prefix, h, w, i);
        SameSnapshotsSelf(w);
        SafeOne(prefix, h, w, world);
        MasterKeptSame(w, world, i);
        RelinkingLabel(prefix, w1, w, world, snap, i);
        BookedLabel(prefix, keep, snap, w, world, h0, h, history);
        if !ok {
          return;
        }
        HaltedClear(w1, w, i);
      }
      ghost var w2, h2 := world, history;
      HasNewRange(prefix, w2, i, snap);
      LabelledIsRelinked(prefix, w2, i, snap);
      ok := SetTwoDst(i, EncodeProperty(world.src.name, world.src.disks[i].name));
      HaltedTwoDst(w1, w2, world, i, clearDst, EncodeProperty(w2.src.name, w2.src.disks[i].name));
      MasterKeptSame(w2, world, i);
      RelinkingLabel(prefix, w1, w2, world, snap, i);
      BookedLabel(prefix, keep, snap, w2, world, h0, h2, history);
      if !ok {
        return;
      }
      ghost var w3, h3 := world, history;
      RelinkingSizes(prefix, w1, w3, snap, i, false, i);
      ok, mark := SetTwoSrc(i, EncodeProperty(world.dst.name, world.dst.disks[i].name));
      if !ok {
        HaltedTwoSrc(w1, w3, world, i, clearDst, mark);
      }
      RelinkingLabel(prefix, w1, w3, world, snap, i);
      BookedLabel(prefix, keep, snap, w3, world, h0, h3, history);
    }

    /** `_initial_sync`: all snapshots first, then pair by pair.  `taken` and `k` say how far it came. */
    method InitialSync(bases: seq<Option<string>>, clearDst: bool, ghost keep: bool)
      returns (ok: bool, snap: string, ghost taken: nat, ghost k: nat, ghost w1: World, ghost mark: Option<string>)
      requires InitialReady(prefix, world, bases, keep) && (keep ==> Kept(prefix, world)) && (clearDst ==> keep)
      modifies `world, `history, `vmDisksSnap, `vmDisksSynced
      ensures Initial(prefix, old(world), w1, world, snap, taken, k, ok)
      ensures Unused(old(world), snap) && prefix <= snap
      ensures k <= taken <= |bases| && vmDisksSnap == Infos(0, taken, snap) && vmDisksSynced == UpTo(k)
      ensures ok ==> k == taken == |bases| && AllRelinked(prefix, world, |bases|, snap)
      ensures !ok ==> Halted(w1, world, k, clearDst, mark)
      ensures !faulty ==> ok
      ensures Booked(prefix, keep, snap, world, old(history), history)
    {
      hide *;
      ghost var w0, h0 := world, history;
      snap := GenerateSnapshotName();
      vmDisksSnap, vmDisksSynced := [], [];
      InitialPresent(prefix, w0, bases, keep);
      if keep {
        KeptAreOthers(prefix, w0, snap);
      }
      UpToStep(0);
      k := 0;
      ok, taken := SnapshotDisks(|bases|, snap, keep);
      w1, mark := world, None;
      RelinkingStart(prefix, w1, snap);
      HaltedStart(w1, w1, 0, clearDst);
      if !ok {
        InitialParts(prefix, w0, w1, w1, snap, taken, 0, false);
        return;
      }
      var i := 0;
      while i < |bases|
        invariant k == i <= |bases| == taken && vmDisksSnap == Infos(0, taken, snap)
        invariant Relinking(prefix, w1, world, snap, i, true) && vmDisksSynced == UpTo(i)
        invariant Booked(prefix, keep, snap, world, h0, history)
      {
        ghost var w, h := world, history;
        BecomesReceivable(prefix, w0, w1, bases, keep, snap, i);
        BookedOthers(prefix, keep, snap, w, h0, h);
        ok, mark := InitialDisk(i, bases[i], snap, clearDst, w1);
        BookedTwice(prefix, keep, snap, w, world, h0, h, history);
        if !ok {
          InitialParts(prefix, w0, w1, world, snap, taken, k, false);
          return;
        }
        UpToStep(i);
        vmDisksSynced := vmDisksSynced + [i];
        i := i + 1;
        k := i;
      }
      ok := true;
      InitialParts(prefix, w0, w1, world, snap, taken, k, true);
      InitialDone(prefix, w1, world, snap, k);
    }

    // ---- reinit -----------------------------------------------------------------------------------------------

    /** The checks of reinit on one pair. */
    method CheckReversiblePair(i: nat) returns (ok: bool, base: Option<string>)
      requires Kept(prefix, world) && i < |world.src.disks| && i < |world.dst.disks|
      ensures ok ==> ReversiblePair(world.src.disks[i], world.dst.disks[i])
                     && InitialPair(prefix, world.src.disks[i], world.dst.disks[i], base, true)
      ensures !ok ==> faulty || !ReversiblePair(world.src.disks[i], world.dst.disks[i])
    {
      hide PropertyDisk, PlanFor, InitialPair, PairKept;
      var a, b := world.src.disks[i], world.dst.disks[i];
      var disk, p;
      base := None;
      ok, disk := ReadProperty(b.esrepDst);
      var f := Fault();  // the other four properties
      ok := ok && !f && disk == a.name && !b.readonly && a.esrepDst.None? && a.esrepSrc.None? && !a.readonly;
      if !ok {
        return;
      }
      ok, p := GetCommonSnapshot(i);
      if ok {
        PlansToBases(prefix, world, i, p);
        base := Some(p.base);
      }
    }

    /** The checks of reinit on every pair, and a base for every pair. */
    method CheckReversible() returns (ok: bool, bases: seq<Option<string>>)
      requires Kept(prefix, world)
      ensures ok ==> Reversible(world) && InitialReady(prefix, world, bases, true)
                     && |bases| == Smaller(|world.src.disks|, |world.dst.disks|)
      ensures !ok ==> faulty || !Reversible(world)
    {
      hide ReversiblePair, InitialPair, Kept;
      bases := [];
      var base;
      var n := Smaller(|world.src.disks|, |world.dst.disks|);
      var i := 0;
      while i < n
        invariant 0 <= i == |bases| <= n
        invariant forall j :: 0 <= j < i ==> ReversiblePair(world.src.disks[j], world.dst.disks[j])
        invariant forall j :: 0 <= j < i ==> InitialPair(prefix, world.src.disks[j], world.dst.disks[j], bases[j], true)
      {
        ok, base := CheckReversiblePair(i);
        if !ok {
          return;
        }
        bases := bases + [base];
        i := i + 1;
      }
      ok := true;
    }

    /** The cleanup of reinit: destroy the new snapshot on every master disk that was not completely synced. */
    method ReinitCleanup(snap: string, ghost taken: nat, ghost k: nat, ghost w0: World, ghost h0: seq<World>)
      requires Booked(prefix, true, snap, world, h0, history) && Unused(w0, snap)
      requires vmDisksSnap == Infos(0, taken, snap) && vmDisksSynced == UpTo(k)
      requires Withdrawing(prefix, w0, world, snap, taken, k, 0)
      modifies `world, `history
      ensures Kept(prefix, world) && Trace(prefix, h0, history)
      ensures !faulty ==> Withdrawn(prefix, w0, world, snap, k)
    {
      hide *;
      InfosLength(0, taken, snap);
      ghost var all := true;
      var j := 0;
      while j < |vmDisksSnap|
        invariant 0 <= j <= |vmDisksSnap| == taken
        invariant Booked(prefix, true, snap, world, h0, history)
        invariant all ==> Withdrawing(prefix, w0, world, snap, taken, k, j)
        invariant !faulty ==> all
      {
        InfosAt(0, taken, snap, j);
        UpToAt(k, j);
        var info := vmDisksSnap[j];
        if info.disk !in vmDisksSynced {
          BookedDestroy(prefix, snap, world, info.disk, h0, history);
          if all {
            WithdrawingStep(prefix, w0, world, snap, taken, k, j);
          }
          var ok := DestroySrc(info.disk, {info.snap});
          all := all && ok;
        } else if all {
          WithdrawingPass(prefix, w0, world, snap, taken, k, j);
        }
        j := j + 1;
      }
      BookedKept(prefix, snap, world, h0, history);
      if all {
        WithdrawingDone(prefix, w0, world, snap, taken, k);
      }
    }

    /** The command reinit and its cleanup if it fails; the slave is the old master. */
    method Reinit(cleanupFaulty: bool) returns (ok: bool, ghost last: string)
      requires Kept(prefix, world) && vmDisksSynced == []
      modifies this
      // at every command, every pair keeps a snapshot to continue from
      ensures Kept(prefix, world) && Trace(prefix, old(history), history)
      // the outcome
      ensures !Reversible(old(world)) ==> !ok && (world == old(world) || world == PowerDst(old(world), false))
      ensures ok ==> Reversible(old(world)) && SameMachines(old(world), world) && !world.dst.running
                     && world.src.running == old(world).src.running
                     && AllRelinked(prefix, world, Smaller(|world.src.disks|, |world.dst.disks|), last)
      ensures !old(faulty) && Reversible(old(world)) ==> ok
      // a failed reinit: complete pairs stay linked, the other master disks have their old snapshots, and the pair where it
      // stopped has its old labels unless the slave disk has lost its esrep:dst
      ensures !ok && !cleanupFaulty ==> Withdrawn(prefix, old(world), world, last, |vmDisksSynced|)
    {
      hide *;
      ghost var w0, h0 := world, history;
      last := "";
      ok := SwitchDst(false);
      PowerKept(prefix, w0, false, h0);
      PowerFacts(w0, false);
      NothingWithdrawn(prefix, w0);
      if !ok {
        return;
      }
      ghost var w1, h1 := world, history;
      var f := Fault();  // host names and VM configuration
      if f {
        return false, "";
      }
      var bases, snap;
      ok, bases := CheckReversible();
      if !ok {
        return;
      }
      ghost var taken, k, w2, mark;
      ok, snap, taken, k, w2, mark := InitialSync(bases, true, true);
      last := snap;
      if !ok {
        faulty := cleanupFaulty;
        WithdrawingStart(prefix, w1, w2, world, snap, taken, k, false, mark);
        ReinitCleanup(snap, taken, k, w1, h1);
        UpToAt(k, 0);
        if !cleanupFaulty {
          WithdrawnFrom(prefix, w0, w1, world, snap, k);
        }
        TraceTwice(prefix, h0, h1, history);
        return;
      }
      BookedKept(prefix, snap, world, h1, history);
      TraceTwice(prefix, h0, h1, history);
      ReinitDone(prefix, w0, w1, w2, world, snap, taken, k);
    }

    // ---- init --------------------------------------------------------------------------------------------------

    method CreateVm(names: seq<string>) returns (ok: bool)
      modifies `world, `history
      ensures world == if ok then AfterCreate(old(world), names) else old(world)
      ensures !ok ==> faulty
    {
      var f := Fault();
      ok := !f;
      if ok {
        world := AfterCreate(world, names);
      }
      history := history + [world];
    }

    method DeleteVm() returns (ok: bool)
      modifies `world, `history
      ensures world == if ok then AfterDelete(old(world)) else old(world)
      ensures !ok ==> faulty
    {
      var f := Fault();
      ok := !f;
      if ok {
        world := AfterDelete(world);
      }
      history := history + [world];
    }

    method DestroyDisk(i: nat) returns (ok: bool)
      modifies `world, `history
      ensures world == if ok then AfterDestroyDisk(old(world), i) else old(world)
      ensures !ok ==> faulty
    {
      var f := Fault();
      ok := !f;
      if ok {
        world := AfterDestroyDisk(world, i);
      }
      history := history + [world];
    }

    /** Create the slave VM and destroy its empty disks, the last one first. */
    method MakeRoom(names: seq<string>) returns (ok: bool)
      modifies `world, `history, `vmCreated
      ensures world.src == old(world).src
      ensures ok ==> vmCreated && |names| == |world.src.disks| && Emptied(old(world), world, names, 0)
      ensures !faulty && |names| == |old(world).src.disks| ==> ok
      ensures !vmCreated ==> world == old(world)
    {
      hide *;
      ghost var w0 := world;
      vmCreated := false;
      ok := CreateVm(names);
      if !ok {
        return;
      }
      vmCreated := true;
      EmptiedStart(w0, names);
      EmptiedSource(w0, world, names, |names|);
      var f := Fault();  // VM configuration, core dataset
      if f || |names| != |world.src.disks| {
        return false;
      }
      var k := |names|;
      while k > 0
        invariant 0 <= k <= |names| && vmCreated
        invariant Emptied(w0, world, names, k)
      {
        k := k - 1;
        EmptiedStep(w0, world, names, k);
        EmptiedSource(w0, world, names, k + 1);
        ok := DestroyDisk(k);
        if !ok {
          return;
        }
      }
      EmptiedSource(w0, world, names, 0);
      ok := true;
    }

    /** The cleanup of init.  A failing command ends it, except that failures to destroy a snapshot are ignored. */
    method InitCleanup(ghost w0: World, snap: string, ghost taken: nat, ghost k: nat, ghost mark: Option<string>)
      requires Undoing(w0, world, snap, taken, k, 0, 0, mark) && UnusedOnMaster(w0, snap)
      requires vmDisksSnap == Infos(0, taken, snap) && vmDisksSynced == UpTo(k)
      requires taken > 0 || k > 0 ==> vmCreated
      modifies `world, `history
      ensures !faulty ==> MasterUndone(w0, world, k, mark) && (vmCreated ==> SlaveGone(world))
    {
      hide *;
      InfosLength(0, taken, snap);
      UpToAt(k, 0);
      var i := 0;
      while i < |vmDisksSynced|
        invariant 0 <= i <= |vmDisksSynced| == k
        invariant Undoing(w0, world, snap, taken, k, i, 0, mark)
      {
        UpToAt(k, i);
        UndoingClear(w0, world, snap, taken, k, i, mark);
        var ok := SetPropertySrc(vmDisksSynced[i], EsrepDst, None);
        if !ok {
          return;
        }
        i := i + 1;
      }
      if vmCreated {
        UndoingDelete(w0, world, snap, taken, k, k, 0, mark);
        var ok := DeleteVm();
        if !ok {
          return;
        }
        ghost var all := true;
        i := 0;
        while i < |vmDisksSnap|
          invariant 0 <= i <= |vmDisksSnap| == taken
          invariant all ==> Undoing(w0, world, snap, taken, k, k, i, mark) && SlaveGone(world)
          invariant !faulty ==> all
        {
          InfosAt(0, taken, snap, i);
          if all {
            UndoingDestroy(w0, world, snap, taken, k, k, i, mark);
          }
          ok := DestroySrc(vmDisksSnap[i].disk, {vmDisksSnap[i].snap});
          all := all && ok;
          i := i + 1;
        }
        if all {
          UndoingDone(w0, world, snap, taken, k, mark);
        }
      } else {
        UndoingDone(w0, world, snap, taken, k, mark);
      }
    }

    /** The command init for a slave VM with the given disks, and its cleanup if it fails. */
    method Init(names: seq<string>, cleanupFaulty: bool) returns (ok: bool, ghost last: string, ghost mark: Option<string>)
      requires MasterFit(world) && vmDisksSnap == [] && vmDisksSynced == []
      modifies this
      ensures ok ==> Kept(prefix, world) && FreshMaster(world) && AllRelinked(prefix, world, |world.src.disks|, last)
                     && |world.src.disks| == |world.dst.disks| == |names|
      ensures ok ==> world.src.name == old(world).src.name && world.dst.name == old(world).dst.name && !world.dst.running
      ensures !old(faulty) && |names| == |old(world).src.disks| ==> ok
      // a failed init: `mark` is the esrep:dst that was already set on the disk where it stopped
      ensures !ok && !cleanupFaulty ==> MasterUndone(old(world), world, |vmDisksSynced|, mark) && (vmCreated ==> SlaveGone(world))
      ensures !ok && mark.Some? ==>
                && |vmDisksSynced| < |names| == |old(world).src.disks|
                && mark.value == EncodeProperty(old(world).dst.name, names[|vmDisksSynced|])
    {
      hide *;
      ghost var w0, taken, k := world, 0, 0;
      UpToStep(0);
      UpToAt(0, 0);
      last, mark := "", None;
      var f := Fault();  // host names
      var snap := GenerateSnapshotName();
      InfosNone(snap);
      UndoingNothing(w0, world, snap);
      UnusedSource(w0, w0, snap);
      vmCreated := false;
      ok := false;
      if !f {
        ok := MakeRoom(names);
        UndoingNothing(w0, world, snap);
      }
      if ok {
        ghost var w1, w2 := world, world;
        EmptiedReady(prefix, w0, w1, names);
        EmptiedSource(w0, w1, names, 0);
        ok, snap, taken, k, w2, mark := InitialSync(NoBases(|world.src.disks|), false, false);
        last := snap;
        UnusedSource(w0, w1, snap);
        UndoingStart(prefix, w0, w1, w2, world, names, snap, taken, k, ok, mark);
        f := Fault();  // the VM configuration for the output
        if ok {
          mark := None;
          UndoingStart(prefix, w0, w1, w2, world, names, snap, taken, k, ok, mark);
          InitDone(prefix, w0, w1, w2, world, names, snap, taken, k);
        }
        ok := ok && !f;
      }
      if !ok {
        faulty := cleanupFaulty;
        InitCleanup(w0, snap, taken, k, mark);
        UpToAt(k, 0);
      }
    }
  }
}
