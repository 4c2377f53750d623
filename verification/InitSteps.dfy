/** The command init around its initial sync: making room for the slave disks, and undoing a failed init. */
module InitSteps {
  import opened Options
  import opened Snapshots
  import opened Replicas
  import opened ReplicationSteps
  import opened LifecycleSteps
  import opened InitialSteps

  /** What zfs guarantees of the disks of the master VM. */
  ghost predicate MasterFit(w: World) {
    forall i :: 0 <= i < |w.src.disks| ==> w.src.disks[i].present && Distinct(w.src.disks[i].snaps)
  }

  /** The slave VM is created, and its empty disks from `k` on are destroyed again. */
  ghost predicate Emptied(w0: World, w: World, names: seq<string>, k: nat) {
    && w.src == w0.src && w.dst.name == w0.dst.name && !w.dst.running && |w.dst.disks| == |names|
    && (forall j :: 0 <= j < |names| ==> w.dst.disks[j].name == names[j])
    && (forall j :: k <= j < |names| ==> !w.dst.disks[j].present)
  }

  lemma EmptiedStart(w: World, names: seq<string>)
    ensures Emptied(w, AfterCreate(w, names), names, |names|)
  {
  }

  lemma EmptiedStep(w0: World, w: World, names: seq<string>, k: nat)
    requires Emptied(w0, w, names, k + 1) && k < |names|
    ensures Emptied(w0, AfterDestroyDisk(w, k), names, k)
  {
  }

  lemma EmptiedSource(w0: World, w: World, names: seq<string>, k: nat)
    requires Emptied(w0, w, names, k)
    ensures w.src == w0.src && w.dst.name == w0.dst.name && |w.dst.disks| == |names|
  {
  }

  function NoBases(n: nat): (r: seq<Option<string>>)
    ensures |r| == n
  {
    seq(n, _ => None)
  }

  lemma EmptiedReady(prefix: string, w0: World, w: World, names: seq<string>)
    requires MasterFit(w0) && Emptied(w0, w, names, 0) && |names| == |w0.src.disks|
    ensures InitialReady(prefix, w, NoBases(|names|), false)
  {
  }

  lemma InitDone(prefix: string, w0: World, w1: World, w2: World, w: World, names: seq<string>, snap: string, taken: nat, k: nat)
    requires Emptied(w0, w1, names, 0) && |names| == |w0.src.disks| && Initial(prefix, w1, w2, w, snap, taken, k, true)
    requires AllRelinked(prefix, w, |names|, snap)
    ensures Kept(prefix, w) && FreshMaster(w) && |w.src.disks| == |w.dst.disks| == |names|
    ensures AllRelinked(prefix, w, |w.src.disks|, snap)
    ensures w.src.name == w0.src.name && w.dst.name == w0.dst.name && !w.dst.running
  {
    AllRelinkedKept(prefix, w, |names|, snap);
  }

  // ---- undoing ----------------------------------------------------------------------------------------------------

  /** The cleanup of an init that stopped in the pair `k` with `taken` snapshots: it has cleared the property of the
      first `p` master disks and destroyed the snapshots of the first `q`.  `mark` is the property that init had already
      set on the disk `k`. */
  ghost predicate Undoing(w0: World, w: World, snap: string, taken: nat, k: nat, p: nat, q: nat, mark: Option<string>) {
    && |w.src.disks| == |w0.src.disks| && q <= taken <= |w0.src.disks| && p <= k <= taken
    && forall j :: 0 <= j < |w0.src.disks| ==> UndoingDisk(w0.src.disks[j], w.src.disks[j], snap, j, taken, k, p, q, mark)
  }

  ghost predicate UndoingDisk(a0: Disk, a: Disk, snap: string, j: nat, taken: nat, k: nat, p: nat, q: nat, mark: Option<string>) {
    && a.present && a.name == a0.name
    && a.snaps == (if q <= j < taken then a0.snaps + [Snapshot(snap, a.live)] else a0.snaps)
    && (j < p ==> a.esrepDst == None) && (j > k ==> a.esrepDst == a0.esrepDst)
    && (j == k ==> a.esrepDst == if mark.Some? then mark else a0.esrepDst)
    && (a.readonly ==> a0.readonly)
  }

  lemma UndoingStart(prefix: string, w0: World, w1: World, w2: World, w: World, names: seq<string>, snap: string, taken: nat, k: nat, clean: bool, mark: Option<string>)
    requires MasterFit(w0) && Emptied(w0, w1, names, 0) && Initial(prefix, w1, w2, w, snap, taken, k, clean)
    requires k <= taken && k <= |w1.dst.disks| && |w1.src.disks| == |w1.dst.disks|
    requires if clean then k == |w0.src.disks| else Halted(w2, w, k, false, mark)
    ensures Undoing(w0, w, snap, taken, k, 0, 0, mark)
    ensures !clean && mark.Some? ==> k < |names| && mark.value == EncodeProperty(w0.dst.name, names[k])
  {
    forall j | 0 <= j < |w0.src.disks| ensures UndoingDisk(w0.src.disks[j], w.src.disks[j], snap, j, taken, k, 0, 0, mark) {
      assert MasterKept(w2.src.disks[j], w.src.disks[j]);
    }
  }

  lemma UndoingNothing(w0: World, w: World, snap: string)
    requires MasterFit(w0) && w.src == w0.src
    ensures Undoing(w0, w, snap, 0, 0, 0, 0, None)
  {
  }

  lemma UndoingClear(w0: World, w: World, snap: string, taken: nat, k: nat, p: nat, mark: Option<string>)
    requires Undoing(w0, w, snap, taken, k, p, 0, mark) && p < k
    ensures CanSetSrc(w, p) && Undoing(w0, AfterSetSrc(w, p, EsrepDst, None), snap, taken, k, p + 1, 0, mark)
  {
    var v := AfterSetSrc(w, p, EsrepDst, None);
    assert UndoingDisk(w0.src.disks[p], w.src.disks[p], snap, p, taken, k, p, 0, mark);
    forall j | 0 <= j < |w0.src.disks| ensures UndoingDisk(w0.src.disks[j], v.src.disks[j], snap, j, taken, k, p + 1, 0, mark) {
      assert UndoingDisk(w0.src.disks[j], w.src.disks[j], snap, j, taken, k, p, 0, mark);
    }
  }

  lemma UndoingDelete(w0: World, w: World, snap: string, taken: nat, k: nat, p: nat, q: nat, mark: Option<string>)
    requires Undoing(w0, w, snap, taken, k, p, q, mark)
    ensures Undoing(w0, AfterDelete(w), snap, taken, k, p, q, mark) && SlaveGone(AfterDelete(w))
  {
  }

  ghost predicate UnusedOnMaster(w: World, snap: string) {
    forall i :: 0 <= i < |w.src.disks| ==> snap !in Names(w.src.disks[i].snaps)
  }

  lemma UnusedSource(w0: World, w: World, snap: string)
    requires Unused(w, snap) && w.src == w0.src
    ensures UnusedOnMaster(w0, snap)
  {
  }

  ghost predicate SlaveGone(w: World) {
    forall j :: 0 <= j < |w.dst.disks| ==> !w.dst.disks[j].present
  }

  lemma UndoingDestroy(w0: World, w: World, snap: string, taken: nat, k: nat, p: nat, q: nat, mark: Option<string>)
    requires Undoing(w0, w, snap, taken, k, p, q, mark) && q < taken && SlaveGone(w) && UnusedOnMaster(w0, snap)
    ensures CanDestroySrc(w, q, {snap})
    ensures Undoing(w0, AfterDestroySrc(w, q, {snap}), snap, taken, k, p, q + 1, mark) && SlaveGone(AfterDestroySrc(w, q, {snap}))
  {
    var a0, a := w0.src.disks[q], w.src.disks[q];
    assert UndoingDisk(a0, a, snap, q, taken, k, p, q, mark);
    var x := Snapshot(snap, a.live);
    LastIsMember(a0.snaps, x);
    InNames(a.snaps, x);
    DropUndoesAppend(a0.snaps, x);
    var v := AfterDestroySrc(w, q, {snap});
    forall j | 0 <= j < |w0.src.disks| ensures UndoingDisk(w0.src.disks[j], v.src.disks[j], snap, j, taken, k, p, q + 1, mark) {
      assert UndoingDisk(w0.src.disks[j], w.src.disks[j], snap, j, taken, k, p, q, mark);
    }
  }

  /** The master after a failed init and its cleanup: it has its old snapshots, and no replication property on the disks that
      had been synced completely; the disk `k`, where init stopped, keeps the property `mark` if it was already set; no disk has
      become readonly. */
  ghost predicate MasterUndone(w0: World, w: World, k: nat, mark: Option<string>) {
    && |w.src.disks| == |w0.src.disks|
    && forall j :: 0 <= j < |w.src.disks| ==>
         && w.src.disks[j].snaps == w0.src.disks[j].snaps
         && w.src.disks[j].esrepDst == UndoneProperty(w0.src.disks[j].esrepDst, j, k, mark)
         && (w.src.disks[j].readonly ==> w0.src.disks[j].readonly)
  }

  ghost function UndoneProperty(before: Option<string>, j: nat, k: nat, mark: Option<string>): (r: Option<string>) {
    if j < k then None else if j == k && mark.Some? then mark else before
  }

  lemma UndoingDone(w0: World, w: World, snap: string, taken: nat, k: nat, mark: Option<string>)
    requires Undoing(w0, w, snap, taken, k, k, taken, mark)
    ensures MasterUndone(w0, w, k, mark)
  {
    forall j | 0 <= j < |w.src.disks|
      ensures w.src.disks[j].snaps == w0.src.disks[j].snaps
      ensures w.src.disks[j].esrepDst == UndoneProperty(w0.src.disks[j].esrepDst, j, k, mark)
      ensures w.src.disks[j].readonly ==> w0.src.disks[j].readonly
    {
      assert UndoingDisk(w0.src.disks[j], w.src.disks[j], snap, j, taken, k, k, taken, mark);
    }
  }

  /** For a master without replication properties: the cleanup leaves it without any, if and only if esrep:dst of the disk at
      which init stopped was not yet set. */
  lemma UndoneExactly(w0: World, w: World, k: nat, mark: Option<string>)
    requires MasterUndone(w0, w, k, mark) && (mark.Some? ==> k < |w0.src.disks|)
    requires forall j :: 0 <= j < |w0.src.disks| ==> w0.src.disks[j].esrepDst == None
    ensures (forall j :: 0 <= j < |w.src.disks| ==> w.src.disks[j].esrepDst == None) <==> mark.None?
  {
    assert mark.Some? ==> w.src.disks[k].esrepDst == mark;
  }

  // ---- a run in which the property stays --------------------------------------------------------------------------

  lemma RoomMade(w: World, name: string)
    ensures var v := AfterDestroyDisk(AfterCreate(w, [name]), 0);
            v.src == w.src && |v.dst.disks| == 1 && !v.dst.disks[0].present
  {
  }

  lemma SnapshotTaken(w: World, a: Disk, snap: string)
    requires w.src.disks == [a] && a.present && a.snaps == []
    ensures CanTake(w, 0, snap)
    ensures var v := AfterTake(w, 0, snap, a.live);
            v.src.disks == [a.(snaps := [Snapshot(snap, a.live)])] && v.dst == w.dst
  {
    assert [] + [Snapshot(snap, a.live)] == [Snapshot(snap, a.live)];
  }

  lemma FirstReceived(w: World, a: Disk, x: Snapshot)
    requires w.src.disks == [a] && a.snaps == [x] && |w.dst.disks| == 1 && !w.dst.disks[0].present
    ensures CanRecvFull(w, 0, x.name)
    ensures var v := AfterRecvFull(w, 0, x.name, false);
            v.src == w.src && CanSetDst(v, 0)
  {
  }

  lemma MasterLabelled(w: World, a: Disk, mark: Option<string>)
    requires w.src.disks == [a] && a.present
    ensures CanSetSrc(w, 0) && AfterSetSrc(w, 0, EsrepDst, mark).src.disks == [a.(esrepDst := mark)]
  {
  }

  lemma CleanedUp(w: World, a: Disk, x: Snapshot)
    requires w.src.disks == [a] && a.snaps == [x]
    ensures AfterDestroySrc(AfterDelete(w), 0, {x.name}).src.disks == [a.(snaps := [])]
  {
    DropUndoesAppend([], x);
    assert [] + [x] == [x];
    InNames([x], x);
  }

  lemma OneDiskUndone(w0: World, w: World, a: Disk, mark: Option<string>)
    requires w0.src.disks == [a] && a.present && a.snaps == [] && a.esrepDst == None && mark.Some?
    requires w.src.disks == [a.(esrepDst := mark)]
    ensures MasterFit(w0) && MasterUndone(w0, w, 0, mark)
  {
  }

  /** The commands of an init of one disk up to the property of the master disk, and its cleanup after setting readonly has
      failed: the property stays. */
  lemma PropertyStays() returns (w0: World, w: World, mark: Option<string>)
    ensures MasterFit(w0) && MasterUndone(w0, w, 0, mark) && mark.Some? && |w0.src.disks| == 1 && w0.src.disks[0].esrepDst == None
    ensures var created := AfterDestroyDisk(AfterCreate(w0, ["zones/s"]), 0);
            var taken := AfterTake(created, 0, "rs-1-1", 5);
            var received := AfterRecvFull(taken, 0, "rs-1-1", false);
            var labelled := AfterTwoDst(received, 0, "h1/zones/m");
            var stopped := AfterSetSrc(labelled, 0, EsrepDst, mark);
            && CanTake(created, 0, "rs-1-1") && CanRecvFull(taken, 0, "rs-1-1") && CanSetDst(received, 0) && CanSetSrc(labelled, 0)
            && w == AfterDestroySrc(AfterDelete(stopped), 0, {"rs-1-1"})
  {
    hide *;
    var a := Disk("zones/m", true, [], 5, None, None, false);
    w0 := World(Host("h1", "m", [a], true), Host("h2", "s", [], false));
    mark := Some("h2/zones/s");
    var x := Snapshot("rs-1-1", 5);
    RoomMade(w0, "zones/s");
    var created := AfterDestroyDisk(AfterCreate(w0, ["zones/s"]), 0);
    SnapshotTaken(created, a, x.name);
    var taken := AfterTake(created, 0, x.name, 5);
    FirstReceived(taken, a.(snaps := [x]), x);
    var received := AfterRecvFull(taken, 0, x.name, false);
    TwoDstFrame(received, 0, "h1/zones/m");
    var labelled := AfterTwoDst(received, 0, "h1/zones/m");
    MasterLabelled(labelled, a.(snaps := [x]), mark);
    var stopped := AfterSetSrc(labelled, 0, EsrepDst, mark);
    CleanedUp(stopped, a.(snaps := [x], esrepDst := mark), x);
    w := AfterDestroySrc(AfterDelete(stopped), 0, {x.name});
    OneDiskUndone(w0, w, a, mark);
  }
}
