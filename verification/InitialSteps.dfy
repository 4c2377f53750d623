/** The initial sync that init and reinit share: new snapshots on the master, then disk by disk a receive and the
    metadata on both sides. */
module InitialSteps {
  import opened Options
  import opened Snapshots
  import opened Replicas
  import opened ReplicationSteps
  import opened LifecycleSteps

  // ---- commands -----------------------------------------------------------------------------------------------

  /** A full receive creates the dataset; it is refused if the dataset exists. */
  predicate CanRecvFull(w: World, i: nat, snap: string) {
    && i < |w.src.disks| && i < |w.dst.disks| && !w.dst.disks[i].present
    && Find(w.src.disks[i].snaps, snap) < |w.src.disks[i].snaps|
  }

  /** `zfs send -R -p`: all snapshots up to the sent one, and maybe the properties. */
  function FullDisk(a: Disk, b: Disk, snap: string, got: bool): (r: Disk)
    requires Find(a.snaps, snap) < |a.snaps|
  {
    var m := Find(a.snaps, snap);
    Disk(b.name, true, a.snaps[..m + 1], a.snaps[m].content, if got then a.esrepSrc else None,
         if got then a.esrepDst else None, got && a.readonly)
  }

  function AfterRecvFull(w: World, i: nat, snap: string, got: bool): (r: World) {
    if CanRecvFull(w, i, snap) then SetDst(w, i, FullDisk(w.src.disks[i], w.dst.disks[i], snap, got)) else w
  }

  /** A slave VM with new, empty disks. */
  function AfterCreate(w: World, names: seq<string>): (r: World) {
    w.(dst := w.dst.(disks := seq(|names|, i requires 0 <= i < |names| => Disk(names[i], true, [], 0, None, None, false)),
                     running := false))
  }

  function AbsentDisk(d: Disk): (r: Disk) {
    Disk(d.name, false, [], 0, None, None, false)
  }

  function AfterDestroyDisk(w: World, i: nat): (r: World) {
    if i < |w.dst.disks| then SetDst(w, i, AbsentDisk(w.dst.disks[i])) else w
  }

  /** vmadm deletes all datasets of the slave VM. */
  function AfterDelete(w: World): (r: World) {
    w.(dst := w.dst.(disks := seq(|w.dst.disks|, i requires 0 <= i < |w.dst.disks| => AbsentDisk(w.dst.disks[i])),
                     running := false))
  }

  /** Both properties of a slave disk, in the order of the commands. */
  function AfterTwoDst(w: World, i: nat, v: string): (r: World) {
    AfterSetDst(AfterSetDst(w, i, EsrepSrc, Some(v)), i, ReadOnly, Some("on"))
  }

  function AfterTwoSrc(w: World, i: nat, v: string): (r: World) {
    AfterSetSrc(AfterSetSrc(w, i, EsrepDst, Some(v)), i, ReadOnly, Some("off"))
  }

  lemma TwoDstCommute(w: World, i: nat, v: string)
    ensures AfterSetDst(AfterSetDst(w, i, ReadOnly, Some("on")), i, EsrepSrc, Some(v)) == AfterTwoDst(w, i, v)
    ensures CanSetDst(AfterSetDst(w, i, ReadOnly, Some("on")), i) == CanSetDst(w, i)
    ensures CanSetDst(AfterSetDst(w, i, EsrepSrc, Some(v)), i) == CanSetDst(w, i)
  {
    if CanSetDst(w, i) {
      var b := w.dst.disks[i];
      assert w.dst.disks[i := WithProperty(b, ReadOnly, Some("on"))][i := WithProperty(WithProperty(b, ReadOnly, Some("on")), EsrepSrc, Some(v))]
          == w.dst.disks[i := WithProperty(b, EsrepSrc, Some(v))][i := WithProperty(WithProperty(b, EsrepSrc, Some(v)), ReadOnly, Some("on"))];
    }
  }

  lemma TwoSrcCommute(w: World, i: nat, v: string)
    ensures AfterSetSrc(AfterSetSrc(w, i, ReadOnly, Some("off")), i, EsrepDst, Some(v)) == AfterTwoSrc(w, i, v)
    ensures CanSetSrc(AfterSetSrc(w, i, ReadOnly, Some("off")), i) == CanSetSrc(w, i)
    ensures CanSetSrc(AfterSetSrc(w, i, EsrepDst, Some(v)), i) == CanSetSrc(w, i)
  {
    if CanSetSrc(w, i) {
      var a := w.src.disks[i];
      assert w.src.disks[i := WithProperty(a, ReadOnly, Some("off"))][i := WithProperty(WithProperty(a, ReadOnly, Some("off")), EsrepDst, Some(v))]
          == w.src.disks[i := WithProperty(a, EsrepDst, Some(v))][i := WithProperty(WithProperty(a, EsrepDst, Some(v)), ReadOnly, Some("off"))];
    }
  }

  /** Setting a property changes no data and no power state, and only the pair of the disk. */
  lemma PropertyFrameDst(w: World, i: nat, p: Property, v: Option<string>)
    ensures SameSnapshots(w, AfterSetDst(w, i, p, v)) && OnlyPair(w, AfterSetDst(w, i, p, v), i)
    ensures AfterSetDst(w, i, p, v).src == w.src && BothRunning(AfterSetDst(w, i, p, v)) == BothRunning(w)
  {
  }

  lemma PropertyFrameSrc(w: World, i: nat, p: Property, v: Option<string>)
    ensures SameSnapshots(w, AfterSetSrc(w, i, p, v)) && OnlyPair(w, AfterSetSrc(w, i, p, v), i)
    ensures AfterSetSrc(w, i, p, v).dst == w.dst && BothRunning(AfterSetSrc(w, i, p, v)) == BothRunning(w)
  {
  }

  lemma SameSnapshotsTwice(w0: World, w1: World, w2: World)
    requires SameSnapshots(w0, w1) && SameSnapshots(w1, w2)
    ensures SameSnapshots(w0, w2)
  {
    forall i | 0 <= i < |w2.src.disks| ensures SameData(w0.src.disks[i], w2.src.disks[i]) {
      assert SameData(w0.src.disks[i], w1.src.disks[i]) && SameData(w1.src.disks[i], w2.src.disks[i]);
    }
    forall i | 0 <= i < |w2.dst.disks| ensures SameData(w0.dst.disks[i], w2.dst.disks[i]) {
      assert SameData(w0.dst.disks[i], w1.dst.disks[i]) && SameData(w1.dst.disks[i], w2.dst.disks[i]);
    }
  }

  // ---- what a reinit never loses ----------------------------------------------------------------------------------

  /** Every pair has a common replication snapshot other than the new one. */
  ghost predicate OthersKept(prefix: string, w: World, snap: string) {
    forall i :: 0 <= i < |w.src.disks| && i < |w.dst.disks| ==> OtherKept(prefix, w.src.disks[i], w.dst.disks[i], snap)
  }

  ghost predicate OtherKept(prefix: string, a: Disk, b: Disk, snap: string) {
    exists x :: PairHas(prefix, a, b, x) && x.name != snap
  }

  lemma OthersAreKept(prefix: string, w: World, snap: string)
    requires OthersKept(prefix, w, snap)
    ensures Kept(prefix, w)
  {
    forall i | 0 <= i < |w.src.disks| && i < |w.dst.disks| ensures PairKept(prefix, w.src.disks[i], w.dst.disks[i]) {
      assert OtherKept(prefix, w.src.disks[i], w.dst.disks[i], snap);
    }
  }

  lemma KeptAreOthers(prefix: string, w: World, snap: string)
    requires Kept(prefix, w) && Unused(w, snap)
    ensures OthersKept(prefix, w, snap)
  {
    forall i | 0 <= i < |w.src.disks| && i < |w.dst.disks| ensures OtherKept(prefix, w.src.disks[i], w.dst.disks[i], snap) {
      assert PairKept(prefix, w.src.disks[i], w.dst.disks[i]);
      var x :| PairHas(prefix, w.src.disks[i], w.dst.disks[i], x);
      InNames(w.src.disks[i].snaps, x);
    }
  }

  lemma OthersSameSnapshots(prefix: string, w: World, v: World, snap: string)
    requires OthersKept(prefix, w, snap) && SameSnapshots(w, v)
    ensures OthersKept(prefix, v, snap)
  {
    forall i | 0 <= i < |v.src.disks| && i < |v.dst.disks| ensures OtherKept(prefix, v.src.disks[i], v.dst.disks[i], snap) {
      assert OtherKept(prefix, w.src.disks[i], w.dst.disks[i], snap);
      var x :| PairHas(prefix, w.src.disks[i], w.dst.disks[i], x) && x.name != snap;
      assert SameData(w.src.disks[i], v.src.disks[i]) && SameData(w.dst.disks[i], v.dst.disks[i]);
      assert PairHas(prefix, v.src.disks[i], v.dst.disks[i], x);
    }
  }

  lemma OthersOnlyPair(prefix: string, w: World, v: World, snap: string, i: nat)
    requires OthersKept(prefix, w, snap) && OnlyPair(w, v, i)
    requires i < |v.src.disks| && i < |v.dst.disks| ==> OtherKept(prefix, v.src.disks[i], v.dst.disks[i], snap)
    ensures OthersKept(prefix, v, snap)
  {
    forall j | 0 <= j < |v.src.disks| && j < |v.dst.disks| ensures OtherKept(prefix, v.src.disks[j], v.dst.disks[j], snap) {
      assert j != i ==> OtherKept(prefix, w.src.disks[j], w.dst.disks[j], snap);
    }
  }

  /** Destroying the new snapshot on the master never takes the last common one. */
  lemma OthersDestroy(prefix: string, w: World, snap: string, i: nat)
    requires OthersKept(prefix, w, snap)
    ensures OthersKept(prefix, AfterDestroySrc(w, i, {snap}), snap) && OnlyPair(w, AfterDestroySrc(w, i, {snap}), i)
  {
    var v := AfterDestroySrc(w, i, {snap});
    if i < |v.src.disks| && i < |v.dst.disks| {
      assert OtherKept(prefix, w.src.disks[i], w.dst.disks[i], snap);
      var x :| PairHas(prefix, w.src.disks[i], w.dst.disks[i], x) && x.name != snap;
      DestroySrcKeeps(prefix, w.src.disks[i], w.dst.disks[i], {snap}, x);
      assert PairHas(prefix, v.src.disks[i], v.dst.disks[i], x);
    }
    OthersOnlyPair(prefix, w, v, snap, i);
  }

  lemma OthersTake(prefix: string, w: World, snap: string, i: nat, live: nat)
    requires OthersKept(prefix, w, snap)
    requires i < |w.dst.disks| ==> snap !in Names(w.dst.disks[i].snaps)
    ensures OthersKept(prefix, AfterTake(w, i, snap, live), snap) && OnlyPair(w, AfterTake(w, i, snap, live), i)
  {
    var v := AfterTake(w, i, snap, live);
    if CanTake(w, i, snap) && i < |w.dst.disks| {
      assert OtherKept(prefix, w.src.disks[i], w.dst.disks[i], snap);
      var x :| PairHas(prefix, w.src.disks[i], w.dst.disks[i], x) && x.name != snap;
      SnapshotKeeps(prefix, w.src.disks[i], w.dst.disks[i], snap, live, x);
      assert PairHas(prefix, v.src.disks[i], v.dst.disks[i], x);
    }
    OthersOnlyPair(prefix, w, v, snap, i);
  }

  // ---- the first half ------------------------------------------------------------------------------------------

  /** The first `k` master disks have the new snapshot; nothing else has changed. */
  ghost predicate Snapped(w0: World, w: World, snap: string, k: nat) {
    && w.dst == w0.dst && w.src == w0.src.(disks := w.src.disks) && |w.src.disks| == |w0.src.disks|
    && k <= |w0.src.disks|
    && (forall j :: 0 <= j < k ==> w.src.disks[j] == TakeSnapshot(w0.src.disks[j], snap, w.src.disks[j].live))
    && (forall j :: k <= j < |w0.src.disks| ==> w.src.disks[j] == w0.src.disks[j])
  }

  lemma SnappedStep(w0: World, w: World, snap: string, k: nat, live: nat)
    requires Snapped(w0, w, snap, k) && k < |w0.src.disks| && CanTake(w0, k, snap)
    ensures CanTake(w, k, snap) && Snapped(w0, AfterTake(w, k, snap, live), snap, k + 1)
  {
  }

  lemma SnappedStart(w0: World, snap: string)
    ensures Snapped(w0, w0, snap, 0)
  {
  }

  lemma SnappedOthers(prefix: string, w0: World, w: World, snap: string, k: nat, live: nat)
    requires Snapped(w0, w, snap, k) && OthersKept(prefix, w, snap) && Unused(w0, snap)
    ensures OthersKept(prefix, AfterTake(w, k, snap, live), snap)
  {
    OthersTake(prefix, w, snap, k, live);
  }

  // ---- the second half -----------------------------------------------------------------------------------------

  /** The pair after an initial sync: each side names the other, the slave is read-only and has the data that the
      master had when the snapshot was taken. */
  ghost predicate RelinkedPair(prefix: string, srcHost: string, dstHost: string, a: Disk, b: Disk, snap: string) {
    && a.esrepDst == Some(EncodeProperty(dstHost, b.name)) && !a.readonly
    && b.esrepSrc == Some(EncodeProperty(srcHost, a.name)) && b.readonly
    && PairHas(prefix, a, b, Snapshot(snap, a.live)) && b.live == a.live
  }

  ghost predicate Relinked(prefix: string, w: World, i: nat, snap: string) {
    i < |w.src.disks| && i < |w.dst.disks| && RelinkedPair(prefix, w.src.name, w.dst.name, w.src.disks[i], w.dst.disks[i], snap)
  }

  /** Only the replication metadata of the master disk may have changed, and readonly only to off. */
  ghost predicate MasterKept(a0: Disk, a: Disk) {
    a == a0.(esrepDst := a.esrepDst, readonly := a.readonly) && (a.readonly ==> a0.readonly)
  }

  /** The pairs before `k` are done, those after it untouched; of the pair `k` the master has kept its data, and if
      `clean` the whole pair is untouched. */
  ghost predicate Relinking(prefix: string, w1: World, w: World, snap: string, k: nat, clean: bool) {
    && SameMachines(w1, w) && SamePower(w1, w)
    && (forall j :: 0 <= j < |w.src.disks| ==> MasterKept(w1.src.disks[j], w.src.disks[j]))
    && (forall j :: 0 <= j < |w.dst.disks| ==> w.dst.disks[j].name == w1.dst.disks[j].name)
    && (forall j :: 0 <= j < k ==> Relinked(prefix, w, j, snap))
    && (forall j :: (if clean then k else k + 1) <= j < |w.src.disks| ==> w.src.disks[j] == w1.src.disks[j])
    && (forall j :: (if clean then k else k + 1) <= j < |w.dst.disks| ==> w.dst.disks[j] == w1.dst.disks[j])
  }

  lemma RelinkingStart(prefix: string, w1: World, snap: string)
    ensures Relinking(prefix, w1, w1, snap, 0, true) && Relinking(prefix, w1, w1, snap, 0, false)
  {
  }

  /** A step inside the pair `k`. */
  lemma RelinkingAt(prefix: string, w1: World, w: World, v: World, snap: string, k: nat, clean: bool)
    requires Relinking(prefix, w1, w, snap, k, clean) && OnlyPair(w, v, k)
    requires k < |w1.src.disks| && k < |w1.dst.disks|
    requires MasterKept(w1.src.disks[k], v.src.disks[k]) && v.dst.disks[k].name == w1.dst.disks[k].name
    ensures Relinking(prefix, w1, v, snap, k, false)
    ensures Relinked(prefix, v, k, snap) ==> Relinking(prefix, w1, v, snap, k + 1, true)
  {
    forall j | 0 <= j < k ensures Relinked(prefix, v, j, snap) {
      assert Relinked(prefix, w, j, snap);
    }
  }

  /** What the receive of the pair `i` needs, with the new snapshot already on the master. */
  ghost predicate Receivable(prefix: string, a: Disk, b: Disk, base: Option<string>, snap: string) {
    && prefix <= snap && a.present && Distinct(a.snaps)
    && Find(a.snaps, snap) < |a.snaps| && a.snaps[Find(a.snaps, snap)] == Snapshot(snap, a.live)
    && match base
       case None => !b.present
       case Some(n) => PairSound(a, b) && prefix <= n && n != snap && CanReceive(a.snaps, b.snaps, n, snap)
  }

  function AfterInitialRecv(w: World, i: nat, base: Option<string>, snap: string, got: bool): (r: World) {
    if base.None? then AfterRecvFull(w, i, snap, got) else AfterRecv(w, i, base.value, snap, got)
  }

  predicate CanInitialRecv(w: World, i: nat, base: Option<string>, snap: string) {
    if base.None? then CanRecvFull(w, i, snap) else CanRecv(w, i, base.value, snap)
  }

  /** After either kind of receive the pair holds the new snapshot and the slave its data. */
  ghost predicate HasNew(prefix: string, w: World, i: nat, snap: string) {
    && i < |w.src.disks| && i < |w.dst.disks|
    && PairHas(prefix, w.src.disks[i], w.dst.disks[i], Snapshot(snap, w.src.disks[i].live))
    && w.dst.disks[i].live == w.src.disks[i].live
  }

  lemma InitialRecvStep(prefix: string, w: World, i: nat, base: Option<string>, snap: string, got: bool)
    requires i < |w.src.disks| && i < |w.dst.disks|
    requires Receivable(prefix, w.src.disks[i], w.dst.disks[i], base, snap)
    ensures CanInitialRecv(w, i, base, snap)
    ensures var v := AfterInitialRecv(w, i, base, snap, got);
            && OnlyPair(w, v, i) && v.src == w.src && HasNew(prefix, v, i, snap)
            && i < |v.dst.disks| && v.dst.disks[i].name == w.dst.disks[i].name
            && (base.Some? ==> OtherKept(prefix, v.src.disks[i], v.dst.disks[i], snap))
  {
    hide PairHas, Distinct, Coherent, CanReceive, OtherKept, Find;
    var a, b := w.src.disks[i], w.dst.disks[i];
    if base.Some? {
      IncrementalPair(prefix, a, b, base.value, snap, got);
    } else {
      FullPair(prefix, a, b, snap, got);
    }
  }

  lemma IncrementalPair(prefix: string, a: Disk, b: Disk, base: string, snap: string, got: bool)
    requires Receivable(prefix, a, b, Some(base), snap)
    ensures var r := ReceiveDisk(a, b, base, snap, got);
            && PairHas(prefix, a, r, Snapshot(snap, a.live)) && r.live == a.live && OtherKept(prefix, a, r, snap)
  {
    ReceiveKeeps(prefix, a, b, base, snap, got);
    assert a.snaps[Find(a.snaps, base)].name != snap;
  }

  lemma FullPair(prefix: string, a: Disk, b: Disk, snap: string, got: bool)
    requires Receivable(prefix, a, b, None, snap)
    ensures PairHas(prefix, a, FullDisk(a, b, snap, got), Snapshot(snap, a.live)) && FullDisk(a, b, snap, got).live == a.live
  {
    var m := Find(a.snaps, snap);
    assert a.snaps[..m + 1][m] == a.snaps[m];
    PartIsCoherent(a.snaps, a.snaps[..m + 1]);
  }

  lemma HasNewSameSnapshots(prefix: string, w: World, v: World, i: nat, snap: string)
    requires HasNew(prefix, w, i, snap) && SameSnapshots(w, v)
    ensures HasNew(prefix, v, i, snap)
  {
    assert SameData(w.src.disks[i], v.src.disks[i]) && SameData(w.dst.disks[i], v.dst.disks[i]);
  }

  /** With both sides labelled the pair is linked. */
  lemma LabelledIsRelinked(prefix: string, w: World, i: nat, snap: string)
    requires HasNew(prefix, w, i, snap)
    ensures CanSetDst(w, i) && CanSetSrc(w, i)
    ensures var v := AfterTwoDst(w, i, EncodeProperty(w.src.name, w.src.disks[i].name));
            && CanSetSrc(v, i) && v.src == w.src && v.dst.name == w.dst.name && |v.dst.disks| == |w.dst.disks|
            && v.dst.disks[i].name == w.dst.disks[i].name
            && Relinked(prefix, AfterTwoSrc(v, i, EncodeProperty(w.dst.name, w.dst.disks[i].name)), i, snap)
  {
  }

  /** The lengths that a change of metadata keeps. */
  lemma RelinkedLinked(prefix: string, w: World, snap: string)
    requires |w.src.disks| == |w.dst.disks| && '/' !in w.src.name && '/' !in w.dst.name
    requires forall i :: 0 <= i < |w.src.disks| ==> Relinked(prefix, w, i, snap)
    ensures Linked(w)
  {
    forall i | 0 <= i < |w.src.disks| ensures LinkedPair(w.src.disks[i], w.dst.disks[i]) {
      assert Relinked(prefix, w, i, snap);
      PropertyRoundTrip(w.src.name, w.src.disks[i].name);
      PropertyRoundTrip(w.dst.name, w.dst.disks[i].name);
    }
  }

  // ---- keeping the books while metadata changes ------------------------------------------------------------------

  ghost predicate MasterKeptAt(w: World, v: World, i: nat) {
    i < |w.src.disks| && i < |v.src.disks| ==> MasterKept(w.src.disks[i], v.src.disks[i])
  }

  lemma SetSrcMasterKept(w: World, i: nat, v: string)
    ensures MasterKeptAt(w, AfterSetSrc(w, i, EsrepDst, Some(v)), i) && MasterKeptAt(w, AfterSetSrc(w, i, ReadOnly, Some("off")), i)
    ensures MasterKeptAt(w, AfterTwoSrc(w, i, v), i)
  {
  }

  lemma MasterKeptSame(w: World, v: World, i: nat)
    requires v.src == w.src
    ensures MasterKeptAt(w, v, i)
  {
  }

  /** A change of metadata in the pair `i` keeps the pair half done. */
  lemma RelinkingLabel(prefix: string, w1: World, w: World, v: World, snap: string, i: nat)
    requires Relinking(prefix, w1, w, snap, i, false) && HasNew(prefix, w, i, snap)
    requires SameSnapshots(w, v) && OnlyPair(w, v, i) && MasterKeptAt(w, v, i)
    ensures Relinking(prefix, w1, v, snap, i, false) && HasNew(prefix, v, i, snap)
    ensures Relinked(prefix, v, i, snap) ==> Relinking(prefix, w1, v, snap, i + 1, true)
  {
    HasNewSameSnapshots(prefix, w, v, i, snap);
    assert SameData(w.dst.disks[i], v.dst.disks[i]) && MasterKept(w1.src.disks[i], w.src.disks[i]);
    RelinkingAt(prefix, w1, w, v, snap, i, false);
  }

  lemma RelinkingRecv(prefix: string, w1: World, w: World, v: World, snap: string, i: nat)
    requires Relinking(prefix, w1, w, snap, i, true) && i < |w.src.disks| && i < |w.dst.disks|
    requires OnlyPair(w, v, i) && v.src == w.src && v.dst.disks[i].name == w.dst.disks[i].name
    ensures Relinking(prefix, w1, v, snap, i, false) && Relinking(prefix, w1, w, snap, i, false)
  {
    RelinkingAt(prefix, w1, w, v, snap, i, true);
    RelinkingAt(prefix, w1, w, w, snap, i, true);
  }

  /** The books of an incremental run: a common snapshot besides the new one, in every state so far. */
  ghost predicate Booked(prefix: string, keep: bool, snap: string, w: World, before: seq<World>, now: seq<World>) {
    keep ==> OthersKept(prefix, w, snap) && Trace(prefix, before, now)
  }

  lemma BookedStep(prefix: string, keep: bool, snap: string, w: World, v: World, h0: seq<World>, h: seq<World>)
    requires Booked(prefix, keep, snap, w, h0, h)
    requires keep ==> OthersKept(prefix, v, snap)
    ensures Booked(prefix, keep, snap, v, h0, h + [v])
  {
    if keep {
      OthersAreKept(prefix, v, snap);
      TraceStep(prefix, h0, h, v);
    }
  }

  lemma BookedLabel(prefix: string, keep: bool, snap: string, w: World, v: World, h0: seq<World>, h: seq<World>, h1: seq<World>)
    requires Booked(prefix, keep, snap, w, h0, h) && SameSnapshots(w, v)
    requires Kept(prefix, w) ==> Safe(prefix, !BothRunning(w), h, h1)
    ensures Booked(prefix, keep, snap, v, h0, h1)
  {
    if keep {
      OthersAreKept(prefix, w, snap);
      OthersSameSnapshots(prefix, w, v, snap);
      TraceTwice(prefix, h0, h, h1);
    }
  }

  lemma BookedTwice(prefix: string, keep: bool, snap: string, w: World, v: World, h0: seq<World>, h1: seq<World>, h2: seq<World>)
    requires Booked(prefix, keep, snap, w, h0, h1) && Booked(prefix, keep, snap, v, h1, h2)
    ensures Booked(prefix, keep, snap, v, h0, h2)
  {
    if keep {
      TraceTwice(prefix, h0, h1, h2);
    }
  }

  lemma BookedStart(prefix: string, keep: bool, snap: string, w: World, h: seq<World>)
    requires keep ==> OthersKept(prefix, w, snap)
    ensures Booked(prefix, keep, snap, w, h, h)
  {
  }

  lemma RelinkingRange(prefix: string, w1: World, w: World, snap: string, k: nat, i: nat)
    requires Relinking(prefix, w1, w, snap, k, true) && i < |w1.src.disks| && i < |w1.dst.disks| && k <= i
    ensures i < |w.src.disks| && i < |w.dst.disks| && w.src.disks[i] == w1.src.disks[i] && w.dst.disks[i] == w1.dst.disks[i]
  {
  }

  /** Which world an interrupted pair of property commands leaves. */
  ghost predicate OneOfTwoDst(w: World, v: World, i: nat, value: string) {
    v == w || v == AfterSetDst(w, i, ReadOnly, Some("on")) || v == AfterSetDst(w, i, EsrepSrc, Some(value))
  }

  /** The same for a master disk; `mark` is the value of esrep:dst if it was set. */
  ghost predicate OneOfTwoSrc(w: World, v: World, i: nat, value: string, mark: Option<string>) {
    if mark.Some? then mark.value == value && CanSetSrc(w, i) && v == AfterSetSrc(w, i, EsrepDst, Some(value))
    else v == w || v == AfterSetSrc(w, i, ReadOnly, Some("off"))
  }

  lemma TwoDstFrame(w: World, i: nat, v: string)
    ensures SameSnapshots(w, AfterTwoDst(w, i, v)) && OnlyPair(w, AfterTwoDst(w, i, v), i)
    ensures AfterTwoDst(w, i, v).src == w.src && BothRunning(AfterTwoDst(w, i, v)) == BothRunning(w)
  {
    var w1 := AfterSetDst(w, i, EsrepSrc, Some(v));
    PropertyFrameDst(w, i, EsrepSrc, Some(v));
    PropertyFrameDst(w1, i, ReadOnly, Some("on"));
    SameSnapshotsTwice(w, w1, AfterTwoDst(w, i, v));
  }

  lemma TwoSrcFrame(w: World, i: nat, v: string)
    ensures SameSnapshots(w, AfterTwoSrc(w, i, v)) && OnlyPair(w, AfterTwoSrc(w, i, v), i)
    ensures AfterTwoSrc(w, i, v).dst == w.dst && BothRunning(AfterTwoSrc(w, i, v)) == BothRunning(w)
  {
    var w1 := AfterSetSrc(w, i, EsrepDst, Some(v));
    PropertyFrameSrc(w, i, EsrepDst, Some(v));
    PropertyFrameSrc(w1, i, ReadOnly, Some("off"));
    SameSnapshotsTwice(w, w1, AfterTwoSrc(w, i, v));
  }

  lemma SafeOne(prefix: string, h: seq<World>, w: World, v: World)
    requires SameSnapshots(w, v) && BothRunning(v) == BothRunning(w)
    ensures Kept(prefix, w) ==> Safe(prefix, !BothRunning(w), h, h + [v])
  {
    if Kept(prefix, w) {
      SafeStart(prefix, !BothRunning(w), h);
      SafeStep(prefix, !BothRunning(w), h, h, w, v);
    }
  }

  lemma SafeTwo(prefix: string, h: seq<World>, w: World, u: World, v: World)
    requires SameSnapshots(w, u) && BothRunning(u) == BothRunning(w) && SameSnapshots(w, v) && BothRunning(v) == BothRunning(w)
    ensures Kept(prefix, w) ==> Safe(prefix, !BothRunning(w), h, h + [u] + [v])
  {
    if Kept(prefix, w) {
      SafeOne(prefix, h, w, u);
      SafeStep(prefix, !BothRunning(w), h, h + [u], w, v);
    }
  }

  lemma TwoDstShape(w: World, i: nat, v: string)
    ensures AfterTwoDst(w, i, v) == AfterSetDst(AfterSetDst(w, i, EsrepSrc, Some(v)), i, ReadOnly, Some("on"))
    ensures OneOfTwoDst(w, w, i, v)
    ensures OneOfTwoDst(w, AfterSetDst(w, i, ReadOnly, Some("on")), i, v)
    ensures OneOfTwoDst(w, AfterSetDst(w, i, EsrepSrc, Some(v)), i, v)
  {
  }

  lemma TwoSrcShape(w: World, i: nat, v: string)
    ensures AfterTwoSrc(w, i, v) == AfterSetSrc(AfterSetSrc(w, i, EsrepDst, Some(v)), i, ReadOnly, Some("off"))
    ensures OneOfTwoSrc(w, w, i, v, None) && OneOfTwoSrc(w, AfterSetSrc(w, i, ReadOnly, Some("off")), i, v, None)
    ensures CanSetSrc(w, i) ==> OneOfTwoSrc(w, AfterSetSrc(w, i, EsrepDst, Some(v)), i, v, Some(v))
  {
  }

  // ---- the pair at which an initial sync stops -------------------------------------------------------------------

  /** Only snapshots and data of the disk have changed. */
  ghost predicate SameLabels(a0: Disk, a: Disk) {
    a == a0.(snaps := a.snaps, live := a.live)
  }

  /** The slave disk has lost its esrep:dst, or the labels of the pair are as before; only a receive may have brought the
      property of the master. */
  ghost predicate StoppedPair(a0: Disk, b0: Disk, a: Disk, b: Disk) {
    || b.esrepDst == None
    || (SameLabels(a0, a) && b.readonly == b0.readonly && (b.esrepDst == b0.esrepDst || b.esrepDst == a0.esrepDst))
  }

  /** Where an initial sync stopped in the pair `i`: `mark` is the esrep:dst that it had already set on the master disk.
      With `clearDst`, the slave disk loses its esrep:dst before anything else of the labels changes. */
  ghost predicate Halted(w1: World, w: World, i: nat, clearDst: bool, mark: Option<string>) {
    && (mark.Some? ==> InRange(w1, w, i) && mark.value == EncodeProperty(w.dst.name, w.dst.disks[i].name))
    && (InRange(w1, w, i) ==>
          && w.src.disks[i].esrepDst == (if mark.Some? then mark else w1.src.disks[i].esrepDst)
          && (clearDst ==> StoppedPair(w1.src.disks[i], w1.dst.disks[i], w.src.disks[i], w.dst.disks[i])))
  }

  ghost predicate Cleared(w: World, i: nat) {
    i < |w.dst.disks| ==> w.dst.disks[i].esrepDst == None
  }

  lemma HaltedStart(w1: World, w: World, i: nat, clearDst: bool)
    requires InRange(w1, w, i) ==> w.src.disks[i] == w1.src.disks[i] && w.dst.disks[i] == w1.dst.disks[i]
    ensures Halted(w1, w, i, clearDst, None)
  {
  }

  lemma HaltedRecv(w1: World, w: World, i: nat, base: Option<string>, snap: string, got: bool, clearDst: bool)
    requires InRange(w1, w, i) && w.src.disks[i] == w1.src.disks[i] && w.dst.disks[i] == w1.dst.disks[i]
    requires CanInitialRecv(w, i, base, snap) && (clearDst ==> base.Some?)
    ensures Halted(w1, AfterInitialRecv(w, i, base, snap, got), i, clearDst, None)
  {
    hide CanReceive, Received, Find;
  }

  lemma HaltedClear(w1: World, w: World, i: nat)
    requires Halted(w1, w, i, true, None) && CanSetDst(w, i)
    ensures var v := AfterSetDst(w, i, EsrepDst, None);
            Halted(w1, v, i, true, None) && Cleared(v, i)
  {
  }

  lemma HaltedTwoDst(w1: World, w: World, v: World, i: nat, clearDst: bool, value: string)
    requires Halted(w1, w, i, clearDst, None) && (clearDst ==> Cleared(w, i))
    requires v == AfterTwoDst(w, i, value) || OneOfTwoDst(w, v, i, value)
    ensures Halted(w1, v, i, clearDst, None) && (clearDst ==> Cleared(v, i))
  {
  }

  lemma HaltedTwoSrc(w1: World, w: World, v: World, i: nat, clearDst: bool, mark: Option<string>)
    requires Halted(w1, w, i, clearDst, None) && (clearDst ==> Cleared(w, i)) && InRange(w1, w, i)
    requires OneOfTwoSrc(w, v, i, EncodeProperty(w.dst.name, w.dst.disks[i].name), mark)
    ensures Halted(w1, v, i, clearDst, mark)
  {
  }

  lemma RelinkingSizes(prefix: string, w1: World, w: World, snap: string, k: nat, clean: bool, i: nat)
    requires Relinking(prefix, w1, w, snap, k, clean) && i < |w1.src.disks| && i < |w1.dst.disks|
    ensures InRange(w1, w, i)
  {
  }

  /** Both property commands together restore the slave disk `k`; one alone does no harm. */
  lemma RestoringTwo(w0: World, w: World, v: World, k: nat, m: nat, value: string, ok: bool)
    requires Restoring(w0, w, k, m) && k < m && w0.dst.disks[k].present && w0.dst.disks[k].esrepSrc == Some(value)
    requires if ok then v == AfterTwoDst(w, k, value) else OneOfTwoDst(w, v, k, value)
    ensures Restoring(w0, v, if ok then k + 1 else k, m) && CanSetDst(w, k)
  {
  }

  lemma SafeWeaker(prefix: string, apart: bool, both: bool, h0: seq<World>, h: seq<World>)
    requires Safe(prefix, !both, h0, h) && (apart ==> !both)
    ensures Safe(prefix, apart, h0, h)
  {
  }

  ghost predicate AllPresent(w: World, n: nat) {
    n <= |w.src.disks| && forall i :: 0 <= i < n ==> w.src.disks[i].present
  }

  lemma PresentCanTake(w: World, n: nat, i: nat, snap: string)
    requires AllPresent(w, n) && Unused(w, snap) && i < n
    ensures CanTake(w, i, snap)
  {
  }

  lemma InfosNone(snap: string)
    ensures Infos(0, 0, snap) == []
  {
  }

  lemma BookedTake(prefix: string, keep: bool, w0: World, w: World, snap: string, i: nat, live: nat, h0: seq<World>, h: seq<World>)
    requires Booked(prefix, keep, snap, w, h0, h) && Snapped(w0, w, snap, i) && Unused(w0, snap)
    ensures Booked(prefix, keep, snap, w, h0, h + [w])
    ensures Booked(prefix, keep, snap, AfterTake(w, i, snap, live), h0, h + [AfterTake(w, i, snap, live)])
  {
    BookedStep(prefix, keep, snap, w, w, h0, h);
    if keep {
      SnappedOthers(prefix, w0, w, snap, i, live);
    }
    BookedStep(prefix, keep, snap, w, AfterTake(w, i, snap, live), h0, h);
  }

  lemma BookedRecv(prefix: string, keep: bool, snap: string, w: World, v: World, i: nat, h0: seq<World>)
    requires Booked(prefix, keep, snap, w, h0, h0) && OnlyPair(w, v, i)
    requires i < |v.src.disks| && i < |v.dst.disks|
    requires keep ==> OtherKept(prefix, v.src.disks[i], v.dst.disks[i], snap)
    ensures Booked(prefix, keep, snap, v, h0, h0 + [v])
  {
    if keep {
      OthersOnlyPair(prefix, w, v, snap, i);
    }
    BookedStep(prefix, keep, snap, w, v, h0, h0);
  }

  lemma HasNewRange(prefix: string, w: World, i: nat, snap: string)
    requires HasNew(prefix, w, i, snap)
    ensures i < |w.src.disks| && i < |w.dst.disks| && CanSetDst(w, i) && CanSetSrc(w, i)
  {
  }

  // ---- the whole initial sync ------------------------------------------------------------------------------------

  /** What init (no base) and reinit (a base for every pair) have found before the initial sync. */
  ghost predicate InitialReady(prefix: string, w: World, bases: seq<Option<string>>, keep: bool) {
    && |bases| <= |w.src.disks| && |bases| <= |w.dst.disks|
    && forall i :: 0 <= i < |bases| ==> InitialPair(prefix, w.src.disks[i], w.dst.disks[i], bases[i], keep)
  }

  ghost predicate InitialPair(prefix: string, a: Disk, b: Disk, base: Option<string>, keep: bool) {
    && a.present && Distinct(a.snaps) && base.Some? == keep
    && match base
       case None => !b.present
       case Some(n) => PairSound(a, b) && prefix <= n && n in Names(a.snaps) && n in Names(b.snaps)
  }

  lemma InitialPresent(prefix: string, w: World, bases: seq<Option<string>>, keep: bool)
    requires InitialReady(prefix, w, bases, keep)
    ensures AllPresent(w, |bases|) && |bases| <= |w.src.disks| && |bases| <= |w.dst.disks|
  {
    forall i | 0 <= i < |bases| ensures w.src.disks[i].present {
      assert InitialPair(prefix, w.src.disks[i], w.dst.disks[i], bases[i], keep);
    }
  }

  lemma BecomesReceivable(prefix: string, w0: World, w1: World, bases: seq<Option<string>>, keep: bool, snap: string, i: nat)
    requires InitialReady(prefix, w0, bases, keep) && Snapped(w0, w1, snap, |bases|) && Unused(w0, snap) && prefix <= snap
    requires i < |bases|
    ensures i < |w1.src.disks| && i < |w1.dst.disks| && bases[i].Some? == keep
    ensures Receivable(prefix, w1.src.disks[i], w1.dst.disks[i], bases[i], snap)
  {
    var a0, b, a := w0.src.disks[i], w0.dst.disks[i], w1.src.disks[i];
    assert InitialPair(prefix, a0, b, bases[i], keep);
    assert a == TakeSnapshot(a0, snap, a.live);
    FindNew(a0.snaps, Snapshot(snap, a.live));
    forall y | y in a0.snaps ensures y.name != snap { InNames(a0.snaps, y); }
    DistinctJoin(a0.snaps, [Snapshot(snap, a.live)]);
    if bases[i].Some? {
      BaseCanReceive(a0, b, bases[i].value, snap, a.live);
      SoundWithSnapshot(a0, b, snap, a.live);
    }
  }

  lemma FindNew(s: seq<Snapshot>, x: Snapshot)
    requires x.name !in Names(s)
    ensures Find(s + [x], x.name) == |s|
  {
    NotFound(s, x.name);
    FindAppend(s, x, x.name);
  }

  function UpTo(k: nat): (r: seq<nat>) {
    seq(k, i requires 0 <= i => i)
  }

  lemma UpToStep(k: nat)
    ensures UpTo(0) == [] && UpTo(k) + [k] == UpTo(k + 1)
  {
  }

  lemma UpToAt(k: nat, j: nat)
    ensures |UpTo(k)| == k && (j < k ==> UpTo(k)[j] == j) && (j in UpTo(k) <==> j < k)
  {
    if j < k {
      assert UpTo(k)[j] == j;
    }
  }

  /** Where an initial sync stands or stopped: `w1` is the state after its snapshots, of the first `taken` disks. */
  ghost predicate Initial(prefix: string, w0: World, w1: World, w: World, snap: string, taken: nat, k: nat, clean: bool) {
    Snapped(w0, w1, snap, taken) && Relinking(prefix, w1, w, snap, k, clean)
  }

  ghost predicate AllRelinked(prefix: string, w: World, n: nat, snap: string) {
    forall i :: 0 <= i < n ==> Relinked(prefix, w, i, snap)
  }

  lemma InitialDone(prefix: string, w1: World, w: World, snap: string, k: nat)
    requires Relinking(prefix, w1, w, snap, k, true)
    ensures AllRelinked(prefix, w, k, snap)
  {
  }

  lemma AllRelinkedLinked(prefix: string, w: World, n: nat, snap: string)
    requires AllRelinked(prefix, w, n, snap) && n == |w.src.disks| == |w.dst.disks|
    requires '/' !in w.src.name && '/' !in w.dst.name
    ensures Linked(w)
  {
    RelinkedLinked(prefix, w, snap);
  }

  /** After an initial sync of all pairs, the life cycle can go on. */
  ghost predicate FreshMaster(w: World) {
    forall i :: 0 <= i < |w.src.disks| ==> !w.src.disks[i].readonly
  }

  lemma AllRelinkedKept(prefix: string, w: World, n: nat, snap: string)
    requires AllRelinked(prefix, w, n, snap) && n == |w.src.disks| == |w.dst.disks|
    ensures Kept(prefix, w) && FreshMaster(w)
  {
    forall i | 0 <= i < n ensures PairKept(prefix, w.src.disks[i], w.dst.disks[i]) && !w.src.disks[i].readonly {
      assert Relinked(prefix, w, i, snap);
    }
  }

  // ---- reinit ------------------------------------------------------------------------------------------------------

  lemma BookedDestroy(prefix: string, snap: string, w: World, i: nat, h0: seq<World>, h: seq<World>)
    requires Booked(prefix, true, snap, w, h0, h)
    ensures Booked(prefix, true, snap, w, h0, h + [w])
    ensures Booked(prefix, true, snap, AfterDestroySrc(w, i, {snap}), h0, h + [AfterDestroySrc(w, i, {snap})])
  {
    BookedStep(prefix, true, snap, w, w, h0, h);
    OthersDestroy(prefix, w, snap, i);
    BookedStep(prefix, true, snap, w, AfterDestroySrc(w, i, {snap}), h0, h);
  }

  /** The cleanup of a reinit that stopped in the pair `k` with `taken` snapshots has come to the disk `q`: the pairs before
      `k` stay linked, and the master disks from `k` on have lost the new snapshot again as far as `q`. */
  ghost predicate Withdrawing(prefix: string, w0: World, w: World, snap: string, taken: nat, k: nat, q: nat) {
    && |w.src.disks| == |w0.src.disks| && |w.dst.disks| == |w0.dst.disks| && k <= taken <= |w0.src.disks|
    && (forall j :: 0 <= j < k ==> Relinked(prefix, w, j, snap))
    && (forall j :: k <= j < |w0.src.disks| ==> WithdrawnDisk(w0.src.disks[j], w.src.disks[j], snap, q <= j < taken, j > k))
    && (forall j :: k < j < |w0.dst.disks| ==> w.dst.disks[j] == w0.dst.disks[j])
    && (InRange(w0, w, k) ==> StoppedPair(w0.src.disks[k], w0.dst.disks[k], w.src.disks[k], w.dst.disks[k]))
  }

  ghost predicate WithdrawnDisk(a0: Disk, a: Disk, snap: string, new_: bool, later: bool) {
    && a.snaps == (if new_ then a0.snaps + [Snapshot(snap, a.live)] else a0.snaps)
    && a.name == a0.name && (later ==> SameLabels(a0, a))
  }

  /** After a failed reinit and its cleanup. */
  ghost predicate Withdrawn(prefix: string, w0: World, w: World, snap: string, k: nat) {
    && |w.src.disks| == |w0.src.disks| && |w.dst.disks| == |w0.dst.disks|
    && (forall j :: 0 <= j < k ==> Relinked(prefix, w, j, snap))
    && (forall j :: k <= j < |w.src.disks| ==> w.src.disks[j].snaps == w0.src.disks[j].snaps && w.src.disks[j].name == w0.src.disks[j].name)
    && (forall j :: k < j < |w.src.disks| ==> SameLabels(w0.src.disks[j], w.src.disks[j]))
    && (forall j :: k < j < |w.dst.disks| ==> w.dst.disks[j] == w0.dst.disks[j])
    && (InRange(w0, w, k) ==> StoppedPair(w0.src.disks[k], w0.dst.disks[k], w.src.disks[k], w.dst.disks[k]))
  }

  lemma WithdrawingStart(prefix: string, w0: World, w1: World, w: World, snap: string, taken: nat, k: nat, clean: bool, mark: Option<string>)
    requires Initial(prefix, w0, w1, w, snap, taken, k, clean) && k <= taken && Halted(w1, w, k, true, mark)
    ensures Withdrawing(prefix, w0, w, snap, taken, k, 0)
  {
    forall j | k <= j < |w0.src.disks| ensures WithdrawnDisk(w0.src.disks[j], w.src.disks[j], snap, 0 <= j < taken, j > k) {
      assert MasterKept(w1.src.disks[j], w.src.disks[j]);
    }
  }

  /** A disk of a pair that was completely synced is passed over. */
  lemma WithdrawingPass(prefix: string, w0: World, w: World, snap: string, taken: nat, k: nat, q: nat)
    requires Withdrawing(prefix, w0, w, snap, taken, k, q) && q < k
    ensures Withdrawing(prefix, w0, w, snap, taken, k, q + 1)
  {
    forall j | k <= j < |w0.src.disks| ensures WithdrawnDisk(w0.src.disks[j], w.src.disks[j], snap, q + 1 <= j < taken, j > k) {
      assert WithdrawnDisk(w0.src.disks[j], w.src.disks[j], snap, q <= j < taken, j > k);
    }
  }

  lemma WithdrawingStep(prefix: string, w0: World, w: World, snap: string, taken: nat, k: nat, q: nat)
    requires Withdrawing(prefix, w0, w, snap, taken, k, q) && k <= q < taken && Unused(w0, snap)
    ensures CanDestroySrc(w, q, {snap})
    ensures Withdrawing(prefix, w0, AfterDestroySrc(w, q, {snap}), snap, taken, k, q + 1)
  {
    hide Drop, RelinkedPair;
    var a0, a := w0.src.disks[q], w.src.disks[q];
    assert WithdrawnDisk(a0, a, snap, q <= q < taken, q > k);
    var x := Snapshot(snap, a.live);
    LastIsMember(a0.snaps, x);
    InNames(a.snaps, x);
    DropUndoesAppend(a0.snaps, x);
    var v := AfterDestroySrc(w, q, {snap});
    forall j | k <= j < |w0.src.disks| ensures WithdrawnDisk(w0.src.disks[j], v.src.disks[j], snap, q + 1 <= j < taken, j > k) {
      assert WithdrawnDisk(w0.src.disks[j], w.src.disks[j], snap, q <= j < taken, j > k);
    }
    forall j | 0 <= j < k ensures Relinked(prefix, v, j, snap) {
      assert Relinked(prefix, w, j, snap);
    }
  }

  lemma WithdrawingDone(prefix: string, w0: World, w: World, snap: string, taken: nat, k: nat)
    requires Withdrawing(prefix, w0, w, snap, taken, k, taken)
    ensures Withdrawn(prefix, w0, w, snap, k)
  {
    forall j | k <= j < |w.src.disks|
      ensures w.src.disks[j].snaps == w0.src.disks[j].snaps && w.src.disks[j].name == w0.src.disks[j].name
      ensures j > k ==> SameLabels(w0.src.disks[j], w.src.disks[j])
    {
      assert WithdrawnDisk(w0.src.disks[j], w.src.disks[j], snap, taken <= j < taken, j > k);
    }
  }

  lemma NothingWithdrawn(prefix: string, w: World)
    ensures forall snap :: Withdrawn(prefix, w, w, snap, 0) && Withdrawn(prefix, w, PowerDst(w, false), snap, 0)
    ensures PowerDst(w, false).src.disks == w.src.disks && PowerDst(w, false).dst.disks == w.dst.disks
  {
  }

  /** After a failed reinit and its cleanup the checks of reinit pass again, if and only if no pair was completed and the
      slave disk at which it stopped still has its esrep:dst. */
  lemma ReversibleAgain(prefix: string, w0: World, w: World, snap: string, k: nat)
    requires Reversible(w0) && Withdrawn(prefix, w0, w, snap, k)
    ensures Reversible(w) <==> k == 0 && (InRange(w0, w, 0) ==> w.dst.disks[0].esrepDst == w0.dst.disks[0].esrepDst)
  {
    hide PropertyDisk;
    if k > 0 {
      assert Relinked(prefix, w, 0, snap);
      assert !ReversiblePair(w.src.disks[0], w.dst.disks[0]);
    } else {
      NoProperty();
      forall i | 0 <= i < |w.src.disks| && i < |w.dst.disks|
        ensures ReversiblePair(w.src.disks[i], w.dst.disks[i]) <==> i > 0 || w.dst.disks[0].esrepDst == w0.dst.disks[0].esrepDst
      {
        assert ReversiblePair(w0.src.disks[i], w0.dst.disks[i]);
      }
    }
  }

  lemma NoProperty()
    ensures PropertyDisk(None) == None
  {
  }

  /** Switching the slave off before changes no disk. */
  lemma WithdrawnFrom(prefix: string, w0: World, w1: World, w: World, snap: string, k: nat)
    requires Withdrawn(prefix, w1, w, snap, k) && w1.src.disks == w0.src.disks && w1.dst.disks == w0.dst.disks
    ensures Withdrawn(prefix, w0, w, snap, k)
  {
  }

  lemma BookedKept(prefix: string, snap: string, w: World, h0: seq<World>, h: seq<World>)
    requires Booked(prefix, true, snap, w, h0, h)
    ensures Kept(prefix, w) && Trace(prefix, h0, h)
  {
    OthersAreKept(prefix, w, snap);
  }

  lemma PowerKept(prefix: string, w: World, on: bool, h: seq<World>)
    requires Kept(prefix, w)
    ensures Kept(prefix, PowerDst(w, on)) && Trace(prefix, h, h + [PowerDst(w, on)]) && Trace(prefix, h, h + [w])
    ensures Reversible(PowerDst(w, on)) == Reversible(w) && SameMachines(w, PowerDst(w, on))
  {
    SameSnapshotsSelf(w);
    SameSnapshotsKept(prefix, w, PowerDst(w, on));
  }

  /** A reinit whose pairs all passed the checks: every pair has its base. */
  lemma PlansToBases(prefix: string, w: World, i: nat, p: Plan)
    requires Kept(prefix, w) && i < |w.src.disks| && i < |w.dst.disks| && PlanFor(prefix, p, w.src.disks[i], w.dst.disks[i])
    ensures InitialPair(prefix, w.src.disks[i], w.dst.disks[i], Some(p.base), true)
  {
    KeptSound(prefix, w, i);
    ListedMembers(w.src.disks[i].snaps, prefix);
    ListedMembers(w.dst.disks[i].snaps, prefix);
  }

  lemma InitialParts(prefix: string, w0: World, w1: World, w: World, snap: string, taken: nat, k: nat, clean: bool)
    requires Snapped(w0, w1, snap, taken) && Relinking(prefix, w1, w, snap, k, clean)
    ensures Initial(prefix, w0, w1, w, snap, taken, k, clean)
  {
  }

  lemma BookedOthers(prefix: string, keep: bool, snap: string, w: World, h0: seq<World>, h: seq<World>)
    requires Booked(prefix, keep, snap, w, h0, h)
    ensures keep ==> OthersKept(prefix, w, snap)
  {
  }

  function Smaller(m: nat, n: nat): (r: nat) {
    if m < n then m else n
  }

  lemma ReinitDone(prefix: string, w0: World, w1: World, w2: World, w: World, snap: string, taken: nat, k: nat)
    requires w1 == PowerDst(w0, false) && Initial(prefix, w1, w2, w, snap, taken, k, true)
    requires AllRelinked(prefix, w, Smaller(|w1.src.disks|, |w1.dst.disks|), snap)
    ensures SameMachines(w0, w) && !w.dst.running && w.src.running == w0.src.running
    ensures AllRelinked(prefix, w, Smaller(|w.src.disks|, |w.dst.disks|), snap)
  {
  }
}
