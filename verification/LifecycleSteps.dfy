/** Failover, reinit and init: the property and power commands, what holds between two commands, and the
    conditions under which the next operation of the replication life cycle passes its checks. */
module LifecycleSteps {
  import opened Options
  import opened Strings
  import opened Snapshots
  import opened Replicas
  import opened ReplicationSteps

  // ---- property and power commands ------------------------------------------------------------------------

  datatype Property = EsrepSrc | EsrepDst | ReadOnly

  /** `zfs set` of a value, or `zfs inherit` for None: the esrep properties then read `-`, readonly reads off. */
  function WithProperty(d: Disk, p: Property, v: Option<string>): (r: Disk) {
    match p
    case EsrepSrc => d.(esrepSrc := v)
    case EsrepDst => d.(esrepDst := v)
    case ReadOnly => d.(readonly := v == Some("on"))
  }

  predicate CanSetSrc(w: World, i: nat) {
    i < |w.src.disks| && w.src.disks[i].present
  }

  predicate CanSetDst(w: World, i: nat) {
    i < |w.dst.disks| && w.dst.disks[i].present
  }

  function AfterSetSrc(w: World, i: nat, p: Property, v: Option<string>): (r: World) {
    if CanSetSrc(w, i) then SetSrc(w, i, WithProperty(w.src.disks[i], p, v)) else w
  }

  function AfterSetDst(w: World, i: nat, p: Property, v: Option<string>): (r: World) {
    if CanSetDst(w, i) then SetDst(w, i, WithProperty(w.dst.disks[i], p, v)) else w
  }

  function PowerSrc(w: World, on: bool): (r: World) {
    w.(src := w.src.(running := on))
  }

  function PowerDst(w: World, on: bool): (r: World) {
    w.(dst := w.dst.(running := on))
  }

  /** The disk part of the slave property contains the UUID of the machine. */
  ghost predicate NamesMachine(b: Disk, uuid: string) {
    PropertyDisk(b.esrepSrc).Some? && Contains(PropertyDisk(b.esrepSrc).value, uuid)
  }

  /** The check of a forced failover: every slave disk names a disk of the master VM. */
  ghost predicate SlavesNameMaster(w: World) {
    forall i :: 0 <= i < |w.dst.disks| ==> NamesMachine(w.dst.disks[i], w.src.uuid)
  }

  ghost predicate SlavesPresent(w: World) {
    forall i :: 0 <= i < |w.dst.disks| ==> w.dst.disks[i].present
  }

  // ---- two-state relations ----------------------------------------------------------------------------------

  /** Neither side gained or lost a dataset or a snapshot. */
  ghost predicate SameSnapshots(w0: World, w: World) {
    && |w.src.disks| == |w0.src.disks| && |w.dst.disks| == |w0.dst.disks|
    && (forall i :: 0 <= i < |w.src.disks| ==> SameData(w0.src.disks[i], w.src.disks[i]))
    && (forall i :: 0 <= i < |w.dst.disks| ==> SameData(w0.dst.disks[i], w.dst.disks[i]))
  }

  ghost predicate SameData(d0: Disk, d: Disk) {
    d.present == d0.present && d.snaps == d0.snaps && d.live == d0.live && d.name == d0.name
  }

  lemma SameSnapshotsKept(prefix: string, w0: World, w: World)
    requires Kept(prefix, w0) && SameSnapshots(w0, w)
    ensures Kept(prefix, w)
  {
    forall i | 0 <= i < |w.src.disks| && i < |w.dst.disks| ensures PairKept(prefix, w.src.disks[i], w.dst.disks[i]) {
      assert PairKept(prefix, w0.src.disks[i], w0.dst.disks[i]);
      var x :| PairHas(prefix, w0.src.disks[i], w0.dst.disks[i], x);
      assert SameData(w0.src.disks[i], w.src.disks[i]) && SameData(w0.dst.disks[i], w.dst.disks[i]);
      assert PairHas(prefix, w.src.disks[i], w.dst.disks[i], x);
    }
  }

  /** Since `before`, the two machines were never running at the same time. */
  ghost predicate Apart(before: seq<World>, now: seq<World>) {
    before <= now && forall k :: |before| <= k < |now| ==> !BothRunning(now[k])
  }

  ghost predicate BothRunning(w: World) {
    w.src.running && w.dst.running
  }

  // ---- failover -----------------------------------------------------------------------------------------------

  /** A slave disk after the first `stage` of the three commands that turn it into a master disk. */
  function ClearedDisk(b: Disk, stage: nat): (r: Disk) {
    var b1 := if stage >= 1 then WithProperty(b, EsrepDst, None) else b;
    var b2 := if stage >= 2 then WithProperty(b1, EsrepSrc, None) else b1;
    if stage >= 3 then WithProperty(b2, ReadOnly, None) else b2
  }

  /** Failover has cleared the slave disks before `k` and has come to the `stage` of the disk `k`. */
  ghost predicate Clearing(w0: World, w: World, k: nat, stage: nat) {
    && w.src == w0.src.(running := w.src.running)
    && w.dst == w0.dst.(disks := w.dst.disks) && |w.dst.disks| == |w0.dst.disks|
    && k <= |w0.dst.disks| && (k == |w0.dst.disks| ==> stage == 0) && stage < 3
    && forall j :: 0 <= j < |w0.dst.disks| ==>
         w.dst.disks[j] == ClearedDisk(w0.dst.disks[j], if j < k then 3 else if j == k then stage else 0)
  }

  /** Every slave disk has its esrep:src property; `values` are the values. */
  ghost predicate SlaveMetadata(w: World, values: seq<string>) {
    && |values| == |w.dst.disks|
    && forall i :: 0 <= i < |w.dst.disks| ==> w.dst.disks[i].present && w.dst.disks[i].esrepSrc == Some(values[i])
  }

  /** What failover remembers of the first `m` slave disks, to undo its work. */
  function Remembered(values: seq<string>, m: nat): (r: seq<(nat, string)>)
    requires m <= |values|
  {
    seq(m, j requires 0 <= j < m => (j, values[j]))
  }

  lemma RememberedStep(values: seq<string>, m: nat)
    requires m < |values|
    ensures Remembered(values, m) + [(m, values[m])] == Remembered(values, m + 1)
  {
  }

  lemma RememberedNone(values: seq<string>)
    ensures Remembered(values, 0) == []
  {
  }

  lemma RememberedAt(values: seq<string>, m: nat, k: nat)
    requires k < m <= |values|
    ensures |Remembered(values, m)| == m && Remembered(values, m)[k] == (k, values[k])
  {
  }

  lemma RememberedLength(values: seq<string>, m: nat)
    requires m <= |values|
    ensures |Remembered(values, m)| == m
  {
  }

  lemma SlaveMetadataAt(w: World, values: seq<string>, i: nat)
    requires SlaveMetadata(w, values) && i < |values|
    ensures |w.dst.disks| == |values| && w.dst.disks[i].present && w.dst.disks[i].esrepSrc == Some(values[i])
  {
  }

  lemma ClearingStep(w0: World, w: World, values: seq<string>, k: nat, stage: nat)
    requires Clearing(w0, w, k, stage) && k < |w0.dst.disks| && SlaveMetadata(w0, values)
    ensures CanSetDst(w, k)
    ensures stage == 0 ==> Clearing(w0, AfterSetDst(w, k, EsrepDst, None), k, 1)
    ensures stage == 1 ==> Clearing(w0, AfterSetDst(w, k, EsrepSrc, None), k, 2)
    ensures stage == 2 ==> Clearing(w0, AfterSetDst(w, k, ReadOnly, None), k + 1, 0)
  {
  }

  lemma ClearingData(w0: World, w: World, k: nat, stage: nat)
    requires Clearing(w0, w, k, stage)
    ensures SameSnapshots(w0, w) && w.dst.running == w0.dst.running
  {
    forall j | 0 <= j < |w.dst.disks| ensures SameData(w0.dst.disks[j], w.dst.disks[j]) {
    }
  }

  // ---- undoing a failover -------------------------------------------------------------------------------------

  /** The slave disk again says which master disk it belongs to, and is read-only if it was. */
  ghost predicate SlaveDiskBack(b0: Disk, b: Disk) {
    SameData(b0, b) && b.esrepSrc == b0.esrepSrc && (b0.readonly ==> b.readonly)
  }

  /** The disks before `k` are restored; the others are as failover left them, those from `m` on unharmed. */
  ghost predicate Restoring(w0: World, w: World, k: nat, m: nat) {
    && w.src == w0.src.(running := w.src.running)
    && w.dst == w0.dst.(disks := w.dst.disks, running := w.dst.running) && |w.dst.disks| == |w0.dst.disks|
    && k <= m <= |w0.dst.disks|
    && (forall j :: 0 <= j < |w0.dst.disks| ==> SameData(w0.dst.disks[j], w.dst.disks[j]))
    && (forall j :: 0 <= j < k ==> SlaveDiskBack(w0.dst.disks[j], w.dst.disks[j]))
    && (forall j :: m <= j < |w0.dst.disks| ==> SlaveDiskBack(w0.dst.disks[j], w.dst.disks[j]))
  }

  /** At `stage` below 2 the disk `k` still has its property; from then on it is among the remembered ones. */
  lemma RestoringStart(w0: World, w: World, k: nat, stage: nat)
    requires Clearing(w0, w, k, stage)
    ensures Restoring(w0, w, 0, if stage < 2 then k else k + 1)
  {
    forall j | 0 <= j < |w0.dst.disks| ensures SameData(w0.dst.disks[j], w.dst.disks[j]) {
    }
  }

  lemma RestoringData(w0: World, w: World, k: nat, m: nat)
    requires Restoring(w0, w, k, m)
    ensures SameSnapshots(w0, w)
  {
  }

  /** The failed failover has left no trace in the metadata that a new failover checks. */
  ghost predicate SlavesBack(w0: World, w: World) {
    && w.src.disks == w0.src.disks && |w.dst.disks| == |w0.dst.disks|
    && forall j :: 0 <= j < |w.dst.disks| ==> SlaveDiskBack(w0.dst.disks[j], w.dst.disks[j])
  }

  lemma RestoringDone(w0: World, w: World, m: nat)
    requires Restoring(w0, w, m, m)
    ensures SlavesBack(w0, w)
  {
  }

  lemma SlavesBackLinked(w0: World, w: World)
    requires SlavesBack(w0, w) && Linked(w0)
    ensures Linked(w)
  {
    forall i | 0 <= i < |w.src.disks| ensures LinkedPair(w.src.disks[i], w.dst.disks[i]) {
      assert LinkedPair(w0.src.disks[i], w0.dst.disks[i]) && SlaveDiskBack(w0.dst.disks[i], w.dst.disks[i]);
    }
  }

  // ---- after a failover ---------------------------------------------------------------------------------------

  /** The slave has become a master without a slave; the old master disks are untouched. */
  ghost predicate Promoted(w0: World, w: World) {
    && SameMachines(w0, w) && w.src.disks == w0.src.disks && w.dst.running
    && forall j :: 0 <= j < |w.dst.disks| ==> w.dst.disks[j] == ClearedDisk(w0.dst.disks[j], 3)
  }

  /** Every check that reinit makes on the disks; `src` is the new master and `dst` the old one. */
  ghost predicate Reversible(w: World) {
    forall i :: 0 <= i < |w.src.disks| && i < |w.dst.disks| ==> ReversiblePair(w.src.disks[i], w.dst.disks[i])
  }

  predicate ReversiblePair(a: Disk, b: Disk) {
    && PropertyDisk(b.esrepDst) == Some(a.name) && !b.readonly
    && a.esrepSrc.None? && a.esrepDst.None? && !a.readonly
  }

  /** The state after a failover passes every disk check of reinit with the roles swapped. */
  lemma PromotedReversible(w0: World, w: World)
    requires Linked(w0) && Promoted(w0, w)
    requires forall i :: 0 <= i < |w0.src.disks| ==> !w0.src.disks[i].readonly
    ensures Reversible(Swap(w))
  {
    var v := Swap(w);
    forall i | 0 <= i < |v.src.disks| && i < |v.dst.disks| ensures ReversiblePair(v.src.disks[i], v.dst.disks[i]) {
      assert LinkedPair(w0.src.disks[i], w0.dst.disks[i]);
    }
  }

  // ---- traces ---------------------------------------------------------------------------------------------------

  /** Every state since `before` kept every pair; with `apart`, none had both machines running. */
  ghost predicate Safe(prefix: string, apart: bool, before: seq<World>, now: seq<World>) {
    Trace(prefix, before, now) && (apart ==> Apart(before, now))
  }

  lemma SafeStart(prefix: string, apart: bool, h: seq<World>)
    ensures Safe(prefix, apart, h, h)
  {
  }

  lemma SafeStep(prefix: string, apart: bool, h0: seq<World>, h: seq<World>, w0: World, w: World)
    requires Safe(prefix, apart, h0, h) && Kept(prefix, w0) && SameSnapshots(w0, w)
    requires apart ==> !BothRunning(w)
    ensures Safe(prefix, apart, h0, h + [w]) && Kept(prefix, w)
  {
    SameSnapshotsKept(prefix, w0, w);
    TraceStep(prefix, h0, h, w);
  }

  lemma SafeTwice(prefix: string, apart: bool, h0: seq<World>, h1: seq<World>, h2: seq<World>)
    requires Safe(prefix, apart, h0, h1) && Safe(prefix, apart, h1, h2)
    ensures Safe(prefix, apart, h0, h2)
  {
    TraceTwice(prefix, h0, h1, h2);
    if apart {
      forall k | |h0| <= k < |h2| ensures !BothRunning(h2[k]) {
        assert k < |h1| ==> h2[k] == h1[k];
      }
    }
  }

  lemma SafeTrace(prefix: string, apart: bool, h0: seq<World>, h: seq<World>)
    requires Safe(prefix, apart, h0, h)
    ensures Trace(prefix, h0, h)
  {
  }

  lemma SameSnapshotsSelf(w: World)
    ensures SameSnapshots(w, w) && SlavesBack(w, w)
  {
  }

  lemma ClearingStart(w: World, on: bool)
    ensures Clearing(w, PowerSrc(w, on), 0, 0) && SameSnapshots(w, PowerSrc(w, on)) && SlavesBack(w, PowerSrc(w, on))
    ensures Clearing(w, w, 0, 0)
  {
  }

  lemma ClearingSize(w0: World, w: World, values: seq<string>, k: nat, stage: nat)
    requires Clearing(w0, w, k, stage) && SlaveMetadata(w0, values)
    ensures |values| == |w0.dst.disks| && k <= |w0.dst.disks|
  {
  }

  /** Clearing properties touches no data, and the slave is not running yet. */
  lemma ClearingSafe(prefix: string, apart: bool, h0: seq<World>, h: seq<World>, w0: World, w: World, k: nat, stage: nat)
    requires Safe(prefix, apart, h0, h) && Kept(prefix, w0) && Clearing(w0, w, k, stage)
    requires apart ==> !w0.dst.running
    ensures Safe(prefix, apart, h0, h + [w])
  {
    ClearingData(w0, w, k, stage);
    SafeStep(prefix, apart, h0, h, w0, w);
  }

  lemma RestoringSafe(prefix: string, apart: bool, h0: seq<World>, h: seq<World>, w0: World, w: World, k: nat, m: nat)
    requires Safe(prefix, apart, h0, h) && Kept(prefix, w0) && Restoring(w0, w, k, m)
    requires apart ==> !BothRunning(w)
    ensures Safe(prefix, apart, h0, h + [w]) && SameSnapshots(w0, w)
  {
    RestoringData(w0, w, k, m);
    SafeStep(prefix, apart, h0, h, w0, w);
  }

  /** Whether or not the slave could be stopped. */
  lemma StoppedRestoring(prefix: string, apart: bool, h0: seq<World>, h: seq<World>, w0: World, w: World, m: nat)
    requires Safe(prefix, apart, h0, h) && Kept(prefix, w0) && Restoring(w0, w, 0, m)
    requires apart ==> !BothRunning(w)
    ensures Restoring(w0, PowerDst(w, false), 0, m) && Safe(prefix, apart, h0, h + [PowerDst(w, false)])
    ensures Safe(prefix, apart, h0, h + [w]) && !BothRunning(PowerDst(w, false))
  {
    RestoringSafe(prefix, apart, h0, h, w0, w, 0, m);
    RestoringSafe(prefix, apart, h0, h, w0, PowerDst(w, false), 0, m);
  }

  lemma ClearedPromoted(w0: World, w: World)
    requires Clearing(w0, w, |w0.dst.disks|, 0)
    ensures Promoted(w0, PowerDst(w, true)) && SameSnapshots(w0, PowerDst(w, true))
  {
    forall j | 0 <= j < |w.dst.disks| ensures SameData(w0.dst.disks[j], w.dst.disks[j]) {
    }
  }

  lemma PowerFacts(w: World, on: bool)
    ensures PowerDst(w, on).dst.running == on && PowerDst(w, on).src == w.src
    ensures PowerSrc(w, on).src.running == on && PowerSrc(w, on).dst == w.dst
  {
  }

  lemma PropertyPower(w: World, i: nat, p: Property, v: Option<string>)
    ensures AfterSetDst(w, i, p, v).src == w.src && AfterSetDst(w, i, p, v).dst.running == w.dst.running
    ensures AfterSetSrc(w, i, p, v).dst == w.dst && AfterSetSrc(w, i, p, v).src.running == w.src.running
  {
  }

  // ---- the power side of failover -------------------------------------------------------------------------------

  lemma FailedStop(prefix: string, apart: bool, h: seq<World>, w: World)
    requires Kept(prefix, w) && (apart ==> !w.dst.running)
    ensures Safe(prefix, apart, h, h + [w])
  {
    SafeStart(prefix, apart, h);
    SameSnapshotsSelf(w);
    SafeStep(prefix, apart, h, h, w, w);
  }

  lemma StopSafe(prefix: string, apart: bool, h: seq<World>, w: World, v: World, stopped: bool)
    requires Kept(prefix, w) && (apart ==> !w.dst.running)
    requires v == if stopped then PowerSrc(w, false) else w
    ensures Safe(prefix, apart, h, h + [v]) && Clearing(w, v, 0, 0)
    ensures v.src.running == (w.src.running && !stopped)
  {
    SafeStart(prefix, apart, h);
    ClearingStart(w, false);
    SameSnapshotsSelf(w);
    SafeStep(prefix, apart, h, h, w, v);
  }

  /** Clearing properties does not change which machine runs. */
  lemma ClearingPower(w0: World, w1: World, w2: World, k: nat, stage: nat)
    requires Clearing(w0, w1, 0, 0) && Clearing(w0, w2, k, stage)
    requires w2.src.running == w1.src.running
    ensures w2.dst.running == w0.dst.running && w2.src.disks == w0.src.disks
  {
  }

  lemma StartSafe(prefix: string, apart: bool, h0: seq<World>, h: seq<World>, w0: World, w: World)
    requires Safe(prefix, apart, h0, h) && Kept(prefix, w0) && Clearing(w0, w, |w0.dst.disks|, 0)
    requires apart ==> !w.src.running
    ensures var v := PowerDst(w, true);
            && Promoted(w0, v) && SameSnapshots(w0, v) && Kept(prefix, v) && Safe(prefix, apart, h0, h + [v])
            && (BothRunning(v) <==> w.src.running)
  {
    ClearedPromoted(w0, w);
    SafeStep(prefix, apart, h0, h, w0, PowerDst(w, true));
  }

  lemma NotStarted(prefix: string, apart: bool, h0: seq<World>, h: seq<World>, w0: World, w: World, k: nat, stage: nat)
    requires Safe(prefix, apart, h0, h) && Kept(prefix, w0) && Clearing(w0, w, k, stage) && (apart ==> !w0.dst.running)
    ensures Safe(prefix, apart, h0, h + [w])
  {
    ClearingSafe(prefix, apart, h0, h, w0, w, k, stage);
  }

  lemma ClearingApart(apart: bool, w0: World, w: World, k: nat, stage: nat)
    requires Clearing(w0, w, k, stage) && (apart ==> !w0.dst.running)
    ensures apart ==> !BothRunning(w)
  {
  }
}
