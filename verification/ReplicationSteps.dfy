/** How a sync moves the two hosts from state to state: the effect of each command, what holds between two
    commands, and the lemmas that carry it from one command to the next. */
module ReplicationSteps {
  import opened Options
  import opened Snapshots
  import opened Replicas

  /** A snapshot taken by this run on the master disk `disk`, remembered for the emergency cleanup. */
  datatype SnapInfo = SnapInfo(disk: nat, snap: string)

  function Infos(from: nat, to: nat, snap: string): (r: seq<SnapInfo>)
    requires from <= to
  {
    seq(to - from, k requires 0 <= k => SnapInfo(from + k, snap))
  }

  lemma InfosTail(from: nat, to: nat, snap: string)
    requires from < to
    ensures Infos(from, to, snap) != [] && Infos(from, to, snap)[1..] == Infos(from + 1, to, snap)
  {
  }

  lemma InfosSnoc(to: nat, snap: string)
    ensures Infos(0, to, snap) + [SnapInfo(to, snap)] == Infos(0, to + 1, snap)
  {
  }

  // ---- what a command may find ------------------------------------------------------------------------

  /** Every check of the disk metadata that sync and a failover without force make. */
  ghost predicate Linked(w: World) {
    && |w.src.disks| == |w.dst.disks|
    && forall i :: 0 <= i < |w.src.disks| ==> LinkedPair(w.src.disks[i], w.dst.disks[i])
  }

  ghost predicate LinkedPair(a: Disk, b: Disk) {
    PropertyDisk(b.esrepSrc) == Some(a.name) && PropertyDisk(a.esrepDst) == Some(b.name)
  }

  /** Same machines, same disks in the same order: only the datasets may differ. */
  ghost predicate SameMachines(w0: World, w: World) {
    && w.src.name == w0.src.name && w.src.uuid == w0.src.uuid && |w.src.disks| == |w0.src.disks|
    && w.dst.name == w0.dst.name && w.dst.uuid == w0.dst.uuid && |w.dst.disks| == |w0.dst.disks|
  }

  ghost predicate SamePower(w0: World, w: World) {
    w.src.running == w0.src.running && w.dst.running == w0.dst.running
  }

  /** On the master disk only snapshots and data changed, on the slave disk also the received property. */
  ghost predicate SameMetadata(a0: Disk, b0: Disk, a: Disk, b: Disk) {
    && a == a0.(snaps := a.snaps, live := a.live)
    && b == b0.(snaps := b.snaps, live := b.live, esrepDst := b.esrepDst)
  }

  ghost predicate MetadataKept(w0: World, w: World) {
    && SameMachines(w0, w)
    && forall i :: 0 <= i < |w.src.disks| && i < |w.dst.disks|
         ==> SameMetadata(w0.src.disks[i], w0.dst.disks[i], w.src.disks[i], w.dst.disks[i])
  }

  lemma LinkedStays(w0: World, w: World)
    requires Linked(w0) && MetadataKept(w0, w)
    ensures Linked(w)
  {
    forall i | 0 <= i < |w.src.disks| ensures LinkedPair(w.src.disks[i], w.dst.disks[i]) {
      assert LinkedPair(w0.src.disks[i], w0.dst.disks[i]);
      assert SameMetadata(w0.src.disks[i], w0.dst.disks[i], w.src.disks[i], w.dst.disks[i]);
    }
  }

  ghost predicate InRange(w0: World, w: World, i: nat) {
    i < |w0.src.disks| && i < |w.src.disks| && i < |w0.dst.disks| && i < |w.dst.disks|
  }

  // ---- how far a sync got with one pair ---------------------------------------------------------------

  ghost predicate Untouched(w0: World, w: World, i: nat)
    requires InRange(w0, w, i)
  {
    w.src.disks[i] == w0.src.disks[i] && w.dst.disks[i] == w0.dst.disks[i]
  }

  /** The new snapshot is on the master and has not been received. */
  ghost predicate Taken(w0: World, w: World, i: nat, snap: string)
    requires InRange(w0, w, i)
  {
    && w.src.disks[i] == TakeSnapshot(w0.src.disks[i], snap, w.src.disks[i].live)
    && w.dst.disks[i] == w0.dst.disks[i]
  }

  /** The slave has received the new snapshot. */
  ghost predicate Arrived(w0: World, w: World, i: nat, snap: string)
    requires InRange(w0, w, i)
  {
    && SameMetadata(w0.src.disks[i], w0.dst.disks[i], w.src.disks[i], w.dst.disks[i])
    && exists x :: Shared(w.src.disks[i].snaps, w.dst.disks[i].snaps, x) && x.name == snap
  }

  /** The pair after a complete sync. */
  ghost predicate SyncedAt(w0: World, w: World, i: nat, p: Plan, snap: string) {
    SyncedWith(w0, w, i, p, snap, true) || SyncedWith(w0, w, i, p, snap, false)
  }

  ghost predicate SyncedWith(w0: World, w: World, i: nat, p: Plan, snap: string, got: bool) {
    && i < |w0.src.disks| == |w.src.disks| == |w0.dst.disks| == |w.dst.disks|
    && var a1 := TakeSnapshot(w0.src.disks[i], snap, w.src.disks[i].live);
    && CanReceive(a1.snaps, w0.dst.disks[i].snaps, p.base, snap)
    && w.src.disks[i] == DestroySnapshots(a1, NameSet(p.srcNames))
    && w.dst.disks[i] == DestroySnapshots(ReceiveDisk(a1, w0.dst.disks[i], p.base, snap, got), NameSet(p.dstNames))
  }

  ghost predicate Unused(w: World, snap: string) {
    && (forall i :: 0 <= i < |w.src.disks| ==> snap !in Names(w.src.disks[i].snaps))
    && (forall i :: 0 <= i < |w.dst.disks| ==> snap !in Names(w.dst.disks[i].snaps))
  }

  // ---- a snapshot name that is not in use --------------------------------------------------------------

  function LongestName(s: seq<Snapshot>): (n: nat)
    ensures forall x | x in s :: |x.name| <= n
  {
    if s == [] then 0
    else
      var m := LongestName(s[1..]);
      if |s[0].name| > m then |s[0].name| else m
  }

  function LongestOnDisks(disks: seq<Disk>): (n: nat)
    ensures forall i | 0 <= i < |disks| :: LongestName(disks[i].snaps) <= n
  {
    if disks == [] then 0
    else
      var m := LongestOnDisks(disks[1..]);
      assert forall i | 1 <= i < |disks| :: disks[i] == disks[1..][i - 1];
      var h := LongestName(disks[0].snaps);
      if h > m then h else m
  }

  // ---- the commands that change datasets, as functions of the state; a refused command changes nothing ----

  predicate CanTake(w: World, i: nat, snap: string) {
    i < |w.src.disks| && w.src.disks[i].present && snap !in Names(w.src.disks[i].snaps)
  }

  function AfterTake(w: World, i: nat, snap: string, live: nat): (r: World) {
    if CanTake(w, i, snap) then SetSrc(w, i, TakeSnapshot(w.src.disks[i], snap, live)) else w
  }

  /** `zfs destroy disk@a,b,...` is refused if none of the snapshots exists. */
  predicate CanDestroySrc(w: World, i: nat, names: set<string>) {
    i < |w.src.disks| && !(names !! Names(w.src.disks[i].snaps))
  }

  function AfterDestroySrc(w: World, i: nat, names: set<string>): (r: World) {
    if CanDestroySrc(w, i, names) then SetSrc(w, i, DestroySnapshots(w.src.disks[i], names)) else w
  }

  predicate CanDestroyDst(w: World, i: nat, names: set<string>) {
    i < |w.dst.disks| && !(names !! Names(w.dst.disks[i].snaps))
  }

  function AfterDestroyDst(w: World, i: nat, names: set<string>): (r: World) {
    if CanDestroyDst(w, i, names) then SetDst(w, i, DestroySnapshots(w.dst.disks[i], names)) else w
  }

  /** An incremental receive is refused unless the base is the same snapshot on both sides. */
  predicate CanRecv(w: World, i: nat, base: string, snap: string) {
    i < |w.src.disks| && i < |w.dst.disks| && CanReceive(w.src.disks[i].snaps, w.dst.disks[i].snaps, base, snap)
  }

  function AfterRecv(w: World, i: nat, base: string, snap: string, got: bool): (r: World) {
    if CanRecv(w, i, base, snap)
    then SetDst(w, i, ReceiveDisk(w.src.disks[i], w.dst.disks[i], base, snap, got)) else w
  }

  // ---- the phases of a sync ---------------------------------------------------------------------------

  /** Every state that the run went through kept the invariant of every pair. */
  ghost predicate Trace(prefix: string, before: seq<World>, now: seq<World>) {
    before <= now && KeptSince(prefix, now, |before|)
  }

  lemma TraceStep(prefix: string, before: seq<World>, now: seq<World>, w: World)
    requires Trace(prefix, before, now) && Kept(prefix, w)
    ensures Trace(prefix, before, now + [w])
  {
  }

  /** The worlds differ in the pair `i` at most. */
  ghost predicate OnlyPair(w0: World, w: World, i: nat) {
    && SameMachines(w0, w) && SamePower(w0, w)
    && (forall j :: 0 <= j < |w.src.disks| && j != i ==> w.src.disks[j] == w0.src.disks[j])
    && (forall j :: 0 <= j < |w.dst.disks| && j != i ==> w.dst.disks[j] == w0.dst.disks[j])
  }

  lemma KeptOnlyPair(prefix: string, w0: World, w: World, i: nat)
    requires Kept(prefix, w0) && OnlyPair(w0, w, i)
    requires i < |w.src.disks| && i < |w.dst.disks| && PairKept(prefix, w.src.disks[i], w.dst.disks[i])
    ensures Kept(prefix, w)
  {
    forall j | 0 <= j < |w.src.disks| && j < |w.dst.disks| ensures PairKept(prefix, w.src.disks[j], w.dst.disks[j]) {
      assert j != i ==> PairKept(prefix, w0.src.disks[j], w0.dst.disks[j]);
    }
  }

  /** A cold sync between two commands or where it stopped: the slave has the new snapshot of the first
      `received` disks, the master alone has it of the disks up to `taken`, the others are as before. */
  ghost predicate Progress(prefix: string, w0: World, w: World, snap: string, received: nat, taken: nat) {
    && SameMachines(w0, w) && SamePower(w0, w) && |w0.src.disks| == |w0.dst.disks|
    && received <= taken <= |w0.src.disks|
    && (forall i :: 0 <= i < received ==> Arrived(w0, w, i, snap))
    && (forall i :: received <= i < taken ==> Taken(w0, w, i, snap))
    && (forall i :: taken <= i < |w0.src.disks| ==> Untouched(w0, w, i))
    && Kept(prefix, w)
  }

  lemma ProgressStart(prefix: string, w: World, snap: string)
    requires |w.src.disks| == |w.dst.disks| && Kept(prefix, w)
    ensures Progress(prefix, w, w, snap, 0, 0) && Infos(0, 0, snap) == []
  {
  }

  lemma ProgressTake(prefix: string, w0: World, w: World, snap: string, i: nat, live: nat)
    requires Progress(prefix, w0, w, snap, 0, i) && i < |w0.src.disks|
    requires Unused(w0, snap)
    ensures CanTake(w, i, snap) && Progress(prefix, w0, AfterTake(w, i, snap, live), snap, 0, i + 1)
  {
    var v := AfterTake(w, i, snap, live);
    assert Untouched(w0, w, i);
    var x :| PairHas(prefix, w.src.disks[i], w.dst.disks[i], x);
    SnapshotKeeps(prefix, w.src.disks[i], w.dst.disks[i], snap, live, x);
    KeptOnlyPair(prefix, w, v, i);
    forall j | 0 <= j < i + 1 ensures Taken(w0, v, j, snap) {
      assert j < i ==> Taken(w0, w, j, snap);
    }
    forall j | i + 1 <= j < |w0.src.disks| ensures Untouched(w0, v, j) {
      assert Untouched(w0, w, j);
    }
  }

  lemma ProgressKept(prefix: string, w0: World, w: World, snap: string, received: nat, taken: nat)
    requires Progress(prefix, w0, w, snap, received, taken)
    ensures Kept(prefix, w) && |w.src.disks| == |w.dst.disks| == |w0.src.disks|
  {
  }

  // ---- one pair in a sync ------------------------------------------------------------------------

  /** Every command of a sync of one pair keeps the pair, and the destroys find something to destroy. */
  lemma SyncPair(prefix: string, p: Plan, a: Disk, b: Disk, snap: string, live: nat, got: bool)
    requires PairSound(a, b) && Usable(prefix, p, a, b, snap) && prefix <= snap
    requires snap !in Names(a.snaps) && snap !in Names(b.snaps)
    ensures var a1, x := TakeSnapshot(a, snap, live), Snapshot(snap, live);
            && CanReceive(a1.snaps, b.snaps, p.base, snap)
            && var b1 := ReceiveDisk(a1, b, p.base, snap, got);
            var a2, b2 := DestroySnapshots(a1, NameSet(p.srcNames)), DestroySnapshots(b1, NameSet(p.dstNames));
            && PairHas(prefix, a1, b1, x) && PairHas(prefix, a2, b1, x) && PairHas(prefix, a2, b2, x)
            && p.base in Names(a1.snaps) && p.base in Names(b1.snaps) && b1.live == live
  {
    var a1, x := TakeSnapshot(a, snap, live), Snapshot(snap, live);
    BaseCanReceive(a, b, p.base, snap, live);
    SoundWithSnapshot(a, b, snap, live);
    ReceiveKeeps(prefix, a1, b, p.base, snap, got);
    var b1 := ReceiveDisk(a1, b, p.base, snap, got);
    var y := a1.snaps[Find(a1.snaps, p.base)];
    InNames(a1.snaps, y);
    InNames(b1.snaps, y);
    DestroySrcKeeps(prefix, a1, b1, NameSet(p.srcNames), x);
    DestroyDstKeeps(prefix, DestroySnapshots(a1, NameSet(p.srcNames)), b1, NameSet(p.dstNames), x);
  }

  lemma SoundWithSnapshot(a: Disk, b: Disk, snap: string, live: nat)
    requires PairSound(a, b) && snap !in Names(a.snaps) && snap !in Names(b.snaps)
    ensures PairSound(TakeSnapshot(a, snap, live), b)
  {
    forall y | y in a.snaps ensures y.name != snap { InNames(a.snaps, y); }
    forall y | y in b.snaps ensures y.name != snap { InNames(b.snaps, y); }
    DistinctJoin(a.snaps, [Snapshot(snap, live)]);
  }

  /** A step inside the pair `i`, by which the new snapshot has arrived. */
  lemma ProgressAt(prefix: string, w0: World, w: World, v: World, snap: string, i: nat, received: nat)
    requires Progress(prefix, w0, w, snap, received, |w0.src.disks|) && i < |w0.src.disks|
    requires i == received || i + 1 == received
    requires OnlyPair(w, v, i) && Arrived(w0, v, i, snap) && PairKept(prefix, v.src.disks[i], v.dst.disks[i])
    ensures Progress(prefix, w0, v, snap, i + 1, |w0.src.disks|)
  {
    KeptOnlyPair(prefix, w, v, i);
    forall j | 0 <= j < i + 1 ensures Arrived(w0, v, j, snap) {
      assert j < i ==> Arrived(w0, w, j, snap);
    }
    forall j | i + 1 <= j < |w0.src.disks| ensures Taken(w0, v, j, snap) {
      assert Taken(w0, w, j, snap);
    }
  }

  /** Stages of the pair `i` between the commands of a sync. */
  ghost predicate Stage(w0: World, w: World, i: nat, p: Plan, snap: string, got: bool, destroyed: bool) {
    && i < |w0.src.disks| == |w.src.disks| == |w0.dst.disks| == |w.dst.disks|
    && var a1 := TakeSnapshot(w0.src.disks[i], snap, w.src.disks[i].live);
    && CanReceive(a1.snaps, w0.dst.disks[i].snaps, p.base, snap)
    && w.src.disks[i] == (if destroyed then DestroySnapshots(a1, NameSet(p.srcNames)) else a1)
    && w.dst.disks[i] == ReceiveDisk(a1, w0.dst.disks[i], p.base, snap, got)
  }

  /** The base is on both sides and among the old snapshots to destroy; the new snapshot is not. */
  ghost predicate Usable(prefix: string, p: Plan, a: Disk, b: Disk, snap: string) {
    && prefix <= p.base && p.base in Names(a.snaps) && p.base in Names(b.snaps)
    && p.base in p.srcNames && p.base in p.dstNames && snap !in p.srcNames && snap !in p.dstNames
  }

  lemma PlanIsUsable(prefix: string, p: Plan, a: Disk, b: Disk, snap: string)
    requires PlanFor(prefix, p, a, b) && snap !in Names(a.snaps) && snap !in Names(b.snaps)
    ensures Usable(prefix, p, a, b, snap)
  {
    ListedMembers(a.snaps, prefix);
    ListedMembers(b.snaps, prefix);
  }

  /** What a sync of the pair `i` starts from. */
  ghost predicate Ready(prefix: string, w0: World, i: nat, p: Plan, snap: string) {
    && Unused(w0, snap) && prefix <= snap && i < |w0.src.disks| == |w0.dst.disks|
    && PairSound(w0.src.disks[i], w0.dst.disks[i]) && Usable(prefix, p, w0.src.disks[i], w0.dst.disks[i], snap)
  }

  lemma RecvStep(prefix: string, w0: World, w: World, i: nat, p: Plan, snap: string, got: bool)
    requires Ready(prefix, w0, i, p, snap) && Progress(prefix, w0, w, snap, i, |w0.src.disks|)
    ensures CanRecv(w, i, p.base, snap)
    ensures var v := AfterRecv(w, i, p.base, snap, got);
            && Progress(prefix, w0, v, snap, i + 1, |w0.src.disks|) && OnlyPair(w, v, i)
            && Stage(w0, v, i, p, snap, got, false)
  {
    hide *;
    ReadyBound(prefix, w0, i, p, snap);
    ProgressSizes(prefix, w0, w, snap, i, |w0.src.disks|);
    RecvPair(prefix, w0, w, i, p, snap, got);
    ProgressAt(prefix, w0, w, AfterRecv(w, i, p.base, snap, got), snap, i, i);
  }

  /** The receive of a pair whose snapshot is taken. */
  lemma RecvPair(prefix: string, w0: World, w: World, i: nat, p: Plan, snap: string, got: bool)
    requires Ready(prefix, w0, i, p, snap) && SameMachines(w0, w) && i < |w0.src.disks| == |w0.dst.disks| && Taken(w0, w, i, snap)
    ensures CanRecv(w, i, p.base, snap)
    ensures var v := AfterRecv(w, i, p.base, snap, got);
            && OnlyPair(w, v, i) && Stage(w0, v, i, p, snap, got, false)
            && InRange(w0, v, i) && Arrived(w0, v, i, snap) && PairKept(prefix, v.src.disks[i], v.dst.disks[i])
  {
    hide Drop, Received, CanReceive, PairSound, Usable, Unused;
    ReadyNames(prefix, w0, i, p, snap);
    SyncPair(prefix, p, w0.src.disks[i], w0.dst.disks[i], snap, w.src.disks[i].live, got);
    var v := AfterRecv(w, i, p.base, snap, got);
    assert PairHas(prefix, v.src.disks[i], v.dst.disks[i], Snapshot(snap, w.src.disks[i].live));
  }

  lemma ProgressSizes(prefix: string, w0: World, w: World, snap: string, received: nat, taken: nat)
    requires Progress(prefix, w0, w, snap, received, taken)
    ensures SameMachines(w0, w) && |w0.src.disks| == |w0.dst.disks|
    ensures forall i :: received <= i < taken ==> InRange(w0, w, i) && Taken(w0, w, i, snap)
  {
  }

  lemma DestroySrcStep(prefix: string, w0: World, w: World, i: nat, p: Plan, snap: string, got: bool)
    requires Ready(prefix, w0, i, p, snap) && Progress(prefix, w0, w, snap, i + 1, |w0.src.disks|)
    requires Stage(w0, w, i, p, snap, got, false)
    ensures CanDestroySrc(w, i, NameSet(p.srcNames))
    ensures var v := AfterDestroySrc(w, i, NameSet(p.srcNames));
            && Progress(prefix, w0, v, snap, i + 1, |w0.src.disks|) && OnlyPair(w, v, i)
            && Stage(w0, v, i, p, snap, got, true)
  {
    hide Drop, Received, CanReceive, PairSound, Kept, Progress;
    SyncPair(prefix, p, w0.src.disks[i], w0.dst.disks[i], snap, w.src.disks[i].live, got);
    var v := AfterDestroySrc(w, i, NameSet(p.srcNames));
    assert p.base in NameSet(p.srcNames);
    var x := Snapshot(snap, w.src.disks[i].live);
    assert PairHas(prefix, v.src.disks[i], v.dst.disks[i], x);
    ProgressAt(prefix, w0, w, v, snap, i, i + 1);
  }

  lemma DestroyDstStep(prefix: string, w0: World, w: World, i: nat, p: Plan, snap: string, got: bool)
    requires Ready(prefix, w0, i, p, snap) && Progress(prefix, w0, w, snap, i + 1, |w0.src.disks|)
    requires Stage(w0, w, i, p, snap, got, true)
    ensures CanDestroyDst(w, i, NameSet(p.dstNames))
    ensures var v := AfterDestroyDst(w, i, NameSet(p.dstNames));
            && Progress(prefix, w0, v, snap, i + 1, |w0.src.disks|) && OnlyPair(w, v, i)
            && SyncedAt(w0, v, i, p, snap)
  {
    hide Drop, Received, CanReceive, PairSound, Kept, Progress;
    SyncPair(prefix, p, w0.src.disks[i], w0.dst.disks[i], snap, w.src.disks[i].live, got);
    var v := AfterDestroyDst(w, i, NameSet(p.dstNames));
    assert p.base in NameSet(p.dstNames);
    var x := Snapshot(snap, w.src.disks[i].live);
    assert PairHas(prefix, v.src.disks[i], v.dst.disks[i], x);
    assert SyncedWith(w0, v, i, p, snap, got);
    assert Arrived(w0, v, i, snap);
    ProgressAt(prefix, w0, w, v, snap, i, i + 1);
  }

  lemma Reflexive(prefix: string, h: seq<World>, w: World, i: nat)
    ensures Trace(prefix, h, h) && OnlyPair(w, w, i)
  {
  }

  lemma ReadyBound(prefix: string, w0: World, i: nat, p: Plan, snap: string)
    requires Ready(prefix, w0, i, p, snap)
    ensures i < |w0.src.disks|
  {
  }

  lemma TraceTwice(prefix: string, h0: seq<World>, h1: seq<World>, h2: seq<World>)
    requires Trace(prefix, h0, h1) && Trace(prefix, h1, h2)
    ensures Trace(prefix, h0, h2)
  {
    forall k | |h0| <= k < |h2| ensures Kept(prefix, h2[k]) {
      assert k < |h1| ==> h2[k] == h1[k];
    }
  }

  lemma OnlyPairTwice(w0: World, w1: World, w2: World, i: nat)
    requires OnlyPair(w0, w1, i) && OnlyPair(w1, w2, i)
    ensures OnlyPair(w0, w2, i)
  {
  }

  // ---- all pairs ----------------------------------------------------------------------------------------

  ghost predicate Plans(prefix: string, w0: World, plan: seq<Plan>, snap: string) {
    && |plan| == |w0.src.disks| == |w0.dst.disks|
    && forall i :: 0 <= i < |plan| ==> Ready(prefix, w0, i, plan[i], snap)
  }

  ghost predicate AllSynced(w0: World, w: World, plan: seq<Plan>, snap: string, k: nat) {
    k <= |plan| && forall i :: 0 <= i < k ==> SyncedAt(w0, w, i, plan[i], snap)
  }

  lemma AllSyncedStep(w0: World, w: World, v: World, plan: seq<Plan>, snap: string, i: nat)
    requires AllSynced(w0, w, plan, snap, i) && i < |plan|
    requires OnlyPair(w, v, i) && SyncedAt(w0, v, i, plan[i], snap)
    ensures AllSynced(w0, v, plan, snap, i + 1)
  {
    forall j | 0 <= j < i + 1 ensures SyncedAt(w0, v, j, plan[j], snap) {
      if j < i {
        assert SyncedAt(w0, w, j, plan[j], snap);
        assert v.src.disks[j] == w.src.disks[j] && v.dst.disks[j] == w.dst.disks[j];
      }
    }
  }

  lemma AllSyncedStart(w0: World, w: World, plan: seq<Plan>, snap: string)
    ensures AllSynced(w0, w, plan, snap, 0)
  {
  }

  lemma PlansLength(prefix: string, w0: World, plan: seq<Plan>, snap: string)
    requires Plans(prefix, w0, plan, snap)
    ensures |plan| == |w0.src.disks| == |w0.dst.disks|
  {
  }

  lemma PlansReady(prefix: string, w0: World, plan: seq<Plan>, snap: string, i: nat)
    requires Plans(prefix, w0, plan, snap) && i < |plan|
    ensures Ready(prefix, w0, i, plan[i], snap) && |plan| == |w0.src.disks|
  {
  }

  // ---- the outcome of a sync ----------------------------------------------------------------------------

  /** `snap` is the only replication snapshot that the disk has. */
  ghost predicate ListsOnly(s: seq<Snapshot>, prefix: string, snap: string) {
    NameSet(Listed(s, prefix)) == {snap}
  }

  /** The master has one replication snapshot, the slave has the same one, and the data of the slave is the data
      that the master had when the snapshot was taken. */
  ghost predicate SyncedPair(prefix: string, a: Disk, b: Disk, snap: string) {
    && ListsOnly(a.snaps, prefix, snap)
    && PairHas(prefix, a, b, Snapshot(snap, a.live)) && b.live == a.live
  }

  /** The newest replication snapshot of the master is on the slave. */
  ghost predicate CaughtUp(prefix: string, a: Disk, b: Disk) {
    var names := Listed(a.snaps, prefix);
    names != [] && names[|names| - 1] in Listed(b.snaps, prefix)
  }

  /** What a hot sync that fails leaves behind: the pairs with the new snapshot on the master and not on the slave keep
      their common snapshot, and are not caught up; the next cold sync will carry that snapshot to the slave. */
  lemma LeftBehind(prefix: string, w0: World, w: World, snap: string, received: nat, taken: nat, i: nat)
    requires Progress(prefix, w0, w, snap, received, taken) && Unused(w0, snap) && prefix <= snap && received <= i < taken
    ensures PairKept(prefix, w.src.disks[i], w.dst.disks[i]) && !CaughtUp(prefix, w.src.disks[i], w.dst.disks[i])
  {
    assert Taken(w0, w, i, snap);
    var a, b := w0.src.disks[i], w.dst.disks[i];
    ListedSnoc(a.snaps, Snapshot(snap, w.src.disks[i].live), prefix);
    ListedMembers(b.snaps, prefix);
  }

  /** A synced pair is caught up, so that it is the hot sync that leaves it behind. */
  lemma SyncedIsCaughtUp(prefix: string, a: Disk, b: Disk, last: string)
    requires SyncedPair(prefix, a, b, last) && prefix <= last
    ensures CaughtUp(prefix, a, b)
  {
    var names := Listed(a.snaps, prefix);
    assert last in NameSet(names) && last in names && names != [];
    assert names[|names| - 1] in NameSet(names);
    assert names[|names| - 1] == last;
    InNames(b.snaps, Snapshot(last, a.live));
    ListedMembers(b.snaps, prefix);
  }

  lemma CaughtUpBase(prefix: string, p: Plan, a: Disk, b: Disk)
    requires PlanFor(prefix, p, a, b)
    ensures CaughtUp(prefix, a, b) <==> p.srcNames[|p.srcNames| - 1] == p.base
  {
    var k: nat :| IsLatest(p.srcNames, p.dstNames, k, p.base);
    if k < |p.srcNames| - 1 {
      assert p.srcNames[|p.srcNames| - 1] !in p.dstNames;
    }
  }

  lemma PlanNames(prefix: string, p: Plan, a: Disk, b: Disk)
    requires PlanFor(prefix, p, a, b)
    ensures p.srcNames == Listed(a.snaps, prefix) && p.dstNames == Listed(b.snaps, prefix) && p.srcNames != []
  {
  }

  lemma ReadyNames(prefix: string, w0: World, i: nat, p: Plan, snap: string)
    requires Ready(prefix, w0, i, p, snap)
    ensures snap !in Names(w0.src.disks[i].snaps) && snap !in Names(w0.dst.disks[i].snaps)
  {
  }

  /** A complete cold sync: the slave is left with exactly the new snapshot if and only if the newest replication
      snapshot of the master had already reached it. */
  lemma ColdOutcome(prefix: string, w0: World, w: World, i: nat, p: Plan, snap: string)
    requires Ready(prefix, w0, i, p, snap) && SyncedAt(w0, w, i, p, snap)
    requires PlanFor(prefix, p, w0.src.disks[i], w0.dst.disks[i])
    ensures SyncedPair(prefix, w.src.disks[i], w.dst.disks[i], snap)
    ensures ListsOnly(w.dst.disks[i].snaps, prefix, snap) <==> CaughtUp(prefix, w0.src.disks[i], w0.dst.disks[i])
  {
    hide Listed, Drop, CanReceive, Received, PlanFor, PairHas, Usable, CaughtUp, Unused;
    ReadyNames(prefix, w0, i, p, snap);
    var a, b, live := w0.src.disks[i], w0.dst.disks[i], w.src.disks[i].live;
    var got := SyncedWith(w0, w, i, p, snap, true);
    SyncPair(prefix, p, a, b, snap, live, got);
    MasterListsOne(prefix, a, snap, live);
    PlanNames(prefix, p, a, b);
    SlaveListsOne(prefix, p, a, b, snap, live, got);
    CaughtUpBase(prefix, p, a, b);
  }

  /** The plan of a hot sync: from the snapshot of the round before, which is then destroyed on both sides. */
  function HotPlan(last: string): (p: Plan) {
    Plan(last, [last], [last])
  }

  /** After a complete hot round both sides have exactly the new snapshot. */
  lemma HotOutcome(prefix: string, w0: World, w: World, i: nat, last: string, snap: string)
    requires Ready(prefix, w0, i, HotPlan(last), snap) && SyncedAt(w0, w, i, HotPlan(last), snap)
    requires ListsOnly(w0.src.disks[i].snaps, prefix, last)
    ensures SyncedPair(prefix, w.src.disks[i], w.dst.disks[i], snap)
    ensures ListsOnly(w.dst.disks[i].snaps, prefix, snap)
  {
    hide Listed, Drop, CanReceive, Received, PairHas, Usable, Unused;
    ReadyNames(prefix, w0, i, HotPlan(last), snap);
    var a, b, live := w0.src.disks[i], w0.dst.disks[i], w.src.disks[i].live;
    var p, got := HotPlan(last), SyncedWith(w0, w, i, HotPlan(last), snap, true);
    SyncPair(prefix, p, a, b, snap, live, got);
    assert NameSet(p.srcNames) == {last} == NameSet(p.dstNames);
    MasterListsOne(prefix, a, snap, live);
    HotSlaveLists(prefix, a, b, last, snap, live);
  }

  lemma HotSlaveLists(prefix: string, a: Disk, b: Disk, last: string, snap: string, live: nat)
    requires PairSound(a, b) && ListsOnly(a.snaps, prefix, last) && prefix <= snap
    requires snap !in Names(a.snaps) && snap !in Names(b.snaps)
    requires CanReceive(TakeSnapshot(a, snap, live).snaps, b.snaps, last, snap)
    ensures ListsOnly(Drop(Received(TakeSnapshot(a, snap, live).snaps, b.snaps, last, snap), {last}), prefix, snap)
  {
    var s := TakeSnapshot(a, snap, live).snaps;
    SoundWithSnapshot(a, b, snap, live);
    ReceivedFacts(s, b.snaps, last, snap);
    ReceivedFromSource(s, b.snaps, Find(s, last), Find(b.snaps, last), Find(s, snap));
    OnlySnapLeft(a.snaps, Snapshot(snap, live), Received(s, b.snaps, last, snap), last, prefix);
  }

  lemma OnlySnapLeft(a: seq<Snapshot>, x: Snapshot, r: seq<Snapshot>, last: string, prefix: string)
    requires ListsOnly(a, prefix, last) && prefix <= x.name && x.name !in Names(a)
    requires (forall y :: y in r ==> y in a + [x]) && exists y :: y in r && y.name == x.name
    ensures ListsOnly(Drop(r, {last}), prefix, x.name)
  {
    hide Listed, Drop;
    ListedMembers(a, prefix);
    ListedMembers(r, prefix);
    ListedDrop(r, {last}, prefix);
    assert last in NameSet(Listed(a, prefix));
    forall n | n in Listed(r, prefix) && n != last ensures n == x.name {
      var y :| y in r && y.name == n;
      assert y in a ==> n in NameSet(Listed(a, prefix));
    }
    var y :| y in r && y.name == x.name;
    InNames(r, y);
  }

  // ---- the emergency cleanup of a cold sync ---------------------------------------------------------------

  /** The master disk has the snapshots it had before the run. */
  ghost predicate Restored(w0: World, w: World, i: nat)
    requires InRange(w0, w, i)
  {
    w.src.disks[i] == w0.src.disks[i].(live := w.src.disks[i].live) && w.dst.disks[i] == w0.dst.disks[i]
  }

  /** The cleanup has come to the disk `k`; with `all`, none of its commands has failed. */
  ghost predicate Cleaning(prefix: string, w0: World, w: World, snap: string, received: nat, k: nat, taken: nat, all: bool) {
    && SameMachines(w0, w) && SamePower(w0, w) && |w0.src.disks| == |w0.dst.disks|
    && received <= k <= taken <= |w0.src.disks|
    && (forall i :: 0 <= i < received ==> Arrived(w0, w, i, snap))
    && (forall i :: received <= i < k ==> Restored(w0, w, i) || (!all && Taken(w0, w, i, snap)))
    && (forall i :: k <= i < taken ==> Taken(w0, w, i, snap))
    && (forall i :: taken <= i < |w0.src.disks| ==> Untouched(w0, w, i))
    && Kept(prefix, w)
  }

  lemma CleaningStart(prefix: string, w0: World, w: World, snap: string, received: nat, taken: nat, all: bool)
    requires Progress(prefix, w0, w, snap, received, taken)
    ensures Cleaning(prefix, w0, w, snap, received, received, taken, all)
  {
  }

  lemma CleaningStep(prefix: string, w0: World, w: World, snap: string, received: nat, k: nat, taken: nat, all: bool)
    requires Cleaning(prefix, w0, w, snap, received, k, taken, all) && k < taken
    requires Kept(prefix, w0) && Unused(w0, snap)
    ensures CanDestroySrc(w, k, {snap})
    ensures Cleaning(prefix, w0, AfterDestroySrc(w, k, {snap}), snap, received, k + 1, taken, all)
    ensures Cleaning(prefix, w0, w, snap, received, k + 1, taken, false)
  {
    assert Taken(w0, w, k, snap);
    var a, live := w0.src.disks[k], w.src.disks[k].live;
    var x := Snapshot(snap, live);
    LastIsMember(a.snaps, x);
    InNames(w.src.disks[k].snaps, x);
    DropUndoesAppend(a.snaps, x);
    var v := AfterDestroySrc(w, k, {snap});
    assert Restored(w0, v, k);
    var y :| PairHas(prefix, a, w0.dst.disks[k], y);
    assert PairHas(prefix, v.src.disks[k], v.dst.disks[k], y);
    KeptOnlyPair(prefix, w, v, k);
    CleaningFrame(prefix, w0, w, v, snap, received, k, taken, all);
  }

  lemma CleaningFrame(prefix: string, w0: World, w: World, v: World, snap: string, received: nat, k: nat, taken: nat, all: bool)
    requires Cleaning(prefix, w0, w, snap, received, k, taken, all) && k < taken
    requires OnlyPair(w, v, k) && Kept(prefix, v) && Restored(w0, v, k)
    ensures Cleaning(prefix, w0, v, snap, received, k + 1, taken, all)
  {
    forall i | 0 <= i < received ensures Arrived(w0, v, i, snap) { assert Arrived(w0, w, i, snap); }
    forall i | received <= i < k + 1 ensures Restored(w0, v, i) || (!all && Taken(w0, v, i, snap)) {
      assert i < k ==> Restored(w0, w, i) || (!all && Taken(w0, w, i, snap));
    }
    forall i | k + 1 <= i < taken ensures Taken(w0, v, i, snap) { assert Taken(w0, w, i, snap); }
    forall i | taken <= i < |w0.src.disks| ensures Untouched(w0, v, i) { assert Untouched(w0, w, i); }
  }

  lemma CleaningKept(prefix: string, w0: World, w: World, snap: string, received: nat, k: nat, taken: nat, all: bool)
    requires Cleaning(prefix, w0, w, snap, received, k, taken, all)
    ensures Kept(prefix, w)
  {
  }

  // ---- from plans to steps, and from steps to outcomes ----------------------------------------------------

  ghost predicate ColdPlans(prefix: string, w: World, plan: seq<Plan>) {
    && |plan| == |w.src.disks| == |w.dst.disks|
    && forall i :: 0 <= i < |plan| ==> PlanFor(prefix, plan[i], w.src.disks[i], w.dst.disks[i])
  }

  lemma KeptSound(prefix: string, w: World, i: nat)
    requires Kept(prefix, w) && i < |w.src.disks| && i < |w.dst.disks|
    ensures PairSound(w.src.disks[i], w.dst.disks[i])
  {
    assert PairKept(prefix, w.src.disks[i], w.dst.disks[i]);
    var x :| PairHas(prefix, w.src.disks[i], w.dst.disks[i], x);
  }

  lemma ColdPlansReady(prefix: string, w: World, plan: seq<Plan>, snap: string)
    requires Kept(prefix, w) && ColdPlans(prefix, w, plan) && Unused(w, snap) && prefix <= snap
    ensures Plans(prefix, w, plan, snap)
  {
    forall i | 0 <= i < |plan| ensures Ready(prefix, w, i, plan[i], snap) {
      KeptSound(prefix, w, i);
      PlanIsUsable(prefix, plan[i], w.src.disks[i], w.dst.disks[i], snap);
    }
  }

  /** Every pair is as a complete sync leaves it, with the snapshot `last`. */
  ghost predicate InSync(prefix: string, w: World, last: string) {
    && |w.src.disks| == |w.dst.disks|
    && forall i :: 0 <= i < |w.src.disks| ==> SyncedPair(prefix, w.src.disks[i], w.dst.disks[i], last)
  }

  ghost predicate SlavesListOnly(prefix: string, w: World, last: string) {
    forall i :: 0 <= i < |w.dst.disks| ==> ListsOnly(w.dst.disks[i].snaps, prefix, last)
  }

  /** On which slave disks a cold sync leaves nothing but the new snapshot. */
  ghost predicate SlavesListExactly(prefix: string, w0: World, w: World, last: string) {
    forall i :: 0 <= i && InRange(w0, w, i) ==>
      (ListsOnly(w.dst.disks[i].snaps, prefix, last) <==> CaughtUp(prefix, w0.src.disks[i], w0.dst.disks[i]))
  }

  lemma InSyncKept(prefix: string, w: World, last: string)
    requires InSync(prefix, w, last)
    ensures Kept(prefix, w)
  {
    forall i | 0 <= i < |w.src.disks| && i < |w.dst.disks| ensures PairKept(prefix, w.src.disks[i], w.dst.disks[i]) {
      assert SyncedPair(prefix, w.src.disks[i], w.dst.disks[i], last);
    }
  }

  lemma ColdDone(prefix: string, w0: World, w: World, plan: seq<Plan>, snap: string)
    requires Plans(prefix, w0, plan, snap) && ColdPlans(prefix, w0, plan) && AllSynced(w0, w, plan, snap, |plan|)
    requires MetadataKept(w0, w)
    ensures InSync(prefix, w, snap) && SlavesListExactly(prefix, w0, w, snap)
  {
    forall i | 0 <= i < |plan|
      ensures SyncedPair(prefix, w.src.disks[i], w.dst.disks[i], snap)
      ensures ListsOnly(w.dst.disks[i].snaps, prefix, snap) <==> CaughtUp(prefix, w0.src.disks[i], w0.dst.disks[i])
    {
      ColdOutcome(prefix, w0, w, i, plan[i], snap);
    }
  }

  function HotPlans(n: nat, last: string): (r: seq<Plan>) {
    seq(n, _ => HotPlan(last))
  }

  lemma HotPlansReady(prefix: string, w: World, last: string, snap: string)
    requires InSync(prefix, w, last) && Unused(w, snap) && prefix <= snap
    ensures Plans(prefix, w, HotPlans(|w.src.disks|, last), snap)
  {
    forall i | 0 <= i < |w.src.disks| ensures Ready(prefix, w, i, HotPlan(last), snap) {
      var a, b := w.src.disks[i], w.dst.disks[i];
      assert SyncedPair(prefix, a, b, last);
      InNames(a.snaps, Snapshot(last, a.live));
      InNames(b.snaps, Snapshot(last, a.live));
    }
  }

  lemma HotDone(prefix: string, w0: World, w: World, last: string, snap: string)
    requires InSync(prefix, w0, last) && MetadataKept(w0, w)
    requires Plans(prefix, w0, HotPlans(|w0.src.disks|, last), snap)
    requires AllSynced(w0, w, HotPlans(|w0.src.disks|, last), snap, |HotPlans(|w0.src.disks|, last)|)
    ensures InSync(prefix, w, snap) && SlavesListOnly(prefix, w, snap)
  {
    var plan := HotPlans(|w0.src.disks|, last);
    forall i | 0 <= i < |w0.src.disks|
      ensures SyncedPair(prefix, w.src.disks[i], w.dst.disks[i], snap)
      ensures ListsOnly(w.dst.disks[i].snaps, prefix, snap)
    {
      assert plan[i] == HotPlan(last) && Ready(prefix, w0, i, plan[i], snap) && SyncedAt(w0, w, i, plan[i], snap);
      assert SyncedPair(prefix, w0.src.disks[i], w0.dst.disks[i], last);
      HotOutcome(prefix, w0, w, i, last, snap);
    }
  }

  // ---- metadata -------------------------------------------------------------------------------------------

  lemma ProgressMetadata(prefix: string, w0: World, w: World, snap: string, received: nat, taken: nat)
    requires Progress(prefix, w0, w, snap, received, taken)
    ensures MetadataKept(w0, w) && SamePower(w0, w)
  {
    forall i | 0 <= i < |w.src.disks| && i < |w.dst.disks|
      ensures SameMetadata(w0.src.disks[i], w0.dst.disks[i], w.src.disks[i], w.dst.disks[i])
    {
      if i < received {
        assert Arrived(w0, w, i, snap);
      } else if i < taken {
        assert Taken(w0, w, i, snap);
      } else {
        assert Untouched(w0, w, i);
      }
    }
  }

  lemma CleaningMetadata(prefix: string, w0: World, w: World, snap: string, received: nat, taken: nat, all: bool)
    requires Cleaning(prefix, w0, w, snap, received, taken, taken, all)
    ensures MetadataKept(w0, w) && SamePower(w0, w)
    ensures all ==> NothingHalfDone(w0, w, snap)
  {
    forall i | 0 <= i < |w.src.disks| && i < |w.dst.disks|
      ensures SameMetadata(w0.src.disks[i], w0.dst.disks[i], w.src.disks[i], w.dst.disks[i])
      ensures all ==> Restored(w0, w, i) || Arrived(w0, w, i, snap)
    {
      if i < received {
        assert Arrived(w0, w, i, snap);
      } else if i < taken {
        assert Restored(w0, w, i) || (!all && Taken(w0, w, i, snap));
      } else {
        assert Untouched(w0, w, i);
      }
    }
  }

  /** What a failed cold sync and its cleanup leave: a pair has either received the new snapshot, or its
      master disk has the snapshots that it had before and its slave disk is unchanged. */
  ghost predicate NothingHalfDone(w0: World, w: World, snap: string) {
    && SameMachines(w0, w)
    && forall i :: 0 <= i && InRange(w0, w, i) ==> Restored(w0, w, i) || Arrived(w0, w, i, snap)
  }

  lemma MetadataSizes(w0: World, w: World)
    requires MetadataKept(w0, w)
    ensures |w.src.disks| == |w0.src.disks|
  {
  }

  lemma ColdPlansSize(prefix: string, w: World, plan: seq<Plan>)
    requires ColdPlans(prefix, w, plan)
    ensures |plan| == |w.src.disks|
  {
  }

  lemma OnlyPairPower(w0: World, w: World, i: nat)
    requires OnlyPair(w0, w, i)
    ensures w.dst.running == w0.dst.running
  {
  }

  lemma MetadataTwice(w0: World, w1: World, w2: World)
    requires MetadataKept(w0, w1) && SamePower(w0, w1) && MetadataKept(w1, w2) && SamePower(w1, w2)
    ensures MetadataKept(w0, w2) && SamePower(w0, w2)
  {
    forall i | 0 <= i < |w2.src.disks| && i < |w2.dst.disks|
      ensures SameMetadata(w0.src.disks[i], w0.dst.disks[i], w2.src.disks[i], w2.dst.disks[i])
    {
      assert SameMetadata(w0.src.disks[i], w0.dst.disks[i], w1.src.disks[i], w1.dst.disks[i]);
      assert SameMetadata(w1.src.disks[i], w1.dst.disks[i], w2.src.disks[i], w2.dst.disks[i]);
    }
  }

  lemma MetadataSelf(w: World)
    ensures MetadataKept(w, w) && SamePower(w, w) && NothingHalfDone(w, w, "")
  {
  }

  lemma InfosAt(from: nat, to: nat, snap: string, k: nat)
    requires from <= to && k < to - from
    ensures |Infos(from, to, snap)| == to - from && Infos(from, to, snap)[k] == SnapInfo(from + k, snap)
  {
  }

  lemma InfosLength(from: nat, to: nat, snap: string)
    requires from <= to
    ensures |Infos(from, to, snap)| == to - from
  {
  }
}
