/** The state that the replication commands work on: two hosts, the paired disks of a master and a slave VM,
    and the invariant that makes incremental replication possible. */
module Replicas {
  import opened Options
  import opened Strings
  import opened Snapshots

  /** A VM disk: its dataset may be absent while init rebuilds it.  `live` is its current data.  The other
      fields are the zfs properties esrep:src:<id> (set on a slave), esrep:dst:<id> (set on a master) and readonly. */
  datatype Disk = Disk(name: string, present: bool, snaps: seq<Snapshot>, live: nat,
                       esrepSrc: Option<string>, esrepDst: Option<string>, readonly: bool)

  datatype Host = Host(name: string, uuid: string, disks: seq<Disk>, running: bool)

  /** Seen from a replication command: `src` is the remote host of the master VM, `dst` the local one. */
  datatype World = World(src: Host, dst: Host)

  function Swap(w: World): (r: World) {
    World(w.dst, w.src)
  }

  function SetSrc(w: World, i: nat, d: Disk): (r: World)
    requires i < |w.src.disks|
  {
    w.(src := w.src.(disks := w.src.disks[i := d]))
  }

  function SetDst(w: World, i: nat, d: Disk): (r: World)
    requires i < |w.dst.disks|
  {
    w.(dst := w.dst.(disks := w.dst.disks[i := d]))
  }

  // ---- property values -------------------------------------------------------------------------------

  /** The value that the initial sync builds for both esrep properties. */
  function EncodeProperty(host: string, disk: string): (r: string) {
    host + "/" + disk
  }

  /** Splits at the first slash; a value without one cannot be read. */
  function DecodeProperty(value: string): (r: Option<(string, string)>) {
    if value == "" then None
    else if value[0] == '/' then Some(("", value[1..]))
    else match DecodeProperty(value[1..])
      case None => None
      case Some((host, disk)) => Some(([value[0]] + host, disk))
  }

  lemma {:induction false} DecodeHostless(value: string)
    ensures DecodeProperty(value).Some? ==> '/' !in DecodeProperty(value).value.0
  {
    if value != "" && value[0] != '/' {
      DecodeHostless(value[1..]);
    }
  }

  lemma {:induction false} DecodeInverse(host: string, disk: string)
    requires '/' !in host
    ensures DecodeProperty(EncodeProperty(host, disk)) == Some((host, disk))
  {
    if host == "" {
      assert EncodeProperty(host, disk) == ['/'] + disk;
    } else {
      DecodeInverse(host[1..], disk);
      var value := EncodeProperty(host, disk);
      assert value[0] == host[0] && value[1..] == EncodeProperty(host[1..], disk);
      assert [host[0]] + host[1..] == host;
    }
  }

  /** The value survives its print and split exactly when the host name has no slash; the disk name may have
      any number of them. */
  lemma PropertyRoundTrip(host: string, disk: string)
    ensures DecodeProperty(EncodeProperty(host, disk)) == Some((host, disk)) <==> '/' !in host
  {
    if '/' !in host {
      DecodeInverse(host, disk);
    } else {
      DecodeHostless(EncodeProperty(host, disk));
    }
  }

  /** What reads back what was decoded, as failover does before it clears the properties. */
  lemma {:induction false} EncodeInverse(value: string)
    ensures DecodeProperty(value).Some?
            ==> EncodeProperty(DecodeProperty(value).value.0, DecodeProperty(value).value.1) == value
  {
    if value != "" && value[0] != '/' {
      EncodeInverse(value[1..]);
      assert value == [value[0]] + value[1..];
    }
  }

  /** The disk that a property names, if the property is set and can be read. */
  function PropertyDisk(value: Option<string>): (r: Option<string>) {
    if value.None? || DecodeProperty(value.value).None? then None
    else Some(DecodeProperty(value.value).value.1)
  }

  // ---- the invariant ---------------------------------------------------------------------------------

  /** No name stands for two different snapshots, on one disk or across the pair. */
  ghost predicate PairSound(a: Disk, b: Disk) {
    a.present && b.present && Distinct(a.snaps) && Distinct(b.snaps) && Coherent(a.snaps, b.snaps)
  }

  /** Both sides hold the replication snapshot `x`. */
  ghost predicate PairHas(prefix: string, a: Disk, b: Disk, x: Snapshot) {
    PairSound(a, b) && Shared(a.snaps, b.snaps, x) && prefix <= x.name
  }

  /** A pair of disks that a later incremental sync can start from. */
  ghost predicate PairKept(prefix: string, a: Disk, b: Disk) {
    exists x :: PairHas(prefix, a, b, x)
  }

  ghost predicate Kept(prefix: string, w: World) {
    forall i :: 0 <= i < |w.src.disks| && i < |w.dst.disks| ==> PairKept(prefix, w.src.disks[i], w.dst.disks[i])
  }

  ghost predicate KeptSince(prefix: string, history: seq<World>, start: nat) {
    forall k :: start <= k < |history| ==> Kept(prefix, history[k])
  }

  lemma PairKeptSymmetric(prefix: string, a: Disk, b: Disk)
    requires PairKept(prefix, a, b)
    ensures PairKept(prefix, b, a)
  {
    var x :| PairHas(prefix, a, b, x);
    assert PairHas(prefix, b, a, x);
  }

  /** Which of the two hosts is called the master makes no difference to the invariant. */
  lemma KeptSwapped(prefix: string, w: World)
    requires Kept(prefix, w)
    ensures Kept(prefix, Swap(w))
  {
    var v := Swap(w);
    forall i | 0 <= i < |v.src.disks| && i < |v.dst.disks| ensures PairKept(prefix, v.src.disks[i], v.dst.disks[i]) {
      PairKeptSymmetric(prefix, w.src.disks[i], w.dst.disks[i]);
    }
  }

  // ---- what one command does to a pair ----------------------------------------------------------------

  /** A snapshot of the live data; the VM may have written until then, so `live` is the data at that time. */
  function TakeSnapshot(a: Disk, name: string, live: nat): (r: Disk) {
    a.(live := live, snaps := a.snaps + [Snapshot(name, live)])
  }

  function DestroySnapshots(a: Disk, names: set<string>): (r: Disk) {
    a.(snaps := Drop(a.snaps, names))
  }

  /** An incremental receive.  The stream carries the properties of the master: a slave may get its esrep:dst. */
  function ReceiveDisk(a: Disk, b: Disk, base: string, name: string, gotProperty: bool): (r: Disk)
    requires CanReceive(a.snaps, b.snaps, base, name)
  {
    b.(snaps := Received(a.snaps, b.snaps, base, name), live := a.snaps[Find(a.snaps, name)].content,
       esrepDst := if gotProperty then a.esrepDst else b.esrepDst)
  }

  lemma SnapshotKeeps(prefix: string, a: Disk, b: Disk, name: string, live: nat, x: Snapshot)
    requires PairHas(prefix, a, b, x)
    requires name !in Names(a.snaps) && name !in Names(b.snaps)
    ensures PairHas(prefix, TakeSnapshot(a, name, live), b, x) && x.name != name
  {
    forall y | y in a.snaps ensures y.name != name { InNames(a.snaps, y); }
    forall y | y in b.snaps ensures y.name != name { InNames(b.snaps, y); }
    DistinctJoin(a.snaps, [Snapshot(name, live)]);
  }

  /** After a receive both sides hold the base and the new snapshot. */
  lemma ReceiveKeeps(prefix: string, a: Disk, b: Disk, base: string, name: string, got: bool)
    requires PairSound(a, b) && CanReceive(a.snaps, b.snaps, base, name)
    requires prefix <= base && prefix <= name
    ensures PairHas(prefix, a, ReceiveDisk(a, b, base, name, got), a.snaps[Find(a.snaps, base)])
    ensures PairHas(prefix, a, ReceiveDisk(a, b, base, name, got), a.snaps[Find(a.snaps, name)])
  {
    ReceivedFacts(a.snaps, b.snaps, base, name);
  }

  lemma DropCoherent(a: seq<Snapshot>, b: seq<Snapshot>, names: set<string>)
    requires Distinct(a) && Coherent(a, b)
    ensures Distinct(Drop(a, names)) && Coherent(Drop(a, names), b)
  {
    DistinctDrop(a, names);
    DropMembers(a, names);
  }

  lemma DestroySrcKeeps(prefix: string, a: Disk, b: Disk, names: set<string>, x: Snapshot)
    requires PairHas(prefix, a, b, x) && x.name !in names
    ensures PairHas(prefix, DestroySnapshots(a, names), b, x)
  {
    DropCoherent(a.snaps, b.snaps, names);
    DropMembers(a.snaps, names);
  }

  lemma DestroyDstKeeps(prefix: string, a: Disk, b: Disk, names: set<string>, x: Snapshot)
    requires PairHas(prefix, a, b, x) && x.name !in names
    ensures PairHas(prefix, a, DestroySnapshots(b, names), x)
  {
    DropCoherent(b.snaps, a.snaps, names);
    DropMembers(b.snaps, names);
  }

  // ---- finding the base of an incremental sync --------------------------------------------------------

  /** The newest replication snapshot of the master that the slave also lists. */
  method FindCommon(srcNames: seq<string>, dstNames: seq<string>) returns (r: Option<string>)
    ensures r.None? <==> forall n :: n in srcNames ==> n !in dstNames
    ensures r.Some? ==> r.value in dstNames && exists k :: IsLatest(srcNames, dstNames, k, r.value)
  {
    var k := |srcNames|;
    while k > 0
      invariant 0 <= k <= |srcNames|
      invariant forall j :: k <= j < |srcNames| ==> srcNames[j] !in dstNames
    {
      k := k - 1;
      if srcNames[k] in dstNames {
        assert IsLatest(srcNames, dstNames, k, srcNames[k]);
        return Some(srcNames[k]);
      }
    }
    return None;
  }

  ghost predicate IsLatest(srcNames: seq<string>, dstNames: seq<string>, k: nat, n: string) {
    k < |srcNames| && srcNames[k] == n && forall j :: k < j < |srcNames| ==> srcNames[j] !in dstNames
  }

  /** What sync learns about one pair before it changes anything. */
  datatype Plan = Plan(base: string, srcNames: seq<string>, dstNames: seq<string>)

  ghost predicate PlanFor(prefix: string, p: Plan, a: Disk, b: Disk) {
    && p.srcNames == Listed(a.snaps, prefix) && p.dstNames == Listed(b.snaps, prefix)
    && p.base in p.srcNames && p.base in p.dstNames
    && exists k :: IsLatest(p.srcNames, p.dstNames, k, p.base)
  }

  /** A kept pair has a common name to find. */
  lemma KeptHasCommon(prefix: string, a: Disk, b: Disk)
    requires PairKept(prefix, a, b)
    ensures exists n :: n in Listed(a.snaps, prefix) && n in Listed(b.snaps, prefix)
  {
    var x :| PairHas(prefix, a, b, x);
    ListedMembers(a.snaps, prefix);
    ListedMembers(b.snaps, prefix);
    InNames(a.snaps, x);
    InNames(b.snaps, x);
  }

  /** A name listed on both sides of a kept pair is one snapshot that both sides hold. */
  lemma CommonIsShared(a: Disk, b: Disk, base: string)
    requires PairSound(a, b)
    requires base in Names(a.snaps) && base in Names(b.snaps)
    ensures Find(a.snaps, base) < |a.snaps| && Find(b.snaps, base) < |b.snaps|
            && a.snaps[Find(a.snaps, base)] == b.snaps[Find(b.snaps, base)]
            && Shared(a.snaps, b.snaps, a.snaps[Find(a.snaps, base)])
  {
    var x :| x in a.snaps && x.name == base;
    var y :| y in b.snaps && y.name == base;
    SharedAt(a.snaps, x);
    SharedAt(b.snaps, y);
  }

  lemma {:induction false} FindAppend(s: seq<Snapshot>, x: Snapshot, name: string)
    ensures Find(s + [x], name) == if Find(s, name) < |s| || x.name == name then Find(s, name) else |s| + 1
  {
    if s == [] {
      assert s + [x] == [x] && [x][1..] == [];
    } else {
      FindAppend(s[1..], x, name);
      assert (s + [x])[1..] == s[1..] + [x];
    }
  }

  /** Once the new snapshot is taken on the master, an incremental stream from a common base applies. */
  lemma BaseCanReceive(a: Disk, b: Disk, base: string, name: string, live: nat)
    requires PairSound(a, b) && base in Names(a.snaps) && base in Names(b.snaps) && name !in Names(a.snaps)
    ensures CanReceive(TakeSnapshot(a, name, live).snaps, b.snaps, base, name)
    ensures Find(TakeSnapshot(a, name, live).snaps, base) == Find(a.snaps, base) < |a.snaps|
    ensures Find(TakeSnapshot(a, name, live).snaps, name) == |a.snaps|
  {
    CommonIsShared(a, b, base);
    NotFound(a.snaps, name);
    FindAppend(a.snaps, Snapshot(name, live), base);
    FindAppend(a.snaps, Snapshot(name, live), name);
  }

  lemma PlanCanReceive(prefix: string, p: Plan, a: Disk, b: Disk, name: string, live: nat)
    requires PairSound(a, b) && PlanFor(prefix, p, a, b) && name !in Names(a.snaps)
    ensures CanReceive(TakeSnapshot(a, name, live).snaps, b.snaps, p.base, name)
    ensures Find(TakeSnapshot(a, name, live).snaps, p.base) == Find(a.snaps, p.base) < |a.snaps|
    ensures Find(TakeSnapshot(a, name, live).snaps, name) == |a.snaps|
  {
    ListedMembers(a.snaps, prefix);
    ListedMembers(b.snaps, prefix);
    BaseCanReceive(a, b, p.base, name, live);
  }

  lemma NotFound(s: seq<Snapshot>, name: string)
    requires name !in Names(s)
    ensures Find(s, name) == |s|
  {
    if Find(s, name) < |s| {
      InNames(s, s[Find(s, name)]);
    }
  }

  /** After the planned destroys the master lists nothing but the new snapshot. */
  lemma MasterListsOne(prefix: string, a: Disk, name: string, live: nat)
    requires name !in Names(a.snaps) && prefix <= name
    ensures Listed(DestroySnapshots(TakeSnapshot(a, name, live), NameSet(Listed(a.snaps, prefix))).snaps, prefix)
            == [name]
  {
    var x := Snapshot(name, live);
    var names := NameSet(Listed(a.snaps, prefix));
    ListedMembers(a.snaps, prefix);
    DropSnoc(a.snaps, x, names);
    ListedSnoc(Drop(a.snaps, names), x, prefix);
    ListedDrop(a.snaps, names, prefix);
    EmptyListed(Drop(a.snaps, names), prefix);
  }

  lemma FirstIsMember<T>(s: seq<T>)
    ensures s == [] || exists x :: x in s
  {
    if s != [] {
      assert s[0] in s;
    }
  }

  lemma EmptyListed(s: seq<Snapshot>, prefix: string)
    requires forall n :: n !in Listed(s, prefix)
    ensures Listed(s, prefix) == []
  {
    FirstIsMember(Listed(s, prefix));
  }

  /** What the slave lists after a cold sync: the new snapshot, preceded by the replication snapshots that
      the master had taken after the base (at `k` there, at `l` on the slave), which the stream carries along. */
  lemma SlaveListsAt(prefix: string, p: Plan, a: Disk, b: Disk, x: Snapshot, k: nat, l: nat)
    requires Distinct(a.snaps) && PlanFor(prefix, p, a, b)
    requires k < |a.snaps| && a.snaps[k].name == p.base && l < |b.snaps|
    requires x.name !in Names(b.snaps) && prefix <= x.name
    ensures Listed(Drop(ReceivedAt(a.snaps + [x], b.snaps, k, l, |a.snaps|), NameSet(p.dstNames)), prefix)
            == Listed(a.snaps[k + 1..], prefix) + [x.name]
  {
    var names := NameSet(p.dstNames);
    var s := a.snaps + [x];
    var keep := Names(s[..k + 1]);
    assert s[k + 1..|a.snaps| + 1] == a.snaps[k + 1..] + [x];
    ListedMembers(b.snaps, prefix);
    ListedAfterDestroy(Keep(b.snaps[..l + 1], keep), a.snaps[k + 1..], x, names, prefix);
    OldPartGone(prefix, b.snaps, l, keep, names);
    NewPartStays(prefix, p, a, b, k);
  }

  lemma ListedAfterDestroy(u: seq<Snapshot>, v: seq<Snapshot>, x: Snapshot, names: set<string>, prefix: string)
    requires x.name !in names && prefix <= x.name
    ensures Listed(Drop(u + (v + [x]), names), prefix)
            == Listed(Drop(u, names), prefix) + (Listed(Drop(v, names), prefix) + [x.name])
  {
    DropConcat(u, v + [x], names);
    DropSnoc(v, x, names);
    ListedConcat(Drop(u, names), Drop(v, names) + [x], prefix);
    ListedSnoc(Drop(v, names), x, prefix);
  }

  /** Every replication snapshot that the slave had before is destroyed. */
  lemma OldPartGone(prefix: string, b: seq<Snapshot>, l: nat, keep: set<string>, names: set<string>)
    requires l < |b| && names == NameSet(Listed(b, prefix))
    ensures Listed(Drop(Keep(b[..l + 1], keep), names), prefix) == []
  {
    var part := Keep(b[..l + 1], keep);
    KeepMembers(b[..l + 1], keep);
    ListedMembers(b, prefix);
    ListedMembers(part, prefix);
    ListedDrop(part, names, prefix);
    forall n | n in Listed(part, prefix) ensures n in names {
      var x :| x in part && x.name == n;
      InNames(b, x);
    }
    EmptyListed(Drop(part, names), prefix);
  }

  /** No replication snapshot newer than the base is destroyed: the slave did not list it. */
  lemma NewPartStays(prefix: string, p: Plan, a: Disk, b: Disk, k: nat)
    requires Distinct(a.snaps) && PlanFor(prefix, p, a, b) && k < |a.snaps| && a.snaps[k].name == p.base
    ensures Listed(Drop(a.snaps[k + 1..], NameSet(p.dstNames)), prefix) == Listed(a.snaps[k + 1..], prefix)
  {
    var part, names := a.snaps[k + 1..], NameSet(p.dstNames);
    ListedMembers(part, prefix);
    LatestSplits(prefix, p, a, b, k);
    ListedDropOthers(part, names, prefix);
  }

  /** The listing splits at any listed snapshot. */
  lemma ListedSplits(s: seq<Snapshot>, k: nat, prefix: string)
    requires k < |s| && prefix <= s[k].name
    ensures Listed(s, prefix) == Listed(s[..k], prefix) + ([s[k].name] + Listed(s[k + 1..], prefix))
  {
    hide *;
    var u, x, v := s[..k], s[k], s[k + 1..];
    assert s == u + ([x] + v);
    ListedConcat(u, [x] + v, prefix);
    ListedConcat([x], v, prefix);
    ListedSingle(x, prefix);
  }

  lemma ListedSingle(x: Snapshot, prefix: string)
    requires prefix <= x.name
    ensures Listed([x], prefix) == [x.name]
  {
    ListedSnoc([], x, prefix);
    assert [] + [x] == [x];
  }

  /** What the master lists after the base is not on the slave. */
  lemma LatestSplits(prefix: string, p: Plan, a: Disk, b: Disk, k: nat)
    requires Distinct(a.snaps) && PlanFor(prefix, p, a, b) && k < |a.snaps| && a.snaps[k].name == p.base
    ensures forall n | n in Listed(a.snaps[k + 1..], prefix) :: n !in p.dstNames
    ensures p.srcNames == Listed(a.snaps[..k], prefix) + ([p.base] + Listed(a.snaps[k + 1..], prefix))
  {
    ListedMembers(a.snaps, prefix);
    ListedSplits(a.snaps, k, prefix);
    NotListedAfter(a.snaps, k, prefix);
    LatestIsLast(p.srcNames, p.dstNames, p.base, Listed(a.snaps[..k], prefix), Listed(a.snaps[k + 1..], prefix));
  }

  lemma NotListedAfter(s: seq<Snapshot>, k: nat, prefix: string)
    requires Distinct(s) && k < |s|
    ensures s[k].name !in Listed(s[k + 1..], prefix)
  {
    ListedMembers(s[k + 1..], prefix);
  }

  lemma LatestIsLast(names: seq<string>, other: seq<string>, base: string, u: seq<string>, v: seq<string>)
    requires names == u + ([base] + v) && base in other && base !in v
    requires exists k :: IsLatest(names, other, k, base)
    ensures forall n | n in v :: n !in other
  {
    var j: nat :| IsLatest(names, other, j, base);
    assert names[|u|] == base;
    assert forall q | 0 <= q < |v| :: names[|u| + 1 + q] == v[q];
    assert j <= |u|;
    forall q | 0 <= q < |v| ensures v[q] !in other {
      assert v[q] == names[|u| + 1 + q];
    }
  }

  /** The slave ends with exactly the new snapshot if and only if the base was the newest replication
      snapshot of the master: what a failed hot sync left behind on the master is carried to the slave. */
  lemma SlaveListsOne(prefix: string, p: Plan, a: Disk, b: Disk, name: string, live: nat, got: bool)
    requires PairSound(a, b) && PlanFor(prefix, p, a, b)
    requires name !in Names(a.snaps) && name !in Names(b.snaps) && prefix <= name
    requires CanReceive(TakeSnapshot(a, name, live).snaps, b.snaps, p.base, name)
    ensures var r := ReceiveDisk(TakeSnapshot(a, name, live), b, p.base, name, got);
            NameSet(Listed(DestroySnapshots(r, NameSet(p.dstNames)).snaps, prefix)) == {name}
            <==> p.srcNames[|p.srcNames| - 1] == p.base
  {
    hide PlanFor, CanReceive;
    PlanCanReceive(prefix, p, a, b, name, live);
    var k := Find(a.snaps, p.base);
    SlaveListsAt(prefix, p, a, b, Snapshot(name, live), k, Find(b.snaps, p.base));
    LatestSplits(prefix, p, a, b, k);
    var rest := Listed(a.snaps[k + 1..], prefix);
    LastIsBase(p.srcNames, Listed(a.snaps[..k], prefix), p.base, rest);
    NotListedAfter(a.snaps, k, prefix);
    ListedMembers(a.snaps[k + 1..], prefix);
    LoneName(rest, name);
  }

  lemma LastIsBase(names: seq<string>, u: seq<string>, base: string, v: seq<string>)
    requires names == u + ([base] + v)
    ensures names[|names| - 1] == if v == [] then base else v[|v| - 1]
  {
  }

  lemma LoneName(rest: seq<string>, name: string)
    requires name !in rest
    ensures NameSet(rest + [name]) == {name} <==> rest == []
  {
    LastIsMember(rest, name);
    if rest != [] {
      assert rest[0] in NameSet(rest + [name]);
    }
  }
}
