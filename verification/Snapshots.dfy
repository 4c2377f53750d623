/** Snapshot lists of a ZFS dataset and what the zfs commands of the helper scripts do to them.
    A list is ordered from the oldest snapshot to the newest one, as `zfs list -t snapshot` prints it. */
module Snapshots {

  /** `content` stands for the data of the dataset at the time the snapshot was taken. */
  datatype Snapshot = Snapshot(name: string, content: nat)

  function Names(s: seq<Snapshot>): (r: set<string>) {
    set x | x in s :: x.name
  }

  function NameSet(names: seq<string>): (r: set<string>) {
    set n | n in names
  }

  /** zfs never holds two snapshots of one name in one dataset. */
  ghost predicate Distinct(s: seq<Snapshot>) {
    forall j, k :: 0 <= j < k < |s| ==> s[j].name != s[k].name
  }

  /** Position of the snapshot called `name`, or the length of the list. */
  function Find(s: seq<Snapshot>, name: string): (k: nat)
    ensures k <= |s|
    ensures k < |s| ==> s[k].name == name
    ensures forall j :: 0 <= j < k ==> s[j].name != name
  {
    if s == [] then 0 else if s[0].name == name then 0 else 1 + Find(s[1..], name)
  }

  /** The snapshots that `keep` names, in their order. */
  function Keep(s: seq<Snapshot>, keep: set<string>): (r: seq<Snapshot>)
  {
    if s == [] then []
    else
      var last := s[|s| - 1];
      Keep(s[..|s| - 1], keep) + if last.name in keep then [last] else []
  }

  /** `zfs destroy ds@a,b,c`: every named snapshot that exists goes, the others stay in their order. */
  function Drop(s: seq<Snapshot>, names: set<string>): (r: seq<Snapshot>)
  {
    if s == [] then []
    else
      var last := s[|s| - 1];
      Drop(s[..|s| - 1], names) + if last.name in names then [] else [last]
  }

  /** What the listing of a dataset shows of one kind of snapshot: the names with the prefix. */
  function Listed(s: seq<Snapshot>, prefix: string): (r: seq<string>)
  {
    if s == [] then []
    else
      var last := s[|s| - 1];
      Listed(s[..|s| - 1], prefix) + if prefix <= last.name then [last.name] else []
  }

  lemma {:induction false} KeepMembers(s: seq<Snapshot>, keep: set<string>)
    ensures forall x :: x in Keep(s, keep) <==> x in s && x.name in keep
  {
    if s != [] {
      KeepMembers(s[..|s| - 1], keep);
      assert s == s[..|s| - 1] + [s[|s| - 1]];
    }
  }

  lemma {:induction false} DropMembers(s: seq<Snapshot>, names: set<string>)
    ensures forall x :: x in Drop(s, names) <==> x in s && x.name !in names
  {
    if s != [] {
      DropMembers(s[..|s| - 1], names);
      assert s == s[..|s| - 1] + [s[|s| - 1]];
    }
  }

  lemma {:induction false} ListedMembers(s: seq<Snapshot>, prefix: string)
    ensures forall n :: n in Listed(s, prefix) <==> n in Names(s) && prefix <= n
  {
    if s != [] {
      ListedMembers(s[..|s| - 1], prefix);
      assert s == s[..|s| - 1] + [s[|s| - 1]];
      assert Names(s) == Names(s[..|s| - 1]) + {s[|s| - 1].name};
    }
  }

  lemma InNames(s: seq<Snapshot>, x: Snapshot)
    requires x in s
    ensures x.name in Names(s)
  {
  }

  lemma DropSnoc(s: seq<Snapshot>, x: Snapshot, names: set<string>)
    ensures Drop(s + [x], names) == Drop(s, names) + if x.name in names then [] else [x]
  {
    assert (s + [x])[..|s + [x]| - 1] == s;
  }

  lemma ListedSnoc(s: seq<Snapshot>, x: Snapshot, prefix: string)
    ensures Listed(s + [x], prefix) == Listed(s, prefix) + if prefix <= x.name then [x.name] else []
  {
    assert (s + [x])[..|s + [x]| - 1] == s;
  }

  lemma LastIsMember<T>(s: seq<T>, x: T)
    ensures x in s + [x]
  {
    assert (s + [x])[|s|] == x;
  }

  lemma Associates<T>(a: seq<T>, b: seq<T>, c: seq<T>)
    ensures (a + b) + c == a + (b + c)
  {
  }

  lemma {:induction false} DropConcat(a: seq<Snapshot>, b: seq<Snapshot>, names: set<string>)
    ensures Drop(a + b, names) == Drop(a, names) + Drop(b, names)
  {
    if b == [] {
      assert a + b == a;
    } else {
      var t, x := b[..|b| - 1], b[|b| - 1];
      var y := if x.name in names then [] else [x];
      calc {
        Drop(a + b, names);
        { assert b == t + [x]; Associates(a, t, [x]); DropSnoc(a + t, x, names); }
        Drop(a + t, names) + y;
        { DropConcat(a, t, names); }
        (Drop(a, names) + Drop(t, names)) + y;
        { Associates(Drop(a, names), Drop(t, names), y); }
        Drop(a, names) + Drop(b, names);
      }
    }
  }

  lemma {:induction false} ListedConcat(a: seq<Snapshot>, b: seq<Snapshot>, prefix: string)
    ensures Listed(a + b, prefix) == Listed(a, prefix) + Listed(b, prefix)
  {
    if b == [] {
      assert a + b == a;
    } else {
      var t, x := b[..|b| - 1], b[|b| - 1];
      var y := if prefix <= x.name then [x.name] else [];
      calc {
        Listed(a + b, prefix);
        { assert b == t + [x]; Associates(a, t, [x]); ListedSnoc(a + t, x, prefix); }
        Listed(a + t, prefix) + y;
        { ListedConcat(a, t, prefix); }
        (Listed(a, prefix) + Listed(t, prefix)) + y;
        { Associates(Listed(a, prefix), Listed(t, prefix), y); }
        Listed(a, prefix) + Listed(b, prefix);
      }
    }
  }

  lemma {:induction false} ListedDropOthers(s: seq<Snapshot>, names: set<string>, prefix: string)
    requires forall n | n in Listed(s, prefix) :: n !in names
    ensures Listed(Drop(s, names), prefix) == Listed(s, prefix)
  {
    if s != [] {
      var t, x := s[..|s| - 1], s[|s| - 1];
      assert s == t + [x];
      ListedSnoc(t, x, prefix);
      forall n | n in Listed(t, prefix) ensures n !in names { assert n in Listed(s, prefix); }
      ListedDropOthers(t, names, prefix);
      DropSnoc(t, x, names);
      if x.name !in names {
        ListedSnoc(Drop(t, names), x, prefix);
      } else {
        LastIsMember(Listed(t, prefix), x.name);
        assert Drop(s, names) == Drop(t, names) && Listed(s, prefix) == Listed(t, prefix);
      }
    }
  }

  lemma {:induction false} DropNothing(s: seq<Snapshot>, names: set<string>)
    requires Names(s) !! names
    ensures Drop(s, names) == s
  {
    if s != [] {
      var t := s[..|s| - 1];
      assert s == t + [s[|s| - 1]];
      InNames(s, s[|s| - 1]);
      forall x | x in t ensures x.name in Names(s) { InNames(s, x); }
      DropNothing(t, names);
    }
  }

  /** Destroying the snapshot that was taken last gives the list back as it was. */
  lemma DropUndoesAppend(s: seq<Snapshot>, x: Snapshot)
    requires x.name !in Names(s)
    ensures Drop(s + [x], {x.name}) == s
  {
    DropConcat(s, [x], {x.name});
    DropNothing(s, {x.name});
  }

  /** What is listed after a destroy is what was listed before without the destroyed names. */
  lemma {:induction false} ListedDrop(s: seq<Snapshot>, names: set<string>, prefix: string)
    ensures forall n :: n in Listed(Drop(s, names), prefix) <==> n in Listed(s, prefix) && n !in names
  {
    DropMembers(s, names);
    ListedMembers(s, prefix);
    ListedMembers(Drop(s, names), prefix);
  }

  lemma {:induction false} DistinctDrop(s: seq<Snapshot>, names: set<string>)
    requires Distinct(s)
    ensures Distinct(Drop(s, names))
  {
    if s != [] {
      var t := s[..|s| - 1];
      DistinctDrop(t, names);
      DropMembers(t, names);
      DistinctJoin(Drop(t, names), if s[|s| - 1].name in names then [] else [s[|s| - 1]]);
    }
  }

  lemma {:induction false} DistinctKeep(s: seq<Snapshot>, keep: set<string>)
    requires Distinct(s)
    ensures Distinct(Keep(s, keep))
  {
    if s != [] {
      var t := s[..|s| - 1];
      DistinctKeep(t, keep);
      KeepMembers(t, keep);
      DistinctJoin(Keep(t, keep), if s[|s| - 1].name in keep then [s[|s| - 1]] else []);
    }
  }

  lemma DistinctJoin(a: seq<Snapshot>, b: seq<Snapshot>)
    requires Distinct(a) && Distinct(b)
    requires forall x, y | x in a && y in b :: x.name != y.name
    ensures Distinct(a + b)
  {
    var c := a + b;
    forall j, k | 0 <= j < k < |c| ensures c[j].name != c[k].name {
      if k >= |a| > j {
        assert c[j] in a && c[k] in b;
      }
    }
  }

  /** `zfs send -R -I base new | zfs receive -F`, with the base at `k` on the sending side and at `l` on
      the receiving side, and the new snapshot at `m`: the receiving side is rolled back to the base, loses
      what the sending side does not have, and gets every snapshot from the base up to the new one. */
  function ReceivedAt(src: seq<Snapshot>, dst: seq<Snapshot>, k: nat, l: nat, m: nat): (r: seq<Snapshot>)
    requires k < m < |src| && l < |dst|
  {
    Keep(dst[..l + 1], Names(src[..k + 1])) + src[k + 1..m + 1]
  }

  /** An incremental stream applies only on top of the very snapshot it was made from. */
  predicate CanReceive(src: seq<Snapshot>, dst: seq<Snapshot>, base: string, new_: string) {
    var k, l, m := Find(src, base), Find(dst, base), Find(src, new_);
    k < m < |src| && l < |dst| && src[k] == dst[l]
  }

  function Received(src: seq<Snapshot>, dst: seq<Snapshot>, base: string, new_: string): (r: seq<Snapshot>)
    requires CanReceive(src, dst, base, new_)
  {
    ReceivedAt(src, dst, Find(src, base), Find(dst, base), Find(src, new_))
  }

  /** A name that both sides know stands for the same snapshot. */
  ghost predicate Coherent(src: seq<Snapshot>, dst: seq<Snapshot>) {
    forall x, y :: x in src && y in dst && x.name == y.name ==> x == y
  }

  /** Both sides hold this very snapshot. */
  ghost predicate Shared(src: seq<Snapshot>, dst: seq<Snapshot>, x: Snapshot) {
    x in src && x in dst
  }

  lemma SharedAt(s: seq<Snapshot>, x: Snapshot)
    requires Distinct(s) && x in s
    ensures Find(s, x.name) < |s| && s[Find(s, x.name)] == x
  {
    var j :| 0 <= j < |s| && s[j] == x;
    assert Find(s, x.name) <= j;
  }

  /** In a list of distinct names, coherence with a part of the list comes for free. */
  lemma PartIsCoherent(s: seq<Snapshot>, part: seq<Snapshot>)
    requires Distinct(s) && forall x :: x in part ==> x in s
    ensures Coherent(s, part)
  {
    forall x, y | x in s && y in part && x.name == y.name ensures x == y {
      SharedAt(s, x);
      SharedAt(s, y);
    }
  }

  /** Everything the receiving side has after a receive is also on the sending side. */
  lemma ReceivedFromSource(src: seq<Snapshot>, dst: seq<Snapshot>, k: nat, l: nat, m: nat)
    requires Coherent(src, dst) && k < m < |src| && l < |dst|
    ensures forall x :: x in ReceivedAt(src, dst, k, l, m) ==> x in src
  {
    var keep := Names(src[..k + 1]);
    KeepMembers(dst[..l + 1], keep);
    forall x | x in Keep(dst[..l + 1], keep) ensures x in src {
      var p :| p in src[..k + 1] && p.name == x.name;
      assert p in src && x in dst;
    }
  }

  /** What comes after a position has other names than what is at or before it. */
  lemma SplitNames(s: seq<Snapshot>, k: nat, m: nat)
    requires Distinct(s) && k < m < |s|
    ensures forall y | y in s[k + 1..m + 1] :: y.name !in Names(s[..k + 1])
  {
    forall x, y | x in s[..k + 1] && y in s[k + 1..m + 1] ensures x.name != y.name {
      var j :| 0 <= j < k + 1 && s[j] == x;
      var q :| k + 1 <= q < m + 1 && s[q] == y;
      assert s[j].name != s[q].name;
    }
  }

  lemma ReceivedDistinct(src: seq<Snapshot>, dst: seq<Snapshot>, k: nat, l: nat, m: nat)
    requires Distinct(src) && Distinct(dst) && k < m < |src| && l < |dst|
    ensures Distinct(ReceivedAt(src, dst, k, l, m))
  {
    var keep := Names(src[..k + 1]);
    DistinctKeep(dst[..l + 1], keep);
    KeepMembers(dst[..l + 1], keep);
    SplitNames(src, k, m);
    DistinctJoin(Keep(dst[..l + 1], keep), src[k + 1..m + 1]);
  }

  lemma ReceivedShares(src: seq<Snapshot>, dst: seq<Snapshot>, k: nat, l: nat, m: nat)
    requires k < m < |src| && l < |dst| && src[k] == dst[l]
    ensures src[k] in ReceivedAt(src, dst, k, l, m) && src[m] in ReceivedAt(src, dst, k, l, m)
  {
    var keep := Names(src[..k + 1]);
    KeepMembers(dst[..l + 1], keep);
    assert dst[..l + 1][l] == src[k] == src[..k + 1][k];
    InNames(src[..k + 1], src[k]);
    assert src[k + 1..m + 1][m - k - 1] == src[m];
  }

  /** A receive keeps the base shared, shares the new snapshot, and keeps names coherent and distinct. */
  lemma ReceivedFacts(src: seq<Snapshot>, dst: seq<Snapshot>, base: string, new_: string)
    requires Distinct(src) && Distinct(dst) && Coherent(src, dst)
    requires CanReceive(src, dst, base, new_)
    ensures var r := Received(src, dst, base, new_);
            && Distinct(r) && Coherent(src, r)
            && Shared(src, r, src[Find(src, base)]) && Shared(src, r, src[Find(src, new_)])
  {
    var k, l, m := Find(src, base), Find(dst, base), Find(src, new_);
    ReceivedDistinct(src, dst, k, l, m);
    ReceivedFromSource(src, dst, k, l, m);
    PartIsCoherent(src, ReceivedAt(src, dst, k, l, m));
    ReceivedShares(src, dst, k, l, m);
  }
}
