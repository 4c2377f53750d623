/** The state of a backup server and its source host, and the effect of each command of a dataset backup. */
module BackupSteps {
  import opened Snapshots
  import opened ZfsNames
  import opened Options

  /** `local` holds the backup datasets, `remote` the datasets of the source host. */
  datatype Stores = Stores(local: map<string, seq<Snapshot>>, remote: map<string, seq<Snapshot>>)

  /** A line of the rename table that ds_create reports. */
  datatype Renamed = Renamed(name: string, newName: string)

  const PREFIX := "is-"

  /** What zfs guarantees of names: no `@` inside, and no name twice in a dataset. */
  ghost predicate Wellformed(m: map<string, seq<Snapshot>>) {
    forall d :: d in m ==> '@' !in d && Distinct(m[d]) && forall x :: x in m[d] ==> '@' !in x.name
  }

  // ---- the rename table -----------------------------------------------------------------------------------

  function RenameTable(dataset: string, names: seq<string>, archive: string): (r: seq<Renamed>) {
    seq(|names|, i requires 0 <= i < |names| =>
      Renamed(BuildSnapshot(dataset, names[i]), SwitchDataset(BuildSnapshot(dataset, names[i]), archive)))
  }

  /** Where a snapshot is after a backup run that reported this table. */
  function Relocate(table: seq<Renamed>, name: string): (r: string) {
    if table == [] then name
    else if table[0].name == name then table[0].newName
    else Relocate(table[1..], name)
  }

  lemma {:induction false} RelocateFinds(table: seq<Renamed>, name: string, k: nat)
    requires k < |table| && table[k].name == name
    requires forall i, j :: 0 <= i < |table| && 0 <= j < |table| && table[i].name == table[j].name ==> table[i].newName == table[j].newName
    ensures Relocate(table, name) == table[k].newName
  {
    if table[0].name != name {
      RelocateFinds(table[1..], name, k - 1);
    }
  }

  lemma {:induction false} RelocateKeeps(table: seq<Renamed>, name: string)
    requires forall i :: 0 <= i < |table| ==> table[i].name != name
    ensures Relocate(table, name) == name
  {
    if table != [] {
      RelocateKeeps(table[1..], name);
    }
  }

  /** The table moves exactly the listed snapshots of the archived dataset. */
  lemma TableRelocates(dataset: string, names: seq<string>, archive: string, d: string, n: string)
    requires '@' !in dataset && '@' !in archive && '@' !in d && '@' !in n && forall k :: 0 <= k < |names| ==> '@' !in names[k]
    ensures Relocate(RenameTable(dataset, names, archive), BuildSnapshot(d, n))
            == BuildSnapshot(if d == dataset && n in names then archive else d, n)
  {
    var table := RenameTable(dataset, names, archive);
    forall k | 0 <= k < |names| ensures table[k] == Renamed(BuildSnapshot(dataset, names[k]), BuildSnapshot(archive, names[k])) {
      SnapshotRoundTrip(dataset, names[k], archive);
    }
    if d == dataset && n in names {
      var k :| 0 <= k < |names| && names[k] == n;
      forall i, j | 0 <= i < |table| && 0 <= j < |table| && table[i].name == table[j].name ensures table[i].newName == table[j].newName {
        BuildInjective(dataset, names[i], dataset, names[j]);
      }
      RelocateFinds(table, BuildSnapshot(d, n), k);
    } else {
      forall k | 0 <= k < |table| ensures table[k].name != BuildSnapshot(d, n) {
        if table[k].name == BuildSnapshot(d, n) {
          BuildInjective(dataset, names[k], d, n);
        }
      }
      RelocateKeeps(table, BuildSnapshot(d, n));
    }
  }

  // ---- no backup is lost --------------------------------------------------------------------------------

  /** The snapshot `x` is found at `full`. */
  ghost predicate FoundAt(m: map<string, seq<Snapshot>>, full: string, x: Snapshot) {
    exists d :: d in m && x in m[d] && full == BuildSnapshot(d, x.name)
  }

  /** Every backup snapshot of `m0` is found in `m`, with its data, where the table says. */
  ghost predicate Preserved(m0: map<string, seq<Snapshot>>, m: map<string, seq<Snapshot>>, table: seq<Renamed>) {
    forall d, x :: d in m0 && x in m0[d] && PREFIX <= x.name ==> FoundAt(m, Relocate(table, BuildSnapshot(d, x.name)), x)
  }

  lemma PreservedSelf(m: map<string, seq<Snapshot>>)
    ensures Preserved(m, m, [])
  {
    forall d, x | d in m && x in m[d] && PREFIX <= x.name ensures FoundAt(m, Relocate([], BuildSnapshot(d, x.name)), x) {
    }
  }

  /** Whatever the table says, every backup snapshot of `m0` is still there. */
  ghost predicate Held(m0: map<string, seq<Snapshot>>, m: map<string, seq<Snapshot>>) {
    forall d, x :: d in m0 && x in m0[d] && PREFIX <= x.name ==> Holds(m, x)
  }

  ghost predicate Holds(m: map<string, seq<Snapshot>>, x: Snapshot) {
    exists d :: d in m && x in m[d]
  }

  // ---- renaming a dataset with everything below it ---------------------------------------------------------

  /** `d` lies below `c` in the dataset tree. */
  predicate Below(c: string, d: string) {
    c + "/" <= d
  }

  predicate InTree(c: string, d: string) {
    d == c || Below(c, d)
  }

  /** Nothing has this name or lies below it; zfs has no dataset without its parent. */
  predicate Vacant(m: map<string, seq<Snapshot>>, archive: string) {
    forall d :: d in m ==> !InTree(archive, d)
  }

  predicate IsArchive(dest: string, archive: string) {
    dest + "-arch-" <= archive
  }

  /** Where `zfs rename dest archive` puts a dataset, and where it was before. */
  function MovedTo(dest: string, archive: string, d: string): (r: string) {
    if InTree(dest, d) then archive + d[|dest|..] else d
  }

  function MovedFrom(dest: string, archive: string, e: string): (r: string) {
    if InTree(archive, e) then dest + e[|archive|..] else e
  }

  function RenameTree(m: map<string, seq<Snapshot>>, dest: string, archive: string): (r: map<string, seq<Snapshot>>) {
    var names := set d | d in m :: MovedTo(dest, archive, d);
    map e | e in names && MovedFrom(dest, archive, e) in m :: m[MovedFrom(dest, archive, e)]
  }

  lemma TreeParts(c: string, d: string)
    ensures InTree(c, d) <==> |c| <= |d| && d[..|c|] == c && (|d| == |c| || d[|c|] == '/')
    ensures Below(c, d) <==> |c| < |d| && d[..|c|] == c && d[|c|] == '/'
    ensures InTree(c, d) ==> d == c + d[|c|..]
  {
    if |c| < |d| && d[..|c|] == c && d[|c|] == '/' {
      assert d[..|c| + 1] == c + "/";
    }
    if Below(c, d) {
      assert d[..|c|] == (c + "/")[..|c|] && d[|c|] == (c + "/")[|c|];
    }
  }

  lemma MovedIn(dest: string, archive: string, d: string)
    requires InTree(dest, d)
    ensures InTree(archive, archive + d[|dest|..]) && dest + (archive + d[|dest|..])[|archive|..] == d
    ensures InTree(archive, archive + d[|dest|..]) && (d != dest ==> Below(archive, archive + d[|dest|..]))
  {
    TreeParts(dest, d);
    var e := archive + d[|dest|..];
    TreeParts(archive, e);
    assert e[|archive|..] == d[|dest|..] && e[..|archive|] == archive;
  }

  lemma MovedBack(m: map<string, seq<Snapshot>>, dest: string, archive: string, d: string)
    requires Vacant(m, archive) && d in m
    ensures MovedFrom(dest, archive, MovedTo(dest, archive, d)) == d
  {
    hide Below;
    if InTree(dest, d) {
      MovedIn(dest, archive, d);
    }
  }

  /** The archive lies beside the dataset, and so does everything that goes there. */
  lemma ArchiveBeside(dest: string, archive: string, d: string)
    requires IsArchive(dest, archive)
    ensures InTree(archive, d) ==> !InTree(dest, d)
    ensures !InTree(dest, MovedTo(dest, archive, d))
  {
    hide InTree, Below;
    TreeParts(archive, d);
    TreeParts(dest, d);
    var prefix := dest + "-arch-";
    assert archive[|dest|] == prefix[|dest|] == '-';
    if InTree(dest, d) {
      MovedIn(dest, archive, d);
      var e := archive + d[|dest|..];
      TreeParts(archive, e);
      TreeParts(dest, e);
      assert e[|dest|] == archive[|dest|];
    }
  }

  lemma RenameTreeIs(m: map<string, seq<Snapshot>>, dest: string, archive: string)
    requires Vacant(m, archive) && IsArchive(dest, archive)
    ensures var r := RenameTree(m, dest, archive);
            && (forall d :: d in m ==> MovedTo(dest, archive, d) in r && r[MovedTo(dest, archive, d)] == m[d])
            && (forall e :: e in r ==> !InTree(dest, e) && MovedFrom(dest, archive, e) in m && r[e] == m[MovedFrom(dest, archive, e)]
                                       && MovedTo(dest, archive, MovedFrom(dest, archive, e)) == e)
  {
    hide InTree, Below, Vacant, IsArchive, MovedTo, MovedFrom;
    var r := RenameTree(m, dest, archive);
    forall d | d in m ensures MovedTo(dest, archive, d) in r && r[MovedTo(dest, archive, d)] == m[d] {
      MovedBack(m, dest, archive, d);
    }
    forall e | e in r ensures !InTree(dest, e) && MovedFrom(dest, archive, e) in m && r[e] == m[MovedFrom(dest, archive, e)]
                              && MovedTo(dest, archive, MovedFrom(dest, archive, e)) == e {
      var d :| d in m && MovedTo(dest, archive, d) == e;
      MovedBack(m, dest, archive, d);
      ArchiveBeside(dest, archive, d);
    }
  }

  lemma MovedNames(dest: string, archive: string, d: string)
    requires '@' !in d && '@' !in archive
    ensures '@' !in MovedTo(dest, archive, d)
  {
    if InTree(dest, d) {
      TreeParts(dest, d);
    }
  }

  /** No backup snapshot lies below the dataset. */
  ghost predicate NoBackupBelow(m: map<string, seq<Snapshot>>, dest: string) {
    forall d, x :: d in m && Below(dest, d) && x in m[d] ==> !(PREFIX <= x.name)
  }

  lemma ArchiveSound(m: map<string, seq<Snapshot>>, dest: string, archive: string)
    requires Wellformed(m) && Vacant(m, archive) && IsArchive(dest, archive) && '@' !in archive
    ensures Wellformed(RenameTree(m, dest, archive)) && Held(m, RenameTree(m, dest, archive))
    ensures forall d :: d in m && !InTree(dest, d) ==> d in RenameTree(m, dest, archive) && RenameTree(m, dest, archive)[d] == m[d]
  {
    hide RenameTree, Vacant, IsArchive, InTree, Below, MovedTo, MovedFrom;
    var r := RenameTree(m, dest, archive);
    RenameTreeIs(m, dest, archive);
    forall e: string | e in r ensures '@' !in e && Distinct(r[e]) && forall x: Snapshot :: x in r[e] ==> '@' !in x.name {
      var d := MovedFrom(dest, archive, e);
      MovedNames(dest, archive, d);
    }
    forall d | d in m && !InTree(dest, d) ensures d in r && r[d] == m[d] {
      OutsideStays(dest, archive, d);
    }
    forall d, x | d in m && x in m[d] && PREFIX <= x.name ensures Holds(r, x) {
      assert MovedTo(dest, archive, d) in r;
    }
  }

  lemma OutsideStays(dest: string, archive: string, d: string)
    requires !InTree(dest, d)
    ensures MovedTo(dest, archive, d) == d
  {
  }

  lemma TopMoves(dest: string, archive: string)
    ensures MovedTo(dest, archive, dest) == archive && InTree(dest, dest)
  {
  }

  /** Archiving renames a dataset with everything below it, and the table covers only the listed snapshots of the dataset
      itself: every backup is found through the table if and only if there is none below. */
  lemma ArchivePreserves(m: map<string, seq<Snapshot>>, dest: string, archive: string)
    requires Wellformed(m) && dest in m && Vacant(m, archive) && IsArchive(dest, archive) && '@' !in archive
    ensures Preserved(m, RenameTree(m, dest, archive), RenameTable(dest, Listed(m[dest], PREFIX), archive)) <==> NoBackupBelow(m, dest)
  {
    hide RenameTree, Vacant, IsArchive, InTree, Below, MovedTo, MovedFrom, Preserved, NoBackupBelow, RenameTable, Listed, Relocate;
    var r, table := RenameTree(m, dest, archive), RenameTable(dest, Listed(m[dest], PREFIX), archive);
    if NoBackupBelow(m, dest) {
      ArchiveFinds(m, dest, archive);
    } else {
      var d, x := BackupBelow(m, dest);
      TableSound(m, dest, archive, d, x);
      RenameTreeIs(m, dest, archive);
      ArchiveSound(m, dest, archive);
      BelowIsInside(dest, d);
      NotPreserved(m, r, table, d, x);
    }
  }

  lemma BelowIsInside(dest: string, d: string)
    requires Below(dest, d)
    ensures InTree(dest, d) && d != dest
  {
    assert |dest + "/"| <= |d|;
  }

  lemma BackupBelow(m: map<string, seq<Snapshot>>, dest: string) returns (d: string, x: Snapshot)
    requires !NoBackupBelow(m, dest)
    ensures d in m && Below(dest, d) && x in m[d] && PREFIX <= x.name
  {
    d, x :| d in m && Below(dest, d) && x in m[d] && PREFIX <= x.name;
  }

  lemma NotPreserved(m: map<string, seq<Snapshot>>, r: map<string, seq<Snapshot>>, table: seq<Renamed>, d: string, x: Snapshot)
    requires Wellformed(m) && Wellformed(r) && d in m && x in m[d] && PREFIX <= x.name && d !in r
    requires Relocate(table, BuildSnapshot(d, x.name)) == BuildSnapshot(d, x.name)
    ensures !Preserved(m, r, table)
  {
    if FoundAt(r, BuildSnapshot(d, x.name), x) {
      var e :| e in r && x in r[e] && BuildSnapshot(d, x.name) == BuildSnapshot(e, x.name);
      BuildInjective(d, x.name, e, x.name);
    }
  }

  lemma TableSound(m: map<string, seq<Snapshot>>, dest: string, archive: string, d: string, x: Snapshot)
    requires Wellformed(m) && dest in m && '@' !in archive && d in m && x in m[d] && PREFIX <= x.name
    ensures Relocate(RenameTable(dest, Listed(m[dest], PREFIX), archive), BuildSnapshot(d, x.name))
            == BuildSnapshot(if d == dest then archive else d, x.name)
  {
    var names := Listed(m[dest], PREFIX);
    ListedMembers(m[dest], PREFIX);
    forall k | 0 <= k < |names| ensures '@' !in names[k] {
      assert names[k] in names;
      var y :| y in m[dest] && y.name == names[k];
    }
    InNames(m[d], x);
    TableRelocates(dest, names, archive, d, x.name);
  }

  lemma ArchiveFinds(m: map<string, seq<Snapshot>>, dest: string, archive: string)
    requires Wellformed(m) && dest in m && Vacant(m, archive) && IsArchive(dest, archive) && '@' !in archive && NoBackupBelow(m, dest)
    ensures Preserved(m, RenameTree(m, dest, archive), RenameTable(dest, Listed(m[dest], PREFIX), archive))
  {
    hide RenameTree, Vacant, IsArchive, Below, MovedTo, MovedFrom, RenameTable, Listed, Relocate, Wellformed;
    var r, table := RenameTree(m, dest, archive), RenameTable(dest, Listed(m[dest], PREFIX), archive);
    RenameTreeIs(m, dest, archive);
    TopMoves(dest, archive);
    forall d, x | d in m && x in m[d] && PREFIX <= x.name ensures FoundAt(r, Relocate(table, BuildSnapshot(d, x.name)), x) {
      TableSound(m, dest, archive, d, x);
      if d != dest {
        assert !Below(dest, d);
        OutsideStays(dest, archive, d);
      }
      assert MovedTo(dest, archive, d) in r;
    }
  }

  /** A dataset that only gains snapshots loses none. */
  lemma GrowthPreserves(m0: map<string, seq<Snapshot>>, m: map<string, seq<Snapshot>>, dataset: string, s: seq<Snapshot>, table: seq<Renamed>)
    requires Preserved(m0, m, table)
    requires dataset in m ==> forall x :: x in m[dataset] && PREFIX <= x.name ==> x in s
    ensures Preserved(m0, m[dataset := s], table)
  {
    forall d, x | d in m0 && x in m0[d] && PREFIX <= x.name
      ensures FoundAt(m[dataset := s], Relocate(table, BuildSnapshot(d, x.name)), x)
    {
      var full := Relocate(table, BuildSnapshot(d, x.name));
      assert FoundAt(m, full, x);
      var e :| e in m && x in m[e] && full == BuildSnapshot(e, x.name);
      assert e in m[dataset := s] && x in m[dataset := s][e];
    }
  }

  /** Following the tables of successive runs in their order. */
  function Follow(tables: seq<seq<Renamed>>, name: string): (r: string) {
    if tables == [] then name else Relocate(tables[|tables| - 1], Follow(tables[..|tables| - 1], name))
  }

  ghost predicate Traceable(m0: map<string, seq<Snapshot>>, m: map<string, seq<Snapshot>>, tables: seq<seq<Renamed>>) {
    forall d, x :: d in m0 && x in m0[d] && PREFIX <= x.name ==> FoundAt(m, Follow(tables, BuildSnapshot(d, x.name)), x)
  }

  lemma TraceableStart(m: map<string, seq<Snapshot>>)
    ensures Traceable(m, m, [])
  {
    forall d, x | d in m && x in m[d] && PREFIX <= x.name ensures FoundAt(m, Follow([], BuildSnapshot(d, x.name)), x) {
    }
  }

  lemma TraceableStep(m0: map<string, seq<Snapshot>>, m1: map<string, seq<Snapshot>>, m2: map<string, seq<Snapshot>>,
                      tables: seq<seq<Renamed>>, table: seq<Renamed>)
    requires Traceable(m0, m1, tables) && Preserved(m1, m2, table)
    ensures Traceable(m0, m2, tables + [table])
  {
    var more := tables + [table];
    assert more[..|more| - 1] == tables;
    forall d, x | d in m0 && x in m0[d] && PREFIX <= x.name ensures FoundAt(m2, Follow(more, BuildSnapshot(d, x.name)), x) {
      var full := Follow(tables, BuildSnapshot(d, x.name));
      assert FoundAt(m1, full, x);
      var e :| e in m1 && x in m1[e] && full == BuildSnapshot(e, x.name);
      assert FoundAt(m2, Relocate(table, BuildSnapshot(e, x.name)), x);
    }
  }

  // ---- commands -----------------------------------------------------------------------------------------

  function CountOf(s: string, c: char): (n: nat) {
    if s == "" then 0 else (if s[0] == c then 1 else 0) + CountOf(s[1..], c)
  }

  /** `snapshot.split('@')` taken apart into two; any other number of parts is an error. */
  function SplitSnapshot(s: string): (r: Option<(string, string)>) {
    if CountOf(s, '@') == 1 then Some((SnapDataset(s), SnapName(s))) else None
  }

  lemma {:induction false} CountNone(s: string, c: char)
    ensures CountOf(s, c) == 0 <==> c !in s
  {
    if s != "" {
      CountNone(s[1..], c);
      assert s == [s[0]] + s[1..];
    }
  }

  lemma {:induction false} CountOne(s: string)
    requires CountOf(s, '@') == 1
    ensures FirstAt(s) < |s| && '@' !in s[..FirstAt(s)] && '@' !in s[FirstAt(s) + 1..]
    ensures s == s[..FirstAt(s)] + "@" + s[FirstAt(s) + 1..]
  {
    if s[0] == '@' {
      CountNone(s[1..], '@');
      assert FirstAt(s) == 0;
    } else {
      CountOne(s[1..]);
      assert FirstAt(s) == 1 + FirstAt(s[1..]);
      hide FirstAt, CountOf;
      PartsShift(s, FirstAt(s[1..]));
    }
  }

  lemma PartsShift(s: string, f: nat)
    requires s != "" && s[0] != '@' && f < |s[1..]|
    requires '@' !in s[1..][..f] && '@' !in s[1..][f + 1..] && s[1..] == s[1..][..f] + "@" + s[1..][f + 1..]
    ensures '@' !in s[..f + 1] && '@' !in s[f + 2..] && s == s[..f + 1] + "@" + s[f + 2..]
  {
    assert s[..f + 1] == [s[0]] + s[1..][..f] && s[f + 2..] == s[1..][f + 1..];
    assert s == [s[0]] + s[1..];
  }

  /** A snapshot argument that splits in two is its dataset and its name joined again. */
  lemma SplitParts(s: string)
    requires SplitSnapshot(s).Some?
    ensures var (d, n) := SplitSnapshot(s).value;
            s == BuildSnapshot(d, n) && '@' !in d && '@' !in n && d == SnapDataset(s) && n == SnapName(s)
  {
    CountOne(s);
    SnapshotRoundTrip(s[..FirstAt(s)], s[FirstAt(s) + 1..], "");
  }

  /** `'/'.join(destination.split('/')[:-1])`. */
  function ParentOf(dataset: string): (r: string) {
    if dataset == "" then ""
    else if dataset[|dataset| - 1] == '/' then dataset[..|dataset| - 1]
    else ParentOf(dataset[..|dataset| - 1])
  }

  lemma {:induction false} ParentSplits(dataset: string) returns (n: string)
    requires '/' in dataset
    ensures dataset == ParentOf(dataset) + "/" + n && '/' !in n
  {
    var front, c := dataset[..|dataset| - 1], dataset[|dataset| - 1];
    assert dataset == front + [c];
    if c == '/' {
      n := "";
      assert dataset == ParentOf(dataset) + "/" + "";
    } else {
      var m := ParentSplits(front);
      n := m + [c];
      assert dataset == ParentOf(dataset) + "/" + n;
    }
  }

  lemma {:induction false} NoParent(dataset: string)
    requires '/' !in dataset
    ensures ParentOf(dataset) == ""
  {
    if dataset != "" {
      assert dataset[|dataset| - 1] in dataset;
      NoParent(dataset[..|dataset| - 1]);
    }
  }

  /** Archives of different times have different names. */
  lemma ArchiveNamesDiffer(dataset: string, stamp: string, other: string)
    requires ArchiveName(dataset, stamp) == ArchiveName(dataset, other)
    ensures stamp == other
  {
    var n := |dataset + "-arch-"|;
    assert ArchiveName(dataset, stamp)[n..] == stamp && ArchiveName(dataset, other)[n..] == other;
  }

  function ArchiveName(dataset: string, stamp: string): (r: string) {
    dataset + "-arch-" + stamp
  }

  /** Whether both lists hold the same snapshot under this name. */
  predicate ShareName(a: seq<Snapshot>, b: seq<Snapshot>, name: string) {
    exists x :: x in a && x.name == name && x in b
  }

  predicate CanArchive(s: Stores, dest: string, archive: string) {
    dest in s.local && Vacant(s.local, archive)
  }

  /** `zfs rename -f`: the datasets below go along. */
  function AfterArchive(s: Stores, dest: string, archive: string): (r: Stores) {
    s.(local := RenameTree(s.local, dest, archive))
  }

  /** `zfs destroy ds@a,b,c` fails only if none of the named snapshots exists. */
  predicate CanDestroy(m: map<string, seq<Snapshot>>, ds: string, names: set<string>) {
    ds in m && names * Names(m[ds]) != {}
  }

  function AfterDestroy(m: map<string, seq<Snapshot>>, ds: string, names: set<string>): (r: map<string, seq<Snapshot>>) {
    if ds in m then m[ds := Drop(m[ds], names)] else m
  }

  predicate CanSnap(s: Stores, ds: string, name: string) {
    ds in s.remote && name !in Names(s.remote[ds])
  }

  function AfterSnap(s: Stores, ds: string, x: Snapshot): (r: Stores) {
    if ds in s.remote then s.(remote := s.remote[ds := s.remote[ds] + [x]]) else s
  }

  /** A full stream creates the dataset; an incremental one needs the very base snapshot on both sides. */
  predicate CanRecv(s: Stores, ds: string, base: Option<string>, x: Snapshot, dest: string) {
    ds in s.remote && x in s.remote[ds] &&
    match base
    case None => dest !in s.local
    case Some(b) => dest in s.local && ShareName(s.local[dest], s.remote[ds], b) && x.name !in Names(s.local[dest])
  }

  /** What of the destination an incremental receive with `-F` builds on: everything up to the base. */
  function BasePart(local: map<string, seq<Snapshot>>, base: Option<string>, dest: string): (r: seq<Snapshot>) {
    if base.Some? && dest in local && Find(local[dest], base.value) < |local[dest]|
    then local[dest][..Find(local[dest], base.value) + 1]
    else []
  }

  function AfterRecv(s: Stores, base: Option<string>, x: Snapshot, dest: string): (r: Stores) {
    s.(local := s.local[dest := BasePart(s.local, base, dest) + [x]])
  }

  // ---- one backup ---------------------------------------------------------------------------------------

  /** The incremental base of a backup: the newest backup of the destination, if the source still has it. */
  function Base(s: Stores, ds: string, dest: string): (r: Option<string>) {
    if dest in s.local && ds in s.remote then
      var names := Listed(s.local[dest], PREFIX);
      if names != [] && names[|names| - 1] in Listed(s.remote[ds], PREFIX) then Some(names[|names| - 1]) else None
    else None
  }

  /** Python's `list.remove`: the first occurrence goes. */
  function Without(names: seq<string>, x: string): (r: seq<string>) {
    if names == [] then [] else if names[0] == x then names[1..] else [names[0]] + Without(names[1..], x)
  }

  /** Backup snapshots of the source that are of no use any more. */
  function Doomed(s: Stores, ds: string, dest: string): (r: seq<string>) {
    if ds !in s.remote then []
    else match Base(s, ds, dest)
      case None => Listed(s.remote[ds], PREFIX)
      case Some(b) => Without(Listed(s.remote[ds], PREFIX), b)
  }

  /** Whether a backup archives the destination first. */
  predicate Archives(s: Stores, ds: string, dest: string) {
    dest in s.local && Base(s, ds, dest).None?
  }

  function Archived(s: Stores, ds: string, dest: string, archive: string): (r: Stores) {
    if Archives(s, ds, dest) then AfterArchive(s, dest, archive) else s
  }

  function ArchiveTable(s: Stores, ds: string, dest: string, archive: string): (r: seq<Renamed>) {
    if Archives(s, ds, dest) then RenameTable(dest, Listed(s.local[dest], PREFIX), archive) else []
  }

  /** What a backup needs to go through when no command fails by itself. */
  predicate Feasible(s: Stores, ds: string, name: string, dest: string, archive: string) {
    && CountOf(dest, '/') >= 2 && ParentOf(dest) in s.local
    && ds in s.remote && name !in Names(Drop(s.remote[ds], NameSet(Doomed(s, ds, dest))))
    && (dest in s.local ==> Listed(s.local[dest], PREFIX) != [])
    && (Archives(s, ds, dest) ==> Vacant(s.local, archive))
    && (Base(s, ds, dest).Some? ==> ShareName(s.local[dest], s.remote[ds], Base(s, ds, dest).value)
                                    && name !in Names(s.local[dest]))
  }

  /** The source side of the books: its snapshots are those from before without the reported deleted ones, which
      were all backup snapshots, and with the reported last one; the other datasets of the source are as before. */
  ghost predicate Ledger(r0: map<string, seq<Snapshot>>, r: map<string, seq<Snapshot>>, ds: string,
                         deleted: seq<string>, last: Option<Snapshot>) {
    if ds in r0 then
      && (forall n :: n in deleted ==> n in Listed(r0[ds], PREFIX))
      && (last.Some? ==> last.value.name !in Names(Drop(r0[ds], NameSet(deleted))))
      && r == r0[ds := Drop(r0[ds], NameSet(deleted)) + (if last.Some? then [last.value] else [])]
    else
      r == r0 && deleted == [] && last.None?
  }

  lemma LedgerStart(r: map<string, seq<Snapshot>>, ds: string)
    ensures Ledger(r, r, ds, [], None)
  {
    if ds in r {
      DropNothing(r[ds], NameSet([]));
      assert r[ds] + [] == r[ds];
    }
  }

  lemma {:induction false} WithoutMembers(names: seq<string>, x: string)
    requires x in names && forall j, k :: 0 <= j < k < |names| ==> names[j] != names[k]
    ensures forall n :: n in Without(names, x) <==> n in names && n != x
  {
    assert names == [names[0]] + names[1..];
    if names[0] != x {
      WithoutMembers(names[1..], x);
    } else {
      forall n | n in names[1..] ensures n != x {
        var k :| 0 <= k < |names[1..]| && names[1..][k] == n;
        assert names[0] != names[k + 1];
      }
    }
  }

  lemma {:induction false} ListedDistinct(s: seq<Snapshot>, prefix: string)
    requires Distinct(s)
    ensures forall j, k :: 0 <= j < k < |Listed(s, prefix)| ==> Listed(s, prefix)[j] != Listed(s, prefix)[k]
  {
    if s != [] {
      var t, x := s[..|s| - 1], s[|s| - 1];
      ListedDistinct(t, prefix);
      ListedMembers(t, prefix);
      forall n | n in Listed(t, prefix) ensures n != x.name {
        var y :| y in t && y.name == n;
      }
      assert s == t + [x];
      ListedSnoc(t, x, prefix);
      var l, r := Listed(t, prefix), Listed(s, prefix);
      forall j, k | 0 <= j < k < |r| ensures r[j] != r[k] {
        assert j < |l| && l[j] in l;
      }
    }
  }

  /** The useless snapshots are all the listed ones of the source but the base. */
  lemma DoomedMembers(s: Stores, ds: string, dest: string)
    requires ds in s.remote && Distinct(s.remote[ds])
    ensures forall n :: n in Doomed(s, ds, dest) <==> n in Listed(s.remote[ds], PREFIX) && Base(s, ds, dest) != Some(n)
  {
    var names := Listed(s.remote[ds], PREFIX);
    match Base(s, ds, dest)
    case None =>
    case Some(b) =>
      ListedDistinct(s.remote[ds], PREFIX);
      WithoutMembers(names, b);
  }

  lemma LedgerDestroy(r: map<string, seq<Snapshot>>, ds: string, names: seq<string>)
    requires ds in r && forall n :: n in names ==> n in Listed(r[ds], PREFIX)
    ensures Ledger(r, AfterDestroy(r, ds, NameSet(names)), ds, names, None)
    ensures names != [] ==> CanDestroy(r, ds, NameSet(names))
  {
    assert Drop(r[ds], NameSet(names)) + [] == Drop(r[ds], NameSet(names));
    ListedMembers(r[ds], PREFIX);
    if names != [] {
      assert names[0] in names;
      assert names[0] in NameSet(names) * Names(r[ds]);
    }
  }

  lemma LedgerSnap(r0: map<string, seq<Snapshot>>, s: Stores, ds: string, deleted: seq<string>, x: Snapshot)
    requires Ledger(r0, s.remote, ds, deleted, None) && CanSnap(s, ds, x.name)
    ensures Ledger(r0, AfterSnap(s, ds, x).remote, ds, deleted, Some(x))
  {
    assert s.remote[ds] == Drop(r0[ds], NameSet(deleted));
    assert s.remote[ds] + [x] == Drop(r0[ds], NameSet(deleted)) + [x];
  }

  /** The cleanup takes the new snapshot back. */
  lemma LedgerUndo(r0: map<string, seq<Snapshot>>, r: map<string, seq<Snapshot>>, ds: string, deleted: seq<string>, x: Snapshot)
    requires Ledger(r0, r, ds, deleted, Some(x))
    ensures Ledger(r0, AfterDestroy(r, ds, {x.name}), ds, deleted, None)
    ensures CanDestroy(r, ds, {x.name})
  {
    hide Listed, Drop, Names, NameSet;
    var kept := Drop(r0[ds], NameSet(deleted));
    DropUndoesAppend(kept, x);
    assert kept + [] == kept;
    LastIsMember(kept, x);
    InNames(kept + [x], x);
    assert x.name in {x.name} * Names(r[ds]);
  }

  lemma {:induction false} DropTwice(s: seq<Snapshot>, a: set<string>, b: set<string>)
    ensures Drop(Drop(s, a), b) == Drop(s, a + b)
  {
    if s != [] {
      var t, x := s[..|s| - 1], s[|s| - 1];
      DropTwice(t, a, b);
      if x.name in a {
        assert Drop(t, a) + [] == Drop(t, a) && Drop(t, a + b) + [] == Drop(t, a + b);
      } else {
        DropSnoc(Drop(t, a), x, b);
      }
    }
  }

  lemma DropOther(x: Snapshot, names: set<string>)
    requires x.name !in names
    ensures Drop([x], names) == [x]
  {
    DropNothing([x], names);
  }

  lemma FewerNames(s: seq<Snapshot>, names: set<string>)
    ensures Names(Drop(s, names)) <= Names(s)
  {
    DropMembers(s, names);
  }

  /** After a successful incremental backup the base goes as well. */
  lemma LedgerBase(r0: map<string, seq<Snapshot>>, r: map<string, seq<Snapshot>>, ds: string, deleted: seq<string>,
                   x: Snapshot, b: string)
    requires Ledger(r0, r, ds, deleted, Some(x)) && b != x.name && b in Listed(r0[ds], PREFIX)
    ensures Ledger(r0, AfterDestroy(r, ds, {b}), ds, deleted + [b], Some(x))
  {
    hide Listed, Drop, Names;
    var kept := Drop(r0[ds], NameSet(deleted));
    DropConcat(kept, [x], {b});
    DropTwice(r0[ds], NameSet(deleted), {b});
    assert NameSet(deleted) + {b} == NameSet(deleted + [b]);
    DropOther(x, {b});
    FewerNames(kept, {b});
  }

  lemma LedgerListed(r0: map<string, seq<Snapshot>>, r: map<string, seq<Snapshot>>, ds: string, deleted: seq<string>, last: Option<Snapshot>)
    requires ds in r0 && Ledger(r0, r, ds, deleted, last)
    ensures ds in r
    ensures forall n :: n in Listed(r[ds], PREFIX) <==>
              (n in Listed(r0[ds], PREFIX) && n !in deleted) || (last.Some? && n == last.value.name && PREFIX <= n)
  {
    var kept := Drop(r0[ds], NameSet(deleted));
    var more := if last.Some? then [last.value] else [];
    ListedConcat(kept, more, PREFIX);
    ListedDrop(r0[ds], NameSet(deleted), PREFIX);
    ListedMembers(more, PREFIX);
  }

  lemma LedgerHolds(r0: map<string, seq<Snapshot>>, r: map<string, seq<Snapshot>>, ds: string, deleted: seq<string>, last: Option<Snapshot>)
    requires ds in r0 && Ledger(r0, r, ds, deleted, last)
    ensures ds in r && forall x :: x in r[ds] <==> (x in r0[ds] && x.name !in deleted) || last == Some(x)
  {
    DropMembers(r0[ds], NameSet(deleted));
  }

  lemma LedgerWellformed(r0: map<string, seq<Snapshot>>, r: map<string, seq<Snapshot>>, ds: string, deleted: seq<string>, last: Option<Snapshot>)
    requires Wellformed(r0) && Ledger(r0, r, ds, deleted, last)
    requires last.Some? ==> '@' !in last.value.name
    ensures Wellformed(r)
  {
    if ds in r0 {
      var kept := Drop(r0[ds], NameSet(deleted));
      DistinctDrop(r0[ds], NameSet(deleted));
      DropMembers(r0[ds], NameSet(deleted));
      DistinctJoin(kept, if last.Some? then [last.value] else []);
    }
  }

  // ---- the destination --------------------------------------------------------------------------------------

  /** How far a run came with the destination. */
  datatype Landing =
    | Untouched     // nothing was changed
    | MovedAside    // the destination was archived
    | Received      // the new snapshot has arrived

  /** The whole backup server after a run that came this far, and the table that it reports. */
  ghost predicate Landed(s0: Stores, m: map<string, seq<Snapshot>>, ds: string, x: Snapshot, dest: string, archive: string,
                         landing: Landing, table: seq<Renamed>) {
    var base := Base(s0, ds, dest);
    match landing
    case Untouched => m == s0.local && table == []
    case MovedAside =>
      && Archives(s0, ds, dest) && Vacant(s0.local, archive)
      && m == Archived(s0, ds, dest, archive).local && table == ArchiveTable(s0, ds, dest, archive)
    case Received =>
      && (Archives(s0, ds, dest) ==> Vacant(s0.local, archive))
      && (base.Some? ==> x.name !in Names(s0.local[dest]))
      && m == Archived(s0, ds, dest, archive).local[dest := BasePart(s0.local, base, dest) + [x]]
      && table == ArchiveTable(s0, ds, dest, archive)
  }

  /** Names stay sound, no backup is lost, and datasets that are not the destination or below it are as before. */
  ghost predicate Safekept(m0: map<string, seq<Snapshot>>, m: map<string, seq<Snapshot>>, dest: string) {
    && Wellformed(m) && Held(m0, m)
    && forall d :: d in m0 && !InTree(dest, d) ==> d in m && m[d] == m0[d]
  }

  lemma HeldSelf(m: map<string, seq<Snapshot>>)
    ensures Held(m, m)
  {
    forall d, x | d in m && x in m[d] && PREFIX <= x.name ensures Holds(m, x) {
    }
  }

  /** A dataset that only gains snapshots loses none. */
  lemma HeldGrowth(m0: map<string, seq<Snapshot>>, m: map<string, seq<Snapshot>>, dest: string, s: seq<Snapshot>)
    requires Held(m0, m) && (dest in m ==> forall x :: x in m[dest] && PREFIX <= x.name ==> x in s)
    ensures Held(m0, m[dest := s])
  {
    forall d, x | d in m0 && x in m0[d] && PREFIX <= x.name ensures Holds(m[dest := s], x) {
      assert Holds(m, x);
      var e :| e in m && x in m[e];
      assert e in m[dest := s] && x in m[dest := s][e];
    }
  }

  /** The last listed snapshot is the newest of its kind. */
  lemma {:induction false} NewestListed(s: seq<Snapshot>, prefix: string) returns (k: nat)
    requires Listed(s, prefix) != []
    ensures k < |s| && prefix <= s[k].name && s[k].name == Listed(s, prefix)[|Listed(s, prefix)| - 1]
    ensures forall j :: k < j < |s| ==> !(prefix <= s[j].name)
  {
    var t := s[..|s| - 1];
    if prefix <= s[|s| - 1].name {
      k := |s| - 1;
    } else {
      k := NewestListed(t, prefix);
    }
  }

  /** The incremental base stands at `k`, and rolling back to it loses no backup. */
  lemma BaseIsNewest(s: Stores, ds: string, dest: string) returns (k: nat)
    requires Base(s, ds, dest).Some? && Wellformed(s.local)
    ensures dest in s.local && k < |s.local[dest]| && s.local[dest][k].name == Base(s, ds, dest).value
    ensures PREFIX <= Base(s, ds, dest).value
    ensures BasePart(s.local, Base(s, ds, dest), dest) == s.local[dest][..k + 1]
    ensures forall x :: x in s.local[dest] && PREFIX <= x.name ==> x in s.local[dest][..k + 1]
  {
    var l := s.local[dest];
    k := NewestListed(l, PREFIX);
    SharedAt(l, l[k]);
    var f := Find(l, l[k].name);
    assert f == k;
    forall x | x in l && PREFIX <= x.name ensures x in l[..k + 1] {
      var j :| 0 <= j < |l| && l[j] == x;
      assert j <= k;
      assert l[..k + 1][j] == x;
    }
  }

  /** An incremental backup: the destination keeps everything up to the base. */
  lemma SafekeptIncremental(s: Stores, ds: string, dest: string, x: Snapshot)
    requires Wellformed(s.local) && '@' !in x.name && Base(s, ds, dest).Some? && x.name !in Names(s.local[dest])
    ensures var m := s.local[dest := BasePart(s.local, Base(s, ds, dest), dest) + [x]];
            Safekept(s.local, m, dest) && Preserved(s.local, m, [])
  {
    hide Base, BasePart, Names, Listed, Below;
    var k := BaseIsNewest(s, ds, dest);
    var l := s.local[dest];
    PreservedSelf(s.local);
    HeldSelf(s.local);
    GrowthPreserves(s.local, s.local, dest, l[..k + 1] + [x], []);
    HeldGrowth(s.local, s.local, dest, l[..k + 1] + [x]);
    forall y | y in l[..k + 1] ensures y in l && y.name != x.name { InNames(l, y); }
    DistinctJoin(l[..k + 1], [x]);
  }

  /** After archiving, or with no destination there, the destination is absent. */
  lemma ArchivedSafe(s: Stores, ds: string, dest: string, archive: string)
    requires Wellformed(s.local) && IsArchive(dest, archive) && '@' !in archive && Base(s, ds, dest).None?
    requires Archives(s, ds, dest) ==> Vacant(s.local, archive)
    ensures Safekept(s.local, Archived(s, ds, dest, archive).local, dest) && dest !in Archived(s, ds, dest, archive).local
  {
    hide RenameTree, Below, IsArchive, Vacant, Base, MovedTo, MovedFrom;
    if dest in s.local {
      ArchiveSound(s.local, dest, archive);
      RenameTreeIs(s.local, dest, archive);
    } else {
      HeldSelf(s.local);
    }
  }

  /** However far it came, a run keeps every backup and touches nothing beside the destination. */
  lemma LandedSafe(s0: Stores, m: map<string, seq<Snapshot>>, ds: string, x: Snapshot, dest: string, archive: string,
                   landing: Landing, table: seq<Renamed>)
    requires Wellformed(s0.local) && IsArchive(dest, archive) && '@' !in dest && '@' !in archive && '@' !in x.name
    requires Landed(s0, m, ds, x, dest, archive, landing, table)
    ensures Safekept(s0.local, m, dest)
  {
    hide Base, BasePart, Vacant, IsArchive, Archived, ArchiveTable, Below, Names;
    match landing
    case Untouched => HeldSelf(s0.local);
    case MovedAside =>
      ArchivesNoBase(s0, ds, dest);
      ArchivedSafe(s0, ds, dest, archive);
    case Received =>
      if Base(s0, ds, dest).Some? {
        NotArchived(s0, ds, dest, archive);
        SafekeptIncremental(s0, ds, dest, x);
      } else {
        ArchivedSafe(s0, ds, dest, archive);
        NoBasePart(s0.local, dest);
        assert [] + [x] == [x];
        HeldGrowth(s0.local, Archived(s0, ds, dest, archive).local, dest, [x]);
      }
  }

  lemma ArchivesNoBase(s: Stores, ds: string, dest: string)
    requires Archives(s, ds, dest)
    ensures Base(s, ds, dest).None? && dest in s.local
  {
  }

  lemma NotArchived(s: Stores, ds: string, dest: string, archive: string)
    requires Base(s, ds, dest).Some?
    ensures Archived(s, ds, dest, archive) == s && ArchiveTable(s, ds, dest, archive) == [] && dest in s.local
  {
  }

  /** Every earlier backup is found through the reported table, unless the destination was archived: then if and only if
      there was no backup below it. */
  lemma LandedFound(s0: Stores, m: map<string, seq<Snapshot>>, ds: string, x: Snapshot, dest: string, archive: string,
                    landing: Landing, table: seq<Renamed>)
    requires Wellformed(s0.local) && IsArchive(dest, archive) && '@' !in dest && '@' !in archive && '@' !in x.name
    requires Landed(s0, m, ds, x, dest, archive, landing, table)
    ensures Preserved(s0.local, m, table) <==>
              landing == Untouched || !Archives(s0, ds, dest) || NoBackupBelow(s0.local, dest)
  {
    hide Base, BasePart, Vacant, IsArchive, Below, Names, Preserved, NoBackupBelow, RenameTree, RenameTable, Listed, Wellformed;
    PreservedSelf(s0.local);
    if landing != Untouched {
      if Archives(s0, ds, dest) {
        var r, t := RenameTree(s0.local, dest, archive), RenameTable(dest, Listed(s0.local[dest], PREFIX), archive);
        ArchivePreserves(s0.local, dest, archive);
        if landing == Received {
          NoBasePart(s0.local, dest);
          assert [] + [x] == [x];
          ArchivedSafe(s0, ds, dest, archive);
          TableTargets(s0.local, dest, archive);
          GrowthFinds(s0.local, r, dest, x, t);
        }
      } else if Base(s0, ds, dest).Some? {
        SafekeptIncremental(s0, ds, dest, x);
      } else {
        NoBasePart(s0.local, dest);
        assert [] + [x] == [x];
        NewDestination(s0.local, dest, x);
      }
    }
  }

  lemma NewDestination(m: map<string, seq<Snapshot>>, dest: string, x: Snapshot)
    requires dest !in m
    ensures Preserved(m, m[dest := [x]], [])
  {
    PreservedSelf(m);
    GrowthPreserves(m, m, dest, [x], []);
  }

  /** The full name belongs to another dataset. */
  ghost predicate Elsewhere(dest: string, full: string, y: Snapshot) {
    exists e :: e != dest && '@' !in e && full == BuildSnapshot(e, y.name)
  }

  lemma TableTargets(m: map<string, seq<Snapshot>>, dest: string, archive: string)
    requires Wellformed(m) && dest in m && '@' !in archive && IsArchive(dest, archive)
    ensures forall d, y :: d in m && y in m[d] && PREFIX <= y.name ==>
              Elsewhere(dest, Relocate(RenameTable(dest, Listed(m[dest], PREFIX), archive), BuildSnapshot(d, y.name)), y)
  {
    hide Relocate, RenameTable, Listed;
    assert archive != dest by { assert |dest + "-arch-"| <= |archive|; }
    forall d, y | d in m && y in m[d] && PREFIX <= y.name
      ensures Elsewhere(dest, Relocate(RenameTable(dest, Listed(m[dest], PREFIX), archive), BuildSnapshot(d, y.name)), y)
    {
      TableSound(m, dest, archive, d, y);
      var e := if d == dest then archive else d;
      assert e != dest && '@' !in e;
    }
  }

  /** A new destination neither hides nor shows an earlier backup: none was called after it any more. */
  lemma GrowthFinds(m0: map<string, seq<Snapshot>>, m: map<string, seq<Snapshot>>, dest: string, x: Snapshot, table: seq<Renamed>)
    requires Wellformed(m0) && dest in m0 && dest !in m && '@' !in dest && '@' !in x.name
    requires forall d, y :: d in m0 && y in m0[d] && PREFIX <= y.name ==> Elsewhere(dest, Relocate(table, BuildSnapshot(d, y.name)), y)
    ensures Preserved(m0, m[dest := [x]], table) <==> Preserved(m0, m, table)
  {
    var r := m[dest := [x]];
    if Preserved(m0, m, table) {
      GrowthPreserves(m0, m, dest, [x], table);
    }
    if Preserved(m0, r, table) {
      forall d, y | d in m0 && y in m0[d] && PREFIX <= y.name ensures FoundAt(m, Relocate(table, BuildSnapshot(d, y.name)), y) {
        var e :| e != dest && '@' !in e && Relocate(table, BuildSnapshot(d, y.name)) == BuildSnapshot(e, y.name);
        assert FoundAt(r, BuildSnapshot(e, y.name), y);
        var f :| f in r && y in r[f] && BuildSnapshot(e, y.name) == BuildSnapshot(f, y.name);
        if f == dest { BuildInjective(e, y.name, f, y.name); }
        assert f in m && y in m[f];
      }
    }
  }

  /** What a successful backup leaves: the destination ends with the new snapshot, which the source holds too; every
      other backup snapshot of the source is gone, except the base if it could not be destroyed. */
  ghost predicate Backed(s0: Stores, s: Stores, ds: string, x: Snapshot, dest: string, archive: string,
                         table: seq<Renamed>, deleted: seq<string>) {
    var base := Base(s0, ds, dest);
    && Landed(s0, s.local, ds, x, dest, archive, Received, table)
    && dest in s.local && s.local[dest] == BasePart(s0.local, base, dest) + [x]
    && ds in s.remote && x in s.remote[ds]
    && (deleted == Doomed(s0, ds, dest) || (base.Some? && deleted == Doomed(s0, ds, dest) + [base.value]))
  }

  lemma BasePartListed(s: Stores, ds: string, dest: string)
    requires Wellformed(s.local) && Base(s, ds, dest).Some?
    ensures var names := Listed(BasePart(s.local, Base(s, ds, dest), dest), PREFIX);
            names != [] && names[|names| - 1] == Base(s, ds, dest).value
  {
    hide Base, BasePart, Wellformed;
    var k := BaseIsNewest(s, ds, dest);
    var l := s.local[dest];
    assert l[..k + 1] == l[..k] + [l[k]];
    ListedSnoc(l[..k], l[k], PREFIX);
  }

  /** The next backup after a successful one is incremental exactly when the new snapshot has the backup prefix or
      the old base is still there. */
  lemma NextIsIncremental(s0: Stores, s: Stores, ds: string, x: Snapshot, dest: string, archive: string,
                          table: seq<Renamed>, deleted: seq<string>)
    requires Wellformed(s0.local) && ds in s0.remote && Ledger(s0.remote, s.remote, ds, deleted, Some(x))
    requires Backed(s0, s, ds, x, dest, archive, table, deleted)
    ensures PREFIX <= x.name ==> Base(s, ds, dest) == Some(x.name) && ShareName(s.local[dest], s.remote[ds], x.name)
    ensures Base(s, ds, dest).Some? <==>
              PREFIX <= x.name || (Base(s0, ds, dest).Some? && Base(s0, ds, dest).value !in deleted)
  {
    hide Listed, Doomed, Ledger, BasePart, Wellformed, ArchiveTable;
    var base := Base(s0, ds, dest);
    var part := BasePart(s0.local, base, dest);
    LedgerListed(s0.remote, s.remote, ds, deleted, Some(x));
    ListedSnoc(part, x, PREFIX);
    LastIsMember(part, x);
    if PREFIX <= x.name {
      assert Listed(s.local[dest], PREFIX) == Listed(part, PREFIX) + [x.name];
    } else if base.Some? {
      BasePartListed(s0, ds, dest);
      assert Listed(s.local[dest], PREFIX) == Listed(part, PREFIX);
    } else {
      NoBasePart(s0.local, dest);
      assert Listed(s.local[dest], PREFIX) == [];
    }
  }

  lemma NoBasePart(local: map<string, seq<Snapshot>>, dest: string)
    ensures BasePart(local, None, dest) == [] && Listed([], PREFIX) == []
  {
  }

  /** A failed backup keeps its base on both sides, so that the next one can use it. */
  lemma BaseSurvives(s0: Stores, s: Stores, ds: string, dest: string, deleted: seq<string>, last: Option<Snapshot>)
    requires Base(s0, ds, dest).Some? && s.local == s0.local && Base(s0, ds, dest).value !in deleted
    requires Ledger(s0.remote, s.remote, ds, deleted, last)
    ensures Base(s, ds, dest) == Base(s0, ds, dest)
    ensures ShareName(s0.local[dest], s0.remote[ds], Base(s0, ds, dest).value)
            ==> ShareName(s.local[dest], s.remote[ds], Base(s0, ds, dest).value)
  {
    LedgerListed(s0.remote, s.remote, ds, deleted, last);
    LedgerHolds(s0.remote, s.remote, ds, deleted, last);
  }

  /** The state between the preparation of a backup and its snapshot. */
  ghost predicate Prepared(s0: Stores, s: Stores, ds: string, dest: string, archive: string, table: seq<Renamed>, deleted: seq<string>) {
    && ds in s0.remote && (dest in s0.local ==> Listed(s0.local[dest], PREFIX) != [])
    && (Archives(s0, ds, dest) ==> Vacant(s0.local, archive))
    && s.local == Archived(s0, ds, dest, archive).local && table == ArchiveTable(s0, ds, dest, archive)
    && deleted == Doomed(s0, ds, dest) && Ledger(s0.remote, s.remote, ds, deleted, None)
  }

  lemma BaseComputed(s: Stores, ds: string, dest: string)
    requires ds in s.remote
    ensures dest !in s.local ==> Base(s, ds, dest) == None
    ensures dest in s.local ==>
              var names := Listed(s.local[dest], PREFIX);
              Base(s, ds, dest) == if names != [] && names[|names| - 1] in Listed(s.remote[ds], PREFIX)
                                   then Some(names[|names| - 1]) else None
    ensures Doomed(s, ds, dest) == match Base(s, ds, dest)
                                   case None => Listed(s.remote[ds], PREFIX)
                                   case Some(b) => Without(Listed(s.remote[ds], PREFIX), b)
  {
  }

  lemma ArchivedComputed(s: Stores, ds: string, dest: string, archive: string)
    ensures Archives(s, ds, dest) <==> dest in s.local && Base(s, ds, dest).None?
    ensures Archives(s, ds, dest) ==>
              && (CanArchive(s, dest, archive) <==> Vacant(s.local, archive))
              && AfterArchive(s, dest, archive) == Archived(s, ds, dest, archive)
              && ArchiveTable(s, ds, dest, archive) == RenameTable(dest, Listed(s.local[dest], PREFIX), archive)
    ensures !Archives(s, ds, dest) ==> Archived(s, ds, dest, archive) == s && ArchiveTable(s, ds, dest, archive) == []
    ensures Archived(s, ds, dest, archive).remote == s.remote
  {
  }

  lemma DoomedGo(s: Stores, ds: string, dest: string)
    requires ds in s.remote && Wellformed(s.remote)
    ensures var doomed := Doomed(s, ds, dest);
            && Ledger(s.remote, AfterDestroy(s.remote, ds, NameSet(doomed)), ds, doomed, None)
            && (doomed != [] ==> CanDestroy(s.remote, ds, NameSet(doomed)))
            && (doomed == [] ==> Ledger(s.remote, s.remote, ds, doomed, None))
            && (Base(s, ds, dest).Some? ==> Base(s, ds, dest).value !in doomed && Base(s, ds, dest).value in Listed(s.remote[ds], PREFIX))
  {
    DoomedMembers(s, ds, dest);
    LedgerDestroy(s.remote, ds, Doomed(s, ds, dest));
    LedgerStart(s.remote, ds);
  }

  lemma PreparedNow(s0: Stores, s: Stores, ds: string, dest: string, archive: string, table: seq<Renamed>, deleted: seq<string>)
    requires ds in s0.remote && (dest in s0.local ==> Listed(s0.local[dest], PREFIX) != [])
    requires Archives(s0, ds, dest) ==> Vacant(s0.local, archive)
    requires s.local == Archived(s0, ds, dest, archive).local && table == ArchiveTable(s0, ds, dest, archive)
    requires deleted == Doomed(s0, ds, dest) && Ledger(s0.remote, s.remote, ds, deleted, None)
    ensures Prepared(s0, s, ds, dest, archive, table, deleted)
  {
  }

  lemma NotFeasible(s: Stores, ds: string, name: string, dest: string, archive: string)
    requires Feasible(s, ds, name, dest, archive)
    ensures CountOf(dest, '/') >= 2 && ParentOf(dest) in s.local && ds in s.remote
    ensures dest in s.local ==> Listed(s.local[dest], PREFIX) != []
    ensures Archives(s, ds, dest) ==> Vacant(s.local, archive)
  {
  }

  /** After the preparation the snapshot can be taken exactly when the backup asked for a free name. */
  lemma PreparedSnap(s0: Stores, s: Stores, ds: string, name: string, dest: string, archive: string, table: seq<Renamed>, deleted: seq<string>)
    requires Prepared(s0, s, ds, dest, archive, table, deleted)
    ensures ds in s.remote
    ensures CanSnap(s, ds, name) <==> name !in Names(Drop(s0.remote[ds], NameSet(Doomed(s0, ds, dest))))
  {
    assert s.remote[ds] == Drop(s0.remote[ds], NameSet(deleted));
  }

  /** ... and then the stream applies exactly when the rest of what a backup needs is there. */
  lemma PreparedRecv(s0: Stores, s: Stores, ds: string, x: Snapshot, dest: string, archive: string, table: seq<Renamed>, deleted: seq<string>)
    requires Wellformed(s0.remote) && Prepared(s0, s, ds, dest, archive, table, deleted) && CanSnap(s, ds, x.name)
    requires CountOf(dest, '/') >= 2 && ParentOf(dest) in s0.local && IsArchive(dest, archive)
    ensures CanRecv(AfterSnap(s, ds, x), ds, Base(s0, ds, dest), x, dest) <==> Feasible(s0, ds, x.name, dest, archive)
    ensures Ledger(s0.remote, AfterSnap(s, ds, x).remote, ds, deleted, Some(x))
    ensures Base(s0, ds, dest).Some? ==> Base(s0, ds, dest).value != x.name && Base(s0, ds, dest).value !in deleted
  {
    hide Listed, Doomed, Wellformed, Base, CountOf, ParentOf, Without;
    var s1 := AfterSnap(s, ds, x);
    LedgerSnap(s0.remote, s, ds, deleted, x);
    LedgerHolds(s0.remote, s.remote, ds, deleted, None);
    LedgerHolds(s0.remote, s1.remote, ds, deleted, Some(x));
    PreparedSnap(s0, s, ds, x.name, dest, archive, table, deleted);
    BaseComputed(s0, ds, dest);
    ArchivedComputed(s0, ds, dest, archive);
    DoomedGo(s0, ds, dest);
    LastIsMember(s.remote[ds], x);
    if Base(s0, ds, dest).Some? {
      var b := Base(s0, ds, dest).value;
      ListedMembers(s0.remote[ds], PREFIX);
      var y :| y in s0.remote[ds] && y.name == b;
      InNames(s.remote[ds], y);
      var l := s0.local[dest];
      assert ShareName(l, s1.remote[ds], b) <==> ShareName(l, s0.remote[ds], b) by {
        ShareKept(l, s0.remote[ds], s1.remote[ds], b);
      }
    }
  }

  lemma ShareKept(l: seq<Snapshot>, r0: seq<Snapshot>, r: seq<Snapshot>, b: string)
    requires forall x: Snapshot :: x.name == b ==> (x in r <==> x in r0)
    ensures ShareName(l, r, b) <==> ShareName(l, r0, b)
  {
  }

  lemma ReceivedBacked(s0: Stores, s: Stores, ds: string, x: Snapshot, dest: string, archive: string, table: seq<Renamed>, deleted: seq<string>)
    requires Prepared(s0, s, ds, dest, archive, table, deleted) && ds in s.remote
    requires CanRecv(AfterSnap(s, ds, x), ds, Base(s0, ds, dest), x, dest)
    ensures var s2 := AfterRecv(AfterSnap(s, ds, x), Base(s0, ds, dest), x, dest);
            s2.remote == AfterSnap(s, ds, x).remote && Backed(s0, s2, ds, x, dest, archive, table, deleted)
  {
    hide Listed, Doomed, Base, BasePart, Vacant, RenameTree, RenameTable, Names;
    if Base(s0, ds, dest).None? {
      NoBasePart(s.local, dest);
      NoBasePart(s0.local, dest);
    }
  }

  lemma BaseListed(r0: map<string, seq<Snapshot>>, r: map<string, seq<Snapshot>>, ds: string, deleted: seq<string>, x: Snapshot, b: string)
    requires ds in r0 && Ledger(r0, r, ds, deleted, Some(x)) && b in Listed(r0[ds], PREFIX)
    ensures b !in deleted ==> CanDestroy(r, ds, {b})
  {
    hide Listed, Ledger;
    LedgerListed(r0, r, ds, deleted, Some(x));
    ListedMembers(r[ds], PREFIX);
    assert b !in deleted ==> b in {b} * Names(r[ds]);
  }

  /** Destroying the base on the source ends an incremental backup. */
  lemma BaseGone(s0: Stores, s: Stores, ds: string, x: Snapshot, dest: string, archive: string, table: seq<Renamed>, deleted: seq<string>)
    requires Base(s0, ds, dest).Some? && Base(s0, ds, dest).value != x.name
    requires Backed(s0, s, ds, x, dest, archive, table, deleted) && deleted == Doomed(s0, ds, dest)
    requires Ledger(s0.remote, s.remote, ds, deleted, Some(x))
    ensures var b := Base(s0, ds, dest).value;
            var s1 := s.(remote := AfterDestroy(s.remote, ds, {b}));
            && Ledger(s0.remote, s1.remote, ds, deleted + [b], Some(x))
            && Backed(s0, s1, ds, x, dest, archive, table, deleted + [b])
            && (b !in deleted ==> CanDestroy(s.remote, ds, {b}))
  {
    hide Listed, BasePart, Doomed, ArchiveTable, Without;
    var b := Base(s0, ds, dest).value;
    BaseListed(s0.remote, s.remote, ds, deleted, x, b);
    LedgerBase(s0.remote, s.remote, ds, deleted, x, b);
    LedgerHolds(s0.remote, AfterDestroy(s.remote, ds, {b}), ds, deleted + [b], Some(x));
  }

  lemma PreparedBase(s0: Stores, s: Stores, ds: string, dest: string, archive: string, table: seq<Renamed>, deleted: seq<string>)
    requires Wellformed(s0.remote) && Prepared(s0, s, ds, dest, archive, table, deleted)
    ensures deleted == Doomed(s0, ds, dest)
    ensures Base(s0, ds, dest).Some? ==> Base(s0, ds, dest).value !in deleted && s.local == s0.local
  {
    DoomedGo(s0, ds, dest);
  }

  lemma SnapFits(s: Stores, ds: string, name: string, dest: string, archive: string)
    requires Feasible(s, ds, name, dest, archive)
    ensures ds in s.remote && name !in Names(Drop(s.remote[ds], NameSet(Doomed(s, ds, dest))))
  {
  }

  lemma SnapLocal(s: Stores, ds: string, x: Snapshot)
    ensures AfterSnap(s, ds, x).local == s.local
  {
  }

  lemma ArchiveFits(dest: string, stamp: string)
    requires '@' !in dest && '@' !in stamp
    ensures '@' !in ArchiveName(dest, stamp) && IsArchive(dest, ArchiveName(dest, stamp))
  {
    assert ArchiveName(dest, stamp)[..|dest + "-arch-"|] == dest + "-arch-";
  }

  lemma LandedStart(s: Stores, ds: string, dest: string, archive: string)
    ensures forall x :: Landed(s, s.local, ds, x, dest, archive, Untouched, [])
  {
  }

  lemma UntouchedSafe(s: Stores, dest: string)
    requires Wellformed(s.local)
    ensures Safekept(s.local, s.local, dest) && Preserved(s.local, s.local, [])
  {
    HeldSelf(s.local);
    PreservedSelf(s.local);
  }

  lemma UntouchedLocal(s0: Stores, m: map<string, seq<Snapshot>>, ds: string, x: Snapshot, dest: string, archive: string, table: seq<Renamed>)
    requires Landed(s0, m, ds, x, dest, archive, Untouched, table)
    ensures m == s0.local
  {
  }

  lemma FeasibleSource(s: Stores, ds: string, name: string, dest: string, archive: string)
    requires Feasible(s, ds, name, dest, archive)
    ensures ds in s.remote
  {
  }

  lemma LandedAside(s: Stores, ds: string, dest: string, archive: string)
    requires Archives(s, ds, dest) && Vacant(s.local, archive)
    ensures forall x :: Landed(s, AfterArchive(s, dest, archive).local, ds, x, dest, archive, MovedAside,
                               RenameTable(dest, Listed(s.local[dest], PREFIX), archive))
  {
  }

  lemma BackedLanded(s0: Stores, s: Stores, ds: string, x: Snapshot, dest: string, archive: string, table: seq<Renamed>, deleted: seq<string>)
    requires Backed(s0, s, ds, x, dest, archive, table, deleted)
    ensures Landed(s0, s.local, ds, x, dest, archive, Received, table)
  {
  }

  /** When only setting readonly fails: the backup is there, and the next one archives it if and only if its snapshot on the
      source was destroyed or is not one of the listed kind. */
  lemma AfterReadonlyFailure(s0: Stores, s: Stores, ds: string, x: Snapshot, dest: string, archive: string, table: seq<Renamed>,
                             deleted: seq<string>, last: Option<Snapshot>)
    requires Wellformed(s0.remote) && ds in s0.remote && Base(s0, ds, dest).None?
    requires Landed(s0, s.local, ds, x, dest, archive, Received, table)
    requires deleted == Doomed(s0, ds, dest) && Ledger(s0.remote, s.remote, ds, deleted, last) && (last == None || last == Some(x))
    ensures dest in s.local && s.local[dest] == [x]
    ensures Archives(s, ds, dest) <==> last.None? || !(PREFIX <= x.name)
  {
    hide Listed, Doomed, Ledger, Wellformed, RenameTree, RenameTable;
    NoBasePart(s0.local, dest);
    assert [] + [x] == [x];
    DoomedIn(s0, ds, dest);
    LedgerListed(s0.remote, s.remote, ds, deleted, last);
    ListedSnoc([], x, PREFIX);
  }

  lemma DoomedIn(s: Stores, ds: string, dest: string)
    requires ds in s.remote && Wellformed(s.remote) && Base(s, ds, dest).None?
    ensures forall n :: n in Doomed(s, ds, dest) <==> n in Listed(s.remote[ds], PREFIX)
  {
    DoomedMembers(s, ds, dest);
  }

  // ---- what stays apart over a run ------------------------------------------------------------------------------

  lemma HeldTwice(m0: map<string, seq<Snapshot>>, m1: map<string, seq<Snapshot>>, m2: map<string, seq<Snapshot>>)
    requires Held(m0, m1) && Held(m1, m2)
    ensures Held(m0, m2)
  {
    forall d, x | d in m0 && x in m0[d] && PREFIX <= x.name ensures Holds(m2, x) {
      assert Holds(m1, x);
      var e :| e in m1 && x in m1[e];
    }
  }

  lemma NotBelowArchive(other: string, dest: string, stamp: string)
    requires !Below(other, dest) && '/' !in stamp
    ensures !Below(other, ArchiveName(dest, stamp))
  {
    var archive := ArchiveName(dest, stamp);
    TreeParts(other, archive);
    TreeParts(other, dest);
    var tail := "-arch-" + stamp;
    assert archive == dest + tail && '/' !in tail;
    if |other| < |dest| {
      assert archive[..|other|] == dest[..|other|] && archive[|other|] == dest[|other|];
    } else if |other| < |archive| {
      assert archive[|other|] == tail[|other| - |dest|];
    }
  }

  /** A run puts no backup below another destination. */
  lemma StaysUnnested(s0: Stores, m: map<string, seq<Snapshot>>, ds: string, x: Snapshot, dest: string, archive: string,
                      landing: Landing, table: seq<Renamed>, other: string)
    requires IsArchive(dest, archive) && Landed(s0, m, ds, x, dest, archive, landing, table)
    requires NoBackupBelow(s0.local, other) && NoBackupBelow(s0.local, dest) && !Below(other, dest) && !Below(other, archive)
    ensures NoBackupBelow(m, other)
  {
    hide Below, RenameTree, RenameTable, IsArchive, Vacant, BasePart, Base, Names, Listed, MovedTo, MovedFrom;
    if Archives(s0, ds, dest) && landing != Untouched {
      RenameTreeIs(s0.local, dest, archive);
      forall d, y | d in m && Below(other, d) && y in m[d] ensures !(PREFIX <= y.name) {
        assert d != dest && d in RenameTree(s0.local, dest, archive);
        var d0 := MovedFrom(dest, archive, d);
        TopMoves(dest, archive);
        if !InTree(dest, d0) {
          OutsideStays(dest, archive, d0);
        }
      }
    }
  }

  // ---- witnesses -------------------------------------------------------------------------------------------------

  const Nested: map<string, seq<Snapshot>> := map["z/b/a" := [Snapshot("is-1", 1)], "z/b/a/c" := [Snapshot("is-9", 9)]]

  lemma NestedIsSound()
    ensures Wellformed(Nested) && '@' !in "z/b/a-arch-5" && "z/b/a" in Nested
  {
  }

  lemma NestedFits()
    ensures Vacant(Nested, "z/b/a-arch-5") && IsArchive("z/b/a", "z/b/a-arch-5") && !NoBackupBelow(Nested, "z/b/a")
  {
    var dest, archive := "z/b/a", "z/b/a-arch-5";
    TreeParts(archive, "z/b/a");
    TreeParts(archive, "z/b/a/c");
    assert archive[5] == '-' && "z/b/a/c"[5] == '/';
    assert archive[..|dest + "-arch-"|] == dest + "-arch-";
    TreeParts(dest, "z/b/a/c");
    assert PREFIX == "is-" && "is-9"[..3] == "is-";
    assert "z/b/a/c" in Nested && Snapshot("is-9", 9) in Nested["z/b/a/c"] && Below(dest, "z/b/a/c");
  }

  /** A backup below an archived destination that no table finds. */
  lemma LostToTheTable() returns (m: map<string, seq<Snapshot>>, dest: string, archive: string)
    ensures Wellformed(m) && dest in m && Vacant(m, archive) && IsArchive(dest, archive)
    ensures !Preserved(m, RenameTree(m, dest, archive), RenameTable(dest, Listed(m[dest], PREFIX), archive))
  {
    hide *;
    m, dest, archive := Nested, "z/b/a", "z/b/a-arch-5";
    NestedIsSound();
    NestedFits();
    ArchivePreserves(m, dest, archive);
  }

  /** A first backup of which only setting readonly fails: it is there, reported as failed, and the next one will archive it. */
  lemma ReadonlyFails() returns (s0: Stores, x: Snapshot, s: Stores)
    ensures Feasible(s0, "z/v", x.name, "z/b/d", "z/b/d-arch-5")
    ensures var s1 := AfterRecv(AfterSnap(s0, "z/v", x), None, x, "z/b/d");
            && CanRecv(AfterSnap(s0, "z/v", x), "z/v", None, x, "z/b/d")
            && s == s1.(remote := AfterDestroy(s1.remote, "z/v", {x.name}))
    ensures s.remote == s0.remote && s.local == s0.local["z/b/d" := [x]] && Archives(s, "z/v", "z/b/d")
  {
    x := Snapshot("is-1", 1);
    s0 := Stores(map["z/b" := []], map["z/v" := []]);
    var s1 := AfterRecv(AfterSnap(s0, "z/v", x), None, x, "z/b/d");
    s := s1.(remote := AfterDestroy(s1.remote, "z/v", {x.name}));
    DropUndoesAppend([], x);
    NoBasePart(AfterSnap(s0, "z/v", x).local, "z/b/d");
    assert [] + [x] == [x];
    DepthOf();
    assert Listed([], PREFIX) == [];
    assert s.remote["z/v"] == [];
  }

  lemma DepthOf()
    ensures CountOf("z/b/d", '/') == 2 && ParentOf("z/b/d") == "z/b"
  {
    var s := "z/b/d";
    assert s[1..] == "/b/d" && "/b/d"[1..] == "b/d" && "b/d"[1..] == "/d" && "/d"[1..] == "d" && "d"[1..] == "";
    assert CountOf("d", '/') == 0 && CountOf("/d", '/') == 1 && CountOf("b/d", '/') == 1 && CountOf("/b/d", '/') == 2;
    assert s[..4] == "z/b/" && "z/b/"[..3] == "z/b";
    assert ParentOf("z/b/") == "z/b";
  }
}
