/** Deleting backups: ds_delete groups the requested snapshots by dataset, and destroys either the requested snapshots
    of a dataset or, if no backup would be left on it, the whole dataset with everything below it. */
module BackupDelete {
  import opened Options
  import opened Snapshots
  import opened ZfsNames
  import opened BackupSteps

  type Store = map<string, seq<Snapshot>>

  /** `zfs destroy -rRf c`. */
  function WithoutTree(m: Store, c: string): (r: Store) {
    map d | d in m && d != c && !Below(c, d) :: m[d]
  }

  /** The backups of a dataset that the request names. */
  function Hits(m: Store, d: string, snapshots: seq<string>): (r: set<string>) {
    if d in m then set n | n in Listed(m[d], PREFIX) && BuildSnapshot(d, n) in snapshots else {}
  }

  /** Every backup of the dataset is requested, and there is one. */
  predicate Collapses(m: Store, d: string, snapshots: seq<string>) {
    d in m && Hits(m, d, snapshots) != {} && forall n :: n in Listed(m[d], PREFIX) ==> n in Hits(m, d, snapshots)
  }

  ghost predicate Gone(m: Store, done: set<string>, snapshots: seq<string>, d: string) {
    exists c :: c in done && Collapses(m, c, snapshots) && (c == d || Below(c, d))
  }

  /** The state of the backup server after the datasets in `done` were dealt with. */
  ghost predicate Deleting(m0: Store, m: Store, done: set<string>, snapshots: seq<string>) {
    && (forall d :: d in m <==> d in m0 && !Gone(m0, done, snapshots, d))
    && forall d :: d in m ==> m[d] == if d in done then Drop(m0[d], Hits(m0, d, snapshots)) else m0[d]
  }

  /** What ds_delete reports after those datasets: whatever was requested of a dataset with a hit. */
  ghost predicate Reported(m0: Store, done: set<string>, snapshots: seq<string>, deleted: seq<string>) {
    forall s :: s in deleted <==> s in snapshots && SnapDataset(s) in done && Hits(m0, SnapDataset(s), snapshots) != {}
  }

  ghost predicate Present(m: Store, s: string) {
    exists d, x :: d in m && x in m[d] && s == BuildSnapshot(d, x.name)
  }

  // ---- steps ------------------------------------------------------------------------------------------------

  lemma DeletingStart(m: Store, snapshots: seq<string>)
    ensures Deleting(m, m, {}, snapshots) && Reported(m, {}, snapshots, [])
  {
  }

  lemma GoneSame(m0: Store, done: set<string>, snapshots: seq<string>, d: string)
    requires !Collapses(m0, d, snapshots)
    ensures forall e :: Gone(m0, done + {d}, snapshots, e) <==> Gone(m0, done, snapshots, e)
  {
    hide Collapses, Below;
    forall e ensures Gone(m0, done + {d}, snapshots, e) <==> Gone(m0, done, snapshots, e) {
      if Gone(m0, done, snapshots, e) {
        var c :| c in done && Collapses(m0, c, snapshots) && (c == e || Below(c, e));
        assert c in done + {d};
      }
    }
  }

  /** A dataset without any requested backup is left alone. */
  lemma DeletingSkip(m0: Store, m: Store, done: set<string>, snapshots: seq<string>, d: string, deleted: seq<string>)
    requires Deleting(m0, m, done, snapshots) && Reported(m0, done, snapshots, deleted) && Hits(m0, d, snapshots) == {}
    ensures Deleting(m0, m, done + {d}, snapshots) && Reported(m0, done + {d}, snapshots, deleted)
  {
    hide *;
    NoHitNoCollapse(m0, d, snapshots);
    DeletingNoHit(m0, m, done, snapshots, d);
    ReportedNoHit(m0, done, snapshots, d, deleted);
  }

  lemma DeletingNoHit(m0: Store, m: Store, done: set<string>, snapshots: seq<string>, d: string)
    requires Deleting(m0, m, done, snapshots) && Hits(m0, d, snapshots) == {} && !Collapses(m0, d, snapshots)
    ensures Deleting(m0, m, done + {d}, snapshots)
  {
    hide Collapses, Hits, Drop, Gone, Names;
    GoneSame(m0, done, snapshots, d);
    if d in m {
      DropNothing(m0[d], {});
    }
  }

  lemma ReportedNoHit(m0: Store, done: set<string>, snapshots: seq<string>, d: string, deleted: seq<string>)
    requires Reported(m0, done, snapshots, deleted) && Hits(m0, d, snapshots) == {}
    ensures Reported(m0, done + {d}, snapshots, deleted)
  {
    hide Hits, SnapDataset;
  }

  lemma NoHitNoCollapse(m: Store, d: string, snapshots: seq<string>)
    requires Hits(m, d, snapshots) == {}
    ensures !Collapses(m, d, snapshots)
  {
  }

  lemma DeletingKeep(m0: Store, m: Store, done: set<string>, snapshots: seq<string>, d: string)
    requires Deleting(m0, m, done, snapshots) && d in m && d !in done && !Collapses(m0, d, snapshots)
    ensures Deleting(m0, AfterDestroy(m, d, Hits(m0, d, snapshots)), done + {d}, snapshots)
  {
    hide Collapses, Hits, Drop, Gone;
    GoneSame(m0, done, snapshots, d);
  }

  lemma DeletingCollapse(m0: Store, m: Store, done: set<string>, snapshots: seq<string>, d: string)
    requires Deleting(m0, m, done, snapshots) && d in m && Collapses(m0, d, snapshots)
    ensures Deleting(m0, WithoutTree(m, d), done + {d}, snapshots)
  {
    hide Collapses, Hits, Below, Drop;
    var m1 := WithoutTree(m, d);
    assert forall e :: e in m1 <==> e in m && e != d && !Below(d, e);
    forall e ensures Gone(m0, done + {d}, snapshots, e) <==> Gone(m0, done, snapshots, e) || e == d || Below(d, e) {
      GoneMore(m0, done, snapshots, d, e);
    }
  }

  lemma GoneMore(m0: Store, done: set<string>, snapshots: seq<string>, d: string, e: string)
    requires Collapses(m0, d, snapshots)
    ensures Gone(m0, done + {d}, snapshots, e) <==> Gone(m0, done, snapshots, e) || e == d || Below(d, e)
  {
    hide Collapses, Below;
    if Gone(m0, done, snapshots, e) {
      var c :| c in done && Collapses(m0, c, snapshots) && (c == e || Below(c, e));
      assert c in done + {d};
    }
    if e == d || Below(d, e) {
      assert d in done + {d};
    }
  }

  lemma ReportedMore(m0: Store, done: set<string>, snapshots: seq<string>, deleted: seq<string>, d: string, group: seq<string>)
    requires Reported(m0, done, snapshots, deleted) && Hits(m0, d, snapshots) != {} && d !in done
    requires forall s :: s in group <==> s in snapshots && SnapDataset(s) == d
    ensures Reported(m0, done + {d}, snapshots, deleted + group)
  {
    hide Hits, SnapDataset;
  }

  // ---- what the operation promises ------------------------------------------------------------------------------

  /** No backup that was not asked for is lost. */
  ghost predicate NoneLost(m0: Store, m: Store, snapshots: seq<string>) {
    forall d, x :: d in m0 && x in m0[d] && PREFIX <= x.name && BuildSnapshot(d, x.name) !in snapshots ==> d in m && x in m[d]
  }

  /** No dataset that loses all its backups has a dataset below it with a backup that is not to be deleted. */
  ghost predicate NoOrphans(m0: Store, snapshots: seq<string>) {
    forall c, d, n :: Collapses(m0, c, snapshots) && Below(c, d) && d in m0 && n in Listed(m0[d], PREFIX) ==> BuildSnapshot(d, n) in snapshots
  }

  /** Nothing but requested backups is lost, and whole datasets go only with all their backups requested, provided no
      backups are kept below such a dataset. */
  lemma OnlyRequested(m0: Store, m: Store, done: set<string>, snapshots: seq<string>)
    requires Deleting(m0, m, done, snapshots) && NoOrphans(m0, snapshots)
    ensures NoneLost(m0, m, snapshots)
    ensures forall d :: d in m0 && d !in m ==> forall n :: n in Listed(m0[d], PREFIX) ==> BuildSnapshot(d, n) in snapshots
  {
    hide Below, Drop, Listed, Names;
    forall d, n | d in m0 && d !in m && n in Listed(m0[d], PREFIX) ensures BuildSnapshot(d, n) in snapshots {
      assert Gone(m0, done, snapshots, d);
      var c :| c in done && Collapses(m0, c, snapshots) && (c == d || Below(c, d));
    }
    forall d, x | d in m0 && x in m0[d] && PREFIX <= x.name && BuildSnapshot(d, x.name) !in snapshots ensures d in m && x in m[d] {
      InNames(m0[d], x);
      ListedMembers(m0[d], PREFIX);
      assert d in m;
      DropMembers(m0[d], Hits(m0, d, snapshots));
    }
  }

  /** The datasets that a request names. */
  function Datasets(snapshots: seq<string>): (r: set<string>) {
    set s | s in snapshots :: SnapDataset(s)
  }

  lemma CollapsesNamed(m: Store, d: string, snapshots: seq<string>)
    requires Wellformed(m) && Collapses(m, d, snapshots)
    ensures d in Datasets(snapshots)
  {
    var n :| n in Hits(m, d, snapshots);
    ListedMembers(m[d], PREFIX);
    var x :| x in m[d] && x.name == n;
    SnapshotRoundTrip(d, n, "");
  }

  /** The exact condition: a completed deletion loses an unrequested backup if and only if some backup lies below a
      dataset whose own backups are all requested. */
  lemma NoneLostExactly(m0: Store, m: Store, snapshots: seq<string>)
    requires Wellformed(m0) && Deleting(m0, m, Datasets(snapshots), snapshots)
    ensures NoneLost(m0, m, snapshots) <==> NoOrphans(m0, snapshots)
  {
    hide Collapses, Below, Listed, Hits, Drop, Wellformed, Datasets, Names;
    if NoOrphans(m0, snapshots) {
      OnlyRequested(m0, m, Datasets(snapshots), snapshots);
    } else {
      var c, d, n :| Collapses(m0, c, snapshots) && Below(c, d) && d in m0 && n in Listed(m0[d], PREFIX) && BuildSnapshot(d, n) !in snapshots;
      CollapsesNamed(m0, c, snapshots);
      assert Gone(m0, Datasets(snapshots), snapshots, d);
      var x := ListedSnapshot(m0[d], n);
    }
  }

  lemma ListedSnapshot(s: seq<Snapshot>, n: string) returns (x: Snapshot)
    requires n in Listed(s, PREFIX)
    ensures x in s && x.name == n && PREFIX <= n
  {
    ListedMembers(s, PREFIX);
    x :| x in s && x.name == n;
  }

  /** A completed deletion deletes every requested backup. */
  lemma RequestedAreGone(m0: Store, m: Store, snapshots: seq<string>, d: string, x: Snapshot)
    requires Wellformed(m0) && Deleting(m0, m, Datasets(snapshots), snapshots)
    requires d in m0 && x in m0[d] && PREFIX <= x.name && BuildSnapshot(d, x.name) in snapshots
    ensures d in m ==> x !in m[d]
  {
    SnapshotRoundTrip(d, x.name, "");
    assert d in Datasets(snapshots);
    InNames(m0[d], x);
    ListedMembers(m0[d], PREFIX);
    DropMembers(m0[d], Hits(m0, d, snapshots));
  }

  /** Datasets in none of whose snapshots anything is reported, and below none such, are as they were. */
  lemma OthersUntouched(m0: Store, m: Store, done: set<string>, snapshots: seq<string>, deleted: seq<string>, d: string)
    requires Wellformed(m0) && Deleting(m0, m, done, snapshots) && Reported(m0, done, snapshots, deleted) && d in m0
    requires forall s :: s in deleted ==> SnapDataset(s) != d && !Below(SnapDataset(s), d)
    ensures d in m && m[d] == m0[d]
  {
    if Gone(m0, done, snapshots, d) {
      var c :| c in done && Collapses(m0, c, snapshots) && (c == d || Below(c, d));
      HitIsReported(m0, done, snapshots, deleted, c);
    }
    if Hits(m0, d, snapshots) != {} && d in done {
      HitIsReported(m0, done, snapshots, deleted, d);
    }
    DropNothing(m0[d], {});
  }

  lemma HitIsReported(m0: Store, done: set<string>, snapshots: seq<string>, deleted: seq<string>, d: string)
    requires Wellformed(m0) && Reported(m0, done, snapshots, deleted) && d in done && Hits(m0, d, snapshots) != {}
    ensures exists s :: s in deleted && SnapDataset(s) == d
  {
    var n :| n in Hits(m0, d, snapshots);
    ListedMembers(m0[d], PREFIX);
    var x :| x in m0[d] && x.name == n;
    SnapshotRoundTrip(d, n, "");
    assert BuildSnapshot(d, n) in deleted;
  }

  /** A reported snapshot is absent afterwards exactly when it did not exist, or is a backup, or the request covers every
      backup of its dataset or of one above it that was dealt with, so that the dataset went as a whole. */
  lemma ReportedIsAbsent(m0: Store, m: Store, done: set<string>, snapshots: seq<string>, deleted: seq<string>, s: string)
    requires Wellformed(m0) && Deleting(m0, m, done, snapshots) && Reported(m0, done, snapshots, deleted) && s in deleted
    ensures !Present(m, s) <==> !Present(m0, s) || PREFIX <= SnapName(s) || Gone(m0, done, snapshots, SnapDataset(s))
  {
    forall d, x | d in m0 && x in m0[d] && s == BuildSnapshot(d, x.name)
      ensures SnapDataset(s) == d && SnapName(s) == x.name
    {
      SnapshotRoundTrip(d, x.name, "");
    }
    if Present(m, s) {
      var d, x :| d in m && x in m[d] && s == BuildSnapshot(d, x.name);
      DropMembers(m0[d], Hits(m0, d, snapshots));
      InNames(m0[d], x);
      ListedMembers(m0[d], PREFIX);
    } else if Present(m0, s) && SnapDataset(s) in m {
      var d, x :| d in m0 && x in m0[d] && s == BuildSnapshot(d, x.name);
      DropMembers(m0[d], Hits(m0, d, snapshots));
      assert x !in m[d];
      ListedMembers(m0[d], PREFIX);
    }
  }

  // ---- what the operation computes ----------------------------------------------------------------------------

  /** The requested snapshots of one dataset, in their order. */
  function Group(snapshots: seq<string>, d: string): (r: seq<string>) {
    if snapshots == [] then []
    else
      var s := snapshots[|snapshots| - 1];
      Group(snapshots[..|snapshots| - 1], d) + if SnapDataset(s) == d then [s] else []
  }

  lemma {:induction false} GroupMembers(snapshots: seq<string>, d: string)
    ensures forall s :: s in Group(snapshots, d) <==> s in snapshots && SnapDataset(s) == d
  {
    if snapshots != [] {
      GroupMembers(snapshots[..|snapshots| - 1], d);
      assert snapshots == snapshots[..|snapshots| - 1] + [snapshots[|snapshots| - 1]];
    }
  }

  ghost predicate Grouped(snapshots: seq<string>, groups: map<string, seq<string>>) {
    groups.Keys == Datasets(snapshots) && forall d :: d in groups ==> groups[d] == Group(snapshots, d)
  }

  lemma GroupedStart()
    ensures Grouped([], map[])
  {
  }

  lemma NoGroup(snapshots: seq<string>, d: string)
    requires d !in Datasets(snapshots)
    ensures Group(snapshots, d) == []
  {
    GroupMembers(snapshots, d);
    assert Group(snapshots, d) != [] ==> Group(snapshots, d)[0] in Group(snapshots, d);
  }

  lemma GroupedStep(snapshots: seq<string>, groups: map<string, seq<string>>, s: string)
    requires Grouped(snapshots, groups)
    ensures var d := SnapDataset(s);
            Grouped(snapshots + [s], groups[d := (if d in groups then groups[d] else []) + [s]])
  {
    hide SnapDataset;
    var d := SnapDataset(s);
    var more := snapshots + [s];
    assert more[..|more| - 1] == snapshots;
    assert Datasets(more) == Datasets(snapshots) + {d};
    if d !in groups {
      NoGroup(snapshots, d);
    }
  }

  /** The full names of the backups on a dataset. */
  function Current(m: Store, d: string): (r: set<string>) {
    if d in m then set n | n in Listed(m[d], PREFIX) :: BuildSnapshot(d, n) else {}
  }

  ghost predicate AllListed(m: Store, current: map<string, set<string>>) {
    forall d :: d in current ==> d in m && current[d] == Current(m, d)
  }

  lemma AllListedStart(m: Store)
    ensures AllListed(m, map[])
  {
  }

  lemma AllListedStep(m: Store, current: map<string, set<string>>, d: string)
    requires AllListed(m, current) && d in m
    ensures AllListed(m, current[d := Current(m, d)])
  {
  }

  /** The names of the requested snapshots that are there. */
  function Chosen(group: seq<string>, current: set<string>): (r: set<string>) {
    set s | s in group && s in current :: SnapName(s)
  }

  /** Choosing by full names among the current ones is choosing the hits; something is left exactly if the dataset
      does not collapse. */
  lemma ChosenAreHits(m: Store, d: string, snapshots: seq<string>, group: seq<string>, current: set<string>)
    requires Wellformed(m) && d in m && current == Current(m, d)
    requires forall s :: s in group <==> s in snapshots && SnapDataset(s) == d
    ensures Chosen(group, current) == Hits(m, d, snapshots)
    ensures Hits(m, d, snapshots) != {} ==> (Collapses(m, d, snapshots) <==> current - NameSet(group) == {})
  {
    var names := Listed(m[d], PREFIX);
    forall n | n in names
      ensures SnapName(BuildSnapshot(d, n)) == n && SnapDataset(BuildSnapshot(d, n)) == d
    {
      var x := ListedSnapshot(m[d], n);
      SnapshotRoundTrip(d, n, "");
    }
    var chosen := Chosen(group, current);
    forall n | n in Hits(m, d, snapshots) ensures n in chosen {
      assert BuildSnapshot(d, n) in group && BuildSnapshot(d, n) in current;
    }
    var left := current - NameSet(group);
    if left != {} {
      var s :| s in left;
    } else {
      forall n | n in names ensures n in Hits(m, d, snapshots) {
        assert BuildSnapshot(d, n) in current && BuildSnapshot(d, n) !in left;
      }
    }
  }

  lemma GroupedKeys(snapshots: seq<string>, groups: map<string, seq<string>>)
    requires Grouped(snapshots, groups)
    ensures groups.Keys == Datasets(snapshots)
  {
  }

  lemma GroupedOf(snapshots: seq<string>, groups: map<string, seq<string>>, d: string)
    requires Grouped(snapshots, groups) && d in groups
    ensures groups[d] == Group(snapshots, d)
  {
  }

  lemma ListedExist(m: Store, current: map<string, set<string>>)
    requires AllListed(m, current)
    ensures current.Keys <= m.Keys
  {
  }

  lemma ListedOf(m: Store, current: map<string, set<string>>, d: string)
    requires AllListed(m, current) && d in current
    ensures d in m && current[d] == Current(m, d)
  {
  }

  /** No requested dataset with a backup to delete lies below a requested dataset that goes as a whole. */
  ghost predicate Orderly(m: Store, snapshots: seq<string>) {
    forall c, d :: c in Datasets(snapshots) && d in Datasets(snapshots) && Collapses(m, c, snapshots) && Hits(m, d, snapshots) != {}
      ==> !Below(c, d)
  }

  /** A dataset that was not dealt with yet can be. */
  lemma StillThere(m0: Store, m: Store, done: set<string>, snapshots: seq<string>, d: string)
    requires Orderly(m0, snapshots) && done <= Datasets(snapshots) && d in Datasets(snapshots)
    requires Deleting(m0, m, done, snapshots) && d in m0 && d !in done && Hits(m0, d, snapshots) != {}
    ensures d in m && CanDestroy(m, d, Hits(m0, d, snapshots))
  {
    hide Drop, Below, Collapses, Listed;
    HitIsName(m0, d, snapshots);
    assert !Gone(m0, done, snapshots, d);
    assert m[d] == m0[d];
  }

  lemma HitIsName(m: Store, d: string, snapshots: seq<string>)
    requires d in m && Hits(m, d, snapshots) != {}
    ensures Hits(m, d, snapshots) * Names(m[d]) != {}
  {
    var n :| n in Hits(m, d, snapshots);
    ListedMembers(m[d], PREFIX);
    assert n in Hits(m, d, snapshots) * Names(m[d]);
  }

  /** Where a request is not orderly, dealing with the upper dataset first leaves nothing to destroy of the lower one. */
  lemma DisorderRefused(m0: Store, m: Store, done: set<string>, snapshots: seq<string>, c: string, d: string)
    requires Deleting(m0, m, done, snapshots) && c in done && Collapses(m0, c, snapshots) && Below(c, d)
    ensures !CanDestroy(m, d, Hits(m0, d, snapshots)) && d !in m
  {
    assert Gone(m0, done, snapshots, d);
  }

  /** A request for snapshots of one dataset is always orderly, wherever the dataset lies. */
  lemma OneDatasetOrderly(m: Store, snapshots: seq<string>, d: string)
    requires Datasets(snapshots) == {d}
    ensures Orderly(m, snapshots)
  {
    TreeParts(d, d);
  }

  /** Deleting the only backup of a dataset takes an unrequested backup below it. */
  lemma LostBelow() returns (m0: Store, m: Store, request: seq<string>)
    ensures Wellformed(m0) && Deleting(m0, m, Datasets(request), request) && !NoneLost(m0, m, request)
  {
    hide *;
    m0, request := Nested, ["z/b/a@is-1"];
    NestedIsSound();
    OneDataset(request);
    NestedCollapses(request);
    NestedOrphan(request);
    DeletingStart(m0, request);
    DeletingCollapse(m0, m0, {}, request, "z/b/a");
    assert {} + {"z/b/a"} == {"z/b/a"};
    m := WithoutTree(m0, "z/b/a");
    NoneLostExactly(m0, m, request);
  }

  lemma OneDataset(request: seq<string>)
    requires request == ["z/b/a@is-1"]
    ensures Datasets(request) == {"z/b/a"} && BuildSnapshot("z/b/a", "is-1") == request[0]
  {
    hide SnapDataset, SnapName, SwitchDataset;
    assert BuildSnapshot("z/b/a", "is-1") == "z/b/a@is-1";
    SnapshotRoundTrip("z/b/a", "is-1", "");
    assert request[0] in request;
  }

  lemma NestedCollapses(request: seq<string>)
    requires request == ["z/b/a@is-1"]
    ensures "z/b/a" in Nested && Collapses(Nested, "z/b/a", request)
  {
    OneDataset(request);
    var l := [Snapshot("is-1", 1)];
    ListedMembers(l, PREFIX);
    assert PREFIX == "is-" && "is-1"[..3] == "is-" && l[0] in l;
    assert "is-1" in Hits(Nested, "z/b/a", request);
  }

  lemma NestedOrphan(request: seq<string>)
    requires request == ["z/b/a@is-1"]
    ensures !NoOrphans(Nested, request)
  {
    hide Collapses;
    NestedCollapses(request);
    TreeParts("z/b/a", "z/b/a/c");
    var l := [Snapshot("is-9", 9)];
    ListedMembers(l, PREFIX);
    assert PREFIX == "is-" && "is-9"[..3] == "is-" && l[0] in l;
    assert |BuildSnapshot("z/b/a/c", "is-9")| != |request[0]|;
    assert Below("z/b/a", "z/b/a/c") && "z/b/a/c" in Nested && "is-9" in Listed(Nested["z/b/a/c"], PREFIX);
  }

  const Example: seq<Snapshot> := [Snapshot("is-1", 1), Snapshot("is-2", 2), Snapshot("manual", 3)]

  lemma ExampleListed()
    ensures "is-1" in Listed(Example, PREFIX) && "is-2" in Listed(Example, PREFIX)
  {
    ListedMembers(Example, PREFIX);
    assert PREFIX == "is-" && "is-1"[..3] == "is-" && "is-2"[..3] == "is-";
    assert Example[0] in Example && Example[1] in Example;
  }

  lemma ExampleHits(m: Store, request: seq<string>)
    requires m == map["z/b" := Example] && request == ["z/b@is-1", "z/b@manual"]
    ensures "is-1" in Hits(m, "z/b", request) && "manual" !in Hits(m, "z/b", request) && !Collapses(m, "z/b", request)
  {
    ExampleListed();
    ListedMembers(Example, PREFIX);
    assert PREFIX == "is-" && "manual"[0] != PREFIX[0];
    var other := BuildSnapshot("z/b", "is-2");
    assert BuildSnapshot("z/b", "is-1") == request[0] && other[7] != request[0][7] && other[5] != request[1][5];
  }

  /** Deleting one backup and naming a manual snapshot beside it: the manual one stays and is reported all the same. */
  lemma ReportedButPresent() returns (m0: Store, m: Store, request: seq<string>)
    ensures "z/b@manual" in request
    ensures Deleting(m0, m, {"z/b"}, request) && Reported(m0, {"z/b"}, request, request) && Present(m, "z/b@manual")
  {
    hide *;
    m0, request := map["z/b" := Example], ["z/b@is-1", "z/b@manual"];
    ExampleHits(m0, request);
    DeletingStart(m0, request);
    DeletingKeep(m0, m0, {}, request, "z/b");
    m := AfterDestroy(m0, "z/b", Hits(m0, "z/b", request));
    ExamplePresent(m0, Hits(m0, "z/b", request));
    assert {} + {"z/b"} == {"z/b"};
    forall s | s in request ensures SnapDataset(s) == "z/b" {
      ExampleDataset();
    }
    ReportedMore(m0, {}, request, [], "z/b", request);
    assert [] + request == request;
  }

  lemma ExampleDataset()
    ensures SnapDataset("z/b@is-1") == "z/b" && SnapDataset("z/b@manual") == "z/b"
  {
    hide SnapDataset, SnapName, SwitchDataset;
    assert BuildSnapshot("z/b", "is-1") == "z/b@is-1" && BuildSnapshot("z/b", "manual") == "z/b@manual";
    SnapshotRoundTrip("z/b", "is-1", "");
    SnapshotRoundTrip("z/b", "manual", "");
  }

  lemma ExamplePresent(m: Store, names: set<string>)
    requires m == map["z/b" := Example] && "manual" !in names
    ensures Present(AfterDestroy(m, "z/b", names), "z/b@manual")
  {
    var m1 := AfterDestroy(m, "z/b", names);
    DropMembers(Example, names);
    assert Example[2] in Example;
    assert "z/b" in m1 && Snapshot("manual", 3) in m1["z/b"] && "z/b@manual" == BuildSnapshot("z/b", "manual");
  }
}
