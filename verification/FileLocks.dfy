/** The lock-file decorator: any number of processes run a locked operation; each existence check, exclusive creation,
    close and removal is a step of its own. */
module FileLocks {

  datatype Phase =
    | Polling     // in acquire(), before the existence check
    | Creating    // the file was not there; the exclusive creation comes next
    | Inside      // the file is created; the decorated operation runs
    | Leaving     // release() has seen the file and its own descriptor; the close comes next
    | Closed      // the descriptor is closed; the removal comes next
    | TimedOut    // acquire() gave up; the operation did not run
    | Broken      // release() found no file, or the removal failed
    | Done

  datatype Process = Process(path: string, phase: Phase)

  datatype State = State(files: set<string>, processes: map<nat, Process>)

  datatype Event =
    | Enter(pid: nat, path: string)
    | Advance(pid: nat)
    | GiveUp(pid: nat)     // the timeout of acquire() has passed

  /** Between the creation and the removal of the lock file. */
  predicate Owns(p: Phase) {
    p in {Inside, Leaving, Closed}
  }

  function At(s: State, pid: nat, p: Phase): (r: State)
    requires pid in s.processes
  {
    s.(processes := s.processes[pid := s.processes[pid].(phase := p)])
  }

  function Advanced(s: State, pid: nat): (r: State)
    requires pid in s.processes
  {
    var path := s.processes[pid].path;
    match s.processes[pid].phase
    case Polling => if path in s.files then s else At(s, pid, Creating)
    case Creating => if path in s.files then At(s, pid, Polling) else At(s, pid, Inside).(files := s.files + {path})
    case Inside => if path in s.files then At(s, pid, Leaving) else At(s, pid, Broken)
    case Leaving => At(s, pid, Closed)
    case Closed => if path in s.files then At(s, pid, Done).(files := s.files - {path}) else At(s, pid, Broken)
    case _ => s
  }

  function Step(s: State, e: Event): (r: State) {
    match e
    case Enter(pid, path) => if pid in s.processes then s else s.(processes := s.processes[pid := Process(path, Polling)])
    case Advance(pid) => if pid in s.processes then Advanced(s, pid) else s
    case GiveUp(pid) =>
      if pid in s.processes && s.processes[pid].phase == Polling then At(s, pid, TimedOut) else s
  }

  function Run(s: State, events: seq<Event>): (r: State) {
    if events == [] then s else Step(Run(s, events[..|events| - 1]), events[|events| - 1])
  }

  /** A lock file has an owner, an owner has its lock file to itself, and nobody fails to release. */
  ghost predicate Inv(s: State) {
    && (forall f :: f in s.files ==> exists p :: Owner(s, p, f))
    && (forall p :: p in s.processes && Owns(s.processes[p].phase) ==> s.processes[p].path in s.files)
    && (forall p, q, f :: Owner(s, p, f) && Owner(s, q, f) ==> p == q)
    && (forall p :: p in s.processes ==> s.processes[p].phase != Broken)
  }

  ghost predicate Owner(s: State, p: nat, f: string) {
    p in s.processes && s.processes[p].path == f && Owns(s.processes[p].phase)
  }

  lemma MoveKeeps(s: State, pid: nat, p: Phase)
    requires Inv(s) && pid in s.processes && Owns(p) == Owns(s.processes[pid].phase) && p != Broken
    ensures Inv(At(s, pid, p))
  {
    var s1 := At(s, pid, p);
    assert forall q, f :: Owner(s1, q, f) <==> Owner(s, q, f);
  }

  lemma CreateKeeps(s: State, pid: nat)
    requires Inv(s) && pid in s.processes && !Owns(s.processes[pid].phase) && s.processes[pid].path !in s.files
    ensures Inv(At(s, pid, Inside).(files := s.files + {s.processes[pid].path}))
  {
    var path := s.processes[pid].path;
    var s1 := At(s, pid, Inside).(files := s.files + {path});
    assert forall q, f :: Owner(s1, q, f) <==> Owner(s, q, f) || (q == pid && f == path);
    assert forall q :: !Owner(s, q, path);
    assert Owner(s1, pid, path);
    forall f | f in s1.files ensures exists q :: Owner(s1, q, f) {
      if f != path {
        var q :| Owner(s, q, f);
        assert Owner(s1, q, f);
      }
    }
  }

  lemma RemoveKeeps(s: State, pid: nat)
    requires Inv(s) && pid in s.processes && s.processes[pid].phase == Closed
    ensures Inv(At(s, pid, Done).(files := s.files - {s.processes[pid].path}))
  {
    var path := s.processes[pid].path;
    var s1 := At(s, pid, Done).(files := s.files - {path});
    assert Owner(s, pid, path);
    assert forall q, f :: Owner(s1, q, f) <==> Owner(s, q, f) && q != pid;
    forall q | q in s1.processes && Owns(s1.processes[q].phase) ensures s1.processes[q].path in s1.files {
      assert Owner(s, q, s.processes[q].path);
    }
  }

  lemma EnterKeeps(s: State, pid: nat, path: string)
    requires Inv(s) && pid !in s.processes
    ensures Inv(s.(processes := s.processes[pid := Process(path, Polling)]))
  {
    var s1 := s.(processes := s.processes[pid := Process(path, Polling)]);
    assert forall q, f :: Owner(s1, q, f) <==> Owner(s, q, f);
  }

  lemma StepKeeps(s: State, e: Event)
    requires Inv(s)
    ensures Inv(Step(s, e))
  {
    match e
    case Enter(pid, path) => if pid !in s.processes { EnterKeeps(s, pid, path); }
    case Advance(pid) =>
      if pid in s.processes {
        match s.processes[pid].phase
        case Polling => MoveKeeps(s, pid, Creating);
        case Creating =>
          if s.processes[pid].path in s.files { MoveKeeps(s, pid, Polling); } else { CreateKeeps(s, pid); }
        case Inside => MoveKeeps(s, pid, Leaving);
        case Leaving => MoveKeeps(s, pid, Closed);
        case Closed => RemoveKeeps(s, pid);
        case _ =>
      }
    case GiveUp(pid) =>
      if pid in s.processes && s.processes[pid].phase == Polling { MoveKeeps(s, pid, TimedOut); }
  }

  lemma {:induction false} RunKeeps(events: seq<Event>)
    ensures Inv(Run(State({}, map[]), events))
  {
    if events != [] {
      RunKeeps(events[..|events| - 1]);
      StepKeeps(Run(State({}, map[]), events[..|events| - 1]), events[|events| - 1]);
    }
  }

  /** In every run, two decorated operations on the same path never overlap. */
  lemma NeverOverlap(events: seq<Event>, p: nat, q: nat)
    requires var s := Run(State({}, map[]), events);
             p in s.processes && q in s.processes && p != q && Owns(s.processes[p].phase) && Owns(s.processes[q].phase)
    ensures var s := Run(State({}, map[]), events);
            s.processes[p].path != s.processes[q].path
  {
    RunKeeps(events);
    var s := Run(State({}, map[]), events);
    assert Owner(s, p, s.processes[p].path) && Owner(s, q, s.processes[q].path);
  }

  /** In every run, the lock file exists exactly while one process is between its creation and its removal. */
  lemma FileExistsExactly(events: seq<Event>, f: string)
    ensures var s := Run(State({}, map[]), events);
            f in s.files <==> exists p :: Owner(s, p, f)
  {
    RunKeeps(events);
  }

  /** In every run, a process that has got the lock is never refused its release. */
  lemma ReleaseSucceeds(events: seq<Event>, p: nat)
    requires var s := Run(State({}, map[]), events);
             p in s.processes && Owns(s.processes[p].phase)
    ensures var s := Run(State({}, map[]), events);
            Advanced(s, p).processes == At(s, p, match s.processes[p].phase case Inside => Leaving case Leaving => Closed case _ => Done).processes
  {
    RunKeeps(events);
  }

  // ---- the lock is taken and given back --------------------------------------------------------------------------

  ghost predicate Reachable(s: State) {
    exists events :: Run(State({}, map[]), events) == s
  }

  lemma ReachableInv(s: State)
    requires Reachable(s)
    ensures Inv(s)
  {
    var events :| Run(State({}, map[]), events) == s;
    RunKeeps(events);
  }

  lemma RunSnoc(s: State, events: seq<Event>, e: Event)
    ensures Run(s, events + [e]) == Step(Run(s, events), e)
  {
    assert (events + [e])[..|events|] == events;
  }

  lemma RunThree(s: State, a: Event, b: Event, c: Event)
    ensures Run(s, [a, b, c]) == Step(Step(Step(s, a), b), c)
  {
    assert Run(s, []) == s;
    RunSnoc(s, [], a);
    RunSnoc(s, [a], b);
    RunSnoc(s, [a, b], c);
    assert [] + [a] == [a] && [a] + [b] == [a, b] && [a, b] + [c] == [a, b, c];
  }

  /** A process that finds the lock free takes it with its exclusive creation. */
  lemma FreeLockIsTaken(s: State, p: nat, path: string)
    requires Reachable(s) && path !in s.files && p !in s.processes
    ensures var r := Run(s, [Enter(p, path), Advance(p), Advance(p)]);
            r.files == s.files + {path} && r.processes == s.processes[p := Process(path, Inside)] && Owner(r, p, path)
  {
    RunThree(s, Enter(p, path), Advance(p), Advance(p));
    var s1 := Step(s, Enter(p, path));
    assert s1.processes[p] == Process(path, Polling);
    var s2 := Step(s1, Advance(p));
    assert s2.processes[p] == Process(path, Creating) && s2.files == s.files;
    assert s.processes[p := Process(path, Polling)][p := Process(path, Creating)][p := Process(path, Inside)] == s.processes[p := Process(path, Inside)];
  }

  /** A process inside gives the lock back with its next three steps. */
  lemma LockIsGivenBack(s: State, p: nat)
    requires Reachable(s) && p in s.processes && s.processes[p].phase == Inside
    ensures var r := Run(s, [Advance(p), Advance(p), Advance(p)]);
            r.files == s.files - {s.processes[p].path} && p in r.processes && r.processes[p].phase == Done
  {
    ReachableInv(s);
    RunThree(s, Advance(p), Advance(p), Advance(p));
    var s1 := Step(s, Advance(p));
    assert s1.processes[p].phase == Leaving && s1.files == s.files;
    var s2 := Step(s1, Advance(p));
    assert s2.processes[p].phase == Closed && s2.files == s.files && s2.processes[p].path == s.processes[p].path;
  }

  /** Of two processes that have both found the lock free, the first to go on gets it, and the other has to poll again. */
  lemma FirstComesFirst(s: State, p: nat, q: nat)
    requires Reachable(s) && p in s.processes && q in s.processes && p != q
    requires s.processes[p].phase == Creating && s.processes[q] == s.processes[p] && s.processes[p].path !in s.files
    ensures var s1 := Step(s, Advance(p));
            var s2 := Step(s1, Advance(q));
            Owner(s1, p, s.processes[p].path) && Owner(s2, p, s.processes[p].path) && s2.processes[q].phase == Polling && s2.files == s1.files
  {
  }

  /** While the lock is taken, a process that polls stays where it is, and may give up without having touched anything. */
  lemma TakenLockWaits(s: State, p: nat)
    requires p in s.processes && s.processes[p].phase == Polling && s.processes[p].path in s.files
    ensures Step(s, Advance(p)) == s
    ensures Step(s, GiveUp(p)).files == s.files && Step(s, GiveUp(p)).processes == s.processes[p := s.processes[p].(phase := TimedOut)]
  {
  }
}
