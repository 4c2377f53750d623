/** The life of locked tasks: a submitter takes the lock and sends the task, a worker runs and releases it or puts it
    back while it is blocked, and a revocation releases the lock of a task that never ran.  Every redis command is a
    step of its own, so that the steps of all submitters, workers and revocations interleave freely. */
module TaskProtocol {
  import opened Options
  import opened TaskLocks

  datatype Phase =
    | Fresh                        // execute() has made the task ID
    | Refused                      // the lock was taken
    | Locked                       // the lock is set, the reverse key is not yet
    | Ready                        // both are set, the task is not sent yet
    | Queued                       // sent, or put back by a retry
    | Started                      // a worker has passed the lock check
    | Running
    | Releasing                    // delete() without a value check comes next
    | Unlinking                    // the lock is deleted, the reverse key comes next
    | RevokeGot(key: string)       // the cleanup of a revoked task has read the reverse key
    | RevokeChecked(key: string)   // ... and has found the task ID as the value of the lock
    | Abandoned                    // revoked without cleanup, because the owner is internal
    | Done

  datatype Task = Task(lock: Option<string>, block: Option<string>, internalOwner: bool, phase: Phase)

  /** `locks` are the lock keys in use in the system. */
  datatype State = State(locks: set<string>, redis: map<string, string>, tasks: map<string, Task>)

  datatype Event =
    | Create(tid: string, lock: Option<string>, block: Option<string>, internalOwner: bool)
    | Advance(tid: string)    // the next command of the process that works on the task
    | Fail(tid: string)       // the task cannot be sent, or its user-task check or its command raises
    | Revoke(tid: string)     // a queued task is revoked or has expired
    | Other(key: string, value: Option<string>)   // anything else that uses redis

  predicate Holds(p: Phase) {
    p in {Locked, Ready, Queued, Started, Running, Releasing, Abandoned} || p.RevokeGot? || p.RevokeChecked?
  }

  /** The reverse key is set. */
  predicate Linked(p: Phase) {
    p == Unlinking || (Holds(p) && p != Locked)
  }

  predicate Final(p: Phase) {
    p in {Refused, Abandoned, Done}
  }

  function At(s: State, t: string, p: Phase): (r: State)
    requires t in s.tasks
  {
    s.(tasks := s.tasks[t := s.tasks[t].(phase := p)])
  }

  /** What `finally: task_lock.delete()` does first: a task without a lock has nothing to release. */
  function ToRelease(s: State, t: string): (r: State)
    requires t in s.tasks
  {
    At(s, t, if s.tasks[t].lock.Some? then Releasing else Done)
  }

  /** Deleting a key; the reverse key is next if it was there. */
  function DeleteKey(s: State, t: string, key: string): (r: State)
    requires t in s.tasks
  {
    if key in s.redis then At(s, t, Unlinking).(redis := s.redis - {key}) else At(s, t, Done)
  }

  function Advanced(s: State, t: string): (r: State)
    requires t in s.tasks
  {
    var task := s.tasks[t];
    match task.phase
    case Fresh =>
      if task.lock.None? then At(s, t, Ready)
      else if task.lock.value in s.redis then At(s, t, Refused)
      else At(s, t, Locked).(redis := s.redis[task.lock.value := t])
    case Locked =>
      if task.lock.Some? then At(s, t, Ready).(redis := s.redis[ReverseKey(t) := task.lock.value]) else s
    case Ready => At(s, t, Queued)
    case Queued =>
      if task.lock.Some? && task.lock.value !in s.redis then ToRelease(s, t) else At(s, t, Started)
    case Started =>
      if task.block.Some? && task.block.value in s.redis then At(s, t, Queued) else At(s, t, Running)
    case Running => ToRelease(s, t)
    case Releasing => if task.lock.Some? then DeleteKey(s, t, task.lock.value) else s
    case Unlinking => At(s, t, Done).(redis := s.redis - {ReverseKey(t)})
    case RevokeGot(key) =>
      if key in s.redis && s.redis[key] == t then At(s, t, RevokeChecked(key)) else At(s, t, Done)
    case RevokeChecked(key) => DeleteKey(s, t, key)
    case _ => s
  }

  function Failed(s: State, t: string): (r: State)
    requires t in s.tasks
  {
    if s.tasks[t].phase in {Ready, Queued, Started, Running} then ToRelease(s, t) else s
  }

  /** `log_task_callback` of a task that no worker has started. */
  function Revoked(s: State, t: string): (r: State)
    requires t in s.tasks
  {
    var task := s.tasks[t];
    if task.phase != Queued then s
    else if task.internalOwner then At(s, t, if task.lock.Some? then Abandoned else Done)
    else if ReverseKey(t) in s.redis then At(s, t, RevokeGot(s.redis[ReverseKey(t)]))
    else At(s, t, Done)
  }

  ghost predicate Foreign(s: State, key: string) {
    key !in s.locks && forall t :: key != ReverseKey(t)
  }

  ghost function Step(s: State, e: Event): (r: State) {
    match e
    case Create(t, lock, block, internalOwner) =>
      if t !in s.tasks && (lock.Some? ==> lock.value in s.locks)
      then s.(tasks := s.tasks[t := Task(lock, block, internalOwner, Fresh)]) else s
    case Advance(t) => if t in s.tasks then Advanced(s, t) else s
    case Fail(t) => if t in s.tasks then Failed(s, t) else s
    case Revoke(t) => if t in s.tasks then Revoked(s, t) else s
    case Other(key, value) =>
      if !Foreign(s, key) then s
      else if value.Some? then s.(redis := s.redis[key := value.value]) else s.(redis := s.redis - {key})
  }

  ghost function Run(s: State, events: seq<Event>): (r: State) {
    if events == [] then s else Step(Run(s, events[..|events| - 1]), events[|events| - 1])
  }

  // ---- the invariant ---------------------------------------------------------------------------------------

  ghost predicate TaskSound(s: State, t: string)
    requires t in s.tasks
  {
    var task := s.tasks[t];
    && (task.lock.None? ==> !Holds(task.phase) || task.phase in {Ready, Queued, Started, Running})
    && (task.phase == Abandoned ==> task.internalOwner)
    && (task.phase == Unlinking ==> task.lock.Some?)
    && (task.lock.Some? ==>
          && task.lock.value in s.locks
          && (Holds(task.phase) ==> task.lock.value in s.redis && s.redis[task.lock.value] == t)
          && (task.phase.RevokeGot? || task.phase.RevokeChecked? ==> task.phase.key == task.lock.value)
          && (Linked(task.phase) ==> ReverseKey(t) in s.redis && s.redis[ReverseKey(t)] == task.lock.value))
  }

  /** A lock key in redis belongs to a task that holds it. */
  ghost predicate LockSound(s: State, l: string) {
    l in s.redis ==>
      && s.redis[l] in s.tasks && s.tasks[s.redis[l]].lock == Some(l) && Holds(s.tasks[s.redis[l]].phase)
  }

  /** A reverse key in redis belongs to a task with a lock that still needs it. */
  ghost predicate ReverseSound(s: State, t: string) {
    ReverseKey(t) in s.redis ==> t in s.tasks && s.tasks[t].lock.Some? && Linked(s.tasks[t].phase)
  }

  ghost predicate Inv(s: State) {
    && (forall l, t :: l in s.locks ==> l != ReverseKey(t))
    && (forall t :: t in s.tasks ==> TaskSound(s, t))
    && (forall l :: l in s.locks ==> LockSound(s, l))
    && (forall t :: ReverseSound(s, t))
  }

  /** No lock key is named like a reverse key, and redis holds none of either kind. */
  ghost predicate Initial(s: State) {
    && s.tasks == map[] && (forall l, t :: l in s.locks ==> l != ReverseKey(t))
    && (forall l :: l in s.locks ==> l !in s.redis) && (forall t :: ReverseKey(t) !in s.redis)
  }

  // ---- steps keep it ---------------------------------------------------------------------------------------

  lemma MoveKeeps(s: State, t: string, p: Phase)
    requires Inv(s) && t in s.tasks
    requires s.tasks[t].lock.Some? ==> Holds(p) == Holds(s.tasks[t].phase) && Linked(p) == Linked(s.tasks[t].phase)
    requires s.tasks[t].lock.None? ==> p in {Ready, Queued, Started, Running, Done}
    requires p.RevokeGot? || p.RevokeChecked? ==> s.tasks[t].lock == Some(p.key)
    requires p == Abandoned ==> s.tasks[t].internalOwner
    ensures Inv(At(s, t, p))
  {
    var s1 := At(s, t, p);
    forall u | u in s1.tasks ensures TaskSound(s1, u) { assert TaskSound(s, u); }
    forall l | l in s1.locks ensures LockSound(s1, l) { assert LockSound(s, l); }
    forall u ensures ReverseSound(s1, u) { assert ReverseSound(s, u); }
  }

  lemma LockKeeps(s: State, t: string)
    requires Inv(s) && t in s.tasks && s.tasks[t].phase == Fresh && s.tasks[t].lock.Some? && s.tasks[t].lock.value !in s.redis
    ensures Inv(At(s, t, Locked).(redis := s.redis[s.tasks[t].lock.value := t]))
  {
    var l := s.tasks[t].lock.value;
    var s1 := At(s, t, Locked).(redis := s.redis[l := t]);
    assert TaskSound(s, t);
    forall u | u in s1.tasks ensures TaskSound(s1, u) { assert TaskSound(s, u); }
    forall k | k in s1.locks ensures LockSound(s1, k) { assert LockSound(s, k); }
    forall u ensures ReverseSound(s1, u) { assert ReverseSound(s, u); }
  }

  lemma LinkKeeps(s: State, t: string)
    requires Inv(s) && t in s.tasks && s.tasks[t].phase == Locked && s.tasks[t].lock.Some?
    ensures Inv(At(s, t, Ready).(redis := s.redis[ReverseKey(t) := s.tasks[t].lock.value]))
  {
    var s1 := At(s, t, Ready).(redis := s.redis[ReverseKey(t) := s.tasks[t].lock.value]);
    assert TaskSound(s, t);
    forall u | u in s1.tasks ensures TaskSound(s1, u) {
      assert TaskSound(s, u);
      if ReverseKey(u) == ReverseKey(t) { ReverseKeyInjective(u, t); }
    }
    forall k | k in s1.locks ensures LockSound(s1, k) { assert LockSound(s, k); }
    forall u ensures ReverseSound(s1, u) {
      assert ReverseSound(s, u);
      if ReverseKey(u) == ReverseKey(t) { ReverseKeyInjective(u, t); }
    }
  }

  lemma UnlockKeeps(s: State, t: string)
    requires Inv(s) && t in s.tasks && s.tasks[t].lock.Some? && Holds(s.tasks[t].phase) && Linked(s.tasks[t].phase)
    ensures Inv(At(s, t, Unlinking).(redis := s.redis - {s.tasks[t].lock.value}))
  {
    var l := s.tasks[t].lock.value;
    var s1 := At(s, t, Unlinking).(redis := s.redis - {l});
    assert TaskSound(s, t);
    forall u | u in s1.tasks ensures TaskSound(s1, u) { assert TaskSound(s, u); }
    forall k | k in s1.locks ensures LockSound(s1, k) { assert LockSound(s, k); }
    forall u ensures ReverseSound(s1, u) { assert ReverseSound(s, u); }
  }

  lemma UnlinkKeeps(s: State, t: string)
    requires Inv(s) && t in s.tasks && s.tasks[t].phase == Unlinking
    ensures Inv(At(s, t, Done).(redis := s.redis - {ReverseKey(t)}))
  {
    var s1 := At(s, t, Done).(redis := s.redis - {ReverseKey(t)});
    assert TaskSound(s, t);
    forall u | u in s1.tasks ensures TaskSound(s1, u) {
      assert TaskSound(s, u);
      if ReverseKey(u) == ReverseKey(t) { ReverseKeyInjective(u, t); }
    }
    forall k | k in s1.locks ensures LockSound(s1, k) { assert LockSound(s, k); }
    forall u ensures ReverseSound(s1, u) { assert ReverseSound(s, u); }
  }

  lemma CreateKeeps(s: State, t: string, task: Task)
    requires Inv(s) && t !in s.tasks && task.phase == Fresh && (task.lock.Some? ==> task.lock.value in s.locks)
    ensures Inv(s.(tasks := s.tasks[t := task]))
  {
    var s1 := s.(tasks := s.tasks[t := task]);
    forall u | u in s1.tasks ensures TaskSound(s1, u) { assert u in s.tasks ==> TaskSound(s, u); }
    forall k | k in s1.locks ensures LockSound(s1, k) { assert LockSound(s, k); }
    forall u ensures ReverseSound(s1, u) { assert ReverseSound(s, u); }
  }

  lemma OtherKeeps(s: State, redis: map<string, string>, key: string)
    requires Inv(s) && Foreign(s, key)
    requires forall k :: k != key ==> (k in redis <==> k in s.redis) && (k in redis ==> redis[k] == s.redis[k])
    ensures Inv(s.(redis := redis))
  {
    var s1 := s.(redis := redis);
    forall u | u in s1.tasks ensures TaskSound(s1, u) { assert TaskSound(s, u); }
    forall k | k in s1.locks ensures LockSound(s1, k) { assert LockSound(s, k); }
    forall u ensures ReverseSound(s1, u) { assert ReverseSound(s, u); }
  }

  lemma AdvanceKeeps(s: State, t: string)
    requires Inv(s) && t in s.tasks
    ensures Inv(Advanced(s, t))
  {
    hide Inv;
    SoundNow(s, t);
    var task := s.tasks[t];
    match task.phase
    case Fresh =>
      if task.lock.None? {
        MoveKeeps(s, t, Ready);
      } else if task.lock.value in s.redis {
        MoveKeeps(s, t, Refused);
      } else {
        LockKeeps(s, t);
      }
    case Locked => LinkKeeps(s, t);
    case Ready => MoveKeeps(s, t, Queued);
    case Queued => MoveKeeps(s, t, Started);
    case Started =>
      MoveKeeps(s, t, Queued);
      MoveKeeps(s, t, Running);
    case Running => MoveKeeps(s, t, if task.lock.Some? then Releasing else Done);
    case Releasing => UnlockKeeps(s, t);
    case Unlinking => UnlinkKeeps(s, t);
    case RevokeGot(key) => MoveKeeps(s, t, RevokeChecked(key));
    case RevokeChecked(key) => UnlockKeeps(s, t);
    case _ =>
  }

  lemma SoundNow(s: State, t: string)
    requires Inv(s) && t in s.tasks
    ensures TaskSound(s, t)
  {
  }

  lemma FailRevokeKeeps(s: State, t: string)
    requires Inv(s) && t in s.tasks
    ensures Inv(Failed(s, t)) && Inv(Revoked(s, t))
  {
    hide Inv;
    SoundNow(s, t);
    var task := s.tasks[t];
    if task.phase in {Ready, Queued, Started, Running} {
      MoveKeeps(s, t, if task.lock.Some? then Releasing else Done);
    }
    if task.phase == Queued {
      if task.internalOwner {
        MoveKeeps(s, t, if task.lock.Some? then Abandoned else Done);
      } else if task.lock.Some? {
        MoveKeeps(s, t, RevokeGot(task.lock.value));
      } else {
        NoReverse(s, t);
        MoveKeeps(s, t, Done);
      }
    }
  }

  lemma NoReverse(s: State, t: string)
    requires Inv(s) && t in s.tasks && s.tasks[t].lock.None?
    ensures ReverseKey(t) !in s.redis
  {
    assert ReverseSound(s, t);
  }

  lemma StepKeeps(s: State, e: Event)
    requires Inv(s)
    ensures Inv(Step(s, e))
  {
    hide Inv, Advanced, Failed, Revoked;
    match e
    case Create(t, lock, block, internalOwner) =>
      if t !in s.tasks && (lock.Some? ==> lock.value in s.locks) {
        CreateKeeps(s, t, Task(lock, block, internalOwner, Fresh));
      }
    case Advance(t) => if t in s.tasks { AdvanceKeeps(s, t); }
    case Fail(t) => if t in s.tasks { FailRevokeKeeps(s, t); }
    case Revoke(t) => if t in s.tasks { FailRevokeKeeps(s, t); }
    case Other(key, value) =>
      if Foreign(s, key) {
        OtherKeeps(s, if value.Some? then s.redis[key := value.value] else s.redis - {key}, key);
      }
  }

  /** The invariant holds in every state of every run. */
  lemma {:induction false} RunKeeps(s: State, events: seq<Event>)
    requires Initial(s)
    ensures Inv(Run(s, events))
  {
    if events == [] {
      forall t ensures ReverseSound(s, t) {
      }
    } else {
      RunKeeps(s, events[..|events| - 1]);
      StepKeeps(Run(s, events[..|events| - 1]), events[|events| - 1]);
    }
  }

  // ---- what every run guarantees -----------------------------------------------------------------------------

  ghost predicate Reachable(s: State) {
    exists s0, events :: Initial(s0) && Run(s0, events) == s
  }

  lemma ReachableInv(s: State)
    requires Reachable(s)
    ensures Inv(s)
  {
    var s0, events :| Initial(s0) && Run(s0, events) == s;
    RunKeeps(s0, events);
  }

  /** Two tasks never hold the same lock. */
  lemma MutualExclusion(s: State, t: string, u: string)
    requires Reachable(s) && t in s.tasks && u in s.tasks && s.tasks[t].lock.Some? && s.tasks[t].lock == s.tasks[u].lock
    requires Holds(s.tasks[t].phase) && Holds(s.tasks[u].phase)
    ensures t == u
  {
    ReachableInv(s);
    assert TaskSound(s, t) && TaskSound(s, u);
  }

  /** A lock key is in redis exactly while a task holds it; its value is that task, and the reverse key of the task names
      the lock from the time it was first set. */
  lemma HeldExactly(s: State, l: string)
    requires Reachable(s) && l in s.locks
    ensures l in s.redis <==> exists t :: t in s.tasks && s.tasks[t].lock == Some(l) && Holds(s.tasks[t].phase)
    ensures l in s.redis ==>
              var t := s.redis[l];
              && t in s.tasks && s.tasks[t].lock == Some(l) && Holds(s.tasks[t].phase)
              && (s.tasks[t].phase != Locked ==> ReverseKey(t) in s.redis && s.redis[ReverseKey(t)] == l)
  {
    ReachableInv(s);
    assert LockSound(s, l);
    if l in s.redis {
      assert TaskSound(s, s.redis[l]);
    }
    forall t | t in s.tasks && s.tasks[t].lock == Some(l) && Holds(s.tasks[t].phase) ensures l in s.redis {
      assert TaskSound(s, t);
    }
  }

  ghost function Subject(e: Event): (r: Option<string>) {
    match e
    case Other(_, _) => None
    case _ => Some(e.tid)
  }

  lemma StepElsewhere(s: State, e: Event, u: string)
    requires u in s.tasks && Subject(e) != Some(u)
    ensures u in Step(s, e).tasks && Step(s, e).tasks[u] == s.tasks[u]
  {
  }

  /** Whatever one task does, in a release without a value check as well as in a revocation, the lock and the reverse
      key of another task that holds its lock stay. */
  lemma OthersKeepTheirLocks(s: State, e: Event, u: string)
    requires Reachable(s) && u in s.tasks && s.tasks[u].lock.Some? && Holds(s.tasks[u].phase) && Subject(e) != Some(u)
    ensures var r := Step(s, e);
            && s.tasks[u].lock.value in r.redis && r.redis[s.tasks[u].lock.value] == u
            && (s.tasks[u].phase != Locked ==> ReverseKey(u) in r.redis && r.redis[ReverseKey(u)] == s.tasks[u].lock.value)
  {
    hide Step;
    ReachableInv(s);
    StepKeeps(s, e);
    StepElsewhere(s, e, u);
    SoundNow(Step(s, e), u);
  }

  /** The lock check of a worker never fails. */
  lemma CheckPasses(s: State, t: string)
    requires Reachable(s) && t in s.tasks && s.tasks[t].phase == Queued
    ensures Advanced(s, t) == At(s, t, Started)
  {
    ReachableInv(s);
    assert TaskSound(s, t);
  }

  lemma RunSnoc(s: State, events: seq<Event>, e: Event)
    ensures Run(s, events + [e]) == Step(Run(s, events), e)
  {
    assert (events + [e])[..|events|] == events;
  }

  /** What becomes of the lock of a queued task that is revoked: when the revocation has come to its end the lock is free, if
      and only if the owner of the task is not internal. */
  lemma RevokeFrees(s: State, t: string)
    requires Reachable(s) && t in s.tasks && s.tasks[t].phase == Queued && s.tasks[t].lock.Some?
    ensures var r := Run(s, [Revoke(t), Advance(t), Advance(t), Advance(t)]);
            && t in r.tasks && Final(r.tasks[t].phase)
            && (s.tasks[t].lock.value !in r.redis <==> !s.tasks[t].internalOwner)
  {
    hide Run, Inv, Reachable;
    ReachableInv(s);
    SoundNow(s, t);
    NoEvents(s);
    RunSnoc(s, [], Revoke(t));
    RunSnoc(s, [Revoke(t)], Advance(t));
    RunSnoc(s, [Revoke(t), Advance(t)], Advance(t));
    RunSnoc(s, [Revoke(t), Advance(t), Advance(t)], Advance(t));
    assert [] + [Revoke(t)] == [Revoke(t)] && [Revoke(t)] + [Advance(t)] == [Revoke(t), Advance(t)];
    assert [Revoke(t), Advance(t)] + [Advance(t)] == [Revoke(t), Advance(t), Advance(t)];
    assert [Revoke(t), Advance(t), Advance(t)] + [Advance(t)] == [Revoke(t), Advance(t), Advance(t), Advance(t)];
    var l := s.tasks[t].lock.value;
    var s1 := Revoked(s, t);
    if s.tasks[t].internalOwner {
      assert s1.tasks[t].phase == Abandoned && Advanced(s1, t) == s1;
    } else {
      assert s1.tasks[t].phase == RevokeGot(l);
      var s2 := Advanced(s1, t);
      assert s2.tasks[t].phase == RevokeChecked(l);
      var s3 := Advanced(s2, t);
      assert s3.tasks[t].phase == Unlinking && l !in s3.redis;
    }
  }

  lemma NoEvents(s: State)
    ensures Run(s, []) == s
  {
  }

  /** The revocation of a queued task with a lock and an internal owner. */
  ghost predicate Abandons(s: State, e: Event) {
    e.Revoke? && e.tid in s.tasks && s.tasks[e.tid].phase == Queued && s.tasks[e.tid].internalOwner && s.tasks[e.tid].lock.Some?
  }

  ghost predicate HasAbandoned(s: State) {
    exists t :: t in s.tasks && s.tasks[t].phase == Abandoned
  }

  lemma AbandonedAfter(s: State, e: Event)
    ensures HasAbandoned(Step(s, e)) <==> HasAbandoned(s) || Abandons(s, e)
  {
    var r := Step(s, e);
    if HasAbandoned(s) {
      var t :| t in s.tasks && s.tasks[t].phase == Abandoned;
      AbandonedStays(s, e, t);
    }
    if Abandons(s, e) {
      assert r.tasks[e.tid].phase == Abandoned;
    }
    if HasAbandoned(r) && !HasAbandoned(s) {
      var t :| t in r.tasks && r.tasks[t].phase == Abandoned;
      AbandonedNew(s, e, t);
    }
  }

  lemma AbandonedNew(s: State, e: Event, t: string)
    requires t in Step(s, e).tasks && Step(s, e).tasks[t].phase == Abandoned && !(t in s.tasks && s.tasks[t].phase == Abandoned)
    ensures Abandons(s, e)
  {
    if Subject(e) != Some(t) && t in s.tasks {
      StepElsewhere(s, e, t);
    }
  }

  /** Some event of the run was such a revocation. */
  ghost predicate Abandoning(s: State, events: seq<Event>) {
    exists k :: 0 <= k < |events| && Abandons(Run(s, events[..k]), events[k])
  }

  lemma AbandoningSnoc(s: State, events: seq<Event>, e: Event)
    ensures Abandoning(s, events + [e]) <==> Abandoning(s, events) || Abandons(Run(s, events), e)
  {
    hide Step, Abandons, Run;
    var more := events + [e];
    assert forall k :: 0 <= k <= |events| ==> more[..k] == events[..k];
    assert more[..|events|] == events && more[|events|] == e;
    if Abandoning(s, events) {
      var k :| 0 <= k < |events| && Abandons(Run(s, events[..k]), events[k]);
      assert Abandons(Run(s, more[..k]), more[k]);
    }
    if Abandons(Run(s, events), e) {
      assert Abandons(Run(s, more[..|events|]), more[|events|]);
    }
  }

  lemma {:induction false} AbandonedExactly(s: State, events: seq<Event>)
    requires Initial(s)
    ensures HasAbandoned(Run(s, events)) <==> Abandoning(s, events)
  {
    hide Step, Abandons, Initial, Run, Abandoning, HasAbandoned;
    if events == [] {
      NothingYet(s);
      NoEvents(s);
    } else {
      var front, e := events[..|events| - 1], events[|events| - 1];
      assert events == front + [e];
      AbandonedExactly(s, front);
      RunSnoc(s, front, e);
      AbandonedAfter(Run(s, front), e);
      AbandoningSnoc(s, front, e);
    }
  }

  lemma NothingYet(s: State)
    requires Initial(s)
    ensures !HasAbandoned(s) && !Abandoning(s, [])
  {
  }

  /** After any run, every lock has a holder that is still going to release it, if and only if the run has revoked no queued
      task with a lock and an internal owner. */
  lemma HoldersAreAlive(s0: State, events: seq<Event>)
    requires Initial(s0)
    ensures var s := Run(s0, events);
            (forall l :: l in s.locks && l in s.redis ==> s.redis[l] in s.tasks && !Final(s.tasks[s.redis[l]].phase))
            <==> (forall k :: 0 <= k < |events| ==> !Abandons(Run(s0, events[..k]), events[k]))
  {
    hide Run, Abandons, Inv, HasAbandoned;
    RunKeeps(s0, events);
    AbandonedExactly(s0, events);
    LiveOrAbandoned(Run(s0, events));
  }

  lemma LiveOrAbandoned(s: State)
    requires Inv(s)
    ensures (forall l :: l in s.locks && l in s.redis ==> s.redis[l] in s.tasks && !Final(s.tasks[s.redis[l]].phase)) <==> !HasAbandoned(s)
  {
    forall t | t in s.tasks && s.tasks[t].phase == Abandoned
      ensures exists l :: l in s.locks && l in s.redis && s.redis[l] == t
    {
      assert TaskSound(s, t);
      assert s.tasks[t].lock.value in s.locks;
    }
    forall l | l in s.locks && l in s.redis ensures s.redis[l] in s.tasks && Holds(s.tasks[s.redis[l]].phase) {
      assert LockSound(s, l);
    }
  }

  /** A task with an internal owner from its creation to its revocation. */
  lemma AbandonedSteps(s0: State, t: string)
    requires s0 == State({"k"}, map[], map[])
    ensures var r := Step(Step(Step(Step(Step(s0, Create(t, Some("k"), None, true)), Advance(t)), Advance(t)), Advance(t)), Revoke(t));
            t in r.tasks && r.tasks[t].phase == Abandoned && "k" in r.redis
  {
    var s1 := Step(s0, Create(t, Some("k"), None, true));
    assert s1.tasks[t] == Task(Some("k"), None, true, Fresh);
    var s2 := Step(s1, Advance(t));
    assert s2.tasks[t].phase == Locked && "k" in s2.redis;
    var s3 := Step(s2, Advance(t));
    assert s3.tasks[t].phase == Ready && "k" in s3.redis;
    var s4 := Step(s3, Advance(t));
    assert s4.tasks[t].phase == Queued && "k" in s4.redis;
  }

  lemma EmptyIsInitial(s: State)
    requires s == State({"k"}, map[], map[])
    ensures Initial(s)
  {
    forall t ensures "k" != ReverseKey(t) { assert |ReverseKey(t)| > 1; }
  }

  /** A run that leaves a lock to a revoked task for good. */
  lemma AbandonedRun() returns (s0: State, events: seq<Event>)
    ensures Initial(s0) && Reachable(Run(s0, events)) && HasAbandoned(Run(s0, events)) && "k" in Run(s0, events).redis
  {
    hide Run, Step, Initial;
    s0 := State({"k"}, map[], map[]);
    EmptyIsInitial(s0);
    var t := "7i7d1";
    var create := Create(t, Some("k"), None, true);
    events := [create] + [Advance(t)] + [Advance(t)] + [Advance(t)] + [Revoke(t)];
    NoEvents(s0);
    RunSnoc(s0, [], create);
    assert [] + [create] == [create];
    RunSnoc(s0, [create], Advance(t));
    RunSnoc(s0, [create] + [Advance(t)], Advance(t));
    RunSnoc(s0, [create] + [Advance(t)] + [Advance(t)], Advance(t));
    RunSnoc(s0, [create] + [Advance(t)] + [Advance(t)] + [Advance(t)], Revoke(t));
    AbandonedSteps(s0, t);
  }

  /** Nothing is left behind: once every task is refused or done, redis has no lock and no reverse key. */
  lemma NothingLeft(s: State)
    requires Reachable(s) && forall t :: t in s.tasks ==> s.tasks[t].phase in {Refused, Done}
    ensures forall l :: l in s.locks ==> l !in s.redis
    ensures forall t :: ReverseKey(t) !in s.redis
  {
    ReachableInv(s);
    forall l | l in s.locks ensures l !in s.redis { assert LockSound(s, l); }
    forall t ensures ReverseKey(t) !in s.redis { assert ReverseSound(s, t); }
  }

  /** A lock whose task was revoked without cleanup is never free again. */
  lemma {:induction false} AbandonedForever(s: State, t: string, events: seq<Event>)
    requires Inv(s) && t in s.tasks && s.tasks[t].phase == Abandoned
    ensures var r := Run(s, events);
            Inv(r) && t in r.tasks && r.tasks[t] == s.tasks[t] && r.tasks[t].lock.Some? && r.tasks[t].lock.value in r.redis
  {
    assert TaskSound(s, t);
    if events != [] {
      var front := events[..|events| - 1];
      AbandonedForever(s, t, front);
      var e := events[|events| - 1];
      StepKeeps(Run(s, front), e);
      AbandonedStays(Run(s, front), e, t);
      SoundNow(Run(s, events), t);
    }
  }

  lemma AbandonedStays(s: State, e: Event, t: string)
    requires t in s.tasks && s.tasks[t].phase == Abandoned
    ensures t in Step(s, e).tasks && Step(s, e).tasks[t] == s.tasks[t]
  {
  }

  // ---- the steps are the calls of the lock object -----------------------------------------------------------------

  function Values(s: Store): (r: map<string, string>) {
    map k | k in s :: s[k].value
  }

  lemma ValuesSet(store: Store, key: string, value: string, timeout: Option<int>, nx: bool)
    ensures Values(AfterSet(store, key, value, timeout, nx)) ==
              if nx && key in store then Values(store) else Values(store)[key := value]
    ensures Values(store).Keys == store.Keys
  {
  }

  /** Acquiring in one call is locking and linking. */
  lemma AcquireIsTwoSteps(s: State, t: string, store: Store, timeout: Option<int>)
    requires t in s.tasks && s.tasks[t].phase == Fresh && s.tasks[t].lock.Some? && Values(store) == s.redis
    ensures var l := s.tasks[t].lock.value;
            Values(AfterAcquire(store, l, None, t, timeout, true)) ==
              if l in s.redis then Advanced(s, t).redis else Advanced(Advanced(s, t), t).redis
  {
    hide AfterSet, Values, ReverseKey;
    var l := s.tasks[t].lock.value;
    ValuesSet(store, l, t, timeout, true);
    ValuesSet(AfterSet(store, l, t, timeout, true), ReverseKey(t), l, timeout, false);
    if l !in store {
      assert Advanced(s, t).tasks[t] == s.tasks[t].(phase := Locked);
    }
  }

  /** The unchecked release of a worker in one call is unlocking and unlinking. */
  lemma ReleaseIsTwoSteps(s: State, t: string, store: Store)
    requires t in s.tasks && s.tasks[t].phase == Releasing && s.tasks[t].lock.Some? && Values(store) == s.redis
    requires s.tasks[t].lock.value in s.redis
    ensures Values(AfterDelete(store, s.tasks[t].lock.value, Some(ReverseKey(t)), None, true)) == Advanced(Advanced(s, t), t).redis
  {
    var s1 := Advanced(s, t);
    assert s1.tasks[t] == s.tasks[t].(phase := Unlinking);
    assert Values(AfterDelete(store, s.tasks[t].lock.value, Some(ReverseKey(t)), None, true)) == Advanced(s1, t).redis;
  }

  /** The checked release of a revocation in one call is checking, unlocking and unlinking. */
  lemma RevokeIsThreeSteps(s: State, t: string, key: string, store: Store)
    requires t in s.tasks && s.tasks[t].phase == RevokeGot(key) && Values(store) == s.redis && key in s.redis && s.redis[key] == t
    ensures Values(AfterDelete(store, key, None, Some(t), true)) == Advanced(Advanced(Advanced(s, t), t), t).redis
  {
    var s1 := Advanced(s, t);
    var s2 := Advanced(s1, t);
    assert s1.tasks[t].phase == RevokeChecked(key) && s2.tasks[t].phase == Unlinking;
    assert Values(AfterDelete(store, key, None, Some(t), true)) == Advanced(s2, t).redis;
  }

  // ---- the course of a task --------------------------------------------------------------------------------------

  /** A task begins to run only while its block key is not there. */
  lemma StartsUnblocked(s: State, e: Event, t: string)
    requires t in Step(s, e).tasks && Step(s, e).tasks[t].phase == Running && !(t in s.tasks && s.tasks[t].phase == Running)
    ensures t in s.tasks && s.tasks[t].phase == Started
    ensures s.tasks[t].block.Some? ==> s.tasks[t].block.value !in s.redis
  {
    if Subject(e) != Some(t) && t in s.tasks {
      StepElsewhere(s, e, t);
    }
  }

  /** ... at every event of every run. */
  lemma NeverStartsBlocked(s0: State, events: seq<Event>, k: nat, t: string)
    requires k < |events|
    requires var s, r := Run(s0, events[..k]), Run(s0, events[..k + 1]);
             t in r.tasks && r.tasks[t].phase == Running && !(t in s.tasks && s.tasks[t].phase == Running)
    ensures var s := Run(s0, events[..k]);
            t in s.tasks && (s.tasks[t].block.Some? ==> s.tasks[t].block.value !in s.redis)
  {
    hide Step;
    assert events[..k + 1] == events[..k] + [events[k]];
    RunSnoc(s0, events[..k], events[k]);
    StartsUnblocked(Run(s0, events[..k]), events[k], t);
  }

  /** A started task goes back into the queue if and only if its block key is there; nothing in redis changes, and it keeps its
      lock and its reverse key. */
  lemma BlockedRetries(s: State, t: string)
    requires Reachable(s) && t in s.tasks && s.tasks[t].phase == Started
    ensures var r := Step(s, Advance(t));
            && r.redis == s.redis && t in r.tasks
            && (if s.tasks[t].block.Some? && s.tasks[t].block.value in s.redis then r.tasks[t].phase == Queued else r.tasks[t].phase == Running)
            && (s.tasks[t].lock.Some? ==>
                  && s.tasks[t].lock.value in r.redis && r.redis[s.tasks[t].lock.value] == t
                  && ReverseKey(t) in r.redis && r.redis[ReverseKey(t)] == s.tasks[t].lock.value)
  {
    ReachableInv(s);
    SoundNow(s, t);
  }

  /** `n` steps of one task. */
  ghost function Steps(s: State, t: string, n: nat): (r: State) {
    if n == 0 then s else Step(Steps(s, t, n - 1), Advance(t))
  }

  /** A task whose lock is free and that is not blocked takes the lock, runs with it, and gives everything back. */
  lemma WholeLife(s: State, t: string, l: string, block: Option<string>)
    requires Reachable(s) && t !in s.tasks && l in s.locks && l !in s.redis
    requires block.Some? ==> block.value !in s.redis && block.value != l && block.value != ReverseKey(t)
    ensures var c := Step(s, Create(t, Some(l), block, false));
            var running, end := Steps(c, t, 5), Steps(c, t, 8);
            && t in running.tasks && running.tasks[t].phase == Running
            && running.redis == s.redis[l := t][ReverseKey(t) := l]
            && t in end.tasks && end.tasks[t].phase == Done && end.redis == s.redis
  {
    hide Step;
    ReachableInv(s);
    assert ReverseSound(s, t);
    assert l != ReverseKey(t);
    var c := Step(s, Create(t, Some(l), block, false));
    Created(s, t, l, block);
    TakesLock(c, t, l);
    var ready := Step(Step(c, Advance(t)), Advance(t));
    RunsReady(ready, t, l);
    var running := Step(Step(Step(ready, Advance(t)), Advance(t)), Advance(t));
    GivesBack(running, t, l);
    EightSteps(c, t);
    assert s.redis[l := t][ReverseKey(t) := l] - {l} - {ReverseKey(t)} == s.redis;
  }

  lemma Created(s: State, t: string, l: string, block: Option<string>)
    requires t !in s.tasks && l in s.locks
    ensures var c := Step(s, Create(t, Some(l), block, false));
            c.redis == s.redis && t in c.tasks && c.tasks[t] == Task(Some(l), block, false, Fresh)
  {
  }

  lemma TakesLock(s: State, t: string, l: string)
    requires t in s.tasks && s.tasks[t].phase == Fresh && s.tasks[t].lock == Some(l) && l !in s.redis
    ensures var r := Step(Step(s, Advance(t)), Advance(t));
            r.redis == s.redis[l := t][ReverseKey(t) := l] && t in r.tasks && r.tasks[t] == s.tasks[t].(phase := Ready)
  {
    var s1 := Step(s, Advance(t));
    assert s1.tasks[t] == s.tasks[t].(phase := Locked) && s1.redis == s.redis[l := t];
  }

  lemma RunsReady(s: State, t: string, l: string)
    requires t in s.tasks && s.tasks[t].phase == Ready && s.tasks[t].lock == Some(l) && l in s.redis
    requires s.tasks[t].block.Some? ==> s.tasks[t].block.value !in s.redis
    ensures var r := Step(Step(Step(s, Advance(t)), Advance(t)), Advance(t));
            r.redis == s.redis && t in r.tasks && r.tasks[t] == s.tasks[t].(phase := Running)
  {
    var s1 := Step(s, Advance(t));
    assert s1.tasks[t] == s.tasks[t].(phase := Queued) && s1.redis == s.redis;
    var s2 := Step(s1, Advance(t));
    assert s2.tasks[t] == s.tasks[t].(phase := Started) && s2.redis == s.redis;
  }

  lemma GivesBack(s: State, t: string, l: string)
    requires t in s.tasks && s.tasks[t].phase == Running && s.tasks[t].lock == Some(l) && l in s.redis
    ensures var r := Step(Step(Step(s, Advance(t)), Advance(t)), Advance(t));
            r.redis == s.redis - {l} - {ReverseKey(t)} && t in r.tasks && r.tasks[t].phase == Done
  {
    var s1 := Step(s, Advance(t));
    assert s1.tasks[t] == s.tasks[t].(phase := Releasing) && s1.redis == s.redis;
    var s2 := Step(s1, Advance(t));
    assert s2.tasks[t] == s.tasks[t].(phase := Unlinking) && s2.redis == s.redis - {l};
  }

  lemma EightSteps(s: State, t: string)
    ensures Steps(s, t, 2) == Step(Step(s, Advance(t)), Advance(t))
    ensures Steps(s, t, 5) == Step(Step(Step(Steps(s, t, 2), Advance(t)), Advance(t)), Advance(t))
    ensures Steps(s, t, 8) == Step(Step(Step(Steps(s, t, 5), Advance(t)), Advance(t)), Advance(t))
  {
    hide Step;
    assert Steps(s, t, 0) == s && Steps(s, t, 1) == Step(s, Advance(t));
    assert Steps(s, t, 3) == Step(Steps(s, t, 2), Advance(t)) && Steps(s, t, 4) == Step(Steps(s, t, 3), Advance(t));
    assert Steps(s, t, 6) == Step(Steps(s, t, 5), Advance(t)) && Steps(s, t, 7) == Step(Steps(s, t, 6), Advance(t));
  }

  /** Whatever fails, when the task cannot be sent, or when its check or its command raises, its next two steps free its lock
      and its reverse key. */
  lemma FailureFrees(s: State, t: string)
    requires Reachable(s) && t in s.tasks && s.tasks[t].phase in {Ready, Queued, Started, Running} && s.tasks[t].lock.Some?
    ensures var r := Step(Step(Step(s, Fail(t)), Advance(t)), Advance(t));
            r.redis == s.redis - {s.tasks[t].lock.value} - {ReverseKey(t)} && t in r.tasks && r.tasks[t].phase == Done
  {
    ReachableInv(s);
    SoundNow(s, t);
    var s1 := Step(s, Fail(t));
    assert s1.tasks[t] == s.tasks[t].(phase := Releasing) && s1.redis == s.redis;
    var s2 := Step(s1, Advance(t));
    assert s2.tasks[t] == s.tasks[t].(phase := Unlinking) && s2.redis == s.redis - {s.tasks[t].lock.value};
  }

  /** A task whose lock is taken is refused, and nothing in redis changes. */
  lemma TakenLockRefuses(s: State, t: string)
    requires t in s.tasks && s.tasks[t].phase == Fresh && s.tasks[t].lock.Some? && s.tasks[t].lock.value in s.redis
    ensures Step(s, Advance(t)).redis == s.redis && Step(s, Advance(t)).tasks == s.tasks[t := s.tasks[t].(phase := Refused)]
  {
  }

  /** A revocation does nothing to a task that is not in the queue, a failure nothing to one that is being submitted, released or
      revoked, and nothing moves a task that has come to its end. */
  lemma NothingElseMoves(s: State, e: Event, t: string)
    requires t in s.tasks && Subject(e) == Some(t)
    requires || (e.Revoke? && s.tasks[t].phase != Queued)
             || (e.Fail? && s.tasks[t].phase !in {Ready, Queued, Started, Running})
             || Final(s.tasks[t].phase)
    ensures Step(s, e) == s
  {
  }
}
