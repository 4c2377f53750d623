/** The replication life cycle: any sequence of sync, failover and reinit after a successful init, with every
    command free to fail; and the sequences without failures, in which every operation succeeds. */
module Lifecycle {
  import opened Replicas
  import opened ReplicationSteps
  import opened LifecycleSteps
  import opened InitialSteps
  import opened InitSteps
  import opened ReplicationCommands

  datatype Operation =
    | SyncOp(rounds: nat)
    | FailoverOp(force: bool, serviceExists: bool, masterDown: bool)
    | ReinitOp

  /** An operation, and which of the two hosts is taken for the master in it. */
  datatype Step = Step(op: Operation, swapped: bool)

  function Oriented(w: World, swapped: bool): (r: World) {
    if swapped then Swap(w) else w
  }

  lemma KeptOriented(prefix: string, w: World, swapped: bool)
    requires Kept(prefix, w)
    ensures Kept(prefix, Oriented(w, swapped)) && Oriented(Oriented(w, swapped), swapped) == w
  {
    KeptSwapped(prefix, w);
  }

  /** Safety of every run: after any sequence of operations, in any order and direction, each failing at any command
      and failing again in its cleanup, and in every state on the way, every pair of disks has a common replication
      snapshot. */
  method Run(prefix: string, start: World, steps: seq<Step>) returns (w: World, ghost states: seq<World>)
    requires Kept(prefix, start)
    ensures Kept(prefix, w)
    ensures KeptSince(prefix, states, 0)
    ensures steps != [] ==> states != [] && Oriented(states[|states| - 1], steps[|steps| - 1].swapped) == w
  {
    hide *;
    w, states := start, [];
    NoStates(prefix);
    var i := 0;
    while i < |steps|
      invariant 0 <= i <= |steps|
      invariant Kept(prefix, w) && Trace(prefix, [], states)
      invariant i > 0 ==> states != [] && Oriented(states[|states| - 1], steps[i - 1].swapped) == w
    {
      var step := steps[i];
      KeptOriented(prefix, w, step.swapped);
      var command := new Replication(prefix, Oriented(w, step.swapped), true);
      match step.op {
        case SyncOp(rounds) =>
          var ok, last := command.Sync(rounds, true);
        case FailoverOp(force, exists_, down) =>
          var ok, stopped := command.Failover(force, exists_, down, true);
          SafeTrace(prefix, !force && !Oriented(w, step.swapped).dst.running, [], command.history);
        case ReinitOp =>
          var ok, last := command.Reinit(true);
      }
      JoinStates(prefix, states, command.history, command.world);
      states := states + command.history + [command.world];
      w := Oriented(command.world, step.swapped);
      KeptOriented(prefix, command.world, step.swapped);
      i := i + 1;
    }
    TraceAll(prefix, states);
  }

  lemma NoStates(prefix: string)
    ensures Trace(prefix, [], [])
  {
  }

  lemma JoinStates(prefix: string, a: seq<World>, b: seq<World>, w: World)
    requires Trace(prefix, [], a) && Trace(prefix, [], b) && Kept(prefix, w)
    ensures Trace(prefix, [], a + b + [w])
  {
    forall k | 0 <= k < |a + b| ensures Kept(prefix, (a + b)[k]) {
      assert k >= |a| ==> (a + b)[k] == b[k - |a|];
    }
    TraceStep(prefix, [], a + b, w);
  }

  lemma TraceAll(prefix: string, states: seq<World>)
    requires Trace(prefix, [], states)
    ensures KeptSince(prefix, states, 0)
  {
  }

  /** What init and reinit leave: sync and failover pass their checks. */
  ghost predicate Established(prefix: string, w: World) {
    Kept(prefix, w) && Linked(w) && FreshMaster(w) && '/' !in w.src.name && '/' !in w.dst.name
  }

  lemma EstablishedNow(prefix: string, w: World, snap: string)
    requires AllRelinked(prefix, w, |w.src.disks|, snap) && |w.src.disks| == |w.dst.disks|
    requires '/' !in w.src.name && '/' !in w.dst.name
    ensures Established(prefix, w)
  {
    AllRelinkedKept(prefix, w, |w.src.disks|, snap);
    AllRelinkedLinked(prefix, w, |w.src.disks|, snap);
  }

  lemma EstablishedStays(prefix: string, w0: World, w: World)
    requires Established(prefix, w0) && MetadataKept(w0, w) && Kept(prefix, w)
    ensures Established(prefix, w)
  {
    LinkedStays(w0, w);
    forall i | 0 <= i < |w.src.disks| ensures !w.src.disks[i].readonly {
      assert SameMetadata(w0.src.disks[i], w0.dst.disks[i], w.src.disks[i], w.dst.disks[i]);
    }
  }

  lemma EstablishedParts(prefix: string, w: World)
    requires Established(prefix, w)
    ensures Kept(prefix, w) && Linked(w)
  {
  }

  lemma PromotedTurned(prefix: string, w0: World, w: World)
    requires Established(prefix, w0) && Promoted(w0, w) && Kept(prefix, w)
    ensures Reversible(Swap(w)) && Kept(prefix, Swap(w))
  {
    PromotedReversible(w0, w);
    KeptSwapped(prefix, w);
  }

  lemma TurnedEstablished(prefix: string, w0: World, w1: World, w: World, snap: string)
    requires Established(prefix, w0) && Promoted(w0, w1) && SameMachines(Swap(w1), w)
    requires AllRelinked(prefix, w, Smaller(|w.src.disks|, |w.dst.disks|), snap)
    ensures Established(prefix, w)
  {
    EstablishedNow(prefix, w, snap);
  }

  /** The life cycle closes: without failing commands, any number of rounds of sync, failover, and reinit with the
      roles swapped succeed, each operation passing every check on what the one before it left. */
  method Rounds(prefix: string, start: World, rounds: nat, hot: nat) returns (w: World, allOk: bool)
    requires Established(prefix, start)
    ensures allOk && Established(prefix, w)
  {
    hide *;
    w, allOk := start, true;
    var i := 0;
    while i < rounds
      invariant allOk && Established(prefix, w)
    {
      EstablishedParts(prefix, w);
      var sync := new Replication(prefix, w, false);
      var ok, last := sync.Sync(hot, false);
      allOk := allOk && ok;
      EstablishedStays(prefix, w, sync.world);

      EstablishedParts(prefix, sync.world);
      var failover := new Replication(prefix, sync.world, false);
      var stopped;
      ok, stopped := failover.Failover(false, false, false, false);
      allOk := allOk && ok;
      PromotedTurned(prefix, sync.world, failover.world);

      var reinit := new Replication(prefix, Swap(failover.world), false);
      ok, last := reinit.Reinit(false);
      allOk := allOk && ok;
      TurnedEstablished(prefix, sync.world, failover.world, reinit.world, last);
      w := reinit.world;
      i := i + 1;
    }
  }

  /** A successful init starts the life cycle. */
  method Begin(prefix: string, w: World, names: seq<string>, faulty: bool) returns (ok: bool, r: World)
    requires MasterFit(w) && '/' !in w.src.name && '/' !in w.dst.name
    ensures ok ==> Established(prefix, r)
    ensures !faulty && |names| == |w.src.disks| ==> ok
  {
    hide *;
    var init := new Replication(prefix, w, faulty);
    ghost var last, mark;
    ok, last, mark := init.Init(names, faulty);
    r := init.world;
    if ok {
      EstablishedNow(prefix, r, last);
    }
  }

  /** Whatever happened to a sync, a later one without failing commands succeeds. */
  method SyncAgain(prefix: string, w: World, rounds: nat, cleanupFaulty: bool) returns (first: bool, second: bool)
    requires Established(prefix, w)
    ensures second
  {
    hide *;
    EstablishedParts(prefix, w);
    var one := new Replication(prefix, w, true);
    ghost var last;
    first, last := one.Sync(rounds, cleanupFaulty);
    EstablishedStays(prefix, w, one.world);
    EstablishedParts(prefix, one.world);
    var two := new Replication(prefix, one.world, false);
    second, last := two.Sync(rounds, false);
  }

  /** A failover that failed at any command, with a cleanup that did not fail, can be repeated. */
  method FailoverAgain(prefix: string, w: World) returns (first: bool, second: bool)
    requires Established(prefix, w)
    ensures first || second
  {
    hide *;
    EstablishedParts(prefix, w);
    var stopped;
    var one := new Replication(prefix, w, true);
    first, stopped := one.Failover(false, false, false, false);
    second := false;
    if !first {
      SlavesBackLinked(w, one.world);
      var two := new Replication(prefix, one.world, false);
      second, stopped := two.Failover(false, false, false, false);
    }
  }

  /** A reinit that failed at any command, with a cleanup that did not fail, can be repeated if and only if it had completed no
      pair and the slave disk of the first pair still has its esrep:dst. */
  method ReinitAgain(prefix: string, w: World) returns (first: bool, second: bool, completed: nat, between: World)
    requires Kept(prefix, w) && Reversible(w)
    ensures first || (second <==> completed == 0 && (InRange(w, between, 0) ==> between.dst.disks[0].esrepDst == w.dst.disks[0].esrepDst))
  {
    hide *;
    var one := new Replication(prefix, w, true);
    ghost var last;
    first, last := one.Reinit(false);
    second, completed, between := false, |one.vmDisksSynced|, one.world;
    if !first {
      ReversibleAgain(prefix, w, between, last, completed);
      var two := new Replication(prefix, between, false);
      second, last := two.Reinit(false);
      FirstPair(w, between);
    }
  }

  lemma FirstPair(w0: World, w: World)
    ensures InRange(w0, w, 0) ==> |w0.src.disks| > 0 && |w.src.disks| > 0 && |w0.dst.disks| > 0 && |w.dst.disks| > 0
  {
  }
}
