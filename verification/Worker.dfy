/**
 The worker object: its map of partition states, the poll loop's dispatch, the rebalance
 callbacks and the drain loop. Each method is tied to the owner steps of PartitionProtocol.
 librdkafka's own per-partition memory (stored offsets, paused set) is part of the object.
 */
module Worker {
  import opened Wrappers
  import opened PartitionProtocol
  import opened RetryMachine

  class PartitionState {
    const partition: nat
    var queue: seq<Item>
    var stopping: bool
    var paused: bool

    constructor (p: nat)
      ensures partition == p && queue == [] && !stopping && !paused
    {
      partition, queue, stopping, paused := p, [], false, false;
    }
  }

  /** What other tasks do to this partition while its drain task awaits something. */
  datatype Other = Polled | StopAsked

  /** One turn of the drain loop: what happens during its two awaits, and what the broker answers. */
  datatype Turn = Turn(beforeGet: seq<Other>, passes: seq<Pass>, during: seq<Other>, storeAccepted: bool)

  /** What the worker and librdkafka hold for one partition. */
  datatype Held = Held(queue: seq<Item>, paused: bool, stopping: bool, stored: Option<nat>)

  /** The owner a held partition is, given where polling and the drain task stand. */
  ghost function AsOwner(p: nat, next: nat, h: Held, phase: Phase<()>): Owner<()> {
    Owner(p, next, h.queue, h.paused, h.stopping, phase, h.stored)
  }

  // ---------------------------------------------------------------------------
  // The drain loop, as a function of what happens during its awaits
  // ---------------------------------------------------------------------------

  /** Nothing is delivered while the partition is paused. */
  function AfterOther<D>(o: Owner<D>, other: Other, highWatermark: nat): Owner<D> {
    match other
    case Polled => if o.paused then o else Dispatched(o, highWatermark)
    case StopAsked => StopRequested(o)
  }

  function AfterOthers<D>(o: Owner<D>, others: seq<Other>, highWatermark: nat): Owner<D>
    decreases |others|
  {
    if others == [] then o else AfterOthers(AfterOther(o, others[0], highWatermark), others[1..], highWatermark)
  }

  /** From one check of the loop's condition to the next, or to the await it is still in. */
  function AfterTurn(o: Owner<()>, turn: Turn, highWatermark: nat, maxUnexpected: nat): Owner<()> {
    var woken := AfterOthers(o, turn.beforeGet, highWatermark);
    if woken.queue == [] then woken
    else
      var taken := Taken(woken);
      if taken.phase.Stopped? then taken else AfterHandle(taken, turn, highWatermark, maxUnexpected)
  }

  /** The awaits inside `_handle`, and the code after it. */
  function AfterHandle(taken: Owner<()>, turn: Turn, highWatermark: nat, maxUnexpected: nat): Owner<()>
    requires taken.phase.Ready?
  {
    var waited := AfterOthers(taken, turn.during, highWatermark);
    var handled := waited.(phase := AfterPasses(taken.phase, turn.passes, maxUnexpected));
    if handled.phase.Handled? then StoredOffset(handled, turn.storeAccepted, highWatermark)
    else if handled.stopping && (handled.phase.Ready? || handled.phase.Undeliverable?) then Abandoned(handled, highWatermark)
    else handled
  }

  function AfterTurns(o: Owner<()>, turns: seq<Turn>, highWatermark: nat, maxUnexpected: nat): Owner<()>
    decreases |turns|
  {
    if turns == [] || !o.phase.Idle? then o
    else AfterTurns(AfterTurn(o, turns[0], highWatermark, maxUnexpected), turns[1..], highWatermark, maxUnexpected)
  }

  // ---------------------------------------------------------------------------
  // How a stopped task ends
  // ---------------------------------------------------------------------------

  /** The pass of the retry loop under way when the stop came is completed, if there was one; or time runs out. */
  datatype Ending = Finished(pass: Option<Pass>, storeAccepted: bool) | Cancelled

  /** Where a drain task can be awaiting when it is stopped: an item, or something inside `_handle`. */
  predicate Awaiting(phase: Phase<()>) {
    phase.Idle? || phase.Ready? || phase.Undeliverable?
  }

  /** What ends a task that has been told to stop. */
  function Ended(o: Owner<()>, ending: Ending, highWatermark: nat, maxUnexpected: nat): Owner<()>
    requires Awaiting(o.phase) && o.stopping && o.queue == [Wake]
  {
    match ending
    case Cancelled => o.(phase := Stopped)
    case Finished(pass, accepted) =>
      if o.phase.Idle? then Taken(o)
      else LeftHandle(o, if pass.Some? then PassOn(o.phase, pass.value, maxUnexpected) else o.phase, accepted, highWatermark)
  }

  /** `_handle` has returned, with True or with False. */
  function LeftHandle(o: Owner<()>, phase: Phase<()>, accepted: bool, highWatermark: nat): Owner<()>
    requires o.stopping && (phase.Handled? || phase.Ready? || phase.Undeliverable?)
  {
    if phase.Handled? then StoredOffset(o.(phase := phase), accepted, highWatermark)
    else Abandoned(o.(phase := phase), highWatermark)
  }

  /** The owner once it has been told to stop and its task has ended. */
  function AfterStop(o: Owner<()>, ending: Ending, highWatermark: nat, maxUnexpected: nat): Owner<()>
    requires Awaiting(o.phase)
  {
    Ended(StopRequested(o), ending, highWatermark, maxUnexpected)
  }

  // ---------------------------------------------------------------------------
  // The object
  // ---------------------------------------------------------------------------

  class FraudWorker {
    const highWatermark: nat
    const maxUnexpected: nat
    var partitions: map<nat, PartitionState>
    var storedOffsets: map<nat, nat>
    var pausedAtBroker: set<nat>
    var committed: map<nat, nat>        // at the broker

    constructor (highWatermark: nat, maxUnexpected: nat)
      ensures Valid() && partitions == map[]
      ensures this.highWatermark == highWatermark && this.maxUnexpected == maxUnexpected
    {
      this.highWatermark, this.maxUnexpected := highWatermark, maxUnexpected;
      partitions, storedOffsets, pausedAtBroker, committed := map[], map[], {}, map[];
    }

    /** States sit under their own partition, so no two keys share one; the flag mirrors the broker. */
    ghost predicate Valid()
      reads this, partitions.Values
    {
      forall p :: p in partitions ==>
        partitions[p].partition == p && (p in pausedAtBroker <==> partitions[p].paused)
    }

    ghost function Snapshot(p: nat): Held
      requires p in partitions
      reads this, partitions[p]
    {
      var st := partitions[p];
      Held(st.queue, st.paused, st.stopping, if p in storedOffsets then Some(storedOffsets[p]) else None)
    }

    method StartOne(p: nat)
      requires Valid()
      modifies this`partitions, this`storedOffsets, this`pausedAtBroker
      ensures Valid()
      ensures partitions.Keys == old(partitions.Keys) + {p}
      ensures forall q :: q in old(partitions) ==>
                partitions[q] == old(partitions[q]) && Snapshot(q) == old(Snapshot(q))
      ensures p !in old(partitions) ==> fresh(partitions[p]) && Snapshot(p) == Held([], false, false, None)
    {
      if p !in partitions {
        var st := new PartitionState(p);
        partitions := partitions[p := st];
        storedOffsets := storedOffsets - {p};
        pausedAtBroker := pausedAtBroker - {p};
      }
    }

    /** Create a state for each newly assigned partition; one already held keeps its state. */
    method StartPartitions(ps: seq<nat>)
      requires Valid()
      modifies this`partitions, this`storedOffsets, this`pausedAtBroker
      ensures Valid()
      ensures partitions.Keys == old(partitions.Keys) + set p | p in ps
      ensures forall p :: p in old(partitions) ==>
                partitions[p] == old(partitions[p]) && Snapshot(p) == old(Snapshot(p))
      ensures forall p :: p in partitions && p !in old(partitions) ==>
                fresh(partitions[p]) && Snapshot(p) == Held([], false, false, None)
    {
      var i := 0;
      while i < |ps|
        invariant i <= |ps| && Valid()
        invariant partitions.Keys == old(partitions.Keys) + set p | p in ps[..i]
        invariant forall p :: p in old(partitions) ==>
                    partitions[p] == old(partitions[p]) && Snapshot(p) == old(Snapshot(p))
        invariant forall p :: p in partitions && p !in old(partitions) ==>
                    fresh(partitions[p]) && Snapshot(p) == Held([], false, false, None)
      {
        assert ps[..i + 1] == ps[..i] + [ps[i]];
        StartOne(ps[i]);
        i := i + 1;
      }
      assert ps[..i] == ps;
    }

    /** A message for a partition not held here, or being stopped, is dropped; any other is queued. */
    method Dispatch(p: nat, offset: nat)
      requires Valid()
      modifies this`pausedAtBroker, if p in partitions then {partitions[p]} else {}
      ensures Valid()
      ensures p in partitions ==> forall phase: Phase<()> ::
                AsOwner(p, offset + 1, Snapshot(p), phase) == Dispatched(AsOwner(p, offset, old(Snapshot(p)), phase), highWatermark)
      ensures forall q :: q != p ==> (q in pausedAtBroker <==> q in old(pausedAtBroker))
    {
      if p !in partitions || partitions[p].stopping {
        return;
      }
      var st := partitions[p];
      st.queue := st.queue + [Message(offset)];
      if !st.paused && |st.queue| >= highWatermark {
        pausedAtBroker := pausedAtBroker + {p};
        st.paused := true;
      }
    }

    method StopOne(p: nat)
      requires Valid() && p in partitions
      modifies partitions[p]
      ensures Valid()
      ensures Snapshot(p) == old(Snapshot(p)).(stopping := true, queue := [Wake])
    {
      var st := partitions[p];
      st.stopping := true;
      while st.queue != []
        invariant st.stopping && st.paused == old(st.paused)
        decreases |st.queue|
      {
        st.queue := st.queue[1..];
      }
      st.queue := st.queue + [Wake];
    }

    /** The first half of `_stop_partitions`: flag each state, drain its queue, wake its task. */
    method RequestStop(ps: seq<nat>)
      requires Valid() && forall p :: p in ps ==> p in partitions
      modifies partitions.Values
      ensures Valid()
      ensures forall p :: p in partitions ==>
                Snapshot(p) == if p in ps then old(Snapshot(p)).(stopping := true, queue := [Wake]) else old(Snapshot(p))
    {
      var i := 0;
      while i < |ps|
        invariant i <= |ps| && Valid()
        invariant forall p :: p in partitions ==>
                    Snapshot(p) == if p in ps[..i] then old(Snapshot(p)).(stopping := true, queue := [Wake]) else old(Snapshot(p))
      {
        assert ps[..i + 1] == ps[..i] + [ps[i]];
        StopOne(ps[i]);
        i := i + 1;
      }
      assert ps[..i] == ps;
    }

    /** The second half, once the tasks have ended: forget the states. */
    method Release(ps: seq<nat>)
      requires Valid()
      modifies this`partitions
      ensures Valid()
      ensures partitions == old(partitions) - set p | p in ps
    {
      partitions := partitions - set p | p in ps;
    }

    /** `queue.get()` has an item: start on it, or leave the loop. */
    method GetNext(p: nat) returns (phase: Phase<()>)
      requires Valid() && p in partitions && partitions[p].queue != []
      modifies partitions[p]
      ensures Valid()
      ensures forall next: nat ::
                AsOwner(p, next, Snapshot(p), phase) == Taken(AsOwner(p, next, old(Snapshot(p)), Idle))
    {
      var st := partitions[p];
      var message := st.queue[0];
      st.queue := st.queue[1..];
      phase := if message.Wake? || st.stopping then Stopped else Ready(message.offset, 0, 0);
    }

    /** The code after `_handle`: store the offset of a finished message, then resume if drained enough. */
    method FinishTurn(p: nat, phase: Phase<()>, accepted: bool) returns (after: Phase<()>)
      requires Valid() && p in partitions
      requires phase.Handled? || ((phase.Ready? || phase.Undeliverable?) && partitions[p].stopping)
      modifies this`pausedAtBroker, this`storedOffsets, partitions[p]
      ensures Valid()
      ensures forall next: nat ::
                AsOwner(p, next, Snapshot(p), after) ==
                if phase.Handled? then StoredOffset(AsOwner(p, next, old(Snapshot(p)), phase), accepted, highWatermark)
                else Abandoned(AsOwner(p, next, old(Snapshot(p)), phase), highWatermark)
      ensures forall q :: q != p ==> (q in pausedAtBroker <==> q in old(pausedAtBroker))
      ensures storedOffsets - {p} == old(storedOffsets) - {p}
    {
      var st := partitions[p];
      if phase.Handled? && accepted {
        storedOffsets := storedOffsets[p := phase.offset + 1];
      }
      if st.paused && |st.queue| <= highWatermark / 2 {
        pausedAtBroker := pausedAtBroker - {p};
        st.paused := false;
      }
      after := if st.stopping then Stopped else Idle;
    }

    ghost predicate ToldToStop(p: nat)
      requires p in partitions
      reads this, partitions[p]
    {
      partitions[p].stopping && partitions[p].queue == [Wake]
    }

    /** What a stopped partition has stored once its task has ended. */
    ghost function StoredAtEnd(p: nat, awaiting: Phase<()>, ending: Ending): Option<nat>
      requires p in partitions && ToldToStop(p) && Awaiting(awaiting)
      reads this, partitions[p]
    {
      Ended(AsOwner(p, 0, Snapshot(p), awaiting), ending, highWatermark, maxUnexpected).stored
    }

    /** A stopped task runs to its end: an idle one is woken, one inside `_handle` ends its pass and leaves. */
    method EndTask(p: nat, awaiting: Phase<()>, ending: Ending)
      requires Valid() && p in partitions && Awaiting(awaiting)
      requires ToldToStop(p)
      modifies this`pausedAtBroker, this`storedOffsets, partitions[p]
      ensures Valid()
      ensures AsOwner(p, 0, Snapshot(p), Stopped) ==
              Ended(AsOwner(p, 0, old(Snapshot(p)), awaiting), ending, highWatermark, maxUnexpected)
      ensures forall q :: q != p ==> (q in pausedAtBroker <==> q in old(pausedAtBroker))
      ensures forall q :: q != p ==> StoredOf(q) == old(StoredOf(q))
      ensures forall q :: q in partitions && q != p ==> Snapshot(q) == old(Snapshot(q))
    {
      match ending {
        case Cancelled =>
        case Finished(pass, accepted) =>
          if awaiting.Idle? {
            var left := GetNext(p);
          } else {
            var phase := if pass.Some? then PassOn(awaiting, pass.value, maxUnexpected) else awaiting;
            var left := FinishTurn(p, phase, accepted);
            assert AsOwner(p, 0, Snapshot(p), left) ==
                   LeftHandle(AsOwner(p, 0, old(Snapshot(p)), awaiting), phase, accepted, highWatermark);
            forall q | q != p ensures StoredOf(q) == old(StoredOf(q)) {
              assert q in storedOffsets - {p} <==> q in old(storedOffsets) - {p};
              assert q in storedOffsets - {p} ==> (storedOffsets - {p})[q] == (old(storedOffsets) - {p})[q];
            }
          }
      }
      forall q | q in partitions && q != p ensures Snapshot(q) == old(Snapshot(q)) {
        assert partitions[q] != partitions[p] && StoredOf(q) == old(StoredOf(q));
      }
    }

    /** What stopping a partition leaves stored for it. */
    ghost function StoredAfterStop(p: nat, awaiting: Phase<()>, ending: Ending): Option<nat>
      requires p in partitions && Awaiting(awaiting)
      reads this, partitions[p]
    {
      AfterStop(AsOwner(p, 0, Snapshot(p), awaiting), ending, highWatermark, maxUnexpected).stored
    }

    ghost predicate Distinct(ps: seq<nat>) {
      forall i, j :: 0 <= i < j < |ps| ==> ps[i] != ps[j]
    }

    /** `_states_for`: the named partitions this worker holds. A rebalance names each partition once. */
    method StatesFor(ps: seq<nat>) returns (held: seq<nat>)
      requires Distinct(ps)
      ensures Distinct(held)
      ensures forall p :: p in held <==> p in ps && p in partitions
    {
      held := [];
      var i := 0;
      while i < |ps|
        invariant i <= |ps| && Distinct(held)
        invariant forall p :: p in held <==> p in ps[..i] && p in partitions
      {
        assert ps[..i + 1] == ps[..i] + [ps[i]] && ps[i] !in ps[..i];
        if ps[i] in partitions {
          held := held + [ps[i]];
        }
        i := i + 1;
      }
      assert ps[..i] == ps;
    }

    /** Where the task of each held partition among these awaits, and how it ends, is known. */
    ghost predicate TasksKnown(ps: seq<nat>, tasks: map<nat, (Phase<()>, Ending)>)
      reads this
    {
      Distinct(ps) && forall p :: p in ps && p in partitions ==> p in tasks && Awaiting(tasks[p].0)
    }

    /** What the worker has stored for a partition once those named have been stopped. */
    ghost function StoredOnceStopped(ps: seq<nat>, tasks: map<nat, (Phase<()>, Ending)>, p: nat): Option<nat>
      requires TasksKnown(ps, tasks)
      reads this, if p in partitions then {partitions[p]} else {}
    {
      if p in ps && p in partitions then StoredAfterStop(p, tasks[p].0, tasks[p].1) else StoredOf(p)
    }

    ghost predicate CanStop(ps: seq<nat>, tasks: map<nat, (Phase<()>, Ending)>)
      reads this
    {
      Distinct(ps) && forall p :: p in ps ==> p in partitions && p in tasks && Awaiting(tasks[p].0)
    }

    function StoredOf(p: nat): Option<nat>
      reads this`storedOffsets
    {
      if p in storedOffsets then Some(storedOffsets[p]) else None
    }

    function CommittedOf(p: nat): Option<nat>
      reads this`committed
    {
      if p in committed then Some(committed[p]) else None
    }

    /** The tasks of the stopped partitions run to their ends, one after the other. */
    method EndTasks(ps: seq<nat>, tasks: map<nat, (Phase<()>, Ending)>)
      requires Valid() && CanStop(ps, tasks) && forall p :: p in ps ==> ToldToStop(p)
      modifies this`pausedAtBroker, this`storedOffsets, partitions.Values
      ensures Valid()
      ensures forall p :: p in ps ==>
                StoredOf(p) == old(StoredAtEnd(p, tasks[p].0, tasks[p].1))
      ensures forall p :: p !in ps ==> StoredOf(p) == old(StoredOf(p))
      ensures forall p :: p in partitions && p !in ps ==> Snapshot(p) == old(Snapshot(p))
    {
      var i := 0;
      while i < |ps|
        invariant i <= |ps| && Valid()
        invariant forall p :: p in partitions && p !in ps[..i] ==> Snapshot(p) == old(Snapshot(p))
        invariant forall p :: p in ps[..i] ==> StoredOf(p) == old(StoredAtEnd(p, tasks[p].0, tasks[p].1))
        invariant forall p :: p !in ps[..i] ==> StoredOf(p) == old(StoredOf(p))
      {
        var p := ps[i];
        assert ps[..i + 1] == ps[..i] + [p] && p in ps && p !in ps[..i];
        assert Snapshot(p) == old(Snapshot(p)) && old(ToldToStop(p));
        assert partitions[p].queue == old(partitions[p].queue) && partitions[p].stopping;
        EndTask(p, tasks[p].0, tasks[p].1);
        i := i + 1;
      }
      assert ps[..i] == ps;
    }

    /**
     `_stop_partitions`: request the stop, let the tasks end, forget the partitions. `tasks` says where each task
     was awaiting and how it ends. Every partition's stored offset is what its owner has stored by then, and the
     partitions that stay are untouched.
     */
    method StopPartitions(ps: seq<nat>, tasks: map<nat, (Phase<()>, Ending)>)
      requires Valid() && CanStop(ps, tasks)
      modifies this`partitions, this`pausedAtBroker, this`storedOffsets, partitions.Values
      ensures Valid()
      ensures partitions == old(partitions) - set p | p in ps
      ensures forall p :: StoredOf(p) ==
                if p in ps then old(StoredAfterStop(p, tasks[p].0, tasks[p].1)) else old(StoredOf(p))
      ensures forall p :: p in partitions ==> Snapshot(p) == old(Snapshot(p))
    {
      RequestStop(ps);
      assert forall p :: p in ps ==>
               AsOwner(p, 0, Snapshot(p), tasks[p].0) == StopRequested(AsOwner(p, 0, old(Snapshot(p)), tasks[p].0));
      EndTasks(ps, tasks);
      Release(ps);
    }

    /** Stop those of the named partitions that are held here. */
    method StopHeld(ps: seq<nat>, tasks: map<nat, (Phase<()>, Ending)>)
      requires Valid() && TasksKnown(ps, tasks)
      modifies this`partitions, this`pausedAtBroker, this`storedOffsets, partitions.Values
      ensures Valid() && partitions == old(partitions) - set p | p in ps
      ensures forall p :: StoredOf(p) == old(StoredOnceStopped(ps, tasks, p))
      ensures forall p :: p in partitions ==> Snapshot(p) == old(Snapshot(p))
    {
      var held := StatesFor(ps);
      StopPartitions(held, tasks);
    }

    /** A synchronous commit of everything stored. */
    method CommitStored()
      modifies this`committed
      ensures forall p :: CommittedOf(p) == if StoredOf(p).Some? then StoredOf(p) else old(CommittedOf(p))
    {
      committed := committed + storedOffsets;
    }

    /** The broker's memory of partitions no longer assigned is gone. */
    method Forget(ps: seq<nat>)
      modifies this`storedOffsets
      ensures forall p :: StoredOf(p) == if p in ps then None else old(StoredOf(p))
    {
      storedOffsets := storedOffsets - set p | p in ps;
    }

    /**
     `_on_revoke`: stop the partitions held here, then commit what has been stored, so the next owner resumes
     after it. The broker forgets what it has stored for the partitions once they are gone.
     */
    method OnRevoke(ps: seq<nat>, tasks: map<nat, (Phase<()>, Ending)>, commitAccepted: bool)
      requires Valid() && TasksKnown(ps, tasks)
      modifies this, partitions.Values
      ensures Valid() && partitions == old(partitions) - set p | p in ps
      ensures forall p :: CommittedOf(p) ==
                if commitAccepted && old(StoredOnceStopped(ps, tasks, p)).Some? then old(StoredOnceStopped(ps, tasks, p))
                else old(CommittedOf(p))
      ensures forall p :: StoredOf(p) == if p in ps then None else old(StoredOf(p))
      ensures forall p :: p in partitions ==> Snapshot(p) == old(Snapshot(p))
    {
      StopHeld(ps, tasks);
      if commitAccepted {
        CommitStored();
      }
      Forget(ps);
      forall p | p in partitions ensures Snapshot(p) == old(Snapshot(p)) {
        assert p !in ps && StoredOf(p) == old(StoredOf(p));
      }
    }

    /** `_on_lost`: stop the partitions held here and commit nothing, since another consumer may own them by now. */
    method OnLost(ps: seq<nat>, tasks: map<nat, (Phase<()>, Ending)>)
      requires Valid() && TasksKnown(ps, tasks)
      modifies this`partitions, this`pausedAtBroker, this`storedOffsets, partitions.Values
      ensures Valid() && partitions == old(partitions) - set p | p in ps
      ensures committed == old(committed)
      ensures forall p :: StoredOf(p) == if p in ps then None else old(StoredOf(p))
      ensures forall p :: p in partitions ==> Snapshot(p) == old(Snapshot(p))
    {
      StopHeld(ps, tasks);
      Forget(ps);
      forall p | p in partitions ensures Snapshot(p) == old(Snapshot(p)) {
        assert p !in ps && StoredOf(p) == old(StoredOf(p));
      }
    }

    /** Run the other tasks for the length of one await. */
    method RunOthers(p: nat, others: seq<Other>, start: nat, ghost phase: Phase<()>) returns (next: nat)
      requires Valid() && p in partitions
      modifies this`pausedAtBroker, partitions[p]
      ensures Valid()
      ensures AsOwner(p, next, Snapshot(p), phase) == AfterOthers(AsOwner(p, start, old(Snapshot(p)), phase), others, highWatermark)
    {
      next := start;
      ghost var o0 := AsOwner(p, start, Snapshot(p), phase);
      var i := 0;
      assert others[0..] == others;
      while i < |others|
        invariant i <= |others| && Valid()
        invariant AfterOthers(o0, others, highWatermark)
                  == AfterOthers(AsOwner(p, next, Snapshot(p), phase), others[i..], highWatermark)
      {
        assert others[i..][1..] == others[i + 1..];
        match others[i] {
          case Polled =>
            if p !in pausedAtBroker {
              Dispatch(p, next);
              next := next + 1;
            }
          case StopAsked =>
            StopOne(p);
        }
        i := i + 1;
      }
    }

    /** One turn of the drain loop, from its first await to the check of its condition. */
    method OneTurn(p: nat, turn: Turn, start: nat) returns (next: nat, phase: Phase<()>)
      requires Valid() && p in partitions && maxUnexpected >= 1
      modifies this`pausedAtBroker, this`storedOffsets, partitions[p]
      ensures Valid()
      ensures AsOwner(p, next, Snapshot(p), phase) ==
              AfterTurn(AsOwner(p, start, old(Snapshot(p)), Idle), turn, highWatermark, maxUnexpected)
      ensures storedOffsets - {p} == old(storedOffsets) - {p}
    {
      next := RunOthers(p, turn.beforeGet, start, Idle);            // await state.queue.get()
      if partitions[p].queue == [] {
        return next, Idle;                                          // still waiting
      }
      phase := GetNext(p);
      if phase.Stopped? { return; }
      next, phase := FinishMessage(p, turn, next, phase);
    }

    /** The rest of a turn: `_handle`, with the other tasks running during its awaits, and the code after it. */
    method FinishMessage(p: nat, turn: Turn, start: nat, ready: Phase<()>) returns (next: nat, phase: Phase<()>)
      requires Valid() && p in partitions && maxUnexpected >= 1
      requires ready.Ready? && ready == Ready(ready.offset, 0, 0)
      modifies this`pausedAtBroker, this`storedOffsets, partitions[p]
      ensures Valid()
      ensures AsOwner(p, next, Snapshot(p), phase) ==
              AfterHandle(AsOwner(p, start, old(Snapshot(p)), ready), turn, highWatermark, maxUnexpected)
      ensures storedOffsets - {p} == old(storedOffsets) - {p}
    {
      next := RunOthers(p, turn.during, start, ready);
      var handled, pending, calls := Handle(ready.offset, turn.passes, maxUnexpected);
      phase := LoopPhase(ready.offset, handled, pending, calls, UnexpectedCount(turn.passes, calls));
      if phase.Handled? || partitions[p].stopping {
        phase := FinishTurn(p, phase, turn.storeAccepted);
      }
    }

    /** The drain loop: whatever the other tasks do during its awaits, the object ends as the specification says. */
    method ConsumePartition(p: nat, turns: seq<Turn>, start: nat) returns (next: nat, phase: Phase<()>)
      requires Valid() && p in partitions && maxUnexpected >= 1
      modifies this`pausedAtBroker, this`storedOffsets, partitions[p]
      ensures Valid()
      ensures AsOwner(p, next, Snapshot(p), phase) ==
              AfterTurns(AsOwner(p, start, old(Snapshot(p)), Idle), turns, highWatermark, maxUnexpected)
      ensures storedOffsets - {p} == old(storedOffsets) - {p}
    {
      next, phase := start, Idle;
      ghost var o0 := AsOwner(p, start, Snapshot(p), Idle);
      var i := 0;
      assert turns[0..] == turns;
      while i < |turns| && phase.Idle?      // while not state.stopping.is_set()
        invariant i <= |turns| && Valid()
        invariant AfterTurns(o0, turns, highWatermark, maxUnexpected)
                  == AfterTurns(AsOwner(p, next, Snapshot(p), phase), turns[i..], highWatermark, maxUnexpected)
        invariant storedOffsets - {p} == old(storedOffsets) - {p}
      {
        assert turns[i..][1..] == turns[i + 1..];
        next, phase := OneTurn(p, turns[i], next);
        i := i + 1;
      }
    }
  }

  // ---------------------------------------------------------------------------
  // The drain loop refines the owner steps
  // ---------------------------------------------------------------------------

  lemma RunOneMore(o: Owner<()>, steps: seq<OwnerStep<()>>, s: OwnerStep<()>, highWatermark: nat, maxUnexpected: nat)
    ensures RunOwner(o, steps + [s], highWatermark, maxUnexpected) ==
            var before := RunOwner(o, steps, highWatermark, maxUnexpected);
            if CanStep(before, s) then StepOwner(before, s, highWatermark, maxUnexpected) else before
  {
    assert (steps + [s])[..|steps|] == steps;
  }

  lemma {:induction false} RunBoth(o: Owner<()>, a: seq<OwnerStep<()>>, b: seq<OwnerStep<()>>, highWatermark: nat, maxUnexpected: nat)
    ensures RunOwner(o, a + b, highWatermark, maxUnexpected) ==
            RunOwner(RunOwner(o, a, highWatermark, maxUnexpected), b, highWatermark, maxUnexpected)
  {
    if b == [] {
      assert a + b == a;
    } else {
      var n := |b| - 1;
      RunBoth(o, a, b[..n], highWatermark, maxUnexpected);
      assert (a + b)[..|a| + n] == a + b[..n];
    }
  }

  /** The owner steps one pass of the retry loop amounts to. */
  ghost function PassSteps(p: Phase<()>, pass: Pass): seq<OwnerStep<()>> {
    if p.Ready? then (if pass.attempt.Succeeds? then [Score(()), Settle] else [Fail(pass.attempt.failure)])
    else if p.Undeliverable? && pass.acknowledged then [Settle]
    else []
  }

  /** The retry loop, whatever passes it makes, is a run of owner steps that changes the phase alone. */
  lemma {:induction false} HandleTrace(o: Owner<()>, passes: seq<Pass>, highWatermark: nat, maxUnexpected: nat)
    returns (trace: seq<OwnerStep<()>>)
    requires o.phase.Ready?
    ensures RunOwner(o, trace, highWatermark, maxUnexpected) == o.(phase := AfterPasses(o.phase, passes, maxUnexpected))
  {
    if passes == [] {
      trace := [];
    } else {
      var n := |passes| - 1;
      trace := HandleTrace(o, passes[..n], highWatermark, maxUnexpected);
      var before := o.(phase := AfterPasses(o.phase, passes[..n], maxUnexpected));
      var steps := PassSteps(before.phase, passes[n]);
      RunBoth(o, trace, steps, highWatermark, maxUnexpected);
      PassIsSteps(before, passes[n], highWatermark, maxUnexpected);
      trace := trace + steps;
    }
  }

  lemma PassIsSteps(o: Owner<()>, pass: Pass, highWatermark: nat, maxUnexpected: nat)
    ensures RunOwner(o, PassSteps(o.phase, pass), highWatermark, maxUnexpected)
            == o.(phase := PassOn(o.phase, pass, maxUnexpected))
  {
    if o.phase.Ready? && pass.attempt.Succeeds? {
      RunOneMore(o, [Score(())], Settle, highWatermark, maxUnexpected);
      RunOneMore(o, [], Score(()), highWatermark, maxUnexpected);
      assert [Score(())] + [Settle] == PassSteps(o.phase, pass);
      assert [] + [Score(())] == [Score(())];
    } else if o.phase.Ready? {
      RunOneMore(o, [], Fail(pass.attempt.failure), highWatermark, maxUnexpected);
      assert [] + [Fail(pass.attempt.failure)] == PassSteps(o.phase, pass);
    } else if o.phase.Undeliverable? && pass.acknowledged {
      RunOneMore(o, [], Settle, highWatermark, maxUnexpected);
      assert [] + [Settle] == PassSteps(o.phase, pass);
    }
  }

  lemma {:induction false} OthersAreSteps(o: Owner<()>, others: seq<Other>, highWatermark: nat, maxUnexpected: nat)
    returns (trace: seq<OwnerStep<()>>)
    ensures RunOwner(o, trace, highWatermark, maxUnexpected) == AfterOthers(o, others, highWatermark)
    decreases |others|
  {
    if others == [] {
      trace := [];
    } else {
      var first: seq<OwnerStep<()>> := if others[0].StopAsked? then [Stop] else [Deliver];
      RunOneMore(o, [], first[0], highWatermark, maxUnexpected);
      assert [] + [first[0]] == first;
      trace := OthersAreSteps(AfterOther(o, others[0], highWatermark), others[1..], highWatermark, maxUnexpected);
      RunBoth(o, first, trace, highWatermark, maxUnexpected);
      trace := first + trace;
    }
  }

  lemma {:induction false} OthersKeepPhase(o: Owner<()>, others: seq<Other>, highWatermark: nat)
    ensures AfterOthers(o, others, highWatermark).phase == o.phase
    decreases |others|
  {
    if others != [] { OthersKeepPhase(AfterOther(o, others[0], highWatermark), others[1..], highWatermark); }
  }

  lemma HandleIsSteps(taken: Owner<()>, turn: Turn, highWatermark: nat, maxUnexpected: nat)
    returns (trace: seq<OwnerStep<()>>)
    requires taken.phase.Ready?
    ensures RunOwner(taken, trace, highWatermark, maxUnexpected) == AfterHandle(taken, turn, highWatermark, maxUnexpected)
  {
    var waited := AfterOthers(taken, turn.during, highWatermark);
    trace := OthersAreSteps(taken, turn.during, highWatermark, maxUnexpected);
    OthersKeepPhase(taken, turn.during, highWatermark);
    var more := HandleTrace(waited, turn.passes, highWatermark, maxUnexpected);
    RunBoth(taken, trace, more, highWatermark, maxUnexpected);
    trace := trace + more;
    var handled := waited.(phase := AfterPasses(taken.phase, turn.passes, maxUnexpected));
    if handled.phase.Handled? {
      RunOneMore(taken, trace, OwnerStep.Store(turn.storeAccepted), highWatermark, maxUnexpected);
      trace := trace + [OwnerStep.Store(turn.storeAccepted)];
    } else if handled.stopping && (handled.phase.Ready? || handled.phase.Undeliverable?) {
      RunOneMore(taken, trace, OwnerStep.Abandon, highWatermark, maxUnexpected);
      trace := trace + [OwnerStep.Abandon];
    }
  }

  lemma TurnIsSteps(o: Owner<()>, turn: Turn, highWatermark: nat, maxUnexpected: nat) returns (trace: seq<OwnerStep<()>>)
    requires o.phase.Idle?
    ensures RunOwner(o, trace, highWatermark, maxUnexpected) == AfterTurn(o, turn, highWatermark, maxUnexpected)
  {
    var woken := AfterOthers(o, turn.beforeGet, highWatermark);
    trace := OthersAreSteps(o, turn.beforeGet, highWatermark, maxUnexpected);
    OthersKeepPhase(o, turn.beforeGet, highWatermark);
    if woken.queue != [] {
      RunOneMore(o, trace, Take, highWatermark, maxUnexpected);
      trace := trace + [Take];
      if Taken(woken).phase.Ready? {
        var more := HandleIsSteps(Taken(woken), turn, highWatermark, maxUnexpected);
        RunBoth(o, trace, more, highWatermark, maxUnexpected);
        trace := trace + more;
      }
    }
  }

  /** The drain loop is a run of owner steps: what is proved of every such run is true of the loop. */
  lemma {:induction false} TurnsAreSteps(o: Owner<()>, turns: seq<Turn>, highWatermark: nat, maxUnexpected: nat)
    returns (trace: seq<OwnerStep<()>>)
    ensures RunOwner(o, trace, highWatermark, maxUnexpected) == AfterTurns(o, turns, highWatermark, maxUnexpected)
    decreases |turns|
  {
    if turns == [] || !o.phase.Idle? {
      trace := [];
    } else {
      var first := TurnIsSteps(o, turns[0], highWatermark, maxUnexpected);
      trace := TurnsAreSteps(AfterTurn(o, turns[0], highWatermark, maxUnexpected), turns[1..], highWatermark, maxUnexpected);
      RunBoth(o, first, trace, highWatermark, maxUnexpected);
      trace := first + trace;
    }
  }

  /**
   So, from a fresh assignment and whatever happens during its awaits, the drain loop keeps the queue in offset
   order and the backlog within the watermark, never idles while paused without work, and stores only offsets of
   messages it has finished, from the committed offset on.
   */
  lemma DrainLoopIsSafe(p: nat, committed: nat, turns: seq<Turn>, highWatermark: nat, maxUnexpected: nat)
    requires highWatermark >= 1
    ensures var o := AfterTurns(Assigned(p, committed), turns, highWatermark, maxUnexpected);
            && InOrder(o) && Flowing(o, highWatermark)
            && (o.paused && !o.stopping && o.phase.Idle? ==> o.queue != [] && o.queue[0] == Message(Position(o)))
            && (o.stored.Some? ==> committed < o.stored.value)
            && (o.stored.Some? && !o.stopping && (o.phase.InFlight() || o.phase.Idle?) ==> o.stored.value <= Position(o))
  {
    var trace := TurnsAreSteps(Assigned(p, committed), turns, highWatermark, maxUnexpected);
    BackpressureNeverWedges<()>(p, committed, trace, highWatermark, maxUnexpected);
    SettlesInOffsetOrder<()>(p, committed, trace, highWatermark, maxUnexpected);
  }

  lemma LeavingIsSteps(o: Owner<()>, pass: Option<Pass>, accepted: bool, highWatermark: nat, maxUnexpected: nat)
    returns (trace: seq<OwnerStep<()>>)
    requires o.stopping && (o.phase.Ready? || o.phase.Undeliverable?)
    ensures var phase := if pass.Some? then PassOn(o.phase, pass.value, maxUnexpected) else o.phase;
            RunOwner(o, trace, highWatermark, maxUnexpected) == LeftHandle(o, phase, accepted, highWatermark)
  {
    trace := [];
    if pass.Some? {
      trace := PassSteps(o.phase, pass.value);
      PassIsSteps(o, pass.value, highWatermark, maxUnexpected);
    }
    var phase := if pass.Some? then PassOn(o.phase, pass.value, maxUnexpected) else o.phase;
    assert RunOwner(o, trace, highWatermark, maxUnexpected) == o.(phase := phase);
    var last := if phase.Handled? then OwnerStep.Store(accepted) else OwnerStep.Abandon;
    RunOneMore(o, trace, last, highWatermark, maxUnexpected);
    trace := trace + [last];
  }

  lemma OneStep(o: Owner<()>, s: OwnerStep<()>, highWatermark: nat, maxUnexpected: nat)
    requires CanStep(o, s)
    ensures RunOwner(o, [s], highWatermark, maxUnexpected) == StepOwner(o, s, highWatermark, maxUnexpected)
  {
    RunOneMore(o, [], s, highWatermark, maxUnexpected);
    assert [] + [s] == [s];
  }

  /** Stopping a task is a run of owner steps too. */
  lemma StopIsSteps(o: Owner<()>, ending: Ending, highWatermark: nat, maxUnexpected: nat) returns (trace: seq<OwnerStep<()>>)
    requires Awaiting(o.phase)
    ensures RunOwner(o, trace, highWatermark, maxUnexpected) == AfterStop(o, ending, highWatermark, maxUnexpected)
  {
    var stopped := StopRequested(o);
    OneStep(o, Stop, highWatermark, maxUnexpected);
    match ending
    case Cancelled =>
      OneStep(stopped, Cancel, highWatermark, maxUnexpected);
      RunBoth(o, [Stop], [Cancel], highWatermark, maxUnexpected);
      trace := [Stop] + [Cancel];
    case Finished(pass, accepted) =>
      if stopped.phase.Idle? {
        OneStep(stopped, Take, highWatermark, maxUnexpected);
        RunBoth(o, [Stop], [Take], highWatermark, maxUnexpected);
        trace := [Stop] + [Take];
      } else {
        var more := LeavingIsSteps(stopped, pass, accepted, highWatermark, maxUnexpected);
        RunBoth(o, [Stop], more, highWatermark, maxUnexpected);
        trace := [Stop] + more;
      }
  }

  /** The message in flight was finished: processed, or its dead letter acknowledged. */
  predicate FinishedInFlight(phase: Phase<()>, ending: Ending) {
    && ending.Finished? && ending.pass.Some?
    && ((phase.Ready? && ending.pass.value.attempt.Succeeds?) || (phase.Undeliverable? && ending.pass.value.acknowledged))
  }

  /**
   What a stop leaves for the next owner: the stored offset moves past the message in flight iff that message was
   finished and the broker took the offset; it never reaches a discarded message, so those are all delivered again.
   */
  lemma StopDiscardsNothingStored(o: Owner<()>, ending: Ending, start: nat, done: nat, highWatermark: nat, maxUnexpected: nat)
    requires StandsAfter(o, start, done) && !o.stopping && Awaiting(o.phase)
    ensures var after := AfterStop(o, ending, highWatermark, maxUnexpected);
            && after.phase.Stopped?
            && after.stored == (if FinishedInFlight(o.phase, ending) && ending.storeAccepted
                                then Some(o.phase.offset + 1) else o.stored)
            && (forall i :: 0 <= i < |o.queue| ==>
                  o.queue[i].Message? && (after.stored.Some? ==> after.stored.value <= o.queue[i].offset))
            && (!FinishedInFlight(o.phase, ending) && o.phase.InFlight() && after.stored.Some? ==>
                  after.stored.value <= o.phase.offset)
  {
  }
}
