/**
 One consumer incarnation of one partition: its queue, its flags, and where its drain
 task stands. Every function below is the code between two awaits of the worker.
 */
module PartitionProtocol {
  import opened Wrappers

  datatype FailureClass = Transient | Permanent | Unexpected

  /** What sits in the asyncio queue: a polled message, or the `None` that wakes an idle task. */
  datatype Item = Message(offset: nat) | Wake

  /**
   Where the drain task stands. `Ready` and `Undeliverable` are the top of the retry loop,
   without and with a pending dead letter; `Scored` is between the velocity read and the insert,
   `Handled` between the return of `_handle` and `store_offsets`.
   */
  datatype Phase<D> =
    | Idle
    | Ready(offset: nat, attempts: nat, unexpected: nat)
    | Scored(offset: nat, attempts: nat, unexpected: nat, decision: D)
    | Undeliverable(offset: nat, why: FailureClass, attempts: nat)
    | Handled(offset: nat)
    | Stopped
  {
    predicate InFlight() { Ready? || Scored? || Undeliverable? || Handled? }
  }

  datatype Owner<D> = Owner(
    partition: nat,
    next: nat,               // the next offset a poll returns
    queue: seq<Item>,
    paused: bool,
    stopping: bool,
    phase: Phase<D>,
    stored: Option<nat>)     // librdkafka's stored offset, committed in the background

  /** A fresh assignment resumes from the committed offset. */
  function Assigned<D>(partition: nat, committed: nat): Owner<D> {
    Owner(partition, committed, [], false, false, Idle, None)
  }

  /** `_dispatch`: a delivery joins the queue, and one that fills it to the watermark also pauses deliveries. */
  function Dispatched<D>(o: Owner<D>, highWatermark: nat): Owner<D> {
    if o.stopping then o.(next := o.next + 1)
    else
      var queue := o.queue + [Message(o.next)];
      o.(queue := queue, next := o.next + 1, paused := o.paused || |queue| >= highWatermark)
  }

  /** `queue.get()` returns: start on the message, or leave the loop. */
  function Taken<D>(o: Owner<D>): Owner<D>
    requires o.queue != []
  {
    var rest := o.(queue := o.queue[1..]);
    if o.queue[0].Wake? || o.stopping then rest.(phase := Stopped)
    else rest.(phase := Ready(o.queue[0].offset, 0, 0))
  }

  /** The velocity look-back has answered and the rules have been evaluated. */
  function ScoredWith<D>(o: Owner<D>, d: D): Owner<D>
    requires o.phase.Ready?
  {
    o.(phase := Scored(o.phase.offset, o.phase.attempts, o.phase.unexpected, d))
  }

  /** The `except` clause of `_handle` for a failed attempt at processing. */
  function FailedPhase<D>(p: Phase<D>, failure: FailureClass, maxUnexpected: nat): Phase<D>
    requires p.Ready? || p.Scored?
  {
    var attempts := p.attempts + 1;
    var unexpected := if failure.Unexpected? then p.unexpected + 1 else p.unexpected;
    if failure.Permanent? || (failure.Unexpected? && unexpected >= maxUnexpected) then
      Undeliverable(p.offset, failure, attempts)
    else
      Ready(p.offset, attempts, unexpected)
  }

  function Failed<D>(o: Owner<D>, failure: FailureClass, maxUnexpected: nat): Owner<D>
    requires o.phase.Ready? || o.phase.Scored?
  {
    o.(phase := FailedPhase(o.phase, failure, maxUnexpected))
  }

  /** `_handle` returns True: the decision is committed, or the dead letter acknowledged. */
  function HandledNow<D>(o: Owner<D>): Owner<D>
    requires o.phase.InFlight()
  {
    o.(phase := Handled(o.phase.offset))
  }

  /** The end of one round of the drain loop: resume at half the watermark. */
  function Drained<D>(o: Owner<D>, highWatermark: nat): Owner<D> {
    o.(phase := if o.stopping then Stopped else Idle,
       paused := o.paused && |o.queue| > highWatermark / 2)
  }

  /** `store_offsets` succeeds or is refused (partition lost); either way the round ends. */
  function StoredOffset<D>(o: Owner<D>, accepted: bool, highWatermark: nat): Owner<D>
    requires o.phase.Handled?
  {
    Drained(if accepted then o.(stored := Some(o.phase.offset + 1)) else o, highWatermark)
  }

  /** `_stop_partitions` on revoke, loss or shutdown: discard queued messages and wake an idle task. */
  function StopRequested<D>(o: Owner<D>): Owner<D> {
    o.(stopping := true, queue := [Wake])
  }

  /** `_handle` returns False at the top of its loop: the message is left for redelivery. */
  function Abandoned<D>(o: Owner<D>, highWatermark: nat): Owner<D>
    requires o.stopping && (o.phase.Ready? || o.phase.Undeliverable?)
  {
    Drained(o, highWatermark)
  }

  // ---------------------------------------------------------------------------
  // Order and backpressure of one owner
  // ---------------------------------------------------------------------------

  /** The offset of the next message this owner will finish. */
  function Position<D>(o: Owner<D>): nat {
    if o.phase.Handled? then o.phase.offset + 1
    else if o.phase.InFlight() then o.phase.offset
    else if o.queue != [] && o.queue[0].Message? then o.queue[0].offset
    else o.next
  }

  /** The queue is exactly the unbroken run of offsets between the message in flight and the next poll. */
  ghost predicate InOrder<D>(o: Owner<D>) {
    && (!o.stopping ==>
          && |o.queue| <= o.next
          && (forall i :: 0 <= i < |o.queue| ==> o.queue[i] == Message(o.next - |o.queue| + i))
          && (o.phase.InFlight() ==> o.phase.offset + 1 == o.next - |o.queue|)
          && !o.phase.Stopped?)
    && (o.stopping ==> o.queue == [Wake] || (o.queue == [] && o.phase.Stopped?))
  }

  /** Backlog bounded, unpaused means room left, and a paused owner always has something to finish. */
  predicate Flowing<D>(o: Owner<D>, highWatermark: nat) {
    !o.stopping ==>
      && |o.queue| <= highWatermark
      && (!o.paused ==> |o.queue| < highWatermark)
      && (o.paused ==> o.phase.InFlight() || |o.queue| > highWatermark / 2)
  }

  /** One step of an owner, with Kafka's side of the contract: nothing is delivered while paused. */
  datatype OwnerStep<D> =
    | Deliver
    | Take
    | Score(d: D)
    | Fail(failure: FailureClass)
    | Settle
    | Store(accepted: bool)
    | Stop
    | Abandon
    | Cancel

  predicate CanStep<D>(o: Owner<D>, s: OwnerStep<D>) {
    match s
    case Deliver => !o.paused
    case Take => o.phase.Idle? && o.queue != []
    case Score(_) => o.phase.Ready?
    case Fail(_) => o.phase.Ready? || o.phase.Scored?
    case Settle => o.phase.Scored? || o.phase.Undeliverable?
    case Store(_) => o.phase.Handled?
    case Stop => true
    case Abandon => o.stopping && (o.phase.Ready? || o.phase.Undeliverable?)
    case Cancel => o.stopping
  }

  function StepOwner<D>(o: Owner<D>, s: OwnerStep<D>, highWatermark: nat, maxUnexpected: nat): Owner<D>
    requires CanStep(o, s)
  {
    match s
    case Deliver => Dispatched(o, highWatermark)
    case Take => Taken(o)
    case Score(d) => ScoredWith(o, d)
    case Fail(failure) => Failed(o, failure, maxUnexpected)
    case Settle => HandledNow(o)
    case Store(accepted) => StoredOffset(o, accepted, highWatermark)
    case Stop => StopRequested(o)
    case Abandon => Abandoned(o, highWatermark)
    case Cancel => o.(phase := Stopped)
  }

  /** A run of one owner; a step that cannot happen is skipped. */
  function RunOwner<D>(o: Owner<D>, steps: seq<OwnerStep<D>>, highWatermark: nat, maxUnexpected: nat): Owner<D> {
    if steps == [] then o
    else
      var before := RunOwner(o, steps[..|steps| - 1], highWatermark, maxUnexpected);
      var s := steps[|steps| - 1];
      if CanStep(before, s) then StepOwner(before, s, highWatermark, maxUnexpected) else before
  }

  lemma StepKeepsOrder<D>(o: Owner<D>, s: OwnerStep<D>, highWatermark: nat, maxUnexpected: nat)
    requires InOrder(o) && CanStep(o, s)
    ensures InOrder(StepOwner(o, s, highWatermark, maxUnexpected))
  {
  }

  lemma StepKeepsFlowing<D>(o: Owner<D>, s: OwnerStep<D>, highWatermark: nat, maxUnexpected: nat)
    requires highWatermark >= 1
    requires InOrder(o) && Flowing(o, highWatermark) && CanStep(o, s)
    ensures Flowing(StepOwner(o, s, highWatermark, maxUnexpected), highWatermark)
  {
  }

  /**
   Backpressure never wedges: whatever the interleaving of deliveries and drain steps, the backlog stays
   within the watermark, an unpaused partition has room, and a paused one has work for its drain task.
   */
  lemma {:induction false} BackpressureNeverWedges<D>(partition: nat, committed: nat, steps: seq<OwnerStep<D>>, highWatermark: nat, maxUnexpected: nat)
    requires highWatermark >= 1
    ensures var o := RunOwner(Assigned<D>(partition, committed), steps, highWatermark, maxUnexpected);
            && InOrder(o) && Flowing(o, highWatermark)
            && (o.paused && !o.stopping && o.phase.Idle? ==> o.queue != [] && o.queue[0] == Message(Position(o)))
  {
    if steps != [] {
      var n := |steps| - 1;
      BackpressureNeverWedges<D>(partition, committed, steps[..n], highWatermark, maxUnexpected);
      var before := RunOwner(Assigned<D>(partition, committed), steps[..n], highWatermark, maxUnexpected);
      if CanStep(before, steps[n]) {
        StepKeepsOrder(before, steps[n], highWatermark, maxUnexpected);
        StepKeepsFlowing(before, steps[n], highWatermark, maxUnexpected);
      }
    }
  }

  /** `k` messages are delivered while the drain task does nothing; a paused partition gets none. */
  function Deliveries<D>(o: Owner<D>, k: nat, highWatermark: nat): Owner<D> {
    if k == 0 then o
    else
      var before := Deliveries(o, k - 1, highWatermark);
      if before.paused then before else Dispatched(before, highWatermark)
  }

  /** Deliveries are paused by exactly the one that brings the backlog up to the watermark. */
  lemma {:induction false} PausesAtWatermark<D>(o: Owner<D>, k: nat, highWatermark: nat)
    requires !o.stopping && !o.paused && |o.queue| < highWatermark
    ensures var room, r := highWatermark - |o.queue|, Deliveries(o, k, highWatermark);
            && (r.paused <==> k >= room)
            && |r.queue| == |o.queue| + (if k < room then k else room)
            && r.next == o.next + (if k < room then k else room)
            && r.phase == o.phase && r.stored == o.stored && !r.stopping
  {
    if k > 0 { PausesAtWatermark(o, k - 1, highWatermark); }
  }

  /** The drain task finishes `k` queued messages while nothing is delivered. */
  function Rounds<D>(o: Owner<D>, d: D, k: nat, highWatermark: nat): Owner<D>
    requires InOrder(o) && o.phase.Idle? && !o.stopping && k <= |o.queue|
    ensures var r := Rounds(o, d, k, highWatermark);
            InOrder(r) && r.phase.Idle? && !r.stopping && |r.queue| == |o.queue| - k && r.next == o.next
  {
    if k == 0 then o
    else
      StoredOffset(HandledNow(ScoredWith(Taken(Rounds(o, d, k - 1, highWatermark)), d)), true, highWatermark)
  }

  /** A paused partition is resumed by exactly the round that brings its backlog down to half the watermark. */
  lemma {:induction false} ResumesAtHalf<D>(o: Owner<D>, d: D, k: nat, highWatermark: nat)
    requires InOrder(o) && o.phase.Idle? && !o.stopping && k <= |o.queue|
    requires o.paused && |o.queue| > highWatermark / 2
    ensures var r := Rounds(o, d, k, highWatermark);
            && (r.paused <==> k < |o.queue| - highWatermark / 2)
            && (k > 0 ==> r.stored == Some(Position(o) + k) && Position(r) == Position(o) + k)
  {
    if k > 0 {
      ResumesAtHalf(o, d, k - 1, highWatermark);
      var before := Rounds(o, d, k - 1, highWatermark);
      assert before.queue[0] == Message(before.next - |before.queue|);
    }
  }

  /** The offsets this owner settles during a run, in the order it settles them. */
  function SettledOffsets<D>(o: Owner<D>, steps: seq<OwnerStep<D>>, highWatermark: nat, maxUnexpected: nat): seq<nat> {
    if steps == [] then []
    else
      var n := |steps| - 1;
      var before := RunOwner(o, steps[..n], highWatermark, maxUnexpected);
      SettledOffsets(o, steps[..n], highWatermark, maxUnexpected)
      + (if steps[n].Settle? && CanStep(before, Settle) then [before.phase.offset] else [])
  }

  /** Where an owner stands after settling `done` messages from `start` on. */
  ghost predicate StandsAfter<D>(o: Owner<D>, start: nat, done: nat) {
    && InOrder(o)
    && (o.phase.InFlight() || (o.phase.Idle? && !o.stopping) ==> Position(o) == start + done)
    && (o.phase.Handled? ==> done > 0)
    && (o.stored.Some? ==> start < o.stored.value <= start + done)
  }

  lemma StepStands<D>(o: Owner<D>, s: OwnerStep<D>, start: nat, done: nat, highWatermark: nat, maxUnexpected: nat)
    requires StandsAfter(o, start, done) && CanStep(o, s)
    ensures StandsAfter(StepOwner(o, s, highWatermark, maxUnexpected), start, if s.Settle? then done + 1 else done)
    ensures s.Settle? ==> o.phase.offset == start + done
  {
    StepKeepsOrder(o, s, highWatermark, maxUnexpected);
  }

  /**
   Strictly in order: in every run an owner settles exactly the offsets from its committed offset on, each
   once and none skipped, and stores only offsets of messages it has settled.
   */
  lemma {:induction false} SettlesInOffsetOrder<D>(partition: nat, committed: nat, steps: seq<OwnerStep<D>>, highWatermark: nat, maxUnexpected: nat)
    ensures var o0 := Assigned<D>(partition, committed);
            var settled := SettledOffsets(o0, steps, highWatermark, maxUnexpected);
            && (forall i :: 0 <= i < |settled| ==> settled[i] == committed + i)
            && StandsAfter(RunOwner(o0, steps, highWatermark, maxUnexpected), committed, |settled|)
  {
    if steps != [] {
      var n, o0 := |steps| - 1, Assigned<D>(partition, committed);
      SettlesInOffsetOrder<D>(partition, committed, steps[..n], highWatermark, maxUnexpected);
      var before := RunOwner(o0, steps[..n], highWatermark, maxUnexpected);
      if CanStep(before, steps[n]) {
        StepStands(before, steps[n], committed, |SettledOffsets(o0, steps[..n], highWatermark, maxUnexpected)|,
                   highWatermark, maxUnexpected);
      }
    }
  }
}
