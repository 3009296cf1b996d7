/**
 The worker object as one owner of the fleet: whatever its drain loop does, interleaved in any way with the rest
 of the fleet, is a run of the transition system, so what is proved of every run holds of the object.
 */
module ObjectInFleet {
  import opened Wrappers
  import opened Records
  import opened Store
  import opened PartitionProtocol
  import opened Delivery
  import opened RetryMachine
  import opened Progress
  import opened Replay
  import Worker

  // ---------------------------------------------------------------------------
  // What the object sees of an owner
  // ---------------------------------------------------------------------------

  function ErasePhase(p: Phase<Decision>): Phase<()> {
    match p
    case Idle => Idle
    case Ready(o, attempts, unexpected) => Ready(o, attempts, unexpected)
    case Scored(o, attempts, unexpected, _) => Scored(o, attempts, unexpected, ())
    case Undeliverable(o, why, attempts) => Undeliverable(o, why, attempts)
    case Handled(o) => Handled(o)
    case Stopped => Stopped
  }

  /** Everything but the decision waiting to be written, which is the handler's business. */
  function Erase(o: Owner<Decision>): Owner<()> {
    Owner(o.partition, o.next, o.queue, o.paused, o.stopping, ErasePhase(o.phase), o.stored)
  }

  /** What recording this decision for the message in hand would answer. */
  predicate WriteRefused(c: Config, s: State, o: Owner<Decision>, d: Decision)
    requires o.phase.InFlight()
  {
    Record(s.tables, d, SourceAt(c, o.partition, o.phase.offset)).1.Err?
  }

  function BodyOf(c: Config, o: Owner<Decision>): Option<Event>
    requires o.phase.InFlight()
  {
    BodyAt(c, o.partition, o.phase.offset)
  }

  /**
   What the log and the tables make of a step at this moment: there is a message to deliver; a handler call gets
   past parsing iff the message parses, fails for good only over a message that does not or a conflict, and
   settles only a decision that is not refused.
   */
  predicate Possible(c: Config, s: State, o: Owner<Decision>, step: OwnerStep<()>) {
    match step
    case Deliver => InLogs(c, o.partition, o.next)
    case Score(_) => o.phase.Ready? ==> BodyOf(c, o).Some?
    case Fail(f) =>
      f.Permanent? ==>
        && (o.phase.Scored? ==> WriteRefused(c, s, o, o.phase.decision))
        && (o.phase.Ready? && BodyOf(c, o).Some? ==>
              WriteRefused(c, s, o, Decide(c.rules, s.tables.transactions, BodyOf(c, o).value)))
    case Settle => o.phase.Scored? ==> !WriteRefused(c, s, o, o.phase.decision)
    case _ => true
  }

  /** The steps of the fleet that a step of the object is. */
  function LiftStep(c: Config, s: State, w: nat, step: OwnerStep<()>): seq<Step>
    requires w in s.owners
  {
    var o := s.owners[w];
    match step
    case Deliver => [Poll(w)]
    case Take => [Local(w, Act.Take)]
    case Score(_) => [ReadVelocity(w)]
    case Fail(f) =>
      if !f.Permanent? then [Local(w, Fault(f))]
      else if o.phase.Scored? then [WriteDecision(w, true)]
      else if o.phase.Ready? && BodyOf(c, o).Some? then [ReadVelocity(w), WriteDecision(w, true)]
      else [ReadVelocity(w)]
    case Settle => if o.phase.Scored? then [WriteDecision(w, true)] else [PublishLetter(w, true)]
    case Store(accepted) => [Local(w, StoreOffset(accepted))]
    case Stop => [Local(w, Act.Stop)]
    case Abandon => [Local(w, Act.Abandon)]
    case Cancel => [Local(w, Act.Cancel)]
  }

  /** The owner has become what the object says, and no other owner has moved. */
  ghost predicate OnlyMoved(s: State, s': State, w: nat, o: Owner<()>) {
    && w in s'.owners && Erase(s'.owners[w]) == o
    && s'.owners.Keys == s.owners.Keys
    && forall v :: v in s.owners && v != w ==> s'.owners[v] == s.owners[v]
  }

  // ---------------------------------------------------------------------------
  // One step
  // ---------------------------------------------------------------------------

  lemma AfterOne(c: Config, s: State, step: Step)
    ensures After(c, s, [step]) == Apply(c, s, step)
  {
    assert [step][..0] == [];
  }

  lemma AfterTwo(c: Config, s: State, first: Step, second: Step)
    ensures After(c, s, [first, second]) == Apply(c, Apply(c, s, first), second)
  {
    assert [first, second][..1] == [first];
    AfterOne(c, s, first);
  }

  lemma LocalLifts(c: Config, s: State, w: nat, act: Act, step: OwnerStep<()>)
    requires w in s.owners && CanStep(Erase(s.owners[w]), step) && act != Fault(Permanent)
    requires match act
             case Take => step == OwnerStep.Take
             case Fault(f) => step == OwnerStep.Fail(f)
             case StoreOffset(accepted) => step == OwnerStep.Store(accepted)
             case Stop => step == OwnerStep.Stop
             case Abandon => step == OwnerStep.Abandon
             case Cancel => step == OwnerStep.Cancel
    ensures OnlyMoved(s, Apply(c, s, Local(w, act)), w, StepOwner(Erase(s.owners[w]), step, c.highWatermark, c.maxUnexpected))
  {
  }

  /** The message parses: the look-back is read and a decision made. Otherwise it is refused for good. */
  lemma ReadLifts(c: Config, s: State, w: nat)
    requires w in s.owners && s.owners[w].phase.Ready?
    ensures var o := s.owners[w];
            var s' := Apply(c, s, ReadVelocity(w));
            && s'.tables == s.tables
            && OnlyMoved(s, s', w, if BodyOf(c, o).Some? then ScoredWith(Erase(o), ()) else Failed(Erase(o), Permanent, c.maxUnexpected))
            && (BodyOf(c, o).Some? ==>
                  s'.owners[w].phase == Scored(o.phase.offset, o.phase.attempts, o.phase.unexpected,
                                               Decide(c.rules, s.tables.transactions, BodyOf(c, o).value))
                  && s'.owners[w].partition == o.partition)
  {
  }

  lemma WriteLifts(c: Config, s: State, w: nat)
    requires w in s.owners && s.owners[w].phase.Scored?
    ensures var o := s.owners[w];
            OnlyMoved(s, Apply(c, s, WriteDecision(w, true)), w,
                      if WriteRefused(c, s, o, o.phase.decision) then Failed(Erase(o), Permanent, c.maxUnexpected)
                      else HandledNow(Erase(o)))
  {
  }

  lemma PublishLifts(c: Config, s: State, w: nat)
    requires w in s.owners && s.owners[w].phase.Undeliverable?
    ensures OnlyMoved(s, Apply(c, s, PublishLetter(w, true)), w, HandledNow(Erase(s.owners[w])))
  {
  }

  lemma PollLifts(c: Config, s: State, w: nat)
    requires w in s.owners && !s.owners[w].paused && InLogs(c, s.owners[w].partition, s.owners[w].next)
    ensures OnlyMoved(s, Apply(c, s, Poll(w)), w, Dispatched(Erase(s.owners[w]), c.highWatermark))
  {
  }

  /** A conflict is met in two steps, and leaves the phase a failure of the whole attempt leaves. */
  lemma ConflictLifts(c: Config, s: State, w: nat)
    requires w in s.owners && s.owners[w].phase.Ready? && BodyOf(c, s.owners[w]).Some?
    requires WriteRefused(c, s, s.owners[w], Decide(c.rules, s.tables.transactions, BodyOf(c, s.owners[w]).value))
    ensures OnlyMoved(s, After(c, s, [ReadVelocity(w), WriteDecision(w, true)]), w,
                      Failed(Erase(s.owners[w]), Permanent, c.maxUnexpected))
  {
    AfterTwo(c, s, ReadVelocity(w), WriteDecision(w, true));
    ReadLifts(c, s, w);
    WriteLifts(c, Apply(c, s, ReadVelocity(w)), w);
  }

  lemma FailLifts(c: Config, s: State, w: nat, f: FailureClass)
    requires w in s.owners && CanStep(Erase(s.owners[w]), Fail(f)) && Possible(c, s, s.owners[w], Fail(f))
    ensures OnlyMoved(s, After(c, s, LiftStep(c, s, w, Fail(f))), w, Failed(Erase(s.owners[w]), f, c.maxUnexpected))
  {
    var o := s.owners[w];
    if !f.Permanent? {
      AfterOne(c, s, Local(w, Fault(f)));
      LocalLifts(c, s, w, Fault(f), Fail(f));
    } else if o.phase.Scored? {
      AfterOne(c, s, WriteDecision(w, true));
      WriteLifts(c, s, w);
    } else if BodyOf(c, o).Some? {
      ConflictLifts(c, s, w);
    } else {
      AfterOne(c, s, ReadVelocity(w));
      ReadLifts(c, s, w);
    }
  }

  /** Every step of the object that the log and the tables allow is a step or two of the fleet. */
  lemma StepLifts(c: Config, s: State, w: nat, step: OwnerStep<()>)
    requires w in s.owners && CanStep(Erase(s.owners[w]), step) && Possible(c, s, s.owners[w], step)
    ensures OnlyMoved(s, After(c, s, LiftStep(c, s, w, step)), w,
                      StepOwner(Erase(s.owners[w]), step, c.highWatermark, c.maxUnexpected))
  {
    match step
    case Fail(f) => FailLifts(c, s, w, f);
    case Deliver =>
      AfterOne(c, s, Poll(w));
      PollLifts(c, s, w);
    case Score(unit) =>
      assert unit == ();
      AfterOne(c, s, ReadVelocity(w));
      ReadLifts(c, s, w);
    case Settle =>
      if s.owners[w].phase.Scored? {
        AfterOne(c, s, WriteDecision(w, true));
        WriteLifts(c, s, w);
      } else {
        AfterOne(c, s, PublishLetter(w, true));
        PublishLifts(c, s, w);
      }
    case Take => AfterOne(c, s, Local(w, Act.Take)); LocalLifts(c, s, w, Act.Take, step);
    case Store(a) => AfterOne(c, s, Local(w, StoreOffset(a))); LocalLifts(c, s, w, StoreOffset(a), step);
    case Stop => AfterOne(c, s, Local(w, Act.Stop)); LocalLifts(c, s, w, Act.Stop, step);
    case Abandon => AfterOne(c, s, Local(w, Act.Abandon)); LocalLifts(c, s, w, Act.Abandon, step);
    case Cancel => AfterOne(c, s, Local(w, Act.Cancel)); LocalLifts(c, s, w, Act.Cancel, step);
  }

  // ---------------------------------------------------------------------------
  // A run of the object among the others
  // ---------------------------------------------------------------------------

  /**
   One thing that happens while the object runs as owner w: a step of its own, a write or a publish that takes
   effect without the object hearing of it, or a step of anything else in the fleet.
   */
  datatype Happening = Own(step: OwnerStep<()>) | Unheard | Elsewhere(other: Step)

  function UnheardStep(s: State, w: nat): Step
    requires w in s.owners
  {
    if s.owners[w].phase.Scored? then WriteDecision(w, false) else PublishLetter(w, false)
  }

  function LiftEvent(c: Config, s: State, w: nat, e: Happening): seq<Step> {
    if w !in s.owners then []
    else
      match e
      case Own(step) => if CanStep(Erase(s.owners[w]), step) then LiftStep(c, s, w, step) else []
      case Unheard => [UnheardStep(s, w)]
      case Elsewhere(step) => [step]
  }

  predicate EventOk(c: Config, s: State, w: nat, e: Happening) {
    w in s.owners &&
    match e
    case Own(step) => CanStep(Erase(s.owners[w]), step) ==> Possible(c, s, s.owners[w], step)
    case Unheard => s.owners[w].phase.Scored? ==> !WriteRefused(c, s, s.owners[w], s.owners[w].phase.decision)
    case Elsewhere(step) => step.owner != w
  }

  function LiftEvents(c: Config, s: State, w: nat, events: seq<Happening>): seq<Step>
    decreases |events|
  {
    if events == [] then []
    else
      var first := LiftEvent(c, s, w, events[0]);
      first + LiftEvents(c, After(c, s, first), w, events[1..])
  }

  predicate EventsOk(c: Config, s: State, w: nat, events: seq<Happening>)
    decreases |events|
  {
    events == [] ||
    (EventOk(c, s, w, events[0]) && EventsOk(c, After(c, s, LiftEvent(c, s, w, events[0])), w, events[1..]))
  }

  /** The object's own steps among the events. */
  function OwnSteps(events: seq<Happening>): seq<OwnerStep<()>>
    decreases |events|
  {
    if events == [] then []
    else (if events[0].Own? then [events[0].step] else []) + OwnSteps(events[1..])
  }

  lemma UnheardLeavesOwner(c: Config, s: State, w: nat)
    requires w in s.owners && EventOk(c, s, w, Unheard)
    ensures var s' := Apply(c, s, UnheardStep(s, w)); w in s'.owners && s'.owners[w] == s.owners[w]
  {
  }

  lemma ElsewhereLeavesOwner(c: Config, s: State, w: nat, step: Step)
    requires w in s.owners && step.owner != w
    ensures var s' := Apply(c, s, step); w in s'.owners && s'.owners[w] == s.owners[w]
  {
  }

  lemma EventLifts(c: Config, s: State, w: nat, e: Happening)
    requires EventOk(c, s, w, e)
    ensures var s' := After(c, s, LiftEvent(c, s, w, e));
            w in s'.owners
            && Erase(s'.owners[w]) ==
               RunOwner(Erase(s.owners[w]), if e.Own? then [e.step] else [], c.highWatermark, c.maxUnexpected)
  {
    match e
    case Own(step) =>
      Worker.RunOneMore(Erase(s.owners[w]), [], step, c.highWatermark, c.maxUnexpected);
      assert [] + [step] == [step];
      if CanStep(Erase(s.owners[w]), step) { StepLifts(c, s, w, step); }
    case Unheard =>
      AfterOne(c, s, UnheardStep(s, w));
      UnheardLeavesOwner(c, s, w);
    case Elsewhere(step) =>
      AfterOne(c, s, step);
      ElsewhereLeavesOwner(c, s, w, step);
  }

  /** Along any events the owner is what the object's own steps make of it. */
  lemma {:induction false} EventsLift(c: Config, s: State, w: nat, events: seq<Happening>)
    requires w in s.owners && EventsOk(c, s, w, events)
    ensures var s' := After(c, s, LiftEvents(c, s, w, events));
            w in s'.owners
            && Erase(s'.owners[w]) == RunOwner(Erase(s.owners[w]), OwnSteps(events), c.highWatermark, c.maxUnexpected)
    decreases |events|
  {
    if events != [] {
      var first, o := LiftEvent(c, s, w, events[0]), Erase(s.owners[w]);
      var own := if events[0].Own? then [events[0].step] else [];
      var next := After(c, s, first);
      EventLifts(c, s, w, events[0]);
      EventsLift(c, next, w, events[1..]);
      AfterBoth(c, s, first, LiftEvents(c, next, w, events[1..]));
      Worker.RunBoth(o, own, OwnSteps(events[1..]), c.highWatermark, c.maxUnexpected);
    }
  }

  /** The events run the object's drain loop: its own steps make of a fresh assignment what these turns do. */
  ghost predicate RunsTheLoop(c: Config, p: nat, committed: nat, events: seq<Happening>, turns: seq<Worker.Turn>) {
    RunOwner(Assigned<()>(p, committed), OwnSteps(events), c.highWatermark, c.maxUnexpected)
    == Worker.AfterTurns(Assigned<()>(p, committed), turns, c.highWatermark, c.maxUnexpected)
  }

  lemma {:induction false} OwnEvents(trace: seq<OwnerStep<()>>) returns (events: seq<Happening>)
    ensures OwnSteps(events) == trace
    decreases |trace|
  {
    if trace == [] {
      events := [];
    } else {
      var rest := OwnEvents(trace[1..]);
      events := [Own(trace[0])] + rest;
      assert events[1..] == rest;
      assert [trace[0]] + trace[1..] == trace;
    }
  }

  /** Every run of the loop is such a run of its own steps. */
  lemma EveryLoopHasEvents(c: Config, p: nat, committed: nat, turns: seq<Worker.Turn>) returns (events: seq<Happening>)
    ensures RunsTheLoop(c, p, committed, events, turns)
  {
    var trace := Worker.TurnsAreSteps(Assigned(p, committed), turns, c.highWatermark, c.maxUnexpected);
    events := OwnEvents(trace);
  }

  /** A run, then an assignment to owner w, then the events. */
  function JointRun(c: Config, before: seq<Step>, w: nat, p: nat, events: seq<Happening>): seq<Step> {
    var joined := before + [Assign(w, p)];
    joined + LiftEvents(c, Run(c, joined), w, events)
  }

  lemma AssignedOwner(c: Config, before: seq<Step>, w: nat, p: nat)
    requires w !in Run(c, before).owners && p < |Run(c, before).committed|
    ensures var s := Run(c, before + [Assign(w, p)]);
            w in s.owners && s.owners[w] == Assigned(p, Run(c, before).committed[p])
  {
    RunThenAfter(c, before, [Assign(w, p)]);
    AfterOne(c, Run(c, before), Assign(w, p));
  }

  /**
   The object in the fleet: from any reachable state, a newly assigned object that runs its drain loop, among any
   other steps of the fleet, is the owner the loop's specification says, in a state the fleet can reach.
   */
  lemma LoopRunsInFleet(c: Config, before: seq<Step>, w: nat, p: nat, events: seq<Happening>, turns: seq<Worker.Turn>)
    requires w !in Run(c, before).owners && p < |Run(c, before).committed|
    requires EventsOk(c, Run(c, before + [Assign(w, p)]), w, events)
    requires RunsTheLoop(c, p, Run(c, before).committed[p], events, turns)
    ensures var s := Run(c, JointRun(c, before, w, p, events));
            w in s.owners
            && Erase(s.owners[w]) ==
               Worker.AfterTurns(Assigned<()>(p, Run(c, before).committed[p]), turns, c.highWatermark, c.maxUnexpected)
  {
    var joined := before + [Assign(w, p)];
    AssignedOwner(c, before, w, p);
    EventsLift(c, Run(c, joined), w, events);
    RunThenAfter(c, joined, LiftEvents(c, Run(c, joined), w, events));
  }

  /**
   So the object's stored offset never passes an unsettled message, nor does the message it is working on: every
   message before either is in the audit table or on the dead-letter topic.
   */
  lemma LoopIsSafeInFleet(c: Config, before: seq<Step>, w: nat, p: nat, events: seq<Happening>, turns: seq<Worker.Turn>)
    requires c.highWatermark >= 1
    requires w !in Run(c, before).owners && p < |Run(c, before).committed|
    requires EventsOk(c, Run(c, before + [Assign(w, p)]), w, events)
    requires RunsTheLoop(c, p, Run(c, before).committed[p], events, turns)
    ensures var s := Run(c, JointRun(c, before, w, p, events));
            var o := Worker.AfterTurns(Assigned<()>(p, Run(c, before).committed[p]), turns, c.highWatermark, c.maxUnexpected);
            && (forall k: nat :: o.stored.Some? && k < o.stored.value ==> Settled(c, s, o.partition, k))
            && (forall k: nat :: o.phase.InFlight() && k < o.phase.offset ==> Settled(c, s, o.partition, k))
  {
    LoopRunsInFleet(c, before, w, p, events, turns);
    CommittedPrefix(c, JointRun(c, before, w, p, events));
  }

  /** And the decisions table the object has a hand in is, as in every run, the fold of the settled prefixes. */
  lemma LoopReplaysInFleet(c: Config, homes: Homes, before: seq<Step>, w: nat, p: nat, events: seq<Happening>)
    requires c.highWatermark >= 1 && Confined(c, homes)
    requires NothingGivenUp(Run(c, JointRun(c, before, w, p, events)))
    requires AllSettled(c, Run(c, JointRun(c, before, w, p, events)))
    ensures DecisionsTable(Run(c, JointRun(c, before, w, p, events))) == Reference(c)
  {
    ReplayDeterminism(c, homes, JointRun(c, before, w, p, events));
  }
}
