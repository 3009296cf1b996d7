/**
 The whole worker fleet as one transition system: a log per partition, any number of consumer
 incarnations (including old owners still finishing in-flight work), the two tables, the
 dead-letter topic and the committed offsets. A schedule is any sequence of steps; a step that
 cannot happen is skipped, so every sequence is a run.
 */
module Delivery {
  import opened Wrappers
  import opened Records
  import opened Store
  import opened PartitionProtocol

  /** A Kafka message: the event it parses to, or `None` when parsing refuses it. */
  datatype KafkaMessage = KafkaMessage(body: Option<Event>, timestampMs: Option<int>)

  /** Scoring with one fixed rule set. `assess` sees the event and its velocity aggregates. */
  datatype Rules = Rules(
    windowSeconds: nat,
    version: string,
    contentHash: string,
    assess: (Event, Aggregates) -> Assessment)

  datatype Config = Config(
    topic: string,
    logs: seq<seq<KafkaMessage>>,
    rules: Rules,
    highWatermark: nat,
    maxUnexpected: nat)

  /** An acknowledged record of the dead-letter topic. */
  datatype Letter = Letter(partition: nat, offset: nat, why: FailureClass)

  datatype State = State(
    tables: Tables,
    letters: set<Letter>,
    committed: seq<nat>,
    owners: map<nat, Owner<Decision>>)

  function Start(c: Config): State {
    State(EMPTY, {}, seq(|c.logs|, i => 0), map[])
  }

  // ---------------------------------------------------------------------------
  // Scoring one event against a transactions table
  // ---------------------------------------------------------------------------

  const MICROSECONDS: int := 1_000_000

  /** The look-back of one event: event time, both ends included, its own id excluded. */
  function LookBack(rules: Rules, e: Event): Window {
    Window(e.userId, e.occurredAt - rules.windowSeconds * MICROSECONDS, e.occurredAt, e.transactionId, e.currency)
  }

  /** `process` up to the write: read the velocity, evaluate, build the decision. */
  function Decide(rules: Rules, rows: seq<Decision>, e: Event): Decision {
    var a := rules.assess(e, Velocity(rows, LookBack(rules, e)));
    Decision(e.transactionId, e.userId, e.amount, e.currency, e.category, e.occurredAt, a.riskScore, a.verdict,
             a.IsFraud(), a.triggeredRules, rules.version, rules.contentHash, e.correlationId, e.channel, e.country,
             e.enrichment)
  }

  /**
   A decision depends only on the same user's other transactions inside its event-time window: its own row, other
   users' rows, later events and events before the window can be in the table or not.
   */
  lemma OnlyTheWindowMatters(rules: Rules, rows: seq<Decision>, d: Decision, e: Event)
    requires d.userId != e.userId || d.transactionId == e.transactionId || d.occurredAt > e.occurredAt
             || d.occurredAt < e.occurredAt - rules.windowSeconds * 1_000_000
    ensures Decide(rules, rows + [d], e) == Decide(rules, rows, e)
  {
    VelocitySnoc(rows, d, LookBack(rules, e));
  }

  /** What the rules are told about the past of an event. */
  function Seen(rules: Rules, rows: seq<Decision>, e: Event): Aggregates {
    Velocity(rows, LookBack(rules, e))
  }

  /**
   What counts: of the rows of the table, one more adds one to the number seen if it is another transaction of the
   user in the window, both ends included, and its amount to the sum seen if it is also in the event's currency.
   Of the empty table nothing is seen, so this fixes what is seen of any; and a decision is what the rules say of it.
   */
  lemma DecidedFromTheWindow(rules: Rules, rows: seq<Decision>, d: Decision, e: Event)
    ensures var counts := d.userId == e.userId && d.transactionId != e.transactionId
                          && e.occurredAt - rules.windowSeconds * 1_000_000 <= d.occurredAt <= e.occurredAt;
            var before := Seen(rules, rows, e);
            Seen(rules, rows + [d], e) ==
            if counts then Aggregates(before.count + 1, before.amount + (if d.currency == e.currency then d.amount else 0.0))
            else before
    ensures Seen(rules, [], e) == Aggregates(0, 0.0)
    ensures var decision, a := Decide(rules, rows, e), rules.assess(e, Seen(rules, rows, e));
            decision.riskScore == a.riskScore && decision.verdict == a.verdict
            && decision.isFraud == (a.verdict != Approved) && decision.triggeredRules == a.triggeredRules
  {
    VelocitySnoc(rows, d, LookBack(rules, e));
  }

  predicate InLogs(c: Config, p: nat, o: nat) {
    p < |c.logs| && o < |c.logs[p]|
  }

  function BodyAt(c: Config, p: nat, o: nat): Option<Event> {
    if InLogs(c, p, o) then c.logs[p][o].body else None
  }

  function SourceAt(c: Config, p: nat, o: nat): Provenance {
    Provenance(c.topic, p, o, if InLogs(c, p, o) then c.logs[p][o].timestampMs else None)
  }

  // ---------------------------------------------------------------------------
  // Steps
  // ---------------------------------------------------------------------------

  datatype Step =
    | Assign(owner: nat, partition: nat)    // a new incarnation resumes from the committed offset
    | Poll(owner: nat)                      // deliver the next message of the log
    | Local(owner: nat, act: Act)           // a step of the drain task that touches nothing shared
    | ReadVelocity(owner: nat)              // parse, look back, evaluate
    | WriteDecision(owner: nat, acknowledged: bool)
    | PublishLetter(owner: nat, acknowledged: bool)
    | Commit(owner: nat)                    // background or revoke-time commit of the stored offset
    | Crash(owner: nat)                     // the process dies, or the partition is released

  datatype Act = Take | Fault(failure: FailureClass) | StoreOffset(accepted: bool) | Stop | Abandon | Cancel

  function LocalStep(a: Act): OwnerStep<Decision> {
    match a
    case Take => OwnerStep.Take
    case Fault(f) => OwnerStep.Fail(f)
    case StoreOffset(accepted) => OwnerStep.Store(accepted)
    case Stop => OwnerStep.Stop
    case Abandon => OwnerStep.Abandon
    case Cancel => OwnerStep.Cancel
  }

  predicate CanStepAs(s: State, owner: nat, step: OwnerStep<Decision>) {
    owner in s.owners && CanStep(s.owners[owner], step)
  }

  predicate Enabled(c: Config, s: State, step: Step) {
    match step
    case Assign(w, p) => w !in s.owners && p < |s.committed|
    case Poll(w) => CanStepAs(s, w, Deliver) && InLogs(c, s.owners[w].partition, s.owners[w].next)
    // Permanent failures are not faults of the environment: they come from the message or the tables.
    case Local(w, a) => CanStepAs(s, w, LocalStep(a)) && a != Fault(Permanent)
    case ReadVelocity(w) => w in s.owners && s.owners[w].phase.Ready?
    case WriteDecision(w, _) => w in s.owners && s.owners[w].phase.Scored?
    case PublishLetter(w, _) => w in s.owners && s.owners[w].phase.Undeliverable?
    case Commit(w) => w in s.owners && s.owners[w].stored.Some? && s.owners[w].partition < |s.committed|
    case Crash(w) => w in s.owners
  }

  function Move(c: Config, s: State, owner: nat, step: OwnerStep<Decision>): State
    requires CanStepAs(s, owner, step)
  {
    s.(owners := s.owners[owner := StepOwner(s.owners[owner], step, c.highWatermark, c.maxUnexpected)])
  }

  function Next(c: Config, s: State, step: Step): State
    requires Enabled(c, s, step)
  {
    match step
    case Assign(w, p) => s.(owners := s.owners[w := Assigned(p, s.committed[p])])
    case Poll(w) => Move(c, s, w, Deliver)
    case Local(w, a) => Move(c, s, w, LocalStep(a))
    case ReadVelocity(w) =>
      var o := s.owners[w];
      (match BodyAt(c, o.partition, o.phase.offset)
       case None => Move(c, s, w, Fail(Permanent))
       case Some(e) => Move(c, s, w, Score(Decide(c.rules, s.tables.transactions, e))))
    case WriteDecision(w, acknowledged) =>
      var o := s.owners[w];
      var (tables, result) := Record(s.tables, o.phase.decision, SourceAt(c, o.partition, o.phase.offset));
      if result.Err? then Move(c, s, w, Fail(Permanent))
      else if acknowledged then Move(c, s.(tables := tables), w, Settle)
      else s.(tables := tables)     // committed, but the worker never hears of it
    case PublishLetter(w, acknowledged) =>
      var o := s.owners[w];
      var s' := s.(letters := s.letters + {Letter(o.partition, o.phase.offset, o.phase.why)});
      if acknowledged then Move(c, s', w, Settle) else s'
    case Commit(w) => s.(committed := s.committed[s.owners[w].partition := s.owners[w].stored.value])
    case Crash(w) => s.(owners := s.owners - {w})
  }

  function Apply(c: Config, s: State, step: Step): State {
    if Enabled(c, s, step) then Next(c, s, step) else s
  }

  function Run(c: Config, steps: seq<Step>): State {
    if steps == [] then Start(c)
    else Apply(c, Run(c, steps[..|steps| - 1]), steps[|steps| - 1])
  }

  // ---------------------------------------------------------------------------
  // Committed-prefix safety
  // ---------------------------------------------------------------------------

  predicate Recorded(c: Config, s: State, p: nat, o: nat) {
    HasSource(s.tables.history, SourceAt(c, p, o))
  }

  predicate DeadLettered(s: State, p: nat, o: nat) {
    Letter(p, o, Permanent) in s.letters || Letter(p, o, Unexpected) in s.letters
  }

  /** A message is settled once its audit row is committed or its dead letter is on the topic. */
  predicate Settled(c: Config, s: State, p: nat, o: nat) {
    Recorded(c, s, p, o) || DeadLettered(s, p, o)
  }

  /** `front[p]` messages of partition p are settled, and they are exactly the first ones. */
  ghost predicate Frontier(c: Config, s: State, front: seq<nat>) {
    && |front| == |c.logs|
    && (forall p :: 0 <= p < |front| ==> front[p] <= |c.logs[p]|)
    && (forall p: nat, o: nat :: Settled(c, s, p, o) <==> p < |front| && o < front[p])
  }

  ghost predicate OwnerBehind(c: Config, o: Owner<Decision>, front: seq<nat>) {
    && InOrder(o) && Flowing(o, c.highWatermark)
    && o.partition < |front| == |c.logs|
    && (!o.stopping || o.phase.InFlight() ==> Position(o) <= front[o.partition])
    && (!o.stopping ==> o.next <= |c.logs[o.partition]|)
    && (o.phase.InFlight() ==> InLogs(c, o.partition, o.phase.offset))
    && (o.phase.Undeliverable? ==> !o.phase.why.Transient?)
    && (o.stored.Some? ==> o.stored.value <= front[o.partition])
  }

  ghost predicate Safe(c: Config, s: State, front: seq<nat>) {
    && Frontier(c, s, front)
    && |s.committed| == |front|
    && (forall p :: 0 <= p < |front| ==> s.committed[p] <= front[p])
    && (forall w :: w in s.owners ==> OwnerBehind(c, s.owners[w], front))
  }

  function Advance(front: seq<nat>, p: nat, o: nat): seq<nat> {
    if p < |front| && front[p] == o then front[p := o + 1] else front
  }

  /** Settling one more message at or before the frontier keeps the settled messages a prefix. */
  lemma SettleOne(c: Config, s: State, s': State, front: seq<nat>, p: nat, o: nat)
    requires Safe(c, s, front) && InLogs(c, p, o) && o <= front[p]
    requires s'.committed == s.committed && s'.owners == s.owners
    requires forall q: nat, k: nat :: Settled(c, s', q, k) <==> Settled(c, s, q, k) || (q == p && k == o)
    ensures Safe(c, s', Advance(front, p, o))
  {
    var front' := Advance(front, p, o);
    forall q: nat, k: nat ensures Settled(c, s', q, k) <==> q < |front'| && k < front'[q] {
      assert Settled(c, s, q, k) <==> q < |front| && k < front[q];
    }
    forall w | w in s'.owners ensures OwnerBehind(c, s'.owners[w], front') {
      assert OwnerBehind(c, s.owners[w], front);
    }
  }

  lemma RecordSettles(c: Config, s: State, d: Decision, p: nat, o: nat)
    requires Record(s.tables, d, SourceAt(c, p, o)).1.Ok?
    ensures var s' := s.(tables := Record(s.tables, d, SourceAt(c, p, o)).0);
            forall q: nat, k: nat :: Settled(c, s', q, k) <==> Settled(c, s, q, k) || (q == p && k == o)
  {
    var t' := Record(s.tables, d, SourceAt(c, p, o)).0;
    var s' := s.(tables := t');
    forall q: nat, k: nat
      ensures Recorded(c, s', q, k) <==> Recorded(c, s, q, k) || (q == p && k == o)
    {
      HasSourceAfter(s.tables, d, SourceAt(c, p, o), SourceAt(c, q, k));
    }
  }

  lemma HasSourceAfter(t: Tables, d: Decision, source: Provenance, other: Provenance)
    requires Record(t, d, source).1.Ok?
    ensures HasSource(Record(t, d, source).0.history, other) <==> HasSource(t.history, other) || SameSource(source, other)
  {
    var h, h' := t.history, Record(t, d, source).0.history;
    if HasSource(h, other) {
      var i :| 0 <= i < |h| && SameSource(h[i].source, other);
      assert SameSource(h'[i].source, other);
    }
    if SameSource(source, other) {
      if h' == h {
        var i :| 0 <= i < |h| && SameSource(h[i].source, source);
        assert SameSource(h'[i].source, other);
      } else {
        assert SameSource(h'[|h|].source, other);
      }
    }
  }

  lemma StepStaysBehind(c: Config, o: Owner<Decision>, front: seq<nat>, step: OwnerStep<Decision>)
    requires c.highWatermark >= 1
    requires OwnerBehind(c, o, front) && CanStep(o, step)
    requires step.Deliver? ==> InLogs(c, o.partition, o.next)
    requires step.Settle? ==> o.phase.offset < front[o.partition]
    ensures OwnerBehind(c, StepOwner(o, step, c.highWatermark, c.maxUnexpected), front)
  {
    StepKeepsOrder(o, step, c.highWatermark, c.maxUnexpected);
    StepKeepsFlowing(o, step, c.highWatermark, c.maxUnexpected);
  }

  /** What is settled is in the tables and on the dead-letter topic; owners and commits do not enter it. */
  lemma SafeAgain(c: Config, s: State, s': State, front: seq<nat>)
    requires Safe(c, s, front)
    requires s'.tables == s.tables && s'.letters == s.letters && |s'.committed| == |front|
    requires forall p :: 0 <= p < |front| ==> s'.committed[p] <= front[p]
    requires forall w :: w in s'.owners ==> OwnerBehind(c, s'.owners[w], front)
    ensures Safe(c, s', front)
  {
    forall p: nat, k: nat ensures Settled(c, s', p, k) == Settled(c, s, p, k) {}
  }

  /** A step of one owner that leaves the tables, letters and commits alone. */
  lemma MoveKeepsSafe(c: Config, s: State, front: seq<nat>, w: nat, step: OwnerStep<Decision>)
    requires c.highWatermark >= 1
    requires Safe(c, s, front) && CanStepAs(s, w, step)
    requires step.Deliver? ==> InLogs(c, s.owners[w].partition, s.owners[w].next)
    requires step.Settle? ==>
               s.owners[w].partition < |front| && s.owners[w].phase.offset < front[s.owners[w].partition]
    ensures Safe(c, Move(c, s, w, step), front)
  {
    var s' := Move(c, s, w, step);
    StepStaysBehind(c, s.owners[w], front, step);
    forall v | v in s'.owners ensures OwnerBehind(c, s'.owners[v], front) {
      if v != w { assert OwnerBehind(c, s.owners[v], front); }
    }
    SafeAgain(c, s, s', front);
  }

  /** What a step settles, if anything. */
  function FrontAfter(c: Config, s: State, front: seq<nat>, step: Step): seq<nat> {
    if !Enabled(c, s, step) then front
    else if step.PublishLetter? then
      Advance(front, s.owners[step.owner].partition, s.owners[step.owner].phase.offset)
    else if step.WriteDecision? then
      var o := s.owners[step.owner];
      if Record(s.tables, o.phase.decision, SourceAt(c, o.partition, o.phase.offset)).1.Err? then front
      else Advance(front, o.partition, o.phase.offset)
    else front
  }

  lemma WriteKeepsSafe(c: Config, s: State, front: seq<nat>, step: Step)
    requires c.highWatermark >= 1 && Safe(c, s, front) && Enabled(c, s, step) && step.WriteDecision?
    ensures Safe(c, Next(c, s, step), FrontAfter(c, s, front, step))
  {
    var w, o := step.owner, s.owners[step.owner];
    assert OwnerBehind(c, o, front);
    var (tables, result) := Record(s.tables, o.phase.decision, SourceAt(c, o.partition, o.phase.offset));
    if result.Err? {
      MoveKeepsSafe(c, s, front, w, Fail(Permanent));
    } else {
      var s' := s.(tables := tables);
      RecordSettles(c, s, o.phase.decision, o.partition, o.phase.offset);
      SettleOne(c, s, s', front, o.partition, o.phase.offset);
      if step.acknowledged {
        MoveKeepsSafe(c, s', Advance(front, o.partition, o.phase.offset), w, Settle);
      }
    }
  }

  lemma PublishKeepsSafe(c: Config, s: State, front: seq<nat>, step: Step)
    requires c.highWatermark >= 1 && Safe(c, s, front) && Enabled(c, s, step) && step.PublishLetter?
    ensures Safe(c, Next(c, s, step), FrontAfter(c, s, front, step))
  {
    var w, o := step.owner, s.owners[step.owner];
    assert OwnerBehind(c, o, front);
    var s' := s.(letters := s.letters + {Letter(o.partition, o.phase.offset, o.phase.why)});
    forall q: nat, k: nat
      ensures Settled(c, s', q, k) <==> Settled(c, s, q, k) || (q == o.partition && k == o.phase.offset)
    {
      assert Recorded(c, s', q, k) == Recorded(c, s, q, k);
    }
    SettleOne(c, s, s', front, o.partition, o.phase.offset);
    if step.acknowledged {
      MoveKeepsSafe(c, s', Advance(front, o.partition, o.phase.offset), w, Settle);
    }
  }

  lemma StepKeepsSafe(c: Config, s: State, front: seq<nat>, step: Step)
    requires c.highWatermark >= 1 && Safe(c, s, front)
    ensures Safe(c, Apply(c, s, step), FrontAfter(c, s, front, step))
  {
    if Enabled(c, s, step) {
      var s' := Next(c, s, step);
      match step
      case Poll(w) => MoveKeepsSafe(c, s, front, w, Deliver);
      case Local(w, a) => MoveKeepsSafe(c, s, front, w, LocalStep(a));
      case ReadVelocity(w) =>
        var o := s.owners[w];
        if BodyAt(c, o.partition, o.phase.offset).None? {
          MoveKeepsSafe(c, s, front, w, Fail(Permanent));
        } else {
          MoveKeepsSafe(c, s, front, w,
            Score(Decide(c.rules, s.tables.transactions, BodyAt(c, o.partition, o.phase.offset).value)));
        }
      case WriteDecision(_, _) => WriteKeepsSafe(c, s, front, step);
      case PublishLetter(_, _) => PublishKeepsSafe(c, s, front, step);
      case Commit(w) =>
        assert OwnerBehind(c, s.owners[w], front);
        SafeAgain(c, s, s', front);
      case Assign(w, p) =>
        assert OwnerBehind(c, s'.owners[w], front);
        SafeAgain(c, s, s', front);
      case Crash(_) =>
        SafeAgain(c, s, s', front);
    }
  }

  /** How far each partition has been settled after a run. */
  function Fronts(c: Config, steps: seq<Step>): seq<nat> {
    if steps == [] then seq(|c.logs|, i => 0)
    else
      var n := |steps| - 1;
      FrontAfter(c, Run(c, steps[..n]), Fronts(c, steps[..n]), steps[n])
  }

  lemma {:induction false} EveryRunIsSafe(c: Config, steps: seq<Step>)
    requires c.highWatermark >= 1
    ensures Safe(c, Run(c, steps), Fronts(c, steps))
  {
    if steps == [] {
      var s := Start(c);
      forall p: nat, k: nat ensures !Settled(c, s, p, k) {}
    } else {
      var n := |steps| - 1;
      EveryRunIsSafe(c, steps[..n]);
      StepKeepsSafe(c, Run(c, steps[..n]), Fronts(c, steps[..n]), steps[n]);
    }
  }

  /**
   Committed-prefix safety: after any run the settled messages of every partition form a prefix of its log,
   and everything before a committed offset, a stored offset or the message an owner is working on is settled.
   So no offset is ever committed past an unfinished message, by a current owner or an old one.
   */
  lemma CommittedPrefix(c: Config, steps: seq<Step>)
    requires c.highWatermark >= 1
    ensures var s := Run(c, steps);
            && (forall p: nat, o: nat, k: nat :: Settled(c, s, p, o) && k < o ==> Settled(c, s, p, k))
            && (forall p: nat, o: nat :: p < |s.committed| && o < s.committed[p] ==> Settled(c, s, p, o))
            && (forall w, o: nat :: w in s.owners && s.owners[w].stored.Some? && o < s.owners[w].stored.value
                  ==> Settled(c, s, s.owners[w].partition, o))
            && (forall w, o: nat :: w in s.owners && s.owners[w].phase.InFlight() && o < s.owners[w].phase.offset
                  ==> Settled(c, s, s.owners[w].partition, o))
  {
    EveryRunIsSafe(c, steps);
    var s, front := Run(c, steps), Fronts(c, steps);
    forall w | w in s.owners ensures OwnerBehind(c, s.owners[w], front) {}
  }
}
