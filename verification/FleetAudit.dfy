/** The audit table of the whole fleet: what it says after any run, whatever the owners do. */
module FleetAudit {
  import opened Records
  import opened Store
  import opened PartitionProtocol
  import opened Delivery

  /** What each position of the logs carries. Positions outside the logs are never written; `missing` stands for them. */
  function FeedOf(c: Config, missing: Event): SourceKey -> Event {
    (key: SourceKey) =>
      if key.topic == c.topic && BodyAt(c, key.partition, key.offset).Some?
      then BodyAt(c, key.partition, key.offset).value else missing
  }

  /** A decision waiting to be written is about the message being worked on. */
  ghost predicate AboutItsMessage(c: Config, o: Owner<Decision>) {
    o.phase.Scored? ==>
      && BodyAt(c, o.partition, o.phase.offset).Some?
      && EventOf(BodyAt(c, o.partition, o.phase.offset).value, o.phase.decision)
  }

  /** The row's source is a message of the logs, with that message's own timestamp. */
  ghost predicate FromTheLogs(c: Config, r: HistoryRow) {
    && BodyAt(c, r.source.partition, r.source.offset).Some?
    && r.source == SourceAt(c, r.source.partition, r.source.offset)
  }

  ghost predicate FleetAudited(c: Config, missing: Event, s: State) {
    && Audited(FeedOf(c, missing), s.tables)
    && (forall r :: r in s.tables.history ==> FromTheLogs(c, r))
    && (forall w :: w in s.owners ==> AboutItsMessage(c, s.owners[w]))
  }

  lemma StepStaysAbout(c: Config, o: Owner<Decision>, step: OwnerStep<Decision>)
    requires AboutItsMessage(c, o) && CanStep(o, step) && !step.Score?
    ensures AboutItsMessage(c, StepOwner(o, step, c.highWatermark, c.maxUnexpected))
  {
  }

  lemma MoveKeepsAudit(c: Config, missing: Event, s: State, w: nat, step: OwnerStep<Decision>)
    requires FleetAudited(c, missing, s) && CanStepAs(s, w, step)
    requires AboutItsMessage(c, StepOwner(s.owners[w], step, c.highWatermark, c.maxUnexpected))
    ensures FleetAudited(c, missing, Move(c, s, w, step))
  {
  }

  lemma ReadKeepsAudit(c: Config, missing: Event, s: State, w: nat)
    requires FleetAudited(c, missing, s) && Enabled(c, s, ReadVelocity(w))
    ensures FleetAudited(c, missing, Next(c, s, ReadVelocity(w)))
  {
    var o := s.owners[w];
    match BodyAt(c, o.partition, o.phase.offset)
    case None => MoveKeepsAudit(c, missing, s, w, Fail(Permanent));
    case Some(e) => MoveKeepsAudit(c, missing, s, w, Score(Decide(c.rules, s.tables.transactions, e)));
  }

  /** The write itself, before the worker hears of it. */
  lemma RecordingKeepsAudit(c: Config, missing: Event, s: State, w: nat)
    requires FleetAudited(c, missing, s) && w in s.owners && s.owners[w].phase.Scored?
    ensures var o := s.owners[w];
            FleetAudited(c, missing, s.(tables := Record(s.tables, o.phase.decision, SourceAt(c, o.partition, o.phase.offset)).0))
  {
    var o := s.owners[w];
    var source := SourceAt(c, o.partition, o.phase.offset);
    assert AboutItsMessage(c, o);
    RecordKeepsAudit(FeedOf(c, missing), s.tables, Call(o.phase.decision, source));
    var t := Record(s.tables, o.phase.decision, source).0;
    forall r | r in t.history ensures FromTheLogs(c, r) {
      if r !in s.tables.history { assert r.source == source; }
    }
  }

  lemma WriteKeepsAudit(c: Config, missing: Event, s: State, step: Step)
    requires FleetAudited(c, missing, s) && step.WriteDecision? && Enabled(c, s, step)
    ensures FleetAudited(c, missing, Next(c, s, step))
  {
    var o := s.owners[step.owner];
    var (tables, result) := Record(s.tables, o.phase.decision, SourceAt(c, o.partition, o.phase.offset));
    if result.Err? {
      MoveKeepsAudit(c, missing, s, step.owner, Fail(Permanent));
    } else {
      RecordingKeepsAudit(c, missing, s, step.owner);
      if step.acknowledged { MoveKeepsAudit(c, missing, s.(tables := tables), step.owner, Settle); }
    }
  }

  lemma StepKeepsFleetAudit(c: Config, missing: Event, s: State, step: Step)
    requires FleetAudited(c, missing, s)
    ensures FleetAudited(c, missing, Apply(c, s, step))
  {
    if Enabled(c, s, step) {
      match step
      case WriteDecision(_, _) => WriteKeepsAudit(c, missing, s, step);
      case ReadVelocity(w) => ReadKeepsAudit(c, missing, s, w);
      case Poll(w) => StepStaysAbout(c, s.owners[w], Deliver);
      case Local(w, a) => StepStaysAbout(c, s.owners[w], LocalStep(a));
      case PublishLetter(w, _) => StepStaysAbout(c, s.owners[w], Settle);
      case _ =>
    }
  }

  /**
   The audit of the fleet: after any run of any schedule every stored transaction has exactly one `evaluated` row,
   every audit row equals the stored decision, is about a message of the logs under that message's own position,
   and agrees with the event it carries.
   */
  lemma {:induction false} EveryRunIsAudited(c: Config, missing: Event, steps: seq<Step>)
    ensures FleetAudited(c, missing, Run(c, steps))
  {
    if steps != [] {
      var n := |steps| - 1;
      EveryRunIsAudited(c, missing, steps[..n]);
      StepKeepsFleetAudit(c, missing, Run(c, steps[..n]), steps[n]);
    }
  }

  /** The same, read off for one audit row. */
  lemma AuditRowIsAboutItsMessage(c: Config, missing: Event, steps: seq<Step>, r: HistoryRow)
    requires r in Run(c, steps).tables.history
    ensures var stored := Find(Run(c, steps).tables.transactions, r.transactionId);
            var body := BodyAt(c, r.source.partition, r.source.offset);
            && body.Some? && stored.Some?
            && r.source == SourceAt(c, r.source.partition, r.source.offset)
            && Agrees(r, stored.value) && EventOf(body.value, stored.value)
  {
    EveryRunIsAudited(c, missing, steps);
    assert RowJustified(FeedOf(c, missing), Run(c, steps).tables, r);
    assert FromTheLogs(c, r);
  }
}
