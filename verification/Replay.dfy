/**
 Replay determinism. With one rule set, and every user and every transaction id confined to one
 partition, the decisions table after any run is the sequential fold of each partition's settled
 prefix, whatever the interleaving, the crashes, the redeliveries and the overlapping owners.
 */
module Replay {
  import opened Records
  import opened Store
  import opened PartitionProtocol
  import opened Delivery

  /** Which partition a user's events and a transaction's events are on: producers key by user. */
  datatype Homes = Homes(ofUser: nat -> nat, ofTransaction: nat -> nat)

  ghost predicate Confined(c: Config, homes: Homes) {
    forall p: nat, o: nat :: BodyAt(c, p, o).Some? ==>
      && homes.ofUser(BodyAt(c, p, o).value.userId) == p
      && homes.ofTransaction(BodyAt(c, p, o).value.transactionId) == p
  }

  // ---------------------------------------------------------------------------
  // The reference: process a log once, alone, in order
  // ---------------------------------------------------------------------------

  /** First decision wins; a message that does not parse, or repeats an id, decides nothing. */
  function Sequential(rules: Rules, log: seq<KafkaMessage>): seq<Decision> {
    if log == [] then []
    else
      var rows := Sequential(rules, log[..|log| - 1]);
      match log[|log| - 1].body
      case None => rows
      case Some(e) => if Find(rows, e.transactionId).Some? then rows else rows + [Decide(rules, rows, e)]
  }

  lemma SequentialSnoc(rules: Rules, log: seq<KafkaMessage>, n: nat)
    requires n < |log|
    ensures Sequential(rules, log[..n + 1]) ==
            var rows := Sequential(rules, log[..n]);
            match log[n].body
            case None => rows
            case Some(e) => if Find(rows, e.transactionId).Some? then rows else rows + [Decide(rules, rows, e)]
  {
    assert log[..n + 1][..n] == log[..n];
  }

  /** Every valid message of a log is decided by it. */
  lemma {:induction false} LogDecides(rules: Rules, log: seq<KafkaMessage>, o: nat)
    requires o < |log| && log[o].body.Some?
    ensures Find(Sequential(rules, log), log[o].body.value.transactionId).Some?
  {
    var n := |log| - 1;
    var rows, id := Sequential(rules, log[..n]), log[o].body.value.transactionId;
    if o < n {
      LogDecides(rules, log[..n], o);
    }
    if log[n].body.Some? {
      FindSnoc(rows, Decide(rules, rows, log[n].body.value), id);
    }
  }

  // ---------------------------------------------------------------------------
  // One partition's share of the shared table
  // ---------------------------------------------------------------------------

  function Share(rows: seq<Decision>, homes: Homes, p: nat): seq<Decision> {
    if rows == [] then []
    else
      var d := rows[|rows| - 1];
      Share(rows[..|rows| - 1], homes, p) + (if homes.ofUser(d.userId) == p then [d] else [])
  }

  lemma ShareSnoc(rows: seq<Decision>, d: Decision, homes: Homes, p: nat)
    ensures Share(rows + [d], homes, p) == Share(rows, homes, p) + (if homes.ofUser(d.userId) == p then [d] else [])
  {
    assert (rows + [d])[..|rows|] == rows;
  }

  /** The look-back sees only rows of one user, so it answers the same on that user's share. */
  lemma {:induction false} VelocityOnShare(rows: seq<Decision>, homes: Homes, w: Window)
    ensures Velocity(Share(rows, homes, homes.ofUser(w.userId)), w) == Velocity(rows, w)
  {
    if rows != [] {
      var n := |rows| - 1;
      VelocityOnShare(rows[..n], homes, w);
      var share := Share(rows[..n], homes, homes.ofUser(w.userId));
      if homes.ofUser(rows[n].userId) == homes.ofUser(w.userId) {
        VelocitySnoc(share, rows[n], w);
      } else {
        assert share + [] == share;
      }
    }
  }

  ghost predicate Homed(rows: seq<Decision>, homes: Homes) {
    forall d :: d in rows ==> homes.ofUser(d.userId) == homes.ofTransaction(d.transactionId)
  }

  /** Looking an id up in the table is looking it up in its partition's share. */
  lemma {:induction false} FindOnShare(rows: seq<Decision>, homes: Homes, id: nat)
    requires Homed(rows, homes)
    ensures Find(Share(rows, homes, homes.ofTransaction(id)), id) == Find(rows, id)
  {
    if rows != [] {
      var n := |rows| - 1;
      FindOnShare(rows[..n], homes, id);
      var share := Share(rows[..n], homes, homes.ofTransaction(id));
      assert rows[n] in rows;
      if homes.ofUser(rows[n].userId) == homes.ofTransaction(id) {
        FindSnoc(share, rows[n], id);
      } else {
        assert share + [] == share;
      }
    }
  }

  lemma {:induction false} ShareMembers(rows: seq<Decision>, homes: Homes, d: Decision)
    ensures d in rows <==> d in Share(rows, homes, homes.ofUser(d.userId))
  {
    if rows != [] {
      ShareMembers(rows[..|rows| - 1], homes, d);
      assert rows == rows[..|rows| - 1] + [rows[|rows| - 1]];
    }
  }

  lemma DecideOnShare(rules: Rules, rows: seq<Decision>, homes: Homes, e: Event)
    ensures Decide(rules, Share(rows, homes, homes.ofUser(e.userId)), e) == Decide(rules, rows, e)
  {
    VelocityOnShare(rows, homes, LookBack(rules, e));
  }

  // ---------------------------------------------------------------------------
  // The invariant
  // ---------------------------------------------------------------------------

  /** The rows are homed, and each partition's share is the fold of the prefix settled so far. */
  ghost predicate TableFaithful(c: Config, homes: Homes, rows: seq<Decision>, front: seq<nat>) {
    && |front| == |c.logs|
    && Homed(rows, homes)
    && (forall d :: d in rows ==> homes.ofUser(d.userId) < |c.logs|)
    && (forall p :: 0 <= p < |c.logs| ==>
          front[p] <= |c.logs[p]| && Share(rows, homes, p) == Sequential(c.rules, c.logs[p][..front[p]]))
  }

  /**
   A decision waiting to be written is about its message, and unless the message is settled already it was
   made from exactly the preceding prefix. A message refused for good decides nothing.
   */
  ghost predicate OwnerFaithful(c: Config, rows: seq<Decision>, o: Owner<Decision>, front: seq<nat>) {
    var p := o.partition;
    && (o.phase.Scored? ==> ScoreFaithful(c, p, o.phase.offset, o.phase.decision, front))
    && (o.phase.Undeliverable? && o.phase.why.Permanent? ==> DecidesNothing(c, rows, p, o.phase.offset))
  }

  ghost predicate ScoreFaithful(c: Config, p: nat, k: nat, d: Decision, front: seq<nat>) {
    && BodyAt(c, p, k).Some?
    && EventOf(BodyAt(c, p, k).value, d)
    && p < |front|
    && (k >= front[p] ==> d == Decide(c.rules, Sequential(c.rules, c.logs[p][..k]), BodyAt(c, p, k).value))
  }

  ghost predicate DecidesNothing(c: Config, rows: seq<Decision>, p: nat, k: nat) {
    BodyAt(c, p, k).Some? ==> Find(rows, BodyAt(c, p, k).value.transactionId).Some?
  }

  ghost predicate OwnersFaithful(c: Config, s: State, front: seq<nat>) {
    forall w :: w in s.owners ==> OwnerFaithful(c, s.tables.transactions, s.owners[w], front)
  }

  ghost predicate Replayed(c: Config, homes: Homes, s: State, front: seq<nat>) {
    TableFaithful(c, homes, s.tables.transactions, front) && OwnersFaithful(c, s, front)
  }

  /** No message was given up on because of failures the source calls unexpected. */
  predicate NothingGivenUp(s: State) {
    forall l :: l in s.letters ==> l.why.Permanent?
  }

  /** Reading at the frontier reads exactly the preceding prefix. */
  lemma ReadIsFaithful(c: Config, homes: Homes, rows: seq<Decision>, front: seq<nat>, p: nat, k: nat)
    requires Confined(c, homes) && TableFaithful(c, homes, rows, front)
    requires p < |front| && k <= front[p] && BodyAt(c, p, k).Some?
    ensures ScoreFaithful(c, p, k, Decide(c.rules, rows, BodyAt(c, p, k).value), front)
  {
    DecideOnShare(c.rules, rows, homes, BodyAt(c, p, k).value);
  }

  /** Settling a message that decides nothing leaves the reference where it was. */
  lemma SkipIsFaithful(c: Config, homes: Homes, rows: seq<Decision>, front: seq<nat>, p: nat, k: nat)
    requires Confined(c, homes) && TableFaithful(c, homes, rows, front)
    requires InLogs(c, p, k) && k <= front[p] && DecidesNothing(c, rows, p, k)
    ensures TableFaithful(c, homes, rows, Advance(front, p, k))
  {
    if k == front[p] {
      SequentialSnoc(c.rules, c.logs[p], k);
      if BodyAt(c, p, k).Some? {
        FindOnShare(rows, homes, BodyAt(c, p, k).value.transactionId);
      }
    }
  }

  /** A message behind the frontier has its transaction decided. */
  lemma BehindIsDecided(c: Config, homes: Homes, rows: seq<Decision>, front: seq<nat>, p: nat, k: nat)
    requires Confined(c, homes) && TableFaithful(c, homes, rows, front)
    requires p < |front| && k < front[p] && BodyAt(c, p, k).Some?
    ensures Find(rows, BodyAt(c, p, k).value.transactionId).Some?
  {
    LogDecides(c.rules, c.logs[p][..front[p]], k);
    FindOnShare(rows, homes, BodyAt(c, p, k).value.transactionId);
  }

  /** The first decision of a transaction, made at the frontier, is the row the reference adds. */
  lemma AppendIsFaithful(c: Config, homes: Homes, rows: seq<Decision>, front: seq<nat>, p: nat, k: nat, d: Decision)
    requires Confined(c, homes) && TableFaithful(c, homes, rows, front)
    requires p < |front| && k == front[p] && ScoreFaithful(c, p, k, d, front)
    requires Find(rows, d.transactionId).None?
    ensures TableFaithful(c, homes, rows + [d], Advance(front, p, k))
  {
    var front' := Advance(front, p, k);
    forall q | 0 <= q < |c.logs|
      ensures front'[q] <= |c.logs[q]| && Share(rows + [d], homes, q) == Sequential(c.rules, c.logs[q][..front'[q]])
    {
      ShareSnoc(rows, d, homes, q);
      if q == p {
        FindOnShare(rows, homes, d.transactionId);
        SequentialSnoc(c.rules, c.logs[p], k);
      } else {
        assert Share(rows, homes, q) + [] == Share(rows, homes, q);
      }
    }
  }

  /** Writing a faithful decision extends its partition's share exactly as the reference does. */
  lemma WriteIsFaithful(c: Config, homes: Homes, rows: seq<Decision>, front: seq<nat>, p: nat, k: nat, d: Decision)
    requires Confined(c, homes) && TableFaithful(c, homes, rows, front)
    requires p < |front| && k <= front[p] && ScoreFaithful(c, p, k, d, front)
    ensures var rows' := if Find(rows, d.transactionId).Some? then rows else rows + [d];
            TableFaithful(c, homes, rows', Advance(front, p, k))
  {
    if k < front[p] {
      BehindIsDecided(c, homes, rows, front, p, k);
    }
    if Find(rows, d.transactionId).Some? {
      SkipIsFaithful(c, homes, rows, front, p, k);
    } else {
      AppendIsFaithful(c, homes, rows, front, p, k, d);
    }
  }

  /** Neither a new row nor an advancing frontier spoils what an owner holds. */
  lemma StillFaithful(c: Config, rows: seq<Decision>, rows': seq<Decision>, o: Owner<Decision>, front: seq<nat>, front': seq<nat>)
    requires |front| == |front'| && forall p :: 0 <= p < |front| ==> front[p] <= front'[p]
    requires OwnerFaithful(c, rows, o, front)
    requires rows' == rows || exists d :: rows' == rows + [d]
    ensures OwnerFaithful(c, rows', o, front')
  {
    if rows' != rows && o.phase.Undeliverable? && BodyAt(c, o.partition, o.phase.offset).Some? {
      var d :| rows' == rows + [d];
      FindSnoc(rows, d, BodyAt(c, o.partition, o.phase.offset).value.transactionId);
    }
  }

  /** Owner w moves and the table may gain a row: the other owners keep what they hold. */
  lemma OwnersStayFaithful(c: Config, s: State, s': State, w: nat, front: seq<nat>, front': seq<nat>)
    requires |front| == |front'| && forall p :: 0 <= p < |front| ==> front[p] <= front'[p]
    requires OwnersFaithful(c, s, front)
    requires s'.tables.transactions == s.tables.transactions
             || exists d :: s'.tables.transactions == s.tables.transactions + [d]
    requires forall v :: v in s'.owners && v != w ==> v in s.owners && s'.owners[v] == s.owners[v]
    requires w in s'.owners ==> OwnerFaithful(c, s'.tables.transactions, s'.owners[w], front')
    ensures OwnersFaithful(c, s', front')
  {
    forall v | v in s'.owners ensures OwnerFaithful(c, s'.tables.transactions, s'.owners[v], front') {
      if v != w {
        StillFaithful(c, s.tables.transactions, s'.tables.transactions, s.owners[v], front, front');
      }
    }
  }

  lemma ReadKeepsReplayed(c: Config, homes: Homes, s: State, front: seq<nat>, w: nat)
    requires Confined(c, homes) && Replayed(c, homes, s, front)
    requires Enabled(c, s, ReadVelocity(w)) && OwnerBehind(c, s.owners[w], front)
    ensures Replayed(c, homes, Next(c, s, ReadVelocity(w)), front)
  {
    var o, rows := s.owners[w], s.tables.transactions;
    if BodyAt(c, o.partition, o.phase.offset).Some? {
      ReadIsFaithful(c, homes, rows, front, o.partition, o.phase.offset);
    }
    OwnersStayFaithful(c, s, Next(c, s, ReadVelocity(w)), w, front, front);
  }

  /** What the write step does to the table, to its owner and to the frontier, without the audit table. */
  lemma WriteOutcome(c: Config, s: State, front: seq<nat>, step: Step)
    requires step.WriteDecision? && Enabled(c, s, step)
    ensures var (o, s', rows) := (s.owners[step.owner], Next(c, s, step), s.tables.transactions);
            var existing := Find(rows, o.phase.decision.transactionId);
            && s'.tables.transactions == (if existing.Some? then rows else rows + [o.phase.decision])
            && s'.owners.Keys == s.owners.Keys
            && (forall v :: v in s.owners && v != step.owner ==> s'.owners[v] == s.owners[v])
            && (if existing.Some? && !SameTransaction(existing.value, o.phase.decision) then
                  FrontAfter(c, s, front, step) == front
                  && s'.owners[step.owner] == Failed(o, Permanent, c.maxUnexpected)
                else
                  FrontAfter(c, s, front, step) == Advance(front, o.partition, o.phase.offset)
                  && s'.owners[step.owner] == (if step.acknowledged then HandledNow(o) else o))
  {
  }

  lemma WriteKeepsTable(c: Config, homes: Homes, s: State, front: seq<nat>, step: Step)
    requires Confined(c, homes) && TableFaithful(c, homes, s.tables.transactions, front)
    requires step.WriteDecision? && Enabled(c, s, step) && OwnerBehind(c, s.owners[step.owner], front)
    requires OwnerFaithful(c, s.tables.transactions, s.owners[step.owner], front)
    ensures TableFaithful(c, homes, Next(c, s, step).tables.transactions, FrontAfter(c, s, front, step))
  {
    var o := s.owners[step.owner];
    WriteOutcome(c, s, front, step);
    WriteIsFaithful(c, homes, s.tables.transactions, front, o.partition, o.phase.offset, o.phase.decision);
  }

  lemma WriteKeepsOwner(c: Config, s: State, front: seq<nat>, step: Step)
    requires step.WriteDecision? && Enabled(c, s, step) && OwnerBehind(c, s.owners[step.owner], front)
    requires OwnerFaithful(c, s.tables.transactions, s.owners[step.owner], front)
    ensures var s' := Next(c, s, step);
            OwnerFaithful(c, s'.tables.transactions, s'.owners[step.owner], FrontAfter(c, s, front, step))
  {
    var o, rows, s' := s.owners[step.owner], s.tables.transactions, Next(c, s, step);
    WriteOutcome(c, s, front, step);
    StillFaithful(c, rows, s'.tables.transactions, o, front, FrontAfter(c, s, front, step));
  }

  lemma WriteKeepsReplayed(c: Config, homes: Homes, s: State, front: seq<nat>, step: Step)
    requires Confined(c, homes) && Replayed(c, homes, s, front)
    requires step.WriteDecision? && Enabled(c, s, step) && OwnerBehind(c, s.owners[step.owner], front)
    ensures Replayed(c, homes, Next(c, s, step), FrontAfter(c, s, front, step))
  {
    assert OwnerFaithful(c, s.tables.transactions, s.owners[step.owner], front);
    WriteKeepsTable(c, homes, s, front, step);
    WriteKeepsOwner(c, s, front, step);
    WriteOutcome(c, s, front, step);
    OwnersStayFaithful(c, s, Next(c, s, step), step.owner, front, FrontAfter(c, s, front, step));
  }

  lemma PublishKeepsReplayed(c: Config, homes: Homes, s: State, front: seq<nat>, step: Step)
    requires Confined(c, homes) && Replayed(c, homes, s, front)
    requires step.PublishLetter? && Enabled(c, s, step) && OwnerBehind(c, s.owners[step.owner], front)
    requires NothingGivenUp(Next(c, s, step))
    ensures Replayed(c, homes, Next(c, s, step), FrontAfter(c, s, front, step))
  {
    var o, rows := s.owners[step.owner], s.tables.transactions;
    var s', front' := Next(c, s, step), FrontAfter(c, s, front, step);
    assert OwnerFaithful(c, rows, o, front);
    assert Letter(o.partition, o.phase.offset, o.phase.why) in s'.letters;
    SkipIsFaithful(c, homes, rows, front, o.partition, o.phase.offset);
    StillFaithful(c, rows, rows, o, front, front');
    OwnersStayFaithful(c, s, s', step.owner, front, front');
  }

  /** The drain task's own steps never make a decision or refuse a message for good. */
  lemma LocalStepIsFaithful(c: Config, rows: seq<Decision>, o: Owner<Decision>, step: OwnerStep<Decision>, front: seq<nat>)
    requires OwnerFaithful(c, rows, o, front) && CanStep(o, step)
    requires step != Fail(Permanent) && !step.Score?
    ensures OwnerFaithful(c, rows, StepOwner(o, step, c.highWatermark, c.maxUnexpected), front)
  {
  }

  lemma MoveKeepsReplayed(c: Config, homes: Homes, s: State, front: seq<nat>, w: nat, step: OwnerStep<Decision>)
    requires Replayed(c, homes, s, front) && CanStepAs(s, w, step)
    requires step != Fail(Permanent) && !step.Score?
    ensures Replayed(c, homes, Move(c, s, w, step), front)
  {
    LocalStepIsFaithful(c, s.tables.transactions, s.owners[w], step, front);
    OwnersStayFaithful(c, s, Move(c, s, w, step), w, front, front);
  }

  lemma StepKeepsReplayed(c: Config, homes: Homes, s: State, front: seq<nat>, step: Step)
    requires Confined(c, homes) && Replayed(c, homes, s, front)
    requires forall w :: w in s.owners ==> OwnerBehind(c, s.owners[w], front)
    requires NothingGivenUp(Apply(c, s, step))
    ensures Replayed(c, homes, Apply(c, s, step), FrontAfter(c, s, front, step))
  {
    if Enabled(c, s, step) {
      match step
      case WriteDecision(_, _) => WriteKeepsReplayed(c, homes, s, front, step);
      case PublishLetter(_, _) => PublishKeepsReplayed(c, homes, s, front, step);
      case ReadVelocity(w) => ReadKeepsReplayed(c, homes, s, front, w);
      case Poll(w) => MoveKeepsReplayed(c, homes, s, front, w, Deliver);
      case Local(w, a) => MoveKeepsReplayed(c, homes, s, front, w, LocalStep(a));
      case Commit(w) =>
      case _ =>
        OwnersStayFaithful(c, s, Next(c, s, step), step.owner, front, front);
    }
  }

  lemma {:induction false} EveryRunReplays(c: Config, homes: Homes, steps: seq<Step>)
    requires c.highWatermark >= 1 && Confined(c, homes)
    requires NothingGivenUp(Run(c, steps))
    ensures Replayed(c, homes, Run(c, steps), Fronts(c, steps))
  {
    if steps != [] {
      var n := |steps| - 1;
      assert NothingGivenUp(Run(c, steps[..n])) by {
        assert Run(c, steps[..n]).letters <= Run(c, steps).letters;
      }
      EveryRunReplays(c, homes, steps[..n]);
      EveryRunIsSafe(c, steps[..n]);
      StepKeepsReplayed(c, homes, Run(c, steps[..n]), Fronts(c, steps[..n]), steps[n]);
    }
  }

  // ---------------------------------------------------------------------------
  // The theorems
  // ---------------------------------------------------------------------------

  /** The decisions table: a SQL table is the set of its rows. */
  function DecisionsTable(s: State): set<Decision> {
    set d | d in s.tables.transactions
  }

  /** What processing each log once, alone and in order, would store. */
  function Reference(c: Config): set<Decision> {
    set p, d | 0 <= p < |c.logs| && d in Sequential(c.rules, c.logs[p]) :: d
  }

  ghost predicate AllSettled(c: Config, s: State) {
    forall p: nat, o: nat :: InLogs(c, p, o) ==> Settled(c, s, p, o)
  }

  /** At any moment of any run, the table is the sequential fold of each partition's settled prefix. */
  lemma TableIsFoldOfSettledPrefixes(c: Config, homes: Homes, steps: seq<Step>)
    requires c.highWatermark >= 1 && Confined(c, homes) && NothingGivenUp(Run(c, steps))
    ensures var s, front := Run(c, steps), Fronts(c, steps);
            && |front| == |c.logs|
            && (forall p: nat, o: nat :: Settled(c, s, p, o) <==> p < |front| && o < front[p])
            && (forall p :: 0 <= p < |c.logs| ==>
                  front[p] <= |c.logs[p]|
                  && Share(s.tables.transactions, homes, p) == Sequential(c.rules, c.logs[p][..front[p]]))
  {
    EveryRunIsSafe(c, steps);
    EveryRunReplays(c, homes, steps);
  }

  lemma SettledThrough(c: Config, s: State, front: seq<nat>, p: nat)
    requires Frontier(c, s, front) && AllSettled(c, s) && p < |c.logs|
    ensures front[p] == |c.logs[p]|
  {
    var o := front[p];
    assert InLogs(c, p, o) ==> Settled(c, s, p, o);
  }

  /** A run that settles every message ends with exactly the reference table. */
  lemma ReplayDeterminism(c: Config, homes: Homes, steps: seq<Step>)
    requires c.highWatermark >= 1 && Confined(c, homes)
    requires NothingGivenUp(Run(c, steps)) && AllSettled(c, Run(c, steps))
    ensures DecisionsTable(Run(c, steps)) == Reference(c)
  {
    EveryRunIsSafe(c, steps);
    EveryRunReplays(c, homes, steps);
    var s, front := Run(c, steps), Fronts(c, steps);
    var rows := s.tables.transactions;
    forall p | 0 <= p < |c.logs| ensures Share(rows, homes, p) == Sequential(c.rules, c.logs[p]) {
      SettledThrough(c, s, front, p);
      assert c.logs[p][..front[p]] == c.logs[p];
    }
    forall d ensures d in rows <==> d in Reference(c) {
      ShareMembers(rows, homes, d);
      if d in Reference(c) {
        var p :| 0 <= p < |c.logs| && d in Sequential(c.rules, c.logs[p]);
        ShareOnlyOwn(rows, homes, p, d);
      }
    }
  }

  lemma {:induction false} ShareOnlyOwn(rows: seq<Decision>, homes: Homes, p: nat, d: Decision)
    requires d in Share(rows, homes, p)
    ensures d in rows && homes.ofUser(d.userId) == p
  {
    var n := |rows| - 1;
    assert rows == rows[..n] + [rows[n]];
    if d in Share(rows[..n], homes, p) {
      ShareOnlyOwn(rows[..n], homes, p, d);
    }
  }

  /** Any two runs that settle the same logs agree, however they were scheduled. */
  lemma AnyTwoRunsAgree(c: Config, homes: Homes, steps: seq<Step>, others: seq<Step>)
    requires c.highWatermark >= 1 && Confined(c, homes)
    requires NothingGivenUp(Run(c, steps)) && AllSettled(c, Run(c, steps))
    requires NothingGivenUp(Run(c, others)) && AllSettled(c, Run(c, others))
    ensures DecisionsTable(Run(c, steps)) == DecisionsTable(Run(c, others))
  {
    ReplayDeterminism(c, homes, steps);
    ReplayDeterminism(c, homes, others);
  }
}
