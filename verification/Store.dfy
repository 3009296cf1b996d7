/**
 The transactions and transaction_history tables: the first-decision-wins write of
 `record_decision`, the velocity look-back, and what the audit table always says.
 Tables are sequences of rows in commit order; a SQL transaction is one function call.
 */
module Store {
  import opened Wrappers
  import opened Records

  datatype Tables = Tables(transactions: seq<Decision>, history: seq<HistoryRow>)

  const EMPTY := Tables([], [])

  datatype RecordError = ConflictingDuplicate

  datatype RecordResult = RecordResult(outcome: RecordOutcome, decision: Decision)

  /** The row stored under a primary key, if any. */
  function Find(rows: seq<Decision>, id: nat): (r: Option<Decision>)
    ensures r.Some? ==> r.value in rows && r.value.transactionId == id
    ensures r.None? ==> forall d :: d in rows ==> d.transactionId != id
  {
    if rows == [] then None
    else
      var n := |rows| - 1;
      assert rows == rows[..n] + [rows[n]];
      match Find(rows[..n], id)
      case Some(d) => Some(d)
      case None => if rows[n].transactionId == id then Some(rows[n]) else None
  }

  /** Whether a second decision under an id may be a repeat: equal event data, whatever the scores. */
  predicate SameTransaction(a: Decision, b: Decision) {
    && a.userId == b.userId
    && a.amount == b.amount
    && a.currency == b.currency
    && a.category == b.category
    && a.occurredAt == b.occurredAt
  }

  function HistoryValues(d: Decision, source: Provenance, outcome: RecordOutcome, correlationId: Option<string>): HistoryRow {
    HistoryRow(d.transactionId, outcome, d.userId, d.amount, d.currency, d.category, d.occurredAt, d.riskScore,
               d.verdict, d.isFraud, d.triggeredRules, d.rulesVersion, d.rulesHash, source, correlationId)
  }

  /** The unique key of the audit table is topic, partition and offset; the timestamp is not part of it. */
  predicate SameSource(a: Provenance, b: Provenance) {
    a.topic == b.topic && a.partition == b.partition && a.offset == b.offset
  }

  predicate HasSource(history: seq<HistoryRow>, source: Provenance) {
    exists i :: 0 <= i < |history| && SameSource(history[i].source, source)
  }

  /** The whole database transaction: both tables afterwards, and the result or the refusal. */
  function Record(t: Tables, d: Decision, source: Provenance): (Tables, Result<RecordResult, RecordError>) {
    var existing := Find(t.transactions, d.transactionId);
    if existing.Some? && !SameTransaction(existing.value, d) then
      (t, Err(ConflictingDuplicate))
    else
      var outcome := if existing.None? then Evaluated else Duplicate;
      var stored := if existing.None? then d else existing.value;
      var rows := if existing.None? then t.transactions + [d] else t.transactions;
      var history := if HasSource(t.history, source) then t.history
                     else t.history + [HistoryValues(stored, source, outcome, d.correlationId)];
      (Tables(rows, history), Ok(RecordResult(outcome, stored)))
  }

  /** A connection to the database, writing as the source does: statement by statement, then commit or roll back. */
  class Database {
    var transactions: seq<Decision>
    var history: seq<HistoryRow>

    constructor ()
      ensures Contents() == EMPTY
    {
      transactions, history := [], [];
    }

    ghost function Contents(): Tables
      reads this
    {
      Tables(transactions, history)
    }

    /** INSERT ... ON CONFLICT (transaction_id) DO NOTHING RETURNING transaction_id. */
    method InsertTransaction(d: Decision) returns (inserted: bool)
      modifies this`transactions
      ensures inserted == Find(old(transactions), d.transactionId).None?
      ensures transactions == if inserted then old(transactions) + [d] else old(transactions)
    {
      var existing := Find(transactions, d.transactionId);
      inserted := existing.None?;
      if inserted {
        transactions := transactions + [d];
      }
    }

    /** INSERT ... ON CONFLICT (source) DO NOTHING. */
    method InsertHistory(row: HistoryRow)
      modifies this`history
      ensures history == if HasSource(old(history), row.source) then old(history) else old(history) + [row]
    {
      if !HasSource(history, row.source) {
        history := history + [row];
      }
    }

    method RecordDecision(d: Decision, source: Provenance) returns (r: Result<RecordResult, RecordError>)
      modifies this
      ensures (Contents(), r) == Record(old(Contents()), d, source)
      ensures r.Ok? ==> (r.value.outcome == Evaluated <==> Find(old(transactions), d.transactionId).None?)
      ensures r.Ok? ==> Find(transactions, d.transactionId) == Some(r.value.decision)
    {
      var savedTransactions, savedHistory := transactions, history;
      var outcome, stored := Evaluated, d;
      var inserted := InsertTransaction(d);
      if !inserted {
        stored := Find(transactions, d.transactionId).value;
        if !SameTransaction(stored, d) {
          transactions, history := savedTransactions, savedHistory;  // roll back
          return Err(ConflictingDuplicate);
        }
        outcome := Duplicate;
      }
      InsertHistory(HistoryValues(stored, source, outcome, d.correlationId));
      AnswerIsTheStoredDecision(old(Contents()), d, source);
      return Ok(RecordResult(outcome, stored));
    }
  }

  // ---------------------------------------------------------------------------
  // The velocity look-back
  // ---------------------------------------------------------------------------

  datatype Aggregates = Aggregates(count: nat, amount: real)

  datatype Window = Window(userId: nat, start: int, end: int, excluded: nat, currency: string) {
    /** The WHERE clause: both bounds are inclusive. */
    predicate Selects(d: Decision) {
      d.userId == userId && start <= d.occurredAt <= end && d.transactionId != excluded
    }
  }

  /** Counts every selected row, in any currency; sums only the rows in the window's currency. */
  function Velocity(rows: seq<Decision>, w: Window): Aggregates {
    if rows == [] then Aggregates(0, 0.0)
    else
      var d := rows[|rows| - 1];
      var rest := Velocity(rows[..|rows| - 1], w);
      if !w.Selects(d) then rest
      else Aggregates(rest.count + 1, rest.amount + (if d.currency == w.currency then d.amount else 0.0))
  }

  lemma VelocitySnoc(rows: seq<Decision>, d: Decision, w: Window)
    ensures Velocity(rows + [d], w) ==
            if !w.Selects(d) then Velocity(rows, w)
            else Aggregates(Velocity(rows, w).count + 1,
                            Velocity(rows, w).amount + (if d.currency == w.currency then d.amount else 0.0))
  {
    assert (rows + [d])[..|rows|] == rows;
  }

  /** The look-back adds up over parts of the table, so it does not depend on the order of the rows. */
  lemma {:induction false} VelocityAdds(a: seq<Decision>, b: seq<Decision>, w: Window)
    ensures Velocity(a + b, w) ==
            Aggregates(Velocity(a, w).count + Velocity(b, w).count, Velocity(a, w).amount + Velocity(b, w).amount)
  {
    if b == [] {
      assert a + b == a;
    } else {
      var n := |b| - 1;
      VelocityAdds(a, b[..n], w);
      assert a + b == (a + b[..n]) + [b[n]];
      VelocitySnoc(a + b[..n], b[n], w);
    }
  }

  /**
   One row counts iff it is another transaction of the user between the bounds, both included; it adds its
   amount only in the window's currency. With the previous lemma this fixes the aggregates of every table.
   */
  lemma VelocityOfOne(d: Decision, w: Window)
    ensures var seen := d.userId == w.userId && d.transactionId != w.excluded && d.occurredAt >= w.start && d.occurredAt <= w.end;
            Velocity([d], w) == Aggregates(if seen then 1 else 0, if seen && d.currency == w.currency then d.amount else 0.0)
  {
    assert [d] == [] + [d];
    VelocitySnoc([], d, w);
  }

  lemma FindSnoc(rows: seq<Decision>, d: Decision, id: nat)
    ensures Find(rows + [d], id) ==
            if Find(rows, id).Some? then Find(rows, id)
            else if d.transactionId == id then Some(d) else None
  {
    assert (rows + [d])[..|rows|] == rows;
  }

  /** A row once found stays the row found, however the table grows. */
  lemma {:induction false} FindStable(rows: seq<Decision>, more: seq<Decision>, id: nat)
    requires Find(rows, id).Some?
    ensures Find(rows + more, id) == Find(rows, id)
  {
    if more == [] {
      assert rows + more == rows;
    } else {
      var n := |more| - 1;
      FindStable(rows, more[..n], id);
      assert rows + more == (rows + more[..n]) + [more[n]];
      FindSnoc(rows + more[..n], more[n], id);
    }
  }

  // ---------------------------------------------------------------------------
  // What the audit table says in every reachable state
  // ---------------------------------------------------------------------------

  /** One delivery: a worker's decision for the event at `source`, scored however it was scored. */
  datatype Call = Call(decision: Decision, source: Provenance)

  /** What a source position carries. The timestamp is metadata, so positions are keyed without it. */
  datatype SourceKey = SourceKey(topic: string, partition: nat, offset: nat)

  function KeyOf(p: Provenance): SourceKey {
    SourceKey(p.topic, p.partition, p.offset)
  }

  /** The decision is about the event: same id, same transaction data. */
  predicate EventOf(e: Event, d: Decision) {
    && d.transactionId == e.transactionId && d.userId == e.userId && d.amount == e.amount
    && d.currency == e.currency && d.category == e.category && d.occurredAt == e.occurredAt
  }

  /** The call's decision is about the event that this position always carries. */
  ghost predicate CarriesItsEvent(feed: SourceKey -> Event, c: Call) {
    EventOf(feed(KeyOf(c.source)), c.decision)
  }

  function RunCalls(t: Tables, calls: seq<Call>): Tables
    decreases |calls|
  {
    if calls == [] then t
    else RunCalls(Record(t, calls[0].decision, calls[0].source).0, calls[1..])
  }

  /** How many `evaluated` rows the audit table holds for a transaction. */
  function EvaluatedRows(history: seq<HistoryRow>, id: nat): nat {
    if history == [] then 0
    else
      var r := history[|history| - 1];
      EvaluatedRows(history[..|history| - 1], id) + (if r.transactionId == id && r.outcome == Evaluated then 1 else 0)
  }

  /** Every decision field of an audit row is the stored decision's. */
  predicate Agrees(r: HistoryRow, d: Decision) {
    && r.transactionId == d.transactionId && r.userId == d.userId && r.amount == d.amount
    && r.currency == d.currency && r.category == d.category && r.occurredAt == d.occurredAt
    && r.riskScore == d.riskScore && r.verdict == d.verdict && r.isFraud == d.isFraud
    && r.triggeredRules == d.triggeredRules && r.rulesVersion == d.rulesVersion && r.rulesHash == d.rulesHash
  }

  ghost predicate Audited(feed: SourceKey -> Event, t: Tables) {
    && UniqueIds(t.transactions)
    && UniqueSources(t.history)
    && (forall r :: r in t.history ==> RowJustified(feed, t, r))
    && (forall id: nat :: EvaluatedOnce(t, id))
  }

  ghost predicate UniqueSources(history: seq<HistoryRow>) {
    forall i, j :: 0 <= i < j < |history| ==> KeyOf(history[i].source) != KeyOf(history[j].source)
  }

  /** Exactly one `evaluated` row per stored transaction, and none for any other. */
  ghost predicate EvaluatedOnce(t: Tables, id: nat) {
    EvaluatedRows(t.history, id) == if Find(t.transactions, id).Some? then 1 else 0
  }

  ghost predicate RowJustified(feed: SourceKey -> Event, t: Tables, r: HistoryRow) {
    && r.transactionId == feed(KeyOf(r.source)).transactionId
    && Find(t.transactions, r.transactionId).Some?
    && Agrees(r, Find(t.transactions, r.transactionId).value)
    && EventOf(feed(KeyOf(r.source)), Find(t.transactions, r.transactionId).value)
  }

  lemma RecordedSource(feed: SourceKey -> Event, t: Tables, source: Provenance)
    requires Audited(feed, t) && HasSource(t.history, source)
    ensures var e := feed(KeyOf(source));
            Find(t.transactions, e.transactionId).Some? && EventOf(e, Find(t.transactions, e.transactionId).value)
  {
    var i :| 0 <= i < |t.history| && SameSource(t.history[i].source, source);
    assert RowJustified(feed, t, t.history[i]);
  }

  lemma EvaluatedSnoc(history: seq<HistoryRow>, r: HistoryRow, id: nat)
    ensures EvaluatedRows(history + [r], id) ==
            EvaluatedRows(history, id) + (if r.transactionId == id && r.outcome == Evaluated then 1 else 0)
  {
    assert (history + [r])[..|history|] == history;
  }

  /** The first delivery of a transaction: one row in each table. No audit row can be there before it. */
  lemma InsertKeepsAudit(feed: SourceKey -> Event, t: Tables, c: Call)
    requires Audited(feed, t) && CarriesItsEvent(feed, c) && Find(t.transactions, c.decision.transactionId).None?
    ensures Audited(feed, Record(t, c.decision, c.source).0)
  {
    var d, t' := c.decision, Record(t, c.decision, c.source).0;
    if HasSource(t.history, c.source) { RecordedSource(feed, t, c.source); }
    var row := HistoryValues(d, c.source, Evaluated, d.correlationId);
    assert t' == Tables(t.transactions + [d], t.history + [row]);
    forall id: nat ensures EvaluatedOnce(t', id) {
      assert EvaluatedOnce(t, id);
      FindSnoc(t.transactions, d, id);
      EvaluatedSnoc(t.history, row, id);
    }
    forall r | r in t'.history ensures RowJustified(feed, t', r) {
      FindSnoc(t.transactions, d, r.transactionId);
      if r in t.history { assert RowJustified(feed, t, r); }
    }
  }

  /** A later delivery of a stored transaction adds at most an audit row, under its own position. */
  lemma DuplicateKeepsAudit(feed: SourceKey -> Event, t: Tables, c: Call)
    requires Audited(feed, t) && CarriesItsEvent(feed, c)
    requires var e := Find(t.transactions, c.decision.transactionId); e.Some? && SameTransaction(e.value, c.decision)
    ensures Audited(feed, Record(t, c.decision, c.source).0)
  {
    var t' := Record(t, c.decision, c.source).0;
    if !HasSource(t.history, c.source) {
      var stored := Find(t.transactions, c.decision.transactionId).value;
      var row := HistoryValues(stored, c.source, Duplicate, c.decision.correlationId);
      assert t' == Tables(t.transactions, t.history + [row]);
      forall id: nat ensures EvaluatedOnce(t', id) {
        assert EvaluatedOnce(t, id);
        EvaluatedSnoc(t.history, row, id);
      }
      forall r | r in t'.history ensures RowJustified(feed, t', r) {
        if r in t.history { assert RowJustified(feed, t, r); }
      }
    }
  }

  lemma RecordKeepsAudit(feed: SourceKey -> Event, t: Tables, c: Call)
    requires Audited(feed, t) && CarriesItsEvent(feed, c)
    ensures Audited(feed, Record(t, c.decision, c.source).0)
  {
    var existing := Find(t.transactions, c.decision.transactionId);
    if existing.None? {
      InsertKeepsAudit(feed, t, c);
    } else if SameTransaction(existing.value, c.decision) {
      DuplicateKeepsAudit(feed, t, c);
    }
  }

  lemma {:induction false} RunsKeepAudit(feed: SourceKey -> Event, t: Tables, calls: seq<Call>)
    requires Audited(feed, t)
    requires forall c :: c in calls ==> CarriesItsEvent(feed, c)
    ensures Audited(feed, RunCalls(t, calls))
    decreases |calls|
  {
    if calls != [] {
      assert calls[0] in calls;
      RecordKeepsAudit(feed, t, calls[0]);
      RunsKeepAudit(feed, Record(t, calls[0].decision, calls[0].source).0, calls[1..]);
    }
  }

  /** In every state reachable by any deliveries, in any order and number, the audit table is exact. */
  lemma AuditInEveryRun(feed: SourceKey -> Event, calls: seq<Call>)
    requires forall c :: c in calls ==> CarriesItsEvent(feed, c)
    ensures Audited(feed, RunCalls(EMPTY, calls))
  {
    RunsKeepAudit(feed, EMPTY, calls);
  }

  /** Stored decisions and audit rows are never changed or removed: the tables only grow at the end. */
  lemma {:induction false} RunsOnlyAppend(t: Tables, calls: seq<Call>)
    ensures t.transactions <= RunCalls(t, calls).transactions
    ensures t.history <= RunCalls(t, calls).history
    decreases |calls|
  {
    if calls != [] {
      RunsOnlyAppend(Record(t, calls[0].decision, calls[0].source).0, calls[1..]);
    }
  }

  /** Re-applying a message that is already in the audit table, however it is re-scored, changes nothing. */
  lemma {:induction false} ReapplyingChangesNothing(feed: SourceKey -> Event, t: Tables, c: Call)
    requires Audited(feed, t) && CarriesItsEvent(feed, c) && HasSource(t.history, c.source)
    ensures var (t', r) := Record(t, c.decision, c.source);
            t' == t && r == Ok(RecordResult(Duplicate, Find(t.transactions, c.decision.transactionId).value))
  {
    RecordedSource(feed, t, c.source);
  }

  /** A refusal writes nothing, and it happens exactly when the id is stored with different data. */
  lemma ConflictWritesNothing(t: Tables, d: Decision, source: Provenance)
    ensures var (t', r) := Record(t, d, source);
            && (r.Err? ==> t' == t)
            && (r.Err? <==> exists e :: e in t.transactions && Find(t.transactions, d.transactionId) == Some(e)
                                        && !SameTransaction(e, d))
  {
    var existing := Find(t.transactions, d.transactionId);
    if existing.Some? {
      assert existing.value in t.transactions;
    }
  }

  // ---------------------------------------------------------------------------
  // What a delivery is answered
  // ---------------------------------------------------------------------------

  /**
   An answer says `evaluated` exactly when no row had the id before, and its decision is in any case the one
   stored under the id from then on: this delivery's own if it was the first, else the one that was there.
   */
  lemma AnswerIsTheStoredDecision(t: Tables, d: Decision, source: Provenance)
    requires Record(t, d, source).1.Ok?
    ensures var (t', r) := Record(t, d, source);
            && (r.value.outcome == Evaluated <==> forall row :: row in t.transactions ==> row.transactionId != d.transactionId)
            && Find(t'.transactions, d.transactionId) == Some(r.value.decision)
            && (r.value.outcome == Evaluated ==> r.value.decision == d)
            && (r.value.outcome == Duplicate ==> r.value.decision in t.transactions && t'.transactions == t.transactions)
  {
    FindSnoc(t.transactions, d, d.transactionId);
  }

  /**
   The audit row of a position met for the first time: the stored decision's data, the outcome that was answered,
   this message's position and timestamp, and this delivery's correlation id, not the first one's.
   */
  lemma AuditRowOfAnswer(t: Tables, d: Decision, source: Provenance)
    requires Record(t, d, source).1.Ok?
    ensures var (t', r) := Record(t, d, source);
            if exists row :: row in t.history && KeyOf(row.source) == KeyOf(source) then t'.history == t.history
            else
              && |t'.history| == |t.history| + 1 && t'.history[..|t.history|] == t.history
              && var row := t'.history[|t.history|];
                 && Agrees(row, r.value.decision) && row.outcome == r.value.outcome
                 && row.source == source && row.correlationId == d.correlationId
  {
    if HasSource(t.history, source) {
      var i :| 0 <= i < |t.history| && SameSource(t.history[i].source, source);
      assert t.history[i] in t.history;
    }
    if row :| row in t.history && KeyOf(row.source) == KeyOf(source) {
      var i :| 0 <= i < |t.history| && t.history[i] == row;
    }
  }

  /** The answer to call i. */
  function AnswerAt(t: Tables, calls: seq<Call>, i: nat): Result<RecordResult, RecordError>
    requires i < |calls|
  {
    Record(RunCalls(t, calls[..i]), calls[i].decision, calls[i].source).1
  }

  lemma {:induction false} RunCallsSnoc(t: Tables, calls: seq<Call>, i: nat)
    requires i < |calls|
    ensures RunCalls(t, calls[..i + 1]) == Record(RunCalls(t, calls[..i]), calls[i].decision, calls[i].source).0
    decreases i
  {
    var next := Record(t, calls[0].decision, calls[0].source).0;
    assert calls[..i + 1][1..] == calls[1..][..i];
    if i > 0 {
      assert calls[..i][1..] == calls[1..][..i - 1];
      RunCallsSnoc(next, calls[1..], i - 1);
    }
  }

  /** A row found before a delivery is the one found after it. */
  lemma RecordKeepsFound(t: Tables, d: Decision, source: Provenance, id: nat)
    requires Find(t.transactions, id).Some?
    ensures Find(Record(t, d, source).0.transactions, id) == Find(t.transactions, id)
  {
    FindSnoc(t.transactions, d, id);
  }

  /** The tables between the calls. */
  ghost predicate Between(states: seq<Tables>, calls: seq<Call>) {
    && |states| == |calls| + 1
    && forall k :: 0 <= k < |calls| ==> states[k + 1] == Record(states[k], calls[k].decision, calls[k].source).0
  }

  lemma StatesBetween(t: Tables, calls: seq<Call>) returns (states: seq<Tables>)
    ensures Between(states, calls)
    ensures forall k :: 0 <= k <= |calls| ==> states[k] == RunCalls(t, calls[..k])
  {
    states := seq(|calls| + 1, k requires 0 <= k <= |calls| => RunCalls(t, calls[..k]));
    forall k | 0 <= k < |calls|
      ensures states[k + 1] == Record(states[k], calls[k].decision, calls[k].source).0
    {
      RunCallsSnoc(t, calls, k);
    }
  }

  lemma {:induction false} FoundStays(states: seq<Tables>, calls: seq<Call>, i: nat, j: nat, id: nat)
    requires Between(states, calls) && i <= j <= |calls| && Find(states[i].transactions, id).Some?
    ensures Find(states[j].transactions, id) == Find(states[i].transactions, id)
    decreases j
  {
    if i < j {
      FoundStays(states, calls, i, j - 1, id);
      RecordKeepsFound(states[j - 1], calls[j - 1].decision, calls[j - 1].source, id);
    }
  }

  /**
   First decision wins, over any deliveries of any events: once an id has been answered, every later answer for
   it is `duplicate` with the very same decision. So an id is answered `evaluated` at most once.
   */
  lemma OneDecisionPerId(t: Tables, calls: seq<Call>, i: nat, j: nat)
    requires i < j < |calls| && calls[i].decision.transactionId == calls[j].decision.transactionId
    requires AnswerAt(t, calls, i).Ok? && AnswerAt(t, calls, j).Ok?
    ensures AnswerAt(t, calls, j).value == RecordResult(Duplicate, AnswerAt(t, calls, i).value.decision)
  {
    var states := StatesBetween(t, calls);
    AnswerIsTheStoredDecision(states[i], calls[i].decision, calls[i].source);
    FoundStays(states, calls, i + 1, j, calls[i].decision.transactionId);
  }
}
