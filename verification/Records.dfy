/** The values that travel between the parts: parsed events, assessments, stored rows. */
module Records {
  import opened Wrappers

  /** Upstream features of an event; every field is optional. */
  datatype Enrichment = Enrichment(
    distanceKm: Option<real>,
    minutesSinceLast: Option<int>,
    averageSpend: Option<real>,
    isNewMerchant: Option<bool>,
    isTravelling: Option<bool>)

  /** A parsed transaction event. Ids are UUIDs, read as numbers; times are microseconds. */
  datatype Event = Event(
    transactionId: nat,
    userId: nat,
    amount: real,
    currency: string,
    category: string,
    occurredAt: int,
    channel: Option<string>,
    country: Option<string>,
    enrichment: Option<Enrichment>,
    correlationId: Option<string>)

  datatype Verdict = Approved | Review | Rejected

  /** Which rules fired for a transaction, their total, and the band it falls in. */
  datatype Assessment = Assessment(triggeredRules: seq<string>, riskScore: int, verdict: Verdict) {
    predicate IsFraud() { verdict != Approved }
  }

  /** A row of the transactions table: the event's data and the decision made about it. */
  datatype Decision = Decision(
    transactionId: nat,
    userId: nat,
    amount: real,
    currency: string,
    category: string,
    occurredAt: int,
    riskScore: int,
    verdict: Verdict,
    isFraud: bool,
    triggeredRules: seq<string>,
    rulesVersion: string,
    rulesHash: string,
    correlationId: Option<string>,
    channel: Option<string>,
    country: Option<string>,
    enrichment: Option<Enrichment>)

  /** The primary key of the transactions table. */
  ghost predicate UniqueIds(rows: seq<Decision>) {
    forall i, j :: 0 <= i < j < |rows| ==> rows[i].transactionId != rows[j].transactionId
  }

  /** A message's position, with the timestamp it was produced under. */
  datatype Provenance = Provenance(topic: string, partition: nat, offset: nat, timestampMs: Option<int>)

  datatype RecordOutcome = Evaluated | Duplicate

  /** A row of the append-only audit table. */
  datatype HistoryRow = HistoryRow(
    transactionId: nat,
    outcome: RecordOutcome,
    userId: nat,
    amount: real,
    currency: string,
    category: string,
    occurredAt: int,
    riskScore: int,
    verdict: Verdict,
    isFraud: bool,
    triggeredRules: seq<string>,
    rulesVersion: string,
    rulesHash: string,
    source: Provenance,
    correlationId: Option<string>)
}
