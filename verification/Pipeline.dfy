/** The parts together: what every stored decision means, in terms of the published rules. */
module Pipeline {
  import opened Records
  import opened Store
  import opened RuleContexts
  import opened RuleSets
  import opened Delivery
  import opened Replay

  /** Score an event with a definition; the fallback is never taken for a valid one. */
  function Assess(d: Definition, e: Event, velocity: Aggregates): Assessment {
    match EvaluateRuleSet(d, ContextOf(e, velocity.count, velocity.amount))
    case Ok(a) => a
    case Err(_) => Assessment([], 0, Approved)
  }

  function RulesOf(d: Definition, version: string, contentHash: string): Rules
    requires d.windowSeconds >= 0
  {
    Rules(d.windowSeconds, version, contentHash, (e, velocity) => Assess(d, e, velocity))
  }

  /** The decision was made for message o of a log, from exactly the decisions of the messages before it. */
  ghost predicate MadeAt(rules: Rules, log: seq<KafkaMessage>, o: nat, d: Decision) {
    o < |log| && log[o].body.Some? && d == Decide(rules, Sequential(rules, log[..o]), log[o].body.value)
  }

  lemma {:induction false} EveryRowWasMade(rules: Rules, log: seq<KafkaMessage>, d: Decision) returns (o: nat)
    requires d in Sequential(rules, log)
    ensures MadeAt(rules, log, o, d)
  {
    var n := |log| - 1;
    if d in Sequential(rules, log[..n]) {
      o := EveryRowWasMade(rules, log[..n], d);
      assert log[..n][..o] == log[..o];
    } else {
      o := n;
    }
  }

  /** What the published rules say about a message, given the decisions before it. */
  ghost predicate Explained(def: Definition, rules: Rules, log: seq<KafkaMessage>, o: nat, d: Decision)
    requires o < |log| && log[o].body.Some?
  {
    var e := log[o].body.value;
    var velocity := Velocity(Sequential(rules, log[..o]), LookBack(rules, e));
    var firing := Firing(def.rules, ContextOf(e, velocity.count, velocity.amount));
    && EventOf(e, d)
    && d.triggeredRules == Codes(firing)
    && d.riskScore == TotalScore(firing)
    && d.verdict == def.VerdictFor(d.riskScore)
    && (d.isFraud <==> d.riskScore >= def.reviewThreshold)
    && d.rulesVersion == rules.version && d.rulesHash == rules.contentHash
    && d.correlationId == e.correlationId && d.channel == e.channel && d.country == e.country && d.enrichment == e.enrichment
  }

  lemma MadeIsExplained(def: Definition, version: string, contentHash: string, log: seq<KafkaMessage>, o: nat, d: Decision)
    requires Valid(def) && MadeAt(RulesOf(def, version, contentHash), log, o, d)
    ensures Explained(def, RulesOf(def, version, contentHash), log, o, d)
  {
    var rules := RulesOf(def, version, contentHash);
    var e := log[o].body.value;
    var velocity := Velocity(Sequential(rules, log[..o]), LookBack(rules, e));
    EventContextIsWellTyped(e, velocity.count, velocity.amount);
    ValidRuleSetScores(def, ContextOf(e, velocity.count, velocity.amount));
    assert rules.assess(e, velocity) == Assess(def, e, velocity);
  }

  /**
   End to end: with a published rule set, in any run where nothing is given up, every stored decision is about
   some message, its reasons are exactly the rules whose published conditions are true of that message and of
   the decisions on the messages before it in its log, and its score and verdict follow from those rules.
   */
  lemma StoredDecisionsAreExplained(c: Config, homes: Homes, steps: seq<Step>, def: Definition, d: Decision) returns (p: nat, o: nat)
    requires c.highWatermark >= 1 && Confined(c, homes) && NothingGivenUp(Run(c, steps))
    requires Valid(def) && c.rules == RulesOf(def, c.rules.version, c.rules.contentHash)
    requires d in Run(c, steps).tables.transactions
    ensures p < |c.logs| && o < |c.logs[p]| && c.logs[p][o].body.Some?
    ensures Settled(c, Run(c, steps), p, o)
    ensures Explained(def, c.rules, c.logs[p], o, d)
  {
    EveryRunIsSafe(c, steps);
    EveryRunReplays(c, homes, steps);
    var rows, front := Run(c, steps).tables.transactions, Fronts(c, steps);
    p := homes.ofUser(d.userId);
    ShareMembers(rows, homes, d);
    var log := c.logs[p][..front[p]];
    o := EveryRowWasMade(c.rules, log, d);
    assert log[..o] == c.logs[p][..o];
    MadeIsExplained(def, c.rules.version, c.rules.contentHash, c.logs[p], o, d);
  }
}
