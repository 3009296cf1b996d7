/** Rule sets: what a publishable definition is, scoring with one, and the publish-time dry run. */
module RuleSets {
  import opened Wrappers
  import opened Records
  import opened RuleSyntax
  import opened RuleChecker
  import opened RuleEvaluator
  import opened RuleSoundness
  import opened RuleContexts

  datatype Rule = Rule(code: string, description: string, score: int, condition: Json)

  datatype Definition = Definition(windowSeconds: int, reviewThreshold: int, rejectThreshold: int, rules: seq<Rule>) {
    /** The band a total falls in; reaching a threshold is enough. */
    function VerdictFor(riskScore: int): Verdict {
      if riskScore >= rejectThreshold then Rejected
      else if riskScore >= reviewThreshold then Review
      else Approved
    }
  }

  // ---------------------------------------------------------------------------
  // Validation
  // ---------------------------------------------------------------------------

  predicate Upper(c: char) { 'A' <= c <= 'Z' }

  predicate CodeOk(code: string) {
    && 3 <= |code| <= 64
    && Upper(code[0])
    && forall i :: 0 <= i < |code| ==> Upper(code[i]) || '0' <= code[i] <= '9' || code[i] == '_'
  }

  predicate RuleOk(r: Rule) {
    && CodeOk(r.code)
    && 1 <= |r.description| <= 500
    && 0 <= r.score <= 1000
    && r.condition.Obj?
    && Validate(r.condition).Ok?
  }

  predicate UniqueCodes(rules: seq<Rule>) {
    forall i, j :: 0 <= i < j < |rules| ==> rules[i].code != rules[j].code
  }

  /** What `model_validate` requires of a definition. */
  predicate Valid(d: Definition) {
    && 1 <= d.windowSeconds <= 86400
    && 1 <= d.reviewThreshold <= d.rejectThreshold
    && 1 <= |d.rules| <= 50
    && (forall i :: 0 <= i < |d.rules| ==> RuleOk(d.rules[i]))
    && UniqueCodes(d.rules)
  }

  // ---------------------------------------------------------------------------
  // Scoring
  // ---------------------------------------------------------------------------

  datatype CompiledRule = CompiledRule(code: string, score: int, condition: Json)

  function Compile(rules: seq<Rule>): (r: seq<CompiledRule>)
    ensures |r| == |rules|
    ensures forall i :: 0 <= i < |rules| ==>
              r[i] == CompiledRule(rules[i].code, rules[i].score, Normalise(rules[i].condition))
  {
    seq(|rules|, i requires 0 <= i < |rules| =>
      CompiledRule(rules[i].code, rules[i].score, Normalise(rules[i].condition)))
  }

  datatype Tally = Tally(triggered: seq<string>, riskScore: int)

  /** The rules evaluated so far: the first error, or the codes that fired and their total. */
  function TallyOf(rules: seq<CompiledRule>, variables: Json): Result<Tally, EvalError> {
    if rules == [] then Ok(Tally([], 0))
    else
      var last := rules[|rules| - 1];
      match TallyOf(rules[..|rules| - 1], variables)
      case Err(e) => Err(e)
      case Ok(t) =>
        match Evaluate(last.condition, variables).value
        case Err(e) => Err(e)
        case Ok(v) => Ok(if Truthy(v) then Tally(t.triggered + [last.code], t.riskScore + last.score) else t)
  }

  function EvaluateRuleSet(d: Definition, c: EvaluationContext): Result<Assessment, EvalError> {
    match TallyOf(Compile(d.rules), AsVariables(c))
    case Err(e) => Err(e)
    case Ok(t) => Ok(Assessment(t.triggered, t.riskScore, d.VerdictFor(t.riskScore)))
  }

  /** Every rule is evaluated in turn, even past the reject threshold. */
  method EvaluateAll(d: Definition, c: EvaluationContext) returns (r: Result<Assessment, EvalError>)
    ensures r == EvaluateRuleSet(d, c)
  {
    var variables, compiled := AsVariables(c), Compile(d.rules);
    var triggered: seq<string>, riskScore := [], 0;
    var i := 0;
    while i < |compiled|
      invariant i <= |compiled|
      invariant TallyOf(compiled[..i], variables) == Ok(Tally(triggered, riskScore))
    {
      var fired := Evaluate(compiled[i].condition, variables).value;
      assert compiled[..i + 1][..i] == compiled[..i];
      if fired.Err? {
        ErrorSticks(compiled, i + 1, variables);
        return Err(fired.error);
      }
      if Truthy(fired.value) {
        triggered := triggered + [compiled[i].code];
        riskScore := riskScore + compiled[i].score;
      }
      i := i + 1;
    }
    assert compiled[..i] == compiled;
    return Ok(Assessment(triggered, riskScore, d.VerdictFor(riskScore)));
  }

  lemma {:induction false} ErrorSticks(rules: seq<CompiledRule>, n: nat, variables: Json)
    requires n <= |rules| && TallyOf(rules[..n], variables).Err?
    ensures TallyOf(rules, variables) == TallyOf(rules[..n], variables)
    decreases |rules|
  {
    if n == |rules| {
      assert rules[..n] == rules;
    } else {
      assert rules[..|rules| - 1][..n] == rules[..n];
      ErrorSticks(rules[..|rules| - 1], n, variables);
    }
  }

  // ---------------------------------------------------------------------------
  // What scoring means
  // ---------------------------------------------------------------------------

  /** The rule's condition, read strictly as published, is true of the transaction. */
  predicate Fires(r: Rule, c: EvaluationContext) {
    Denote(r.condition, AsVariables(c)) == Ok(Bool(true))
  }

  /** The rules that fire, in definition order. */
  function Firing(rules: seq<Rule>, c: EvaluationContext): seq<Rule> {
    if rules == [] then []
    else Firing(rules[..|rules| - 1], c)
         + (if Fires(rules[|rules| - 1], c) then [rules[|rules| - 1]] else [])
  }

  function Codes(rules: seq<Rule>): seq<string> {
    seq(|rules|, i requires 0 <= i < |rules| => rules[i].code)
  }

  function TotalScore(rules: seq<Rule>): int {
    if rules == [] then 0 else TotalScore(rules[..|rules| - 1]) + rules[|rules| - 1].score
  }

  /** One more rule fired, or did not, and the tally says so. */
  ghost predicate Counted(rules: seq<Rule>, c: EvaluationContext)
    requires rules != []
  {
    var n := |rules| - 1;
    var before := TallyOf(Compile(rules[..n]), AsVariables(c));
    before.Ok? ==>
      TallyOf(Compile(rules), AsVariables(c)) ==
      Ok(if Fires(rules[n], c) then Tally(before.value.triggered + [rules[n].code], before.value.riskScore + rules[n].score)
         else before.value)
  }

  /** An accepted rule's compiled condition evaluates to whether it fires. */
  lemma AcceptedRuleFires(r: Rule, c: EvaluationContext)
    requires WellTyped(c) && RuleOk(r)
    ensures Evaluate(Normalise(r.condition), AsVariables(c)).value == Ok(Bool(Fires(r, c)))
  {
    ContextSupplies(c);
    AcceptedConditionEvaluates(r.condition, AsVariables(c));
  }

  lemma TallySnoc(rules: seq<CompiledRule>, variables: Json, fired: bool)
    requires rules != [] && Evaluate(rules[|rules| - 1].condition, variables).value == Ok(Bool(fired))
    ensures var last := rules[|rules| - 1];
            match TallyOf(rules[..|rules| - 1], variables)
            case Err(e) => true
            case Ok(t) =>
              TallyOf(rules, variables) == Ok(if fired then Tally(t.triggered + [last.code], t.riskScore + last.score) else t)
  {
  }

  lemma CompiledLast(rules: seq<Rule>)
    requires rules != []
    ensures var n := |rules| - 1;
            Compile(rules)[..n] == Compile(rules[..n])
            && Compile(rules)[n] == CompiledRule(rules[n].code, rules[n].score, Normalise(rules[n].condition))
  {
  }

  lemma TallyOneMore(rules: seq<Rule>, c: EvaluationContext)
    requires rules != []
    requires var r := rules[|rules| - 1]; Evaluate(Normalise(r.condition), AsVariables(c)).value == Ok(Bool(Fires(r, c)))
    ensures Counted(rules, c)
  {
    var n := |rules| - 1;
    CompiledLast(rules);
    TallySnoc(Compile(rules), AsVariables(c), Fires(rules[n], c));
  }

  lemma FiringOneMore(rules: seq<Rule>, c: EvaluationContext)
    requires rules != []
    ensures var n := |rules| - 1;
            var before, after := Firing(rules[..n], c), Firing(rules, c);
            && Codes(after) == (if Fires(rules[n], c) then Codes(before) + [rules[n].code] else Codes(before))
            && TotalScore(after) == TotalScore(before) + (if Fires(rules[n], c) then rules[n].score else 0)
  {
    var n := |rules| - 1;
    var before := Firing(rules[..n], c);
    assert (before + [rules[n]])[..|before|] == before;
    assert before + [] == before;
  }

  ghost predicate Expected(rules: seq<Rule>, c: EvaluationContext) {
    TallyOf(Compile(rules), AsVariables(c)) == Ok(Tally(Codes(Firing(rules, c)), TotalScore(Firing(rules, c))))
  }

  lemma ExpectedOneMore(rules: seq<Rule>, c: EvaluationContext)
    requires rules != [] && Counted(rules, c) && Expected(rules[..|rules| - 1], c)
    ensures Expected(rules, c)
  {
    FiringOneMore(rules, c);
  }

  lemma {:induction false} TallyIsFiring(rules: seq<Rule>, c: EvaluationContext)
    requires WellTyped(c) && forall r :: r in rules ==> RuleOk(r)
    ensures Expected(rules, c)
  {
    if rules == [] {
      assert Codes([]) == [];
    } else {
      TallyIsFiring(rules[..|rules| - 1], c);
      AcceptedRuleFires(rules[|rules| - 1], c);
      TallyOneMore(rules, c);
      ExpectedOneMore(rules, c);
    }
  }

  lemma {:induction false} TotalIsBounded(rules: seq<Rule>, c: EvaluationContext)
    requires forall r :: r in rules ==> 0 <= r.score <= 1000
    ensures 0 <= TotalScore(Firing(rules, c)) <= 1000 * |rules|
  {
    if rules != [] {
      TotalIsBounded(rules[..|rules| - 1], c);
      FiringOneMore(rules, c);
      assert rules[|rules| - 1] in rules;
    }
  }

  /**
   Scoring with a valid rule set never fails: the reasons are exactly the rules whose conditions are true, in
   order, the risk is the sum of their scores, and the transaction is flagged iff it reaches the review threshold.
   */
  lemma ValidRuleSetScores(d: Definition, c: EvaluationContext)
    requires Valid(d) && WellTyped(c)
    ensures var firing := Firing(d.rules, c);
            var total := TotalScore(firing);
            && EvaluateRuleSet(d, c) == Ok(Assessment(Codes(firing), total, d.VerdictFor(total)))
            && 0 <= total <= 50_000
            && (EvaluateRuleSet(d, c).value.verdict == Rejected <==> total >= d.rejectThreshold)
            && (EvaluateRuleSet(d, c).value.IsFraud() <==> total >= d.reviewThreshold)
  {
    TallyIsFiring(d.rules, c);
    TotalIsBounded(d.rules, c);
  }

  lemma {:induction false} FiringJoins(rules: seq<Rule>, more: seq<Rule>, c: EvaluationContext)
    ensures Firing(rules + more, c) == Firing(rules, c) + Firing(more, c)
  {
    if more == [] {
      assert rules + more == rules;
    } else {
      var n := |more| - 1;
      FiringJoins(rules, more[..n], c);
      assert (rules + more)[..|rules| + n] == rules + more[..n];
    }
  }

  lemma {:induction false} TotalJoins(rules: seq<Rule>, more: seq<Rule>)
    ensures TotalScore(rules + more) == TotalScore(rules) + TotalScore(more)
  {
    if more == [] {
      assert rules + more == rules;
    } else {
      var n := |more| - 1;
      TotalJoins(rules, more[..n]);
      assert (rules + more)[..|rules| + n] == rules + more[..n];
    }
  }

  lemma FiringOfOne(r: Rule, c: EvaluationContext)
    ensures Firing([r], c) == if Denote(r.condition, AsVariables(c)) == Ok(Bool(true)) then [r] else []
    ensures TotalScore([r]) == r.score && Codes([r]) == [r.code]
  {
    assert [r][..0] == [];
  }

  /**
   Which rules fire, in which order, for how much: a rule by itself fires iff its condition as published is true,
   and then scores its own score; a list of rules fires and scores as its parts do, one after the other.
   */
  lemma FiringIsRuleByRule(rules: seq<Rule>, r: Rule, more: seq<Rule>, c: EvaluationContext)
    ensures Firing([r], c) == if Denote(r.condition, AsVariables(c)) == Ok(Bool(true)) then [r] else []
    ensures TotalScore([r]) == r.score && TotalScore([]) == 0 && Codes([r]) == [r.code]
    ensures Firing(rules + more, c) == Firing(rules, c) + Firing(more, c)
    ensures TotalScore(rules + more) == TotalScore(rules) + TotalScore(more)
    ensures Codes(rules + more) == Codes(rules) + Codes(more)
  {
    FiringOfOne(r, c);
    FiringJoins(rules, more, c);
    TotalJoins(rules, more);
  }

  // ---------------------------------------------------------------------------
  // Publishing
  // ---------------------------------------------------------------------------

  const DRY_RUN := EvaluationContext(100.0, "ZAR", "GROCERIES", 1, 100.0, None, None, [])

  /** `parse_rule_set_definition`: validate, then score a sample transaction. */
  function Parse(d: Definition): Option<Definition> {
    if Valid(d) && EvaluateRuleSet(d, DRY_RUN).Ok? then Some(d) else None
  }

  /** The static check is enough: the dry run never rejects a set that validates. */
  lemma DryRunNeverRejects(d: Definition)
    ensures Parse(d).Some? <==> Valid(d)
    ensures Valid(d) ==> Parse(d) == Some(d)
  {
    if Valid(d) {
      assert WellTyped(DRY_RUN) by {
        assert Present(DRY_RUN.enrichment) == [];
      }
      ValidRuleSetScores(d, DRY_RUN);
    }
  }

  /** A code of 3 to 64 capitals, digits and underscores that starts with a capital. */
  ghost predicate CodeShaped(code: string) {
    && 3 <= |code| <= 64 && 'A' <= code[0] <= 'Z'
    && forall c :: c in code ==> 'A' <= c <= 'Z' || '0' <= c <= '9' || c == '_'
  }

  /** A rule as the documentation describes one; its condition is what `Publishable` says. */
  ghost predicate RuleShaped(r: Rule) {
    CodeShaped(r.code) && 1 <= |r.description| <= 500 && 0 <= r.score <= 1000 && r.condition.Obj? && Publishable(r.condition)
  }

  lemma CodeOkIffShaped(code: string)
    ensures CodeOk(code) <==> CodeShaped(code)
  {
    if CodeShaped(code) {
      forall i | 0 <= i < |code| ensures Upper(code[i]) || '0' <= code[i] <= '9' || code[i] == '_' {
        assert code[i] in code;
      }
    }
  }

  lemma RuleOkIffShaped(r: Rule)
    ensures RuleOk(r) <==> RuleShaped(r)
  {
    CodeOkIffShaped(r.code);
    CheckerDecidesPublishable(r.condition);
  }

  lemma RulesOkIffShaped(rules: seq<Rule>)
    ensures (forall i :: 0 <= i < |rules| ==> RuleOk(rules[i])) <==> forall r :: r in rules ==> RuleShaped(r)
  {
    forall i | 0 <= i < |rules| ensures RuleOk(rules[i]) <==> RuleShaped(rules[i]) {
      RuleOkIffShaped(rules[i]);
    }
    forall i | 0 <= i < |rules| ensures rules[i] in rules {}
  }

  /**
   What can be published, all told: windows of a second to a day, a review threshold that scoring nothing does not
   reach, a reject threshold no lower, and 1 to 50 rules, each as documented, of which no two have one code.
   */
  lemma PublishedIff(d: Definition)
    ensures Parse(d).Some? <==>
            && 1 <= d.windowSeconds <= 86_400 && 0 < d.reviewThreshold <= d.rejectThreshold
            && 1 <= |d.rules| <= 50
            && (forall r :: r in d.rules ==> RuleShaped(r))
            && forall i, j :: 0 <= i < |d.rules| && 0 <= j < |d.rules| && d.rules[i].code == d.rules[j].code ==> i == j
  {
    DryRunNeverRejects(d);
    RulesOkIffShaped(d.rules);
  }
}
