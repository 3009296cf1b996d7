/**
 What a rule can read about one transaction, and the proof that every declared variable is
 supplied with its declared type whatever optional fields the event carries.
 */
module RuleContexts {
  import opened Wrappers
  import opened Records
  import opened RuleSyntax
  import opened RuleEvaluator
  import opened RuleSoundness
  import opened RuleTypes

  datatype EvaluationContext = EvaluationContext(
    amount: real,
    currency: string,
    category: string,
    priorCount: nat,
    priorAmount: real,
    channel: Option<string>,
    country: Option<string>,
    enrichment: seq<Field>)

  function MaybeNumber(v: Option<real>): Option<Json> {
    if v.Some? then Some(Exactly(v.value)) else None
  }

  function MaybeInteger(v: Option<int>): Option<Json> {
    if v.Some? then Some(Exactly(v.value as real)) else None
  }

  function MaybeBool(v: Option<bool>): Option<Json> {
    if v.Some? then Some(Bool(v.value)) else None
  }

  function MaybeText(v: Option<string>): Option<Json> {
    if v.Some? then Some(Text(v.value)) else None
  }

  /** A dict with the given entries, leaving out the absent ones. */
  function Dict(names: seq<string>, values: seq<Option<Json>>): seq<Field>
    requires |names| == |values|
  {
    if names == [] then []
    else (if values[0].Some? then [Field(names[0], values[0].value)] else []) + Dict(names[1..], values[1..])
  }

  const FEATURES: seq<string> := [
    "distance_from_last_tx_km", "minutes_since_last_tx", "user_historical_avg_spend", "is_new_merchant_for_user",
    "is_travel_itinerary_active"]

  function FeatureValues(e: Enrichment): (values: seq<Option<Json>>)
    ensures |values| == 5
  {
    [MaybeNumber(e.distanceKm), MaybeInteger(e.minutesSinceLast), MaybeNumber(e.averageSpend),
     MaybeBool(e.isNewMerchant), MaybeBool(e.isTravelling)]
  }

  /** `model_dump(exclude_none=True)` of an event's enrichment. */
  function Dump(e: Enrichment): seq<Field> {
    Dict(FEATURES, FeatureValues(e))
  }

  /** Absent values are left out and numbers made exact. */
  function Present(fields: seq<Field>): seq<Field> {
    if fields == [] then []
    else
      (if fields[0].value.Null? then [] else [Field(fields[0].key, Normalise(fields[0].value))]) + Present(fields[1..])
  }

  const TOP: seq<string> := ["amount", "currency", "category", "velocity", "enrichment", "channel", "country"]
  const VELOCITY: seq<string> := ["prior_count", "prior_amount"]

  function VelocityValues(c: EvaluationContext): (values: seq<Option<Json>>)
    ensures |values| == 2
  {
    [Some(Exactly(c.priorCount as real)), Some(Exactly(c.priorAmount))]
  }

  function TopValues(c: EvaluationContext): (values: seq<Option<Json>>)
    ensures |values| == 7
  {
    [Some(Exactly(c.amount)), Some(Text(c.currency)), Some(Text(c.category)),
     Some(Obj(Dict(VELOCITY, VelocityValues(c)))), Some(Obj(Present(c.enrichment))),
     MaybeText(c.channel), MaybeText(c.country)]
  }

  /** `as_variables`: the nested dict that dotted names resolve against. */
  function AsVariables(c: EvaluationContext): Json {
    Obj(Dict(TOP, TopValues(c)))
  }

  // ---------------------------------------------------------------------------
  // Dicts
  // ---------------------------------------------------------------------------

  ghost predicate Distinct(names: seq<string>) {
    forall i, j :: 0 <= i < j < |names| ==> names[i] != names[j]
  }

  /** A dict with distinct names holds each entry under its own. */
  lemma {:induction false} DictHolds(names: seq<string>, values: seq<Option<Json>>, i: nat)
    requires |names| == |values| && Distinct(names) && i < |names|
    ensures FieldNamed(Dict(names, values), names[i]) == values[i]
    decreases |names|
  {
    var rest := Dict(names[1..], values[1..]);
    assert values[0].Some? ==> Dict(names, values)[1..] == rest;
    assert values[0].None? ==> Dict(names, values) == rest;
    if i == 0 {
      if values[0].None? { DictLacks(names[1..], values[1..], names[0]); }
    } else {
      DictHolds(names[1..], values[1..], i - 1);
    }
  }

  lemma {:induction false} DictLacks(names: seq<string>, values: seq<Option<Json>>, name: string)
    requires |names| == |values| && forall i :: 0 <= i < |names| ==> names[i] != name
    ensures FieldNamed(Dict(names, values), name) == None
    decreases |names|
  {
    if names != [] {
      DictLacks(names[1..], values[1..], name);
      var rest := Dict(names[1..], values[1..]);
      assert values[0].Some? ==> Dict(names, values)[1..] == rest;
      assert values[0].None? ==> Dict(names, values) == rest;
    }
  }

  /** Literals that stand for themselves once compiled. */
  ghost predicate Compiled(values: seq<Option<Json>>) {
    forall i :: 0 <= i < |values| && values[i].Some? ==> !values[i].value.Null? && Normalise(values[i].value) == values[i].value
  }

  lemma {:induction false} PresentDict(names: seq<string>, values: seq<Option<Json>>)
    requires |names| == |values| && Compiled(values)
    ensures Present(Dict(names, values)) == Dict(names, values)
    decreases |names|
  {
    if names != [] {
      PresentDict(names[1..], values[1..]);
      var d, rest := Dict(names, values), Dict(names[1..], values[1..]);
      if values[0].Some? {
        assert d[1..] == rest && d[0] == Field(names[0], values[0].value);
        assert Present(d) == [d[0]] + Present(rest);
      } else {
        assert d == rest;
      }
    }
  }

  // ---------------------------------------------------------------------------
  // Dotted names
  // ---------------------------------------------------------------------------

  lemma {:induction false} SplitDotFree(name: string)
    requires '.' !in name
    ensures SplitDots(name) == [name]
  {
    if name != "" {
      var n := |name| - 1;
      SplitDotFree(name[..n]);
      assert name[n] in name;
      assert name == name[..n] + [name[n]];
    }
  }

  lemma {:induction false} SplitDotted(prefix: string, last: string)
    requires '.' !in prefix && '.' !in last
    ensures SplitDots(prefix + "." + last) == [prefix, last]
  {
    var name := prefix + "." + last;
    var n := |name| - 1;
    if last == "" {
      assert name[..n] == prefix;
      SplitDotFree(prefix);
    } else {
      var m := |last| - 1;
      assert last[m] in last && last == last[..m] + [last[m]];
      SplitDotted(prefix, last[..m]);
      assert name[..n] == prefix + "." + last[..m];
    }
  }

  lemma WalkOne(context: Json, name: string)
    requires context.Obj?
    ensures Walk(context, [name]) == FieldNamed(context.fields, name)
  {
    assert [name][1..] == [];
    assert forall v :: Walk(v, []) == Some(v);
  }

  lemma LookupPlain(context: Json, name: string)
    requires context.Obj? && '.' !in name
    ensures Lookup(context, name) == FieldNamed(context.fields, name)
  {
    SplitDotFree(name);
    WalkOne(context, name);
  }

  lemma LookupDotted(context: Json, group: string, name: string, dotted: string)
    requires context.Obj? && '.' !in group && '.' !in name && dotted == group + "." + name
    requires FieldNamed(context.fields, group).Some? && FieldNamed(context.fields, group).value.Obj?
    ensures Lookup(context, dotted) == FieldNamed(FieldNamed(context.fields, group).value.fields, name)
  {
    SplitDotted(group, name);
    assert [group, name][1..] == [name];
    WalkOne(FieldNamed(context.fields, group).value, name);
  }

  // ---------------------------------------------------------------------------
  // Every declared variable
  // ---------------------------------------------------------------------------

  lemma NamesAreDistinct()
    ensures Distinct(TOP) && Distinct(VELOCITY) && Distinct(FEATURES)
  {
    assert TOP[1][1] == 'u' && TOP[2][1] == 'a' && TOP[3][1] == 'e' && TOP[5][1] == 'h' && TOP[6][1] == 'o';
    assert TOP[0][1] == 'm' && TOP[4][1] == 'n';
    assert |VELOCITY[0]| == 11 && |VELOCITY[1]| == 12;
    assert |FEATURES[0]| == 24 && |FEATURES[1]| == 21 && |FEATURES[2]| == 25 && |FEATURES[3]| == 24 && |FEATURES[4]| == 26;
    assert FEATURES[0][0] == 'd' && FEATURES[3][0] == 'i';
  }

  lemma TopField(c: EvaluationContext, i: nat)
    requires i < 7
    ensures FieldNamed(AsVariables(c).fields, TOP[i]) == TopValues(c)[i]
  {
    NamesAreDistinct();
    DictHolds(TOP, TopValues(c), i);
  }

  function FeatureIndex(v: Variable): (i: nat)
    ensures i < 5
  {
    match v
    case Minutes => 1
    case Spend => 2
    case NewMerchant => 3
    case Travelling => 4
    case _ => 0
  }

  /** Where a variable's value is kept: a field of the dict itself, or of one of its two groups. */
  function Held(c: EvaluationContext, v: Variable): Option<Json> {
    match v
    case Amount => Some(Exactly(c.amount))
    case Currency => Some(Text(c.currency))
    case Category => Some(Text(c.category))
    case PriorCount => Some(Exactly(c.priorCount as real))
    case PriorAmount => Some(Exactly(c.priorAmount))
    case Channel => MaybeText(c.channel)
    case Country => MaybeText(c.country)
    case _ => FieldNamed(Present(c.enrichment), FEATURES[FeatureIndex(v)])
  }

  lemma LookupVelocity(c: EvaluationContext, i: nat, dotted: string)
    requires i < 2 && dotted == "velocity" + "." + VELOCITY[i] && '.' !in VELOCITY[i]
    ensures Lookup(AsVariables(c), dotted) == VelocityValues(c)[i]
  {
    NamesAreDistinct();
    TopField(c, 3);
    DictHolds(VELOCITY, VelocityValues(c), i);
    LookupDotted(AsVariables(c), "velocity", VELOCITY[i], dotted);
  }

  lemma LookupFeature(c: EvaluationContext, i: nat, dotted: string)
    requires i < 5 && dotted == "enrichment" + "." + FEATURES[i] && '.' !in FEATURES[i]
    ensures Lookup(AsVariables(c), dotted) == FieldNamed(Present(c.enrichment), FEATURES[i])
  {
    TopField(c, 4);
    LookupDotted(AsVariables(c), "enrichment", FEATURES[i], dotted);
  }

  lemma LookupTop(c: EvaluationContext, i: nat)
    requires i < 7 && '.' !in TOP[i]
    ensures Lookup(AsVariables(c), TOP[i]) == TopValues(c)[i]
  {
    TopField(c, i);
    LookupPlain(AsVariables(c), TOP[i]);
  }

  lemma TopResolves(c: EvaluationContext, v: Variable)
    requires v.Amount? || v.Currency? || v.Category? || v.Channel? || v.Country?
    ensures Lookup(AsVariables(c), v.Spelling()) == Held(c, v)
  {
    match v
    case Amount => LookupTop(c, 0);
    case Currency => LookupTop(c, 1);
    case Category => LookupTop(c, 2);
    case Channel => LookupTop(c, 5);
    case Country => LookupTop(c, 6);
  }

  lemma FeatureNamesAreDotFree()
    ensures forall i :: 0 <= i < 5 ==> '.' !in FEATURES[i]
  {
  }

  lemma FeatureResolves(c: EvaluationContext, v: Variable)
    requires v.Distance? || v.Minutes? || v.Spend? || v.NewMerchant? || v.Travelling?
    ensures Lookup(AsVariables(c), v.Spelling()) == Held(c, v)
  {
    FeatureNamesAreDotFree();
    LookupFeature(c, FeatureIndex(v), v.Spelling());
  }

  lemma VelocityResolves(c: EvaluationContext, v: Variable)
    requires v.PriorCount? || v.PriorAmount?
    ensures Lookup(AsVariables(c), v.Spelling()) == Held(c, v)
  {
    match v
    case PriorCount => LookupVelocity(c, 0, v.Spelling());
    case PriorAmount => LookupVelocity(c, 1, v.Spelling());
  }

  /** Every declared name resolves to the field of the event, or the velocity figure, it stands for. */
  lemma EveryVariableResolves(c: EvaluationContext, v: Variable)
    ensures Lookup(AsVariables(c), v.Spelling()) == Held(c, v)
  {
    match v
    case Amount | Currency | Category | Channel | Country => TopResolves(c, v);
    case PriorCount | PriorAmount => VelocityResolves(c, v);
    case _ => FeatureResolves(c, v);
  }

  /** A context whose enrichment holds the declared features with their types, where it holds them. */
  ghost predicate WellTyped(c: EvaluationContext) {
    forall v: Variable :: Held(c, v).Some? ==> HasType(Held(c, v).value, v.Ty())
  }

  /** Only optional variables can be missing, and whatever is present has its declared type. */
  lemma ContextSupplies(c: EvaluationContext)
    requires WellTyped(c)
    ensures Supplies(AsVariables(c))
  {
    forall v: Variable ensures SuppliesOne(AsVariables(c), v) {
      EveryVariableResolves(c, v);
    }
  }

  /** The scoring context of an event, as `score_transaction` builds it. */
  function ContextOf(e: Event, priorCount: nat, priorAmount: real): EvaluationContext {
    EvaluationContext(e.amount, e.currency, e.category, priorCount, priorAmount, e.channel, e.country,
                      if e.enrichment.Some? then Dump(e.enrichment.value) else [])
  }

  lemma {:induction false} FeatureOfEvent(e: Event, priorCount: nat, priorAmount: real, i: nat)
    requires i < 5
    ensures FieldNamed(Present(ContextOf(e, priorCount, priorAmount).enrichment), FEATURES[i]) ==
            if e.enrichment.Some? then FeatureValues(e.enrichment.value)[i] else None
  {
    if e.enrichment.Some? {
      var values := FeatureValues(e.enrichment.value);
      NamesAreDistinct();
      PresentDict(FEATURES, values);
      DictHolds(FEATURES, values, i);
    }
  }

  lemma HeldOfEventIsTyped(e: Event, priorCount: nat, priorAmount: real, v: Variable)
    ensures var held := Held(ContextOf(e, priorCount, priorAmount), v); held.Some? ==> HasType(held.value, v.Ty())
  {
    if v.Distance? || v.Minutes? || v.Spend? || v.NewMerchant? || v.Travelling? {
      FeatureOfEvent(e, priorCount, priorAmount, FeatureIndex(v));
    }
  }

  lemma EventContextIsWellTyped(e: Event, priorCount: nat, priorAmount: real)
    ensures WellTyped(ContextOf(e, priorCount, priorAmount))
  {
    forall v: Variable
      ensures var held := Held(ContextOf(e, priorCount, priorAmount), v); held.Some? ==> HasType(held.value, v.Ty())
    {
      HeldOfEventIsTyped(e, priorCount, priorAmount, v);
    }
  }

  /** Every context built from an event supplies every variable, whichever optional fields the event has. */
  lemma EventContextSupplies(e: Event, priorCount: nat, priorAmount: real)
    ensures Supplies(AsVariables(ContextOf(e, priorCount, priorAmount)))
  {
    EventContextIsWellTyped(e, priorCount, priorAmount);
    ContextSupplies(ContextOf(e, priorCount, priorAmount));
  }

  // ---------------------------------------------------------------------------
  // What a rule reads of an event, name by name
  // ---------------------------------------------------------------------------

  function Read(e: Event, priorCount: nat, priorAmount: real, name: string): Option<Json> {
    Lookup(AsVariables(ContextOf(e, priorCount, priorAmount)), name)
  }

  lemma ReadIsHeld(e: Event, priorCount: nat, priorAmount: real, v: Variable)
    ensures Read(e, priorCount, priorAmount, v.Spelling()) == Held(ContextOf(e, priorCount, priorAmount), v)
  {
    EveryVariableResolves(ContextOf(e, priorCount, priorAmount), v);
  }

  lemma PlainNames()
    ensures Amount.Spelling() == "amount" && Currency.Spelling() == "currency" && Category.Spelling() == "category"
    ensures Channel.Spelling() == "channel" && Country.Spelling() == "country"
  {
  }

  /** The fields every event has. */
  lemma ReadsEvent(e: Event, priorCount: nat, priorAmount: real)
    ensures Read(e, priorCount, priorAmount, "amount") == Some(Exactly(e.amount))
    ensures Read(e, priorCount, priorAmount, "currency") == Some(Text(e.currency))
    ensures Read(e, priorCount, priorAmount, "category") == Some(Text(e.category))
  {
    PlainNames();
    ReadIsHeld(e, priorCount, priorAmount, Amount);
    ReadIsHeld(e, priorCount, priorAmount, Currency);
    ReadIsHeld(e, priorCount, priorAmount, Category);
  }

  /** The optional fields of the event itself. */
  lemma ReadsOptional(e: Event, priorCount: nat, priorAmount: real)
    ensures Read(e, priorCount, priorAmount, "channel") == if e.channel.Some? then Some(Text(e.channel.value)) else None
    ensures Read(e, priorCount, priorAmount, "country") == if e.country.Some? then Some(Text(e.country.value)) else None
  {
    PlainNames();
    ReadIsHeld(e, priorCount, priorAmount, Channel);
    ReadIsHeld(e, priorCount, priorAmount, Country);
  }

  /** The two look-back figures. */
  lemma ReadsVelocity(e: Event, priorCount: nat, priorAmount: real)
    ensures Read(e, priorCount, priorAmount, "velocity.prior_count") == Some(Exactly(priorCount as real))
    ensures Read(e, priorCount, priorAmount, "velocity.prior_amount") == Some(Exactly(priorAmount))
  {
    assert "velocity" + "." + "prior_count" == "velocity.prior_count";
    assert "velocity" + "." + "prior_amount" == "velocity.prior_amount";
    ReadIsHeld(e, priorCount, priorAmount, PriorCount);
    ReadIsHeld(e, priorCount, priorAmount, PriorAmount);
  }

  lemma ReadIsFeature(e: Event, priorCount: nat, priorAmount: real, v: Variable)
    requires v.Distance? || v.Minutes? || v.Spend? || v.NewMerchant? || v.Travelling?
    ensures Read(e, priorCount, priorAmount, v.Spelling()) ==
            if e.enrichment.Some? then FeatureValues(e.enrichment.value)[FeatureIndex(v)] else None
  {
    ReadIsHeld(e, priorCount, priorAmount, v);
    FeatureOfEvent(e, priorCount, priorAmount, FeatureIndex(v));
  }

  lemma DistanceName()
    ensures Distance.Spelling() == "enrichment.distance_from_last_tx_km"
  {
  }

  lemma MinutesName()
    ensures Minutes.Spelling() == "enrichment.minutes_since_last_tx"
  {
  }

  lemma SpendName()
    ensures Spend.Spelling() == "enrichment.user_historical_avg_spend"
  {
  }

  lemma NewMerchantName()
    ensures NewMerchant.Spelling() == "enrichment.is_new_merchant_for_user"
  {
  }

  lemma TravellingName()
    ensures Travelling.Spelling() == "enrichment.is_travel_itinerary_active"
  {
  }

  /** The enrichment features, where the event carries them. */
  lemma ReadsEnrichment(e: Event, priorCount: nat, priorAmount: real)
    ensures Read(e, priorCount, priorAmount, "enrichment.distance_from_last_tx_km") ==
            if e.enrichment.Some? && e.enrichment.value.distanceKm.Some?
            then Some(Exactly(e.enrichment.value.distanceKm.value)) else None
    ensures Read(e, priorCount, priorAmount, "enrichment.minutes_since_last_tx") ==
            if e.enrichment.Some? && e.enrichment.value.minutesSinceLast.Some?
            then Some(Exactly(e.enrichment.value.minutesSinceLast.value as real)) else None
    ensures Read(e, priorCount, priorAmount, "enrichment.user_historical_avg_spend") ==
            if e.enrichment.Some? && e.enrichment.value.averageSpend.Some?
            then Some(Exactly(e.enrichment.value.averageSpend.value)) else None
  {
    DistanceName();
    MinutesName();
    SpendName();
    ReadIsFeature(e, priorCount, priorAmount, Distance);
    ReadIsFeature(e, priorCount, priorAmount, Minutes);
    ReadIsFeature(e, priorCount, priorAmount, Spend);
  }

  lemma ReadsFlags(e: Event, priorCount: nat, priorAmount: real)
    ensures Read(e, priorCount, priorAmount, "enrichment.is_new_merchant_for_user") ==
            if e.enrichment.Some? && e.enrichment.value.isNewMerchant.Some?
            then Some(Bool(e.enrichment.value.isNewMerchant.value)) else None
    ensures Read(e, priorCount, priorAmount, "enrichment.is_travel_itinerary_active") ==
            if e.enrichment.Some? && e.enrichment.value.isTravelling.Some?
            then Some(Bool(e.enrichment.value.isTravelling.value)) else None
  {
    NewMerchantName();
    TravellingName();
    ReadIsFeature(e, priorCount, priorAmount, NewMerchant);
    ReadIsFeature(e, priorCount, priorAmount, Travelling);
  }

  // ---------------------------------------------------------------------------
  // The declarations are exact
  // ---------------------------------------------------------------------------

  /** An event with every optional field, or with none. */
  function Sampled(full: bool): Event {
    if full then
      Event(0, 0, 0.0, "", "", 0, Some(""), Some(""),
            Some(Enrichment(Some(0.0), Some(0), Some(0.0), Some(false), Some(false))), None)
    else Event(0, 0, 0.0, "", "", 0, None, None, None, None)
  }

  lemma HeldOfSampled(v: Variable)
    ensures Read(Sampled(true), 0, 0.0, v.Spelling()).Some?
    ensures Read(Sampled(false), 0, 0.0, v.Spelling()).Some? <==> v.Required()
  {
    ReadIsHeld(Sampled(true), 0, 0.0, v);
    ReadIsHeld(Sampled(false), 0, 0.0, v);
    if v.Distance? || v.Minutes? || v.Spend? || v.NewMerchant? || v.Travelling? {
      ReadIsFeature(Sampled(true), 0, 0.0, v);
      ReadIsFeature(Sampled(false), 0, 0.0, v);
    }
  }

  /** A variable is declared required exactly when every event supplies it. */
  lemma RequiredIffAlwaysThere(v: Variable)
    ensures v.Required() <==>
            forall e, priorCount, priorAmount :: Read(e, priorCount, priorAmount, v.Spelling()).Some?
  {
    HeldOfSampled(v);
    if v.Required() {
      forall e, priorCount, priorAmount ensures Read(e, priorCount, priorAmount, v.Spelling()).Some? {
        ReadIsHeld(e, priorCount, priorAmount, v);
      }
    }
  }

  /** A variable is declared with the type that its values have. */
  lemma DeclaredTypeIsActual(v: Variable, t: Ty)
    ensures v.Ty() == t <==>
            exists e, priorCount, priorAmount ::
              Read(e, priorCount, priorAmount, v.Spelling()).Some?
              && HasType(Read(e, priorCount, priorAmount, v.Spelling()).value, t)
  {
    HeldOfSampled(v);
    ReadIsHeld(Sampled(true), 0, 0.0, v);
    HeldOfEventIsTyped(Sampled(true), 0, 0.0, v);
    if e, priorCount, priorAmount :|
       Read(e, priorCount, priorAmount, v.Spelling()).Some?
       && HasType(Read(e, priorCount, priorAmount, v.Spelling()).value, t) {
      ReadIsHeld(e, priorCount, priorAmount, v);
      HeldOfEventIsTyped(e, priorCount, priorAmount, v);
      ValueHasOneType(Read(e, priorCount, priorAmount, v.Spelling()).value, t, v.Ty());
    }
  }
}
