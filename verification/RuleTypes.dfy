/** Why the checker compares types as it does: what the values of two types can have in common. */
module RuleTypes {
  import opened Wrappers
  import opened RuleSyntax
  import opened RuleChecker
  import opened RuleEvaluator
  import opened RuleSoundness
  import opened RuleSemantics

  // ---------------------------------------------------------------------------
  // Every type has a value, and every value at most one type
  // ---------------------------------------------------------------------------

  function Sample(t: Ty): Json {
    match t
    case TNumber => Exactly(1.0)
    case TText => Text("a")
    case TBoolean => Bool(true)
    case TNull => Null
    case TList(None) => List([])
    case TList(Some(e)) => List([Sample(e)])
  }

  lemma {:induction false} SampleHasType(t: Ty)
    ensures HasType(Sample(t), t)
  {
    if t.TList? && t.element.Some? { SampleHasType(t.element.value); }
  }

  lemma {:induction false} ValueHasOneType(v: Json, t: Ty, u: Ty)
    requires HasType(v, t) && HasType(v, u)
    ensures t == u
    decreases t
  {
    if t.TList? && t.element.Some? { ValueHasOneType(v.items[0], t.element.value, u.element.value); }
  }

  // ---------------------------------------------------------------------------
  // What a comparison and a search are accepted for
  // ---------------------------------------------------------------------------

  /** `==` is accepted exactly for types that share a value, and for null. */
  lemma ComparableIffShared(t: Ty, u: Ty)
    ensures Comparable(t, u) <==> t == TNull || u == TNull || exists v :: HasType(v, t) && HasType(v, u)
  {
    SampleHasType(t);
    assert t == u ==> HasType(Sample(t), u);
    if v :| HasType(v, t) && HasType(v, u) { ValueHasOneType(v, t, u); }
  }

  /** The value is an item of the list, or the text is a stretch of the other. */
  ghost predicate IsWithin(needle: Json, haystack: Json) {
    || (haystack.List? && needle in haystack.items)
    || (haystack.Text? && needle.Text? && Stretch(needle.s, haystack.s))
  }

  ghost predicate Stretch(part: string, whole: string) {
    exists before: string, after: string :: whole == before + part + after
  }

  lemma StretchIsOccurrence(part: string, whole: string)
    ensures OccursIn(part, whole) <==> Stretch(part, whole)
  {
    if i :| 0 <= i <= |whole| && OccursAt(part, whole, i) {
      assert whole == whole[..i] + part + whole[i + |part|..];
    }
    if before, after :| whole == before + part + after {
      assert OccursAt(part, whole, |before|);
    }
  }

  /** `in` is accepted exactly where some search succeeds, and for the empty list. */
  lemma SearchableIffFindable(t: Ty, u: Ty)
    ensures Searchable(t, u) <==>
            u == TList(None) || exists v, w :: HasType(v, t) && HasType(w, u) && IsWithin(v, w)
  {
    var v := Sample(t);
    SampleHasType(t);
    if Searchable(t, u) && u != TList(None) {
      var w := if u.TText? then v else List([v]);
      assert HasType(w, u);
      if u.TText? { assert v.s == "" + v.s + ""; }
      assert IsWithin(v, w);
    }
    if v', w :| HasType(v', t) && HasType(w, u) && IsWithin(v', w) && u.TList? && u.element.Some? {
      ValueHasOneType(v', t, u.element.value);
    }
  }

  /** And then it answers whether the value is within the other. */
  lemma SearchFindsWhatIsThere(v: Json, w: Json, t: Ty, u: Ty)
    requires HasType(v, t) && HasType(w, u) && Searchable(t, u)
    ensures ApplyOperator(In, [v, w]) == Ok(Bool(IsWithin(v, w)))
  {
    if u.TText? {
      StretchIsOccurrence(v.s, w.s);
    } else if u.element.Some? {
      MembershipIsIdentity(v, w.items, t);
    }
  }

  // ---------------------------------------------------------------------------
  // Operands that are refused
  // ---------------------------------------------------------------------------

  /** Arithmetic and order comparisons are refused exactly for types whose values make them fail. */
  lemma RefusedNumbersFail(op: Operator, types: seq<Ty>, values: seq<Json>)
    requires (op.Arithmetic() || op.Comparison()) && |types| == |values| && ArityOk(op, |types|)
    requires forall i :: 0 <= i < |values| ==> HasType(values[i], types[i])
    ensures Conclude(op, types).Err? <==> ApplyOperator(op, values) == Err(NotNumbers)
  {
    forall i | 0 <= i < |values| ensures values[i].Num? <==> types[i] == TNumber {}
  }

  // ---------------------------------------------------------------------------
  // "Can never be equal"
  // ---------------------------------------------------------------------------

  /** A type with numbers in the places of its booleans: Python's true equals 1. */
  function Blur(t: Ty): Ty {
    match t
    case TBoolean => TNumber
    case TList(Some(e)) => TList(Some(Blur(e)))
    case _ => t
  }

  lemma {:induction false} EqualValuesBlur(v: Json, w: Json, t: Ty, u: Ty)
    requires HasType(v, t) && HasType(w, u) && PythonEquals(v, w)
    ensures Blur(t) == Blur(u)
    decreases t
  {
    if v.List? && w.List? && v.items != [] && w.items != [] {
      EqualValuesBlur(v.items[0], w.items[0], t.element.value, u.element.value);
    }
  }

  lemma {:induction false} SamplesEqual(t: Ty, u: Ty)
    requires Blur(t) == Blur(u)
    ensures PythonEquals(Sample(t), Sample(u))
    decreases t
  {
    if t.TList? && t.element.Some? {
      SamplesEqual(t.element.value, u.element.value);
      var xs, ys := Sample(t).items, Sample(u).items;
      assert PythonEqualsAll(xs[1..], ys[1..]);
    }
  }

  /**
   A refused comparison is said to be one that can never be equal. Evaluated, it could be exactly when the two
   types differ at most by booleans for numbers.
   */
  lemma EqualIffBlurred(t: Ty, u: Ty)
    ensures (exists v, w :: HasType(v, t) && HasType(w, u) && ApplyOperator(Eq, [v, w]) == Ok(Bool(true)))
            <==> Blur(t) == Blur(u)
  {
    if v, w :| HasType(v, t) && HasType(w, u) && ApplyOperator(Eq, [v, w]) == Ok(Bool(true)) {
      assert Equals(v, w);
      EqualValuesBlur(v, w, t, u);
    }
    if Blur(t) == Blur(u) {
      SampleHasType(t);
      SampleHasType(u);
      SamplesEqual(t, u);
      assert ApplyOperator(Eq, [Sample(t), Sample(u)]) == Ok(Bool(true));
    }
  }
}
