/**
 What the operators mean, said without their definitions, and why conditions are compiled before
 they are evaluated.
 */
module RuleSemantics {
  import opened Wrappers
  import opened RuleSyntax
  import opened RuleChecker
  import opened RuleEvaluator
  import opened RuleSoundness

  // ---------------------------------------------------------------------------
  // Arithmetic and comparisons
  // ---------------------------------------------------------------------------

  lemma {:induction false} SumAdds(xs: seq<real>, ys: seq<real>)
    ensures Sum(xs + ys) == Sum(xs) + Sum(ys)
  {
    if ys == [] {
      assert xs + ys == xs;
    } else {
      SumAdds(xs, ys[..|ys| - 1]);
      assert (xs + ys)[..|xs| + |ys| - 1] == xs + ys[..|ys| - 1];
    }
  }

  lemma TimesAssociates(x: real, y: real, z: real)
    ensures (x * y) * z == x * (y * z)
  {
  }

  lemma ProductSnoc(xs: seq<real>, y: real)
    ensures Product(xs + [y]) == Product(xs) * y
  {
    assert (xs + [y])[..|xs|] == xs;
  }

  lemma {:induction false} ProductMultiplies(xs: seq<real>, ys: seq<real>)
    ensures Product(xs + ys) == Product(xs) * Product(ys)
    decreases |ys|
  {
    if ys == [] {
      assert xs + ys == xs;
    } else {
      var rest, y := ys[..|ys| - 1], ys[|ys| - 1];
      assert ys == rest + [y] && xs + ys == (xs + rest) + [y];
      calc {
        Product(xs + ys);
        { ProductSnoc(xs + rest, y); }
        Product(xs + rest) * y;
        { ProductMultiplies(xs, rest); }
        (Product(xs) * Product(rest)) * y;
        { TimesAssociates(Product(xs), Product(rest), y); }
        Product(xs) * (Product(rest) * y);
        { ProductSnoc(rest, y); }
        Product(xs) * Product(ys);
      }
    }
  }

  /** Comparing neighbours orders the whole list, so three arguments of `<` really say "between". */
  lemma {:induction false} PairwiseOrders(op: Operator, xs: seq<real>, i: nat, j: nat)
    requires op.Comparison() && Pairwise(op, xs) && i < j < |xs|
    ensures Ordered(op, xs[i], xs[j])
    decreases j - i
  {
    assert Ordered(op, xs[j - 1], xs[j]);
    if i < j - 1 { PairwiseOrders(op, xs, i, j - 1); }
  }

  lemma Comparisons(op: Operator, xs: seq<real>)
    requires op.Comparison() && ArityOk(op, |xs|)
    ensures ApplyOperator(op, Numbers(xs)) == Ok(Bool(Pairwise(op, xs)))
  {
    assert Decimals(Numbers(xs)) == xs;
  }

  function Numbers(xs: seq<real>): (values: seq<Json>)
    ensures |values| == |xs| && AllNumbers(values)
  {
    seq(|xs|, i requires 0 <= i < |xs| => Exactly(xs[i]))
  }

  lemma Subtractions(x: real, y: real)
    ensures ApplyOperator(Minus, [Exactly(x)]) == Ok(Exactly(-x)) && ApplyOperator(Minus, [Exactly(x), Exactly(y)]) == Ok(Exactly(x - y))
  {
    assert Decimals([Exactly(x)]) == [x] && Decimals([Exactly(x), Exactly(y)]) == [x, y];
  }

  /** The numeric operators on one, two and three numbers. */
  lemma NumericOperators(x: real, y: real, z: real)
    ensures var a, b, c := Exactly(x), Exactly(y), Exactly(z);
            && ApplyOperator(Gt, [a, b]) == Ok(Bool(x > y)) && ApplyOperator(Ge, [a, b]) == Ok(Bool(x >= y))
            && ApplyOperator(Lt, [a, b]) == Ok(Bool(x < y)) && ApplyOperator(Le, [a, b]) == Ok(Bool(x <= y))
            && ApplyOperator(Lt, [a, b, c]) == Ok(Bool(x < y < z)) && ApplyOperator(Le, [a, b, c]) == Ok(Bool(x <= y <= z))
            && ApplyOperator(Minus, [a]) == Ok(Exactly(-x)) && ApplyOperator(Minus, [a, b]) == Ok(Exactly(x - y))
  {
    var a, b, c := Exactly(x), Exactly(y), Exactly(z);
    assert Numbers([x, y]) == [a, b] && Numbers([x, y, z]) == [a, b, c];
    Comparisons(Gt, [x, y]);
    Comparisons(Ge, [x, y]);
    Comparisons(Lt, [x, y]);
    Comparisons(Le, [x, y]);
    Comparisons(Lt, [x, y, z]);
    Comparisons(Le, [x, y, z]);
    Subtractions(x, y);
    PairReads(x, y);
    TripleReads(x, y, z);
  }

  lemma PairReads(x: real, y: real)
    ensures forall op: Operator :: op.Comparison() ==> (Pairwise(op, [x, y]) <==> Ordered(op, x, y))
  {
    forall op: Operator | op.Comparison() ensures Pairwise(op, [x, y]) <==> Ordered(op, x, y) {
      assert [x, y][1 - 1] == x && [x, y][1] == y;
    }
  }

  lemma TripleReads(x: real, y: real, z: real)
    ensures forall op: Operator :: op.Comparison() ==> (Pairwise(op, [x, y, z]) <==> Ordered(op, x, y) && Ordered(op, y, z))
  {
    forall op: Operator | op.Comparison() ensures Pairwise(op, [x, y, z]) <==> Ordered(op, x, y) && Ordered(op, y, z) {
      var s := [x, y, z];
      assert s[1 - 1] == x && s[1] == y && s[2 - 1] == y && s[2] == z;
    }
  }

  // ---------------------------------------------------------------------------
  // Equality
  // ---------------------------------------------------------------------------

  /** On compiled values of one type, Python's equality is identity: no float, and no true that equals 1. */
  lemma {:induction false} PythonEqualityIsIdentity(v: Json, w: Json, t: Ty)
    requires HasType(v, t) && HasType(w, t)
    ensures PythonEquals(v, w) <==> v == w
    decreases t, 0
  {
    if t.TList? && t.element.Some? {
      ListEqualityIsIdentity(v.items, w.items, t.element.value);
    }
  }

  lemma {:induction false} ListEqualityIsIdentity(vs: seq<Json>, ws: seq<Json>, t: Ty)
    requires (forall i :: 0 <= i < |vs| ==> HasType(vs[i], t)) && (forall i :: 0 <= i < |ws| ==> HasType(ws[i], t))
    ensures PythonEqualsAll(vs, ws) <==> vs == ws
    decreases t, 1, |vs|
  {
    if vs != [] && ws != [] {
      PythonEqualityIsIdentity(vs[0], ws[0], t);
      ListEqualityIsIdentity(vs[1..], ws[1..], t);
      assert vs == [vs[0]] + vs[1..] && ws == [ws[0]] + ws[1..];
    }
  }

  /** `==` between the values of any comparison the checker accepts is identity; null equals only null. */
  lemma EqualityIsIdentity(v: Json, w: Json, t: Ty, u: Ty)
    requires HasType(v, t) && HasType(w, u) && Comparable(t, u)
    ensures ApplyOperator(Eq, [v, w]) == Ok(Bool(v == w)) && ApplyOperator(Ne, [v, w]) == Ok(Bool(v != w))
  {
    if t == u { PythonEqualityIsIdentity(v, w, t); }
  }

  /** `in` on a list the checker accepts is membership of the value itself. */
  lemma MembershipIsIdentity(v: Json, items: seq<Json>, t: Ty)
    requires HasType(v, t) && forall i :: 0 <= i < |items| ==> HasType(items[i], t)
    ensures ApplyOperator(In, [v, List(items)]) == Ok(Bool(v in items))
  {
    forall i | 0 <= i < |items| ensures Equals(v, items[i]) <==> v == items[i] {
      PythonEqualityIsIdentity(v, items[i], t);
    }
  }

  // ---------------------------------------------------------------------------
  // Why conditions are compiled
  // ---------------------------------------------------------------------------

  /** A list holding the amount, looked for in a list of lists: inside lists Python compares numbers itself. */
  function AmountIn(literal: Json): Json {
    Obj([Field("in", List([List([Obj([Field("var", Text("amount"))])]), List([List([literal])])]))])
  }

  lemma UncompiledMisses(binary: real)
    requires binary != 0.1
    ensures !Equals(List([Exactly(0.1)]), List([Num(0.1, binary)]))
    ensures Equals(List([Exactly(0.1)]), List([Exactly(0.1)]))
  {
    var xs, ys := [Exactly(0.1)], [Num(0.1, binary)];
    assert PythonEqualsAll(xs, ys) ==> PythonEquals(xs[0], ys[0]);
    assert PythonEqualsAll(xs[1..], xs[1..]);
  }

  /**
   An accepted condition evaluated without compiling it can be wrong: the amount 0.1 is not found where it is
   written, because the literal is a binary float whose value is not 0.1. Compiled, it is found.
   */
  lemma CompilingMatters(context: Json, binary: real)
    requires Lookup(context, "amount") == Some(Exactly(0.1)) && binary != 0.1
    ensures var condition := AmountIn(Num(0.1, binary));
            && Validate(condition).Ok?
            && Evaluate(condition, context).value == Ok(Bool(false))
            && Evaluate(Normalise(condition), context).value == Ok(Bool(true))
  {
    var literal := Num(0.1, binary);
    AmountInIsPublishable(literal);
    CheckerDecidesPublishable(AmountIn(literal));
    AmountInEvaluates(context, literal);
    AmountInEvaluates(context, Exactly(0.1));
    AmountInNormalised(literal);
    UncompiledMisses(binary);
  }

  lemma AmountInNormalised(literal: Json)
    requires literal.Num?
    ensures Normalise(AmountIn(literal)) == AmountIn(Exactly(literal.written))
  {
    var v := Obj([Field("var", Text("amount"))]);
    assert Normalise(v) == v;
    assert NormaliseAll([v]) == [v] && NormaliseAll([literal]) == [Exactly(literal.written)];
    assert NormaliseAll([List([literal])]) == [List([Exactly(literal.written)])];
    var args := [List([v]), List([List([literal])])];
    assert NormaliseAll(args) == [Normalise(args[0]), Normalise(args[1])];
  }

  lemma AmountInOperators(literal: Json)
    ensures var v := Obj([Field("var", Text("amount"))]);
            OperatorOf(v) == Some(Var) && OperatorOf(AmountIn(literal)) == Some(In)
  {
  }

  lemma VariableEvaluates(node: Json, name: string, value: Json, context: Json)
    requires IsOperation(node) && OperatorOf(node) == Some(Var) && Args(node) == [Text(name)]
    requires Lookup(context, name) == Some(value)
    ensures Evaluate(node, context).value == Ok(value)
  {
    OperationRuns(node, context);
  }

  lemma InEvaluates(node: Json, needle: Json, haystack: Json, x: Json, y: Json, context: Json)
    requires IsOperation(node) && OperatorOf(node) == Some(In) && Args(node) == [needle, haystack]
    requires Evaluate(needle, context).value == Ok(x) && Evaluate(haystack, context).value == Ok(List([y]))
    ensures Evaluate(node, context).value == Ok(Bool(Equals(x, y)))
  {
    OneValue(haystack, List([y]), context);
    assert [needle, haystack][1..] == [haystack];
    assert EvaluateEach([needle, haystack], context).value == Ok([x] + [List([y])]);
    assert [x] + [List([y])] == [x, List([y])];
    assert Equals(x, [y][0]) == Equals(x, y);
  }

  lemma ListEvaluates(item: Json, value: Json, context: Json)
    requires Evaluate(item, context).value == Ok(value)
    ensures Evaluate(List([item]), context).value == Ok(List([value]))
  {
    OneValue(item, value, context);
  }

  lemma AmountInEvaluates(context: Json, literal: Json)
    requires Lookup(context, "amount") == Some(Exactly(0.1)) && literal.Num?
    ensures Evaluate(AmountIn(literal), context).value ==
            Ok(Bool(Equals(List([Exactly(0.1)]), List([literal]))))
  {
    var v := Obj([Field("var", Text("amount"))]);
    AmountInOperators(literal);
    VariableEvaluates(v, "amount", Exactly(0.1), context);
    ListEvaluates(v, Exactly(0.1), context);
    ListEvaluates(literal, literal, context);
    ListEvaluates(List([literal]), List([literal]), context);
    InEvaluates(AmountIn(literal), List([v]), List([List([literal])]), List([Exactly(0.1)]), List([literal]), context);
  }

  lemma AmountIsDeclared()
    ensures VariableNamed("amount") == Some(Variable.Amount)
  {
    assert VARIABLES[0].Spelling() == "amount";
  }

  lemma ListOfOne(item: Json, t: Ty)
    requires Types(item, t)
    ensures Types(List([item]), TList(Some(t)))
    ensures Size(List([item])) == 1 + Size(item) && Depth(List([item])) == 1 + Depth(item)
  {
    assert [item][1..] == [];
    assert AllTyped([item], t);
    SizeOfOne(item);
  }

  lemma SizeOfTwo(a: Json, b: Json)
    ensures SizeAll([a, b]) == Size(a) + Size(b)
    ensures DepthAll([a, b]) == Deeper(Depth(a), Depth(b))
  {
    SizeOfOne(b);
    assert [a, b][1..] == [b];
  }

  lemma AmountVariable()
    ensures var v := Obj([Field("var", Text("amount"))]); Types(v, TNumber) && Size(v) == 1 && Depth(v) == 1
  {
    var v := Obj([Field("var", Text("amount"))]);
    AmountIsDeclared();
    AmountInOperators(Null);
    assert Children(v) == [];
  }

  lemma InIsTyped(node: Json, needle: Json, haystack: Json, t: Ty)
    requires IsOperation(node) && OperatorOf(node) == Some(In) && Args(node) == [needle, haystack]
    requires Types(needle, t) && Types(haystack, TList(Some(t)))
    ensures Types(node, TBoolean)
    ensures Size(node) == 1 + Size(needle) + Size(haystack) && Depth(node) == 1 + Deeper(Depth(needle), Depth(haystack))
  {
    SizeOfTwo(needle, haystack);
    assert Searchable(t, TList(Some(t)));
  }

  lemma AmountInIsPublishable(literal: Json)
    requires literal.Num?
    ensures Publishable(AmountIn(literal))
  {
    var v := Obj([Field("var", Text("amount"))]);
    AmountVariable();
    AmountInOperators(literal);
    ListOfOne(v, TNumber);
    ListOfOne(literal, TNumber);
    ListOfOne(List([literal]), TList(Some(TNumber)));
    InIsTyped(AmountIn(literal), List([v]), List([List([literal])]), TList(Some(TNumber)));
  }

  lemma OneValue(node: Json, value: Json, context: Json)
    requires Evaluate(node, context).value == Ok(value)
    ensures EvaluateEach([node], context).value == Ok([value])
  {
    assert [node][1..] == [] && [value] + [] == [value];
  }
}
