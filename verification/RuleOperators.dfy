/** What a condition answers for each operator key as it is written, said without the operator table. */
module RuleOperators {
  import opened Wrappers
  import opened RuleSyntax
  import opened RuleChecker
  import opened RuleEvaluator
  import opened RuleSoundness
  import opened RuleSemantics
  import opened RuleTypes

  /** One operator key with a list of arguments. */
  function Operation(key: string, args: seq<Json>): Json { Obj([Field(key, List(args))]) }

  function Answer(key: string, args: seq<Json>, context: Json): Result<Json, EvalError> {
    Evaluate(Operation(key, args), context).value
  }

  /** The arguments evaluate to these values. */
  predicate Have(args: seq<Json>, values: seq<Json>, context: Json) {
    EvaluateEach(args, context).value == Ok(values)
  }

  predicate Names(key: string, op: Operator) {
    key in OPERATORS && OPERATORS[key] == op
  }

  lemma OrderKeys()
    ensures Names(">", Gt) && Names(">=", Ge) && Names("<", Lt) && Names("<=", Le)
  {
  }

  lemma ArithmeticKeys()
    ensures Names("+", Plus) && Names("-", Minus) && Names("*", Times) && Names("min", Min) && Names("max", Max)
  {
  }

  lemma OtherKeys()
    ensures Names("==", Eq) && Names("!=", Ne) && Names("!", Not) && Names("in", In)
  {
  }

  lemma LazyKeys()
    ensures Names("and", And) && Names("or", Or) && Names("if", If) && Names("var", Var)
  {
  }

  lemma Reads(key: string, op: Operator, args: seq<Json>)
    requires Names(key, op)
    ensures var node := Operation(key, args); IsOperation(node) && OperatorOf(node) == Some(op) && Args(node) == args
  {
  }

  /** An operator that takes evaluated arguments is applied to them. */
  lemma Applies(key: string, op: Operator, args: seq<Json>, values: seq<Json>, context: Json)
    requires Names(key, op) && !op.Var? && !op.If? && !op.And? && !op.Or?
    requires Have(args, values, context)
    ensures Answer(key, args, context) == ApplyOperator(op, values)
  {
    Reads(key, op, args);
    OperationRuns(Operation(key, args), context);
  }

  // ---------------------------------------------------------------------------
  // Numbers
  // ---------------------------------------------------------------------------

  /** Two numbers compared. */
  lemma OrderOfTwo(args: seq<Json>, x: real, y: real, context: Json)
    requires Have(args, [Exactly(x), Exactly(y)], context)
    ensures Answer(">", args, context) == Ok(Bool(x > y)) && Answer(">=", args, context) == Ok(Bool(x >= y))
    ensures Answer("<", args, context) == Ok(Bool(x < y)) && Answer("<=", args, context) == Ok(Bool(x <= y))
    ensures Answer("==", args, context) == Ok(Bool(x == y)) && Answer("!=", args, context) == Ok(Bool(x != y))
  {
    var values := [Exactly(x), Exactly(y)];
    OrderKeys();
    OtherKeys();
    Applies(">", Gt, args, values, context);
    Applies(">=", Ge, args, values, context);
    Applies("<", Lt, args, values, context);
    Applies("<=", Le, args, values, context);
    Applies("==", Eq, args, values, context);
    Applies("!=", Ne, args, values, context);
    NumericOperators(x, y, y);
  }

  /** Three numbers compared: "between". */
  lemma OrderOfThree(args: seq<Json>, x: real, y: real, z: real, context: Json)
    requires Have(args, [Exactly(x), Exactly(y), Exactly(z)], context)
    ensures Answer("<", args, context) == Ok(Bool(x < y < z)) && Answer("<=", args, context) == Ok(Bool(x <= y <= z))
  {
    var values := [Exactly(x), Exactly(y), Exactly(z)];
    OrderKeys();
    Applies("<", Lt, args, values, context);
    Applies("<=", Le, args, values, context);
    NumericOperators(x, y, z);
  }

  lemma ComputeOfOne(x: real)
    ensures Compute(Plus, [x]) == x && Compute(Times, [x]) == x && Compute(Minus, [x]) == -x
    ensures Compute(Min, [x]) == x && Compute(Max, [x]) == x
  {
    assert [x][..0] == [];
    assert Sum([x]) == Sum([]) + x;
    assert Product([x]) == Product([]) * x;
    assert Least([x]) == x && Greatest([x]) == x;
  }

  lemma ComputeOfTwo(x: real, y: real)
    ensures Compute(Plus, [x, y]) == x + y && Compute(Times, [x, y]) == x * y && Compute(Minus, [x, y]) == x - y
  {
    assert [x, y][..1] == [x] && [x, y][0] == x && [x, y][1] == y;
    ComputeOfOne(x);
    assert Sum([x, y]) == Sum([x]) + y;
    assert Product([x, y]) == Product([x]) * y;
  }

  lemma Computes(key: string, op: Operator, args: seq<Json>, xs: seq<real>, context: Json)
    requires Names(key, op) && op.Arithmetic() && ArityOk(op, |xs|)
    requires Have(args, Numbers(xs), context)
    ensures Answer(key, args, context) == Ok(Exactly(Compute(op, xs)))
  {
    Applies(key, op, args, Numbers(xs), context);
    assert Decimals(Numbers(xs)) == xs;
  }

  /** Every arithmetic key on the same numbers; `-` takes one or two. */
  lemma ArithmeticAnswers(args: seq<Json>, xs: seq<real>, context: Json)
    requires xs != [] && Have(args, Numbers(xs), context)
    ensures Answer("+", args, context) == Ok(Exactly(Compute(Plus, xs)))
    ensures Answer("*", args, context) == Ok(Exactly(Compute(Times, xs)))
    ensures Answer("min", args, context) == Ok(Exactly(Compute(Min, xs)))
    ensures Answer("max", args, context) == Ok(Exactly(Compute(Max, xs)))
    ensures |xs| <= 2 ==> Answer("-", args, context) == Ok(Exactly(Compute(Minus, xs)))
  {
    ArithmeticKeys();
    Computes("+", Plus, args, xs, context);
    Computes("*", Times, args, xs, context);
    Computes("min", Min, args, xs, context);
    Computes("max", Max, args, xs, context);
    if |xs| <= 2 { Computes("-", Minus, args, xs, context); }
  }

  /** Arithmetic on one number. */
  lemma ArithmeticOfOne(args: seq<Json>, x: real, context: Json)
    requires Have(args, [Exactly(x)], context)
    ensures Answer("-", args, context) == Ok(Exactly(-x))
    ensures Answer("+", args, context) == Answer("*", args, context) == Ok(Exactly(x))
    ensures Answer("min", args, context) == Answer("max", args, context) == Ok(Exactly(x))
  {
    assert Numbers([x]) == [Exactly(x)];
    ArithmeticAnswers(args, [x], context);
    ComputeOfOne(x);
  }

  lemma NumbersOfTwo(x: real, y: real)
    ensures Numbers([x, y]) == [Exactly(x), Exactly(y)]
  {
  }

  /** Arithmetic on two numbers. */
  lemma ArithmeticOfTwo(args: seq<Json>, x: real, y: real, context: Json)
    requires Have(args, [Exactly(x), Exactly(y)], context)
    ensures Answer("+", args, context) == Ok(Exactly(x + y))
    ensures Answer("-", args, context) == Ok(Exactly(x - y))
    ensures Answer("*", args, context) == Ok(Exactly(x * y))
  {
    NumbersOfTwo(x, y);
    ArithmeticAnswers(args, [x, y], context);
    ComputeOfTwo(x, y);
  }

  /** Arguments evaluated in two goes have the values of both. */
  lemma {:induction false} HaveBoth(args: seq<Json>, more: seq<Json>, values: seq<Json>, others: seq<Json>, context: Json)
    requires Have(args, values, context) && Have(more, others, context)
    ensures Have(args + more, values + others, context)
    decreases |args|
  {
    if args == [] {
      assert args + more == more && values + others == others;
    } else {
      HaveBoth(args[1..], more, values[1..], others, context);
      assert (args + more)[1..] == args[1..] + more;
      assert values + others == [values[0]] + (values[1..] + others);
    }
  }

  lemma HaveNumbers(args: seq<Json>, more: seq<Json>, xs: seq<real>, ys: seq<real>, context: Json)
    requires Have(args, Numbers(xs), context) && Have(more, Numbers(ys), context)
    ensures Have(args + more, Numbers(xs + ys), context)
  {
    HaveBoth(args, more, Numbers(xs), Numbers(ys), context);
    assert Numbers(xs) + Numbers(ys) == Numbers(xs + ys);
  }

  lemma SumAnswers(args: seq<Json>, xs: seq<real>, context: Json)
    requires xs != [] && Have(args, Numbers(xs), context)
    ensures Answer("+", args, context) == Ok(Exactly(Sum(xs)))
  {
    ArithmeticAnswers(args, xs, context);
  }

  lemma ProductAnswers(args: seq<Json>, xs: seq<real>, context: Json)
    requires xs != [] && Have(args, Numbers(xs), context)
    ensures Answer("*", args, context) == Ok(Exactly(Product(xs)))
  {
    ArithmeticAnswers(args, xs, context);
  }

  /**
   However many arguments: more of them add to the sum. With the answer for one argument this fixes `+` on any
   number of arguments.
   */
  lemma SumOfMore(args: seq<Json>, more: seq<Json>, xs: seq<real>, ys: seq<real>, context: Json) returns (x: real, y: real)
    requires xs != [] && ys != []
    requires Have(args, Numbers(xs), context) && Have(more, Numbers(ys), context)
    ensures Answer("+", args, context) == Ok(Exactly(x)) && Answer("+", more, context) == Ok(Exactly(y))
    ensures Answer("+", args + more, context) == Ok(Exactly(x + y))
  {
    x, y := Sum(xs), Sum(ys);
    SumAnswers(args, xs, context);
    SumAnswers(more, ys, context);
    HaveNumbers(args, more, xs, ys, context);
    SumAnswers(args + more, xs + ys, context);
    SumAdds(xs, ys);
  }

  /** And multiply the product. */
  lemma ProductOfMore(args: seq<Json>, more: seq<Json>, xs: seq<real>, ys: seq<real>, context: Json) returns (x: real, y: real)
    requires xs != [] && ys != []
    requires Have(args, Numbers(xs), context) && Have(more, Numbers(ys), context)
    ensures Answer("*", args, context) == Ok(Exactly(x)) && Answer("*", more, context) == Ok(Exactly(y))
    ensures Answer("*", args + more, context) == Ok(Exactly(x * y))
  {
    x, y := Product(xs), Product(ys);
    ProductAnswers(args, xs, context);
    ProductAnswers(more, ys, context);
    HaveNumbers(args, more, xs, ys, context);
    ProductAnswers(args + more, xs + ys, context);
    ProductMultiplies(xs, ys);
    assert Exactly(Product(xs + ys)) == Exactly(x * y);
  }

  /** However many arguments: `min` answers one no greater than any, and `max` one no less than any. */
  lemma Extremes(args: seq<Json>, xs: seq<real>, context: Json) returns (least: real, greatest: real)
    requires xs != [] && Have(args, Numbers(xs), context)
    ensures Answer("min", args, context) == Ok(Exactly(least)) && least in xs
    ensures Answer("max", args, context) == Ok(Exactly(greatest)) && greatest in xs
    ensures forall i :: 0 <= i < |xs| ==> least <= xs[i] <= greatest
  {
    ArithmeticAnswers(args, xs, context);
    least, greatest := Least(xs), Greatest(xs);
  }

  // ---------------------------------------------------------------------------
  // Equality and searching
  // ---------------------------------------------------------------------------

  /** `==` and `!=` between values of any types the checker accepts there. */
  lemma EqualityOfTwo(args: seq<Json>, v: Json, w: Json, t: Ty, u: Ty, context: Json)
    requires HasType(v, t) && HasType(w, u) && Comparable(t, u) && Have(args, [v, w], context)
    ensures Answer("==", args, context) == Ok(Bool(v == w)) && Answer("!=", args, context) == Ok(Bool(v != w))
  {
    OtherKeys();
    Applies("==", Eq, args, [v, w], context);
    Applies("!=", Ne, args, [v, w], context);
    EqualityIsIdentity(v, w, t, u);
  }

  /** `in` between values of any types the checker accepts there. */
  lemma SearchOfTwo(args: seq<Json>, v: Json, w: Json, t: Ty, u: Ty, context: Json)
    requires HasType(v, t) && HasType(w, u) && Searchable(t, u) && Have(args, [v, w], context)
    ensures Answer("in", args, context) == Ok(Bool(IsWithin(v, w)))
  {
    OtherKeys();
    Applies("in", In, args, [v, w], context);
    SearchFindsWhatIsThere(v, w, t, u);
  }

  // ---------------------------------------------------------------------------
  // Truth
  // ---------------------------------------------------------------------------

  /** What Python counts as false. */
  predicate Falsy(v: Json) {
    v == Null || v == Bool(false) || (v.Num? && v.exact == 0.0) || v == Text("") || v == List([]) || v == Obj([])
  }

  /** `!` answers true exactly of null, false, zero and the empty text, list and dict. */
  lemma NotOfOne(args: seq<Json>, v: Json, context: Json)
    requires Have(args, [v], context)
    ensures Answer("!", args, context) == Ok(Bool(Falsy(v)))
  {
    OtherKeys();
    Applies("!", Not, args, [v], context);
  }

  /** Stopping at the first value of one truth finds whether there is one. */
  lemma {:induction false} UntilLooks(nodes: seq<Json>, values: seq<Json>, context: Json, stop: bool)
    requires Have(nodes, values, context)
    ensures EvaluateUntil(nodes, context, stop).value ==
            Ok(if exists i :: 0 <= i < |values| && Truthy(values[i]) == stop then stop else !stop)
    decreases |nodes|
  {
    if nodes != [] {
      var rest := values[1..];
      assert values == [values[0]] + rest;
      UntilLooks(nodes[1..], rest, context, stop);
      if i :| 0 <= i < |values| && Truthy(values[i]) == stop {
        assert i > 0 ==> rest[i - 1] == values[i];
      }
      if i :| 0 <= i < |rest| && Truthy(rest[i]) == stop {
        assert values[i + 1] == rest[i];
      }
    }
  }

  /** How the lazy keys run. */
  lemma LazyRuns(args: seq<Json>, context: Json)
    ensures Evaluate(Operation("and", args), context) == EvaluateOperator(And, args, context)
    ensures Evaluate(Operation("or", args), context) == EvaluateOperator(Or, args, context)
    ensures Evaluate(Operation("if", args), context) == EvaluateIf(args, context)
    ensures Evaluate(Operation("var", args), context) == EvaluateVariable(args, context)
  {
    LazyKeys();
    OperationRuns(Operation("and", args), context);
    OperationRuns(Operation("or", args), context);
    OperationRuns(Operation("if", args), context);
    OperationRuns(Operation("var", args), context);
  }

  /** `and` and `or` of any number of truth values. */
  lemma AndOr(args: seq<Json>, values: seq<Json>, context: Json)
    requires Have(args, values, context) && forall i :: 0 <= i < |values| ==> values[i].Bool?
    ensures Answer("and", args, context) == Ok(Bool(Bool(false) !in values))
    ensures Answer("or", args, context) == Ok(Bool(Bool(true) in values))
  {
    LazyRuns(args, context);
    UntilLooks(args, values, context, false);
    UntilLooks(args, values, context, true);
  }

  /** `if` answers what the chosen branch does, and the other is not looked at. */
  lemma IfOfThree(args: seq<Json>, chosen: bool, context: Json)
    requires |args| == 3 && Evaluate(args[0], context).value == Ok(Bool(chosen))
    ensures Answer("if", args, context) == Evaluate(if chosen then args[1] else args[2], context).value
  {
    LazyRuns(args, context);
  }

  /** `var` answers what the name stands for, else the default, which is not looked at before. */
  lemma VarOfOneOrTwo(name: string, default: Json, context: Json)
    ensures var found := Lookup(context, name);
            && Answer("var", [Text(name)], context) == (if found.Some? then Ok(found.value) else Err(Unavailable))
            && Answer("var", [Text(name), default], context) ==
               (if found.Some? then Ok(found.value) else Evaluate(default, context).value)
  {
    LazyRuns([Text(name)], context);
    LazyRuns([Text(name), default], context);
  }

  // ---------------------------------------------------------------------------
  // What the checker says of the keys
  // ---------------------------------------------------------------------------

  lemma {:induction false} NumbersVisited(nodes: seq<Json>, depth: nat, count: nat)
    requires forall i :: 0 <= i < |nodes| ==> nodes[i].Num?
    ensures VisitAll(nodes, depth, count).0 != Err(WrongArity)
    decreases |nodes|
  {
    if nodes != [] { NumbersVisited(nodes[1..], depth, count + 1); }
  }

  lemma ArityOf(key: string, op: Operator, args: seq<Json>)
    requires Names(key, op) && forall i :: 0 <= i < |args| ==> args[i].Num?
    ensures Takes(key, args) <==> ArityOk(op, |args|)
  {
    NumbersVisited(args, 2, 1);
    Reads(key, op, args);
  }

  ghost predicate Takes(key: string, args: seq<Json>) {
    Validate(Operation(key, args)) != Err(WrongArity)
  }

  /** How many arguments each key takes; these are numbers, so only the key can be given the wrong number of them. */
  lemma ArityOfComparisons(args: seq<Json>)
    requires forall i :: 0 <= i < |args| ==> args[i].Num?
    ensures Takes("==", args) <==> |args| == 2
    ensures Takes("!=", args) <==> |args| == 2
    ensures Takes(">", args) <==> |args| == 2
    ensures Takes(">=", args) <==> |args| == 2
    ensures Takes("<", args) <==> 2 <= |args| <= 3
    ensures Takes("<=", args) <==> 2 <= |args| <= 3
  {
    OrderKeys();
    OtherKeys();
    ArityOf("==", Eq, args);
    ArityOf("!=", Ne, args);
    ArityOf(">", Gt, args);
    ArityOf(">=", Ge, args);
    ArityOf("<", Lt, args);
    ArityOf("<=", Le, args);
  }

  lemma ArityOfArithmetic(args: seq<Json>)
    requires forall i :: 0 <= i < |args| ==> args[i].Num?
    ensures Takes("+", args) <==> |args| >= 1
    ensures Takes("-", args) <==> 1 <= |args| <= 2
    ensures Takes("*", args) <==> |args| >= 1
    ensures Takes("min", args) <==> |args| >= 1
    ensures Takes("max", args) <==> |args| >= 1
  {
    ArithmeticKeys();
    ArityOf("+", Plus, args);
    ArityOf("-", Minus, args);
    ArityOf("*", Times, args);
    ArityOf("min", Min, args);
    ArityOf("max", Max, args);
  }

  lemma ArityOfOthers(args: seq<Json>)
    requires forall i :: 0 <= i < |args| ==> args[i].Num?
    ensures Takes("!", args) <==> |args| == 1
    ensures Takes("in", args) <==> |args| == 2
    ensures Takes("and", args) <==> |args| >= 1
    ensures Takes("or", args) <==> |args| >= 1
    ensures Takes("if", args) <==> |args| == 3
    ensures Takes("var", args) <==> 1 <= |args| <= 2
  {
    OtherKeys();
    LazyKeys();
    ArityOf("!", Not, args);
    ArityOf("in", In, args);
    ArityOf("and", And, args);
    ArityOf("or", Or, args);
    ArityOf("if", If, args);
    ArityOf("var", Var, args);
  }

  lemma HaveLiterals(t: Json, n: Json, context: Json)
    requires t.Bool? && n.Num?
    ensures Have([t, n], [t, n], context)
  {
    OneValue(n, n, context);
    assert [t, n][1..] == [n] && [t] + [n] == [t, n];
  }

  lemma VisitLiterals(t: Json, n: Json)
    requires t.Bool? && n.Num?
    ensures VisitAll([t, n], 2, 1) == (Ok([TBoolean, TNumber]), 3)
  {
    var rest: seq<Ty> := [];
    assert [t, n][1..] == [n] && [n][1..] == [];
    assert VisitAll([n], 2, 2) == (Ok([TNumber] + rest), 3);
    assert [TBoolean] + ([TNumber] + rest) == [TBoolean, TNumber];
  }

  lemma Visited(node: Json, op: Operator, args: seq<Json>)
    requires IsOperation(node) && OperatorOf(node) == Some(op) && Args(node) == args && !op.Var? && ArityOk(op, |args|)
    ensures var types := VisitAll(args, 2, 1).0;
            Visit(node, 1, 0).0 == if types.Err? then Err(types.error) else Conclude(op, types.value)
  {
  }

  lemma PairRefused(node: Json, args: seq<Json>, types: seq<Ty>)
    requires IsOperation(node) && OperatorOf(node) == Some(Eq) && Args(node) == args
    requires |args| == |types| == 2 && VisitAll(args, 2, 1).0 == Ok(types) && !Comparable(types[0], types[1])
    ensures Validate(node) == Err(TypeMismatch)
  {
    Visited(node, Eq, args);
  }

  lemma LiteralsCompare(args: seq<Json>, context: Json)
    requires args == [Bool(true), Exactly(1.0)]
    ensures Answer("==", args, context) == Ok(Bool(true))
  {
    OtherKeys();
    HaveLiterals(args[0], args[1], context);
    Applies("==", Eq, args, args, context);
  }

  /** `{"==": [true, 1]}` is refused as a comparison that can never be equal, and it would be true. */
  lemma RefusedYetEqual(context: Json)
    ensures Validate(Operation("==", [Bool(true), Exactly(1.0)])) == Err(TypeMismatch)
    ensures Answer("==", [Bool(true), Exactly(1.0)], context) == Ok(Bool(true))
  {
    var args := [Bool(true), Exactly(1.0)];
    LiteralsCompare(args, context);
    VisitLiterals(args[0], args[1]);
    OtherKeys();
    Reads("==", Eq, args);
    PairRefused(Operation("==", args), args, [TBoolean, TNumber]);
  }
}
