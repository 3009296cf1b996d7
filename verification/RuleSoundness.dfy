/**
 What the static check buys: a typed condition evaluates without error to a value of its type in
 every context that supplies the declared variables; lazy evaluation of the compiled tree means
 the same as strict evaluation of the published one; and the cost is bounded by what was counted.
 */
module RuleSoundness {
  import opened Wrappers
  import opened RuleSyntax
  import opened RuleChecker
  import opened RuleEvaluator

  // ---------------------------------------------------------------------------
  // Values of a type
  // ---------------------------------------------------------------------------

  /** A compiled value of type t: numbers are exact, a list is homogeneous. */
  ghost predicate HasType(v: Json, t: Ty)
    decreases t
  {
    match t
    case TNumber => v.Num? && v.exact == v.written
    case TText => v.Text?
    case TBoolean => v.Bool?
    case TNull => v.Null?
    case TList(None) => v == List([])
    case TList(Some(e)) => v.List? && v.items != [] && forall i :: 0 <= i < |v.items| ==> HasType(v.items[i], e)
  }

  /** Every declared variable that is present has its type, and the required ones are present. */
  ghost predicate Supplies(context: Json) {
    forall v :: SuppliesOne(context, v)
  }

  ghost predicate SuppliesOne(context: Json, v: Variable) {
    match Lookup(context, v.Spelling())
    case Some(value) => HasType(value, v.Ty())
    case None => !v.Required()
  }

  // ---------------------------------------------------------------------------
  // Soundness and laziness, in one induction
  // ---------------------------------------------------------------------------

  /** Lazy evaluation of the compiled tree gives the strict meaning of the published one, a value of type t. */
  ghost predicate Agrees(node: Json, t: Ty, context: Json) {
    var r := Evaluate(Normalise(node), context).value;
    r.Ok? && HasType(r.value, t) && r == Denote(node, context)
  }

  /** The same for a row of arguments, with the values they have. */
  ghost predicate AgreeEach(nodes: seq<Json>, types: seq<Ty>, values: seq<Json>, context: Json) {
    && |nodes| == |types| == |values|
    && DenoteEach(nodes, context) == Ok(values)
    && EvaluateEach(NormaliseAll(nodes), context).value == Ok(values)
    && forall i :: 0 <= i < |nodes| ==>
         HasType(values[i], types[i]) && Evaluate(Normalise(nodes[i]), context).value == Ok(values[i])
  }

  lemma AgreeCons(nodes: seq<Json>, types: seq<Ty>, values: seq<Json>, context: Json)
    requires nodes != [] && |nodes| == |types|
    requires Agrees(nodes[0], types[0], context)
    requires AgreeEach(nodes[1..], types[1..], values, context)
    ensures AgreeEach(nodes, types, [Denote(nodes[0], context).value] + values, context)
  {
    assert NormaliseAll(nodes)[1..] == NormaliseAll(nodes[1..]);
    var all := [Denote(nodes[0], context).value] + values;
    forall i | 0 <= i < |nodes|
      ensures HasType(all[i], types[i]) && Evaluate(Normalise(nodes[i]), context).value == Ok(all[i])
    {
      if i > 0 { assert nodes[i] == nodes[1..][i - 1] && types[i] == types[1..][i - 1]; }
    }
  }

  /** Stopping early finds what looking at every value finds. */
  lemma {:induction false} UntilAgrees(nodes: seq<Json>, values: seq<Json>, context: Json, stop: bool)
    requires |nodes| == |values|
    requires forall i :: 0 <= i < |nodes| ==> Evaluate(Normalise(nodes[i]), context).value == Ok(values[i])
    ensures EvaluateUntil(NormaliseAll(nodes), context, stop).value ==
            Ok(if exists i :: 0 <= i < |values| && Truthy(values[i]) == stop then stop else !stop)
    decreases |nodes|
  {
    if nodes != [] {
      assert NormaliseAll(nodes)[1..] == NormaliseAll(nodes[1..]);
      forall i | 0 <= i < |nodes| - 1
        ensures Evaluate(Normalise(nodes[1..][i]), context).value == Ok(values[1..][i])
      {
        assert nodes[1..][i] == nodes[i + 1];
      }
      UntilAgrees(nodes[1..], values[1..], context, stop);
      assert Evaluate(Normalise(nodes[0]), context).value == Ok(values[0]);
      if i :| 0 <= i < |values| && Truthy(values[i]) == stop {
        assert i > 0 ==> values[1..][i - 1] == values[i];
      }
    }
  }

  /** The strict operators respect the types the checker concluded. */
  lemma OperatorKeepsTypes(op: Operator, types: seq<Ty>, values: seq<Json>, t: Ty)
    requires !op.Var? && !op.And? && !op.Or? && !op.If?
    requires |types| == |values| && ArityOk(op, |types|) && Conclude(op, types) == Ok(t)
    requires forall i :: 0 <= i < |values| ==> HasType(values[i], types[i])
    ensures var r := ApplyOperator(op, values); r.Ok? && HasType(r.value, t)
  {
  }

  /** How an operation is run, one unfolding at a time. */
  lemma OperationRuns(node: Json, context: Json)
    requires IsOperation(node) && OperatorOf(node).Some?
    ensures var op, args := OperatorOf(node).value, Args(node);
            Evaluate(node, context) ==
            if op.Var? then EvaluateVariable(args, context)
            else if op.If? then EvaluateIf(args, context)
            else EvaluateOperator(op, args, context)
  {
    var op, args := OperatorOf(node).value, Args(node);
    assert Evaluate(node, context) == EvaluateOperator(op, args, context);
  }

  /** How an operation is denoted, given the meanings of its arguments. */
  lemma OperationDenotes(node: Json, values: seq<Json>, context: Json)
    requires IsOperation(node) && OperatorOf(node).Some? && !OperatorOf(node).value.Var?
    requires DenoteEach(Args(node), context) == Ok(values)
    ensures var op := OperatorOf(node).value;
            Denote(node, context) ==
            if op.And? then Ok(Bool(forall i :: 0 <= i < |values| ==> Truthy(values[i])))
            else if op.Or? then Ok(Bool(exists i :: 0 <= i < |values| && Truthy(values[i])))
            else if op.If? then
              if |values| != 3 then Err(Malformed) else Ok(if Truthy(values[0]) then values[1] else values[2])
            else ApplyOperator(op, values)
  {
    assert Children(node) == Args(node);
  }

  lemma LogicalAgrees(node: Json, types: seq<Ty>, values: seq<Json>, context: Json)
    requires IsOperation(node) && OperatorOf(node).Some? && (OperatorOf(node).value.And? || OperatorOf(node).value.Or?)
    requires AgreeEach(Args(node), types, values, context)
    ensures Agrees(node, TBoolean, context)
  {
    NormalisedOperation(node);
    OperationRuns(Normalise(node), context);
    OperationDenotes(node, values, context);
    LogicalRuns(OperatorOf(node).value, Args(node), values, context);
  }

  lemma LogicalRuns(op: Operator, args: seq<Json>, values: seq<Json>, context: Json)
    requires op.And? || op.Or?
    requires |args| == |values|
    requires forall i :: 0 <= i < |args| ==> Evaluate(Normalise(args[i]), context).value == Ok(values[i])
    ensures EvaluateOperator(op, NormaliseAll(args), context).value ==
            Ok(Bool(if op.And? then forall i :: 0 <= i < |values| ==> Truthy(values[i])
                    else exists i :: 0 <= i < |values| && Truthy(values[i])))
  {
    UntilAgrees(args, values, context, op.Or?);
  }

  lemma IfAgrees(node: Json, t: Ty, types: seq<Ty>, values: seq<Json>, context: Json)
    requires IsOperation(node) && OperatorOf(node) == Some(If)
    requires AgreeEach(Args(node), types, values, context)
    requires |types| == 3 && types[1] == types[2] == t
    ensures Agrees(node, t, context)
  {
    NormalisedOperation(node);
    OperationRuns(Normalise(node), context);
    OperationDenotes(node, values, context);
    IfPicks(Args(Normalise(node)), values, context);
  }

  lemma IfPicks(args: seq<Json>, values: seq<Json>, context: Json)
    requires |args| == |values| == 3
    requires forall i :: 0 <= i < 3 ==> Evaluate(args[i], context).value == Ok(values[i])
    ensures EvaluateIf(args, context).value == Ok(if Truthy(values[0]) then values[1] else values[2])
  {
  }

  lemma OperatorAgrees(node: Json, t: Ty, types: seq<Ty>, values: seq<Json>, context: Json)
    requires IsOperation(node) && OperatorOf(node).Some? && AgreeEach(Args(node), types, values, context)
    requires var op := OperatorOf(node).value;
             !op.Var? && !op.And? && !op.Or? && !op.If? && ArityOk(op, |types|) && Conclude(op, types) == Ok(t)
    ensures Agrees(node, t, context)
  {
    NormalisedOperation(node);
    OperationRuns(Normalise(node), context);
    OperationDenotes(node, values, context);
    OperatorKeepsTypes(OperatorOf(node).value, types, values, t);
  }

  lemma OperationAgrees(node: Json, t: Ty, types: seq<Ty>, values: seq<Json>, context: Json)
    requires IsOperation(node) && OperatorOf(node).Some? && !OperatorOf(node).value.Var?
    requires AgreeEach(Args(node), types, values, context)
    requires ArityOk(OperatorOf(node).value, |types|) && Conclude(OperatorOf(node).value, types) == Ok(t)
    ensures Agrees(node, t, context)
  {
    var op := OperatorOf(node).value;
    if op.And? || op.Or? {
      LogicalAgrees(node, types, values, context);
    } else if op.If? {
      IfAgrees(node, t, types, values, context);
    } else {
      OperatorAgrees(node, t, types, values, context);
    }
  }

  lemma VariableAgrees(node: Json, t: Ty, types: seq<Ty>, values: seq<Json>, context: Json)
    requires Supplies(context) && IsOperation(node) && OperatorOf(node) == Some(Var) && Types(node, t)
    requires AgreeEach(Children(node), types, values, context)
    requires |types| == 1 ==> types[0] == t
    ensures Agrees(node, t, context)
  {
    NormalisedOperation(node);
    OperationRuns(Normalise(node), context);
    var args := Args(node);
    var variable := VariableNamed(args[0].s).value;
    assert SuppliesOne(context, variable);
    assert Args(Normalise(node))[0] == args[0];
    assert variable.Spelling() == args[0].s && t == variable.Ty();
    if |args| == 2 {
      assert Children(node)[0] == args[1] && Args(Normalise(node))[1] == Normalise(args[1]);
    }
    VariableRuns(Args(Normalise(node)), context);
  }

  lemma VariableRuns(args: seq<Json>, context: Json)
    requires args != [] && args[0].Text?
    ensures var r := EvaluateVariable(args, context).value;
            match Lookup(context, args[0].s)
            case Some(v) => r == Ok(v)
            case None => if |args| == 2 then r == Evaluate(args[1], context).value else r == Err(Unavailable)
  {
  }

  lemma ListAgrees(items: seq<Json>, t: Ty, types: seq<Ty>, values: seq<Json>, context: Json)
    requires AgreeEach(items, types, values, context) && ConcludeList(types) == Ok(t)
    ensures Agrees(List(items), t, context)
  {
  }

  /** A type for each typable argument. */
  lemma {:induction false} TypesFor(nodes: seq<Json>) returns (types: seq<Ty>)
    requires Typable(nodes)
    ensures |types| == |nodes| && EachTyped(nodes, types)
  {
    if nodes == [] {
      types := [];
    } else {
      var n := |nodes| - 1;
      assert Typed(nodes[n]);
      var t :| Types(nodes[n], t);
      types := TypesFor(nodes[..n]);
      types := types + [t];
    }
  }

  lemma {:induction false} EachAgrees(nodes: seq<Json>, types: seq<Ty>, context: Json) returns (values: seq<Json>)
    requires Supplies(context) && |nodes| == |types| && EachTyped(nodes, types)
    ensures AgreeEach(nodes, types, values, context)
    decreases WeightAll(nodes)
  {
    if nodes == [] {
      values := [];
    } else {
      TypedAgrees(nodes[0], types[0], context);
      values := EachAgrees(nodes[1..], types[1..], context);
      AgreeCons(nodes, types, values, context);
      values := [Denote(nodes[0], context).value] + values;
    }
  }

  /**
   Type soundness and laziness: any typed tree, compiled and evaluated lazily in any context that supplies the
   declared variables, raises nothing, yields a value of its type, and yields what strict evaluation of every
   argument and default of the original tree would.
   */
  lemma {:induction false} TypedAgrees(node: Json, t: Ty, context: Json)
    requires Supplies(context) && Types(node, t)
    ensures Agrees(node, t, context)
    decreases Weight(node)
  {
    if node.List? || node.Obj? {
      TypedChildren(node, t);
      var types := TypesFor(Children(node));
      var values := EachAgrees(Children(node), types, context);
      if node.List? {
        ListIsJudgment(node.items, types, t);
        ListAgrees(node.items, t, types, values, context);
      } else if OperatorOf(node).value.Var? {
        if |types| == 1 { TypeIsUnique(Children(node)[0], types[0], t); }
        VariableAgrees(node, t, types, values, context);
      } else {
        ConcludeIsJudgment(node, types, t);
        OperationAgrees(node, t, types, values, context);
      }
    }
  }

  // ---------------------------------------------------------------------------
  // The result depends only on the variables named
  // ---------------------------------------------------------------------------

  function VariablesOf(node: Json): set<string>
    decreases Weight(node)
  {
    (if IsOperation(node) && OperatorOf(node) == Some(Var) && Args(node) != [] && Args(node)[0].Text?
     then {Args(node)[0].s} else {})
    + VariablesOfAll(Children(node))
  }

  function VariablesOfAll(nodes: seq<Json>): set<string>
    decreases WeightAll(nodes)
  {
    if nodes == [] then {} else VariablesOf(nodes[0]) + VariablesOfAll(nodes[1..])
  }

  ghost predicate SameOn(names: set<string>, context: Json, other: Json) {
    forall name :: name in names ==> Lookup(context, name) == Lookup(other, name)
  }

  ghost predicate SameRuns(nodes: seq<Json>, context: Json, other: Json) {
    forall i :: 0 <= i < |nodes| ==> Evaluate(nodes[i], context) == Evaluate(nodes[i], other)
  }

  lemma SameRunsRest(nodes: seq<Json>, context: Json, other: Json)
    requires nodes != [] && SameRuns(nodes, context, other)
    ensures SameRuns(nodes[1..], context, other)
  {
    forall i | 0 <= i < |nodes| - 1 ensures Evaluate(nodes[1..][i], context) == Evaluate(nodes[1..][i], other) {
      assert nodes[1..][i] == nodes[i + 1];
    }
  }

  lemma {:induction false} SameEach(nodes: seq<Json>, context: Json, other: Json)
    requires SameRuns(nodes, context, other)
    ensures EvaluateEach(nodes, context) == EvaluateEach(nodes, other)
    decreases |nodes|
  {
    if nodes != [] {
      SameRunsRest(nodes, context, other);
      SameEach(nodes[1..], context, other);
      assert Evaluate(nodes[0], context) == Evaluate(nodes[0], other);
    }
  }

  lemma {:induction false} SameUntil(nodes: seq<Json>, context: Json, other: Json, stop: bool)
    requires SameRuns(nodes, context, other)
    ensures EvaluateUntil(nodes, context, stop) == EvaluateUntil(nodes, other, stop)
    decreases |nodes|
  {
    if nodes != [] {
      SameRunsRest(nodes, context, other);
      SameUntil(nodes[1..], context, other, stop);
      assert Evaluate(nodes[0], context) == Evaluate(nodes[0], other);
    }
  }

  lemma {:induction false} NamesOfChild(nodes: seq<Json>, i: nat)
    requires i < |nodes|
    ensures VariablesOf(nodes[i]) <= VariablesOfAll(nodes)
    decreases |nodes|
  {
    if i > 0 { NamesOfChild(nodes[1..], i - 1); }
  }

  lemma SameVariable(args: seq<Json>, context: Json, other: Json)
    requires args != [] && args[0].Text? ==> Lookup(context, args[0].s) == Lookup(other, args[0].s)
    requires |args| == 2 ==> Evaluate(args[1], context) == Evaluate(args[1], other)
    ensures EvaluateVariable(args, context) == EvaluateVariable(args, other)
  {
  }

  lemma SameIf(args: seq<Json>, context: Json, other: Json)
    requires SameRuns(args, context, other)
    ensures EvaluateIf(args, context) == EvaluateIf(args, other)
  {
    if |args| == 3 {
      assert Evaluate(args[0], context) == Evaluate(args[0], other);
      assert Evaluate(args[1], context) == Evaluate(args[1], other);
      assert Evaluate(args[2], context) == Evaluate(args[2], other);
    }
  }

  lemma SameOperator(op: Operator, args: seq<Json>, context: Json, other: Json)
    requires SameRuns(args, context, other) && !op.Var? && !op.If?
    ensures EvaluateOperator(op, args, context) == EvaluateOperator(op, args, other)
  {
    if op.And? || op.Or? {
      SameUntil(args, context, other, op.Or?);
    } else {
      SameEach(args, context, other);
    }
  }

  lemma SameNode(node: Json, context: Json, other: Json)
    requires SameOn(VariablesOf(node), context, other) && SameRuns(Children(node), context, other)
    ensures Evaluate(node, context) == Evaluate(node, other)
  {
    if node.List? {
      SameEach(node.items, context, other);
    } else if IsOperation(node) && OperatorOf(node).Some? {
      var op, args := OperatorOf(node).value, Args(node);
      OperationRuns(node, context);
      OperationRuns(node, other);
      if op.Var? {
        if args != [] && args[0].Text? { assert args[0].s in VariablesOf(node); }
        if |args| == 2 { assert Children(node)[0] == args[1]; }
        SameVariable(args, context, other);
      }
      else if op.If? { SameIf(args, context, other); }
      else { SameOperator(op, args, context, other); }
    }
  }

  /** Two contexts that agree on the variables a tree names give the same run of it, call by call. */
  lemma {:induction false} OnlyNamedVariablesMatter(node: Json, context: Json, other: Json)
    requires SameOn(VariablesOf(node), context, other)
    ensures Evaluate(node, context) == Evaluate(node, other)
    decreases Weight(node)
  {
    var c := Children(node);
    forall i | 0 <= i < |c| ensures Evaluate(c[i], context) == Evaluate(c[i], other) {
      NamesOfChild(c, i);
      OnlyNamedVariablesMatter(c[i], context, other);
    }
    SameNode(node, context, other);
  }

  /** Compiling renames nothing: the compiled tree names the variables the published one does. */
  lemma {:induction false} NormaliseKeepsVariables(node: Json)
    ensures VariablesOf(Normalise(node)) == VariablesOf(node)
    decreases Weight(node)
  {
    NormalisedChildren(node);
    NormaliseAllKeepsVariables(Children(node));
    if IsOperation(node) {
      NormalisedOperation(node);
      var args := Args(node);
      if args != [] { assert NormaliseAll(args)[0] == Normalise(args[0]); }
    }
  }

  lemma {:induction false} NormaliseAllKeepsVariables(nodes: seq<Json>)
    ensures VariablesOfAll(NormaliseAll(nodes)) == VariablesOfAll(nodes)
    decreases WeightAll(nodes)
  {
    if nodes != [] {
      NormaliseKeepsVariables(nodes[0]);
      NormaliseAllKeepsVariables(nodes[1..]);
      assert NormaliseAll(nodes)[1..] == NormaliseAll(nodes[1..]);
    }
  }

  // ---------------------------------------------------------------------------
  // Cost
  // ---------------------------------------------------------------------------

  ghost predicate Within<T>(r: Run<T>, calls: nat, depth: nat) {
    r.calls <= calls && r.depth <= depth
  }

  /** Evaluating any tree, in any context, makes no more calls than it has nodes, nested no deeper than it is. */
  lemma {:induction false} CostBounded(node: Json, context: Json)
    ensures Within(Evaluate(node, context), Size(node), Depth(node))
    decreases Weight(node), 1
  {
    CostBoundedEach(Children(node), context);
    if node.List? {
      CostOfEach(node.items, context);
    } else if IsOperation(node) && OperatorOf(node).Some? {
      CostOfOperation(node, context);
    }
  }

  lemma CostOfOperation(node: Json, context: Json)
    requires IsOperation(node) && OperatorOf(node).Some?
    requires EachWithin(Children(node), context)
    ensures Within(Evaluate(node, context), Size(node), Depth(node))
  {
    var op, args := OperatorOf(node).value, Args(node);
    OperationRuns(node, context);
    if op.Var? {
      if |args| == 2 {
        SizeOfDefault(node);
        assert args[1] in Children(node);
      }
      CostOfVariable(args, context);
    } else if op.If? {
      CostOfIf(args, context);
    } else {
      CostOfOperator(op, args, context);
    }
  }

  lemma CostOfVariable(args: seq<Json>, context: Json)
    requires |args| == 2 ==> Within(Evaluate(args[1], context), Size(args[1]), Depth(args[1]))
    ensures if |args| == 2 then Within(EvaluateVariable(args, context), 1 + Size(args[1]), 1 + Depth(args[1]))
            else Within(EvaluateVariable(args, context), 1, 1)
  {
  }

  lemma CostOfIf(args: seq<Json>, context: Json)
    requires EachWithin(args, context)
    ensures Within(EvaluateIf(args, context), 1 + SizeAll(args), 1 + DepthAll(args))
  {
    if |args| == 3 {
      SizeOfThree(args[0], args[1], args[2]);
      assert args == [args[0], args[1], args[2]];
      assert Within(Evaluate(args[0], context), Size(args[0]), Depth(args[0]));
      CostOfBranch(args, context, Size(args[0]) + Size(args[1]), DepthAll(args), 1);
      CostOfBranch(args, context, Size(args[0]) + Size(args[2]), DepthAll(args), 2);
    }
  }

  /** An `if` costs its condition and the branch it takes. */
  lemma CostOfBranch(args: seq<Json>, context: Json, calls: nat, depth: nat, taken: nat)
    requires |args| == 3 && 1 <= taken <= 2
    requires Evaluate(args[0], context).calls <= calls && Evaluate(args[0], context).depth <= depth
    requires Evaluate(args[0], context).calls + Evaluate(args[taken], context).calls <= calls
    requires Evaluate(args[taken], context).depth <= depth
    ensures var condition := Evaluate(args[0], context).value;
            condition.Err? || Truthy(condition.value) == (taken == 1)
            ==> Within(EvaluateIf(args, context), 1 + calls, 1 + depth)
  {
  }

  lemma SizeOfThree(a: Json, b: Json, c: Json)
    ensures SizeAll([a, b, c]) == Size(a) + Size(b) + Size(c)
    ensures Depth(a) <= DepthAll([a, b, c]) && Depth(b) <= DepthAll([a, b, c]) && Depth(c) <= DepthAll([a, b, c])
  {
    SizeOfOne(c);
    assert [b, c][1..] == [c] && [a, b, c][1..] == [b, c];
    assert SizeAll([b, c]) == Size(b) + SizeAll([b, c][1..]);
    assert DepthAll([b, c]) >= Depth(b) && DepthAll([b, c]) >= DepthAll([b, c][1..]);
  }

  lemma CostOfOperator(op: Operator, args: seq<Json>, context: Json)
    requires !op.Var? && !op.If? && EachWithin(args, context)
    ensures Within(EvaluateOperator(op, args, context), 1 + SizeAll(args), 1 + DepthAll(args))
  {
    CostOfEach(args, context);
    CostOfUntil(args, context, op.Or?);
  }

  ghost predicate EachWithin(nodes: seq<Json>, context: Json) {
    forall c :: c in nodes ==> Within(Evaluate(c, context), Size(c), Depth(c))
  }

  lemma {:induction false} CostOfEach(nodes: seq<Json>, context: Json)
    requires EachWithin(nodes, context)
    ensures Within(EvaluateEach(nodes, context), SizeAll(nodes), DepthAll(nodes))
    decreases |nodes|
  {
    if nodes != [] {
      assert nodes[0] in nodes;
      CostOfEach(nodes[1..], context);
    }
  }

  lemma {:induction false} CostOfUntil(nodes: seq<Json>, context: Json, stop: bool)
    requires EachWithin(nodes, context)
    ensures Within(EvaluateUntil(nodes, context, stop), SizeAll(nodes), DepthAll(nodes))
    decreases |nodes|
  {
    if nodes != [] {
      assert nodes[0] in nodes;
      CostOfUntil(nodes[1..], context, stop);
    }
  }

  lemma {:induction false} CostBoundedEach(nodes: seq<Json>, context: Json)
    ensures EachWithin(nodes, context)
    decreases WeightAll(nodes), 0
  {
    if nodes != [] {
      CostBounded(nodes[0], context);
      CostBoundedEach(nodes[1..], context);
      assert nodes == [nodes[0]] + nodes[1..];
    }
  }

  // ---------------------------------------------------------------------------
  // The theorems about accepted conditions
  // ---------------------------------------------------------------------------

  /** Every accepted condition evaluates to true or false, and to its strict meaning. */
  lemma AcceptedConditionEvaluates(condition: Json, context: Json)
    requires Validate(condition).Ok? && Supplies(context)
    ensures var r := Evaluate(Normalise(condition), context).value;
            r.Ok? && r.value.Bool? && r == Denote(condition, context)
  {
    CheckerDecidesPublishable(condition);
    TypedAgrees(condition, TBoolean, context);
  }

  /** Compiled or not, an accepted condition costs at most 400 calls, 24 deep, in every context. */
  lemma AcceptedConditionIsCheap(condition: Json, context: Json)
    requires Validate(condition).Ok?
    ensures Evaluate(condition, context).calls <= Size(condition) <= MAX_NODES
    ensures Evaluate(Normalise(condition), context).calls <= Size(condition)
    ensures Evaluate(condition, context).depth <= Depth(condition) <= MAX_DEPTH
    ensures Evaluate(Normalise(condition), context).depth <= Depth(condition)
  {
    CheckerDecidesPublishable(condition);
    CostBounded(condition, context);
    CostBounded(Normalise(condition), context);
    NormaliseKeepsShape(condition);
    assert Within(Evaluate(condition, context), Size(condition), Depth(condition));
  }

  /**
   An accepted condition's outcome depends only on the variables it names as published: contexts that agree on
   those, whatever else they hold, evaluate the compiled condition to the same true or false.
   */
  lemma AcceptedConditionReadsOnlyItsVariables(condition: Json, context: Json, other: Json)
    requires Validate(condition).Ok? && Supplies(context)
    requires SameOn(VariablesOf(condition), context, other)
    ensures Evaluate(Normalise(condition), other) == Evaluate(Normalise(condition), context)
    ensures Evaluate(Normalise(condition), other).value.Ok? && Evaluate(Normalise(condition), other).value.value.Bool?
    ensures Evaluate(Normalise(condition), other).value == Denote(condition, context)
  {
    NormaliseKeepsVariables(condition);
    OnlyNamedVariablesMatter(Normalise(condition), context, other);
    AcceptedConditionEvaluates(condition, context);
  }
}
