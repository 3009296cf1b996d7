/**
 The static check of a condition before it is stored: a declarative typing judgment, the checker
 with its shared node counter, and the proof that the two decide the same trees.
 */
module RuleChecker {
  import opened Wrappers
  import opened RuleSyntax

  // ---------------------------------------------------------------------------
  // The judgment
  // ---------------------------------------------------------------------------

  /** Comparable: the same type, or either side null. */
  predicate Comparable(t: Ty, u: Ty) { t == u || t == TNull || u == TNull }

  /** What `in` may look for: text within text, or a list's own kind of element; any kind in an empty list. */
  predicate Searchable(needle: Ty, haystack: Ty) {
    (haystack == TText && needle == TText)
    || (haystack.TList? && (haystack.element.None? || haystack.element.value == needle))
  }

  /** `node` has type `t`. Says nothing about size, depth or the order of checks. */
  ghost predicate Types(node: Json, t: Ty)
    decreases Weight(node)
  {
    match node
    case Null => t == TNull
    case Bool(_) => t == TBoolean
    case Num(_, _) => t == TNumber
    case NonFinite => false
    case Text(_) => t == TText
    case List(items) =>
      t.TList? && (if t.element.None? then items == [] else items != [] && AllTyped(items, t.element.value))
    case Obj(_) =>
      && IsOperation(node)
      && OperatorOf(node).Some?
      && var op, args := OperatorOf(node).value, Args(node);
      && ArityOk(op, |args|)
      && if op.Arithmetic() || op.Comparison() then
           t == (if op.Comparison() then TBoolean else TNumber) && AllTyped(args, TNumber)
         else if op.Logical() then t == TBoolean && AllTyped(args, TBoolean)
         else if op.If? then Types(args[0], TBoolean) && Types(args[1], t) && Types(args[2], t)
         else if op.Equality() then t == TBoolean && exists u, v :: Types(args[0], u) && Types(args[1], v) && Comparable(u, v)
         else if op.In? then t == TBoolean && exists u, v :: Types(args[0], u) && Types(args[1], v) && Searchable(u, v)
         else
           && args[0].Text?
           && VariableNamed(args[0].s).Some?
           && t == VariableNamed(args[0].s).value.Ty()
           && if |args| == 1 then VariableNamed(args[0].s).value.Required() else Types(args[1], t)
  }

  ghost predicate AllTyped(nodes: seq<Json>, t: Ty)
    decreases WeightAll(nodes)
  {
    nodes == [] || (Types(nodes[0], t) && AllTyped(nodes[1..], t))
  }

  /** A tree has at most one type. */
  lemma {:induction false} TypeIsUnique(node: Json, t: Ty, u: Ty)
    requires Types(node, t) && Types(node, u)
    ensures t == u
    decreases Weight(node)
  {
    match node
    case List(items) =>
      if items != [] { TypeIsUnique(items[0], t.element.value, u.element.value); }
    case Obj(_) =>
      if OperatorOf(node) == Some(If) { TypeIsUnique(Args(node)[1], t, u); }
    case _ =>
  }

  /** What the documentation says a publishable condition is. */
  ghost predicate Publishable(condition: Json) {
    Types(condition, TBoolean) && Size(condition) <= 400 && Depth(condition) <= 24
  }

  // ---------------------------------------------------------------------------
  // The checker, with its counter passed along
  // ---------------------------------------------------------------------------

  datatype Refusal =
    | TooManyNodes | TooDeep | MixedList | NotFinite | NotOneOperator | UnsupportedOperator | WrongArity
    | UnknownVariable | NeedsDefault | WrongDefault | TypeMismatch | NotTrueFalse

  /** The type of an operation from the types of its arguments. */
  function Conclude(op: Operator, types: seq<Ty>): Result<Ty, Refusal>
    requires ArityOk(op, |types|) && !op.Var?
  {
    if op.Arithmetic() || op.Comparison() then
      if forall i :: 0 <= i < |types| ==> types[i] == TNumber then Ok(if op.Comparison() then TBoolean else TNumber)
      else Err(TypeMismatch)
    else if op.Logical() then
      if forall i :: 0 <= i < |types| ==> types[i] == TBoolean then Ok(TBoolean) else Err(TypeMismatch)
    else if op.If? then
      if types[0] == TBoolean && types[1] == types[2] then Ok(types[1]) else Err(TypeMismatch)
    else if op.Equality() then
      if Comparable(types[0], types[1]) then Ok(TBoolean) else Err(TypeMismatch)
    else if Searchable(types[0], types[1]) then Ok(TBoolean) else Err(TypeMismatch)
  }

  function ConcludeList(types: seq<Ty>): Result<Ty, Refusal> {
    if types == [] then Ok(TList(None))
    else if forall i :: 0 <= i < |types| ==> types[i] == types[0] then Ok(TList(Some(types[0])))
    else Err(MixedList)
  }

  /** `visit`: the type or the first refusal met, and the counter afterwards. */
  function Visit(node: Json, depth: nat, count: nat): (Result<Ty, Refusal>, nat)
    decreases Weight(node)
  {
    var n := count + 1;
    if n > MAX_NODES then (Err(TooManyNodes), n)
    else if depth > MAX_DEPTH then (Err(TooDeep), n)
    else
      match node
      case Null => (Ok(TNull), n)
      case Bool(_) => (Ok(TBoolean), n)
      case Num(_, _) => (Ok(TNumber), n)
      case NonFinite => (Err(NotFinite), n)
      case Text(_) => (Ok(TText), n)
      case List(items) =>
        var (types, n') := VisitAll(items, depth + 1, n);
        if types.Err? then (Err(types.error), n') else (ConcludeList(types.value), n')
      case Obj(_) =>
        if !IsOperation(node) then (Err(NotOneOperator), n)
        else if OperatorOf(node).None? then (Err(UnsupportedOperator), n)
        else
          var op, args := OperatorOf(node).value, Args(node);
          if !ArityOk(op, |args|) then (Err(WrongArity), n)
          else if op.Var? then
            if !args[0].Text? || VariableNamed(args[0].s).None? then (Err(UnknownVariable), n)
            else
              var variable := VariableNamed(args[0].s).value;
              if |args| == 1 then
                (if variable.Required() then Ok(variable.Ty()) else Err(NeedsDefault), n)
              else
                var (default, n') := Visit(args[1], depth + 1, n);
                if default.Err? then (default, n')
                else (if default.value == variable.Ty() then Ok(variable.Ty()) else Err(WrongDefault), n')
          else
            var (types, n') := VisitAll(args, depth + 1, n);
            if types.Err? then (Err(types.error), n') else (Conclude(op, types.value), n')
  }

  function VisitAll(nodes: seq<Json>, depth: nat, count: nat): (r: (Result<seq<Ty>, Refusal>, nat))
    ensures r.0.Ok? ==> |r.0.value| == |nodes|
    decreases WeightAll(nodes)
  {
    if nodes == [] then (Ok([]), count)
    else
      var (first, n) := Visit(nodes[0], depth, count);
      if first.Err? then (Err(first.error), n)
      else
        var (rest, n') := VisitAll(nodes[1..], depth, n);
        if rest.Err? then (rest, n') else (Ok([first.value] + rest.value), n')
  }

  function Validate(condition: Json): Result<(), Refusal> {
    var (r, _) := Visit(condition, 1, 0);
    if r.Err? then Err(r.error) else if r.value != TBoolean then Err(NotTrueFalse) else Ok(())
  }

  // ---------------------------------------------------------------------------
  // The checker as it is written: a counter updated during the recursion
  // ---------------------------------------------------------------------------

  class ExpressionChecker {
    var nodeCount: nat

    constructor ()
      ensures nodeCount == 0
    {
      nodeCount := 0;
    }

    method VisitNode(node: Json, depth: nat) returns (r: Result<Ty, Refusal>)
      modifies this
      ensures (r, nodeCount) == Visit(node, depth, old(nodeCount))
      decreases Weight(node), 1
    {
      nodeCount := nodeCount + 1;
      if nodeCount > MAX_NODES { return Err(TooManyNodes); }
      if depth > MAX_DEPTH { return Err(TooDeep); }
      if node.List? {
        var types := VisitEach(node.items, depth + 1);
        if types.Err? { return Err(types.error); }
        return ConcludeList(types.value);
      }
      if !node.Obj? {
        match node {
          case NonFinite => return Err(NotFinite);
          case Null => return Ok(TNull);
          case Bool(_) => return Ok(TBoolean);
          case Num(_, _) => return Ok(TNumber);
          case Text(_) => return Ok(TText);
        }
      }
      if !IsOperation(node) { return Err(NotOneOperator); }
      if OperatorOf(node).None? { return Err(UnsupportedOperator); }
      var op, args := OperatorOf(node).value, Args(node);
      if !ArityOk(op, |args|) { return Err(WrongArity); }
      if op.Var? {
        r := CheckVariable(node, depth);
        return;
      }
      var types := VisitEach(args, depth + 1);
      if types.Err? { return Err(types.error); }
      return Conclude(op, types.value);
    }

    /** A variable reference, already counted: it must be declared, and default to its own type if it can be absent. */
    method CheckVariable(node: Json, depth: nat) returns (r: Result<Ty, Refusal>)
      requires IsOperation(node) && OperatorOf(node) == Some(Var) && ArityOk(Var, |Args(node)|)
      requires 1 <= nodeCount <= MAX_NODES && depth <= MAX_DEPTH
      modifies this
      ensures (r, nodeCount) == Visit(node, depth, old(nodeCount) - 1)
      decreases Weight(node), 0
    {
      var args := Args(node);
      if !args[0].Text? || VariableNamed(args[0].s).None? { return Err(UnknownVariable); }
      var variable := VariableNamed(args[0].s).value;
      if |args| == 1 {
        return if variable.Required() then Ok(variable.Ty()) else Err(NeedsDefault);
      }
      var default := VisitNode(args[1], depth + 1);
      if default.Err? { return default; }
      return if default.value == variable.Ty() then Ok(variable.Ty()) else Err(WrongDefault);
    }

    /** The list comprehension over the arguments: in order, stopping at the first refusal. */
    method VisitEach(nodes: seq<Json>, depth: nat) returns (r: Result<seq<Ty>, Refusal>)
      modifies this
      ensures (r, nodeCount) == VisitAll(nodes, depth, old(nodeCount))
      decreases WeightAll(nodes)
    {
      var types: seq<Ty> := [];
      var i := 0;
      assert nodes[0..] == nodes && forall rest: seq<Ty> :: types + rest == rest;
      while i < |nodes|
        invariant i <= |nodes| && |types| == i
        invariant VisitAll(nodes, depth, old(nodeCount)) == Prepend(types, VisitAll(nodes[i..], depth, nodeCount))
      {
        var t := VisitNode(nodes[i], depth);
        assert nodes[i..][1..] == nodes[i + 1..];
        if t.Err? { return Err(t.error); }
        assert forall rest: seq<Ty> :: types + ([t.value] + rest) == (types + [t.value]) + rest;
        types := types + [t.value];
        i := i + 1;
      }
      assert types + [] == types;
      return Ok(types);
    }

    method ValidateExpression(condition: Json) returns (r: Result<(), Refusal>)
      requires nodeCount == 0
      modifies this
      ensures r == Validate(condition)
    {
      var t := VisitNode(condition, 1);
      if t.Err? { return Err(t.error); }
      if t.value != TBoolean { return Err(NotTrueFalse); }
      return Ok(());
    }
  }

  function Prepend(types: seq<Ty>, rest: (Result<seq<Ty>, Refusal>, nat)): (Result<seq<Ty>, Refusal>, nat) {
    if rest.0.Err? then rest else (Ok(types + rest.0.value), rest.1)
  }

  // ---------------------------------------------------------------------------
  // The checker decides the judgment
  // ---------------------------------------------------------------------------

  ghost predicate EachTyped(nodes: seq<Json>, types: seq<Ty>)
    requires |nodes| == |types|
  {
    forall i :: 0 <= i < |nodes| ==> Types(nodes[i], types[i])
  }

  lemma {:induction false} AllTypedIsEach(nodes: seq<Json>, t: Ty)
    ensures AllTyped(nodes, t) <==> forall i :: 0 <= i < |nodes| ==> Types(nodes[i], t)
    decreases |nodes|
  {
    if nodes != [] {
      AllTypedIsEach(nodes[1..], t);
      assert forall i :: 0 < i < |nodes| ==> nodes[i] == nodes[1..][i - 1];
      assert forall i :: 0 <= i < |nodes| - 1 ==> nodes[1..][i] == nodes[i + 1];
    }
  }

  /** Arguments typed one by one are all of type t iff the types found are all t. */
  lemma EachIsAll(nodes: seq<Json>, types: seq<Ty>, t: Ty)
    requires |nodes| == |types| && EachTyped(nodes, types)
    ensures AllTyped(nodes, t) <==> forall i :: 0 <= i < |types| ==> types[i] == t
  {
    AllTypedIsEach(nodes, t);
    if AllTyped(nodes, t) {
      forall i | 0 <= i < |types| ensures types[i] == t {
        TypeIsUnique(nodes[i], types[i], t);
      }
    }
  }

  /** Given the types of the arguments, the operator's verdict is the judgment's. */
  lemma ConcludeIsJudgment(node: Json, types: seq<Ty>, t: Ty)
    requires IsOperation(node) && OperatorOf(node).Some? && !OperatorOf(node).value.Var?
    requires ArityOk(OperatorOf(node).value, |Args(node)|)
    requires |types| == |Args(node)| && EachTyped(Args(node), types)
    ensures Types(node, t) <==> Conclude(OperatorOf(node).value, types) == Ok(t)
  {
    var op, args := OperatorOf(node).value, Args(node);
    if op.Arithmetic() || op.Comparison() {
      EachIsAll(args, types, TNumber);
    } else if op.Logical() {
      EachIsAll(args, types, TBoolean);
    } else if op.If? {
      IfJudgment(args, types, t);
    } else {
      PairJudgment(node, types, t);
    }
  }

  lemma PairJudgment(node: Json, types: seq<Ty>, t: Ty)
    requires IsOperation(node) && OperatorOf(node).Some?
    requires OperatorOf(node).value.Equality() || OperatorOf(node).value.In?
    requires |types| == |Args(node)| == 2 && EachTyped(Args(node), types)
    ensures Types(node, t) <==> Conclude(OperatorOf(node).value, types) == Ok(t)
  {
    var args := Args(node);
    assert Types(args[0], types[0]) && Types(args[1], types[1]);
    forall u | Types(args[0], u) ensures u == types[0] { TypeIsUnique(args[0], u, types[0]); }
    forall v | Types(args[1], v) ensures v == types[1] { TypeIsUnique(args[1], v, types[1]); }
  }

  lemma IfJudgment(args: seq<Json>, types: seq<Ty>, t: Ty)
    requires |args| == |types| == 3 && EachTyped(args, types)
    ensures Types(args[0], TBoolean) && Types(args[1], t) && Types(args[2], t)
            <==> types[0] == TBoolean && types[1] == types[2] == t
  {
    if Types(args[0], TBoolean) { TypeIsUnique(args[0], types[0], TBoolean); }
    if Types(args[1], t) { TypeIsUnique(args[1], types[1], t); }
    if Types(args[2], t) { TypeIsUnique(args[2], types[2], t); }
  }

  lemma ListIsJudgment(items: seq<Json>, types: seq<Ty>, t: Ty)
    requires |types| == |items| && EachTyped(items, types)
    ensures Types(List(items), t) <==> ConcludeList(types) == Ok(t)
  {
    if items != [] && t.TList? && t.element.Some? {
      EachIsAll(items, types, t.element.value);
    }
  }

  /** Whether the visit of `node` stays within both limits. */
  predicate Fits(node: Json, depth: nat, count: nat) {
    count + Size(node) <= MAX_NODES && depth + Depth(node) <= MAX_DEPTH + 1
  }

  predicate FitsAll(nodes: seq<Json>, depth: nat, count: nat) {
    count + SizeAll(nodes) <= MAX_NODES && (nodes != [] ==> depth + DepthAll(nodes) <= MAX_DEPTH + 1)
  }

  ghost predicate Typed(node: Json) {
    exists t :: Types(node, t)
  }

  /** The arguments of an operation can all be typed somehow. */
  ghost predicate Typable(nodes: seq<Json>) {
    forall i :: 0 <= i < |nodes| ==> Typed(nodes[i])
  }

  lemma AllTypedIsTypable(nodes: seq<Json>, t: Ty)
    requires AllTyped(nodes, t)
    ensures Typable(nodes)
  {
    AllTypedIsEach(nodes, t);
    assert forall i :: 0 <= i < |nodes| && Types(nodes[i], t) ==> Typed(nodes[i]);
  }

  /** A typed tree has typed children. */
  lemma TypedChildren(node: Json, t: Ty)
    requires Types(node, t)
    ensures Typable(Children(node))
  {
    if node.List? {
      if t.element.Some? { AllTypedIsTypable(node.items, t.element.value); }
    } else if node.Obj? {
      var op, args := OperatorOf(node).value, Args(node);
      if op.Arithmetic() || op.Comparison() {
        AllTypedIsTypable(args, TNumber);
      } else if op.Logical() {
        AllTypedIsTypable(args, TBoolean);
      } else {
        TypedFewChildren(node, t);
      }
    }
  }

  lemma TypedFewChildren(node: Json, t: Ty)
    requires IsOperation(node) && Types(node, t)
    requires var op := OperatorOf(node).value; op.If? || op.Equality() || op.In? || op.Var?
    ensures Typable(Children(node))
  {
    var op, args := OperatorOf(node).value, Args(node);
    if op.If? {
      assert Typed(args[0]) && Typed(args[1]) && Typed(args[2]);
    } else if op.Var? {
      assert |args| == 2 ==> Typed(args[1]);
    } else {
      assert Typed(args[0]) && Typed(args[1]);
    }
  }

  /** The visit succeeds iff the tree is typable and fits, and then it finds the type and counts the nodes. */
  ghost predicate Decided(node: Json, depth: nat, count: nat) {
    var (r, n) := Visit(node, depth, count);
    && (r.Ok? ==> Types(node, r.value) && Fits(node, depth, count) && n == count + Size(node))
    && (Typed(node) && Fits(node, depth, count) ==> r.Ok?)
  }

  lemma {:induction false} VisitDecides(node: Json, depth: nat, count: nat)
    ensures Decided(node, depth, count)
    decreases Weight(node)
  {
    if count < MAX_NODES && depth <= MAX_DEPTH {
      VisitAllDecides(Children(node), depth + 1, count + 1);
      if t :| Types(node, t) { TypedChildren(node, t); }
      if node.List? {
        var types := VisitAll(node.items, depth + 1, count + 1).0;
        if types.Ok? {
          forall t { ListIsJudgment(node.items, types.value, t); }
        }
      } else if IsOperation(node) && OperatorOf(node).Some? && ArityOk(OperatorOf(node).value, |Args(node)|) {
        if OperatorOf(node).value.Var? {
          VisitVariableDecides(node, depth, count);
        } else {
          VisitOperationDecides(node, depth, count);
        }
      }
    }
  }

  lemma VisitOperationDecides(node: Json, depth: nat, count: nat)
    requires IsOperation(node) && OperatorOf(node).Some? && ArityOk(OperatorOf(node).value, |Args(node)|)
    requires !OperatorOf(node).value.Var?
    requires count < MAX_NODES && depth <= MAX_DEPTH
    requires AllDecided(Children(node), depth + 1, count + 1)
    requires Typed(node) ==> Typable(Children(node))
    ensures Decided(node, depth, count)
  {
    var types := VisitAll(Args(node), depth + 1, count + 1).0;
    if types.Ok? {
      forall t { ConcludeIsJudgment(node, types.value, t); }
    }
  }

  lemma VisitVariableDecides(node: Json, depth: nat, count: nat)
    requires IsOperation(node) && OperatorOf(node) == Some(Var) && ArityOk(Var, |Args(node)|)
    requires count < MAX_NODES && depth <= MAX_DEPTH
    requires AllDecided(Children(node), depth + 1, count + 1)
    ensures Decided(node, depth, count)
  {
    if |Args(node)| == 2 {
      DefaultDecides(Args(node)[1], depth + 1, count + 1);
      VisitDefaultDecides(node, depth, count);
    }
  }

  /** A variable with a default adds one node to its default's tree. */
  lemma SizeOfDefault(node: Json)
    requires IsOperation(node) && OperatorOf(node) == Some(Var) && |Args(node)| == 2
    ensures Size(node) == 1 + Size(Args(node)[1]) && Depth(node) == 1 + Depth(Args(node)[1])
  {
    SizeOfOne(Args(node)[1]);
  }

  lemma AcceptedDefault(node: Json, depth: nat, count: nat)
    requires IsOperation(node) && OperatorOf(node) == Some(Var) && |Args(node)| == 2
    requires count < MAX_NODES && depth <= MAX_DEPTH
    ensures var name, r := Args(node)[0], Visit(Args(node)[1], depth + 1, count + 1);
            Visit(node, depth, count).0.Ok? ==>
              && name.Text? && VariableNamed(name.s).Some?
              && r.0 == Ok(VariableNamed(name.s).value.Ty())
              && Visit(node, depth, count) == r
  {
  }

  lemma TypedDefault(node: Json, t: Ty)
    requires IsOperation(node) && OperatorOf(node) == Some(Var) && |Args(node)| == 2
    ensures Types(node, t) <==>
            var name := Args(node)[0];
            && name.Text? && VariableNamed(name.s).Some? && t == VariableNamed(name.s).value.Ty()
            && Types(Args(node)[1], t)
  {
  }

  lemma VisitDefaultAccepts(node: Json, depth: nat, count: nat, t: Ty)
    requires IsOperation(node) && OperatorOf(node) == Some(Var) && |Args(node)| == 2
    requires count < MAX_NODES && depth <= MAX_DEPTH
    requires Types(node, t) && Visit(Args(node)[1], depth + 1, count + 1).0 == Ok(t)
    ensures Visit(node, depth, count).0.Ok?
  {
    TypedDefault(node, t);
  }

  lemma VisitDefaultDecides(node: Json, depth: nat, count: nat)
    requires IsOperation(node) && OperatorOf(node) == Some(Var) && |Args(node)| == 2
    requires count < MAX_NODES && depth <= MAX_DEPTH
    requires Decided(Args(node)[1], depth + 1, count + 1)
    ensures Decided(node, depth, count)
  {
    var default, r := Args(node)[1], Visit(node, depth, count).0;
    SizeOfDefault(node);
    if r.Ok? {
      AcceptedDefault(node, depth, count);
      TypedDefault(node, r.value);
    } else if t :| Types(node, t) && Fits(node, depth, count) {
      TypedDefault(node, t);
      assert Typed(default) && Fits(default, depth + 1, count + 1);
      TypeIsUnique(default, Visit(default, depth + 1, count + 1).0.value, t);
      VisitDefaultAccepts(node, depth, count, t);
    }
  }

  lemma SizeOfOne(node: Json)
    ensures SizeAll([node]) == Size(node) && DepthAll([node]) == Depth(node)
  {
    assert [node][1..] == [];
    assert SizeAll([node][1..]) == 0 && DepthAll([node][1..]) == 0;
  }

  /** The same, for the one node a default is. */
  lemma DefaultDecides(default: Json, depth: nat, count: nat)
    requires AllDecided([default], depth, count) && count <= MAX_NODES
    ensures Decided(default, depth, count)
  {
    var one := [default];
    SizeOfOne(default);
    var (r, n) := Visit(default, depth, count);
    assert one[1..] == [];
    if r.Ok? {
      assert VisitAll(one[1..], depth, n) == (Ok([]), n) && [r.value] + [] == [r.value];
      assert VisitAll(one, depth, count) == (Ok([r.value]), n);
    }
    if Typed(default) { assert Typable(one); }
  }

  ghost predicate AllDecided(nodes: seq<Json>, depth: nat, count: nat) {
    var (r, n) := VisitAll(nodes, depth, count);
    && (r.Ok? ==> EachTyped(nodes, r.value) && (count <= MAX_NODES ==> FitsAll(nodes, depth, count)) && n == count + SizeAll(nodes))
    && (Typable(nodes) && FitsAll(nodes, depth, count) ==> r.Ok?)
  }

  lemma {:induction false} VisitAllDecides(nodes: seq<Json>, depth: nat, count: nat)
    ensures AllDecided(nodes, depth, count)
    decreases WeightAll(nodes)
  {
    if nodes != [] {
      VisitDecides(nodes[0], depth, count);
      VisitAllDecides(nodes[1..], depth, Visit(nodes[0], depth, count).1);
    }
  }

  /** The checker accepts exactly the publishable conditions. */
  lemma CheckerDecidesPublishable(condition: Json)
    ensures Validate(condition).Ok? <==> Publishable(condition)
  {
    VisitDecides(condition, 1, 0);
    var r := Visit(condition, 1, 0).0;
    if r.Ok? && Types(condition, TBoolean) { TypeIsUnique(condition, r.value, TBoolean); }
  }
}
