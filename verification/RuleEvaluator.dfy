/**
 The lazy interpreter of conditions, instrumented with the number of `_evaluate` calls it makes and
 how deep they nest, and a strict reference meaning that evaluates everything.
 */
module RuleEvaluator {
  import opened Wrappers
  import opened RuleSyntax

  datatype EvalError = NotNumbers | NotSearchable | Unavailable | Malformed

  // ---------------------------------------------------------------------------
  // Values
  // ---------------------------------------------------------------------------

  /** Python's `bool(value)`. */
  predicate Truthy(v: Json) {
    match v
    case Null => false
    case Bool(b) => b
    case Num(_, exact) => exact != 0.0
    case NonFinite => true
    case Text(s) => s != ""
    case List(items) => items != []
    case Obj(fields) => fields != []
  }

  /** Python's own `==`, which compares a float by its binary value and true with 1. */
  predicate PythonEquals(l: Json, r: Json) {
    match (l, r)
    case (Num(_, x), Num(_, y)) => x == y
    case (Bool(b), Num(_, y)) => y == if b then 1.0 else 0.0
    case (Num(_, x), Bool(b)) => x == if b then 1.0 else 0.0
    case (List(xs), List(ys)) => PythonEqualsAll(xs, ys)
    case _ => l == r
  }

  predicate PythonEqualsAll(xs: seq<Json>, ys: seq<Json>) {
    if xs == [] || ys == [] then xs == ys
    else PythonEquals(xs[0], ys[0]) && PythonEqualsAll(xs[1..], ys[1..])
  }

  /** `_equals`: numbers by the decimal they are written as, anything else as Python compares it. */
  predicate Equals(l: Json, r: Json) {
    if l.Num? && r.Num? then l.written == r.written else PythonEquals(l, r)
  }

  predicate OccursAt(needle: string, haystack: string, i: nat) {
    i + |needle| <= |haystack| && haystack[i..i + |needle|] == needle
  }

  predicate OccursIn(needle: string, haystack: string) {
    exists i :: 0 <= i <= |haystack| && OccursAt(needle, haystack, i)
  }

  function Membership(needle: Json, haystack: Json): Result<Json, EvalError> {
    match haystack
    case Text(s) => Ok(Bool(needle.Text? && OccursIn(needle.s, s)))
    case List(items) => Ok(Bool(exists i :: 0 <= i < |items| && Equals(needle, items[i])))
    case _ => Err(NotSearchable)
  }

  predicate AllNumbers(values: seq<Json>) {
    forall i :: 0 <= i < |values| ==> values[i].Num?
  }

  /** `_numbers`: every argument as the decimal it is written as. */
  function Decimals(values: seq<Json>): (r: seq<real>)
    requires AllNumbers(values)
    ensures |r| == |values|
    ensures forall i :: 0 <= i < |values| ==> r[i] == values[i].written
  {
    seq(|values|, i requires 0 <= i < |values| => values[i].written)
  }

  predicate Ordered(op: Operator, x: real, y: real)
    requires op.Comparison()
  {
    match op case Gt => x > y case Ge => x >= y case Lt => x < y case Le => x <= y
  }

  /** Every adjacent pair compares, so three arguments of `<` read as "between". */
  predicate Pairwise(op: Operator, xs: seq<real>)
    requires op.Comparison()
  {
    forall i :: 0 < i < |xs| ==> Ordered(op, xs[i - 1], xs[i])
  }

  function Sum(xs: seq<real>): real {
    if xs == [] then 0.0 else Sum(xs[..|xs| - 1]) + xs[|xs| - 1]
  }

  function Product(xs: seq<real>): real {
    if xs == [] then 1.0 else Product(xs[..|xs| - 1]) * xs[|xs| - 1]
  }

  function Least(xs: seq<real>): (m: real)
    requires xs != []
    ensures m in xs && forall i :: 0 <= i < |xs| ==> m <= xs[i]
  {
    var last := xs[|xs| - 1];
    if |xs| == 1 then last
    else
      var rest := Least(xs[..|xs| - 1]);
      if rest <= last then rest else last
  }

  function Greatest(xs: seq<real>): (m: real)
    requires xs != []
    ensures m in xs && forall i :: 0 <= i < |xs| ==> m >= xs[i]
  {
    var last := xs[|xs| - 1];
    if |xs| == 1 then last
    else
      var rest := Greatest(xs[..|xs| - 1]);
      if rest >= last then rest else last
  }

  function Compute(op: Operator, xs: seq<real>): real
    requires op.Arithmetic() && ArityOk(op, |xs|)
  {
    match op
    case Plus => Sum(xs)
    case Minus => if |xs| == 1 then -xs[0] else xs[0] - xs[1]
    case Times => Product(xs)
    case Min => Least(xs)
    case Max => Greatest(xs)
  }

  /** `_multiply` multiplies as it goes along the arguments. */
  method Multiply(xs: seq<real>) returns (product: real)
    ensures product == Product(xs)
  {
    product := 1.0;
    var i := 0;
    while i < |xs|
      invariant i <= |xs| && product == Product(xs[..i])
    {
      product := product * xs[i];
      assert xs[..i + 1][..i] == xs[..i];
      i := i + 1;
    }
    assert xs[..i] == xs;
  }

  /** The operators that take evaluated arguments. */
  function ApplyOperator(op: Operator, values: seq<Json>): Result<Json, EvalError> {
    if !ArityOk(op, |values|) then Err(Malformed)
    else if op.Equality() then Ok(Bool(Equals(values[0], values[1]) == op.Eq?))
    else if op.In? then Membership(values[0], values[1])
    else if op.Not? then Ok(Bool(!Truthy(values[0])))
    else if op.Comparison() || op.Arithmetic() then
      if !AllNumbers(values) then Err(NotNumbers)
      else if op.Comparison() then Ok(Bool(Pairwise(op, Decimals(values))))
      else Ok(Exactly(Compute(op, Decimals(values))))
    else Err(Malformed)
  }

  // ---------------------------------------------------------------------------
  // Variables
  // ---------------------------------------------------------------------------

  /** `name.split(".")`. */
  function SplitDots(name: string): (parts: seq<string>)
    ensures parts != []
  {
    if name == "" then [""]
    else
      var n := |name| - 1;
      var parts := SplitDots(name[..n]);
      if name[n] == '.' then parts + [""]
      else parts[..|parts| - 1] + [parts[|parts| - 1] + [name[n]]]
  }

  function FieldNamed(fields: seq<Field>, key: string): Option<Json> {
    if fields == [] then None
    else if fields[0].key == key then Some(fields[0].value)
    else FieldNamed(fields[1..], key)
  }

  function Walk(context: Json, parts: seq<string>): Option<Json>
    decreases |parts|
  {
    if parts == [] then Some(context)
    else if !context.Obj? then None
    else
      match FieldNamed(context.fields, parts[0])
      case None => None
      case Some(v) => Walk(v, parts[1..])
  }

  function Lookup(context: Json, name: string): Option<Json> {
    Walk(context, SplitDots(name))
  }

  /** `_lookup` descends one part at a time. */
  method LookupVariable(context: Json, name: string) returns (r: Option<Json>)
    ensures r == Lookup(context, name)
  {
    var parts := SplitDots(name);
    var current := context;
    var i := 0;
    assert parts[0..] == parts;
    while i < |parts|
      invariant i <= |parts|
      invariant Walk(current, parts[i..]) == Lookup(context, name)
    {
      if !current.Obj? { return None; }
      var field := FieldNamed(current.fields, parts[i]);
      if field.None? { return None; }
      assert parts[i..][1..] == parts[i + 1..];
      current := field.value;
      i := i + 1;
    }
    return Some(current);
  }

  // ---------------------------------------------------------------------------
  // The lazy interpreter
  // ---------------------------------------------------------------------------

  /** A result, with the `_evaluate` calls made for it and how deep they nested. */
  datatype Run<T> = Run(value: Result<T, EvalError>, calls: nat, depth: nat)

  function Deeper(x: nat, y: nat): nat { if x > y then x else y }

  /** A call that makes the calls of `inner` and answers `value`. */
  function Around<T, U>(inner: Run<T>, value: Result<U, EvalError>): Run<U> {
    Run(value, 1 + inner.calls, 1 + inner.depth)
  }

  function Both<T, U, V>(a: Run<T>, b: Run<U>, value: Result<V, EvalError>): Run<V> {
    Run(value, a.calls + b.calls, Deeper(a.depth, b.depth))
  }

  function Evaluate(node: Json, context: Json): Run<Json>
    decreases Weight(node), 0
  {
    match node
    case List(items) =>
      var r := EvaluateEach(items, context);
      Around(r, if r.value.Err? then Err(r.value.error) else Ok(List(r.value.value)))
    case Obj(_) =>
      if !IsOperation(node) || OperatorOf(node).None? then Run(Err(Malformed), 1, 1)
      else EvaluateOperator(OperatorOf(node).value, Args(node), context)
    case _ => Run(Ok(node), 1, 1)
  }

  function EvaluateOperator(op: Operator, args: seq<Json>, context: Json): Run<Json>
    decreases WeightAll(args), 2
  {
    if op.Var? then EvaluateVariable(args, context)
    else if op.If? then EvaluateIf(args, context)
    else if op.And? || op.Or? then
      var r := EvaluateUntil(args, context, op.Or?);
      Around(r, if r.value.Err? then Err(r.value.error) else Ok(Bool(r.value.value)))
    else
      var r := EvaluateEach(args, context);
      Around(r, if r.value.Err? then Err(r.value.error) else ApplyOperator(op, r.value.value))
  }

  /** The default is evaluated only when the variable is absent. */
  function EvaluateVariable(args: seq<Json>, context: Json): Run<Json>
    decreases WeightAll(args), 1
  {
    if args == [] || !args[0].Text? then Run(Err(Malformed), 1, 1)
    else
      match Lookup(context, args[0].s)
      case Some(v) => Run(Ok(v), 1, 1)
      case None =>
        if |args| == 2 then (var r := Evaluate(args[1], context); Around(r, r.value))
        else Run(Err(Unavailable), 1, 1)
  }

  /** Only the branch the condition picks is evaluated. */
  function EvaluateIf(args: seq<Json>, context: Json): Run<Json>
    decreases WeightAll(args), 1
  {
    if |args| != 3 then Run(Err(Malformed), 1, 1)
    else
      var condition := Evaluate(args[0], context);
      if condition.value.Err? then Around(condition, condition.value)
      else
        var branch := if Truthy(condition.value.value) then Evaluate(args[1], context) else Evaluate(args[2], context);
        Around(Both(condition, branch, branch.value), branch.value)
  }

  /** Every argument in turn, stopping at the first error. */
  function EvaluateEach(nodes: seq<Json>, context: Json): Run<seq<Json>>
    decreases WeightAll(nodes), 1
  {
    if nodes == [] then Run(Ok([]), 0, 0)
    else
      var first := Evaluate(nodes[0], context);
      if first.value.Err? then Run(Err(first.value.error), first.calls, first.depth)
      else
        var rest := EvaluateEach(nodes[1..], context);
        Both(first, rest, if rest.value.Err? then rest.value else Ok([first.value.value] + rest.value.value))
  }

  /** `any` (`stop` is true) or `all` (`stop` is false): stop at the first argument whose truth is `stop`. */
  function EvaluateUntil(nodes: seq<Json>, context: Json, stop: bool): Run<bool>
    decreases WeightAll(nodes), 1
  {
    if nodes == [] then Run(Ok(!stop), 0, 0)
    else
      var first := Evaluate(nodes[0], context);
      if first.value.Err? then Run(Err(first.value.error), first.calls, first.depth)
      else if Truthy(first.value.value) == stop then Run(Ok(stop), first.calls, first.depth)
      else
        var rest := EvaluateUntil(nodes[1..], context, stop);
        Both(first, rest, rest.value)
  }

  // ---------------------------------------------------------------------------
  // The strict reference: everything is evaluated, numbers are what is written
  // ---------------------------------------------------------------------------

  /** Every argument and every default is given a meaning first; only then do the operators look at them. */
  function Denote(node: Json, context: Json): Result<Json, EvalError>
    decreases Weight(node)
  {
    match node
    case Num(written, _) => Ok(Exactly(written))
    case List(items) =>
      var values := DenoteEach(items, context);
      if values.Err? then Err(values.error) else Ok(List(values.value))
    case Obj(_) =>
      if !IsOperation(node) || OperatorOf(node).None? then Err(Malformed)
      else
        var op := OperatorOf(node).value;
        var values := DenoteEach(Children(node), context);
        if values.Err? then Err(values.error)
        else if op.Var? then DenoteVariable(Args(node), values.value, context)
        else if op.And? then Ok(Bool(forall i :: 0 <= i < |values.value| ==> Truthy(values.value[i])))
        else if op.Or? then Ok(Bool(exists i :: 0 <= i < |values.value| && Truthy(values.value[i])))
        else if op.If? then
          if |values.value| != 3 then Err(Malformed)
          else Ok(if Truthy(values.value[0]) then values.value[1] else values.value[2])
        else ApplyOperator(op, values.value)
    case _ => Ok(node)
  }

  function DenoteVariable(args: seq<Json>, default: seq<Json>, context: Json): Result<Json, EvalError> {
    if args == [] || !args[0].Text? then Err(Malformed)
    else
      match Lookup(context, args[0].s)
      case Some(v) => Ok(v)
      case None => if default != [] then Ok(default[0]) else Err(Unavailable)
  }

  function DenoteEach(nodes: seq<Json>, context: Json): Result<seq<Json>, EvalError>
    decreases WeightAll(nodes)
  {
    if nodes == [] then Ok([])
    else
      var first, rest := Denote(nodes[0], context), DenoteEach(nodes[1..], context);
      if first.Err? then Err(first.error)
      else if rest.Err? then rest
      else Ok([first.value] + rest.value)
  }
}
