/**
 Rule conditions as JSON trees: literals, the operator and variable tables, the types a condition's
 parts can have, the size and depth of a tree, and the compile pass that makes numbers exact.
 */
module RuleSyntax {
  import opened Wrappers

  /**
   A JSON value, or a value computed from one. A number has the value it is written with and the value
   of the Python object holding it; they differ only for a binary float such as 0.1.
   */
  datatype Json =
    | Null
    | Bool(b: bool)
    | Num(written: real, exact: real)
    | NonFinite
    | Text(s: string)
    | List(items: seq<Json>)
    | Obj(fields: seq<Field>)

  datatype Field = Field(key: string, value: Json)

  function Exactly(x: real): Json { Num(x, x) }

  /** A termination measure that also decreases into an operator's arguments. */
  function Weight(node: Json): nat {
    match node
    case List(items) => 1 + WeightAll(items)
    case Obj(fields) => 2 + WeightFields(fields)
    case _ => 1
  }

  function WeightAll(nodes: seq<Json>): (w: nat)
    ensures forall n :: n in nodes ==> Weight(n) < w
  {
    if nodes == [] then 0
    else
      assert nodes == [nodes[0]] + nodes[1..];
      1 + Weight(nodes[0]) + WeightAll(nodes[1..])
  }

  function WeightFields(fields: seq<Field>): nat {
    if fields == [] then 0 else 1 + Weight(fields[0].value) + WeightFields(fields[1..])
  }

  // ---------------------------------------------------------------------------
  // Operators
  // ---------------------------------------------------------------------------

  datatype Operator = Eq | Ne | Gt | Ge | Lt | Le | Not | In | Plus | Minus | Times | Min | Max | And | Or | If | Var {
    predicate Arithmetic() { Plus? || Minus? || Times? || Min? || Max? }
    predicate Comparison() { Gt? || Ge? || Lt? || Le? }
    predicate Logical() { And? || Or? || Not? }
    predicate Equality() { Eq? || Ne? }
  }

  const OPERATORS: map<string, Operator> := map[
    "==" := Eq, "!=" := Ne, ">" := Gt, ">=" := Ge, "<" := Lt, "<=" := Le, "!" := Not, "in" := In, "+" := Plus,
    "-" := Minus, "*" := Times, "min" := Min, "max" := Max, "and" := And, "or" := Or, "if" := If, "var" := Var]

  /** The arity columns of the operator tables; `+`, `*`, `min`, `max`, `and` and `or` have no upper bound. */
  predicate ArityOk(op: Operator, n: nat) {
    match op
    case Eq | Ne | Gt | Ge | In => n == 2
    case Lt | Le => 2 <= n <= 3
    case Not => n == 1
    case Minus | Var => 1 <= n <= 2
    case If => n == 3
    case Plus | Times | Min | Max | And | Or => n >= 1
  }

  predicate IsOperation(node: Json) {
    node.Obj? && |node.fields| == 1
  }

  /** The arguments of a one-key object: its list, or its bare value as a list of one. */
  function Args(node: Json): (args: seq<Json>)
    requires IsOperation(node)
    ensures WeightAll(args) < Weight(node)
    ensures forall a :: a in args ==> Weight(a) < Weight(node)
  {
    var v := node.fields[0].value;
    assert WeightFields(node.fields) == 1 + Weight(v) + WeightFields(node.fields[1..]);
    if v.List? then v.items
    else
      assert WeightAll([v]) == 1 + Weight(v);
      [v]
  }

  function OperatorOf(node: Json): Option<Operator>
    requires IsOperation(node)
  {
    if node.fields[0].key in OPERATORS then Some(OPERATORS[node.fields[0].key]) else None
  }

  // ---------------------------------------------------------------------------
  // Types
  // ---------------------------------------------------------------------------

  /** The element type of an empty list is None. */
  datatype Ty = TNumber | TText | TBoolean | TNull | TList(element: Option<Ty>)

  /** What `var` may name: fields of the event, and the two look-back figures. */
  datatype Variable =
    | Amount | Currency | Category | PriorCount | PriorAmount | Channel | Country
    | Distance | Minutes | Spend | NewMerchant | Travelling
  {
    function Spelling(): string {
      match this
      case Amount => "amount"
      case Currency => "currency"
      case Category => "category"
      case PriorCount => "velocity" + "." + "prior_count"
      case PriorAmount => "velocity" + "." + "prior_amount"
      case Channel => "channel"
      case Country => "country"
      case Distance => "enrichment" + "." + "distance_from_last_tx_km"
      case Minutes => "enrichment" + "." + "minutes_since_last_tx"
      case Spend => "enrichment" + "." + "user_historical_avg_spend"
      case NewMerchant => "enrichment" + "." + "is_new_merchant_for_user"
      case Travelling => "enrichment" + "." + "is_travel_itinerary_active"
    }

    function Ty(): Ty {
      match this
      case Amount | PriorCount | PriorAmount | Distance | Minutes | Spend => TNumber
      case Currency | Category | Channel | Country => TText
      case NewMerchant | Travelling => TBoolean
    }

    predicate Required() { Amount? || Currency? || Category? || PriorCount? || PriorAmount? }
  }

  const VARIABLES: seq<Variable> :=
    [Amount, Currency, Category, PriorCount, PriorAmount, Channel, Country, Distance, Minutes, Spend, NewMerchant, Travelling]

  function FirstSpelled(candidates: seq<Variable>, name: string): (r: Option<Variable>)
    ensures r.Some? ==> r.value.Spelling() == name && r.value in candidates
    ensures r.None? ==> forall v :: v in candidates ==> v.Spelling() != name
  {
    if candidates == [] then None
    else if candidates[0].Spelling() == name then Some(candidates[0])
    else FirstSpelled(candidates[1..], name)
  }

  /** The declared variable of this name, if there is one. */
  function VariableNamed(name: string): Option<Variable> {
    FirstSpelled(VARIABLES, name)
  }

  const LIST_OF := "a list of "

  /** The source represents a type by the text it reports it with, and compares those texts. */
  function TypeName(t: Ty): string {
    match t
    case TNumber => "a number"
    case TText => "text"
    case TBoolean => "true/false"
    case TNull => "null"
    case TList(None) => LIST_OF + "anything"
    case TList(Some(e)) => LIST_OF + TypeName(e)
  }

  /** "a list of anything" can only be an empty list: no type is itself called "anything". */
  lemma NoTypeIsAnything(t: Ty)
    ensures TypeName(t) != "anything"
  {
    assert TypeName(t)[1] == (match t case TNumber => ' ' case TText => 'e' case TBoolean => 'r' case TNull => 'u' case TList(_) => ' ');
  }

  /**
   Comparing, prefix-testing and prefix-stripping those texts decides the same as comparing the types:
   a text starts with "a list of " iff it names a list type, and what follows names the element type.
   */
  lemma {:induction false} TypeNamesAreFaithful(t: Ty, u: Ty)
    ensures TypeName(t) == TypeName(u) <==> t == u
    ensures LIST_OF <= TypeName(t) <==> t.TList?
    ensures t.TList? ==> TypeName(t)[|LIST_OF|..] == if t.element.None? then "anything" else TypeName(t.element.value)
  {
    var x, y := TypeName(t), TypeName(u);
    assert |x| > 2 && |y| > 2;
    assert t.TList? ==> x[..|LIST_OF|] == LIST_OF;
    assert x[2] == (match t case TNumber => 'n' case TText => 'x' case TBoolean => 'u' case TNull => 'l' case TList(_) => 'l');
    assert y[2] == (match u case TNumber => 'n' case TText => 'x' case TBoolean => 'u' case TNull => 'l' case TList(_) => 'l');
    assert x[0] == (match t case TNumber => 'a' case TText => 't' case TBoolean => 't' case TNull => 'n' case TList(_) => 'a');
    assert y[0] == (match u case TNumber => 'a' case TText => 't' case TBoolean => 't' case TNull => 'n' case TList(_) => 'a');
    if t.TList? && u.TList? {
      assert x[|LIST_OF|..] == if t.element.None? then "anything" else TypeName(t.element.value);
      assert y[|LIST_OF|..] == if u.element.None? then "anything" else TypeName(u.element.value);
      if t.element.Some? && u.element.Some? {
        TypeNamesAreFaithful(t.element.value, u.element.value);
      } else if t.element.Some? {
        NoTypeIsAnything(t.element.value);
      } else if u.element.Some? {
        NoTypeIsAnything(u.element.value);
      }
    }
  }

  // ---------------------------------------------------------------------------
  // Size and depth: the nodes the checker visits
  // ---------------------------------------------------------------------------

  const MAX_NODES: nat := 400
  const MAX_DEPTH: nat := 24

  /** A variable's name is not a node of its own; its default is. */
  function Children(node: Json): (c: seq<Json>)
    ensures WeightAll(c) < Weight(node)
  {
    if node.List? then node.items
    else if !IsOperation(node) then []
    else if OperatorOf(node) == Some(Var) then
      if |Args(node)| == 2 then
        assert Args(node) == [Args(node)[0]] + [Args(node)[1]] && Args(node)[1..] == [Args(node)[1]];
        [Args(node)[1]]
      else []
    else Args(node)
  }

  function Size(node: Json): nat
    decreases Weight(node)
  {
    1 + SizeAll(Children(node))
  }

  function SizeAll(nodes: seq<Json>): nat
    decreases WeightAll(nodes)
  {
    if nodes == [] then 0 else Size(nodes[0]) + SizeAll(nodes[1..])
  }

  function Depth(node: Json): nat
    decreases Weight(node)
  {
    1 + DepthAll(Children(node))
  }

  function DepthAll(nodes: seq<Json>): nat
    decreases WeightAll(nodes)
  {
    if nodes == [] then 0
    else
      var first, rest := Depth(nodes[0]), DepthAll(nodes[1..]);
      if first > rest then first else rest
  }

  // ---------------------------------------------------------------------------
  // The compile pass
  // ---------------------------------------------------------------------------

  /** Convert JSON numbers to Decimal: afterwards every number is exactly what was written. */
  function Normalise(node: Json): (n: Json)
    ensures node.List? <==> n.List?
    ensures IsOperation(node) <==> IsOperation(n)
  {
    match node
    case Num(written, _) => Exactly(written)
    case List(items) => List(NormaliseAll(items))
    case Obj(fields) => Obj(NormaliseFields(fields))
    case _ => node
  }

  function NormaliseAll(nodes: seq<Json>): (r: seq<Json>)
    ensures |r| == |nodes|
    ensures forall i :: 0 <= i < |nodes| ==> r[i] == Normalise(nodes[i])
  {
    if nodes == [] then [] else [Normalise(nodes[0])] + NormaliseAll(nodes[1..])
  }

  function NormaliseFields(fields: seq<Field>): (r: seq<Field>)
    ensures |r| == |fields|
    ensures forall i :: 0 <= i < |fields| ==> r[i] == Field(fields[i].key, Normalise(fields[i].value))
  {
    if fields == [] then [] else [Field(fields[0].key, Normalise(fields[0].value))] + NormaliseFields(fields[1..])
  }

  lemma NormalisedField(node: Json)
    requires IsOperation(node)
    ensures Normalise(node).fields[0] == Field(node.fields[0].key, Normalise(node.fields[0].value))
  {
  }

  lemma NormaliseOne(node: Json)
    ensures NormaliseAll([node]) == [Normalise(node)]
  {
  }

  /** Compiling touches neither the operator nor the number of its arguments. */
  lemma NormalisedOperation(node: Json)
    requires IsOperation(node)
    ensures OperatorOf(Normalise(node)) == OperatorOf(node)
    ensures Args(Normalise(node)) == NormaliseAll(Args(node))
  {
    var v := node.fields[0].value;
    NormalisedField(node);
    if !v.List? { NormaliseOne(v); }
  }

  lemma NormalisedChildren(node: Json)
    ensures Children(Normalise(node)) == NormaliseAll(Children(node))
  {
    if IsOperation(node) {
      NormalisedOperation(node);
      var args := Args(node);
      if OperatorOf(node) == Some(Var) && |args| == 2 {
        NormaliseOne(args[1]);
        assert Args(Normalise(node))[1] == Normalise(args[1]);
      }
    }
  }

  /** Compiling keeps the size and the depth. */
  lemma {:induction false} NormaliseKeepsShape(node: Json)
    ensures Size(Normalise(node)) == Size(node) && Depth(Normalise(node)) == Depth(node)
    decreases Weight(node)
  {
    NormalisedChildren(node);
    NormaliseAllKeepsShape(Children(node));
  }

  lemma {:induction false} NormaliseAllKeepsShape(nodes: seq<Json>)
    ensures SizeAll(NormaliseAll(nodes)) == SizeAll(nodes) && DepthAll(NormaliseAll(nodes)) == DepthAll(nodes)
    decreases WeightAll(nodes)
  {
    if nodes != [] {
      NormaliseKeepsShape(nodes[0]);
      NormaliseAllKeepsShape(nodes[1..]);
      assert NormaliseAll(nodes)[1..] == NormaliseAll(nodes[1..]);
    }
  }
}
