/** Strategy conditions: values found on a bar, operands, and trees of atomic conditions. */
module Conditions {
  import opened Prelude

  /** A Python value as the evaluator sees it; a text remembers the number that float() reads from it. */
  datatype Value =
    | Null
    | Boolean(truth: bool)
    | Number(number: real)
    | NaN
    | Text(text: string, reading: Option<real>)
    | List(items: seq<Value>)

  type Bar = map<string, Value>

  datatype Operand =
    | Column(key: string, sources: seq<string>, name: string)
    | Literal(value: Value, name: string)

  datatype Operator =
    | Exists | Missing | IsTrue | IsFalse
    | Between | NotBetween
    | Less | Greater | LessOrEqual | GreaterOrEqual | Equal | NotEqual
    | CrossesAbove | CrossesBelow
    | UnknownOperator

  datatype Condition = Condition(left: Operand, operator: Operator, right: Option<Operand>)

  datatype Group =
    | All(children: seq<Group>)
    | Any(children: seq<Group>)
    | Not(children: seq<Group>)
    | Leaf(condition: Option<Condition>)
    | UnknownKind

  // ---------------------------------------------------------------------------------------
  // Operands
  // ---------------------------------------------------------------------------------------

  predicate Present(v: Value) {
    v != Null && v != NaN
  }

  function Lookup(bar: Bar, key: string): Value {
    if key in bar then bar[key] else Null
  }

  /** The first source with a usable value. */
  function FirstPresent(sources: seq<string>, bar: Bar): Value {
    if sources == [] then Null
    else if Present(Lookup(bar, sources[0])) then Lookup(bar, sources[0])
    else FirstPresent(sources[1..], bar)
  }

  function Resolve(operand: Operand, bar: Bar): Value {
    match operand
    case Column(key, sources, _) =>
      if Present(Lookup(bar, key)) then Lookup(bar, key) else FirstPresent(sources, bar)
    case Literal(value, _) => value
  }

  function ToFloat(v: Value): Option<real> {
    match v
    case Number(r) => Some(r)
    case Text(_, reading) => reading
    case _ => None
  }

  predicate Truthy(v: Value) {
    match v
    case Null => false
    case Boolean(truth) => truth
    case Number(r) => r != 0.0
    case NaN => true
    case Text(text, _) => text != ""
    case List(items) => items != []
  }

  // ---------------------------------------------------------------------------------------
  // Atomic conditions other than crossovers
  // ---------------------------------------------------------------------------------------

  predicate IsBetween(left: Value, right: Value) {
    && ToFloat(left).Some? && right.List? && |right.items| == 2
    && ToFloat(right.items[0]).Some? && ToFloat(right.items[1]).Some?
    && ToFloat(right.items[0]).value <= ToFloat(left).value <= ToFloat(right.items[1]).value
  }

  const TOLERANCE := 0.000000001

  predicate Compare(left: real, operator: Operator, right: real) {
    var distance := if left < right then right - left else left - right;
    match operator
    case Less => left < right
    case Greater => left > right
    case LessOrEqual => left <= right
    case GreaterOrEqual => left >= right
    case Equal => distance < TOLERANCE
    case NotEqual => distance >= TOLERANCE
    case _ => false
  }

  predicate IsCrossover(c: Condition) {
    (c.operator == CrossesAbove || c.operator == CrossesBelow) && c.right.Some?
  }

  /** The value of a condition that is not a crossover; it depends on the current bar alone. */
  predicate PlainHolds(c: Condition, bar: Bar) {
    var left := Resolve(c.left, bar);
    match c.operator
    case Exists => left != Null
    case Missing => left == Null
    case IsTrue => Truthy(left)
    case IsFalse => !Truthy(left)
    case _ =>
      c.right.Some? &&
      var right := Resolve(c.right.value, bar);
      if c.operator == Between then IsBetween(left, right)
      else if c.operator == NotBetween then !IsBetween(left, right)
      else
        && ToFloat(left).Some? && ToFloat(right).Some?
        && Compare(ToFloat(left).value, c.operator, ToFloat(right).value)
  }

  // ---------------------------------------------------------------------------------------
  // Crossovers
  // ---------------------------------------------------------------------------------------

  /** Both operands of a crossover as numbers, if both are numeric on this bar. */
  function Pair(c: Condition, bar: Bar): (pair: Option<(real, real)>)
    ensures pair.Some? ==> IsCrossover(c)
  {
    if !IsCrossover(c) then None
    else
      match (ToFloat(Resolve(c.left, bar)), ToFloat(Resolve(c.right.value, bar)))
      case (Some(left), Some(right)) => Some((left, right))
      case _ => None
  }

  /** Whether moving from one pair of values to the next is the crossing that the operator names. */
  predicate Fires(operator: Operator, before: (real, real), now: (real, real)) {
    match operator
    case CrossesAbove => before.0 <= before.1 && now.0 > now.1
    case CrossesBelow => before.0 >= before.1 && now.0 < now.1
    case _ => false
  }

  const SEPARATOR := '\U{1F}'

  function OperatorName(operator: Operator): string {
    match operator
    case CrossesAbove => "crosses_above"
    case CrossesBelow => "crosses_below"
    case _ => ""
  }

  function Join(first: string, rest: string): string {
    first + [SEPARATOR] + rest
  }

  function CrossoverKey(left: string, right: string, operator: Operator): string {
    Join(left, Join(right, OperatorName(operator)))
  }

  function Key(c: Condition): string
    requires IsCrossover(c)
  {
    CrossoverKey(c.left.name, c.right.value.name, c.operator)
  }

  /** Splitting at the first separator is unambiguous when what precedes it holds none. */
  lemma SplitIsUnique(a: string, b: string, x: string, y: string)
    requires SEPARATOR !in a && SEPARATOR !in b
    requires Join(a, x) == Join(b, y)
    ensures a == b && x == y
  {
    var s := Join(a, x);
    assert s[|a|] == SEPARATOR && s[|b|] == SEPARATOR;
    assert forall i :: 0 <= i < |a| ==> s[i] == a[i] && a[i] in a;
    assert forall i :: 0 <= i < |b| ==> s[i] == b[i] && b[i] in b;
    assert |a| == |b|;
    assert a == s[..|a|] == b;
    assert x == s[|a| + 1..] == y;
  }

  /** Labels without the separator never share a key unless labels and operator are the same. */
  lemma KeyIsInjective(l: string, r: string, o: Operator, l': string, r': string, o': Operator)
    requires SEPARATOR !in l && SEPARATOR !in r && SEPARATOR !in l' && SEPARATOR !in r'
    requires o in {CrossesAbove, CrossesBelow} && o' in {CrossesAbove, CrossesBelow}
    requires CrossoverKey(l, r, o) == CrossoverKey(l', r', o')
    ensures l == l' && r == r' && o == o'
  {
    NamesDiffer(o, o');
    hide OperatorName, Join;
    SplitIsUnique(l, l', Join(r, OperatorName(o)), Join(r', OperatorName(o')));
    SplitIsUnique(r, r', OperatorName(o), OperatorName(o'));
  }

  lemma NamesDiffer(o: Operator, o': Operator)
    requires o in {CrossesAbove, CrossesBelow} && o' in {CrossesAbove, CrossesBelow}
    ensures OperatorName(o) == OperatorName(o') ==> o == o'
  {
    assert OperatorName(CrossesAbove)[8] != OperatorName(CrossesBelow)[8];
  }

  // ---------------------------------------------------------------------------------------
  // Trees
  // ---------------------------------------------------------------------------------------

  /** The crossovers of a tree, in the order in which both passes reach them. */
  function Crossovers(g: Group): seq<Condition>
    decreases g, 1
  {
    match g
    case All(children) => CrossoversIn(children)
    case Any(children) => CrossoversIn(children)
    case Not(children) => if children == [] then [] else Crossovers(children[0])
    case Leaf(Some(c)) => if IsCrossover(c) then [c] else []
    case _ => []
  }

  function CrossoversIn(children: seq<Group>): seq<Condition>
    decreases children, 0
  {
    if children == [] then [] else Crossovers(children[0]) + CrossoversIn(children[1..])
  }

  /**
   * Labels determine operands: two crossovers with the same labels and operator compare the same
   * operands, and no label contains the separator.
   */
  ghost predicate WellLabelled(crossovers: seq<Condition>) {
    && (forall c :: c in crossovers ==>
          IsCrossover(c) && SEPARATOR !in c.left.name && SEPARATOR !in c.right.value.name)
    && (forall c, d :: c in crossovers && d in crossovers && SameLabels(c, d) ==> c == d)
  }

  predicate SameLabels(c: Condition, d: Condition) {
    && c.left.name == d.left.name && c.operator == d.operator
    && c.right.Some? && d.right.Some? && c.right.value.name == d.right.value.name
  }

  lemma SameKeySameCrossover(crossovers: seq<Condition>, c: Condition, d: Condition)
    requires WellLabelled(crossovers) && c in crossovers && d in crossovers
    requires Key(c) == Key(d)
    ensures c == d
  {
    KeyIsInjective(c.left.name, c.right.value.name, c.operator, d.left.name, d.right.value.name, d.operator);
    assert SameLabels(c, d);
  }
}
