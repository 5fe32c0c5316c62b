/**
 * The two-pass evaluation of a condition tree against one bar.  Pass 1 records the operand values
 * of every crossover; pass 2 computes the boolean with short-circuiting, recording again what it
 * happens to visit.  Both dictionaries are objects that the methods update in place.
 */
module ConditionEvaluator {
  import opened Prelude
  import opened Conditions

  /** Last numeric operand values by crossover key. */
  type Values = map<string, (real, real)>

  class ValueDict {
    var entries: Values

    constructor ()
      ensures entries == map[]
    {
      entries := map[];
    }
  }

  // ---------------------------------------------------------------------------------------
  // Pass 1
  // ---------------------------------------------------------------------------------------

  /** What one crossover contributes to the recorded values: its pair, if both operands are numeric. */
  function Record(c: Condition, bar: Bar, m: Values): Values {
    match Pair(c, bar)
    case None => m
    case Some(pair) => m[Key(c) := pair]
  }

  function Recorded(crossovers: seq<Condition>, bar: Bar, m: Values): Values {
    if crossovers == [] then m
    else Recorded(crossovers[1..], bar, Record(crossovers[0], bar, m))
  }

  lemma {:induction false} RecordedAppends(a: seq<Condition>, b: seq<Condition>, bar: Bar, m: Values)
    ensures Recorded(a + b, bar, m) == Recorded(b, bar, Recorded(a, bar, m))
  {
    if a == [] {
      assert a + b == b;
    } else {
      assert (a + b)[1..] == a[1..] + b;
      RecordedAppends(a[1..], b, bar, Record(a[0], bar, m));
    }
  }

  lemma {:induction false} CrossoversAppend(a: seq<Group>, b: seq<Group>)
    ensures CrossoversIn(a + b) == CrossoversIn(a) + CrossoversIn(b)
  {
    if a == [] {
      assert a + b == b;
    } else {
      assert (a + b)[1..] == a[1..] + b;
      CrossoversAppend(a[1..], b);
    }
  }

  lemma CrossoversNext(children: seq<Group>, i: nat)
    requires i < |children|
    ensures CrossoversIn(children[..i + 1]) == CrossoversIn(children[..i]) + Crossovers(children[i])
  {
    assert children[..i + 1] == children[..i] + [children[i]];
    CrossoversAppend(children[..i], [children[i]]);
    assert CrossoversIn([children[i]]) == Crossovers(children[i]) + CrossoversIn([]);
  }

  method CollectCrossover(c: Condition, bar: Bar, pending: ValueDict)
    modifies pending
    ensures pending.entries == Record(c, bar, old(pending.entries))
  {
    if c.operator != CrossesAbove && c.operator != CrossesBelow {
      return;
    }
    if c.right.None? {
      return;
    }
    var left := ToFloat(Resolve(c.left, bar));
    var right := ToFloat(Resolve(c.right.value, bar));
    if left.None? || right.None? {
      return;
    }
    var key := CrossoverKey(c.left.name, c.right.value.name, c.operator);
    pending.entries := pending.entries[key := (left.value, right.value)];
  }

  method CollectState(g: Group, bar: Bar, pending: ValueDict)
    modifies pending
    ensures pending.entries == Recorded(Crossovers(g), bar, old(pending.entries))
    decreases g, 1
  {
    match g
    case All(children) =>
      CollectChildren(children, bar, pending);
    case Any(children) =>
      CollectChildren(children, bar, pending);
    case Not(children) =>
      if children != [] {
        CollectState(children[0], bar, pending);
      }
    case Leaf(condition) =>
      if condition.Some? {
        CollectCrossover(condition.value, bar, pending);
        RecordedOne(condition.value, bar, old(pending.entries));
      }
    case UnknownKind =>
  }

  lemma {:induction false} RecordedOne(c: Condition, bar: Bar, m: Values)
    ensures Recorded(Crossovers(Leaf(Some(c))), bar, m) == Record(c, bar, m)
  {
    assert Recorded([], bar, Record(c, bar, m)) == Record(c, bar, m);
  }

  method CollectChildren(children: seq<Group>, bar: Bar, pending: ValueDict)
    modifies pending
    ensures pending.entries == Recorded(CrossoversIn(children), bar, old(pending.entries))
    decreases children, 0
  {
    for i := 0 to |children|
      invariant pending.entries == Recorded(CrossoversIn(children[..i]), bar, old(pending.entries))
    {
      CrossoversNext(children, i);
      RecordedAppends(CrossoversIn(children[..i]), Crossovers(children[i]), bar, old(pending.entries));
      CollectState(children[i], bar, pending);
    }
    assert children[..|children|] == children;
  }

  function Find(m: Values, key: string): Option<(real, real)> {
    if key in m then Some(m[key]) else None
  }

  /** The pair of the last numeric crossover with the given key. */
  function LastPair(crossovers: seq<Condition>, bar: Bar, key: string): Option<(real, real)> {
    if crossovers == [] then None
    else
      var later := LastPair(crossovers[1..], bar, key);
      if later.Some? then later
      else if Pair(crossovers[0], bar).Some? && Key(crossovers[0]) == key then Pair(crossovers[0], bar)
      else None
  }

  lemma {:induction false} LastPairIsSomeones(crossovers: seq<Condition>, bar: Bar, key: string)
    ensures LastPair(crossovers, bar, key).Some? ==>
      exists c :: c in crossovers && Pair(c, bar) == LastPair(crossovers, bar, key) && Key(c) == key
    ensures LastPair(crossovers, bar, key).None? ==>
      forall c :: c in crossovers && Pair(c, bar).Some? ==> Key(c) != key
  {
    hide Pair, Key;
    if crossovers != [] {
      LastPairIsSomeones(crossovers[1..], bar, key);
      assert crossovers[0] in crossovers;
      assert forall c :: c in crossovers <==> c == crossovers[0] || c in crossovers[1..];
    }
  }

  /** Under every key, recording leaves the last numeric pair, and what was there before if there is none. */
  lemma {:induction false} RecordedLast(crossovers: seq<Condition>, bar: Bar, m: Values, key: string)
    ensures Find(Recorded(crossovers, bar, m), key)
         == if LastPair(crossovers, bar, key).Some? then LastPair(crossovers, bar, key) else Find(m, key)
  {
    if crossovers != [] {
      RecordedLast(crossovers[1..], bar, Record(crossovers[0], bar, m), key);
    }
  }

  /** Every numeric crossover finds its own pair. */
  ghost predicate Absorbed(crossovers: seq<Condition>, bar: Bar, m: Values) {
    forall c :: c in crossovers && Pair(c, bar).Some? ==> Key(c) in m && m[Key(c)] == Pair(c, bar).value
  }

  /** Crossovers that share a key and are both numeric on the bar read the same pair there. */
  ghost predicate NoClash(crossovers: seq<Condition>, bar: Bar) {
    forall c, d :: c in crossovers && d in crossovers && Pair(c, bar).Some? && Pair(d, bar).Some? && Key(c) == Key(d) ==>
      Pair(c, bar) == Pair(d, bar)
  }

  /** Pass 1 leaves each numeric crossover with its own pair exactly when no two of them clash. */
  lemma {:induction false} RecordedAbsorbs(crossovers: seq<Condition>, bar: Bar, m: Values)
    ensures Absorbed(crossovers, bar, Recorded(crossovers, bar, m)) <==> NoClash(crossovers, bar)
  {
    hide Pair, Key, Recorded;
    forall c | c in crossovers && Pair(c, bar).Some?
      ensures var recorded := Recorded(crossovers, bar, m);
        && Key(c) in recorded
        && exists d :: d in crossovers && Pair(d, bar) == Some(recorded[Key(c)]) && Key(d) == Key(c)
    {
      RecordedLast(crossovers, bar, m, Key(c));
      LastPairIsSomeones(crossovers, bar, Key(c));
    }
  }

  /** Labels that determine operands, free of the separator, never let crossovers clash. */
  lemma WellLabelledNeverClash(crossovers: seq<Condition>, bar: Bar)
    requires WellLabelled(crossovers)
    ensures NoClash(crossovers, bar)
  {
    hide Key;
    forall c, d | c in crossovers && d in crossovers && Pair(c, bar).Some? && Pair(d, bar).Some? && Key(c) == Key(d)
      ensures Pair(c, bar) == Pair(d, bar)
    {
      SameKeySameCrossover(crossovers, c, d);
    }
  }

  /** Recording what is already recorded changes nothing. */
  lemma {:induction false} RecordingAgain(crossovers: seq<Condition>, bar: Bar, m: Values)
    requires Absorbed(crossovers, bar, m)
    ensures Recorded(crossovers, bar, m) == m
  {
    if crossovers != [] {
      assert crossovers[0] in crossovers;
      assert Record(crossovers[0], bar, m) == m;
      RecordingAgain(crossovers[1..], bar, m);
    }
  }

  // ---------------------------------------------------------------------------------------
  // Pass 2
  // ---------------------------------------------------------------------------------------

  /** Result of a crossover test and the values recorded by it. */
  function Crossed(c: Condition, pair: (real, real), previous: Values, pending: Values): (bool, Values)
    requires IsCrossover(c)
  {
    var fired := Key(c) in previous && Fires(c.operator, previous[Key(c)], pair);
    (fired, pending[Key(c) := pair])
  }

  function EvaluatedCondition(c: Condition, bar: Bar, previous: Values, pending: Values): (bool, Values) {
    if IsCrossover(c) then
      match Pair(c, bar)
      case None => (false, pending)
      case Some(pair) => Crossed(c, pair, previous, pending)
    else (PlainHolds(c, bar), pending)
  }

  /** Short-circuiting evaluation, threading the recorded values through exactly the visited nodes. */
  function Evaluated(g: Group, bar: Bar, previous: Values, pending: Values): (bool, Values)
    decreases g, 1
  {
    match g
    case All(children) => EvaluatedUntil(false, children, bar, previous, pending)
    case Any(children) => EvaluatedUntil(true, children, bar, previous, pending)
    case Not(children) =>
      if children == [] then (false, pending)
      else
        var (inner, pending') := Evaluated(children[0], bar, previous, pending);
        (!inner, pending')
    case Leaf(Some(c)) => EvaluatedCondition(c, bar, previous, pending)
    case _ => (false, pending)
  }

  /** Children in order until one evaluates to `stop`; the result is whether one did, adjusted to it. */
  function EvaluatedUntil(stop: bool, children: seq<Group>, bar: Bar, previous: Values, pending: Values): (bool, Values)
    decreases children, 0
  {
    if children == [] then (!stop, pending)
    else
      var (first, pending') := Evaluated(children[0], bar, previous, pending);
      if first == stop then (stop, pending')
      else EvaluatedUntil(stop, children[1..], bar, previous, pending')
  }

  method EvaluateCondition(c: Condition, bar: Bar, previous: ValueDict, pending: ValueDict) returns (result: bool)
    requires previous != pending
    modifies pending
    ensures (result, pending.entries) == EvaluatedCondition(c, bar, previous.entries, old(pending.entries))
  {
    if !IsCrossover(c) {
      return PlainHolds(c, bar);
    }
    var left := ToFloat(Resolve(c.left, bar));
    var right := ToFloat(Resolve(c.right.value, bar));
    if left.None? || right.None? {
      return false;
    }
    var key := Key(c);
    pending.entries := pending.entries[key := (left.value, right.value)];
    if key !in previous.entries {
      return false;
    }
    var (previousLeft, previousRight) := previous.entries[key];
    if c.operator == CrossesAbove {
      return previousLeft <= previousRight && left.value > right.value;
    }
    return previousLeft >= previousRight && left.value < right.value;
  }

  method EvaluateBool(g: Group, bar: Bar, previous: ValueDict, pending: ValueDict) returns (result: bool)
    requires previous != pending
    modifies pending
    ensures (result, pending.entries) == Evaluated(g, bar, previous.entries, old(pending.entries))
    decreases g, 1
  {
    match g
    case All(children) =>
      result := EvaluateUntil(false, children, bar, previous, pending);
    case Any(children) =>
      result := EvaluateUntil(true, children, bar, previous, pending);
    case Not(children) =>
      if children == [] {
        return false;
      }
      var inner := EvaluateBool(children[0], bar, previous, pending);
      return !inner;
    case Leaf(condition) =>
      if condition.None? {
        return false;
      }
      result := EvaluateCondition(condition.value, bar, previous, pending);
    case UnknownKind =>
      return false;
  }

  method EvaluateUntil(stop: bool, children: seq<Group>, bar: Bar, previous: ValueDict, pending: ValueDict)
    returns (result: bool)
    requires previous != pending
    modifies pending
    ensures (result, pending.entries) == EvaluatedUntil(stop, children, bar, previous.entries, old(pending.entries))
    decreases children, 0
  {
    for i := 0 to |children|
      invariant EvaluatedUntil(stop, children[i..], bar, previous.entries, pending.entries)
             == EvaluatedUntil(stop, children, bar, previous.entries, old(pending.entries))
    {
      assert children[i..][1..] == children[i + 1..];
      var child := EvaluateBool(children[i], bar, previous, pending);
      if child == stop {
        return stop;
      }
    }
    return !stop;
  }

  /** The boolean meaning of a tree, every node evaluated and nothing recorded. */
  ghost predicate Holds(g: Group, bar: Bar, previous: Values) {
    match g
    case All(children) => forall i :: 0 <= i < |children| ==> Holds(children[i], bar, previous)
    case Any(children) => exists i :: 0 <= i < |children| && Holds(children[i], bar, previous)
    case Not(children) => children != [] && !Holds(children[0], bar, previous)
    case Leaf(Some(c)) => ConditionHolds(c, bar, previous)
    case _ => false
  }

  predicate ConditionHolds(c: Condition, bar: Bar, previous: Values) {
    if IsCrossover(c) then
      && Pair(c, bar).Some?
      && Key(c) in previous
      && Fires(c.operator, previous[Key(c)], Pair(c, bar).value)
    else PlainHolds(c, bar)
  }

  /** Short-circuiting is invisible in the result, for every tree and whatever has been recorded. */
  lemma {:induction false} ShortCircuitKeepsResult(g: Group, bar: Bar, previous: Values, pending: Values)
    ensures Evaluated(g, bar, previous, pending).0 == Holds(g, bar, previous)
    decreases g, 1
  {
    match g
    case All(children) => ShortCircuitUntil(false, children, bar, previous, pending);
    case Any(children) => ShortCircuitUntil(true, children, bar, previous, pending);
    case Not(children) =>
      if children != [] {
        ShortCircuitKeepsResult(children[0], bar, previous, pending);
      }
    case Leaf(_) =>
    case UnknownKind =>
  }

  lemma {:induction false} ShortCircuitUntil(stop: bool, children: seq<Group>, bar: Bar, previous: Values, pending: Values)
    ensures EvaluatedUntil(stop, children, bar, previous, pending).0 == stop <==>
            exists i :: 0 <= i < |children| && Holds(children[i], bar, previous) == stop
    decreases children, 0
  {
    if children != [] {
      var (first, pending') := Evaluated(children[0], bar, previous, pending);
      ShortCircuitKeepsResult(children[0], bar, previous, pending);
      ShortCircuitUntil(stop, children[1..], bar, previous, pending');
      if first != stop {
        assert forall i :: 0 < i < |children| ==> children[i] == children[1..][i - 1];
      }
    }
  }

  /** Pass 2 leaves alone what pass 1 has recorded. */
  lemma {:induction false} EvaluationAddsNothing(g: Group, bar: Bar, previous: Values, pending: Values)
    requires Absorbed(Crossovers(g), bar, pending)
    ensures Evaluated(g, bar, previous, pending).1 == pending
    decreases g, 1
  {
    match g
    case All(children) => UntilAddsNothing(false, children, bar, previous, pending);
    case Any(children) => UntilAddsNothing(true, children, bar, previous, pending);
    case Not(children) =>
      if children != [] {
        EvaluationAddsNothing(children[0], bar, previous, pending);
      }
    case Leaf(Some(c)) =>
      if IsCrossover(c) {
        assert c in Crossovers(g);
      }
    case _ =>
  }

  lemma {:induction false} UntilAddsNothing(stop: bool, children: seq<Group>, bar: Bar, previous: Values, pending: Values)
    requires Absorbed(CrossoversIn(children), bar, pending)
    ensures EvaluatedUntil(stop, children, bar, previous, pending).1 == pending
    decreases children, 0
  {
    if children != [] {
      EvaluationAddsNothing(children[0], bar, previous, pending);
      UntilAddsNothing(stop, children[1..], bar, previous, pending);
    }
  }

  /** The crossovers that pass 2 reaches, in order. */
  ghost function Visited(g: Group, bar: Bar, previous: Values): seq<Condition>
    decreases g, 1
  {
    match g
    case All(children) => VisitedUntil(false, children, bar, previous)
    case Any(children) => VisitedUntil(true, children, bar, previous)
    case Not(children) => if children == [] then [] else Visited(children[0], bar, previous)
    case Leaf(Some(c)) => if IsCrossover(c) then [c] else []
    case _ => []
  }

  ghost function VisitedUntil(stop: bool, children: seq<Group>, bar: Bar, previous: Values): seq<Condition>
    decreases children, 0
  {
    if children == [] then []
    else
      Visited(children[0], bar, previous)
      + if Holds(children[0], bar, previous) == stop then [] else VisitedUntil(stop, children[1..], bar, previous)
  }

  lemma {:induction false} VisitedAreCollected(g: Group, bar: Bar, previous: Values)
    ensures forall c :: c in Visited(g, bar, previous) ==> c in Crossovers(g)
    decreases g, 1
  {
    match g
    case All(children) => VisitedUntilAreCollected(false, children, bar, previous);
    case Any(children) => VisitedUntilAreCollected(true, children, bar, previous);
    case Not(children) =>
      if children != [] {
        VisitedAreCollected(children[0], bar, previous);
      }
    case Leaf(_) =>
    case UnknownKind =>
  }

  lemma {:induction false} VisitedUntilAreCollected(stop: bool, children: seq<Group>, bar: Bar, previous: Values)
    ensures forall c :: c in VisitedUntil(stop, children, bar, previous) ==> c in CrossoversIn(children)
    decreases children, 0
  {
    hide Holds, Pair;
    if children != [] {
      VisitedAreCollected(children[0], bar, previous);
      VisitedUntilAreCollected(stop, children[1..], bar, previous);
    }
  }

  /** Pass 2 records exactly the crossovers it reaches. */
  lemma {:induction false} EvaluationRecordsVisited(g: Group, bar: Bar, previous: Values, pending: Values)
    ensures Evaluated(g, bar, previous, pending).1 == Recorded(Visited(g, bar, previous), bar, pending)
    decreases g, 1
  {
    match g
    case All(children) => UntilRecordsVisited(false, children, bar, previous, pending);
    case Any(children) => UntilRecordsVisited(true, children, bar, previous, pending);
    case Not(children) =>
      if children != [] {
        EvaluationRecordsVisited(children[0], bar, previous, pending);
      }
    case Leaf(Some(c)) =>
      RecordedOne(c, bar, pending);
      assert Visited(g, bar, previous) == Crossovers(g);
    case _ =>
  }

  lemma {:induction false} UntilRecordsVisited(stop: bool, children: seq<Group>, bar: Bar, previous: Values, pending: Values)
    ensures EvaluatedUntil(stop, children, bar, previous, pending).1
         == Recorded(VisitedUntil(stop, children, bar, previous), bar, pending)
    decreases children, 0
  {
    hide Holds, Pair, Recorded;
    NothingRecorded(bar, pending);
    if children != [] {
      var first := Visited(children[0], bar, previous);
      var pending' := Evaluated(children[0], bar, previous, pending).1;
      EvaluationRecordsVisited(children[0], bar, previous, pending);
      ShortCircuitKeepsResult(children[0], bar, previous, pending);
      UntilRecordsVisited(stop, children[1..], bar, previous, pending');
      RecordedAppends(first, VisitedUntil(stop, children[1..], bar, previous), bar, pending);
      assert first + [] == first;
    }
  }

  lemma {:induction false} NothingRecorded(bar: Bar, m: Values)
    ensures Recorded([], bar, m) == m
  {
  }

  /** Under every key that pass 2 records, the last pair it reaches is the last one of the whole tree. */
  ghost predicate ReachesLastPairs(visited: seq<Condition>, crossovers: seq<Condition>, bar: Bar) {
    forall c :: c in visited && Pair(c, bar).Some? ==>
      LastPair(visited, bar, Key(c)) == LastPair(crossovers, bar, Key(c))
  }

  /**
   * Evaluating leaves the recording of pass 1 as it is exactly when, for every key it touches, the
   * last pair it reaches is the one that pass 1 had left.
   */
  lemma {:induction false} TwoPassesExactly(g: Group, bar: Bar, previous: Values, pending: Values)
    ensures var recorded := Recorded(Crossovers(g), bar, pending);
      Evaluated(g, bar, previous, recorded).1 == recorded
      <==> ReachesLastPairs(Visited(g, bar, previous), Crossovers(g), bar)
  {
    hide Recorded, Visited, Crossovers, Pair, Key, Evaluated, Holds, LastPair;
    var all, visited := Crossovers(g), Visited(g, bar, previous);
    var recorded := Recorded(all, bar, pending);
    var after := Recorded(visited, bar, recorded);
    EvaluationRecordsVisited(g, bar, previous, recorded);
    VisitedAreCollected(g, bar, previous);
    forall key
      ensures Find(recorded, key) == if LastPair(all, bar, key).Some? then LastPair(all, bar, key) else Find(pending, key)
      ensures Find(after, key) == if LastPair(visited, bar, key).Some? then LastPair(visited, bar, key) else Find(recorded, key)
    {
      RecordedLast(all, bar, pending, key);
      RecordedLast(visited, bar, recorded, key);
    }
    forall c | c in visited && Pair(c, bar).Some?
      ensures LastPair(visited, bar, Key(c)).Some? && LastPair(all, bar, Key(c)).Some?
    {
      LastPairIsSomeones(visited, bar, Key(c));
      LastPairIsSomeones(all, bar, Key(c));
    }
    if ReachesLastPairs(visited, all, bar) {
      forall key
        ensures Find(after, key) == Find(recorded, key)
      {
        LastPairIsSomeones(visited, bar, key);
      }
      SameFinds(after, recorded);
    }
  }

  lemma SameFinds(a: Values, b: Values)
    requires forall key :: Find(a, key) == Find(b, key)
    ensures a == b
  {
    forall key
      ensures key in a <==> key in b
      ensures key in a ==> a[key] == b[key]
    {
      assert Find(a, key) == Find(b, key);
    }
  }

  /**
   * Main theorem of the two passes: when no two crossovers of the tree clash on the bar, evaluating
   * records exactly what pass 1 alone records, and returns what evaluating every node would return.
   */
  lemma {:induction false} TwoPassesLoseNothing(g: Group, bar: Bar, previous: Values, pending: Values)
    requires NoClash(Crossovers(g), bar)
    ensures var recorded := Recorded(Crossovers(g), bar, pending);
      Evaluated(g, bar, previous, recorded) == (Holds(g, bar, previous), recorded)
  {
    var recorded := Recorded(Crossovers(g), bar, pending);
    RecordedAbsorbs(Crossovers(g), bar, pending);
    EvaluationAddsNothing(g, bar, previous, recorded);
    ShortCircuitKeepsResult(g, bar, previous, recorded);
  }

  method Commit(previous: ValueDict, pending: ValueDict)
    modifies previous
    ensures previous.entries == old(previous.entries) + old(pending.entries)
  {
    previous.entries := previous.entries + pending.entries;
  }

  /** What evaluate records, from what was pending before. */
  function AfterEvaluate(g: Option<Group>, bar: Bar, previous: Values, pending: Values): Values {
    match g
    case None => pending
    case Some(group) => Evaluated(group, bar, previous, Recorded(Crossovers(group), bar, pending)).1
  }

  /** The public entry point; without a dictionary for pending values it commits its own. */
  method Evaluate(g: Option<Group>, bar: Bar, previous: ValueDict, pendingOrNull: ValueDict?) returns (result: bool)
    requires previous != pendingOrNull
    modifies previous, pendingOrNull
    ensures result == (g.Some? && Holds(g.value, bar, old(previous.entries)))
    ensures pendingOrNull == null ==>
      previous.entries == old(previous.entries) + AfterEvaluate(g, bar, old(previous.entries), map[])
    ensures pendingOrNull != null ==>
      && previous.entries == old(previous.entries)
      && pendingOrNull.entries == AfterEvaluate(g, bar, old(previous.entries), old(pendingOrNull.entries))
  {
    var pending: ValueDict;
    if pendingOrNull == null {
      pending := new ValueDict();
    } else {
      pending := pendingOrNull;
    }
    result := false;
    if g.Some? {
      CollectState(g.value, bar, pending);
      ShortCircuitKeepsResult(g.value, bar, previous.entries, pending.entries);
      result := EvaluateBool(g.value, bar, previous, pending);
    }
    if pendingOrNull == null {
      Commit(previous, pending);
    }
  }

  // ---------------------------------------------------------------------------------------
  // What an atomic condition says
  // ---------------------------------------------------------------------------------------

  /** The bar has a value under the name that is neither missing nor not-a-number. */
  predicate Usable(bar: Bar, name: string) {
    name in bar && !bar[name].Null? && !bar[name].NaN?
  }

  /**
   * The value of an operand: a literal is itself; a column is the value of the first usable name, its
   * own before its sources in order, and nothing if none is usable.
   */
  ghost predicate Yields(operand: Operand, bar: Bar, v: Value) {
    match operand
    case Literal(value, _) => v == value
    case Column(key, sources, _) =>
      var names := [key] + sources;
      if exists i :: 0 <= i < |names| && Usable(bar, names[i]) then
        exists i :: 0 <= i < |names| && Usable(bar, names[i]) && v == bar[names[i]]
                    && forall k :: 0 <= k < i ==> !Usable(bar, names[k])
      else v == Null
  }

  lemma {:induction false} FirstPresentYields(sources: seq<string>, bar: Bar) returns (i: nat)
    ensures i <= |sources| && (forall k :: 0 <= k < i ==> !Usable(bar, sources[k]))
    ensures i < |sources| ==> Usable(bar, sources[i]) && FirstPresent(sources, bar) == bar[sources[i]]
    ensures i == |sources| ==> FirstPresent(sources, bar) == Null
  {
    if sources == [] || Present(Lookup(bar, sources[0])) {
      i := 0;
    } else {
      var j := FirstPresentYields(sources[1..], bar);
      i := j + 1;
      assert forall k :: 0 < k < i ==> sources[k] == sources[1..][k - 1];
    }
  }

  /** Every operand has exactly one value on a bar. */
  lemma ResolveYields(operand: Operand, bar: Bar, v: Value)
    ensures Yields(operand, bar, v) <==> v == Resolve(operand, bar)
  {
    match operand
    case Literal(_, _) =>
    case Column(key, sources, _) =>
      var names := [key] + sources;
      var i := FirstPresentYields(sources, bar);
      assert names[0] == key && forall k :: 0 < k < |names| ==> names[k] == sources[k - 1];
      hide FirstPresent;
      if Usable(bar, key) {
        assert Usable(bar, names[0]);
      } else if i < |sources| {
        assert Usable(bar, names[i + 1]);
      }
  }

  /** A number, or a text that reads as one. */
  predicate Reads(v: Value, x: real) {
    v == Number(x) || (v.Text? && v.reading == Some(x))
  }

  predicate Numeric(v: Value) {
    v.Number? || (v.Text? && v.reading.Some?)
  }

  /** Nothing, false, zero, and what is empty. */
  predicate Falsy(v: Value) {
    v in {Null, Boolean(false), Number(0.0)} || (v.Text? && |v.text| == 0) || (v.List? && |v.items| == 0)
  }

  /** Presence and truth of one operand. */
  lemma PresenceMeans(c: Condition, bar: Bar, left: Value, previous: Values, pending: Values)
    requires Yields(c.left, bar, left)
    ensures var result := EvaluatedCondition(c, bar, previous, pending).0;
      && (c.operator == Exists ==> (result <==> !left.Null?))
      && (c.operator == Missing ==> (result <==> left.Null?))
      && (c.operator == IsTrue ==> (result <==> !Falsy(left)))
      && (c.operator == IsFalse ==> (result <==> Falsy(left)))
  {
    ResolveYields(c.left, bar, left);
    hide Resolve, Pair;
  }

  /**
   * The six comparisons: false unless both operands are numeric, and otherwise the comparison of the two
   * numbers, with equality up to a billionth.
   */
  lemma ComparisonsMean(c: Condition, bar: Bar, left: Value, right: Value, previous: Values, pending: Values)
    requires c.right.Some? && Yields(c.left, bar, left) && Yields(c.right.value, bar, right)
    requires c.operator in {Less, Greater, LessOrEqual, GreaterOrEqual, Equal, NotEqual, UnknownOperator}
    ensures var result := EvaluatedCondition(c, bar, previous, pending).0;
      && (result ==> Numeric(left) && Numeric(right) && c.operator != UnknownOperator)
      && forall a, b :: Reads(left, a) && Reads(right, b) ==>
           && (c.operator == Less ==> (result <==> a < b))
           && (c.operator == Greater ==> (result <==> b < a))
           && (c.operator == LessOrEqual ==> (result <==> a <= b))
           && (c.operator == GreaterOrEqual ==> (result <==> b <= a))
           && (c.operator == Equal ==> (result <==> a - 0.000000001 < b < a + 0.000000001))
           && (c.operator == NotEqual ==> (result <==> b <= a - 0.000000001 || a + 0.000000001 <= b))
  {
    ResolveYields(c.left, bar, left);
    ResolveYields(c.right.value, bar, right);
    hide Resolve, Pair;
  }

  /** A number lies between the two bounds of a list, both included; whatever is malformed is not between. */
  ghost predicate LiesBetween(left: Value, right: Value) {
    exists a, low, high ::
      Reads(left, a) && right.List? && |right.items| == 2 && Reads(right.items[0], low) && Reads(right.items[1], high)
      && low <= a <= high
  }

  lemma BetweenMeans(c: Condition, bar: Bar, left: Value, right: Value, previous: Values, pending: Values)
    requires c.right.Some? && Yields(c.left, bar, left) && Yields(c.right.value, bar, right)
    requires c.operator == Between || c.operator == NotBetween
    ensures EvaluatedCondition(c, bar, previous, pending).0 <==>
            if c.operator == Between then LiesBetween(left, right) else !LiesBetween(left, right)
  {
    ResolveYields(c.left, bar, left);
    ResolveYields(c.right.value, bar, right);
    hide Resolve, Pair;
    if IsBetween(left, right) {
      var a, low, high := ToFloat(left).value, ToFloat(right.items[0]).value, ToFloat(right.items[1]).value;
      assert Reads(left, a) && Reads(right.items[0], low) && Reads(right.items[1], high);
    }
  }

  /** Without a right operand only presence and truth can hold. */
  lemma RightIsNeeded(c: Condition, bar: Bar, previous: Values, pending: Values)
    requires c.right.None? && c.operator !in {Exists, Missing, IsTrue, IsFalse}
    ensures !EvaluatedCondition(c, bar, previous, pending).0
  {
  }

  /** The pair of a crossover is that of the numbers its operands read, if both are numeric. */
  lemma PairMeans(c: Condition, bar: Bar, left: Value, right: Value)
    requires c.right.Some? && Yields(c.left, bar, left) && Yields(c.right.value, bar, right)
    ensures Pair(c, bar).Some? <==>
            (c.operator == CrossesAbove || c.operator == CrossesBelow) && Numeric(left) && Numeric(right)
    ensures Pair(c, bar).Some? ==> Reads(left, Pair(c, bar).value.0) && Reads(right, Pair(c, bar).value.1)
  {
    ResolveYields(c.left, bar, left);
    ResolveYields(c.right.value, bar, right);
    hide Resolve;
  }

  // ---------------------------------------------------------------------------------------
  // Why labels matter
  // ---------------------------------------------------------------------------------------

  function Unlabelled(key: string): Operand {
    Column(key, [], "")
  }

  /**
   * With labels left at their default, two different crossovers share a key: pass 1 keeps the
   * second pair, and a pass 2 that stops after the first puts the first pair back.
   */
  lemma SharedKeyIsOverwritten()
    ensures var first := Condition(Unlabelled("a"), CrossesAbove, Some(Unlabelled("b")));
            var second := Condition(Unlabelled("c"), CrossesAbove, Some(Unlabelled("d")));
            var tree := All([Leaf(Some(first)), Leaf(Some(second))]);
            var bar: Bar := map["a" := Number(1.0), "b" := Number(2.0), "c" := Number(3.0), "d" := Number(4.0)];
            var recorded := Recorded(Crossovers(tree), bar, map[]);
      && recorded == map[Key(first) := (3.0, 4.0)]
      && Evaluated(tree, bar, map[], recorded).1 == map[Key(first) := (1.0, 2.0)]
  {
    var first := Condition(Unlabelled("a"), CrossesAbove, Some(Unlabelled("b")));
    var second := Condition(Unlabelled("c"), CrossesAbove, Some(Unlabelled("d")));
    var children := [Leaf(Some(first)), Leaf(Some(second))];
    var bar: Bar := map["a" := Number(1.0), "b" := Number(2.0), "c" := Number(3.0), "d" := Number(4.0)];
    assert Pair(first, bar) == Some((1.0, 2.0)) && Pair(second, bar) == Some((3.0, 4.0));
    assert children[1..] == [Leaf(Some(second))] && children[1..][1..] == [];
    assert Crossovers(children[0]) == [first] && Crossovers(children[1]) == [second];
    assert CrossoversIn(children[1..]) == [second] + CrossoversIn([]) == [second];
    assert Crossovers(All(children)) == [first] + [second] == [first, second];
    assert [first, second][1..] == [second] && [second][1..] == [];
    assert Recorded([second], bar, Record(first, bar, map[])) == Record(second, bar, Record(first, bar, map[]));
    var recorded: Values := map[Key(first) := (3.0, 4.0)];
    var restored: Values := map[Key(first) := (1.0, 2.0)];
    assert recorded[Key(first) := (1.0, 2.0)] == restored;
    assert EvaluatedCondition(first, bar, map[], recorded) == (false, restored);
    assert Evaluated(children[0], bar, map[], recorded) == (false, map[Key(first) := (1.0, 2.0)]);
    assert EvaluatedUntil(false, children, bar, map[], recorded) == (false, map[Key(first) := (1.0, 2.0)]);
  }
}
