/**
 * What the evaluator means over a whole run of bars, and the rule-based strategy that drives it.
 * The meaning is stated without any carried state: a crossover looks back at the bars themselves.
 */
module CrossoverRuns {
  import opened Prelude
  import opened Conditions
  import opened ConditionEvaluator

  /**
   * The carried state when each bar records a list of crossovers, in that order, and commits them.
   * Collecting records those of the tree; evaluating records those that pass 2 reaches once more.
   */
  function StateOf(writes: seq<seq<Condition>>, bars: seq<Bar>): Values
    requires |writes| == |bars|
  {
    if bars == [] then map[]
    else
      var n := |bars| - 1;
      StateOf(writes[..n], bars[..n]) + Recorded(writes[n], bars[n], map[])
  }

  /** The carried state when every bar is only collected. */
  function StateAfter(crossovers: seq<Condition>, bars: seq<Bar>): Values {
    StateOf(Collecting(crossovers, |bars|), bars)
  }

  function Collecting(crossovers: seq<Condition>, n: nat): (writes: seq<seq<Condition>>)
    ensures |writes| == n
  {
    seq(n, _ => crossovers)
  }

  /** Every bar records the given crossovers and no others, in any order and any number of times. */
  ghost predicate Covers(writes: seq<seq<Condition>>, all: seq<Condition>) {
    forall k :: 0 <= k < |writes| ==> SameMembers(writes[k], all)
  }

  ghost predicate SameMembers(a: seq<Condition>, b: seq<Condition>) {
    forall c :: c in a <==> c in b
  }

  /** Bar j is the last before bar i on which both operands of the crossover were numeric. */
  ghost predicate LatestNumeric(c: Condition, bars: seq<Bar>, j: nat, i: nat) {
    && j < i <= |bars|
    && Pair(c, bars[j]).Some?
    && forall k :: j < k < i ==> Pair(c, bars[k]).None?
  }

  /** The crossover fires at bar i: it is compared with the latest earlier numeric bar, however far back. */
  ghost predicate CrossedAt(c: Condition, bars: seq<Bar>, i: nat)
    requires i < |bars|
  {
    && Pair(c, bars[i]).Some?
    && exists j: nat :: LatestNumeric(c, bars, j, i) && Fires(c.operator, Pair(c, bars[j]).value, Pair(c, bars[i]).value)
  }

  /** The meaning of a tree at bar i of a run. */
  ghost predicate Meaning(g: Group, bars: seq<Bar>, i: nat)
    requires i < |bars|
  {
    match g
    case All(children) => forall k :: 0 <= k < |children| ==> Meaning(children[k], bars, i)
    case Any(children) => exists k :: 0 <= k < |children| && Meaning(children[k], bars, i)
    case Not(children) => children != [] && !Meaning(children[0], bars, i)
    case Leaf(Some(c)) => if IsCrossover(c) then CrossedAt(c, bars, i) else PlainHolds(c, bars[i])
    case _ => false
  }

  // ---------------------------------------------------------------------------------------
  // When the carried state is each crossover's own memory
  // ---------------------------------------------------------------------------------------

  predicate SameKey(c: Condition, d: Condition) {
    IsCrossover(c) && IsCrossover(d) && Key(c) == Key(d)
  }

  /** The pair of the latest bar on which both operands were numeric. */
  function LatestPair(c: Condition, bars: seq<Bar>): Option<(real, real)> {
    if bars == [] then None
    else
      var n := |bars| - 1;
      if Pair(c, bars[n]).Some? then Pair(c, bars[n]) else LatestPair(c, bars[..n])
  }

  /** Crossovers that share a key have the same latest pair. */
  ghost predicate Consistent(all: seq<Condition>, bars: seq<Bar>) {
    forall c, d :: c in all && d in all && SameKey(c, d) ==> LatestPair(c, bars) == LatestPair(d, bars)
  }

  /** Every crossover finds its own latest pair under its key, and nothing if it has none. */
  ghost predicate Remembers(m: Values, all: seq<Condition>, bars: seq<Bar>) {
    forall c :: c in all && IsCrossover(c) ==> Find(m, Key(c)) == LatestPair(c, bars)
  }

  /** On one bar, each crossover's own reading is recorded exactly when those that share a key read the same. */
  lemma {:induction false} RecordedExactly(all: seq<Condition>, bar: Bar)
    ensures (forall c :: c in all && IsCrossover(c) ==> Find(Recorded(all, bar, map[]), Key(c)) == Pair(c, bar))
      <==> (forall c, d :: c in all && d in all && SameKey(c, d) ==> Pair(c, bar) == Pair(d, bar))
  {
    hide Pair, Key, Recorded, IsCrossover;
    forall c | c in all && IsCrossover(c)
      ensures var own := Find(Recorded(all, bar, map[]), Key(c));
        && (own.None? ==> Pair(c, bar).None?)
        && (own.Some? ==> exists d :: d in all && SameKey(d, c) && Pair(d, bar) == own)
    {
      RecordedLast(all, bar, map[], Key(c));
      LastPairIsSomeones(all, bar, Key(c));
    }
  }

  /** The pair last written under a key. */
  function LastWritten(writes: seq<seq<Condition>>, bars: seq<Bar>, key: string): Option<(real, real)>
    requires |writes| == |bars|
  {
    if bars == [] then None
    else
      var n := |bars| - 1;
      var now := LastPair(writes[n], bars[n], key);
      if now.Some? then now else LastWritten(writes[..n], bars[..n], key)
  }

  lemma {:induction false} StateIsLastWritten(writes: seq<seq<Condition>>, bars: seq<Bar>, key: string)
    requires |writes| == |bars|
    ensures Find(StateOf(writes, bars), key) == LastWritten(writes, bars, key)
  {
    hide LastPair, Recorded;
    if bars != [] {
      var n := |bars| - 1;
      StateIsLastWritten(writes[..n], bars[..n], key);
      RecordedLast(writes[n], bars[n], map[], key);
    }
  }

  /** What is written under a key is the latest pair of some crossover with that key. */
  lemma {:induction false} WrittenIsSomeones(
      all: seq<Condition>, writes: seq<seq<Condition>>, bars: seq<Bar>, key: string)
    requires |writes| == |bars| && Covers(writes, all)
    ensures LastWritten(writes, bars, key).Some? ==>
      exists d :: d in all && IsCrossover(d) && Key(d) == key && LatestPair(d, bars) == LastWritten(writes, bars, key)
    ensures LastWritten(writes, bars, key).None? ==>
      forall c :: c in all && IsCrossover(c) && Key(c) == key ==> LatestPair(c, bars).None?
  {
    hide Pair, Key, IsCrossover, LastPair;
    if bars != [] {
      var n := |bars| - 1;
      var now := LastPair(writes[n], bars[n], key);
      assert SameMembers(writes[n], all);
      WrittenIsSomeones(all, writes[..n], bars[..n], key);
      LastPairIsSomeones(writes[n], bars[n], key);
      if now.Some? {
        var d :| d in writes[n] && Pair(d, bars[n]) == now && IsCrossover(d) && Key(d) == key;
        assert LatestPair(d, bars) == now;
      } else if LastWritten(writes, bars, key).Some? {
        var d :| d in all && IsCrossover(d) && Key(d) == key
          && LatestPair(d, bars[..n]) == LastWritten(writes[..n], bars[..n], key);
        assert LatestPair(d, bars) == LastWritten(writes, bars, key);
      }
    }
  }

  /**
   * Main theorem on memory: however the bars were evaluated, the carried state is every crossover's
   * own memory exactly when those that share a key have the same latest pair.
   */
  lemma {:induction false} StateRemembersExactly(all: seq<Condition>, writes: seq<seq<Condition>>, bars: seq<Bar>)
    requires |writes| == |bars| && Covers(writes, all)
    ensures Remembers(StateOf(writes, bars), all, bars) <==> Consistent(all, bars)
  {
    hide LatestPair, StateOf, LastWritten, Key, IsCrossover;
    if Consistent(all, bars) {
      forall c | c in all && IsCrossover(c)
        ensures Find(StateOf(writes, bars), Key(c)) == LatestPair(c, bars)
      {
        StateIsLastWritten(writes, bars, Key(c));
        WrittenIsSomeones(all, writes, bars, Key(c));
        if LastWritten(writes, bars, Key(c)).Some? {
          var d :| d in all && IsCrossover(d) && Key(d) == Key(c)
            && LatestPair(d, bars) == LastWritten(writes, bars, Key(c));
          assert SameKey(c, d);
        }
      }
    }
  }

  /**
   * Two unlabelled crossovers, "a" over "b" and "c" over "d": on the second bar the first one crosses,
   * and the state, which remembers the other, says that it does not.
   */
  lemma SharedKeyMisleads()
    ensures var first := Condition(Unlabelled("a"), CrossesAbove, Some(Unlabelled("b")));
            var second := Condition(Unlabelled("c"), CrossesAbove, Some(Unlabelled("d")));
            var before: Bar := map["a" := Number(1.0), "b" := Number(2.0), "c" := Number(4.0), "d" := Number(3.0)];
            var now: Bar := map["a" := Number(3.0), "b" := Number(1.0)];
      && CrossedAt(first, [before, now], 1)
      && !Holds(Leaf(Some(first)), now, StateAfter([first, second], [before]))
      && !Consistent([first, second], [before])
  {
    var first := Condition(Unlabelled("a"), CrossesAbove, Some(Unlabelled("b")));
    var second := Condition(Unlabelled("c"), CrossesAbove, Some(Unlabelled("d")));
    var before: Bar := map["a" := Number(1.0), "b" := Number(2.0), "c" := Number(4.0), "d" := Number(3.0)];
    var now: Bar := map["a" := Number(3.0), "b" := Number(1.0)];
    var all, bars := [first, second], [before, now];
    assert Pair(first, before) == Some((1.0, 2.0)) && Pair(second, before) == Some((4.0, 3.0));
    assert Pair(first, now) == Some((3.0, 1.0)) && Key(first) == Key(second);
    assert LatestNumeric(first, bars, 0, 1);
    hide Pair, Key;
    assert all[1..] == [second] && [second][1..] == [];
    assert LastPair([second], before, Key(first)) == Some((4.0, 3.0));
    RecordedLast(all, before, map[], Key(first));
    assert [before][..0] == [] && Collecting(all, 1)[..0] == [] && StateOf([], []) == map[];
    assert Find(StateAfter(all, [before]), Key(first)) == Some((4.0, 3.0));
    assert LatestPair(first, [before]) == Some((1.0, 2.0)) && LatestPair(second, [before]) == Some((4.0, 3.0));
    assert first in all && second in all && SameKey(first, second);
  }

  /** Labels that determine operands, free of the separator, keep every run consistent. */
  lemma WellLabelledIsConsistent(all: seq<Condition>, bars: seq<Bar>)
    requires WellLabelled(all)
    ensures Consistent(all, bars)
  {
    hide LatestPair, Key;
    forall c, d | c in all && d in all && SameKey(c, d)
      ensures c == d
    {
      SameKeySameCrossover(all, c, d);
    }
  }

  lemma {:induction false} LatestPairIsLatest(c: Condition, bars: seq<Bar>)
    ensures LatestPair(c, bars).Some? ==> exists j: nat :: LatestNumeric(c, bars, j, |bars|)
    ensures forall j: nat :: LatestNumeric(c, bars, j, |bars|) ==> LatestPair(c, bars) == Pair(c, bars[j])
  {
    if bars != [] {
      var n := |bars| - 1;
      LatestPairIsLatest(c, bars[..n]);
      assert |bars[..n]| == n;
      forall j: nat
        ensures LatestNumeric(c, bars, j, |bars|) <==>
                if Pair(c, bars[n]).Some? then j == n else LatestNumeric(c, bars[..n], j, n)
      {
        LatestAfterBar(c, bars, j);
      }
      hide Pair;
      if Pair(c, bars[n]).Some? {
        assert LatestNumeric(c, bars, n, |bars|);
      }
    }
  }

  lemma LatestAfterBar(c: Condition, bars: seq<Bar>, j: nat)
    requires bars != []
    ensures var n := |bars| - 1;
      LatestNumeric(c, bars, j, |bars|) <==>
      if Pair(c, bars[n]).Some? then j == n else LatestNumeric(c, bars[..n], j, n)
  {
    hide Pair;
    var n := |bars| - 1;
    if LatestNumeric(c, bars[..n], j, n) && Pair(c, bars[n]).None? {
      forall k | j < k < |bars|
        ensures Pair(c, bars[k]).None?
      {
        if k < n {
          assert bars[..n][k] == bars[k];
        }
      }
    }
  }

  /** A state that remembers holds, per crossover, the latest numeric pair and nothing else. */
  lemma StateRemembersLatest(all: seq<Condition>, c: Condition, bars: seq<Bar>, m: Values)
    requires Remembers(m, all, bars) && c in all && IsCrossover(c)
    ensures Key(c) in m ==> exists j: nat :: LatestNumeric(c, bars, j, |bars|)
    ensures forall j: nat :: LatestNumeric(c, bars, j, |bars|) ==> Key(c) in m && Some(m[Key(c)]) == Pair(c, bars[j])
  {
    hide Pair, LatestPair, LatestNumeric, Key, IsCrossover;
    LatestPairIsLatest(c, bars);
    NumericIsSome(c, bars);
  }

  lemma NumericIsSome(c: Condition, bars: seq<Bar>)
    ensures forall j: nat :: LatestNumeric(c, bars, j, |bars|) ==> j < |bars| && Pair(c, bars[j]).Some?
  {
    hide Pair;
  }

  lemma LatestInPrefix(c: Condition, bars: seq<Bar>, i: nat)
    requires i < |bars|
    ensures forall j: nat :: LatestNumeric(c, bars[..i], j, i) <==> LatestNumeric(c, bars, j, i)
  {
  }

  /**
   * Main theorem: evaluated against a state that remembers, a tree means what it says about the run:
   * every crossover in it, at any depth, fires exactly when it should.
   */
  lemma {:induction false} StateGivesMeaning(all: seq<Condition>, g: Group, bars: seq<Bar>, i: nat, m: Values)
    requires i < |bars| && Remembers(m, all, bars[..i]) && forall c :: c in Crossovers(g) ==> c in all
    ensures Holds(g, bars[i], m) == Meaning(g, bars, i)
    decreases g, 1
  {
    match g
    case All(children) => StateGivesMeanings(all, children, bars, i, m);
    case Any(children) => StateGivesMeanings(all, children, bars, i, m);
    case Not(children) =>
      if children != [] {
        StateGivesMeaning(all, children[0], bars, i, m);
      }
    case Leaf(Some(c)) =>
      if IsCrossover(c) {
        assert c in Crossovers(g);
        StateRemembersLatest(all, c, bars[..i], m);
        LatestInPrefix(c, bars, i);
      }
    case _ =>
  }

  lemma {:induction false} StateGivesMeanings(
      all: seq<Condition>, children: seq<Group>, bars: seq<Bar>, i: nat, m: Values)
    requires i < |bars| && Remembers(m, all, bars[..i]) && forall c :: c in CrossoversIn(children) ==> c in all
    ensures forall k :: 0 <= k < |children| ==> Holds(children[k], bars[i], m) == Meaning(children[k], bars, i)
    decreases children, 0
  {
    if children != [] {
      StateGivesMeaning(all, children[0], bars, i, m);
      StateGivesMeanings(all, children[1..], bars, i, m);
      assert forall k :: 0 < k < |children| ==> children[k] == children[1..][k - 1];
    }
  }

  /** Whether a crossing may start from the given pair. */
  predicate MayCrossFrom(operator: Operator, before: Option<(real, real)>) {
    before.Some?
    && (if operator == CrossesAbove then before.value.0 <= before.value.1 else before.value.0 >= before.value.1)
  }

  /** Whether the given pair lies beyond the crossing. */
  predicate HasCrossed(operator: Operator, now: Option<(real, real)>) {
    now.Some? && (if operator == CrossesAbove then now.value.0 > now.value.1 else now.value.0 < now.value.1)
  }

  /**
   * For any labels and however the bars were evaluated: a crossover is judged right on the next bar
   * exactly when it has not crossed there, or the pair last written under its key and the pair it
   * last read itself lie on the same side.
   */
  lemma {:induction false} VerdictExactly(writes: seq<seq<Condition>>, c: Condition, bars: seq<Bar>, now: Bar)
    requires |writes| == |bars| && IsCrossover(c)
    ensures Holds(Leaf(Some(c)), now, StateOf(writes, bars)) == CrossedAt(c, bars + [now], |bars|)
      <==> (HasCrossed(c.operator, Pair(c, now)) ==>
              (MayCrossFrom(c.operator, LastWritten(writes, bars, Key(c))) <==>
               MayCrossFrom(c.operator, LatestPair(c, bars))))
  {
    hide Pair, StateOf, LastWritten, LatestPair, LatestNumeric, Key;
    StateIsLastWritten(writes, bars, Key(c));
    var longer, n := bars + [now], |bars|;
    assert longer[..n] == bars && longer[n] == now;
    LatestInPrefix(c, longer, n);
    LatestPairIsLatest(c, bars);
    NumericIsSome(c, bars);
    assert forall j: nat :: LatestNumeric(c, longer, j, n) ==> LatestNumeric(c, bars, j, n) && longer[j] == bars[j];
  }

  /** Between two firings of the same upward crossing there is a numeric bar at or below. */
  lemma FiringsAlternate(c: Condition, bars: seq<Bar>, i: nat, k: nat) returns (j: nat)
    requires i < k < |bars| && CrossedAt(c, bars, i) && CrossedAt(c, bars, k)
    ensures i < j < k && Pair(c, bars[j]).Some?
    ensures c.operator == CrossesAbove ==> Pair(c, bars[j]).value.0 <= Pair(c, bars[j]).value.1
    ensures c.operator == CrossesBelow ==> Pair(c, bars[j]).value.0 >= Pair(c, bars[j]).value.1
  {
    j :| LatestNumeric(c, bars, j, k) && Fires(c.operator, Pair(c, bars[j]).value, Pair(c, bars[k]).value);
    assert Pair(c, bars[i]).Some?;
  }

  // ---------------------------------------------------------------------------------------
  // Evaluating or only collecting
  // ---------------------------------------------------------------------------------------

  /** The carried state when each bar is either evaluated or merely collected and committed. */
  function MixedState(g: Group, bars: seq<Bar>, evaluated: seq<bool>): Values
    requires |evaluated| == |bars|
  {
    if bars == [] then map[]
    else
      var n := |bars| - 1;
      var previous := MixedState(g, bars[..n], evaluated[..n]);
      previous + if evaluated[n] then AfterEvaluate(Some(g), bars[n], previous, map[])
                 else Recorded(Crossovers(g), bars[n], map[])
  }

  /** What each bar records when some are evaluated. */
  ghost function MixedWrites(g: Group, bars: seq<Bar>, evaluated: seq<bool>): (writes: seq<seq<Condition>>)
    requires |evaluated| == |bars|
    ensures |writes| == |bars|
  {
    if bars == [] then []
    else
      var n := |bars| - 1;
      var previous := MixedState(g, bars[..n], evaluated[..n]);
      MixedWrites(g, bars[..n], evaluated[..n])
      + [Crossovers(g) + if evaluated[n] then Visited(g, bars[n], previous) else []]
  }

  /** Evaluating records the crossovers of the tree and, once more, those that pass 2 reaches. */
  lemma {:induction false} EvaluateRecords(g: Group, bar: Bar, previous: Values, pending: Values)
    ensures AfterEvaluate(Some(g), bar, previous, pending)
         == Recorded(Crossovers(g) + Visited(g, bar, previous), bar, pending)
  {
    hide Crossovers, Visited, Recorded, Evaluated;
    EvaluationRecordsVisited(g, bar, previous, Recorded(Crossovers(g), bar, pending));
    RecordedAppends(Crossovers(g), Visited(g, bar, previous), bar, pending);
  }

  lemma {:induction false} MixedIsWritten(g: Group, bars: seq<Bar>, evaluated: seq<bool>)
    requires |evaluated| == |bars|
    ensures MixedState(g, bars, evaluated) == StateOf(MixedWrites(g, bars, evaluated), bars)
    ensures Covers(MixedWrites(g, bars, evaluated), Crossovers(g))
  {
    hide Crossovers, Visited, Recorded, AfterEvaluate;
    if bars != [] {
      var n := |bars| - 1;
      var previous := MixedState(g, bars[..n], evaluated[..n]);
      var writes := MixedWrites(g, bars, evaluated);
      MixedIsWritten(g, bars[..n], evaluated[..n]);
      EvaluateRecords(g, bars[n], previous, map[]);
      VisitedAreCollected(g, bars[n], previous);
      assert writes[..n] == MixedWrites(g, bars[..n], evaluated[..n]);
      assert Crossovers(g) + [] == Crossovers(g);
    }
  }

  /** On an evaluated bar, pass 2 leaves what pass 1 recorded, given the state collecting would carry. */
  ghost predicate SettledAt(g: Group, bars: seq<Bar>, k: nat)
    requires k < |bars|
  {
    ReachesLastPairs(Visited(g, bars[k], StateAfter(Crossovers(g), bars[..k])), Crossovers(g), bars[k])
  }

  /** One bar: evaluating carries the same as collecting exactly when pass 2 settles on pass 1. */
  lemma {:induction false} SettledExactly(g: Group, bar: Bar, previous: Values)
    ensures previous + AfterEvaluate(Some(g), bar, previous, map[]) == previous + Recorded(Crossovers(g), bar, map[])
      <==> ReachesLastPairs(Visited(g, bar, previous), Crossovers(g), bar)
  {
    hide Crossovers, Visited, Recorded, Evaluated, ReachesLastPairs;
    var all, visited := Crossovers(g), Visited(g, bar, previous);
    var recorded, after := Recorded(all, bar, map[]), AfterEvaluate(Some(g), bar, previous, map[]);
    TwoPassesExactly(g, bar, previous, map[]);
    EvaluateRecords(g, bar, previous, map[]);
    VisitedAreCollected(g, bar, previous);
    forall key
      ensures key in after <==> key in recorded
    {
      RecordedLast(all, bar, map[], key);
      RecordedLast(all + visited, bar, map[], key);
      LastPairIsSomeones(all, bar, key);
      LastPairIsSomeones(all + visited, bar, key);
    }
    SameOverlay(previous, after, recorded);
  }

  lemma SameOverlay(base: Values, a: Values, b: Values)
    requires forall key :: key in a <==> key in b
    ensures base + a == base + b <==> a == b
  {
    if base + a == base + b {
      forall key | key in a
        ensures a[key] == b[key]
      {
        assert (base + a)[key] == a[key] && (base + b)[key] == b[key];
      }
    }
  }

  /**
   * Skipping the evaluation of bars, as long as they are collected, changes nothing at any boundary
   * exactly when on every evaluated bar pass 2 settles on what pass 1 recorded.
   */
  lemma {:induction false} CollectingIsEnough(g: Group, bars: seq<Bar>, evaluated: seq<bool>)
    requires |evaluated| == |bars|
    ensures (forall k :: 0 <= k <= |bars| ==>
               MixedState(g, bars[..k], evaluated[..k]) == StateAfter(Crossovers(g), bars[..k]))
      <==> (forall k :: 0 <= k < |bars| && evaluated[k] ==> SettledAt(g, bars, k))
  {
    hide Crossovers, StateAfter, AfterEvaluate, MixedState, SettledAt, Recorded;
    if forall k :: 0 <= k < |bars| && evaluated[k] ==> SettledAt(g, bars, k) {
      SettledIsCollected(g, bars, evaluated, |bars|);
    }
    if forall k :: 0 <= k <= |bars| ==>
         MixedState(g, bars[..k], evaluated[..k]) == StateAfter(Crossovers(g), bars[..k]) {
      forall k | 0 <= k < |bars| && evaluated[k]
        ensures SettledAt(g, bars, k)
      {
        NextMixed(g, bars, evaluated, k);
        assert MixedState(g, bars[..k + 1], evaluated[..k + 1]) == StateAfter(Crossovers(g), bars[..k + 1]);
      }
    }
  }

  /** One more bar, from a boundary at which both states agree. */
  lemma {:induction false} NextMixed(g: Group, bars: seq<Bar>, evaluated: seq<bool>, k: nat)
    requires |evaluated| == |bars| && k < |bars|
    requires MixedState(g, bars[..k], evaluated[..k]) == StateAfter(Crossovers(g), bars[..k])
    ensures MixedState(g, bars[..k + 1], evaluated[..k + 1]) == StateAfter(Crossovers(g), bars[..k + 1])
      <==> (evaluated[k] ==> SettledAt(g, bars, k))
  {
    hide Crossovers, AfterEvaluate, Recorded, Visited, ReachesLastPairs;
    var longer, flags := bars[..k + 1], evaluated[..k + 1];
    assert longer[..k] == bars[..k] && flags[..k] == evaluated[..k] && longer[k] == bars[k] && flags[k] == evaluated[k];
    assert Collecting(Crossovers(g), k + 1)[..k] == Collecting(Crossovers(g), k);
    hide MixedState, StateOf, Collecting;
    SettledExactly(g, bars[k], StateAfter(Crossovers(g), bars[..k]));
    MixedUnfold(g, longer, flags);
    CollectedUnfold(Crossovers(g), longer);
  }

  lemma {:induction false} MixedUnfold(g: Group, bars: seq<Bar>, evaluated: seq<bool>)
    requires |evaluated| == |bars| && bars != []
    ensures var n := |bars| - 1;
      var previous := MixedState(g, bars[..n], evaluated[..n]);
      MixedState(g, bars, evaluated) == previous + (if evaluated[n] then AfterEvaluate(Some(g), bars[n], previous, map[])
                                                    else Recorded(Crossovers(g), bars[n], map[]))
  {
    hide Crossovers, AfterEvaluate, Recorded;
  }

  lemma {:induction false} CollectedUnfold(crossovers: seq<Condition>, bars: seq<Bar>)
    requires bars != []
    ensures var n := |bars| - 1;
      StateAfter(crossovers, bars) == StateAfter(crossovers, bars[..n]) + Recorded(crossovers, bars[n], map[])
  {
    hide Recorded;
    var n := |bars| - 1;
    assert Collecting(crossovers, n + 1)[..n] == Collecting(crossovers, n);
  }

  lemma {:induction false} SettledIsCollected(g: Group, bars: seq<Bar>, evaluated: seq<bool>, n: nat)
    requires |evaluated| == |bars| && n <= |bars|
    requires forall k :: 0 <= k < |bars| && evaluated[k] ==> SettledAt(g, bars, k)
    ensures forall k :: 0 <= k <= n ==> MixedState(g, bars[..k], evaluated[..k]) == StateAfter(Crossovers(g), bars[..k])
  {
    hide *;
    if n == 0 {
      NothingMixed(g, bars, evaluated);
    } else {
      SettledIsCollected(g, bars, evaluated, n - 1);
      NextMixed(g, bars, evaluated, n - 1);
    }
  }

  lemma {:induction false} NothingMixed(g: Group, bars: seq<Bar>, evaluated: seq<bool>)
    requires |evaluated| == |bars|
    ensures MixedState(g, bars[..0], evaluated[..0]) == StateAfter(Crossovers(g), bars[..0])
  {
    hide Crossovers;
    assert bars[..0] == [] && evaluated[..0] == [];
  }

  /** A bar without clashes is settled. */
  lemma {:induction false} NoClashSettles(g: Group, bars: seq<Bar>, k: nat)
    requires k < |bars| && NoClash(Crossovers(g), bars[k])
    ensures SettledAt(g, bars, k)
  {
    hide Crossovers, StateAfter, Visited, Recorded, Evaluated;
    TwoPassesExactly(g, bars[k], StateAfter(Crossovers(g), bars[..k]), map[]);
    TwoPassesLoseNothing(g, bars[k], StateAfter(Crossovers(g), bars[..k]), map[]);
  }

  /**
   * Two unlabelled crossovers under one key, evaluated and committed on a first bar: pass 2 stops after
   * the one that is not yet true and carries its pair, and on the next bar a crossing of the other
   * is denied, although collecting alone would have let it fire.
   */
  lemma EvaluatedKeyMisleads()
    ensures var first := Condition(Unlabelled("a"), CrossesAbove, Some(Unlabelled("b")));
            var second := Condition(Unlabelled("c"), CrossesAbove, Some(Unlabelled("d")));
            var tree := All([Leaf(Some(first)), Leaf(Some(second))]);
            var before: Bar := map["a" := Number(5.0), "b" := Number(2.0), "c" := Number(3.0), "d" := Number(4.0)];
            var now: Bar := map["c" := Number(6.0), "d" := Number(4.0)];
      && MixedState(tree, [before], [true]) == map[Key(second) := (5.0, 2.0)]
      && StateAfter(Crossovers(tree), [before]) == map[Key(second) := (3.0, 4.0)]
      && CrossedAt(second, [before, now], 1) && !Holds(Leaf(Some(second)), now, MixedState(tree, [before], [true]))
      && Holds(Leaf(Some(second)), now, StateAfter(Crossovers(tree), [before]))
  {
    var first := Condition(Unlabelled("a"), CrossesAbove, Some(Unlabelled("b")));
    var second := Condition(Unlabelled("c"), CrossesAbove, Some(Unlabelled("d")));
    var children := [Leaf(Some(first)), Leaf(Some(second))];
    var tree := All(children);
    var before: Bar := map["a" := Number(5.0), "b" := Number(2.0), "c" := Number(3.0), "d" := Number(4.0)];
    var now: Bar := map["c" := Number(6.0), "d" := Number(4.0)];
    assert Pair(first, before) == Some((5.0, 2.0)) && Pair(second, before) == Some((3.0, 4.0));
    assert Pair(second, now) == Some((6.0, 4.0)) && Key(first) == Key(second);
    assert LatestNumeric(second, [before, now], 0, 1);
    TwoLeaves(first, second);
    hide Pair, Key;
    assert [before][..0] == [] && [true][..0] == [] && Collecting([first, second], 1)[..0] == [];
    var recorded: Values := map[Key(second) := (3.0, 4.0)];
    var stopped: Values := map[Key(second) := (5.0, 2.0)];
    assert map[][Key(first) := (5.0, 2.0)][Key(second) := (3.0, 4.0)] == recorded;
    assert [first, second][1..] == [second] && [second][1..] == [];
    assert Recorded([second], before, Record(first, before, map[])) == recorded;
    assert recorded[Key(first) := (5.0, 2.0)] == stopped;
    assert EvaluatedCondition(first, before, map[], recorded) == (false, stopped);
    assert Evaluated(children[0], before, map[], recorded) == (false, stopped);
    assert Evaluated(tree, before, map[], recorded).1 == stopped;
    var nothing: Values := map[];
    assert nothing + stopped == stopped && nothing + recorded == recorded;
    MixedUnfold(tree, [before], [true]);
    CollectedUnfold([first, second], [before]);
    assert MixedState(tree, [], []) == nothing && StateAfter([first, second], []) == nothing;
  }

  lemma TwoLeaves(first: Condition, second: Condition)
    requires IsCrossover(first) && IsCrossover(second)
    ensures Crossovers(All([Leaf(Some(first)), Leaf(Some(second))])) == [first, second]
  {
    var children := [Leaf(Some(first)), Leaf(Some(second))];
    assert children[1..] == [Leaf(Some(second))] && children[1..][1..] == [];
    assert Crossovers(children[0]) == [first] && Crossovers(children[1]) == [second];
    assert CrossoversIn(children[1..]) == [second] + CrossoversIn([]) == [second];
  }

  // ---------------------------------------------------------------------------------------
  // The rule-based strategy
  // ---------------------------------------------------------------------------------------

  datatype SideRules = SideRules(name: string, entry: Group, exit: Option<Group>)

  datatype Signal = Hold | Enter(side: string) | Exit(side: string)

  function CrossoversOfSide(rules: SideRules): seq<Condition> {
    Crossovers(rules.entry) + if rules.exit.Some? then Crossovers(rules.exit.value) else []
  }

  /** All crossovers of a definition, in the order in which the strategy collects them. */
  function AllCrossovers(sides: seq<SideRules>): seq<Condition> {
    if sides == [] then []
    else AllCrossovers(sides[..|sides| - 1]) + CrossoversOfSide(sides[|sides| - 1])
  }

  /** The first rules under a name. */
  function FindSide(sides: seq<SideRules>, name: string): (r: Option<SideRules>)
    ensures r.None? ==> forall k :: 0 <= k < |sides| ==> sides[k].name != name
    ensures r.Some? ==> exists k :: 0 <= k < |sides| && sides[k] == r.value && r.value.name == name
                                    && forall h :: 0 <= h < k ==> sides[h].name != name
  {
    if sides == [] then None
    else if sides[0].name == name then Some(sides[0])
    else
      assert forall k :: 0 < k < |sides| ==> sides[k] == sides[1..][k - 1];
      assert forall k :: 0 <= k < |sides| - 1 ==> sides[1..][k] == sides[k + 1];
      FindSide(sides[1..], name)
  }

  lemma {:induction false} FoundSideIsCollected(sides: seq<SideRules>, name: string)
    ensures FindSide(sides, name).Some? ==>
      forall c :: c in CrossoversOfSide(FindSide(sides, name).value) ==> c in AllCrossovers(sides)
  {
    hide CrossoversOfSide, AllCrossovers;
    if sides != [] {
      SidesAppend([sides[0]], sides[1..]);
      assert sides == [sides[0]] + sides[1..];
      OneMoreSide([], sides[0]);
      assert [] + [sides[0]] == [sides[0]];
      FoundSideIsCollected(sides[1..], name);
    }
  }

  lemma {:induction false} OneMoreSide(sides: seq<SideRules>, side: SideRules)
    ensures AllCrossovers(sides + [side]) == AllCrossovers(sides) + CrossoversOfSide(side)
    ensures AllCrossovers([]) == []
  {
    hide CrossoversOfSide;
    assert (sides + [side])[..|sides|] == sides;
  }

  lemma {:induction false} SidesAppend(a: seq<SideRules>, b: seq<SideRules>)
    ensures AllCrossovers(a + b) == AllCrossovers(a) + AllCrossovers(b)
  {
    hide *;
    if b == [] {
      assert a + b == a;
      OneMoreSide([], SideRules("", Leaf(None), None));
    } else {
      var n := |b| - 1;
      SidesAppend(a, b[..n]);
      OneMoreSide(a + b[..n], b[n]);
      OneMoreSide(b[..n], b[n]);
      assert a + b == (a + b[..n]) + [b[n]] && b == b[..n] + [b[n]];
    }
  }

  /** Recording one more side records its entry tree, then its exit tree. */
  lemma {:induction false} NextSide(sides: seq<SideRules>, rules: SideRules, bar: Bar)
    ensures Recorded(AllCrossovers([]), bar, map[]) == map[]
    ensures
      var before := Recorded(AllCrossovers(sides), bar, map[]);
      var entered := Recorded(Crossovers(rules.entry), bar, before);
      Recorded(AllCrossovers(sides + [rules]), bar, map[])
      == if rules.exit.Some? then Recorded(Crossovers(rules.exit.value), bar, entered) else entered
  {
    hide AllCrossovers, Crossovers;
    OneMoreSide(sides, rules);
    var before := Recorded(AllCrossovers(sides), bar, map[]);
    RecordedAppends(AllCrossovers(sides), CrossoversOfSide(rules), bar, map[]);
    if rules.exit.Some? {
      RecordedAppends(Crossovers(rules.entry), Crossovers(rules.exit.value), bar, before);
    } else {
      assert CrossoversOfSide(rules) == Crossovers(rules.entry);
    }
  }

  ghost predicate EntryFires(sides: seq<SideRules>, name: string, bars: seq<Bar>, i: nat)
    requires i < |bars|
  {
    FindSide(sides, name).Some? && Meaning(FindSide(sides, name).value.entry, bars, i)
  }

  ghost predicate ExitFires(sides: seq<SideRules>, name: string, bars: seq<Bar>, i: nat)
    requires i < |bars|
  {
    var side := FindSide(sides, name);
    side.Some? && side.value.exit.Some? && Meaning(side.value.exit.value, bars, i)
  }

  /** The signal the rules call for at bar i, given the position held then; no other state matters. */
  ghost function Decision(sides: seq<SideRules>, bars: seq<Bar>, i: nat, direction: string, size: real): Signal
    requires i < |bars|
  {
    if size != 0.0 then
      if ExitFires(sides, direction, bars, i) then Exit(direction) else Hold
    else if EntryFires(sides, "long", bars, i) then Enter("long")
    else if EntryFires(sides, "short", bars, i) then Enter("short")
    else Hold
  }

  // ---------------------------------------------------------------------------------------
  // The strategy as a function of its state
  // ---------------------------------------------------------------------------------------

  /** A bar and the position held when it arrives. */
  datatype Input = Input(bar: Bar, direction: string, size: real)

  function BarsOf(inputs: seq<Input>): (bars: seq<Bar>)
    ensures |bars| == |inputs|
  {
    seq(|inputs|, i requires 0 <= i < |inputs| => inputs[i].bar)
  }

  /** The sides in order until one enters, threading the pending values through. */
  ghost function EntryStep(sides: seq<SideRules>, names: seq<string>, bar: Bar, previous: Values, pending: Values)
    : (Signal, Values)
  {
    if names == [] then (Hold, pending)
    else
      match FindSide(sides, names[0])
      case None => EntryStep(sides, names[1..], bar, previous, pending)
      case Some(rules) =>
        var pending' := AfterEvaluate(Some(rules.entry), bar, previous, pending);
        if Holds(rules.entry, bar, previous) then (Enter(names[0]), pending')
        else EntryStep(sides, names[1..], bar, previous, pending')
  }

  ghost function ExitStep(sides: seq<SideRules>, direction: string, bar: Bar, previous: Values, pending: Values)
    : (Signal, Values)
  {
    match FindSide(sides, direction)
    case Some(SideRules(_, _, Some(exit))) =>
      (if Holds(exit, bar, previous) then Exit(direction) else Hold,
       AfterEvaluate(Some(exit), bar, previous, pending))
    case _ => (Hold, pending)
  }

  ghost function SignalStep(sides: seq<SideRules>, input: Input, previous: Values, pending: Values): (Signal, Values) {
    if input.size != 0.0 then ExitStep(sides, input.direction, input.bar, previous, pending)
    else EntryStep(sides, ["long", "short"], input.bar, previous, pending)
  }

  /** One bar: the signal, and the state carried to the next bar. */
  ghost function BarStep(sides: seq<SideRules>, input: Input, previous: Values): (Signal, Values) {
    var collected := Recorded(AllCrossovers(sides), input.bar, map[]);
    var (signal, pending) := SignalStep(sides, input, previous, collected);
    (signal, previous + pending)
  }

  /** The state that the strategy really carries, positions and short-circuiting included. */
  ghost function Carried(sides: seq<SideRules>, inputs: seq<Input>): Values {
    if inputs == [] then map[]
    else
      var n := |inputs| - 1;
      BarStep(sides, inputs[n], Carried(sides, inputs[..n])).1
  }

  /** After collecting, evaluating a tree of the definition changes nothing unless crossovers clash. */
  lemma {:induction false} CollectedTreeAddsNothing(all: seq<Condition>, g: Group, bar: Bar, previous: Values, pending: Values)
    requires Absorbed(all, bar, pending) && forall c :: c in Crossovers(g) ==> c in all
    ensures AfterEvaluate(Some(g), bar, previous, pending) == pending
  {
    hide Crossovers, Pair, Key, Evaluated, Recorded;
    RecordingAgain(Crossovers(g), bar, pending);
    EvaluationAddsNothing(g, bar, previous, pending);
  }

  lemma {:induction false} EntriesAddNothing(
      sides: seq<SideRules>, names: seq<string>, bar: Bar, previous: Values, pending: Values)
    requires Absorbed(AllCrossovers(sides), bar, pending)
    ensures EntryStep(sides, names, bar, previous, pending).1 == pending
  {
    hide Absorbed, AllCrossovers, FindSide, Crossovers, AfterEvaluate, Holds;
    if names != [] {
      FoundSideIsCollected(sides, names[0]);
      if FindSide(sides, names[0]).Some? {
        var rules := FindSide(sides, names[0]).value;
        assert forall c :: c in Crossovers(rules.entry) ==> c in CrossoversOfSide(rules);
        CollectedTreeAddsNothing(AllCrossovers(sides), rules.entry, bar, previous, pending);
      }
      EntriesAddNothing(sides, names[1..], bar, previous, pending);
    }
  }

  lemma {:induction false} ExitAddsNothing(sides: seq<SideRules>, direction: string, bar: Bar, previous: Values, pending: Values)
    requires Absorbed(AllCrossovers(sides), bar, pending)
    ensures ExitStep(sides, direction, bar, previous, pending).1 == pending
  {
    hide Absorbed, AllCrossovers, FindSide, Crossovers, AfterEvaluate, Holds;
    FoundSideIsCollected(sides, direction);
    match FindSide(sides, direction)
    case Some(SideRules(_, _, Some(exit))) =>
      var rules := FindSide(sides, direction).value;
      assert forall c :: c in Crossovers(exit) ==> c in CrossoversOfSide(rules);
      CollectedTreeAddsNothing(AllCrossovers(sides), exit, bar, previous, pending);
    case _ =>
  }

  /** Without clashes the carried state is what collecting alone leaves, whatever positions were held. */
  lemma {:induction false} CarriedIsCollected(sides: seq<SideRules>, inputs: seq<Input>)
    requires forall k :: 0 <= k < |inputs| ==> NoClash(AllCrossovers(sides), inputs[k].bar)
    ensures Carried(sides, inputs) == StateAfter(AllCrossovers(sides), BarsOf(inputs))
  {
    hide AllCrossovers, NoClash, EntryStep, ExitStep, Recorded, Absorbed;
    if inputs == [] {
      assert BarsOf(inputs) == [];
    } else {
      hide StateAfter;
      var n := |inputs| - 1;
      CarriedIsCollected(sides, inputs[..n]);
      assert BarsOf(inputs)[..n] == BarsOf(inputs[..n]);
      var all, input, previous := AllCrossovers(sides), inputs[n], Carried(sides, inputs[..n]);
      CollectedUnfold(all, BarsOf(inputs));
      RecordedAbsorbs(all, input.bar, map[]);
      EntriesAddNothing(sides, ["long", "short"], input.bar, previous, Recorded(all, input.bar, map[]));
      ExitAddsNothing(sides, input.direction, input.bar, previous, Recorded(all, input.bar, map[]));
    }
  }

  /** What a bar records while it looks for an entry: each tree it tries, collected and then visited. */
  ghost function EntryWrites(sides: seq<SideRules>, names: seq<string>, bar: Bar, previous: Values): seq<Condition> {
    if names == [] then []
    else
      match FindSide(sides, names[0])
      case None => EntryWrites(sides, names[1..], bar, previous)
      case Some(rules) =>
        Crossovers(rules.entry) + Visited(rules.entry, bar, previous)
        + if Holds(rules.entry, bar, previous) then [] else EntryWrites(sides, names[1..], bar, previous)
  }

  ghost function ExitWrites(sides: seq<SideRules>, direction: string, bar: Bar, previous: Values): seq<Condition> {
    match FindSide(sides, direction)
    case Some(SideRules(_, _, Some(exit))) => Crossovers(exit) + Visited(exit, bar, previous)
    case _ => []
  }

  /** Everything that a bar records, in order. */
  ghost function BarWrites(sides: seq<SideRules>, input: Input, previous: Values): seq<Condition> {
    AllCrossovers(sides)
    + if input.size != 0.0 then ExitWrites(sides, input.direction, input.bar, previous)
      else EntryWrites(sides, ["long", "short"], input.bar, previous)
  }

  ghost function CarriedWrites(sides: seq<SideRules>, inputs: seq<Input>): (writes: seq<seq<Condition>>)
    ensures |writes| == |inputs|
  {
    if inputs == [] then []
    else
      var n := |inputs| - 1;
      CarriedWrites(sides, inputs[..n]) + [BarWrites(sides, inputs[n], Carried(sides, inputs[..n]))]
  }

  lemma {:induction false} EntryRecords(
      sides: seq<SideRules>, names: seq<string>, bar: Bar, previous: Values, pending: Values)
    ensures EntryStep(sides, names, bar, previous, pending).1
         == Recorded(EntryWrites(sides, names, bar, previous), bar, pending)
    ensures forall c :: c in EntryWrites(sides, names, bar, previous) ==> c in AllCrossovers(sides)
  {
    hide AllCrossovers, FindSide, Crossovers, Visited, AfterEvaluate, Holds, Recorded;
    NothingRecorded(bar, pending);
    if names != [] {
      FoundSideIsCollected(sides, names[0]);
      match FindSide(sides, names[0])
      case None => EntryRecords(sides, names[1..], bar, previous, pending);
      case Some(rules) =>
        var here := Crossovers(rules.entry) + Visited(rules.entry, bar, previous);
        assert forall c :: c in Crossovers(rules.entry) ==> c in CrossoversOfSide(rules);
        VisitedAreCollected(rules.entry, bar, previous);
        EvaluateRecords(rules.entry, bar, previous, pending);
        EntryRecords(sides, names[1..], bar, previous, AfterEvaluate(Some(rules.entry), bar, previous, pending));
        RecordedAppends(here, EntryWrites(sides, names[1..], bar, previous), bar, pending);
        assert here + [] == here;
    }
  }

  lemma {:induction false} ExitRecords(sides: seq<SideRules>, direction: string, bar: Bar, previous: Values, pending: Values)
    ensures ExitStep(sides, direction, bar, previous, pending).1
         == Recorded(ExitWrites(sides, direction, bar, previous), bar, pending)
    ensures forall c :: c in ExitWrites(sides, direction, bar, previous) ==> c in AllCrossovers(sides)
  {
    hide AllCrossovers, FindSide, Crossovers, Visited, AfterEvaluate, Holds, Recorded;
    NothingRecorded(bar, pending);
    FoundSideIsCollected(sides, direction);
    match FindSide(sides, direction)
    case Some(SideRules(_, _, Some(exit))) =>
      var rules := FindSide(sides, direction).value;
      assert forall c :: c in Crossovers(exit) ==> c in CrossoversOfSide(rules);
      VisitedAreCollected(exit, bar, previous);
      EvaluateRecords(exit, bar, previous, pending);
    case _ =>
  }

  lemma {:induction false} BarRecords(sides: seq<SideRules>, input: Input, previous: Values)
    ensures BarStep(sides, input, previous).1 == previous + Recorded(BarWrites(sides, input, previous), input.bar, map[])
    ensures SameMembers(BarWrites(sides, input, previous), AllCrossovers(sides))
  {
    hide AllCrossovers, EntryStep, ExitStep, EntryWrites, ExitWrites, Recorded;
    var all, bar := AllCrossovers(sides), input.bar;
    var collected := Recorded(all, bar, map[]);
    EntryRecords(sides, ["long", "short"], bar, previous, collected);
    ExitRecords(sides, input.direction, bar, previous, collected);
    RecordedAppends(all, EntryWrites(sides, ["long", "short"], bar, previous), bar, map[]);
    RecordedAppends(all, ExitWrites(sides, input.direction, bar, previous), bar, map[]);
  }

  /** The strategy's state is what its bars write, and every bar writes every crossover of the definition. */
  lemma {:induction false} CarriedIsWritten(sides: seq<SideRules>, inputs: seq<Input>)
    ensures Carried(sides, inputs) == StateOf(CarriedWrites(sides, inputs), BarsOf(inputs))
    ensures Covers(CarriedWrites(sides, inputs), AllCrossovers(sides))
  {
    hide AllCrossovers, BarStep, BarWrites, Recorded, SameMembers;
    if inputs != [] {
      var n := |inputs| - 1;
      CarriedIsWritten(sides, inputs[..n]);
      BarRecords(sides, inputs[n], Carried(sides, inputs[..n]));
      assert BarsOf(inputs)[..n] == BarsOf(inputs[..n]);
      assert CarriedWrites(sides, inputs)[..n] == CarriedWrites(sides, inputs[..n]);
    }
  }

  /**
   * Main theorem of the strategy: for every definition and every run, the state really carried is each
   * crossover's own memory exactly when those that share a key have the same latest pair, whatever
   * happened at earlier boundaries.
   */
  lemma {:induction false} StrategyRemembersExactly(sides: seq<SideRules>, inputs: seq<Input>)
    ensures Remembers(Carried(sides, inputs), AllCrossovers(sides), BarsOf(inputs))
      <==> Consistent(AllCrossovers(sides), BarsOf(inputs))
  {
    hide *;
    CarriedIsWritten(sides, inputs);
    StateRemembersExactly(AllCrossovers(sides), CarriedWrites(sides, inputs), BarsOf(inputs));
  }

  /** The verdict on any crossover, for the state that the strategy really carries. */
  lemma {:induction false} StrategyVerdictExactly(sides: seq<SideRules>, inputs: seq<Input>, c: Condition, now: Bar)
    requires IsCrossover(c)
    ensures Holds(Leaf(Some(c)), now, Carried(sides, inputs)) == CrossedAt(c, BarsOf(inputs) + [now], |inputs|)
      <==> (HasCrossed(c.operator, Pair(c, now)) ==>
              (MayCrossFrom(c.operator, LastWritten(CarriedWrites(sides, inputs), BarsOf(inputs), Key(c))) <==>
               MayCrossFrom(c.operator, LatestPair(c, BarsOf(inputs)))))
  {
    hide *;
    CarriedIsWritten(sides, inputs);
    VerdictExactly(CarriedWrites(sides, inputs), c, BarsOf(inputs), now);
  }

  /** When crossovers that share a key have the same latest pair, the signal is the one the rules call for. */
  lemma {:induction false} SignalFollowsRules(sides: seq<SideRules>, inputs: seq<Input>, input: Input)
    requires Consistent(AllCrossovers(sides), BarsOf(inputs))
    ensures BarStep(sides, input, Carried(sides, inputs)).0
         == Decision(sides, BarsOf(inputs) + [input.bar], |inputs|, input.direction, input.size)
  {
    hide AllCrossovers, Carried, Recorded, Consistent, Remembers, EntryFires, ExitFires, BarsOf, EntryStep, ExitStep;
    var n, bars, previous := |inputs|, BarsOf(inputs), Carried(sides, inputs);
    StrategyRemembersExactly(sides, inputs);
    var collected := Recorded(AllCrossovers(sides), input.bar, map[]);
    EntryDecides(sides, ["long", "short"], bars, input.bar, previous, collected);
    ExitDecides(sides, input.direction, bars, input.bar, previous, collected);
    EntryInOrder(sides, bars + [input.bar], n);
  }

  /** The first of the named sides whose entry tree is true at the bar. */
  ghost function FirstEntry(sides: seq<SideRules>, names: seq<string>, bars: seq<Bar>, i: nat): Signal
    requires i < |bars|
  {
    if names == [] then Hold
    else if EntryFires(sides, names[0], bars, i) then Enter(names[0])
    else FirstEntry(sides, names[1..], bars, i)
  }

  lemma {:induction false} EntryInOrder(sides: seq<SideRules>, bars: seq<Bar>, i: nat)
    requires i < |bars|
    ensures FirstEntry(sides, ["long", "short"], bars, i)
         == if EntryFires(sides, "long", bars, i) then Enter("long")
            else if EntryFires(sides, "short", bars, i) then Enter("short") else Hold
  {
    hide EntryFires;
    var names := ["long", "short"];
    assert names[1..] == ["short"] && ["short"][1..] == [];
    assert FirstEntry(sides, [], bars, i) == Hold;
    assert FirstEntry(sides, ["short"], bars, i) == if EntryFires(sides, "short", bars, i) then Enter("short") else Hold;
  }

  lemma {:induction false} EntryDecides(
      sides: seq<SideRules>, names: seq<string>, bars: seq<Bar>, bar: Bar, previous: Values, pending: Values)
    requires Remembers(previous, AllCrossovers(sides), bars)
    ensures EntryStep(sides, names, bar, previous, pending).0 == FirstEntry(sides, names, bars + [bar], |bars|)
  {
    hide AllCrossovers, Remembers, FindSide, Crossovers, AfterEvaluate, Holds, Meaning;
    if names != [] {
      FoundSideIsCollected(sides, names[0]);
      match FindSide(sides, names[0])
      case None => EntryDecides(sides, names[1..], bars, bar, previous, pending);
      case Some(rules) =>
        assert forall c :: c in Crossovers(rules.entry) ==> c in CrossoversOfSide(rules);
        assert (bars + [bar])[..|bars|] == bars && (bars + [bar])[|bars|] == bar;
        StateGivesMeaning(AllCrossovers(sides), rules.entry, bars + [bar], |bars|, previous);
        EntryDecides(sides, names[1..], bars, bar, previous, AfterEvaluate(Some(rules.entry), bar, previous, pending));
    }
  }

  lemma {:induction false} ExitDecides(
      sides: seq<SideRules>, direction: string, bars: seq<Bar>, bar: Bar, previous: Values, pending: Values)
    requires Remembers(previous, AllCrossovers(sides), bars)
    ensures ExitStep(sides, direction, bar, previous, pending).0
         == if ExitFires(sides, direction, bars + [bar], |bars|) then Exit(direction) else Hold
  {
    hide AllCrossovers, Remembers, FindSide, Crossovers, AfterEvaluate, Holds, Meaning;
    FoundSideIsCollected(sides, direction);
    match FindSide(sides, direction)
    case Some(SideRules(_, _, Some(exit))) =>
      var rules := FindSide(sides, direction).value;
      assert forall c :: c in Crossovers(exit) ==> c in CrossoversOfSide(rules);
      assert (bars + [bar])[..|bars|] == bars && (bars + [bar])[|bars|] == bar;
      StateGivesMeaning(AllCrossovers(sides), exit, bars + [bar], |bars|, previous);
    case _ =>
  }

  class JsonRuleBasedStrategy {
    const sides: seq<SideRules>
    const previousValues: ValueDict
    ghost var seen: seq<Input>

    ghost predicate Valid()
      reads this, previousValues
    {
      previousValues.entries == Carried(sides, seen)
    }

    constructor (sides: seq<SideRules>)
      ensures Valid() && seen == [] && this.sides == sides && fresh(previousValues)
    {
      this.sides := sides;
      previousValues := new ValueDict();
      seen := [];
    }

    method OnReset()
      modifies this, previousValues
      ensures Valid() && seen == []
    {
      previousValues.entries := map[];
      seen := [];
    }

    /** Pass 1 over the trees of every side, evaluated this bar or not. */
    method CollectSides(bar: Bar) returns (pending: ValueDict)
      ensures fresh(pending) && pending.entries == Recorded(AllCrossovers(sides), bar, map[])
    {
      hide *;
      pending := new ValueDict();
      NextSide([], SideRules("", Leaf(None), None), bar);
      assert sides[..0] == [];
      for i := 0 to |sides|
        invariant fresh(pending)
        invariant pending.entries == Recorded(AllCrossovers(sides[..i]), bar, map[])
      {
        var rules := sides[i];
        assert sides[..i + 1] == sides[..i] + [rules];
        NextSide(sides[..i], rules, bar);
        CollectState(rules.entry, bar, pending);
        if rules.exit.Some? {
          CollectState(rules.exit.value, bar, pending);
        }
      }
      assert sides[..|sides|] == sides;
    }

    method EntrySignal(bar: Bar, pending: ValueDict) returns (signal: Signal)
      requires pending != previousValues
      modifies pending, previousValues
      ensures previousValues.entries == old(previousValues.entries)
      ensures (signal, pending.entries)
           == EntryStep(sides, ["long", "short"], bar, previousValues.entries, old(pending.entries))
    {
      hide FindSide, AfterEvaluate, Holds;
      var order := ["long", "short"];
      for i := 0 to 2
        invariant previousValues.entries == old(previousValues.entries)
        invariant EntryStep(sides, order[i..], bar, previousValues.entries, pending.entries)
               == EntryStep(sides, order, bar, previousValues.entries, old(pending.entries))
      {
        assert order[i..][1..] == order[i + 1..];
        var rules := FindSide(sides, order[i]);
        if rules.Some? {
          var fires := Evaluate(Some(rules.value.entry), bar, previousValues, pending);
          if fires {
            return Enter(order[i]);
          }
        }
      }
      return Hold;
    }

    method ExitSignal(bar: Bar, direction: string, pending: ValueDict) returns (signal: Signal)
      requires pending != previousValues
      modifies pending, previousValues
      ensures previousValues.entries == old(previousValues.entries)
      ensures (signal, pending.entries)
           == ExitStep(sides, direction, bar, previousValues.entries, old(pending.entries))
    {
      hide FindSide, AfterEvaluate, Holds;
      var rules := FindSide(sides, direction);
      if rules.None? || rules.value.exit.None? {
        return Hold;
      }
      var fires := Evaluate(Some(rules.value.exit.value), bar, previousValues, pending);
      return if fires then Exit(direction) else Hold;
    }

    /**
     * One bar.  Whatever positions were held on earlier bars, the signal is the one that the rules
     * call for on the bars seen since the last reset, when crossovers that share a key have the same
     * latest pair.
     */
    method OnBar(bar: Bar, direction: string, size: real) returns (signal: Signal)
      requires Valid()
      modifies this, previousValues
      ensures Valid() && seen == old(seen) + [Input(bar, direction, size)]
      ensures (signal, previousValues.entries)
           == BarStep(sides, Input(bar, direction, size), old(previousValues.entries))
      ensures Consistent(AllCrossovers(sides), BarsOf(old(seen))) ==>
        signal == Decision(sides, BarsOf(old(seen)) + [bar], |old(seen)|, direction, size)
    {
      hide EntryStep, ExitStep, AllCrossovers, Recorded, Consistent, Decision, BarsOf;
      ghost var input, before := Input(bar, direction, size), previousValues.entries;
      var pending := CollectSides(bar);
      if size != 0.0 {
        signal := ExitSignal(bar, direction, pending);
      } else {
        signal := EntrySignal(bar, pending);
      }
      Commit(previousValues, pending);
      assert (signal, previousValues.entries) == BarStep(sides, input, before);
      if Consistent(AllCrossovers(sides), BarsOf(seen)) {
        SignalFollowsRules(sides, seen, input);
      }
      assert (seen + [input])[..|seen|] == seen;
      seen := seen + [input];
    }
  }
}
