/** Parameter ranges as lattices, exhaustive combinations, and distinct random combinations. */
module ParamSearch {
  import opened Prelude

  datatype ParamRange = ParamRange(min: real, max: real, step: real)

  /** The k-th point of the lattice that starts at min. */
  function LatticePoint(r: ParamRange, k: nat): real {
    r.min + Times(k as real, r.step)
  }

  /** Steps from min to max, as a fraction. */
  function Span(r: ParamRange): real
    requires 0.0 < r.step
  {
    (r.max - r.min) / r.step
  }

  const SLACK := 0.001

  /** How many values the enumeration of a range has. */
  function GridCount(r: ParamRange): nat {
    if r.step <= 0.0 then if r.min <= r.max then 1 else 0
    else if Span(r) + SLACK < 0.0 then 0
    else (Span(r) + SLACK).Floor + 1
  }

  function GridValues(r: ParamRange): seq<real> {
    seq(GridCount(r), k requires 0 <= k => LatticePoint(r, k))
  }

  /** How many values the size estimate of a range promises. */
  function RangeCount(r: ParamRange): nat {
    if r.step <= 0.0 then if r.min <= r.max then 1 else 0
    else if r.min > r.max then 0
    else
      SpanSign(r);
      Span(r).Floor + 1
  }

  lemma SpanSign(r: ParamRange)
    requires 0.0 < r.step
    ensures 0.0 <= Span(r) <==> r.min <= r.max
  {
  }

  lemma PointBelow(r: ParamRange, k: nat, slack: real)
    requires 0.0 < r.step
    ensures LatticePoint(r, k) <= r.max + r.step * slack <==> k as real <= Span(r) + slack
  {
    var x, y := k as real, Span(r) + slack;
    assert r.step * Span(r) == r.max - r.min;
    assert r.max + r.step * slack - LatticePoint(r, k) == r.step * (y - x);
    ProductSign(r.step, y - x);
  }

  lemma ProductSign(x: real, y: real)
    requires 0.0 < x
    ensures 0.0 <= x * y <==> 0.0 <= y
  {
  }

  /** The enumeration holds exactly the lattice points up to max and a thousandth of a step beyond. */
  lemma GridIsTheLattice(r: ParamRange, k: nat)
    requires 0.0 < r.step
    ensures k < GridCount(r) <==> LatticePoint(r, k) <= r.max + r.step * SLACK
  {
    PointBelow(r, k, SLACK);
  }

  /** The size estimate counts exactly the lattice points up to max. */
  lemma CountIsTheLattice(r: ParamRange, k: nat)
    requires 0.0 < r.step
    ensures k < RangeCount(r) <==> LatticePoint(r, k) <= r.max
  {
    PointBelow(r, k, 0.0);
    SpanSign(r);
  }

  /**
   * The size estimate and the enumeration agree exactly when max does not fall within the last
   * thousandth of a step before a lattice point; otherwise the enumeration has one value more.
   */
  lemma GridCountExactly(r: ParamRange)
    requires 0.0 < r.step && r.min <= r.max
    ensures RangeCount(r) <= GridCount(r) <= RangeCount(r) + 1
    ensures GridCount(r) == RangeCount(r) <==> Span(r) - Span(r).Floor as real < 1.0 - SLACK
  {
    SpanSign(r);
  }

  /** A range whose single estimated value is enumerated as two, the second above its maximum. */
  lemma OvershootExample()
    ensures var r := ParamRange(0.0, 0.9995, 1.0);
      RangeCount(r) == 1 && GridValues(r) == [0.0, 1.0] && r.max < 1.0
  {
    var r := ParamRange(0.0, 0.9995, 1.0);
    assert Span(r) == 0.9995;
    assert GridCount(r) == 2;
    assert LatticePoint(r, 0) == 0.0 && LatticePoint(r, 1) == 1.0;
  }

  lemma GridCoversCount(r: ParamRange)
    ensures RangeCount(r) <= GridCount(r)
    ensures 0 < GridCount(r) && r.step <= 0.0 ==> GridValues(r) == [r.min]
  {
    if 0.0 < r.step {
      SpanSign(r);
    } else {
      TimesZero(r.step);
    }
  }

  ghost predicate Distinct<T>(s: seq<T>) {
    forall i, j :: 0 <= i < j < |s| ==> s[i] != s[j]
  }

  lemma GridIsDistinct(r: ParamRange)
    ensures Distinct(GridValues(r))
  {
    if 0.0 < r.step {
      forall i, j | 0 <= i < j < GridCount(r)
        ensures LatticePoint(r, i) != LatticePoint(r, j)
      {
        PositiveTimes((j - i) as real, r.step);
        assert Times(j as real, r.step) - Times(i as real, r.step) == Times((j - i) as real, r.step);
      }
    }
  }

  /** The while loop of the enumeration. */
  method Values(r: ParamRange) returns (result: seq<real>)
    ensures result == GridValues(r)
  {
    GridCoversCount(r);
    if r.step <= 0.0 {
      return if r.min <= r.max then [r.min] else [];
    }
    result := [];
    var current := r.min;
    StepPoint(r, 0);
    GridIsTheLattice(r, 0);
    hide GridCount, LatticePoint;
    while current <= r.max + r.step * SLACK
      invariant |result| <= GridCount(r) && current == LatticePoint(r, |result|)
      invariant result == seq(|result|, k requires 0 <= k => LatticePoint(r, k))
      decreases GridCount(r) - |result|
    {
      GridIsTheLattice(r, |result|);
      StepPoint(r, |result|);
      result := result + [current];
      current := current + r.step;
    }
    GridIsTheLattice(r, |result|);
  }

  lemma StepPoint(r: ParamRange, k: nat)
    ensures LatticePoint(r, k + 1) == LatticePoint(r, k) + r.step
    ensures LatticePoint(r, 0) == r.min
  {
  }

  // ---------------------------------------------------------------------------------------
  // All combinations
  // ---------------------------------------------------------------------------------------

  /** Every element of xs in front of every list of rests, the last varying fastest. */
  function Prefixed(xs: seq<real>, rests: seq<seq<real>>): seq<seq<real>> {
    if xs == [] then []
    else seq(|rests|, i requires 0 <= i < |rests| => [xs[0]] + rests[i]) + Prefixed(xs[1..], rests)
  }

  function CartesianProduct(lists: seq<seq<real>>): seq<seq<real>> {
    if lists == [] then [[]] else Prefixed(lists[0], CartesianProduct(lists[1..]))
  }

  function Lists(ranges: seq<ParamRange>): seq<seq<real>> {
    seq(|ranges|, i requires 0 <= i < |ranges| => GridValues(ranges[i]))
  }

  function Grid(ranges: seq<ParamRange>): seq<seq<real>> {
    CartesianProduct(Lists(ranges))
  }

  method GenerateCombinations(ranges: seq<ParamRange>) returns (combinations: seq<seq<real>>)
    ensures combinations == Grid(ranges)
  {
    if ranges == [] {
      return [[]];
    }
    var values: seq<seq<real>> := [];
    for i := 0 to |ranges|
      invariant values == Lists(ranges[..i])
    {
      var list := Values(ranges[i]);
      values := values + [list];
    }
    assert ranges[..|ranges|] == ranges;
    return CartesianProduct(values);
  }

  lemma {:induction false} PrefixedMembers(xs: seq<real>, rests: seq<seq<real>>, c: seq<real>)
    ensures c in Prefixed(xs, rests) <==> c != [] && c[0] in xs && c[1..] in rests
  {
    if xs != [] {
      PrefixedMembers(xs[1..], rests, c);
      var block := seq(|rests|, i requires 0 <= i < |rests| => [xs[0]] + rests[i]);
      assert xs == [xs[0]] + xs[1..];
      if c in block {
        var i :| 0 <= i < |block| && block[i] == c;
        assert c[1..] == rests[i];
      }
      if c != [] && c[0] == xs[0] && c[1..] in rests {
        var i :| 0 <= i < |rests| && rests[i] == c[1..];
        assert block[i] == c;
      }
    }
  }

  ghost predicate PicksFrom(c: seq<real>, lists: seq<seq<real>>) {
    |c| == |lists| && forall i :: 0 <= i < |c| ==> c[i] in lists[i]
  }

  /** A combination takes one value from each list, in any of the ways there are. */
  lemma {:induction false} ProductMembers(lists: seq<seq<real>>, c: seq<real>)
    ensures c in CartesianProduct(lists) <==> PicksFrom(c, lists)
  {
    if lists != [] {
      PrefixedMembers(lists[0], CartesianProduct(lists[1..]), c);
      if c != [] {
        ProductMembers(lists[1..], c[1..]);
        assert PicksFrom(c, lists) <==> c[0] in lists[0] && PicksFrom(c[1..], lists[1..]) by {
          assert forall i :: 0 < i < |c| ==> c[i] == c[1..][i - 1];
          assert forall i :: 0 < i < |lists| ==> lists[i] == lists[1..][i - 1];
          assert forall i :: 0 <= i < |c| - 1 ==> c[1..][i] == c[i + 1];
          assert forall i :: 0 <= i < |lists| - 1 ==> lists[1..][i] == lists[i + 1];
        }
      }
    }
  }

  lemma {:induction false} PrefixedDistinct(xs: seq<real>, rests: seq<seq<real>>)
    requires Distinct(xs) && Distinct(rests)
    ensures Distinct(Prefixed(xs, rests)) && |Prefixed(xs, rests)| == |xs| * |rests|
  {
    if xs != [] {
      PrefixedDistinct(xs[1..], rests);
      var block := seq(|rests|, i requires 0 <= i < |rests| => [xs[0]] + rests[i]);
      var others := Prefixed(xs[1..], rests);
      BlockDistinct(xs[0], rests, block);
      forall c | c in others
        ensures c !in block
      {
        PrefixedMembers(xs[1..], rests, c);
      }
      DistinctAppend(block, others);
      assert |xs| * |rests| == |rests| + (|xs| - 1) * |rests|;
    }
  }

  lemma BlockDistinct(x: real, rests: seq<seq<real>>, block: seq<seq<real>>)
    requires Distinct(rests) && |block| == |rests|
    requires forall i :: 0 <= i < |rests| ==> block[i] == [x] + rests[i]
    ensures Distinct(block)
  {
    forall i, j | 0 <= i < j < |block|
      ensures block[i] != block[j]
    {
      assert block[i][1..] == rests[i] && block[j][1..] == rests[j];
    }
  }

  lemma DistinctAppend<T>(a: seq<T>, b: seq<T>)
    requires Distinct(a) && Distinct(b) && forall x :: x in b ==> x !in a
    ensures Distinct(a + b)
  {
    forall i, j | 0 <= i < j < |a + b|
      ensures (a + b)[i] != (a + b)[j]
    {
      if i < |a| <= j {
        assert b[j - |a|] in b && a[i] in a;
      }
    }
  }

  function ProductOfCounts(counts: seq<nat>): nat {
    if counts == [] then 1 else counts[0] * ProductOfCounts(counts[1..])
  }

  function Lengths(lists: seq<seq<real>>): seq<nat> {
    seq(|lists|, i requires 0 <= i < |lists| => |lists[i]|)
  }

  /** The exhaustive combinations are pairwise different, and as many as the sizes multiply to. */
  lemma {:induction false} ProductDistinct(lists: seq<seq<real>>)
    requires forall i :: 0 <= i < |lists| ==> Distinct(lists[i])
    ensures Distinct(CartesianProduct(lists))
    ensures |CartesianProduct(lists)| == ProductOfCounts(Lengths(lists))
  {
    if lists != [] {
      ProductDistinct(lists[1..]);
      PrefixedDistinct(lists[0], CartesianProduct(lists[1..]));
      assert Lengths(lists)[1..] == Lengths(lists[1..]);
    }
  }

  /** The product of the estimated sizes, as the random search computes it. */
  function MaxUnique(ranges: seq<ParamRange>): nat {
    ProductOfCounts(seq(|ranges|, i requires 0 <= i < |ranges| => RangeCount(ranges[i])))
  }

  lemma {:induction false} SmallerFactors(a: seq<nat>, b: seq<nat>)
    requires |a| == |b| && forall i :: 0 <= i < |a| ==> a[i] <= b[i]
    ensures ProductOfCounts(a) <= ProductOfCounts(b)
  {
    if a != [] {
      SmallerFactors(a[1..], b[1..]);
      ProductGrows(a[0], b[0], ProductOfCounts(a[1..]), ProductOfCounts(b[1..]));
    }
  }

  lemma ProductGrows(a: nat, b: nat, x: nat, y: nat)
    requires a <= b && x <= y
    ensures a * x <= b * y
  {
    assert a * x <= a * y by {
      assert 0 <= a * (y - x);
    }
    assert 0 <= (b - a) * y;
  }

  lemma {:induction false} PositiveFactors(counts: seq<nat>)
    ensures 0 < ProductOfCounts(counts) ==> forall i :: 0 <= i < |counts| ==> 0 < counts[i]
  {
    if counts != [] {
      PositiveFactors(counts[1..]);
    }
  }

  /** There are at least as many exhaustive combinations as the random search may be asked for. */
  lemma GridIsLargeEnough(ranges: seq<ParamRange>)
    ensures Distinct(Grid(ranges)) && MaxUnique(ranges) <= |Grid(ranges)|
    ensures 0 < MaxUnique(ranges) ==> forall i :: 0 <= i < |ranges| ==> 0 < RangeCount(ranges[i])
  {
    var counts: seq<nat> := seq(|ranges|, i requires 0 <= i < |ranges| => RangeCount(ranges[i]));
    var lists := Lists(ranges);
    forall i | 0 <= i < |ranges|
      ensures Distinct(lists[i]) && counts[i] <= Lengths(lists)[i]
    {
      GridIsDistinct(ranges[i]);
      GridCoversCount(ranges[i]);
    }
    ProductDistinct(lists);
    SmallerFactors(counts, Lengths(lists));
    PositiveFactors(counts);
    assert forall i :: 0 <= i < |ranges| ==> counts[i] == RangeCount(ranges[i]);
  }

  // ---------------------------------------------------------------------------------------
  // Random combinations
  // ---------------------------------------------------------------------------------------

  const MAX_COMBINATIONS := 100

  /** The lattice point of the number drawn, kept within the range; no value when the range is empty. */
  method RandomValue(r: ParamRange, draw: int) returns (value: Option<real>)
    ensures value.Some? <==> 0 < RangeCount(r)
    ensures value.Some? ==> exists k: nat :: k < RangeCount(r) && value.value == LatticePoint(r, k)
    ensures 0 <= draw < RangeCount(r) ==> value == Some(LatticePoint(r, draw))
  {
    if r.step <= 0.0 {
      TimesZero(r.step);
      assert LatticePoint(r, 0) == r.min;
      return if r.min <= r.max then Some(r.min) else None;
    }
    SpanSign(r);
    var maxSteps := Span(r).Floor;
    if maxSteps < 0 {
      return None;
    }
    var k: nat := MinInt(MaxInt(0, draw), maxSteps);
    assert k < RangeCount(r);
    return Some(LatticePoint(r, k));
  }

  lemma DistinctSetSize<T>(s: seq<T>)
    requires Distinct(s)
    ensures |set x | x in s| == |s|
  {
    if s != [] {
      var n := |s| - 1;
      DistinctSetSize(s[..n]);
      assert s == s[..n] + [s[n]];
      assert (set x | x in s) == (set x | x in s[..n]) + {s[n]};
      assert s[n] !in s[..n];
    }
  }

  /** Pigeonhole: a set that contains every element of a list without repetitions is no smaller. */
  lemma Pigeonhole<T>(s: seq<T>, seen: set<T>)
    requires Distinct(s) && forall x :: x in s ==> x in seen
    ensures |s| <= |seen|
  {
    DistinctSetSize(s);
    SubsetSize((set x | x in s), seen);
  }

  lemma {:induction false} SubsetSize<T>(a: set<T>, b: set<T>)
    requires a <= b
    ensures |a| <= |b|
    decreases |a|
  {
    if a != {} {
      var x :| x in a;
      SubsetSize(a - {x}, b - {x});
    }
  }

  /** Distinct combinations of lattice points, and the set of them. */
  ghost predicate Collected(ranges: seq<ParamRange>, combinations: seq<seq<real>>, seen: set<seq<real>>) {
    && Distinct(combinations)
    && (forall c :: c in combinations <==> c in seen)
    && |seen| == |combinations|
    && (forall c :: c in combinations ==> c in Grid(ranges))
  }

  lemma CollectOne(ranges: seq<ParamRange>, combinations: seq<seq<real>>, seen: set<seq<real>>, c: seq<real>)
    requires Collected(ranges, combinations, seen) && c !in seen && c in Grid(ranges)
    ensures Collected(ranges, combinations + [c], seen + {c})
  {
    DistinctAppend(combinations, [c]);
  }

  /** One random draw per range; the result is some combination of the grid. */
  method RandomCombination(ranges: seq<ParamRange>) returns (c: seq<real>)
    requires forall i :: 0 <= i < |ranges| ==> 0 < RangeCount(ranges[i])
    ensures c in Grid(ranges)
  {
    c := [];
    for i := 0 to |ranges|
      invariant |c| == i && forall k :: 0 <= k < i ==> c[k] in GridValues(ranges[k])
    {
      var draw: int := *;
      var value := RandomValue(ranges[i], draw);
      assert value.Some?;
      var k: nat :| k < RangeCount(ranges[i]) && value.value == LatticePoint(ranges[i], k);
      GridCoversCount(ranges[i]);
      assert GridValues(ranges[i])[k] == value.value;
      c := c + [value.value];
    }
    ProductMembers(Lists(ranges), c);
    assert PicksFrom(c, Lists(ranges));
  }

  function Target(ranges: seq<ParamRange>, count: int): int {
    MinInt(count, MinInt(MAX_COMBINATIONS, MaxUnique(ranges)))
  }

  /** What was drawn, each combination at its first draw. */
  function FirstDraws(draws: seq<seq<real>>): seq<seq<real>> {
    if draws == [] then []
    else
      var n := |draws| - 1;
      var before := FirstDraws(draws[..n]);
      if draws[n] in before then before else before + [draws[n]]
  }

  /**
   * Random search: pairwise different combinations of the grid, never more than the target, and
   * exactly the target, whatever is drawn, when the grid is small enough to be enumerated.  The draws
   * that lead to the result are returned for the record: they stop at the target or after 20 for each
   * combination wanted, but no fewer than 100, and on a larger grid the result is what was drawn.
   */
  method GenerateRandomCombinations(ranges: seq<ParamRange>, count: int)
    returns (combinations: seq<seq<real>>, ghost draws: seq<seq<real>>)
    ensures ranges == [] ==> combinations == [[]]
    ensures ranges != [] ==>
      && |draws| <= MaxInt(100, 20 * MinInt(count, 100))
      && FirstDraws(draws) <= combinations
      && (100 < MaxUnique(ranges) ==>
            && combinations == FirstDraws(draws)
            && (|combinations| < MinInt(count, 100) ==> |draws| == MaxInt(100, 20 * MinInt(count, 100))))
    ensures ranges != [] ==>
      && Distinct(combinations)
      && (forall c :: c in combinations ==> c in Grid(ranges))
      && |combinations| <= 100 && |combinations| <= MaxInt(0, count)
      && (MaxUnique(ranges) <= 100 ==> |combinations| == MaxInt(0, MinInt(count, MaxUnique(ranges))))
  {
    draws := [];
    if ranges == [] {
      combinations := [[]];
      return;
    }
    hide Grid, MaxUnique;
    var maxUnique := MaxUnique(ranges);
    combinations := [];
    if maxUnique <= 0 {
      return;
    }
    GridIsLargeEnough(ranges);
    var target := Target(ranges, count);
    var seen: set<seq<real>> := {};
    var attempts := 0;
    var maxAttempts := MaxInt(100, target * 20);
    while |combinations| < target && attempts < maxAttempts
      invariant Collected(ranges, combinations, seen)
      invariant |combinations| <= MaxInt(0, target)
      invariant combinations == FirstDraws(draws) && |draws| == attempts <= maxAttempts
      decreases maxAttempts - attempts
    {
      attempts := attempts + 1;
      var c := RandomCombination(ranges);
      assert (draws + [c])[..|draws|] == draws;
      draws := draws + [c];
      if c !in seen {
        CollectOne(ranges, combinations, seen, c);
        seen := seen + {c};
        combinations := combinations + [c];
      }
    }
    if |combinations| < target && maxUnique <= MAX_COMBINATIONS {
      combinations := FillFromGrid(ranges, combinations, seen, target);
    }
  }

  /** The exhaustive fill: walks the grid until the target is reached. */
  method FillFromGrid(ranges: seq<ParamRange>, found: seq<seq<real>>, seenBefore: set<seq<real>>, target: int)
    returns (combinations: seq<seq<real>>)
    requires Collected(ranges, found, seenBefore) && |found| < target <= |Grid(ranges)| && Distinct(Grid(ranges))
    ensures Distinct(combinations) && (forall c :: c in combinations ==> c in Grid(ranges))
    ensures |combinations| == target && found <= combinations
  {
    hide Grid;
    combinations := found;
    var seen := seenBefore;
    var grid := GenerateCombinations(ranges);
    for i := 0 to |grid|
      invariant Collected(ranges, combinations, seen) && |combinations| < target && found <= combinations
      invariant forall k :: 0 <= k < i ==> grid[k] in seen
    {
      if grid[i] in seen {
        continue;
      }
      CollectOne(ranges, combinations, seen, grid[i]);
      seen := seen + {grid[i]};
      combinations := combinations + [grid[i]];
      if |combinations| >= target {
        return;
      }
    }
    Pigeonhole(grid, seen);
    assert false;
  }
}
