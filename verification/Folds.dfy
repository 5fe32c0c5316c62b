/** Train and test windows of walk-forward folds. */
module Folds {
  import opened Prelude

  datatype Fold = Fold(
    trainStart: int,
    trainEnd: int,
    testStart: int,
    testEnd: int,
    trainCount: int,
    testCount: int)

  /** int() of a float. */
  function Truncate(x: real): int {
    if x < 0.0 then -(-x).Floor else x.Floor
  }

  /** Multiplication by name, so that proofs can treat the products of two variables as opaque. */
  function Multiple(n: int, size: int): int {
    n * size
  }

  function AnchoredFold(total: int, foldSize: int, i: int): Fold {
    var trainEnd := Multiple(i + 1, foldSize);
    var testEnd := MinInt(trainEnd + foldSize, total);
    Fold(0, trainEnd, trainEnd, testEnd, trainEnd, MaxInt(0, testEnd - trainEnd))
  }

  function RollingFold(total: int, foldSize: int, trainSize: int, i: int): Fold {
    var trainStart := Multiple(i, foldSize / 2);
    var trainEnd := trainStart + trainSize;
    var testEnd := MinInt(trainEnd + foldSize, total);
    Fold(trainStart, trainEnd, trainEnd, testEnd, trainSize, MaxInt(0, testEnd - trainEnd))
  }

  /** The extra fold appended when the last one stops short of the end. */
  function CatchUpFold(total: int, foldSize: int, last: Fold): Fold {
    var testEnd := MinInt(total, last.testEnd + foldSize);
    var trainStart := MaxInt(0, last.testStart - foldSize);
    Fold(trainStart, last.testStart, last.testStart, testEnd, last.testStart - trainStart, testEnd - last.testStart)
  }

  function Anchored(total: int, foldSize: int, folds: nat): seq<Fold> {
    seq(folds, i => AnchoredFold(total, foldSize, i))
  }

  function Sliding(total: int, foldSize: int, trainSize: int, folds: nat): seq<Fold> {
    seq(folds, i => RollingFold(total, foldSize, trainSize, i))
  }

  function WithCatchUp(total: int, foldSize: int, indices: seq<Fold>): seq<Fold> {
    if indices != [] && indices[|indices| - 1].testEnd < total
    then indices + [CatchUpFold(total, foldSize, indices[|indices| - 1])]
    else indices
  }

  /** The whole plan; the train size of a rolling fold is the truncated share of the fold size. */
  function Plan(total: int, folds: int, trainRatio: real, anchored: bool): seq<Fold> {
    if total < 3 || folds < 2 then []
    else
      var foldSize := total / folds;
      if anchored then Anchored(total, foldSize, folds)
      else
        WithCatchUp(total, foldSize,
                    Sliding(total, foldSize, TrainSize(foldSize, trainRatio), folds - 1))
  }

  function TrainSize(foldSize: int, trainRatio: real): int {
    Truncate(foldSize as real * trainRatio)
  }

  method ComputeFoldIndices(totalBars: int, folds: int, trainRatio: real, anchored: bool) returns (indices: seq<Fold>)
    ensures indices == Plan(totalBars, folds, trainRatio, anchored)
  {
    hide Multiple, TrainSize;
    indices := [];
    if totalBars < 3 || folds < 2 {
      return;
    }
    var foldSize := totalBars / folds;
    if anchored {
      for i := 0 to folds
        invariant indices == Anchored(totalBars, foldSize, i)
      {
        var trainEnd := Multiple(i + 1, foldSize);
        var testEnd := MinInt(trainEnd + foldSize, totalBars);
        indices := indices + [Fold(0, trainEnd, trainEnd, testEnd, trainEnd, MaxInt(0, testEnd - trainEnd))];
      }
    } else {
      for i := 0 to folds - 1
        invariant indices == Sliding(totalBars, foldSize, TrainSize(foldSize, trainRatio), i)
      {
        var trainStart := Multiple(i, foldSize / 2);
        var trainEnd := trainStart + TrainSize(foldSize, trainRatio);
        var testStart := trainEnd;
        var testEnd := MinInt(testStart + foldSize, totalBars);
        indices := indices + [Fold(trainStart, trainEnd, testStart, testEnd, trainEnd - trainStart,
                                   MaxInt(0, testEnd - testStart))];
      }
      if indices != [] && indices[|indices| - 1].testEnd < totalBars {
        var last := indices[|indices| - 1];
        var lastTestEnd := MinInt(totalBars, last.testEnd + foldSize);
        var lastTrainStart := MaxInt(0, last.testStart - foldSize);
        indices := indices + [Fold(lastTrainStart, last.testStart, last.testStart, lastTestEnd,
                                   last.testStart - lastTrainStart, lastTestEnd - last.testStart)];
      }
    }
  }

  /** int() drops the fraction, towards zero on either side. */
  lemma TruncatesTowardsZero(x: real)
    ensures 0.0 <= x ==> Truncate(x) as real <= x < Truncate(x) as real + 1.0
    ensures x <= 0.0 ==> Truncate(x) as real - 1.0 < x <= Truncate(x) as real
  {
    var y := if x < 0.0 then -x else x;
    assert y.Floor as real <= y < y.Floor as real + 1.0;
  }

  /** The fold trains on the truncated share from its start, and tests on the fold that follows, cut off at the last bar. */
  ghost predicate Rolls(f: Fold, total: int, foldSize: int, trainRatio: real, trainStart: int) {
    var share := foldSize as real * trainRatio;
    && f.trainStart == trainStart && f.trainEnd == f.testStart == f.trainStart + f.trainCount
    && (0.0 <= share ==> f.trainCount as real <= share < f.trainCount as real + 1.0)
    && (share <= 0.0 ==> f.trainCount as real - 1.0 < share <= f.trainCount as real)
    && f.testEnd == MinInt(total, f.testStart + foldSize)
    && f.testCount == MaxInt(0, f.testEnd - f.testStart)
  }

  /** The extra fold tests from the last test start to a fold further, after training on the fold of bars before it. */
  ghost predicate CatchesUp(extra: Fold, last: Fold, total: int, foldSize: int) {
    && extra.testStart == extra.trainEnd == last.testStart
    && extra.trainStart == extra.trainEnd - extra.trainCount
    && extra.trainCount == MinInt(foldSize, last.testStart)
    && extra.testEnd == MinInt(total, last.testEnd + foldSize)
    && extra.testCount == extra.testEnd - extra.testStart
  }

  lemma FoldRolls(total: int, foldSize: int, trainRatio: real, k: int)
    ensures Rolls(RollingFold(total, foldSize, TrainSize(foldSize, trainRatio), k), total, foldSize,
                  trainRatio, Multiple(k, foldSize / 2))
  {
    TruncatesTowardsZero(foldSize as real * trainRatio);
    hide Multiple, Truncate;
  }

  lemma ExtraCatchesUp(total: int, foldSize: int, last: Fold)
    ensures CatchesUp(CatchUpFold(total, foldSize, last), last, total, foldSize)
  {
  }

  /**
   * A rolling plan in its own terms: fold k starts k half folds in and rolls on from there; exactly when
   * the last test window stops short, one more fold catches up.
   */
  lemma RollingPlanExactly(total: int, folds: int, trainRatio: real)
    requires 3 <= total && 2 <= folds
    ensures var plan, foldSize := Plan(total, folds, trainRatio, false), total / folds;
      && folds - 1 <= |plan| <= folds
      && (forall k :: 0 <= k < folds - 1 ==>
            Rolls(plan[k], total, foldSize, trainRatio, Multiple(k, foldSize / 2)))
      && (|plan| == folds <==> plan[folds - 2].testEnd < total)
      && (|plan| == folds ==> CatchesUp(plan[folds - 1], plan[folds - 2], total, foldSize))
  {
    hide Rolls, RollingFold, Multiple, TrainSize, CatchesUp, CatchUpFold;
    var foldSize := total / folds;
    var sliding := Sliding(total, foldSize, TrainSize(foldSize, trainRatio), folds - 1);
    forall k | 0 <= k < folds - 1
      ensures Rolls(sliding[k], total, foldSize, trainRatio, Multiple(k, foldSize / 2))
    {
      FoldRolls(total, foldSize, trainRatio, k);
    }
    var plan := Plan(total, folds, trainRatio, false);
    assert plan == WithCatchUp(total, foldSize, sliding);
    if |plan| == folds {
      ExtraCatchesUp(total, foldSize, plan[folds - 2]);
    }
    forall k | 0 <= k < folds - 1
      ensures Rolls(plan[k], total, foldSize, trainRatio, Multiple(k, foldSize / 2))
    {
      assert plan[k] == sliding[k];
    }
  }

  /** Training ends where testing starts, all within the bars, and the counts are the widths. */
  predicate Safe(f: Fold, total: int) {
    && 0 <= f.trainStart <= f.trainEnd == f.testStart <= f.testEnd <= total
    && f.trainCount == f.trainEnd - f.trainStart
    && f.testCount == f.testEnd - f.testStart
  }

  ghost predicate AllSafe(plan: seq<Fold>, total: int) {
    forall k :: 0 <= k < |plan| ==> Safe(plan[k], total)
  }

  lemma MultipleGrows(i: int, j: int, size: int)
    requires i <= j && 0 <= size
    ensures Multiple(i, size) <= Multiple(j, size)
    ensures Multiple(0, size) == 0
  {
    assert 0 <= (j - i) * size;
  }

  lemma MultipleStep(n: int, size: int)
    ensures Multiple(n + 1, size) == Multiple(n, size) + size
  {
  }

  lemma FoldSizeFits(total: int, folds: int)
    requires 0 <= total && 2 <= folds
    ensures 0 <= total / folds && Multiple(folds, total / folds) <= total
    ensures 1 <= total / folds <==> folds <= total
  {
  }

  /** Anchored folds are safe whatever the ratio, and there are as many as asked for. */
  lemma AnchoredFoldsAreSafe(total: int, folds: int, trainRatio: real)
    requires 3 <= total && 2 <= folds
    ensures var plan := Plan(total, folds, trainRatio, true); |plan| == folds && AllSafe(plan, total)
  {
    hide Multiple, TrainSize;
    var foldSize := total / folds;
    var plan := Plan(total, folds, trainRatio, true);
    FoldSizeFits(total, folds);
    forall k | 0 <= k < |plan|
      ensures Safe(plan[k], total)
    {
      MultipleGrows(0, k + 1, foldSize);
      MultipleGrows(k + 1, folds, foldSize);
    }
  }

  /** The sliding folds all start their tests within the bars, after a train size that is not negative. */
  predicate SlidesWithin(total: int, foldSize: int, trainSize: int, folds: int) {
    0 <= trainSize && Multiple(folds - 2, foldSize / 2) + trainSize <= total
  }

  /**
   * Rolling folds are safe exactly when the train size is not negative and the last of the sliding
   * folds still starts its test within the bars.
   */
  lemma RollingFoldsSafeExactly(total: int, folds: int, trainRatio: real)
    requires 3 <= total && 2 <= folds
    ensures AllSafe(Plan(total, folds, trainRatio, false), total) <==>
            SlidesWithin(total, total / folds, TrainSize(total / folds, trainRatio), folds)
  {
    hide TrainSize, Multiple;
    FoldSizeFits(total, folds);
    var foldSize, trainSize := total / folds, TrainSize(total / folds, trainRatio);
    SlidingSafeExactly(total, foldSize, trainSize, folds);
    CatchUpSafeExactly(total, foldSize, Sliding(total, foldSize, trainSize, folds - 1));
    hide Sliding, WithCatchUp, AllSafe;
  }

  /** Ten bars in two folds with a ratio of 2.2: the only sliding fold trains on eleven bars. */
  lemma RollingFoldsOvershoot()
    ensures var plan := Plan(10, 2, 2.2, false);
      plan != [] && plan[0].trainEnd == 11 > 10 && !AllSafe(plan, 10)
  {
    hide CatchUpFold, TrainSize, AllSafe, SlidesWithin;
    ElevenBars();
    RollingFoldsSafeExactly(10, 2, 2.2);
    var sliding := Sliding(10, 5, 11, 1);
    assert sliding[0] == RollingFold(10, 5, 11, 0);
  }

  lemma ElevenBars()
    ensures TrainSize(5, 2.2) == 11 && !SlidesWithin(10, 5, 11, 2) && Multiple(0, 2) == 0
  {
    assert 5 as real * 2.2 == 11.0;
  }

  lemma CatchUpSafeExactly(total: int, foldSize: int, sliding: seq<Fold>)
    requires 0 <= foldSize && sliding != []
    ensures AllSafe(WithCatchUp(total, foldSize, sliding), total) <==> AllSafe(sliding, total)
  {
    var plan := WithCatchUp(total, foldSize, sliding);
    assert forall k :: 0 <= k < |sliding| ==> plan[k] == sliding[k];
    if AllSafe(sliding, total) {
      assert Safe(sliding[|sliding| - 1], total);
    }
  }

  lemma SlidingSafeExactly(total: int, foldSize: int, trainSize: int, folds: int)
    requires 0 <= total && 0 <= foldSize && 2 <= folds
    ensures |Sliding(total, foldSize, trainSize, folds - 1)| == folds - 1
    ensures AllSafe(Sliding(total, foldSize, trainSize, folds - 1), total) <==>
            SlidesWithin(total, foldSize, trainSize, folds)
  {
    hide Multiple;
    var sliding := Sliding(total, foldSize, trainSize, folds - 1);
    MultipleGrows(0, folds - 2, foldSize / 2);
    if SlidesWithin(total, foldSize, trainSize, folds) {
      forall k | 0 <= k < |sliding|
        ensures Safe(sliding[k], total)
      {
        MultipleGrows(0, k, foldSize / 2);
        MultipleGrows(k, folds - 2, foldSize / 2);
      }
    } else {
      assert sliding[folds - 2] == RollingFold(total, foldSize, trainSize, folds - 2);
    }
  }

  lemma ShareIsWithin(foldSize: int, trainRatio: real)
    requires 0 <= foldSize && 0.0 <= trainRatio <= 1.0
    ensures 0 <= TrainSize(foldSize, trainRatio) <= foldSize
  {
    var x := foldSize as real;
    assert 0.0 <= x * trainRatio;
    assert 0.0 <= x * (1.0 - trainRatio) == x - x * trainRatio;
  }

  /** With a ratio between 0 and 1 every rolling fold is safe. */
  lemma RollingFoldsAreSafe(total: int, folds: int, trainRatio: real)
    requires 3 <= total && 2 <= folds && 0.0 <= trainRatio <= 1.0
    ensures AllSafe(Plan(total, folds, trainRatio, false), total)
  {
    FoldSizeFits(total, folds);
    ShareIsWithin(total / folds, trainRatio);
    RollingFoldsSafeExactly(total, folds, trainRatio);
    RollingReach(total, folds);
    hide TrainSize, Plan, Multiple;
  }

  /** Half-steps reach at most half of the bars, so a whole fold still fits behind them. */
  lemma RollingReach(total: int, folds: int)
    requires 3 <= total && 2 <= folds
    ensures var foldSize := total / folds;
      && Multiple(folds - 2, foldSize / 2) + foldSize <= total
      && (folds <= total ==> Multiple(folds - 2, foldSize / 2) + foldSize < total)
  {
    var foldSize := total / folds;
    FoldSizeFits(total, folds);
    MultipleStep(folds - 2, foldSize);
    MultipleStep(folds - 1, foldSize);
    HalfSteps(folds - 2, foldSize);
    MultipleGrows(0, folds - 2, foldSize / 2);
    hide Multiple;
  }

  lemma HalfSteps(n: int, size: int)
    requires 0 <= n && 0 <= size
    ensures 2 * Multiple(n, size / 2) <= Multiple(n, size)
  {
    var half := size / 2;
    assert 0 <= n * (size - 2 * half);
  }

  /** Every rolling fold, the appended one included, has bars to test on exactly when there are enough bars. */
  lemma RollingTestsAreNonempty(total: int, folds: int, trainRatio: real)
    requires 3 <= total && 2 <= folds && 0.0 <= trainRatio <= 1.0
    ensures var plan := Plan(total, folds, trainRatio, false);
      (forall k :: 0 <= k < |plan| ==> 0 < plan[k].testCount) <==> folds <= total
  {
    FoldSizeFits(total, folds);
    ShareIsWithin(total / folds, trainRatio);
    RollingReach(total, folds);
    hide TrainSize, Multiple;
    var foldSize, trainSize := total / folds, TrainSize(total / folds, trainRatio);
    var sliding := Sliding(total, foldSize, trainSize, folds - 1);
    var plan := Plan(total, folds, trainRatio, false);
    assert forall k :: 0 <= k < |sliding| ==> plan[k] == sliding[k];
    if folds <= total {
      SlidingTestsNonempty(total, foldSize, trainSize, folds);
    } else {
      MultipleGrows(0, 0, 0);
      assert plan[0] == RollingFold(total, 0, 0, 0);
    }
  }

  lemma SlidingTestsNonempty(total: int, foldSize: int, trainSize: int, folds: int)
    requires 2 <= folds && 1 <= foldSize && 0 <= trainSize <= foldSize
    requires Multiple(folds - 2, foldSize / 2) + foldSize < total
    ensures var sliding := Sliding(total, foldSize, trainSize, folds - 1);
      forall k :: 0 <= k < |sliding| ==>
        0 < sliding[k].testCount && sliding[k].testStart < sliding[k].testEnd
  {
    hide Multiple;
    var sliding := Sliding(total, foldSize, trainSize, folds - 1);
    forall k | 0 <= k < |sliding|
      ensures 0 < sliding[k].testCount && sliding[k].testStart < sliding[k].testEnd
    {
      MultipleGrows(k, folds - 2, foldSize / 2);
    }
  }

  /**
   * Anchored test windows follow each other without gap or overlap from the end of the first fold
   * up to the last whole fold, or the end of the bars.
   */
  lemma AnchoredTestsTile(total: int, folds: int, trainRatio: real)
    requires 3 <= total && 2 <= folds
    ensures var foldSize, plan := total / folds, Plan(total, folds, trainRatio, true);
      && |plan| == folds
      && plan[0].testStart == foldSize
      && (forall k, m :: 0 <= k && m == k + 1 < folds ==> plan[k].testEnd == plan[m].testStart)
      && plan[folds - 1].testEnd == MinInt(Multiple(folds + 1, foldSize), total)
  {
    var foldSize, plan := total / folds, Plan(total, folds, trainRatio, true);
    FoldSizeFits(total, folds);
    MultipleGrows(0, 0, foldSize);
    MultipleStep(0, foldSize);
    MultipleStep(folds, foldSize);
    hide Multiple, TrainSize;
    forall k, m | 0 <= k && m == k + 1 < folds
      ensures plan[k].testEnd == plan[m].testStart
    {
      MultipleStep(m, foldSize);
      MultipleGrows(m + 1, folds, foldSize);
    }
  }

  /** Each bar behind the first fold and before that end is tested in exactly one anchored fold. */
  lemma AnchoredBarTestedOnce(total: int, folds: int, trainRatio: real, bar: int) returns (k: int)
    requires folds <= total && 3 <= total && 2 <= folds
    requires total / folds <= bar < MinInt(Multiple(folds + 1, total / folds), total)
    ensures var plan := Plan(total, folds, trainRatio, true);
      && 0 <= k < |plan| && plan[k].testStart <= bar < plan[k].testEnd
      && forall m :: 0 <= m < |plan| && plan[m].testStart <= bar < plan[m].testEnd ==> m == k
  {
    var foldSize, plan := total / folds, Plan(total, folds, trainRatio, true);
    FoldSizeFits(total, folds);
    k := bar / foldSize - 1;
    QuotientBounds(bar, foldSize, folds);
    hide Multiple, TrainSize;
    forall m | 0 <= m < |plan| && plan[m].testStart <= bar < plan[m].testEnd
      ensures m == k
    {
      SameQuotient(bar, foldSize, m + 1);
    }
  }

  lemma QuotientBounds(bar: int, size: int, folds: int)
    requires 1 <= size <= bar < Multiple(folds + 1, size)
    ensures 1 <= bar / size <= folds
    ensures Multiple(bar / size, size) <= bar < Multiple(bar / size, size) + size
  {
    SameQuotient(bar, size, bar / size);
    if folds < bar / size {
      MultipleGrows(folds + 1, bar / size, size);
    }
  }

  lemma SameQuotient(bar: int, size: int, q: int)
    requires 1 <= size
    ensures Multiple(bar / size, size) <= bar < Multiple(bar / size, size) + size
    ensures Multiple(q, size) <= bar < Multiple(q, size) + size ==> q == bar / size
  {
    var p := bar / size;
    assert Multiple(p, size) <= bar < Multiple(p, size) + size;
    hide Multiple;
    if q < p {
      MultipleStep(q, size);
      MultipleGrows(q + 1, p, size);
    } else if p < q {
      MultipleStep(p, size);
      MultipleGrows(p + 1, q, size);
    }
  }
}
