/** Drawdown from the running peak, its maximum, and what it says about pairs of bars. */
module Drawdown {
  import opened Prelude

  /** The highest of the values up to and including position k. */
  function PeakAt(values: seq<real>, k: nat): real
    requires k < |values|
  {
    if k == 0 then values[0] else Max(PeakAt(values, k - 1), values[k])
  }

  function DrawdownAt(values: seq<real>, k: nat): real
    requires k < |values|
  {
    DrawdownFrom(PeakAt(values, k), values[k])
  }

  /** The largest drawdown of the first n positions, at least zero. */
  ghost predicate IsLargest(values: seq<real>, n: nat, largest: real)
    requires n <= |values|
  {
    && 0.0 <= largest
    && (forall k :: 0 <= k < n ==> DrawdownAt(values, k) <= largest)
    && (largest == 0.0 || exists k :: 0 <= k < n && DrawdownAt(values, k) == largest)
  }

  method MaxDrawdown(values: seq<real>) returns (maxDrawdown: real)
    ensures |values| < 2 ==> maxDrawdown == 0.0
    ensures IsLargest(values, |values|, maxDrawdown)
  {
    maxDrawdown := 0.0;
    if |values| < 2 {
      if |values| == 1 {
        NoDropFromSelf(values[0]);
        assert DrawdownAt(values, 0) == 0.0;
      }
      return;
    }
    var peak := values[0];
    for k := 0 to |values|
      invariant peak == PeakAt(values, MaxInt(0, k - 1))
      invariant IsLargest(values, k, maxDrawdown)
    {
      if values[k] > peak {
        peak := values[k];
      }
      hide DrawdownFrom;
      var drawdown := DrawdownFrom(peak, values[k]);
      assert drawdown == DrawdownAt(values, k);
      if drawdown > maxDrawdown {
        maxDrawdown := drawdown;
      }
    }
  }

  lemma NoDropFromSelf(v: real)
    ensures DrawdownFrom(v, v) == 0.0
  {
  }

  /** The drawdown at every bar, as a number that is not positive. */
  method RollingDrawdown(values: seq<real>) returns (result: seq<real>)
    ensures |result| == |values|
    ensures forall k :: 0 <= k < |values| ==> result[k] == -DrawdownAt(values, k)
  {
    result := [];
    if values == [] {
      return;
    }
    var peak := values[0];
    for k := 0 to |values|
      invariant peak == PeakAt(values, MaxInt(0, k - 1))
      invariant |result| == k && forall m :: 0 <= m < k ==> result[m] == -DrawdownAt(values, m)
    {
      peak := Max(peak, values[k]);
      var drop := if peak > 0.0 then (values[k] - peak) / peak else 0.0;
      NegatedDrop(peak, values[k]);
      assert peak == PeakAt(values, k);
      result := result + [drop];
    }
  }

  lemma NegatedDrop(peak: real, value: real)
    ensures (if peak > 0.0 then (value - peak) / peak else 0.0) == -DrawdownFrom(peak, value)
  {
    if peak > 0.0 {
      assert (value - peak) / peak == -((peak - value) / peak);
    }
  }

  lemma {:induction false} PeakIsHighest(values: seq<real>, k: nat)
    requires k < |values|
    ensures forall i :: 0 <= i <= k ==> values[i] <= PeakAt(values, k)
    ensures exists i :: 0 <= i <= k && values[i] == PeakAt(values, k)
  {
    if k == 0 {
      assert values[0] == PeakAt(values, k);
    } else {
      PeakIsHighest(values, k - 1);
      var i :| 0 <= i <= k - 1 && values[i] == PeakAt(values, k - 1);
      var highest := if values[i] < values[k] then k else i;
      assert values[highest] == PeakAt(values, k);
    }
  }

  /** The loss from bar i to bar j as a fraction of the value at i. */
  function PairDrop(values: seq<real>, i: nat, j: nat): real
    requires i < |values| && j < |values|
  {
    DrawdownFrom(values[i], values[j])
  }

  lemma HigherPeakDropsMore(low: real, high: real, value: real)
    requires 0.0 <= value && low <= high
    ensures DrawdownFrom(low, value) <= DrawdownFrom(high, value) || DrawdownFrom(low, value) <= 0.0
    ensures 0.0 <= value <= high ==> 0.0 <= DrawdownFrom(high, value) <= 1.0
    ensures 0.0 < value <= high ==> DrawdownFrom(high, value) < 1.0
  {
    if 0.0 < low {
      OneMinusRatio(low, value);
      OneMinusRatio(high, value);
      RatioFalls(low, high, value);
    } else if 0.0 < high {
      OneMinusRatio(high, value);
    }
  }

  lemma OneMinusRatio(peak: real, value: real)
    requires 0.0 < peak && 0.0 <= value
    ensures DrawdownFrom(peak, value) == 1.0 - value / peak
    ensures 0.0 <= value / peak && (0.0 < value ==> 0.0 < value / peak)
    ensures value <= peak ==> value / peak <= 1.0
  {
    assert (peak - value) / peak == peak / peak - value / peak;
  }

  lemma RatioFalls(low: real, high: real, value: real)
    requires 0.0 < low <= high && 0.0 <= value
    ensures value / high <= value / low
  {
    var q := value / high;
    assert q * low <= q * high == value;
    assert q <= value / low;
  }

  /** No pair of bars loses a larger fraction than the single pass reports. */
  ghost predicate BoundsPairs(values: seq<real>, largest: real) {
    forall i, j :: 0 <= i <= j < |values| ==> PairDrop(values, i, j) <= largest
  }

  /** Once equity has been positive it is never negative. */
  ghost predicate StaysAboveWater(values: seq<real>) {
    forall i, j :: 0 <= i <= j < |values| && values[i] > 0.0 ==> 0.0 <= values[j]
  }

  /** The bar at j loses more than everything that the bar at i was worth. */
  predicate Sinks(values: seq<real>, i: nat, j: nat) {
    i <= j < |values| && values[i] > 0.0 > values[j]
  }

  /**
   * The worst of the falls below zero, from m to k, starts at the only positive value seen by then.
   * The quotients of two falls are compared by multiplying across.
   */
  ghost predicate SinksFromFirstPeak(values: seq<real>, m: nat, k: nat) {
    && Sinks(values, m, k)
    && (forall i :: 0 <= i <= k && values[i] > 0.0 ==> values[i] == values[m])
    && (forall i: nat, j: nat :: Sinks(values, i, j) ==>
          Times(values[k], values[i]) <= Times(values[j], values[m]))
  }

  lemma SinkingDrop(peak: real, value: real)
    requires peak > 0.0 > value
    ensures DrawdownFrom(peak, value) > 1.0
    ensures DrawdownFrom(peak, value) == 1.0 - value / peak
  {
    assert (peak - value) / peak == peak / peak - value / peak;
    NegativeQuotient(value, peak);
  }

  lemma NegativeQuotient(x: real, y: real)
    requires x < 0.0 < y
    ensures x / y < 0.0
  {
  }

  /** Falls below zero compare as their cross products do. */
  lemma CompareDrops(p: real, x: real, q: real, y: real)
    requires p > 0.0 > x && q > 0.0 > y
    ensures DrawdownFrom(q, y) <= DrawdownFrom(p, x) <==> Times(x, q) <= Times(y, p)
  {
    SinkingDrop(p, x);
    SinkingDrop(q, y);
    var r, t := x / p, y / q;
    assert x == r * p && y == t * q;
    assert Times(y, p) - Times(x, q) == (t - r) * (p * q) by {
      assert (t * q) * p - (r * p) * q == (t - r) * (p * q);
    }
    SignOfProduct(t - r, p, q);
  }

  lemma SignOfProduct(x: real, p: real, q: real)
    requires p > 0.0 && q > 0.0
    ensures 0.0 <= x * (p * q) <==> 0.0 <= x
  {
    assert p * q > 0.0;
  }

  /** The drawdown at a bar is a drop from some bar not later. */
  lemma PeakPair(values: seq<real>, k: nat) returns (m: nat)
    requires k < |values|
    ensures m <= k && values[m] == PeakAt(values, k) && DrawdownAt(values, k) == PairDrop(values, m, k)
    ensures forall i :: 0 <= i <= k ==> values[i] <= values[m]
  {
    PeakIsHighest(values, k);
    m :| 0 <= m <= k && values[m] == PeakAt(values, k);
  }

  /** The reported maximum exceeds 1 exactly when equity falls below zero after having been positive. */
  lemma AboveWaterExactly(values: seq<real>, largest: real)
    requires IsLargest(values, |values|, largest)
    ensures largest <= 1.0 <==> StaysAboveWater(values)
  {
    hide DrawdownFrom, PeakAt;
    if StaysAboveWater(values) {
      if largest != 0.0 {
        var k :| 0 <= k < |values| && DrawdownAt(values, k) == largest;
        var m := PeakPair(values, k);
        DropAboveWater(values[m], values[k]);
      }
    } else {
      var i, j :| 0 <= i <= j < |values| && values[i] > 0.0 && values[j] < 0.0;
      var m := PeakPair(values, j);
      SinkingDrop(values[m], values[j]);
      assert DrawdownAt(values, j) <= largest;
    }
  }

  lemma DropAboveWater(peak: real, value: real)
    requires peak > 0.0 ==> 0.0 <= value
    ensures DrawdownFrom(peak, value) <= 1.0
    ensures 0.0 < value ==> DrawdownFrom(peak, value) < 1.0
  {
    if peak > 0.0 {
      OneMinusRatio(peak, value);
    }
  }

  lemma AboveWaterBounds(values: seq<real>, largest: real)
    requires IsLargest(values, |values|, largest) && StaysAboveWater(values)
    ensures BoundsPairs(values, largest)
  {
    hide DrawdownFrom;
    forall i, j | 0 <= i <= j < |values|
      ensures PairDrop(values, i, j) <= largest
    {
      PeakIsHighest(values, j);
      if values[i] > 0.0 {
        HigherPeakDropsMore(values[i], PeakAt(values, j), values[j]);
      } else {
        NoDropFromLoss(values[i], values[j]);
      }
      assert DrawdownAt(values, j) <= largest;
    }
  }

  lemma NoDropFromLoss(start: real, value: real)
    requires start <= 0.0
    ensures DrawdownFrom(start, value) == 0.0
  {
  }

  lemma FirstPeakBounds(values: seq<real>, largest: real, m: nat, k: nat)
    requires IsLargest(values, |values|, largest) && SinksFromFirstPeak(values, m, k)
    ensures BoundsPairs(values, largest)
  {
    hide DrawdownFrom;
    var peak := PeakPair(values, k);
    assert values[peak] == values[m];
    SinkingDrop(values[m], values[k]);
    assert DrawdownAt(values, k) <= largest;
    forall i, j | 0 <= i <= j < |values|
      ensures PairDrop(values, i, j) <= largest
    {
      if Sinks(values, i, j) {
        CompareDrops(values[m], values[k], values[i], values[j]);
      } else {
        DropAboveWater(values[i], values[j]);
      }
    }
  }

  /** If equity sinks and yet no pair beats the single pass, the worst fall starts at the first peak. */
  lemma WorstFall(values: seq<real>, largest: real) returns (m: nat, k: nat)
    requires IsLargest(values, |values|, largest) && BoundsPairs(values, largest) && !StaysAboveWater(values)
    ensures SinksFromFirstPeak(values, m, k)
  {
    hide DrawdownFrom, PeakAt;
    AboveWaterExactly(values, largest);
    k :| 0 <= k < |values| && DrawdownAt(values, k) == largest;
    m := PeakPair(values, k);
    if !(values[m] > 0.0 > values[k]) {
      DropAboveWater(values[m], values[k]);
    }
    forall i: nat, j: nat | Sinks(values, i, j)
      ensures Times(values[k], values[i]) <= Times(values[j], values[m])
    {
      assert PairDrop(values, i, j) <= largest;
      CompareDrops(values[m], values[k], values[i], values[j]);
    }
    forall i | 0 <= i <= k && values[i] > 0.0
      ensures values[i] == values[m]
    {
      assert Sinks(values, i, k);
      LowerStart(values[k], values[i], values[m]);
    }
  }

  lemma LowerStart(value: real, low: real, high: real)
    requires value < 0.0
    ensures low < high ==> Times(value, high) < Times(value, low)
  {
    assert low < high ==> value * (high - low) < 0.0;
  }

  /**
   * Main theorem: the single pass finds the largest loss over all pairs of bars exactly when equity
   * stays above water, or its worst fall below zero starts at the only positive value seen by then.
   * What it reports is always the loss of some pair; it is at most 1 exactly above water, and
   * below 1 while equity is positive.
   */
  lemma MaxDrawdownIsOverPairs(values: seq<real>, largest: real)
    requires IsLargest(values, |values|, largest)
    ensures BoundsPairs(values, largest) <==>
            StaysAboveWater(values) || exists m: nat, k: nat :: SinksFromFirstPeak(values, m, k)
    ensures largest == 0.0 || exists i, j :: 0 <= i <= j < |values| && PairDrop(values, i, j) == largest
    ensures 0.0 <= largest && (largest <= 1.0 <==> StaysAboveWater(values))
    ensures (forall k :: 0 <= k < |values| ==> 0.0 < values[k]) ==> largest < 1.0
  {
    hide DrawdownFrom, PeakAt, SinksFromFirstPeak, StaysAboveWater, BoundsPairs;
    AboveWaterExactly(values, largest);
    if StaysAboveWater(values) {
      AboveWaterBounds(values, largest);
    } else if BoundsPairs(values, largest) {
      var m, k := WorstFall(values, largest);
    } else {
      forall m: nat, k: nat
        ensures !SinksFromFirstPeak(values, m, k)
      {
        if SinksFromFirstPeak(values, m, k) {
          FirstPeakBounds(values, largest, m, k);
        }
      }
    }
    if largest != 0.0 {
      var k :| 0 <= k < |values| && DrawdownAt(values, k) == largest;
      var m := PeakPair(values, k);
      if 0.0 < values[k] {
        DropAboveWater(values[m], values[k]);
      }
    }
  }

  /** A curve that sinks after a second, higher peak: the pair from the first one loses more. */
  lemma NegativeEquityExample()
    ensures var values := [1.0, 2.0, -1.0];
      IsLargest(values, 3, 1.5) && PairDrop(values, 0, 2) == 2.0
  {
    var values := [1.0, 2.0, -1.0];
    assert PeakAt(values, 0) == 1.0 && PeakAt(values, 1) == 2.0 && PeakAt(values, 2) == 2.0;
    assert DrawdownAt(values, 0) == 0.0 && DrawdownAt(values, 1) == 0.0 && DrawdownAt(values, 2) == 1.5;
  }

  /** A curve that sinks from its first peak and is still reported right. */
  lemma SinkingCurveReportedRight()
    ensures var values := [1.0, -1.0, 2.0];
      IsLargest(values, 3, 2.0) && !StaysAboveWater(values) && BoundsPairs(values, 2.0)
  {
    var values := [1.0, -1.0, 2.0];
    assert PeakAt(values, 0) == 1.0 && PeakAt(values, 1) == 1.0 && PeakAt(values, 2) == 2.0;
    assert DrawdownAt(values, 0) == 0.0 && DrawdownAt(values, 1) == 2.0 && DrawdownAt(values, 2) == 0.0;
    assert values[0] > 0.0 > values[1];
  }

  /** The maximum drawdown is minus the lowest point of the rolling drawdown. */
  lemma MaxIsLowestRolling(values: seq<real>, largest: real, rolling: seq<real>)
    requires IsLargest(values, |values|, largest) && |rolling| == |values| && values != []
    requires forall k :: 0 <= k < |values| ==> rolling[k] == -DrawdownAt(values, k)
    ensures forall k :: 0 <= k < |rolling| ==> -largest <= rolling[k]
    ensures -largest in rolling
  {
    if largest == 0.0 {
      NoDropFromSelf(values[0]);
      assert rolling[0] == 0.0;
    } else {
      var k :| 0 <= k < |values| && DrawdownAt(values, k) == largest;
      assert rolling[k] == -largest;
    }
  }
}
