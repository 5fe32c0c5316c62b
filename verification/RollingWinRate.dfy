/** Rolling win rate by prefix sums, against scanning the trades for every window. */
module RollingWinRate {
  import opened Prelude

  datatype Trade = Trade(exitDate: string, pnl: real)

  /** The first bar with the given date. */
  function FirstBar(dates: seq<string>, date: string): Option<nat> {
    if dates == [] then None
    else
      var n := |dates| - 1;
      var before := FirstBar(dates[..n], date);
      if before.Some? then before else if dates[n] == date then Some(n) else None
  }

  lemma {:induction false} FirstBarIsFirst(dates: seq<string>, date: string)
    ensures match FirstBar(dates, date)
            case None => date !in dates
            case Some(i) => i < |dates| && dates[i] == date && forall k :: 0 <= k < i ==> dates[k] != date
  {
    if dates != [] {
      var n := |dates| - 1;
      FirstBarIsFirst(dates[..n], date);
      assert dates == dates[..n] + [dates[n]];
      assert forall k :: 0 <= k < n ==> dates[..n][k] == dates[k];
    }
  }

  /** Whether the trade closes at a bar from lo up to but not including hi, and counts. */
  predicate Closes(dates: seq<string>, t: Trade, lo: int, hi: int, winsOnly: bool) {
    var bar := FirstBar(dates, t.exitDate);
    bar.Some? && lo <= bar.value < hi && (winsOnly ==> t.pnl > 0.0)
  }

  /** The scan: how many trades close in [lo, hi). */
  function Count(dates: seq<string>, trades: seq<Trade>, lo: int, hi: int, winsOnly: bool): nat {
    if trades == [] then 0
    else
      var n := |trades| - 1;
      Count(dates, trades[..n], lo, hi, winsOnly) + if Closes(dates, trades[n], lo, hi, winsOnly) then 1 else 0
  }

  lemma {:induction false} CountSplits(dates: seq<string>, trades: seq<Trade>, lo: int, mid: int, hi: int, winsOnly: bool)
    requires lo <= mid <= hi
    ensures Count(dates, trades, lo, mid, winsOnly) + Count(dates, trades, mid, hi, winsOnly)
         == Count(dates, trades, lo, hi, winsOnly)
  {
    if trades != [] {
      CountSplits(dates, trades[..|trades| - 1], lo, mid, hi, winsOnly);
    }
  }

  lemma {:induction false} EmptyRange(dates: seq<string>, trades: seq<Trade>, lo: int, hi: int, winsOnly: bool)
    requires hi <= lo
    ensures Count(dates, trades, lo, hi, winsOnly) == 0
  {
    if trades != [] {
      EmptyRange(dates, trades[..|trades| - 1], lo, hi, winsOnly);
    }
  }

  /** The rate at bar i by scanning: none before the first full window or without trades in it. */
  function RateAt(dates: seq<string>, trades: seq<Trade>, window: nat, i: nat): Option<real> {
    var lo := MaxInt(0, i - window + 1);
    var total := Count(dates, trades, lo, i + 1, false);
    if |dates| < 2 || i < window - 1 || total == 0 then None
    else Some(Count(dates, trades, lo, i + 1, true) as real / total as real)
  }

  lemma {:induction false} WinsAreTrades(dates: seq<string>, trades: seq<Trade>, lo: int, hi: int)
    ensures Count(dates, trades, lo, hi, true) <= Count(dates, trades, lo, hi, false)
  {
    if trades != [] {
      WinsAreTrades(dates, trades[..|trades| - 1], lo, hi);
    }
  }

  /** A rate is a fraction between 0 and 1. */
  lemma RateIsFraction(dates: seq<string>, trades: seq<Trade>, window: nat, i: nat)
    requires RateAt(dates, trades, window, i).Some?
    ensures 0.0 <= RateAt(dates, trades, window, i).value <= 1.0
  {
    var lo := MaxInt(0, i - window + 1);
    WinsAreTrades(dates, trades, lo, i + 1);
    FractionBounds(Count(dates, trades, lo, i + 1, true), Count(dates, trades, lo, i + 1, false));
  }

  lemma FractionBounds(part: nat, whole: nat)
    requires part <= whole && 0 < whole
    ensures 0.0 <= part as real / whole as real <= 1.0
  {
  }

  // ---------------------------------------------------------------------------------------
  // The program
  // ---------------------------------------------------------------------------------------

  /** Trades closing at each bar. */
  function PerBar(dates: seq<string>, trades: seq<Trade>, winsOnly: bool): seq<nat> {
    seq(|dates|, i requires 0 <= i => Count(dates, trades, i, i + 1, winsOnly))
  }

  /** Trades closing before each bar. */
  function Prefixes(dates: seq<string>, trades: seq<Trade>, winsOnly: bool): seq<int> {
    seq(|dates| + 1, i requires 0 <= i => Count(dates, trades, 0, i, winsOnly))
  }

  method IndexDates(dates: seq<string>) returns (index: map<string, nat>)
    ensures forall d :: d in index <==> FirstBar(dates, d).Some?
    ensures forall d :: d in index ==> FirstBar(dates, d) == Some(index[d])
  {
    index := map[];
    for i := 0 to |dates|
      invariant forall d :: d in index <==> FirstBar(dates[..i], d).Some?
      invariant forall d :: d in index ==> FirstBar(dates[..i], d) == Some(index[d])
    {
      assert dates[..i + 1][..i] == dates[..i];
      if dates[i] !in index {
        index := index[dates[i] := i];
      }
    }
    assert dates[..|dates|] == dates;
  }

  method CountPerBar(dates: seq<string>, trades: seq<Trade>) returns (winsAt: seq<nat>, totalAt: seq<nat>)
    ensures winsAt == PerBar(dates, trades, true) && totalAt == PerBar(dates, trades, false)
  {
    var index := IndexDates(dates);
    winsAt, totalAt := seq(|dates|, _ => 0), seq(|dates|, _ => 0);
    assert trades[..0] == [];
    for k := 0 to |trades|
      invariant winsAt == PerBar(dates, trades[..k], true) && totalAt == PerBar(dates, trades[..k], false)
    {
      assert trades[..k + 1][..k] == trades[..k];
      FirstBarIsFirst(dates, trades[k].exitDate);
      hide FirstBar;
      if trades[k].exitDate in index {
        var bar := index[trades[k].exitDate];
        totalAt := totalAt[bar := totalAt[bar] + 1];
        if trades[k].pnl > 0.0 {
          winsAt := winsAt[bar := winsAt[bar] + 1];
        }
      }
      assert winsAt == PerBar(dates, trades[..k + 1], true);
      assert totalAt == PerBar(dates, trades[..k + 1], false);
    }
    assert trades[..|trades|] == trades;
  }

  method PrefixSums(dates: seq<string>, trades: seq<Trade>, counts: seq<nat>, ghost winsOnly: bool)
    returns (prefix: seq<int>)
    requires counts == PerBar(dates, trades, winsOnly)
    ensures prefix == Prefixes(dates, trades, winsOnly)
  {
    hide Count;
    EmptyRange(dates, trades, 0, 0, winsOnly);
    prefix := [0];
    for i := 0 to |counts|
      invariant prefix == Prefixes(dates, trades, winsOnly)[..i + 1]
    {
      CountSplits(dates, trades, 0, i, i + 1, winsOnly);
      prefix := prefix + [prefix[i] + counts[i]];
    }
  }

  function Rate(wins: int, total: int): Option<real> {
    if total > 0 then Some(wins as real / total as real) else None
  }

  /** The scan's rate at a bar, from counts that all start at the first bar. */
  lemma {:induction false} RateFromPrefixes(dates: seq<string>, trades: seq<Trade>, window: nat, i: nat)
    requires 2 <= |dates| && window - 1 <= i
    ensures
      var lo := MaxInt(0, i - window + 1);
      var wins := Count(dates, trades, 0, i + 1, true) - Count(dates, trades, 0, lo, true);
      var total := Count(dates, trades, 0, i + 1, false) - Count(dates, trades, 0, lo, false);
      RateAt(dates, trades, window, i) == Rate(wins, total)
  {
    hide Count;
    var lo := MaxInt(0, i - window + 1);
    CountSplits(dates, trades, 0, lo, i + 1, true);
    CountSplits(dates, trades, 0, lo, i + 1, false);
  }

  /** Where the scan has no rates at all. */
  lemma NoRates(dates: seq<string>, trades: seq<Trade>, window: nat)
    ensures trades == [] || |dates| < 2 ==> forall i: nat :: RateAt(dates, trades, window, i) == None
    ensures forall i: nat :: i < window - 1 ==> RateAt(dates, trades, window, i) == None
  {
  }

  lemma NoClosings(dates: seq<string>, trades: seq<Trade>, window: nat, i: nat)
    requires i < |dates| && forall k :: 0 <= k < |dates| ==> PerBar(dates, trades, false)[k] == 0
    ensures RateAt(dates, trades, window, i) == None
  {
    hide Count;
    var lo := MaxInt(0, i - window + 1);
    if lo <= i + 1 {
      NothingIn(dates, trades, lo, i + 1);
    } else {
      EmptyRange(dates, trades, lo, i + 1, false);
    }
  }

  lemma {:induction false} NothingIn(dates: seq<string>, trades: seq<Trade>, lo: nat, hi: nat)
    requires lo <= hi <= |dates| && forall k :: 0 <= k < |dates| ==> PerBar(dates, trades, false)[k] == 0
    ensures Count(dates, trades, lo, hi, false) == 0
  {
    hide Count;
    if lo == hi {
      EmptyRange(dates, trades, lo, hi, false);
    } else {
      NothingIn(dates, trades, lo, hi - 1);
      CountSplits(dates, trades, lo, hi - 1, hi, false);
      assert PerBar(dates, trades, false)[hi - 1] == Count(dates, trades, hi - 1, hi, false);
    }
  }

  /** Every cell of the fast form equals the scan. */
  method RollingWinRate(dates: seq<string>, trades: seq<Trade>, window: nat) returns (result: seq<Option<real>>)
    ensures |result| == |dates|
    ensures forall i :: 0 <= i < |dates| ==> result[i] == RateAt(dates, trades, window, i)
  {
    hide Count, RateAt;
    var n := |dates|;
    result := seq(n, _ => None);
    NoRates(dates, trades, window);
    if trades == [] || n < 2 {
      return;
    }
    var winsAt, totalAt := CountPerBar(dates, trades);
    if forall k :: 0 <= k < n ==> totalAt[k] == 0 {
      forall i | 0 <= i < n
        ensures RateAt(dates, trades, window, i) == None
      {
        NoClosings(dates, trades, window, i);
      }
      return;
    }
    var prefixWins := PrefixSums(dates, trades, winsAt, true);
    var prefixTotal := PrefixSums(dates, trades, totalAt, false);
    if n < window - 1 {
      return;
    }
    for i := window - 1 to n
      invariant |result| == n
      invariant forall k :: 0 <= k < i ==> result[k] == RateAt(dates, trades, window, k)
      invariant forall k :: MaxInt(0, i) <= k < n ==> result[k] == None
    {
      var windowStart := MaxInt(0, i - window + 1);
      var winsInWindow := prefixWins[i + 1] - prefixWins[windowStart];
      var totalInWindow := prefixTotal[i + 1] - prefixTotal[windowStart];
      if 0 <= i {
        RateFromPrefixes(dates, trades, window, i);
      }
      if totalInWindow > 0 {
        result := result[i := Some(winsInWindow as real / totalInWindow as real)];
      }
    }
  }
}
