/**
 * Adding the equity curves of several assets, date by date.  The program carries the last value of
 * every asset forward; the deprecated scan looks the value up from scratch.
 */
module Portfolio {
  import opened Prelude
  import opened Lexical

  datatype Point = Point(date: string, value: real)
  type Curve = seq<Point>

  // ---------------------------------------------------------------------------------------
  // The scan
  // ---------------------------------------------------------------------------------------

  function FirstMatch(curve: Curve, date: string): Option<real> {
    if curve == [] then None
    else if curve[0].date == date then Some(curve[0].value)
    else FirstMatch(curve[1..], date)
  }

  /** The value carried by a walk that stops at the first later date. */
  function Walk(curve: Curve, date: string, prev: real): real {
    if curve == [] || Less(date, curve[0].date) then prev else Walk(curve[1..], date, curve[0].value)
  }

  function ValueAt(curve: Curve, date: string): real {
    if curve == [] then 0.0
    else if FirstMatch(curve, date).Some? then FirstMatch(curve, date).value
    else Walk(curve, date, curve[0].value)
  }

  method ScanValueAt(curve: Curve, date: string) returns (v: real)
    ensures v == ValueAt(curve, date)
  {
    if curve == [] {
      return 0.0;
    }
    for i := 0 to |curve|
      invariant FirstMatch(curve[i..], date) == FirstMatch(curve, date)
    {
      assert curve[i..][1..] == curve[i + 1..];
      if curve[i].date == date {
        return curve[i].value;
      }
    }
    var prev := curve[0].value;
    for i := 0 to |curve|
      invariant Walk(curve[i..], date, prev) == Walk(curve, date, curve[0].value)
    {
      assert curve[i..][1..] == curve[i + 1..];
      if Less(date, curve[i].date) {
        break;
      }
      prev := curve[i].value;
    }
    return prev;
  }

  // ---------------------------------------------------------------------------------------
  // Carrying forward
  // ---------------------------------------------------------------------------------------

  function FirstValue(curve: Curve): real {
    if curve == [] then 0.0 else curve[0].value
  }

  /** The curve as a dictionary; of two points with the same date the later one wins. */
  function Indexed(curve: Curve): map<string, real> {
    if curve == [] then map[]
    else
      var n := |curve| - 1;
      Indexed(curve[..n])[curve[n].date := curve[n].value]
  }

  /** All nonempty dates of all curves. */
  function AllDates(curves: seq<Curve>): set<string> {
    set i, j | 0 <= i < |curves| && 0 <= j < |curves[i]| && curves[i][j].date != "" :: curves[i][j].date
  }

  /** The value carried for one asset after the first k dates. */
  function Carried(curve: Curve, dates: seq<string>, k: nat): real
    requires k <= |dates|
  {
    if k == 0 then FirstValue(curve)
    else if dates[k - 1] in Indexed(curve) then Indexed(curve)[dates[k - 1]]
    else Carried(curve, dates, k - 1)
  }

  function CarriedAll(curves: seq<Curve>, dates: seq<string>, k: nat): seq<real>
    requires k <= |dates|
  {
    seq(|curves|, i requires 0 <= i < |curves| => Carried(curves[i], dates, k))
  }

  datatype PortfolioPoint = PortfolioPoint(date: string, value: real, drawdown: real)

  /** A total of exactly zero is replaced by the initial cash. */
  function Shown(total: real, initialCash: real): real {
    if total == 0.0 then initialCash else total
  }

  /** The value shown at the k-th date. */
  function ShownAt(curves: seq<Curve>, dates: seq<string>, initialCash: real, k: nat): real
    requires k < |dates|
  {
    Shown(Sum(CarriedAll(curves, dates, k + 1)), initialCash)
  }

  /** The highest of the initial cash and the first k values shown. */
  function Peak(curves: seq<Curve>, dates: seq<string>, initialCash: real, k: nat): real
    requires k <= |dates|
  {
    if k == 0 then initialCash
    else Max(Peak(curves, dates, initialCash, k - 1), ShownAt(curves, dates, initialCash, k - 1))
  }

  function PointAt(curves: seq<Curve>, dates: seq<string>, initialCash: real, k: nat): PortfolioPoint
    requires k < |dates|
  {
    var value, peak := ShownAt(curves, dates, initialCash, k), Peak(curves, dates, initialCash, k + 1);
    PortfolioPoint(dates[k], value, DrawdownFrom(peak, value))
  }

  function Aggregated(curves: seq<Curve>, initialCash: real): seq<PortfolioPoint> {
    var dates := Sorted(AllDates(curves));
    seq(|dates|, k requires 0 <= k < |dates| => PointAt(curves, dates, initialCash, k))
  }

  method CollectDates(curves: seq<Curve>) returns (dates: set<string>)
    ensures dates == AllDates(curves)
  {
    dates := {};
    for i := 0 to |curves|
      invariant dates == AllDates(curves[..i])
    {
      for j := 0 to |curves[i]|
        invariant dates == AllDates(curves[..i]) + AllDates([curves[i][..j]])
      {
        if curves[i][j].date != "" {
          dates := dates + {curves[i][j].date};
        }
        OneMoreDate(curves[i], j);
      }
      assert curves[i][..|curves[i]|] == curves[i];
      OneMoreCurve(curves, i);
    }
    assert curves[..|curves|] == curves;
  }

  lemma OneMoreDate(curve: Curve, j: nat)
    requires j < |curve|
    ensures AllDates([curve[..j + 1]]) == AllDates([curve[..j]]) + if curve[j].date == "" then {} else {curve[j].date}
  {
    var before, after := [curve[..j]], [curve[..j + 1]];
    forall d | d in AllDates(before)
      ensures d in AllDates(after)
    {
      var m :| 0 <= m < |before[0]| && before[0][m].date == d;
      assert after[0][m].date == d;
    }
    if curve[j].date != "" {
      assert after[0][j].date == curve[j].date;
    }
    forall d | d in AllDates(after)
      ensures d in AllDates(before) || d == curve[j].date
    {
      var m :| 0 <= m < |after[0]| && after[0][m].date == d;
      if m < j {
        assert before[0][m].date == d;
      }
    }
  }

  lemma OneMoreCurve(curves: seq<Curve>, i: nat)
    requires i < |curves|
    ensures AllDates(curves[..i + 1]) == AllDates(curves[..i]) + AllDates([curves[i]])
  {
    var before, after := curves[..i], curves[..i + 1];
    forall d | d in AllDates(before)
      ensures d in AllDates(after)
    {
      var a, b :| 0 <= a < |before| && 0 <= b < |before[a]| && before[a][b].date == d;
      assert after[a][b].date == d;
    }
    forall d | d in AllDates([curves[i]])
      ensures d in AllDates(after)
    {
      var b :| 0 <= b < |[curves[i]][0]| && [curves[i]][0][b].date == d;
      assert after[i][b].date == d;
    }
    forall d | d in AllDates(after)
      ensures d in AllDates(before) || d in AllDates([curves[i]])
    {
      var a, b :| 0 <= a < |after| && 0 <= b < |after[a]| && after[a][b].date == d;
      if a < i {
        assert before[a][b].date == d;
      } else {
        assert [curves[i]][0][b].date == d;
      }
    }
  }

  method IndexCurve(curve: Curve) returns (index: map<string, real>)
    ensures index == Indexed(curve)
  {
    index := map[];
    for j := 0 to |curve|
      invariant index == Indexed(curve[..j])
    {
      assert curve[..j + 1][..j] == curve[..j];
      index := index[curve[j].date := curve[j].value];
    }
    assert curve[..|curve|] == curve;
  }

  /** The indexed, carry-forward aggregation. */
  method AggregateEquity(curves: seq<Curve>, initialCash: real) returns (points: seq<PortfolioPoint>)
    ensures points == Aggregated(curves, initialCash)
  {
    hide *;
    var allDates := CollectDates(curves);
    var dates := Sorted(allDates);
    var indexed: seq<map<string, real>> := [];
    var carried: seq<real> := [];
    for i := 0 to |curves|
      invariant |indexed| == |carried| == i
      invariant forall k :: 0 <= k < i ==> indexed[k] == Indexed(curves[k]) && carried[k] == FirstValue(curves[k])
    {
      var index := IndexCurve(curves[i]);
      indexed := indexed + [index];
      carried := carried + [FirstValue(curves[i])];
    }
    StartCarried(curves, dates, carried, initialCash);
    points := [];
    var peak := initialCash;
    for k := 0 to |dates|
      invariant carried == CarriedAll(curves, dates, k)
      invariant peak == Peak(curves, dates, initialCash, k)
      invariant |points| == k && forall m :: 0 <= m < k ==> points[m] == PointAt(curves, dates, initialCash, m)
    {
      var total;
      carried, total := AddDate(curves, indexed, dates, k, carried);
      var value := Shown(total, initialCash);
      NextPoint(curves, dates, initialCash, k);
      peak := Max(peak, value);
      points := points + [PortfolioPoint(dates[k], value, DrawdownFrom(peak, value))];
    }
    PointsAreAggregated(curves, dates, initialCash, points);
  }

  lemma {:induction false} StartCarried(curves: seq<Curve>, dates: seq<string>, carried: seq<real>, initialCash: real)
    requires |carried| == |curves| && forall k :: 0 <= k < |curves| ==> carried[k] == FirstValue(curves[k])
    ensures carried == CarriedAll(curves, dates, 0) && Peak(curves, dates, initialCash, 0) == initialCash
  {
  }

  lemma NextPoint(curves: seq<Curve>, dates: seq<string>, initialCash: real, k: nat)
    requires k < |dates|
    ensures var value := Shown(Sum(CarriedAll(curves, dates, k + 1)), initialCash);
            var peak := Max(Peak(curves, dates, initialCash, k), value);
      && Peak(curves, dates, initialCash, k + 1) == peak
      && PointAt(curves, dates, initialCash, k) == PortfolioPoint(dates[k], value, DrawdownFrom(peak, value))
  {
    hide CarriedAll;
  }

  lemma PointsAreAggregated(curves: seq<Curve>, dates: seq<string>, initialCash: real, points: seq<PortfolioPoint>)
    requires dates == Sorted(AllDates(curves)) && |points| == |dates|
    requires forall m :: 0 <= m < |dates| ==> points[m] == PointAt(curves, dates, initialCash, m)
    ensures points == Aggregated(curves, initialCash)
  {
    hide PointAt, Sorted, AllDates;
  }

  /** The inner loop over the assets for one date. */
  method AddDate(curves: seq<Curve>, indexed: seq<map<string, real>>, dates: seq<string>, k: nat, before: seq<real>)
    returns (carried: seq<real>, total: real)
    requires k < |dates| && |indexed| == |curves| && before == CarriedAll(curves, dates, k)
    requires forall i :: 0 <= i < |curves| ==> indexed[i] == Indexed(curves[i])
    ensures carried == CarriedAll(curves, dates, k + 1) && total == Sum(carried)
  {
    hide Indexed, Sum;
    carried := before;
    total := 0.0;
    SumOfNone();
    for i := 0 to |curves|
      invariant |carried| == |curves|
      invariant forall m :: 0 <= m < i ==> carried[m] == Carried(curves[m], dates, k + 1)
      invariant forall m :: i <= m < |curves| ==> carried[m] == before[m]
      invariant total == Sum(carried[..i])
    {
      ghost var done := carried[..i];
      if dates[k] in indexed[i] {
        carried := carried[i := indexed[i][dates[k]]];
      }
      assert carried[..i] == done && carried[..i + 1] == done + [carried[i]];
      SumSnoc(done, carried[i]);
      total := total + carried[i];
    }
    assert carried[..|curves|] == carried;
    assert carried == CarriedAll(curves, dates, k + 1);
  }

  lemma SumOfNone()
    ensures Sum([]) == 0.0
  {
  }

  // ---------------------------------------------------------------------------------------
  // The two agree
  // ---------------------------------------------------------------------------------------

  ghost predicate Chronological(curve: Curve) {
    && (forall i, j :: 0 <= i < j < |curve| ==> Less(curve[i].date, curve[j].date))
    && (forall i :: 0 <= i < |curve| ==> curve[i].date != "")
  }

  /** How many leading points are not later than the date. */
  function UpTo(curve: Curve, date: string): (n: nat)
    ensures n <= |curve|
  {
    if curve == [] || Less(date, curve[0].date) then 0 else 1 + UpTo(curve[1..], date)
  }

  /** The last point not later than the date, or the first value if there is none. */
  function LastKnown(curve: Curve, date: string): real {
    if UpTo(curve, date) == 0 then FirstValue(curve) else curve[UpTo(curve, date) - 1].value
  }

  lemma {:induction false} UpToIsExact(curve: Curve, date: string)
    requires Chronological(curve)
    ensures forall i :: 0 <= i < |curve| ==> (i < UpTo(curve, date) <==> !Less(date, curve[i].date))
  {
    if curve != [] {
      if Less(date, curve[0].date) {
        forall i | 0 < i < |curve|
          ensures Less(date, curve[i].date)
        {
          LessIsTransitive(date, curve[0].date, curve[i].date);
        }
      } else {
        UpToIsExact(curve[1..], date);
        assert forall i :: 1 <= i < |curve| ==> curve[i] == curve[1..][i - 1];
      }
    }
  }

  lemma {:induction false} WalkIsLastKnown(curve: Curve, date: string, prev: real)
    ensures Walk(curve, date, prev) == if UpTo(curve, date) == 0 then prev else curve[UpTo(curve, date) - 1].value
  {
    if curve != [] && !Less(date, curve[0].date) {
      WalkIsLastKnown(curve[1..], date, curve[0].value);
    }
  }

  lemma {:induction false} MatchIsIndexed(curve: Curve, date: string)
    ensures FirstMatch(curve, date).Some? <==> exists i :: 0 <= i < |curve| && curve[i].date == date
    ensures FirstMatch(curve, date).Some? ==>
              exists i :: 0 <= i < |curve| && curve[i].date == date && curve[i].value == FirstMatch(curve, date).value
  {
    if curve != [] && curve[0].date != date {
      MatchIsIndexed(curve[1..], date);
      assert forall i :: 0 <= i < |curve| - 1 ==> curve[1..][i] == curve[i + 1];
      assert forall i :: 1 <= i < |curve| ==> curve[i] == curve[1..][i - 1];
    }
  }

  /** A point is the last one not later than its own date. */
  lemma {:induction false} OwnDate(curve: Curve, i: nat)
    requires Chronological(curve) && i < |curve|
    ensures UpTo(curve, curve[i].date) == i + 1
  {
    var date := curve[i].date;
    UpToIsExact(curve, date);
    LessIsTotal(date, date);
    if i + 1 < |curve| {
      assert Less(date, curve[i + 1].date);
    }
  }

  /** On a chronological curve the scan finds the last known value. */
  lemma ScanIsLastKnown(curve: Curve, date: string)
    requires Chronological(curve)
    ensures ValueAt(curve, date) == LastKnown(curve, date)
  {
    MatchIsIndexed(curve, date);
    if FirstMatch(curve, date).Some? {
      var i :| 0 <= i < |curve| && curve[i].date == date && curve[i].value == FirstMatch(curve, date).value;
      OwnDate(curve, i);
    } else if curve != [] {
      WalkIsLastKnown(curve, date, curve[0].value);
    }
  }

  lemma {:induction false} IndexIsExact(curve: Curve, date: string)
    requires Chronological(curve)
    ensures date in Indexed(curve) <==> exists i :: 0 <= i < |curve| && curve[i].date == date
    ensures forall i :: 0 <= i < |curve| && curve[i].date == date ==>
              date in Indexed(curve) && Indexed(curve)[date] == curve[i].value
  {
    if curve != [] {
      var n := |curve| - 1;
      IndexIsExact(curve[..n], date);
      assert forall i :: 0 <= i < n ==> curve[..n][i] == curve[i];
      forall i | 0 <= i < n
        ensures curve[i].date != curve[n].date
      {
        LessIsTotal(curve[i].date, curve[n].date);
      }
    }
  }

  /** The dates are ascending and none of the curve's is missing. */
  ghost predicate Covers(dates: seq<string>, curve: Curve) {
    Ascending(dates) && forall i :: 0 <= i < |curve| ==> curve[i].date in dates
  }

  /** Carrying forward over dates that cover the curve always holds the last known value. */
  lemma {:induction false} CarriedIsLastKnown(curve: Curve, dates: seq<string>, k: nat)
    requires Chronological(curve) && Covers(dates, curve) && 0 < k <= |dates|
    ensures Carried(curve, dates, k) == LastKnown(curve, dates[k - 1])
  {
    var date := dates[k - 1];
    IndexIsExact(curve, date);
    if date in Indexed(curve) {
      var i :| 0 <= i < |curve| && curve[i].date == date;
      OwnDate(curve, i);
    } else {
      NothingNew(curve, dates, k);
      if k > 1 {
        CarriedIsLastKnown(curve, dates, k - 1);
      }
    }
  }

  /** Between two neighbouring dates the curve has no point, nor before the first. */
  lemma {:induction false} NothingNew(curve: Curve, dates: seq<string>, k: nat)
    requires Chronological(curve) && Covers(dates, curve) && 0 < k <= |dates|
    requires forall i :: 0 <= i < |curve| ==> curve[i].date != dates[k - 1]
    ensures UpTo(curve, dates[k - 1]) == if k == 1 then 0 else UpTo(curve, dates[k - 2])
  {
    var date := dates[k - 1];
    UpToIsExact(curve, date);
    if 1 < k {
      UpToIsExact(curve, dates[k - 2]);
    }
    forall i | 0 <= i < |curve|
      ensures Less(date, curve[i].date) <==> k == 1 || Less(dates[k - 2], curve[i].date)
    {
      var m :| 0 <= m < |dates| && dates[m] == curve[i].date;
      LessIsTotal(date, curve[i].date);
      if k - 1 < m {
        assert Less(date, dates[m]);
        if 1 < k {
          assert Less(dates[k - 2], dates[m]);
        }
      } else {
        assert m < k - 1 && Less(dates[m], date);
        LessIsTotal(dates[k - 2], dates[m]);
        if m < k - 2 {
          assert Less(dates[m], dates[k - 2]);
        }
      }
    }
    SameCount(curve, date, if k == 1 then None else Some(dates[k - 2]));
  }

  lemma {:induction false} SameCount(curve: Curve, date: string, earlier: Option<string>)
    requires Chronological(curve)
    requires forall i :: 0 <= i < |curve| ==>
               (Less(date, curve[i].date) <==> earlier.None? || Less(earlier.value, curve[i].date))
    ensures UpTo(curve, date) == if earlier.None? then 0 else UpTo(curve, earlier.value)
  {
    UpToIsExact(curve, date);
    var n := UpTo(curve, date);
    if earlier.Some? {
      UpToIsExact(curve, earlier.value);
      var m := UpTo(curve, earlier.value);
      hide UpTo, Less;
      assert n < |curve| ==> Less(date, curve[n].date) && Less(earlier.value, curve[n].date);
      assert m < |curve| ==> Less(earlier.value, curve[m].date) && Less(date, curve[m].date);
    } else {
      assert curve != [] ==> Less(date, curve[0].date);
    }
  }

  function ScanAll(curves: seq<Curve>, date: string): seq<real> {
    seq(|curves|, i requires 0 <= i < |curves| => ValueAt(curves[i], date))
  }

  /**
   * Main theorem: with chronological curves, the value at every date of the union is the sum of what
   * the scan finds for each asset at that date, and the initial cash where that sum is zero.
   */
  lemma AggregationRefinesScan(curves: seq<Curve>, initialCash: real, k: nat)
    requires forall i :: 0 <= i < |curves| ==> Chronological(curves[i])
    requires k < |Aggregated(curves, initialCash)|
    ensures var point := Aggregated(curves, initialCash)[k];
            var total := Sum(ScanAll(curves, point.date));
      && (total != 0.0 ==> point.value == total)
      && (total == 0.0 ==> point.value == initialCash)
  {
    var dates := Sorted(AllDates(curves));
    forall i | 0 <= i < |curves|
      ensures Carried(curves[i], dates, k + 1) == ValueAt(curves[i], dates[k])
    {
      DatesCover(curves, i);
      CarriedIsLastKnown(curves[i], dates, k + 1);
      ScanIsLastKnown(curves[i], dates[k]);
    }
    hide Carried, ValueAt, Sorted, AllDates;
    assert CarriedAll(curves, dates, k + 1) == ScanAll(curves, dates[k]);
  }

  /** The highest of the initial cash and the values of the points. */
  ghost predicate IsPeak(peak: real, initialCash: real, points: seq<PortfolioPoint>) {
    && (peak == initialCash || exists i :: 0 <= i < |points| && points[i].value == peak)
    && initialCash <= peak && forall i :: 0 <= i < |points| ==> points[i].value <= peak
  }

  /** The drawdown at a date is the loss from the highest of the initial cash and the values up to that date. */
  lemma DrawdownsFollowTheValues(curves: seq<Curve>, initialCash: real, k: nat, peak: real)
    requires k < |Aggregated(curves, initialCash)|
    requires IsPeak(peak, initialCash, Aggregated(curves, initialCash)[..k + 1])
    ensures var point := Aggregated(curves, initialCash)[k];
      point.drawdown == if 0.0 < peak then (peak - point.value) / peak else 0.0
  {
    PeakIsHighest(curves, initialCash, k + 1);
    hide ShownAt, Sorted, AllDates, Peak;
    assert peak == Peak(curves, Sorted(AllDates(curves)), initialCash, k + 1);
  }

  /** There is such a peak, and only one. */
  lemma {:induction false} PeakIsHighest(curves: seq<Curve>, initialCash: real, k: nat)
    requires k <= |Aggregated(curves, initialCash)|
    ensures IsPeak(Peak(curves, Sorted(AllDates(curves)), initialCash, k), initialCash, Aggregated(curves, initialCash)[..k])
  {
    hide ShownAt, Sorted, AllDates;
    if k > 0 {
      PeakIsHighest(curves, initialCash, k - 1);
      var points := Aggregated(curves, initialCash);
      var before, after := points[..k - 1], points[..k];
      assert forall i :: 0 <= i < k - 1 ==> before[i] == after[i];
      assert after[k - 1] == points[k - 1];
    }
  }

  ghost predicate HasDate(curves: seq<Curve>, date: string) {
    exists i, j :: 0 <= i < |curves| && 0 <= j < |curves[i]| && curves[i][j].date == date
  }

  /** The curve has one point for every nonempty date of any asset, in ascending order. */
  lemma OnePointPerDate(curves: seq<Curve>, initialCash: real, date: string)
    ensures var points := Aggregated(curves, initialCash);
      && (forall i, j :: 0 <= i < j < |points| ==> Less(points[i].date, points[j].date))
      && ((exists k :: 0 <= k < |points| && points[k].date == date) <==> date != "" && HasDate(curves, date))
  {
    var dates, points := Sorted(AllDates(curves)), Aggregated(curves, initialCash);
    hide ShownAt, Less, Sorted, Peak, DrawdownFrom;
    assert Ascending(dates) && (date in dates <==> date in AllDates(curves));
    assert date in AllDates(curves) <==> date != "" && HasDate(curves, date);
    assert |points| == |dates| && forall k :: 0 <= k < |points| ==> points[k].date == dates[k];
    hide AllDates, HasDate;
    if date in dates {
      var k :| 0 <= k < |dates| && dates[k] == date;
      assert points[k].date == date;
    }
  }

  lemma DatesCover(curves: seq<Curve>, i: nat)
    requires i < |curves| && Chronological(curves[i])
    ensures Covers(Sorted(AllDates(curves)), curves[i])
  {
    forall j | 0 <= j < |curves[i]|
      ensures curves[i][j].date in Sorted(AllDates(curves))
    {
      assert curves[i][j].date in AllDates(curves);
    }
  }

  /** Where the curves end, the portfolio is worth the sum of the final values of its assets. */
  lemma FinalValueIsConserved(curves: seq<Curve>, initialCash: real)
    requires forall i :: 0 <= i < |curves| ==> Chronological(curves[i])
    requires Aggregated(curves, initialCash) != []
    ensures var points := Aggregated(curves, initialCash);
            var total := Sum(FinalValues(curves));
      && (total != 0.0 ==> points[|points| - 1].value == total)
      && (total == 0.0 ==> points[|points| - 1].value == initialCash)
  {
    var dates := Sorted(AllDates(curves));
    var k := |dates| - 1;
    forall i | 0 <= i < |curves|
      ensures Carried(curves[i], dates, k + 1) == FinalValue(curves[i])
    {
      DatesCover(curves, i);
      CarriedIsLastKnown(curves[i], dates, k + 1);
      AllUpToLast(curves[i], dates);
    }
    hide Carried, Sorted, AllDates;
    assert CarriedAll(curves, dates, k + 1) == FinalValues(curves);
  }

  function FinalValue(curve: Curve): real {
    if curve == [] then 0.0 else curve[|curve| - 1].value
  }

  function FinalValues(curves: seq<Curve>): seq<real> {
    seq(|curves|, i requires 0 <= i < |curves| => FinalValue(curves[i]))
  }

  lemma {:induction false} AllUpToLast(curve: Curve, dates: seq<string>)
    requires Chronological(curve) && Covers(dates, curve) && dates != []
    ensures UpTo(curve, dates[|dates| - 1]) == |curve|
  {
    hide UpTo, Less, Chronological;
    var date := dates[|dates| - 1];
    UpToIsExact(curve, date);
    if curve != [] {
      var last := curve[|curve| - 1].date;
      var m :| 0 <= m < |dates| && dates[m] == last;
      LessIsTotal(last, date);
      assert m < |dates| - 1 ==> Less(dates[m], date);
      assert !Less(date, curve[|curve| - 1].date);
    }
  }
}
