/** Monthly and yearly returns of an equity curve, unrounded, and what they compound to. */
module CalendarReturns {
  import opened Prelude
  import opened Lexical

  datatype Point = Point(date: string, value: real)

  /** Points whose date is long enough to name a month; the others are skipped. */
  function Dated(curve: seq<Point>): (r: seq<Point>)
    ensures forall k :: 0 <= k < |r| ==> 7 <= |r[k].date|
  {
    if curve == [] then []
    else
      var n := |curve| - 1;
      Dated(curve[..n]) + if 7 <= |curve[n].date| then [curve[n]] else []
  }

  function MonthOf(p: Point): string
    requires 7 <= |p.date|
  {
    p.date[..7]
  }

  /** First and last value seen in each month. */
  datatype Month = Month(first: real, last: real)

  function Months(curve: seq<Point>): map<string, Month> {
    if curve == [] then map[]
    else
      var n := |curve| - 1;
      AddPoint(Months(curve[..n]), curve[n])
  }

  function AddPoint(months: map<string, Month>, p: Point): map<string, Month> {
    if |p.date| < 7 then months
    else if MonthOf(p) in months then months[MonthOf(p) := Month(months[MonthOf(p)].first, p.value)]
    else months[MonthOf(p) := Month(p.value, p.value)]
  }

  /** The grouped values begin and end with what is recorded of each month. */
  ghost predicate Groups(months: map<string, seq<real>>, ends: map<string, Month>) {
    && months.Keys == ends.Keys
    && forall m :: m in months ==> months[m] != [] && ends[m] == Month(months[m][0], months[m][|months[m]| - 1])
  }

  /** The program keeps all values of a month; only the first and the last are ever used. */
  method CollectMonths(curve: seq<Point>) returns (months: map<string, seq<real>>)
    ensures Groups(months, Months(curve))
  {
    months := map[];
    for i := 0 to |curve|
      invariant Groups(months, Months(curve[..i]))
    {
      assert curve[..i + 1][..i] == curve[..i];
      if 7 <= |curve[i].date| {
        var key := MonthOf(curve[i]);
        if key !in months {
          months := months[key := []];
        }
        months := months[key := months[key] + [curve[i].value]];
      }
    }
    assert curve[..|curve|] == curve;
  }

  /** The return of a month, measured from the close before it. */
  datatype Return = Return(key: string, rate: real)

  function MonthStart(months: map<string, Month>, keys: seq<string>, k: nat): real
    requires k < |keys| && forall key :: key in keys ==> key in months
  {
    if k == 0 then months[keys[0]].first else months[keys[k - 1]].last
  }

  /** Returns of the first k months; a month that starts from nothing has none. */
  function ReturnsOf(months: map<string, Month>, keys: seq<string>, k: nat): seq<Return>
    requires k <= |keys| && forall key :: key in keys ==> key in months
  {
    if k == 0 then []
    else
      var start, end := MonthStart(months, keys, k - 1), months[keys[k - 1]].last;
      ReturnsOf(months, keys, k - 1) + if start > 0.0 then [Return(keys[k - 1], (end - start) / start)] else []
  }

  function MonthlyReturns(curve: seq<Point>): seq<Return> {
    ReturnsOf(Months(curve), Sorted(Months(curve).Keys), |Sorted(Months(curve).Keys)|)
  }

  method ComputeMonthlyReturns(curve: seq<Point>) returns (result: seq<Return>)
    ensures result == MonthlyReturns(curve)
  {
    var months := CollectMonths(curve);
    ghost var ends := Months(curve);
    var keys := Sorted(months.Keys);
    result := MonthLoop(months, keys, ends);
  }

  /** The loop over the months in order, carrying the close of the one before. */
  method MonthLoop(months: map<string, seq<real>>, keys: seq<string>, ghost ends: map<string, Month>)
    returns (result: seq<Return>)
    requires Groups(months, ends) && forall key :: key in keys ==> key in months
    ensures result == ReturnsOf(ends, keys, |keys|)
  {
    result := [];
    var previousClose: Option<real> := None;
    for k := 0 to |keys|
      invariant result == ReturnsOf(ends, keys, k)
      invariant previousClose == if k == 0 then None else Some(ends[keys[k - 1]].last)
    {
      var values := months[keys[k]];
      var monthEnd := values[|values| - 1];
      var monthStart := if previousClose.Some? then previousClose.value else values[0];
      if monthStart > 0.0 {
        result := result + [Return(keys[k], (monthEnd - monthStart) / monthStart)];
      }
      previousClose := Some(monthEnd);
    }
  }

  function YearOf(r: Return): string {
    if |r.key| < 4 then r.key else r.key[..4]
  }

  function Growth(rates: seq<Return>): real {
    if rates == [] then 1.0
    else
      var n := |rates| - 1;
      Times(Growth(rates[..n]), 1.0 + rates[n].rate)
  }

  /** The growth of each year: its months compounded in their order. */
  function Years(monthly: seq<Return>): map<string, real> {
    if monthly == [] then map[]
    else
      var n := |monthly| - 1;
      AddMonth(Years(monthly[..n]), monthly[n])
  }

  function AddMonth(years: map<string, real>, r: Return): map<string, real> {
    var before := if YearOf(r) in years then years[YearOf(r)] else 1.0;
    years[YearOf(r) := Times(before, 1.0 + r.rate)]
  }

  function YearlyReturns(curve: seq<Point>): seq<Return> {
    var years := Years(MonthlyReturns(curve));
    RatesOf(years, Sorted(years.Keys))
  }

  function RatesOf(years: map<string, real>, keys: seq<string>): (r: seq<Return>)
    requires forall key :: key in keys ==> key in years
    ensures |r| == |keys|
  {
    if keys == [] then []
    else
      var n := |keys| - 1;
      RatesOf(years, keys[..n]) + [Return(keys[n], years[keys[n]] - 1.0)]
  }

  /** A month belongs to the year that its first four characters spell. */
  predicate InYear(month: string, year: string) {
    year <= month && |year| == MinInt(4, |month|)
  }

  /** The months of one year, in order. */
  function MonthsOfYear(monthly: seq<Return>, year: string): seq<Return> {
    if monthly == [] then []
    else
      var n := |monthly| - 1;
      MonthsOfYear(monthly[..n], year) + if InYear(monthly[n].key, year) then [monthly[n]] else []
  }

  lemma YearIsInYear(r: Return, year: string)
    ensures InYear(r.key, year) <==> YearOf(r) == year
  {
  }

  lemma {:induction false} GrowthSnoc(rates: seq<Return>, r: Return)
    ensures Growth(rates + [r]) == Times(Growth(rates), 1.0 + r.rate)
  {
    assert (rates + [r])[..|rates|] == rates;
  }

  /** A year's growth is that of its own months, compounded in order. */
  lemma {:induction false} YearsCompoundMonths(monthly: seq<Return>, year: string)
    ensures year in Years(monthly) <==> MonthsOfYear(monthly, year) != []
    ensures year in Years(monthly) ==> Years(monthly)[year] == Growth(MonthsOfYear(monthly, year))
  {
    hide *;
    YearsUnfold(monthly, year);
    if monthly != [] {
      var n := |monthly| - 1;
      var before, last := MonthsOfYear(monthly[..n], year), monthly[n];
      YearsCompoundMonths(monthly[..n], year);
      AddMonthAt(Years(monthly[..n]), last, year);
      GrowthSnoc(before, last);
      GrowthOfNothing();
      assert before + [] == before;
    }
  }

  lemma {:induction false} YearsUnfold(monthly: seq<Return>, year: string)
    ensures monthly == [] ==> Years(monthly) == map[] && MonthsOfYear(monthly, year) == []
    ensures monthly != [] ==> (var n := |monthly| - 1;
      && Years(monthly) == AddMonth(Years(monthly[..n]), monthly[n])
      && MonthsOfYear(monthly, year)
         == MonthsOfYear(monthly[..n], year) + if YearOf(monthly[n]) == year then [monthly[n]] else [])
  {
    hide Times, AddMonth, Growth;
    if monthly != [] {
      YearIsInYear(monthly[|monthly| - 1], year);
    }
  }

  lemma AddMonthAt(years: map<string, real>, r: Return, year: string)
    ensures var years', y := AddMonth(years, r), YearOf(r);
      && years'.Keys == years.Keys + {y}
      && years'[y] == Times(if y in years then years[y] else 1.0, 1.0 + r.rate)
      && (year in years && year != y ==> years'[year] == years[year])
  {
    hide Times, YearOf;
  }

  /** Months grouped by year. */
  ghost predicate GroupsByYear(groups: map<string, seq<Return>>, monthly: seq<Return>) {
    && (forall y :: y in groups <==> MonthsOfYear(monthly, y) != [])
    && forall y :: y in groups ==> groups[y] == MonthsOfYear(monthly, y)
  }

  method GroupByYear(monthly: seq<Return>) returns (groups: map<string, seq<Return>>)
    ensures GroupsByYear(groups, monthly)
  {
    groups := map[];
    for i := 0 to |monthly|
      invariant GroupsByYear(groups, monthly[..i])
    {
      assert monthly[..i + 1][..i] == monthly[..i];
      var year := YearOf(monthly[i]);
      if year !in groups {
        groups := groups[year := []];
      }
      groups := groups[year := groups[year] + [monthly[i]]];
      forall y
        ensures InYear(monthly[i].key, y) <==> y == year
      {
        YearIsInYear(monthly[i], y);
      }
    }
    assert monthly[..|monthly|] == monthly;
  }

  lemma {:induction false} GroupsGiveYears(groups: map<string, seq<Return>>, monthly: seq<Return>)
    requires GroupsByYear(groups, monthly)
    ensures groups.Keys == Years(monthly).Keys
    ensures forall y :: y in groups ==> Years(monthly)[y] == Growth(groups[y])
  {
    hide Years, MonthsOfYear, Growth;
    forall y
      ensures y in groups <==> y in Years(monthly)
      ensures y in groups ==> Years(monthly)[y] == Growth(groups[y])
    {
      YearsCompoundMonths(monthly, y);
    }
  }

  /** Groups the monthly rates by year, then compounds each group. */
  method ComputeYearlyReturns(curve: seq<Point>) returns (result: seq<Return>)
    ensures result == YearlyReturns(curve)
  {
    hide *;
    var monthly := ComputeMonthlyReturns(curve);
    var groups := GroupByYear(monthly);
    GroupsGiveYears(groups, monthly);
    result := CompoundGroups(groups, Sorted(groups.Keys), Years(monthly));
    YearlyUnfold(curve);
  }

  lemma YearlyUnfold(curve: seq<Point>)
    ensures var years := Years(MonthlyReturns(curve)); YearlyReturns(curve) == RatesOf(years, Sorted(years.Keys))
  {
    hide Years, MonthlyReturns, RatesOf, Sorted;
  }

  /** The loop over the years in order. */
  method CompoundGroups(groups: map<string, seq<Return>>, keys: seq<string>, ghost years: map<string, real>)
    returns (result: seq<Return>)
    requires groups.Keys == years.Keys && forall key :: key in keys ==> key in groups
    requires forall y :: y in groups ==> years[y] == Growth(groups[y])
    ensures result == RatesOf(years, keys)
  {
    hide Growth;
    result := [];
    for k := 0 to |keys|
      invariant result == RatesOf(years, keys[..k])
    {
      assert keys[..k + 1][..k] == keys[..k];
      var compound := Compound(groups[keys[k]]);
      result := result + [Return(keys[k], compound - 1.0)];
    }
    assert keys[..|keys|] == keys;
  }

  method Compound(rates: seq<Return>) returns (compound: real)
    ensures compound == Growth(rates)
  {
    compound := 1.0;
    for i := 0 to |rates|
      invariant compound == Growth(rates[..i])
    {
      assert rates[..i + 1][..i] == rates[..i];
      compound := Times(compound, 1.0 + rates[i].rate);
    }
    assert rates[..|rates|] == rates;
  }

  // ---------------------------------------------------------------------------------------
  // What the entries are
  // ---------------------------------------------------------------------------------------

  /** A dated point belongs to the month that its first seven characters spell. */
  predicate InMonth(p: Point, month: string) {
    month <= p.date && |month| == 7
  }

  ghost predicate Seen(curve: seq<Point>, month: string) {
    exists i :: 0 <= i < |curve| && InMonth(curve[i], month)
  }

  ghost predicate FirstIn(curve: seq<Point>, month: string, i: nat) {
    i < |curve| && InMonth(curve[i], month) && forall h :: 0 <= h < i ==> !InMonth(curve[h], month)
  }

  ghost predicate LastIn(curve: seq<Point>, month: string, i: nat) {
    i < |curve| && InMonth(curve[i], month) && forall h :: i < h < |curve| ==> !InMonth(curve[h], month)
  }

  /** No month of the curve lies between the two. */
  ghost predicate Precedes(curve: seq<Point>, before: string, month: string) {
    && Seen(curve, before) && Less(before, month)
    && forall other :: Seen(curve, other) && Less(other, month) ==> other == before || Less(other, before)
  }

  /** The point a month's return is measured from: the last of the month before, or its own first. */
  ghost predicate StartsAt(curve: seq<Point>, month: string, i: nat) {
    || ((forall other :: Seen(curve, other) ==> !Less(other, month)) && FirstIn(curve, month, i))
    || exists before :: Precedes(curve, before, month) && LastIn(curve, before, i)
  }

  lemma {:induction false} MonthsAreSeen(curve: seq<Point>, month: string)
    ensures month in Months(curve) <==> Seen(curve, month)
  {
    if curve != [] {
      var n := |curve| - 1;
      MonthsAreSeen(curve[..n], month);
      assert forall i :: 0 <= i < n ==> curve[..n][i] == curve[i];
      MonthIsInMonth(curve[n], month);
    }
  }

  lemma MonthIsInMonth(p: Point, month: string)
    ensures InMonth(p, month) <==> 7 <= |p.date| && MonthOf(p) == month
  {
  }

  /** Each month is recorded with its first and its last value. */
  lemma {:induction false} MonthsAreRecorded(curve: seq<Point>, month: string, i: nat, j: nat)
    requires FirstIn(curve, month, i) && LastIn(curve, month, j)
    ensures month in Months(curve) && Months(curve)[month] == Month(curve[i].value, curve[j].value)
  {
    var n := |curve| - 1;
    var before := curve[..n];
    MonthIsInMonth(curve[n], month);
    MonthsAreSeen(before, month);
    hide InMonth;
    assert forall h :: 0 <= h < n ==> before[h] == curve[h];
    if i < n {
      var last := LastOf(before, month, i);
      MonthsAreRecorded(before, month, i, last);
      assert j < n ==> last == j;
    }
  }

  lemma {:induction false} LastOf(curve: seq<Point>, month: string, i: nat) returns (j: nat)
    requires i < |curve| && InMonth(curve[i], month)
    ensures LastIn(curve, month, j)
    decreases |curve| - i
  {
    if h :| i < h < |curve| && InMonth(curve[h], month) {
      j := LastOf(curve, month, h);
    } else {
      j := i;
    }
  }

  lemma {:induction false} FirstOf(curve: seq<Point>, month: string, j: nat) returns (i: nat)
    requires j < |curve| && InMonth(curve[j], month)
    ensures FirstIn(curve, month, i)
  {
    if h :| 0 <= h < j && InMonth(curve[h], month) {
      i := FirstOf(curve, month, h);
    } else {
      i := j;
    }
  }

  /** The returns of the first k keys: one for each that starts from a positive value. */
  lemma {:induction false} ReturnsAt(months: map<string, Month>, keys: seq<string>, k: nat, r: Return)
    requires k <= |keys| && forall key :: key in keys ==> key in months
    ensures r in ReturnsOf(months, keys, k) <==>
      exists n :: 0 <= n < k && keys[n] == r.key && 0.0 < MonthStart(months, keys, n)
        && r.rate == (months[keys[n]].last - MonthStart(months, keys, n)) / MonthStart(months, keys, n)
  {
    hide MonthStart;
    if k > 0 {
      ReturnsAt(months, keys, k - 1, r);
    }
  }

  /** Recorded months and the keys of the curve are the same. */
  lemma {:induction false} KeysAreSeen(curve: seq<Point>, keys: seq<string>, month: string)
    requires keys == Sorted(Months(curve).Keys)
    ensures Ascending(keys)
    ensures month in keys <==> Seen(curve, month)
    ensures month in keys ==> exists n: nat :: n < |keys| && keys[n] == month
  {
    hide Less, Seen;
    MonthsAreSeen(curve, month);
  }

  lemma {:induction false} StartOfMonth(curve: seq<Point>, keys: seq<string>, n: nat, i: nat)
    requires keys == Sorted(Months(curve).Keys) && n < |keys| && StartsAt(curve, keys[n], i)
    ensures i < |curve| && MonthStart(Months(curve), keys, n) == curve[i].value
  {
    hide Sorted, Less, Months, InMonth, Seen, Precedes, Ascending;
    var month := keys[n];
    if before :| Precedes(curve, before, month) && LastIn(curve, before, i) {
      KeyBefore(curve, keys, n, before);
      RecordedLast(curve, before, i);
    } else {
      KeysAreSeen(curve, keys, month);
      FirstKey(curve, keys, n);
      RecordedFirst(curve, month, i);
    }
  }

  /** Every month of a dated point starts somewhere and ends somewhere. */
  lemma EveryMonthStarts(curve: seq<Point>, month: string) returns (i: nat, j: nat)
    requires Seen(curve, month)
    ensures StartsAt(curve, month, i) && LastIn(curve, month, j)
  {
    hide Less, Months, InMonth, Sorted, Ascending;
    var keys := Sorted(Months(curve).Keys);
    KeysAreSeen(curve, keys, month);
    var n: nat :| n < |keys| && keys[n] == month;
    var k: nat :| k < |curve| && InMonth(curve[k], month);
    j := LastOf(curve, month, k);
    forall other | Seen(curve, other)
      ensures Less(other, month) ==> 0 < n && (other == keys[n - 1] || Less(other, keys[n - 1]))
    {
      KeysAreSeen(curve, keys, other);
      var m: nat :| m < |keys| && keys[m] == other;
      PositionsCompare(keys, m, n);
      if 0 < n {
        PositionsCompare(keys, m, n - 1);
      }
    }
    if n == 0 {
      i := FirstOf(curve, month, k);
    } else {
      var before := keys[n - 1];
      KeysAreSeen(curve, keys, before);
      PositionsCompare(keys, n - 1, n);
      var b: nat :| b < |curve| && InMonth(curve[b], before);
      i := LastOf(curve, before, b);
      assert Precedes(curve, before, month);
    }
  }

  lemma {:induction false} RecordedLast(curve: seq<Point>, month: string, j: nat)
    requires LastIn(curve, month, j)
    ensures month in Months(curve) && Months(curve)[month].last == curve[j].value
  {
    hide Months, InMonth;
    var i := FirstOf(curve, month, j);
    MonthsAreRecorded(curve, month, i, j);
  }

  lemma {:induction false} RecordedFirst(curve: seq<Point>, month: string, i: nat)
    requires FirstIn(curve, month, i)
    ensures month in Months(curve) && Months(curve)[month].first == curve[i].value
  {
    hide Months, InMonth;
    var j := LastOf(curve, month, i);
    MonthsAreRecorded(curve, month, i, j);
  }

  /** A key that no seen month precedes is the first. */
  lemma {:induction false} FirstKey(curve: seq<Point>, keys: seq<string>, n: nat)
    requires keys == Sorted(Months(curve).Keys) && n < |keys|
    requires forall other :: Seen(curve, other) ==> !Less(other, keys[n])
    ensures n == 0
  {
    hide Sorted, Less, Months, Seen, Ascending;
    KeysAreSeen(curve, keys, keys[0]);
    PositionsCompare(keys, 0, n);
  }

  lemma {:induction false} KeyBefore(curve: seq<Point>, keys: seq<string>, n: nat, before: string)
    requires keys == Sorted(Months(curve).Keys) && n < |keys| && Precedes(curve, before, keys[n])
    ensures 0 < n && before == keys[n - 1]
  {
    hide Sorted, Less, Months, Seen, Ascending;
    KeysAreSeen(curve, keys, before);
    var m: nat :| m < |keys| && keys[m] == before;
    PositionsCompare(keys, m, n);
    KeysAreSeen(curve, keys, keys[n - 1]);
    PositionsCompare(keys, n - 1, n);
    PositionsCompare(keys, n - 1, m);
  }

  /**
   * There is a return under the month of a dated point exactly when the value the month starts from is
   * positive; it leads from there to the last value of the month.
   */
  lemma MonthlyReturnsExactly(curve: seq<Point>, r: Return, i: nat, j: nat)
    requires StartsAt(curve, r.key, i) && LastIn(curve, r.key, j)
    ensures i < |curve| && j < |curve|
    ensures r in MonthlyReturns(curve) <==>
      0.0 < curve[i].value && r.rate == (curve[j].value - curve[i].value) / curve[i].value
  {
    hide Sorted, Less, Months, MonthStart, ReturnsOf, StartsAt, InMonth, Seen, Ascending, MonthlyReturns;
    var months := Months(curve);
    var keys := Sorted(months.Keys);
    MonthlyUnfold(curve);
    ReturnsAt(months, keys, |keys|, r);
    KeysAreSeen(curve, keys, r.key);
    RecordedLast(curve, r.key, j);
    assert Seen(curve, r.key) by {
      SeenAt(curve, r.key, j);
    }
    var n: nat :| n < |keys| && keys[n] == r.key;
    StartOfMonth(curve, keys, n, i);
    forall m: nat | m < |keys| && keys[m] == r.key
      ensures m == n
    {
      PositionsCompare(keys, m, n);
    }
  }

  lemma SeenAt(curve: seq<Point>, month: string, j: nat)
    requires j < |curve| && InMonth(curve[j], month)
    ensures Seen(curve, month)
  {
  }

  ghost predicate KeysAscend(listed: seq<Return>) {
    forall m, n :: 0 <= m < n < |listed| ==> Less(listed[m].key, listed[n].key)
  }

  /** The returns are listed by month, no month twice, and only for months of dated points. */
  lemma MonthlyKeys(curve: seq<Point>)
    ensures KeysAscend(MonthlyReturns(curve))
    ensures forall r <- MonthlyReturns(curve) :: Seen(curve, r.key)
  {
    hide Sorted, Less, Months, Seen;
    var months := Months(curve);
    var keys := Sorted(months.Keys);
    MonthlyUnfold(curve);
    ReturnsAscend(months, keys, |keys|);
    forall r | r in MonthlyReturns(curve)
      ensures Seen(curve, r.key)
    {
      ReturnsAt(months, keys, |keys|, r);
      assert r.key in keys;
      MonthsAreSeen(curve, r.key);
    }
  }

  lemma {:induction false} ReturnsAscend(months: map<string, Month>, keys: seq<string>, k: nat)
    requires k <= |keys| && Ascending(keys) && forall key :: key in keys ==> key in months
    ensures KeysAscend(ReturnsOf(months, keys, k))
    ensures forall r <- ReturnsOf(months, keys, k) :: exists n :: 0 <= n < k && keys[n] == r.key
  {
    hide Less, MonthStart;
    if k > 0 {
      ReturnsAscend(months, keys, k - 1);
      var before, after := ReturnsOf(months, keys, k - 1), ReturnsOf(months, keys, k);
      forall m, n | 0 <= m < n < |after|
        ensures Less(after[m].key, after[n].key)
      {
        if n == |before| {
          assert after[m] == before[m] && before[m] in before;
        }
      }
    }
  }

  /** The yearly returns compound the months that begin with the same four characters. */
  lemma YearlyReturnsExactly(curve: seq<Point>, r: Return)
    ensures KeysAscend(YearlyReturns(curve))
    ensures r in YearlyReturns(curve) <==>
      (exists m :: m in MonthlyReturns(curve) && InYear(m.key, r.key))
      && r.rate == Growth(MonthsOfYear(MonthlyReturns(curve), r.key)) - 1.0
  {
    hide Sorted, Less, Years, MonthlyReturns, Growth, MonthsOfYear, InYear;
    var monthly := MonthlyReturns(curve);
    var years := Years(monthly);
    var keys := Sorted(years.Keys);
    YearlyUnfold(curve);
    YearsCompoundMonths(monthly, r.key);
    SomeMonth(monthly, r.key);
    RatesAt(years, keys, r);
  }

  lemma {:induction false} RatesAt(years: map<string, real>, keys: seq<string>, r: Return)
    requires forall key :: key in keys ==> key in years
    ensures |RatesOf(years, keys)| == |keys| && forall k :: 0 <= k < |keys| ==> RatesOf(years, keys)[k].key == keys[k]
    ensures r in RatesOf(years, keys) <==> r.key in keys && r.rate == years[r.key] - 1.0
  {
    if keys != [] {
      RatesAt(years, keys[..|keys| - 1], r);
    }
  }

  lemma {:induction false} SomeMonth(monthly: seq<Return>, year: string)
    ensures MonthsOfYear(monthly, year) != [] <==> exists m :: m in monthly && InYear(m.key, year)
  {
    hide InYear;
    if monthly != [] {
      SomeMonth(monthly[..|monthly| - 1], year);
    }
  }

  // ---------------------------------------------------------------------------------------
  // Years compound to months
  // ---------------------------------------------------------------------------------------

  function KeyProduct(m: map<string, real>, keys: seq<string>): real
    requires forall key :: key in keys ==> key in m
  {
    if keys == [] then 1.0
    else
      var n := |keys| - 1;
      Times(KeyProduct(m, keys[..n]), m[keys[n]])
  }

  lemma {:induction false} RatesCompound(years: map<string, real>, keys: seq<string>)
    requires forall key :: key in keys ==> key in years
    ensures Growth(RatesOf(years, keys)) == KeyProduct(years, keys)
  {
    hide Times;
    if keys != [] {
      var n := |keys| - 1;
      RatesCompound(years, keys[..n]);
      GrowthSnoc(RatesOf(years, keys[..n]), Return(keys[n], years[keys[n]] - 1.0));
    }
  }

  lemma {:induction false} SameElsewhere(a: map<string, real>, b: map<string, real>, keys: seq<string>)
    requires forall key :: key in keys ==> key in a && key in b && a[key] == b[key]
    ensures KeyProduct(a, keys) == KeyProduct(b, keys)
  {
    if keys != [] {
      SameElsewhere(a, b, keys[..|keys| - 1]);
    }
  }

  /** The list without the element at position i. */
  function Removed(keys: seq<string>, i: nat): (r: seq<string>)
    requires i < |keys|
    ensures |r| == |keys| - 1
    ensures forall k :: 0 <= k < |r| ==> r[k] == if k < i then keys[k] else keys[k + 1]
  {
    keys[..i] + keys[i + 1..]
  }

  lemma {:induction false} PullOut(m: map<string, real>, keys: seq<string>, i: nat)
    requires i < |keys| && forall key :: key in keys ==> key in m
    ensures forall key :: key in Removed(keys, i) ==> key in keys
    ensures KeyProduct(m, keys) == Times(KeyProduct(m, Removed(keys, i)), m[keys[i]])
  {
    hide *;
    var n := |keys| - 1;
    var rest := Removed(keys, i);
    KeyProductUnfold(m, keys);
    RemovedUnfold(keys, i);
    if i < n {
      PullOut(m, keys[..n], i);
      KeyProductUnfold(m, rest);
      SwapFactors(KeyProduct(m, rest[..n - 1]), m[keys[i]], m[keys[n]]);
    }
  }

  lemma RemovedUnfold(keys: seq<string>, i: nat)
    requires i < |keys|
    ensures var n, rest := |keys| - 1, Removed(keys, i);
      && (i == n ==> rest == keys[..n])
      && (i < n ==> rest[..n - 1] == Removed(keys[..n], i) && rest[n - 1] == keys[n])
      && forall key :: key in rest ==> key in keys
  {
  }

  lemma {:induction false} KeyProductUnfold(m: map<string, real>, keys: seq<string>)
    requires keys != [] && forall key :: key in keys ==> key in m
    ensures var n := |keys| - 1; KeyProduct(m, keys) == Times(KeyProduct(m, keys[..n]), m[keys[n]])
  {
    hide Times;
  }

  lemma SwapFactors(x: real, y: real, z: real)
    ensures Times(Times(x, y), z) == Times(Times(x, z), y)
  {
    assert (x * y) * z == (x * z) * y;
  }

  lemma {:induction false} RemovedIsSorted(s: set<string>, y: string, i: nat)
    requires y in s && i < |Sorted(s)| && Sorted(s)[i] == y
    ensures Removed(Sorted(s), i) == Sorted(s - {y})
  {
    hide *;
    var keys := Sorted(s);
    var rest := Removed(keys, i);
    RemovedIsAscending(keys, i);
    forall x
      ensures x in rest <==> x in Sorted(s - {y})
    {
      RemovedContains(keys, i, x);
    }
    SortedIsUnique(rest, Sorted(s - {y}));
  }

  lemma RemovedIsAscending(keys: seq<string>, i: nat)
    requires Ascending(keys) && i < |keys|
    ensures Ascending(Removed(keys, i))
  {
    hide Less;
    var rest := Removed(keys, i);
    forall a, b | 0 <= a < b < |rest|
      ensures Less(rest[a], rest[b])
    {
      assert Less(keys[if a < i then a else a + 1], keys[if b < i then b else b + 1]);
    }
  }

  lemma RemovedContains(keys: seq<string>, i: nat, x: string)
    requires Ascending(keys) && i < |keys|
    ensures x in Removed(keys, i) <==> x in keys && x != keys[i]
  {
    hide Less;
    var rest := Removed(keys, i);
    LessIsTotal(x, keys[i]);
    LessIsTotal(keys[i], x);
    if a: nat :| a < |rest| && rest[a] == x {
      assert a < i ==> Less(keys[a], keys[i]);
      assert i <= a ==> Less(keys[i], keys[a + 1]);
    }
    if b: nat :| b < |keys| && keys[b] == x && x != keys[i] {
      assert rest[if b < i then b else b - 1] == x;
    }
  }

  /** Adding a month multiplies the product over all years by the growth of that month. */
  lemma {:induction false} AddMonthMultiplies(years: map<string, real>, r: Return)
    ensures var years' := AddMonth(years, r);
      KeyProduct(years', Sorted(years'.Keys)) == Times(KeyProduct(years, Sorted(years.Keys)), 1.0 + r.rate)
  {
    hide *;
    var years', y := AddMonth(years, r), YearOf(r);
    forall key
      ensures key in years && key != y ==> key in years' && years'[key] == years[key]
    {
      AddMonthAt(years, r, key);
    }
    AddMonthAt(years, r, y);
    if y in years {
      assert years'.Keys == years.Keys;
      OneKeyChanged(years, years', y, 1.0 + r.rate);
    } else {
      OneTimes(1.0 + r.rate);
      OneKeyAdded(years, years', y);
    }
  }

  lemma PositionOf(s: set<string>, y: string) returns (i: nat)
    requires y in s
    ensures i < |Sorted(s)| && Sorted(s)[i] == y
  {
    hide *;
    assert y in Sorted(s);
    i :| 0 <= i < |Sorted(s)| && Sorted(s)[i] == y;
  }

  lemma {:induction false} OneKeyAdded(a: map<string, real>, b: map<string, real>, y: string)
    requires y !in a && b.Keys == a.Keys + {y} && forall key :: key in a ==> b[key] == a[key]
    ensures KeyProduct(b, Sorted(b.Keys)) == Times(KeyProduct(a, Sorted(a.Keys)), b[y])
  {
    hide *;
    var i := PositionOf(b.Keys, y);
    RemovedIsSorted(b.Keys, y, i);
    PullOut(b, Sorted(b.Keys), i);
    assert b.Keys - {y} == a.Keys;
    SameElsewhere(a, b, Sorted(a.Keys));
  }

  lemma {:induction false} OneKeyChanged(a: map<string, real>, b: map<string, real>, y: string, factor: real)
    requires y in a && b.Keys == a.Keys && forall key :: key in a && key != y ==> b[key] == a[key]
    requires b[y] == Times(a[y], factor)
    ensures KeyProduct(b, Sorted(b.Keys)) == Times(KeyProduct(a, Sorted(a.Keys)), factor)
  {
    hide *;
    var i := PositionOf(a.Keys, y);
    var keys := Sorted(a.Keys);
    RemovedIsSorted(a.Keys, y, i);
    PullOut(a, keys, i);
    PullOut(b, keys, i);
    SameElsewhere(a, b, Sorted(a.Keys - {y}));
    Associate(KeyProduct(a, Removed(keys, i)), a[y], factor);
  }

  lemma Associate(x: real, y: real, z: real)
    ensures Times(x, Times(y, z)) == Times(Times(x, y), z)
  {
    assert x * (y * z) == (x * y) * z;
  }

  lemma OneTimes(x: real)
    ensures Times(1.0, x) == x
  {
  }

  lemma {:induction false} YearsProduct(monthly: seq<Return>)
    ensures KeyProduct(Years(monthly), Sorted(Years(monthly).Keys)) == Growth(monthly)
  {
    hide *;
    YearsUnfold(monthly, "");
    if monthly == [] {
      GrowthOfNothing();
      ProductOfNothing();
    } else {
      var n := |monthly| - 1;
      YearsProduct(monthly[..n]);
      AddMonthMultiplies(Years(monthly[..n]), monthly[n]);
      GrowthSnoc(monthly[..n], monthly[n]);
      assert monthly[..n] + [monthly[n]] == monthly;
    }
  }

  lemma ProductOfNothing()
    ensures var none: map<string, real> := map[]; KeyProduct(none, Sorted(none.Keys)) == 1.0
  {
  }

  /** The yearly returns compound to exactly what the monthly returns compound to, for every curve. */
  lemma YearsAndMonthsAgree(curve: seq<Point>)
    ensures Growth(YearlyReturns(curve)) == Growth(MonthlyReturns(curve))
  {
    hide *;
    var monthly := MonthlyReturns(curve);
    YearsProduct(monthly);
    RatesCompound(Years(monthly), Sorted(Years(monthly).Keys));
    YearlyUnfold(curve);
  }

  // ---------------------------------------------------------------------------------------
  // Months telescope
  // ---------------------------------------------------------------------------------------

  ghost predicate AllPositive(months: map<string, Month>) {
    forall m :: m in months ==> 0.0 < months[m].first && 0.0 < months[m].last
  }

  lemma {:induction false} MonthsTelescope(months: map<string, Month>, keys: seq<string>, k: nat)
    requires 0 < k <= |keys| && (forall key :: key in keys ==> key in months) && AllPositive(months)
    ensures Growth(ReturnsOf(months, keys, k)) == months[keys[k - 1]].last / months[keys[0]].first
  {
    hide Times, Growth;
    var start, end, first := MonthStart(months, keys, k - 1), months[keys[k - 1]].last, months[keys[0]].first;
    var before := ReturnsOf(months, keys, k - 1);
    GrowthSnoc(before, Return(keys[k - 1], (end - start) / start));
    GrowthOfNothing();
    if k == 1 {
      OneStep(start, end);
    } else {
      MonthsTelescope(months, keys, k - 1);
      NextStep(first, start, end);
    }
  }

  lemma GrowthOfNothing()
    ensures Growth([]) == 1.0
  {
  }

  lemma OneStep(start: real, end: real)
    requires 0.0 < start
    ensures Times(1.0, 1.0 + (end - start) / start) == end / start
  {
    assert (end - start) / start == end / start - start / start;
  }

  lemma NextStep(first: real, start: real, end: real)
    requires 0.0 < first && 0.0 < start
    ensures Times(start / first, 1.0 + (end - start) / start) == end / first
  {
    OneStep(start, end);
    CancelMiddle(first, start, end);
  }

  lemma CancelMiddle(first: real, start: real, end: real)
    requires 0.0 < first && 0.0 < start
    ensures (start / first) * (end / start) == end / first
  {
    var q := end / start;
    assert end == q * start;
    assert (start / first) * q == (start * q) / first;
  }

  /** The months begin with the first dated point and end with the last one. */
  lemma {:induction false} MonthEnds(curve: seq<Point>)
    requires Dated(curve) != []
    ensures EndsOf(Months(curve), Dated(curve))
  {
    hide *;
    DatedUnfold(curve);
    var n := |curve| - 1;
    var before := Dated(curve[..n]);
    if before == [] {
      NoMonths(curve[..n]);
      FirstPoint(curve[n]);
      assert Dated(curve) == [curve[n]];
    } else {
      MonthEnds(curve[..n]);
      NextPoint(Months(curve[..n]), before, curve[n]);
    }
  }

  lemma {:induction false} DatedUnfold(curve: seq<Point>)
    requires Dated(curve) != []
    ensures curve != [] && (var n := |curve| - 1;
      && Dated(curve) == Dated(curve[..n]) + (if 7 <= |curve[n].date| then [curve[n]] else [])
      && Months(curve) == AddPoint(Months(curve[..n]), curve[n]))
  {
    hide AddPoint;
  }

  lemma FirstPoint(p: Point)
    requires 7 <= |p.date|
    ensures EndsOf(AddPoint(map[], p), [p])
  {
    assert [p][0] == p;
  }

  lemma NextPoint(months: map<string, Month>, d: seq<Point>, p: Point)
    requires EndsOf(months, d)
    ensures EndsOf(AddPoint(months, p), d + if 7 <= |p.date| then [p] else [])
  {
    var after := d + if 7 <= |p.date| then [p] else [];
    assert forall k :: 0 <= k < |d| ==> after[k] == d[k];
    assert 7 <= |p.date| ==> after[|d|] == p;
  }

  /** What the recorded months say of the dated points they were recorded from. */
  ghost predicate EndsOf(months: map<string, Month>, d: seq<Point>) {
    && d != [] && (forall k :: 0 <= k < |d| ==> 7 <= |d[k].date|)
    && MonthOf(d[0]) in months && months[MonthOf(d[0])].first == d[0].value
    && MonthOf(d[|d| - 1]) in months && months[MonthOf(d[|d| - 1])].last == d[|d| - 1].value
    && (forall m :: m in months ==> exists k :: 0 <= k < |d| && MonthOf(d[k]) == m)
    && ((forall k :: 0 <= k < |d| ==> 0.0 < d[k].value) ==> AllPositive(months))
  }

  lemma {:induction false} NoMonths(curve: seq<Point>)
    requires Dated(curve) == []
    ensures Months(curve) == map[]
  {
    if curve != [] {
      NoMonths(curve[..|curve| - 1]);
    }
  }

  /** No dated point belongs to an earlier month than one before it. */
  ghost predicate Chronological(d: seq<Point>) {
    && (forall k :: 0 <= k < |d| ==> 7 <= |d[k].date|)
    && forall i, j :: 0 <= i < j < |d| ==> !Less(MonthOf(d[j]), MonthOf(d[i]))
  }

  lemma {:induction false} ExtremeMonths(curve: seq<Point>)
    requires Dated(curve) != [] && Chronological(Dated(curve))
    ensures var d, keys := Dated(curve), Sorted(Months(curve).Keys);
      keys != [] && keys[0] == MonthOf(d[0]) && keys[|keys| - 1] == MonthOf(d[|d| - 1])
  {
    hide *;
    MonthEnds(curve);
    ExtremesOf(Months(curve), Dated(curve));
  }

  lemma ExtremesOf(months: map<string, Month>, d: seq<Point>)
    requires EndsOf(months, d) && Chronological(d)
    ensures var keys := Sorted(months.Keys);
      keys != [] && keys[0] == MonthOf(d[0]) && keys[|keys| - 1] == MonthOf(d[|d| - 1])
  {
    hide Sorted, Less, MonthOf, AllPositive, Ascending;
    var first, last := MonthOf(d[0]), MonthOf(d[|d| - 1]);
    forall m | m in months
      ensures !Less(m, first) && !Less(last, m)
    {
      var k :| 0 <= k < |d| && MonthOf(d[k]) == m;
      LessIsTotal(m, first);
      LessIsTotal(last, m);
    }
    LeastIsFirst(Sorted(months.Keys), first);
    GreatestIsLast(Sorted(months.Keys), last);
  }

  lemma {:induction false} LeastIsFirst(keys: seq<string>, x: string)
    requires Ascending(keys) && x in keys && forall m :: m in keys ==> !Less(m, x)
    ensures keys[0] == x
  {
    hide Less;
    var a :| 0 <= a < |keys| && keys[a] == x;
    assert keys[0] in keys;
  }

  lemma {:induction false} GreatestIsLast(keys: seq<string>, x: string)
    requires Ascending(keys) && x in keys && forall m :: m in keys ==> !Less(x, m)
    ensures keys[|keys| - 1] == x
  {
    hide Less;
    var b :| 0 <= b < |keys| && keys[b] == x;
    assert keys[|keys| - 1] in keys;
  }

  /** Bar-to-bar returns of the dated points. */
  function BarReturns(d: seq<Point>): seq<Return> {
    if |d| < 2 then []
    else
      var n := |d| - 1;
      BarReturns(d[..n])
        + [Return(d[n].date, if d[n - 1].value > 0.0 then (d[n].value - d[n - 1].value) / d[n - 1].value else 0.0)]
  }

  /** One return for each point but the first, from the value before it; none is made of a value that is not positive. */
  lemma {:induction false} BarReturnsExactly(d: seq<Point>, k: nat)
    requires k + 1 < |d|
    ensures |BarReturns(d)| == |d| - 1
    ensures var r, before, after := BarReturns(d)[k], d[k].value, d[k + 1].value;
      && r.key == d[k + 1].date
      && (0.0 < before ==> r.rate == (after - before) / before)
      && (before <= 0.0 ==> r.rate == 0.0)
  {
    if 2 < |d| {
      BarReturnsExactly(d[..|d| - 1], if k + 2 < |d| then k else 0);
    }
  }

  lemma {:induction false} BarsTelescope(d: seq<Point>)
    requires d != [] && forall k :: 0 <= k < |d| ==> 0.0 < d[k].value
    ensures Growth(BarReturns(d)) == d[|d| - 1].value / d[0].value
  {
    hide *;
    GrowthOfNothing();
    BarsUnfold(d);
    var n := |d| - 1;
    if n > 0 {
      BarsTelescope(d[..n]);
      var start, end := d[n - 1].value, d[n].value;
      GrowthSnoc(BarReturns(d[..n]), Return(d[n].date, (end - start) / start));
      NextStep(d[0].value, start, end);
    } else {
      var q := d[0].value;
      assert q / q == 1.0;
    }
  }

  lemma {:induction false} BarsUnfold(d: seq<Point>)
    requires d != [] && forall k :: 0 <= k < |d| ==> 0.0 < d[k].value
    ensures |d| < 2 ==> BarReturns(d) == []
    ensures 2 <= |d| ==> (var n := |d| - 1;
      BarReturns(d) == BarReturns(d[..n]) + [Return(d[n].date, (d[n].value - d[n - 1].value) / d[n - 1].value)])
  {
  }

  /**
   * Main theorem: for positive equity in chronological order, years, months and bars all compound
   * to the same growth, the final value over the first.
   */
  lemma {:induction false} ReturnsAreConserved(curve: seq<Point>)
    requires Dated(curve) != [] && Chronological(Dated(curve))
    requires forall k :: 0 <= k < |Dated(curve)| ==> 0.0 < Dated(curve)[k].value
    ensures var d := Dated(curve);
            var growth := d[|d| - 1].value / d[0].value;
      && Growth(YearlyReturns(curve)) == growth
      && Growth(MonthlyReturns(curve)) == growth
      && Growth(BarReturns(d)) == growth
  {
    BarsTelescope(Dated(curve));
    YearsAndMonthsAgree(curve);
    MonthlyGrowth(curve);
    hide *;
  }

  lemma {:induction false} MonthlyGrowth(curve: seq<Point>)
    requires Dated(curve) != [] && Chronological(Dated(curve))
    requires forall k :: 0 <= k < |Dated(curve)| ==> 0.0 < Dated(curve)[k].value
    ensures var d := Dated(curve); Growth(MonthlyReturns(curve)) == d[|d| - 1].value / d[0].value
  {
    hide *;
    var d, months := Dated(curve), Months(curve);
    var keys := Sorted(months.Keys);
    MonthEnds(curve);
    EndsMean(months, d);
    ExtremeMonths(curve);
    MonthsTelescope(months, keys, |keys|);
    MonthlyUnfold(curve);
  }

  lemma EndsMean(months: map<string, Month>, d: seq<Point>)
    requires EndsOf(months, d) && forall k :: 0 <= k < |d| ==> 0.0 < d[k].value
    ensures d != [] && AllPositive(months) && 7 <= |d[0].date| && 7 <= |d[|d| - 1].date|
    ensures MonthOf(d[0]) in months && months[MonthOf(d[0])].first == d[0].value
    ensures MonthOf(d[|d| - 1]) in months && months[MonthOf(d[|d| - 1])].last == d[|d| - 1].value
  {
    hide AllPositive, MonthOf;
  }

  lemma {:induction false} MonthlyUnfold(curve: seq<Point>)
    ensures var keys := Sorted(Months(curve).Keys); MonthlyReturns(curve) == ReturnsOf(Months(curve), keys, |keys|)
  {
    hide Months, Sorted, ReturnsOf;
  }
}
