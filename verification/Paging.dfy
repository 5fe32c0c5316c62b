/**
 * Two ways to page through the bars of an artifact: filter everything and slice, or count and
 * collect in a single pass.  A bar is an ordered dictionary.
 */
module Paging {
  import opened Prelude
  import opened Lexical

  datatype Value = Null | Number(value: real) | Text(text: string)

  /** The columns of a bar in their order, and its values; the timestamp is kept as its text. */
  datatype Bar = Bar(timestamp: string, columns: seq<string>, values: map<string, Value>)

  type Row = map<string, Value>

  datatype Page = Page(
    rows: seq<Row>,
    page: int,
    pageSize: int,
    totalPages: int,
    total: int,
    columns: seq<string>)

  /** A bound that is missing or empty does not restrict anything. */
  predicate Matches(bar: Bar, startDate: Option<string>, endDate: Option<string>) {
    && !(startDate.Some? && startDate.value != "" && Less(bar.timestamp, startDate.value))
    && !(endDate.Some? && endDate.value != "" && Less(endDate.value, bar.timestamp))
  }

  predicate AtLeast(a: string, b: string) {
    a == b || Less(b, a)
  }

  /** Bounds are inclusive. */
  lemma BoundsAreInclusive(bar: Bar, startDate: Option<string>, endDate: Option<string>)
    ensures Matches(bar, startDate, endDate) <==>
      && (startDate in {None, Some("")} || AtLeast(bar.timestamp, startDate.value))
      && (endDate in {None, Some("")} || AtLeast(endDate.value, bar.timestamp))
  {
    hide Less;
    if startDate.Some? {
      LessIsTotal(bar.timestamp, startDate.value);
      LessIsTotal(startDate.value, bar.timestamp);
    }
    if endDate.Some? {
      LessIsTotal(bar.timestamp, endDate.value);
      LessIsTotal(endDate.value, bar.timestamp);
    }
  }

  function Filtered(bars: seq<Bar>, startDate: Option<string>, endDate: Option<string>): (r: seq<Bar>)
    ensures |r| <= |bars|
  {
    if bars == [] then []
    else
      var n := |bars| - 1;
      Filtered(bars[..n], startDate, endDate) + if Matches(bars[n], startDate, endDate) then [bars[n]] else []
  }

  method FilterBars(bars: seq<Bar>, startDate: Option<string>, endDate: Option<string>) returns (filtered: seq<Bar>)
    ensures filtered == Filtered(bars, startDate, endDate)
  {
    filtered := [];
    for i := 0 to |bars|
      invariant filtered == Filtered(bars[..i], startDate, endDate)
    {
      assert bars[..i + 1][..i] == bars[..i];
      if startDate.Some? && startDate.value != "" && Less(bars[i].timestamp, startDate.value) {
        continue;
      }
      if endDate.Some? && endDate.value != "" && Less(endDate.value, bars[i].timestamp) {
        continue;
      }
      filtered := filtered + [bars[i]];
    }
    assert bars[..|bars|] == bars;
  }

  /** `at` lists, in order, the positions of all matching bars, and `kept` the bars at those positions. */
  ghost predicate Selects(at: seq<nat>, kept: seq<Bar>, bars: seq<Bar>, startDate: Option<string>, endDate: Option<string>) {
    && |at| == |kept|
    && (forall k :: 0 <= k < |at| ==> at[k] < |bars| && kept[k] == bars[at[k]] && Matches(kept[k], startDate, endDate))
    && (forall j, k :: 0 <= j < k < |at| ==> at[j] < at[k])
    && (forall i :: 0 <= i < |bars| && Matches(bars[i], startDate, endDate) ==> i in at)
  }

  lemma SelectsNext(at: seq<nat>, kept: seq<Bar>, bars: seq<Bar>, bar: Bar, startDate: Option<string>, endDate: Option<string>)
    requires Selects(at, kept, bars, startDate, endDate)
    ensures if Matches(bar, startDate, endDate)
            then Selects(at + [|bars|], kept + [bar], bars + [bar], startDate, endDate)
            else Selects(at, kept, bars + [bar], startDate, endDate)
  {
    hide Matches;
    assert (at + [|bars|])[|at|] == |bars|;
    forall i | i in at
      ensures i in at + [|bars|]
    {
    }
  }

  lemma {:induction false} FilteredPrefix(bars: seq<Bar>, i: nat, startDate: Option<string>, endDate: Option<string>)
    requires i < |bars|
    ensures Matches(bars[i], startDate, endDate) ==>
      Filtered(bars[..i + 1], startDate, endDate) == Filtered(bars[..i], startDate, endDate) + [bars[i]]
    ensures !Matches(bars[i], startDate, endDate) ==>
      Filtered(bars[..i + 1], startDate, endDate) == Filtered(bars[..i], startDate, endDate)
  {
    assert bars[..i + 1][..i] == bars[..i];
  }

  lemma {:induction false} SelectsNothing(startDate: Option<string>, endDate: Option<string>)
    ensures Selects([], Filtered([], startDate, endDate), [], startDate, endDate)
  {
  }

  /** What the filter keeps is exactly the matching bars, in their order. */
  lemma {:induction false} FilterIsExact(bars: seq<Bar>, startDate: Option<string>, endDate: Option<string>)
    returns (at: seq<nat>)
    ensures Selects(at, Filtered(bars, startDate, endDate), bars, startDate, endDate)
  {
    hide *;
    SelectsNothing(startDate, endDate);
    if bars == [] {
      at := [];
    } else {
      var n := |bars| - 1;
      FilteredPrefix(bars, n, startDate, endDate);
      assert bars[..n + 1] == bars == bars[..n] + [bars[n]];
      at := FilterIsExact(bars[..n], startDate, endDate);
      SelectsNext(at, Filtered(bars[..n], startDate, endDate), bars[..n], bars[n], startDate, endDate);
      if Matches(bars[n], startDate, endDate) {
        at := at + [n];
      }
    }
  }

  function Project(bar: Bar, columns: seq<string>): Row {
    map c | c in columns :: if c in bar.values then bar.values[c] else Null
  }

  function Projected(bars: seq<Bar>, columns: seq<string>): seq<Row> {
    seq(|bars|, i requires 0 <= i < |bars| => Project(bars[i], columns))
  }

  /** The columns of all bars in order of first occurrence. */
  function AllColumns(bars: seq<Bar>): seq<string> {
    if bars == [] then []
    else
      var n := |bars| - 1;
      WithNewColumns(AllColumns(bars[..n]), bars[n].columns)
  }

  function WithNewColumns(known: seq<string>, columns: seq<string>): seq<string> {
    if columns == [] then known
    else
      var n := |columns| - 1;
      var before := WithNewColumns(known, columns[..n]);
      if columns[n] in before then before else before + [columns[n]]
  }

  method ColumnsFromBars(bars: seq<Bar>) returns (columns: seq<string>)
    ensures columns == AllColumns(bars)
  {
    columns := [];
    var seen: set<string> := {};
    for i := 0 to |bars|
      invariant columns == AllColumns(bars[..i])
      invariant seen == set c | c in columns
    {
      assert bars[..i + 1][..i] == bars[..i];
      var keys := bars[i].columns;
      ghost var known := columns;
      for k := 0 to |keys|
        invariant columns == WithNewColumns(known, keys[..k])
        invariant seen == set c | c in columns
      {
        assert keys[..k + 1][..k] == keys[..k];
        if keys[k] !in seen {
          seen := seen + {keys[k]};
          columns := columns + [keys[k]];
        }
      }
      assert keys[..|keys|] == keys;
    }
    assert bars[..|bars|] == bars;
  }

  ghost predicate NoRepeats(columns: seq<string>) {
    forall i, j :: 0 <= i < j < |columns| ==> columns[i] != columns[j]
  }

  lemma {:induction false} NewColumns(known: seq<string>, columns: seq<string>)
    requires NoRepeats(known)
    ensures var r := WithNewColumns(known, columns);
      NoRepeats(r) && known <= r && forall c :: c in r <==> c in known || c in columns
  {
    if columns != [] {
      NewColumns(known, columns[..|columns| - 1]);
      assert columns == columns[..|columns| - 1] + [columns[|columns| - 1]];
    }
  }

  lemma {:induction false} ColumnsNeverRepeat(bars: seq<Bar>)
    ensures NoRepeats(AllColumns(bars))
  {
    hide WithNewColumns, NoRepeats;
    NoColumnsRepeatNothing();
    if bars != [] {
      ColumnsNeverRepeat(bars[..|bars| - 1]);
      NewColumns(AllColumns(bars[..|bars| - 1]), bars[|bars| - 1].columns);
    }
  }

  lemma {:induction false} ColumnsOnlyGrow(bars: seq<Bar>, k: nat)
    requires k <= |bars|
    ensures AllColumns(bars[..k]) <= AllColumns(bars)
    decreases |bars| - k
  {
    hide WithNewColumns, NoRepeats;
    if k < |bars| {
      ColumnsOnlyGrow(bars, k + 1);
      ColumnsNeverRepeat(bars[..k]);
      NewColumns(AllColumns(bars[..k]), bars[k].columns);
      assert bars[..k + 1][..k] == bars[..k];
    } else {
      assert bars[..k] == bars;
    }
  }

  ghost predicate HasColumn(bars: seq<Bar>, c: string) {
    exists i :: 0 <= i < |bars| && c in bars[i].columns
  }

  lemma {:induction false} ColumnsAreCollected(bars: seq<Bar>, c: string)
    ensures c in AllColumns(bars) <==> HasColumn(bars, c)
  {
    hide WithNewColumns, NoRepeats;
    if bars != [] {
      var n := |bars| - 1;
      var before := bars[..n];
      ColumnsAreCollected(before, c);
      ColumnsNeverRepeat(before);
      NewColumns(AllColumns(before), bars[n].columns);
      assert forall i :: 0 <= i < n ==> before[i] == bars[i];
    }
  }

  /** The union of the columns of all bars, none twice; later bars only add columns, at the end. */
  lemma {:induction false} ColumnsAreTheUnion(bars: seq<Bar>, k: nat)
    requires k <= |bars|
    ensures NoRepeats(AllColumns(bars)) && AllColumns(bars[..k]) <= AllColumns(bars)
    ensures forall c :: c in AllColumns(bars) <==> HasColumn(bars, c)
  {
    hide *;
    ColumnsNeverRepeat(bars);
    ColumnsOnlyGrow(bars, k);
    forall c
      ensures c in AllColumns(bars) <==> HasColumn(bars, c)
    {
      ColumnsAreCollected(bars, c);
    }
  }

  lemma NoColumnsRepeatNothing()
    ensures NoRepeats([])
  {
  }

  const MAX_PAGE_SIZE := 1000

  function ClampedSize(pageSize: int): (size: nat)
    ensures 1 <= size <= MAX_PAGE_SIZE
  {
    MaxInt(1, MinInt(pageSize, MAX_PAGE_SIZE))
  }

  function PageCount(total: nat, size: nat): (pages: nat)
    requires 1 <= size
    ensures total == 0 <==> pages == 0
  {
    if total == 0 then 0 else (total + size - 1) / size
  }

  function ClampedPage(page: int, pages: nat): int {
    if pages == 0 then 0 else MaxInt(0, MinInt(page, pages - 1))
  }

  /** The elements of s at positions from `start` up to `end`, as far as there are any. */
  function Slice<T>(s: seq<T>, start: int, end: int): seq<T> {
    var lo := MaxInt(0, MinInt(start, |s|));
    var hi := MaxInt(lo, MinInt(end, |s|));
    s[lo..hi]
  }

  /** The start and end of a page; a named product, opaque where its value does not matter. */
  function PageStart(page: int, size: nat): int {
    page * size
  }

  lemma PageStartStep(page: int, size: nat)
    ensures PageStart(page + 1, size) == PageStart(page, size) + size
    ensures PageStart(0, size) == 0
  {
  }

  lemma PageStartGrows(p: int, q: int, size: nat)
    requires p <= q
    ensures PageStart(p, size) <= PageStart(q, size)
  {
    assert 0 <= (q - p) * size;
  }

  /** The last page ends at or after the last element, and begins before it. */
  lemma PagesCover(total: nat, size: nat)
    requires 1 <= size
    ensures total <= PageStart(PageCount(total, size), size)
    ensures 0 < total ==> PageStart(PageCount(total, size) - 1, size) < total
  {
    if 0 < total {
      var pages := PageCount(total, size);
      assert pages * size <= total + size - 1 < pages * size + size;
      PageStartStep(pages - 1, size);
    }
  }

  // ---------------------------------------------------------------------------------------
  // Filter, then slice
  // ---------------------------------------------------------------------------------------

  /** An explicit column list, unless it is missing or empty. */
  predicate Explicit(columns: Option<seq<string>>) {
    columns.Some? && columns.value != []
  }

  function SlicedPage(bars: seq<Bar>, columns: Option<seq<string>>, startDate: Option<string>, endDate: Option<string>,
                      page: int, pageSize: int): Page
  {
    var filtered := Filtered(bars, startDate, endDate);
    var total := |filtered|;
    var selected := if Explicit(columns) then columns.value else AllColumns(filtered);
    var size := ClampedSize(pageSize);
    var pages := PageCount(total, size);
    var clamped := ClampedPage(page, pages);
    var start := PageStart(clamped, size);
    Page(Projected(Slice(filtered, start, start + size), selected), clamped, size, pages, total, selected)
  }

  method PageBySlicing(bars: seq<Bar>, columns: Option<seq<string>>, startDate: Option<string>, endDate: Option<string>,
                       page: int, pageSize: int) returns (r: Page)
    ensures r == SlicedPage(bars, columns, startDate, endDate, page, pageSize)
  {
    hide PageStart;
    var filtered := FilterBars(bars, startDate, endDate);
    var total := |filtered|;
    var selected: seq<string>;
    if Explicit(columns) {
      selected := columns.value;
    } else {
      selected := ColumnsFromBars(filtered);
    }
    var size := ClampedSize(pageSize);
    var pages := PageCount(total, size);
    var clamped := ClampedPage(page, pages);
    var start := PageStart(clamped, size);
    var end := MinInt(start + size, total);
    assert Slice(filtered, start, end) == Slice(filtered, start, start + size);
    var rows := Projected(Slice(filtered, start, end), selected);
    return Page(rows, clamped, size, pages, total, selected);
  }

  /**
   * Row k of a page shows the bar at that place of the page among the matching bars: a cell for each
   * column and no other, null where the bar has no such value.
   */
  lemma {:induction false} RowsShowTheirBars(bars: seq<Bar>, columns: Option<seq<string>>, startDate: Option<string>,
                          endDate: Option<string>, page: int, pageSize: int, k: nat)
    ensures var p, matching := SlicedPage(bars, columns, startDate, endDate, page, pageSize), Filtered(bars, startDate, endDate);
            var at := PageStart(p.page, p.pageSize) + k;
      && 0 <= p.page && (k < |p.rows| <==> k < p.pageSize && at < |matching|)
      && (k < |p.rows| ==>
            && (forall c :: c in p.rows[k] <==> c in p.columns)
            && (forall c :: c in p.columns && c in matching[at].values ==> p.rows[k][c] == matching[at].values[c])
            && (forall c :: c in p.columns && c !in matching[at].values ==> p.rows[k][c] == Null))
  {
    hide Filtered, AllColumns, PageCount, PageStart, Less;
    var matching, size := Filtered(bars, startDate, endDate), ClampedSize(pageSize);
    var clamped := ClampedPage(page, PageCount(|matching|, size));
    PageStartGrows(0, clamped, size);
    PageStartStep(0, size);
  }

  lemma StartIsProduct(page: int, size: nat)
    ensures PageStart(page, size) == page * size
  {
  }

  /** The smallest number of pages of the size that hold everything. */
  ghost predicate JustHold(pages: int, total: int, size: int) {
    0 <= pages && total <= pages * size && (0 < pages ==> (pages - 1) * size < total)
  }

  /**
   * Both pagers answer for the nearest page size from 1 to 1000 and the nearest page there is, page 0 of an
   * empty answer, and count the matches and the pages alike; explicit columns are kept as they are.
   */
  lemma {:induction false} AnswersAreClamped(bars: seq<Bar>, columns: Option<seq<string>>, startDate: Option<string>,
                                             endDate: Option<string>, page: int, pageSize: int)
    ensures var sliced := SlicedPage(bars, columns, startDate, endDate, page, pageSize);
            var collected := CollectedPage(bars, columns, startDate, endDate, page, pageSize);
            var pages := sliced.totalPages;
      && collected.(rows := sliced.rows, columns := sliced.columns) == sliced
      && sliced.total == |Filtered(bars, startDate, endDate)|
      && sliced.pageSize == (if pageSize < 1 then 1 else if pageSize > 1000 then 1000 else pageSize)
      && JustHold(pages, sliced.total, sliced.pageSize)
      && sliced.page == (if page < 0 || pages == 0 then 0 else if page >= pages then pages - 1 else page)
      && (columns.Some? && 0 < |columns.value| ==> sliced.columns == collected.columns == columns.value)
      && ((columns.None? || columns.value == []) && sliced.total != 0 ==>
            && sliced.columns == AllColumns(Filtered(bars, startDate, endDate))
            && collected.columns == Filtered(bars, startDate, endDate)[0].columns)
  {
    hide Filtered, AllColumns, Projected, Slice;
    var total, size := |Filtered(bars, startDate, endDate)|, ClampedSize(pageSize);
    var pages: int := PageCount(total, size);
    PagesCover(total, size);
    StartIsProduct(pages, size);
    StartIsProduct(pages - 1, size);
    StartIsProduct(0, size);
  }

  // ---------------------------------------------------------------------------------------
  // Single pass
  // ---------------------------------------------------------------------------------------

  /** Columns of the single pass: the caller's, or those of the first matching bar. */
  function FirstColumns(filtered: seq<Bar>, columns: Option<seq<string>>): seq<string> {
    if Explicit(columns) then columns.value else if filtered == [] then [] else filtered[0].columns
  }

  function CollectedPage(bars: seq<Bar>, columns: Option<seq<string>>, startDate: Option<string>,
                         endDate: Option<string>, page: int, pageSize: int): Page
  {
    var filtered := Filtered(bars, startDate, endDate);
    var size := ClampedSize(pageSize);
    var start := PageStart(page, size);
    var pages := PageCount(|filtered|, size);
    var selected := FirstColumns(filtered, columns);
    Page(Projected(Slice(filtered, start, start + size), selected), ClampedPage(page, pages), size, pages,
         |filtered|, selected)
  }

  /** What the single pass has collected from the matching bars so far. */
  ghost predicate Collecting(matched: seq<Bar>, columns: Option<seq<string>>, start: int, end: int,
                             selected: Option<seq<string>>, rows: seq<Row>, total: int)
  {
    && total == |matched|
    && (selected == None <==> !Explicit(columns) && matched == [])
    && (selected == None ==> rows == [])
    && (selected.Some? ==>
          selected.value == FirstColumns(matched, columns)
          && rows == Projected(Slice(matched, start, end), selected.value))
  }

  function Selecting(selected: Option<seq<string>>, bar: Bar): seq<string> {
    if selected.Some? then selected.value else bar.columns
  }

  lemma CollectNext(matched: seq<Bar>, columns: Option<seq<string>>, start: int, end: int,
                    selected: Option<seq<string>>, rows: seq<Row>, total: int, bar: Bar)
    requires Collecting(matched, columns, start, end, selected, rows, total) && start <= end
    ensures Collecting(matched + [bar], columns, start, end, Some(Selecting(selected, bar)),
                       if start <= total < end then rows + [Project(bar, Selecting(selected, bar))] else rows, total + 1)
  {
    hide Project, Slice;
    SliceSnoc(matched, bar, start, end);
    SliceOfNothing<Bar>(start, end);
    assert FirstColumns(matched + [bar], columns) == Selecting(selected, bar);
  }

  lemma SliceOfNothing<T>(start: int, end: int)
    ensures var none: seq<T> := []; Slice(none, start, end) == []
  {
  }

  /** One more element shows in a slice exactly when its place is inside. */
  lemma SliceSnoc<T>(s: seq<T>, x: T, start: int, end: int)
    requires start <= end
    ensures start <= |s| < end ==> Slice(s + [x], start, end) == Slice(s, start, end) + [x]
    ensures !(start <= |s| < end) ==> Slice(s + [x], start, end) == Slice(s, start, end)
  {
    var lo := MaxInt(0, MinInt(start, |s|));
    var hi := MaxInt(lo, MinInt(end, |s|));
    if start <= |s| < end {
      assert (s + [x])[lo..|s| + 1] == s[lo..] + [x];
    } else if |s| < start {
      assert Slice(s, start, end) == [] && Slice(s + [x], start, end) == [];
    } else {
      assert (s + [x])[lo..hi] == s[lo..hi];
    }
  }

  lemma CollectDone(matched: seq<Bar>, columns: Option<seq<string>>, start: int, end: int,
                    selected: Option<seq<string>>, rows: seq<Row>, total: int)
    requires Collecting(matched, columns, start, end, selected, rows, total)
    ensures rows == Projected(Slice(matched, start, end), FirstColumns(matched, columns)) && total == |matched|
    ensures FirstColumns(matched, columns) == if selected.Some? then selected.value else []
  {
  }

  lemma CollectNothing(columns: Option<seq<string>>, start: int, end: int)
    ensures Collecting([], columns, start, end, if Explicit(columns) then columns else None, [], 0)
  {
  }

  /** The single-pass pager: counts every match, projects only those of the requested page. */
  method PageInOnePass(bars: seq<Bar>, columns: Option<seq<string>>, startDate: Option<string>,
                       endDate: Option<string>, page: int, pageSize: int) returns (r: Page)
    ensures r == CollectedPage(bars, columns, startDate, endDate, page, pageSize)
  {
    hide PageStart, Matches, Project, Projected, Slice, PageCount, Collecting, FirstColumns, Less;
    var size := ClampedSize(pageSize);
    var start := PageStart(page, size);
    var end := start + size;
    var selected: Option<seq<string>> := if Explicit(columns) then columns else None;
    var rows: seq<Row> := [];
    var total := 0;
    CollectNothing(columns, start, end);
    for i := 0 to |bars|
      invariant Collecting(Filtered(bars[..i], startDate, endDate), columns, start, end, selected, rows, total)
    {
      FilteredPrefix(bars, i, startDate, endDate);
      ghost var matched := Filtered(bars[..i], startDate, endDate);
      if !Matches(bars[i], startDate, endDate) {
        continue;
      }
      CollectNext(matched, columns, start, end, selected, rows, total, bars[i]);
      selected := Some(Selecting(selected, bars[i]));
      if start <= total < end {
        rows := rows + [Project(bars[i], selected.value)];
      }
      total := total + 1;
    }
    assert bars[..|bars|] == bars;
    CollectDone(Filtered(bars, startDate, endDate), columns, start, end, selected, rows, total);
    var pages := PageCount(total, size);
    var found := if selected.Some? then selected.value else [];
    return Page(rows, ClampedPage(page, pages), size, pages, total, found);
  }

  // ---------------------------------------------------------------------------------------
  // When the two agree
  // ---------------------------------------------------------------------------------------

  /** The page exists, and the columns are given or the first match has all there are. */
  ghost predicate AgreementCondition(bars: seq<Bar>, columns: Option<seq<string>>, startDate: Option<string>,
                                     endDate: Option<string>, page: int, pageSize: int)
  {
    var filtered := Filtered(bars, startDate, endDate);
    filtered == [] ||
    (0 <= page < PageCount(|filtered|, ClampedSize(pageSize)) &&
     (Explicit(columns) || AllColumns(filtered) == filtered[0].columns))
  }

  /**
   * Main theorem: the single-pass pager returns the same six results as filter-then-slice exactly
   * when nothing matches, or the page exists and the columns are not in doubt.
   */
  lemma PagersAgreeExactly(bars: seq<Bar>, columns: Option<seq<string>>, startDate: Option<string>,
                           endDate: Option<string>, page: int, pageSize: int)
    ensures CollectedPage(bars, columns, startDate, endDate, page, pageSize)
              == SlicedPage(bars, columns, startDate, endDate, page, pageSize)
            <==> AgreementCondition(bars, columns, startDate, endDate, page, pageSize)
  {
    var filtered := Filtered(bars, startDate, endDate);
    var pages := PageCount(|filtered|, ClampedSize(pageSize));
    hide *;
    if filtered == [] {
      EmptyPagesAgree(bars, columns, startDate, endDate, page, pageSize);
    } else if 0 <= page < pages {
      ExistingPageAgrees(bars, columns, startDate, endDate, page, pageSize);
    } else {
      MissingPageDiffers(bars, columns, startDate, endDate, page, pageSize);
    }
  }

  lemma {:induction false} EmptyPagesAgree(bars: seq<Bar>, columns: Option<seq<string>>, startDate: Option<string>,
                        endDate: Option<string>, page: int, pageSize: int)
    requires Filtered(bars, startDate, endDate) == []
    ensures CollectedPage(bars, columns, startDate, endDate, page, pageSize)
         == SlicedPage(bars, columns, startDate, endDate, page, pageSize)
    ensures AgreementCondition(bars, columns, startDate, endDate, page, pageSize)
  {
    hide PageStart, Filtered;
  }

  lemma {:induction false} ExistingPageAgrees(bars: seq<Bar>, columns: Option<seq<string>>, startDate: Option<string>,
                           endDate: Option<string>, page: int, pageSize: int)
    requires Filtered(bars, startDate, endDate) != []
    requires 0 <= page < PageCount(|Filtered(bars, startDate, endDate)|, ClampedSize(pageSize))
    ensures CollectedPage(bars, columns, startDate, endDate, page, pageSize)
              == SlicedPage(bars, columns, startDate, endDate, page, pageSize)
            <==> AgreementCondition(bars, columns, startDate, endDate, page, pageSize)
  {
    hide PageStart, PageCount, Filtered, Project, Projected, Slice, AllColumns, ClampedSize;
  }

  lemma {:induction false} MissingPageDiffers(bars: seq<Bar>, columns: Option<seq<string>>, startDate: Option<string>,
                           endDate: Option<string>, page: int, pageSize: int)
    requires Filtered(bars, startDate, endDate) != []
    requires !(0 <= page < PageCount(|Filtered(bars, startDate, endDate)|, ClampedSize(pageSize)))
    ensures CollectedPage(bars, columns, startDate, endDate, page, pageSize).rows == []
    ensures SlicedPage(bars, columns, startDate, endDate, page, pageSize).rows != []
    ensures !AgreementCondition(bars, columns, startDate, endDate, page, pageSize)
  {
    hide PageStart, Slice, PageCount, Filtered, Project, AllColumns;
    var filtered := Filtered(bars, startDate, endDate);
    var size := ClampedSize(pageSize);
    var pages := PageCount(|filtered|, size);
    OutOfRangeIsEmpty(filtered, page, size);
    ExistingPageIsNonempty(filtered, ClampedPage(page, pages), size);
  }

  /** A column that first appears on the second bar is missing from every page of the single pass. */
  lemma LateColumnIsLost()
    ensures var bars := [Bar("1", ["a"], map["a" := Null]), Bar("2", ["a", "b"], map["a" := Null, "b" := Null])];
      && CollectedPage(bars, None, None, None, 0, 10).columns == ["a"]
      && SlicedPage(bars, None, None, None, 0, 10).columns == ["a", "b"]
  {
    hide PageStart, PageCount, ClampedSize, ClampedPage, Project, Projected, Slice;
    var first, second := Bar("1", ["a"], map["a" := Null]), Bar("2", ["a", "b"], map["a" := Null, "b" := Null]);
    var bars := [first, second];
    assert bars[..1] == [first] && [first][..0] == [];
    assert Filtered([first], None, None) == [first] && Filtered(bars, None, None) == bars;
    assert ["a"][..0] == [] && ["a", "b"][..1] == ["a"];
    assert WithNewColumns([], ["a"]) == ["a"] && WithNewColumns(["a"], ["a"]) == ["a"];
    assert AllColumns([first]) == ["a"] && WithNewColumns(["a"], ["a", "b"]) == ["a", "b"];
  }

  lemma OutOfRangeIsEmpty(filtered: seq<Bar>, page: int, size: nat)
    requires 1 <= size && !(0 <= page < PageCount(|filtered|, size))
    ensures Slice(filtered, PageStart(page, size), PageStart(page, size) + size) == []
  {
    var pages := PageCount(|filtered|, size);
    PagesCover(|filtered|, size);
    PageStartStep(page, size);
    if page < 0 {
      PageStartGrows(page + 1, 0, size);
      PageStartStep(0, size);
    } else {
      PageStartGrows(pages, page, size);
    }
    hide PageStart;
  }

  lemma ExistingPageIsNonempty(filtered: seq<Bar>, page: int, size: nat)
    requires 1 <= size && 0 <= page < PageCount(|filtered|, size)
    ensures Slice(filtered, PageStart(page, size), PageStart(page, size) + size) != []
  {
    var pages := PageCount(|filtered|, size);
    PagesCover(|filtered|, size);
    PageStartGrows(page, pages - 1, size);
    PageStartGrows(0, page, size);
    PageStartStep(0, size);
    hide PageStart, PageCount;
  }

  /** The rows of the first n pages, one after the other. */
  function RowsOfPages(bars: seq<Bar>, columns: Option<seq<string>>, startDate: Option<string>, endDate: Option<string>,
                       pageSize: int, n: nat): seq<Row>
  {
    if n == 0 then []
    else
      RowsOfPages(bars, columns, startDate, endDate, pageSize, n - 1)
        + CollectedPage(bars, columns, startDate, endDate, n - 1, pageSize).rows
  }

  lemma ProjectedAppend(a: seq<Bar>, b: seq<Bar>, columns: seq<string>)
    ensures Projected(a + b, columns) == Projected(a, columns) + Projected(b, columns)
  {
  }

  lemma {:induction false} FirstPages(bars: seq<Bar>, columns: Option<seq<string>>, startDate: Option<string>,
                                      endDate: Option<string>, pageSize: int, n: nat)
    ensures var filtered := Filtered(bars, startDate, endDate);
      RowsOfPages(bars, columns, startDate, endDate, pageSize, n)
        == Projected(Slice(filtered, 0, PageStart(n, ClampedSize(pageSize))), FirstColumns(filtered, columns))
  {
    hide *;
    var filtered, size := Filtered(bars, startDate, endDate), ClampedSize(pageSize);
    PageStartStep(0, size);
    RowsNext(bars, columns, startDate, endDate, pageSize, n);
    NoRows(filtered, FirstColumns(filtered, columns));
    if n > 0 {
      FirstPages(bars, columns, startDate, endDate, pageSize, n - 1);
      PageRows(bars, columns, startDate, endDate, n - 1, pageSize);
      PageStartStep(n - 1, size);
      PageStartGrows(0, n - 1, size);
      JoinPages(filtered, PageStart(n - 1, size), size, FirstColumns(filtered, columns));
    }
  }

  lemma NoRows(s: seq<Bar>, columns: seq<string>)
    ensures Projected(Slice(s, 0, 0), columns) == []
  {
  }

  lemma RowsNext(bars: seq<Bar>, columns: Option<seq<string>>, startDate: Option<string>, endDate: Option<string>,
                 pageSize: int, n: nat)
    ensures RowsOfPages(bars, columns, startDate, endDate, pageSize, n) ==
      if n == 0 then []
      else
        RowsOfPages(bars, columns, startDate, endDate, pageSize, n - 1)
          + CollectedPage(bars, columns, startDate, endDate, n - 1, pageSize).rows
  {
    hide CollectedPage;
  }

  lemma JoinPages(s: seq<Bar>, start: int, size: nat, columns: seq<string>)
    requires 0 <= start
    ensures Projected(Slice(s, 0, start), columns) + Projected(Slice(s, start, start + size), columns)
         == Projected(Slice(s, 0, start + size), columns)
  {
    hide Project;
    SlicesMeet(s, start, start + size);
    ProjectedAppend(Slice(s, 0, start), Slice(s, start, start + size), columns);
    hide Slice, Projected;
  }

  lemma {:induction false} PageRows(bars: seq<Bar>, columns: Option<seq<string>>, startDate: Option<string>, endDate: Option<string>,
                 page: int, pageSize: int)
    ensures var filtered, start := Filtered(bars, startDate, endDate), PageStart(page, ClampedSize(pageSize));
      CollectedPage(bars, columns, startDate, endDate, page, pageSize).rows
        == Projected(Slice(filtered, start, start + ClampedSize(pageSize)), FirstColumns(filtered, columns))
  {
  }

  lemma SlicesMeet<T>(s: seq<T>, middle: int, end: int)
    requires 0 <= middle <= end
    ensures Slice(s, 0, middle) + Slice(s, middle, end) == Slice(s, 0, end)
  {
  }

  /** All pages together hold every matching bar, projected, once and in order. */
  lemma {:induction false} PagesPartition(bars: seq<Bar>, columns: Option<seq<string>>, startDate: Option<string>,
                       endDate: Option<string>, pageSize: int)
    ensures var filtered := Filtered(bars, startDate, endDate);
      RowsOfPages(bars, columns, startDate, endDate, pageSize, PageCount(|filtered|, ClampedSize(pageSize)))
        == Projected(filtered, FirstColumns(filtered, columns))
  {
    var filtered, size := Filtered(bars, startDate, endDate), ClampedSize(pageSize);
    FirstPages(bars, columns, startDate, endDate, pageSize, PageCount(|filtered|, size));
    PagesCover(|filtered|, size);
    var end := PageStart(PageCount(|filtered|, size), size);
    assert Slice(filtered, 0, end) == filtered;
    hide PageStart, PageCount, Filtered;
  }
}
