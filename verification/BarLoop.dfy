/**
 * The bar loop of a backtest: signals become pending orders, pending orders execute at the next
 * bar's open, and every tradable bar adds one point to the equity curve.
 */
module BarLoop {
  import opened Prelude
  import opened Simulation
  import opened Execution

  datatype Bar = Bar(date: string, open: real, high: real, low: real, close: real, columns: map<string, real>)

  datatype Action = Buy | Sell | Hold

  datatype Signal = Signal(
    action: Action,
    direction: Direction,
    stopPrice: real,
    targetPrice: real,
    confidence: real,
    positionSize: int)

  datatype PendingExit = PendingExit(direction: Direction, confidence: real)

  datatype Point = Point(date: string, close: real, value: real, drawdown: real, position: real)

  /** One call of the executor's entry, for the record: the bar it happened in and what it was given. */
  datatype Fill = Fill(bar: nat, order: PendingEntry, price: real, date: string)

  /** A strategy sees its own state, the bar and the position, and may answer with a signal. */
  type Strategy<!S> = (S, Bar, Position) -> (S, Option<Signal>)

  datatype Run<!S> = Run(
    config: Config,
    onBar: Strategy<S>,
    initial: S,
    initialCash: real,
    riskPerTrade: real,
    firstTradable: nat)

  datatype State<S> = State(
    book: Book,
    strategy: S,
    pendingEntry: Option<PendingEntry>,
    pendingExit: Option<PendingExit>,
    peak: real,
    curve: seq<Point>,
    fills: seq<Fill>)

  // ---------------------------------------------------------------------------------------
  // One bar
  // ---------------------------------------------------------------------------------------

  function ExecuteExit(config: Config, book: Book, bar: Bar): Book {
    Close(config, book, bar.open, bar.date, "signal_exit_next_open")
  }

  function ExecutePending<S>(config: Config, s: State<S>, bar: Bar, i: nat): State<S> {
    var s := if s.pendingExit.Some? && s.book.position.size != 0.0
             then s.(book := ExecuteExit(config, s.book, bar), pendingExit := None) else s;
    if s.pendingEntry.None? || s.book.position.size != 0.0 then s
    else s.(book := Enter(config, s.book, s.pendingEntry.value, bar.open, bar.date), pendingEntry := None,
            fills := s.fills + [Fill(i, s.pendingEntry.value, bar.open, bar.date)])
  }

  /** Stops and targets, then the margin call, then funding. */
  function Managed(config: Config, book: Book, bar: Bar): Book {
    ApplyFunding(config, CheckMarginCall(config, CheckExit(config, book, bar.open, bar.high, bar.low, bar.date), bar.close))
  }

  predicate ExitRequested(signal: Option<Signal>, p: Position) {
    signal.Some? && signal.value.direction == Exit && signal.value.action != Hold && p.size != 0.0
  }

  predicate EntryRequested(signal: Option<Signal>, p: Position) {
    signal.Some? && p.size == 0.0 && signal.value.action != Hold && signal.value.direction in {Long, Short}
  }

  /** The order a signal becomes. */
  function OrderOf(signal: Signal, riskPerTrade: real, close: real): PendingEntry {
    PendingEntry(signal.direction, signal.stopPrice, signal.targetPrice,
                 if signal.positionSize > 0 then signal.positionSize else 0, signal.positionSize > 0,
                 riskPerTrade, close)
  }

  function ProcessSignal<S>(run: Run<S>, s: State<S>, bar: Bar): State<S> {
    var p := s.book.position;
    var (strategy, signal) := run.onBar(s.strategy, bar, p);
    var s := s.(strategy := strategy);
    if ExitRequested(signal, p) then s.(pendingExit := Some(PendingExit(p.direction, signal.value.confidence)))
    else if EntryRequested(signal, p) then s.(pendingEntry := Some(OrderOf(signal.value, run.riskPerTrade, bar.close)))
    else s
  }

  function TrackEquity<S>(s: State<S>, bar: Bar): State<S> {
    var value := PortfolioValue(s.book, bar.close);
    var peak := Max(s.peak, value);
    s.(peak := peak,
       curve := s.curve + [Point(bar.date, bar.close, value, DrawdownFrom(peak, value), s.book.position.size)])
  }

  function TradeBar<S>(run: Run<S>, s: State<S>, bar: Bar, i: nat): State<S> {
    var settled := ExecutePending(run.config, s, bar, i);
    var managed := settled.(book := Managed(run.config, settled.book, bar));
    var tracked := TrackEquity(ProcessSignal(run, managed, bar), bar);
    tracked.(book := Synced(tracked.book))
  }

  /** A warmup bar only feeds the strategy. */
  function Step<S>(run: Run<S>, s: State<S>, bar: Bar, i: nat): State<S> {
    if i < run.firstTradable then s.(strategy := run.onBar(s.strategy, bar, s.book.position).0)
    else TradeBar(run, s, bar, i)
  }

  function Start<S>(run: Run<S>): State<S> {
    State(InitialBook(run.config, run.initialCash), run.initial, None, None, run.initialCash, [], [])
  }

  /** The state at the boundary after the first k bars. */
  function After<S>(run: Run<S>, bars: seq<Bar>, k: nat): State<S>
    requires k <= |bars|
  {
    if k == 0 then Start(run) else Step(run, After(run, bars, k - 1), bars[k - 1], k - 1)
  }

  /** Closes what is still open at the last close and rewrites the last point accordingly. */
  function LiquidateOpen<S>(config: Config, s: State<S>, close: real, date: string): State<S> {
    if s.book.position.size == 0.0 then s
    else
      var book := Liquidate(config, s.book, close, date);
      if s.curve == [] then s.(book := book)
      else
        var value, last := PortfolioValue(book, close), |s.curve| - 1;
        var peak := Max(s.peak, value);
        s.(book := book, peak := peak,
           curve := s.curve[last := s.curve[last].(value := value, position := 0.0,
                                                   drawdown := DrawdownFrom(peak, value))])
  }

  /** Liquidates at the close of the last bar. */
  function LiquidateAfter<S>(run: Run<S>, bars: seq<Bar>, s: State<S>): State<S> {
    if bars == [] then LiquidateOpen(run.config, s, 0.0, "")
    else LiquidateOpen(run.config, s, bars[|bars| - 1].close, bars[|bars| - 1].date)
  }

  function Result<S>(run: Run<S>, bars: seq<Bar>): State<S> {
    LiquidateAfter(run, bars, After(run, bars, |bars|))
  }

  /**
   * What a signal queues, in its own terms: anything but a hold asks to leave an open position or to
   * enter from none; a hold, a signal that does not fit the position and silence queue nothing.
   */
  lemma SignalsQueueOrders<S>(run: Run<S>, s: State<S>, bar: Bar)
    ensures var p, after, answer := s.book.position, ProcessSignal(run, s, bar), run.onBar(s.strategy, bar, s.book.position);
      && after.(pendingExit := s.pendingExit, pendingEntry := s.pendingEntry) == s.(strategy := answer.0)
      && (answer.1.None? || answer.1.value.action == Hold ==>
          after.pendingExit == s.pendingExit && after.pendingEntry == s.pendingEntry)
      && (answer.1.Some? && answer.1.value.action in {Buy, Sell} ==>
          var signal := answer.1.value;
          var sized := 0 < signal.positionSize;
          && after.pendingExit
             == (match signal.direction
                 case Exit => if p.size == 0.0 then s.pendingExit else Some(PendingExit(p.direction, signal.confidence))
                 case _ => s.pendingExit)
          && after.pendingEntry
             == (match signal.direction
                 case Long | Short =>
                   if p.size != 0.0 then s.pendingEntry
                   else Some(PendingEntry(signal.direction, signal.stopPrice, signal.targetPrice,
                                          MaxInt(0, signal.positionSize), sized, run.riskPerTrade, bar.close))
                 case _ => s.pendingEntry))
  {
  }

  // ---------------------------------------------------------------------------------------
  // What holds at every bar boundary
  // ---------------------------------------------------------------------------------------

  /** Never two pending orders; an exit waits only on an open position, an entry only on none. */
  ghost predicate OrdersFit<S>(s: State<S>) {
    && (s.pendingExit.Some? ==> s.pendingEntry.None? && s.book.position.size != 0.0)
    && (s.pendingEntry.Some? ==> s.book.position.size == 0.0 && s.pendingEntry.value.direction in {Long, Short})
  }

  ghost predicate AtBoundary<S>(s: State<S>, initialCash: real) {
    OrdersFit(s) && Reconciled(s.book, initialCash)
  }

  lemma ReconciledSides(book: Book, initialCash: real)
    requires Reconciled(book, initialCash)
    ensures SidesAgree(book.position)
  {
  }

  /** The next open settles whatever is pending, and a pending exit then leaves the account flat. */
  lemma OpenSettlesOrders<S>(config: Config, s: State<S>, bar: Bar, i: nat, initialCash: real)
    requires AtBoundary(s, initialCash)
    ensures var after := ExecutePending(config, s, bar, i);
      && after.pendingEntry.None? && after.pendingExit.None? && Reconciled(after.book, initialCash)
      && after.strategy == s.strategy && after.peak == s.peak && after.curve == s.curve
      && (s.pendingExit.Some? ==>
          && after.book.position == FLAT && |after.book.trades| == |s.book.trades| + 1
          && after.book.trades[|s.book.trades|].exitDate == bar.date
          && after.book.trades[|s.book.trades|].exitPrice
             == (if s.book.position.size > 0.0 then bar.open - Concession(config, bar.open)
                 else bar.open + Concession(config, bar.open)))
      && (s.pendingEntry.Some? ==>
          && after.book == Enter(config, s.book, s.pendingEntry.value, bar.open, bar.date)
          && after.fills == s.fills + [Fill(i, s.pendingEntry.value, bar.open, bar.date)])
      && (s.pendingEntry.None? ==> after.fills == s.fills)
      && (s.pendingEntry.None? && s.pendingExit.None? ==> after.book == s.book)
  {
    hide Close, Enter, Reconciled, Slipped, Concession, Charge, Borrowed, Times, SidesAgree;
    if s.pendingExit.Some? {
      CloseReconciles(config, s.book, bar.open, bar.date, "signal_exit_next_open", initialCash);
      ReconciledSides(s.book, initialCash);
      ExitSpelledOut(config, s.book, bar.open, bar.date, "signal_exit_next_open");
    } else if s.pendingEntry.Some? {
      EnterReconciles(config, s.book, s.pendingEntry.value, bar.open, bar.date, initialCash);
    }
  }

  lemma ManagedReconciles(config: Config, book: Book, bar: Bar, initialCash: real)
    requires Reconciled(book, initialCash)
    ensures Reconciled(Managed(config, book, bar), initialCash)
  {
    hide Reconciled, CheckExit, CheckMarginCall, ApplyFunding;
    var checked := CheckExit(config, book, bar.open, bar.high, bar.low, bar.date);
    ChecksReconcile(config, book, bar.open, bar.high, bar.low, bar.close, bar.date, initialCash);
    ChecksReconcile(config, checked, bar.open, bar.high, bar.low, bar.close, bar.date, initialCash);
    UpkeepReconciles(config, CheckMarginCall(config, checked, bar.close), initialCash);
  }

  /** The book a bar's signal is decided on, and the book its point is valued on. */
  function BookAt<S>(run: Run<S>, s: State<S>, bar: Bar, i: nat): Book {
    Managed(run.config, ExecutePending(run.config, s, bar, i).book, bar)
  }

  function SignalAt<S>(run: Run<S>, s: State<S>, bar: Bar, i: nat): Option<Signal> {
    run.onBar(s.strategy, bar, BookAt(run, s, bar, i).position).1
  }

  /** What a tradable bar does to a boundary state, part by part. */
  lemma TradeBarParts<S>(run: Run<S>, s: State<S>, bar: Bar, i: nat)
    requires AtBoundary(s, run.initialCash)
    ensures var after, book, signal := TradeBar(run, s, bar, i), BookAt(run, s, bar, i), SignalAt(run, s, bar, i);
      && AtBoundary(after, run.initialCash) && after.book == book
      && after.strategy == run.onBar(s.strategy, bar, book.position).0
      && after.pendingExit
         == (if ExitRequested(signal, book.position)
             then Some(PendingExit(book.position.direction, signal.value.confidence)) else None)
      && after.pendingEntry
         == (if EntryRequested(signal, book.position)
             then Some(OrderOf(signal.value, run.riskPerTrade, bar.close)) else None)
      && after.fills
         == s.fills + (if s.pendingEntry.Some? then [Fill(i, s.pendingEntry.value, bar.open, bar.date)] else [])
      && after.peak == Max(s.peak, PortfolioValue(book, bar.close))
      && after.curve == s.curve + [Point(bar.date, bar.close, PortfolioValue(book, bar.close),
                                         DrawdownFrom(after.peak, PortfolioValue(book, bar.close)), book.position.size)]
  {
    hide Reconciled, Managed, ExecutePending, PortfolioValue, DrawdownFrom, Max, Synced, Enter;
    OpenSettlesOrders(run.config, s, bar, i, run.initialCash);
    var settled := ExecutePending(run.config, s, bar, i);
    assert s.fills + [] == s.fills;
    ManagedReconciles(run.config, settled.book, bar, run.initialCash);
    UpkeepReconciles(run.config, BookAt(run, s, bar, i), run.initialCash);
  }

  lemma StartIsBoundary<S>(run: Run<S>)
    ensures AtBoundary(Start(run), run.initialCash)
  {
    TimesDistributes(0.0, 0.0, 0.0);
  }

  /** Main invariant: every bar boundary of every run is sound. */
  lemma {:induction false} EveryBoundary<S>(run: Run<S>, bars: seq<Bar>, k: nat)
    requires k <= |bars|
    ensures AtBoundary(After(run, bars, k), run.initialCash)
    ensures k <= run.firstTradable ==>
      After(run, bars, k) == Start(run).(strategy := After(run, bars, k).strategy)
  {
    hide TradeBar, Reconciled, InitialBook;
    StartIsBoundary(run);
    if k > 0 {
      EveryBoundary(run, bars, k - 1);
      TradeBarParts(run, After(run, bars, k - 1), bars[k - 1], k - 1);
    }
  }

  // ---------------------------------------------------------------------------------------
  // Next-open execution
  // ---------------------------------------------------------------------------------------

  /** The entry order that the signal of bar k asks for, if any. */
  function OrderAt<S>(run: Run<S>, bars: seq<Bar>, k: nat): Option<PendingEntry>
    requires k < |bars|
  {
    var s := After(run, bars, k);
    var signal, position := SignalAt(run, s, bars[k], k), BookAt(run, s, bars[k], k).position;
    if k < run.firstTradable || !EntryRequested(signal, position) then None
    else Some(OrderOf(signal.value, run.riskPerTrade, bars[k].close))
  }

  /** The fills that next-open execution promises for the first k bars: each order, one bar later. */
  function ExpectedFills<S>(run: Run<S>, bars: seq<Bar>, k: nat): seq<Fill>
    requires k <= |bars|
  {
    if k < 2 then []
    else
      ExpectedFills(run, bars, k - 1)
      + match OrderAt(run, bars, k - 2)
        case None => []
        case Some(order) => [Fill(k - 1, order, bars[k - 1].open, bars[k - 1].date)]
  }

  /**
   * Every entry is the order of the signal one bar earlier, filled at the open of its own bar, and
   * every such order is filled as soon as there is a next bar.
   */
  lemma {:induction false} EntriesFillAtNextOpen<S>(run: Run<S>, bars: seq<Bar>, k: nat)
    requires k <= |bars|
    ensures After(run, bars, k).fills == ExpectedFills(run, bars, k)
    ensures After(run, bars, k).pendingEntry == if k == 0 then None else OrderAt(run, bars, k - 1)
  {
    hide TradeBar, BookAt, SignalAt, AtBoundary, EntryRequested, OrderOf, InitialBook;
    if k > 0 {
      EntriesFillAtNextOpen(run, bars, k - 1);
      EveryBoundary(run, bars, k - 1);
      TradeBarParts(run, After(run, bars, k - 1), bars[k - 1], k - 1);
    }
  }

  // ---------------------------------------------------------------------------------------
  // The equity curve
  // ---------------------------------------------------------------------------------------

  function PeakOf(initialCash: real, curve: seq<Point>): real {
    if curve == [] then initialCash
    else Max(PeakOf(initialCash, curve[..|curve| - 1]), curve[|curve| - 1].value)
  }

  /** What a curve reports, point by point, for the bars it covers. */
  ghost predicate Charts(curve: seq<Point>, bars: seq<Bar>, first: nat, initialCash: real) {
    forall j :: 0 <= j < |curve| ==>
      && first + j < |bars|
      && curve[j].date == bars[first + j].date && curve[j].close == bars[first + j].close
      && curve[j].drawdown == DrawdownFrom(PeakOf(initialCash, curve[..j + 1]), curve[j].value)
  }

  lemma {:induction false} ChartsSnoc(curve: seq<Point>, p: Point, bars: seq<Bar>, first: nat, initialCash: real)
    requires Charts(curve, bars, first, initialCash) && first + |curve| < |bars|
    requires p.date == bars[first + |curve|].date && p.close == bars[first + |curve|].close
    requires p.drawdown == DrawdownFrom(Max(PeakOf(initialCash, curve), p.value), p.value)
    ensures Charts(curve + [p], bars, first, initialCash)
    ensures PeakOf(initialCash, curve + [p]) == Max(PeakOf(initialCash, curve), p.value)
  {
    hide DrawdownFrom, Max, PeakOf;
    var n, longer := |curve|, curve + [p];
    PeakSnoc(initialCash, curve, p);
    forall j | 0 <= j < |longer|
      ensures first + j < |bars|
      ensures longer[j].date == bars[first + j].date && longer[j].close == bars[first + j].close
      ensures longer[j].drawdown == DrawdownFrom(PeakOf(initialCash, longer[..j + 1]), longer[j].value)
    {
      if j < n {
        assert longer[j] == curve[j] && longer[..j + 1] == curve[..j + 1];
      } else {
        assert longer[..j + 1] == longer;
      }
    }
  }

  lemma {:induction false} PeakSnoc(initialCash: real, curve: seq<Point>, p: Point)
    ensures PeakOf(initialCash, curve + [p]) == Max(PeakOf(initialCash, curve), p.value)
  {
    hide Max;
    assert (curve + [p])[..|curve|] == curve;
  }

  /** One point for every tradable bar, with the running peak behind every drawdown. */
  lemma {:induction false} CurveCharts<S>(run: Run<S>, bars: seq<Bar>, k: nat)
    requires k <= |bars|
    ensures var s := After(run, bars, k);
      && |s.curve| == MaxInt(0, k - run.firstTradable)
      && s.peak == PeakOf(run.initialCash, s.curve)
      && Charts(s.curve, bars, run.firstTradable, run.initialCash)
  {
    hide TradeBar, AtBoundary, InitialBook, BookAt, PortfolioValue, DrawdownFrom, Max, PeakOf, Charts;
    StartCharts(run, bars);
    if k > 0 {
      CurveCharts(run, bars, k - 1);
      EveryBoundary(run, bars, k - 1);
      var s := After(run, bars, k - 1);
      if run.firstTradable < k {
        TradeBarParts(run, s, bars[k - 1], k - 1);
        var after := After(run, bars, k);
        ChartsSnoc(s.curve, after.curve[|s.curve|], bars, run.firstTradable, run.initialCash);
      }
    }
  }

  lemma StartCharts<S>(run: Run<S>, bars: seq<Bar>)
    ensures Charts([], bars, run.firstTradable, run.initialCash) && PeakOf(run.initialCash, []) == run.initialCash
  {
  }

  // ---------------------------------------------------------------------------------------
  // No look-ahead
  // ---------------------------------------------------------------------------------------

  /** The state at a boundary depends on the bars before it only. */
  lemma {:induction false} SamePast<S>(run: Run<S>, a: seq<Bar>, b: seq<Bar>, k: nat)
    requires k <= |a| && k <= |b| && a[..k] == b[..k]
    ensures After(run, a, k) == After(run, b, k)
  {
    hide Step, Start;
    if k > 0 {
      assert a[..k][k - 1] == a[k - 1] && b[..k][k - 1] == b[k - 1];
      assert a[..k - 1] == a[..k][..k - 1] && b[..k - 1] == b[..k][..k - 1];
      SamePast(run, a, b, k - 1);
    }
  }

  lemma BarTradesGrow<S>(run: Run<S>, s: State<S>, bar: Bar, i: nat)
    ensures s.book.trades <= TradeBar(run, s, bar, i).book.trades
  {
    hide Close, Enter, CheckExit, CheckMarginCall, ApplyFunding, Synced, PortfolioValue, DrawdownFrom, Max, OrderOf;
    var order := if s.pendingEntry.Some? then s.pendingEntry.value else PendingEntry(Long, 0.0, 0.0, 0, false, 0.0, 0.0);
    var reason := "signal_exit_next_open";
    TradesOnlyGrow(run.config, s.book, order, bar.open, bar.open, bar.high, bar.low, bar.close, bar.date, reason);
    var left := if s.pendingExit.Some? && s.book.position.size != 0.0 then ExecuteExit(run.config, s.book, bar) else s.book;
    TradesOnlyGrow(run.config, left, order, bar.open, bar.open, bar.high, bar.low, bar.close, bar.date, reason);
    var settled := ExecutePending(run.config, s, bar, i).book;
    assert s.book.trades <= settled.trades;
    TradesOnlyGrow(run.config, settled, order, bar.open, bar.open, bar.high, bar.low, bar.close, bar.date, reason);
    var checked := CheckExit(run.config, settled, bar.open, bar.high, bar.low, bar.date);
    TradesOnlyGrow(run.config, checked, order, bar.open, bar.open, bar.high, bar.low, bar.close, bar.date, reason);
    var called := CheckMarginCall(run.config, checked, bar.close);
    TradesOnlyGrow(run.config, called, order, bar.open, bar.open, bar.high, bar.low, bar.close, bar.date, reason);
    var managed := Managed(run.config, settled, bar);
    TradesOnlyGrow(run.config, managed, order, bar.open, bar.open, bar.high, bar.low, bar.close, bar.date, reason);
  }

  /** Later bars only add points, fills and trades. */
  lemma {:induction false} HistoryGrows<S>(run: Run<S>, bars: seq<Bar>, k: nat, n: nat)
    requires k <= n <= |bars|
    ensures After(run, bars, k).curve <= After(run, bars, n).curve
    ensures After(run, bars, k).fills <= After(run, bars, n).fills
    ensures After(run, bars, k).book.trades <= After(run, bars, n).book.trades
    decreases n
  {
    hide TradeBar, AtBoundary, BookAt;
    if k < n {
      BarTradesGrow(run, After(run, bars, n - 1), bars[n - 1], n - 1);
      HistoryGrows(run, bars, k, n - 1);
      EveryBoundary(run, bars, n - 1);
      TradeBarParts(run, After(run, bars, n - 1), bars[n - 1], n - 1);
    }
  }

  /**
   * Two runs over bars that agree on the first k and differ afterwards report the same points,
   * entries and trades for those k bars, however both are liquidated at their ends.
   */
  lemma NoLookAhead<S>(run: Run<S>, a: seq<Bar>, b: seq<Bar>, k: nat)
    requires k < |a| && k < |b| && a[..k] == b[..k]
    ensures var done := MaxInt(0, k - run.firstTradable);
      && done <= |Result(run, a).curve| && done <= |Result(run, b).curve|
      && Result(run, a).curve[..done] == Result(run, b).curve[..done]
    ensures After(run, a, k).fills <= Result(run, a).fills && After(run, a, k).fills <= Result(run, b).fills
    ensures var trades := After(run, a, k).book.trades;
      trades <= Result(run, a).book.trades && trades <= Result(run, b).book.trades
  {
    hide After, Start, Step;
    SamePast(run, a, b, k);
    KeptPoints(run, a, k);
    KeptPoints(run, b, k);
  }

  lemma {:induction false} KeptPoints<S>(run: Run<S>, bars: seq<Bar>, k: nat)
    requires k < |bars|
    ensures var done := MaxInt(0, k - run.firstTradable);
      && done == |After(run, bars, k).curve| <= |Result(run, bars).curve|
      && Result(run, bars).curve[..done] == After(run, bars, k).curve
      && After(run, bars, k).fills <= Result(run, bars).fills
      && After(run, bars, k).book.trades <= Result(run, bars).book.trades
  {
    hide After, LiquidateAfter, PeakOf, Charts;
    var s, n := After(run, bars, k), |bars|;
    HistoryGrows(run, bars, k, n);
    CurveCharts(run, bars, k);
    CurveCharts(run, bars, n);
    LiquidationKeeps(run, bars, After(run, bars, n));
    assert s.curve == Result(run, bars).curve[..|s.curve|];
  }

  /** Liquidation rewrites the last point only, and only adds a trade. */
  lemma LiquidationKeeps<S>(run: Run<S>, bars: seq<Bar>, s: State<S>)
    ensures var end := LiquidateAfter(run, bars, s);
      && |end.curve| == |s.curve| && end.fills == s.fills && s.book.trades <= end.book.trades
      && forall j :: 0 <= j < |s.curve| - 1 ==> end.curve[j] == s.curve[j]
  {
    hide Close, PortfolioValue, Max, DrawdownFrom;
    var order := PendingEntry(Long, 0.0, 0.0, 0, false, 0.0, 0.0);
    var close := if bars == [] then 0.0 else bars[|bars| - 1].close;
    var date := if bars == [] then "" else bars[|bars| - 1].date;
    TradesOnlyGrow(run.config, s.book, order, close, close, close, close, close, date, "end_of_backtest");
  }

  /** Point j values the book as it stands at the boundary after its own bar. */
  lemma PointValuesTheBook<S>(run: Run<S>, bars: seq<Bar>, j: nat, k: nat)
    requires run.firstTradable + j < k <= |bars|
    ensures var i := run.firstTradable + j;
      && j < |After(run, bars, k).curve|
      && After(run, bars, k).curve[j].value == PortfolioValue(After(run, bars, i + 1).book, bars[i].close)
      && After(run, bars, k).curve[j].position == After(run, bars, i + 1).book.position.size
  {
    hide TradeBar, AtBoundary, BookAt, PortfolioValue;
    var i := run.firstTradable + j;
    CurveCharts(run, bars, i);
    EveryBoundary(run, bars, i);
    TradeBarParts(run, After(run, bars, i), bars[i], i);
    HistoryGrows(run, bars, i + 1, k);
  }

  // ---------------------------------------------------------------------------------------
  // The end of a run
  // ---------------------------------------------------------------------------------------

  /** The reported reconciliation error, before rounding. */
  function ReconciliationError<S>(s: State<S>, initialCash: real): real {
    var finalValue := if s.curve == [] then initialCash else s.curve[|s.curve| - 1].value;
    finalValue - initialCash - RealizedPnl(s.book.trades) + s.book.totals.funding
  }

  /**
   * Every run ends flat, with one point for every tradable bar, the last of them worth the final cash,
   * and before rounding the final value is explained by the trades and the funding, and by gross
   * results less the reported totals.
   */
  lemma EveryRunReconciles<S>(run: Run<S>, bars: seq<Bar>)
    ensures var s := Result(run, bars);
      && s.book.position.size == 0.0
      && |s.curve| == MaxInt(0, |bars| - run.firstTradable)
      && (s.curve != [] ==> s.curve[|s.curve| - 1].value == s.book.cash)
      && s.book.cash == run.initialCash + RealizedPnl(s.book.trades) - s.book.totals.funding
      && s.book.cash == run.initialCash + TallyOf(s.book.trades).gross
                        - s.book.totals.commission - s.book.totals.borrow - s.book.totals.funding
      && ReconciliationError(s, run.initialCash) == 0.0
  {
    hide After, LiquidateOpen, LiquidateAfter, TallyOf, RealizedPnl, PortfolioValue, AtBoundary, Reconciled, Start,
         ReconciliationError, PeakOf, Charts;
    var n := |bars|;
    EveryBoundary(run, bars, n);
    CurveCharts(run, bars, n);
    if run.firstTradable < n {
      PointValuesTheBook(run, bars, n - 1 - run.firstTradable, n);
    }
    FlatAtTheEnd(run, bars, After(run, bars, n));
    ReconciledFlat(Result(run, bars).book, run.initialCash);
    ErrorUnfold(Result(run, bars), run.initialCash);
    if n <= run.firstTradable {
      NothingTraded(run, After(run, bars, n).strategy, bars);
    }
  }

  lemma NothingTraded<S>(run: Run<S>, strategy: S, bars: seq<Bar>)
    ensures var s := LiquidateAfter(run, bars, Start(run).(strategy := strategy));
      s.curve == [] && RealizedPnl(s.book.trades) == 0.0 && s.book.totals.funding == 0.0
  {
  }

  lemma FlatAtTheEnd<S>(run: Run<S>, bars: seq<Bar>, s: State<S>)
    requires AtBoundary(s, run.initialCash) && |s.curve| == MaxInt(0, |bars| - run.firstTradable)
    requires s.curve != [] ==> s.curve[|s.curve| - 1].value == PortfolioValue(s.book, bars[|bars| - 1].close)
    ensures var end := LiquidateAfter(run, bars, s);
      && Reconciled(end.book, run.initialCash) && end.book.position.size == 0.0 && |end.curve| == |s.curve|
      && (end.curve != [] ==> end.curve[|end.curve| - 1].value == end.book.cash)
  {
    hide Close, Reconciled, DrawdownFrom, Max, Times;
    if s.book.position.size != 0.0 {
      var close := if bars == [] then 0.0 else bars[|bars| - 1].close;
      var date := if bars == [] then "" else bars[|bars| - 1].date;
      CloseReconciles(run.config, s.book, close, date, "end_of_backtest", run.initialCash);
    }
  }

  lemma ReconciledFlat(book: Book, initialCash: real)
    requires Reconciled(book, initialCash) && book.position.size == 0.0
    ensures book.cash == initialCash + RealizedPnl(book.trades) - book.totals.funding
    ensures book.cash == initialCash + TallyOf(book.trades).gross
                         - book.totals.commission - book.totals.borrow - book.totals.funding
  {
    hide TallyOf;
    TimesDistributes(0.0, book.position.entryPrice, 0.0);
  }

  lemma ErrorUnfold<S>(s: State<S>, initialCash: real)
    ensures ReconciliationError(s, initialCash)
         == (if s.curve == [] then initialCash else s.curve[|s.curve| - 1].value)
            - initialCash - RealizedPnl(s.book.trades) + s.book.totals.funding
  {
    hide RealizedPnl;
  }

  // ---------------------------------------------------------------------------------------
  // Margin
  // ---------------------------------------------------------------------------------------

  lemma BarHoldsMargin<S>(run: Run<S>, s: State<S>, bar: Bar, i: nat)
    requires AtBoundary(s, run.initialCash) && MarginHeld(run.config, s.book)
    requires 0.0 < bar.open && run.config.slippagePct < 1.0
    ensures MarginHeld(run.config, TradeBar(run, s, bar, i).book)
  {
    hide Close, Enter, CheckExit, CheckMarginCall, ApplyFunding, Synced, MarginHeld, Reconciled, PortfolioValue,
         DrawdownFrom, Max, OrderOf;
    if s.pendingExit.Some? {
      CloseHoldsMargin(run.config, s.book, bar.open, bar.date, "signal_exit_next_open");
    } else if s.pendingEntry.Some? {
      EnterHoldsMargin(run.config, s.book, s.pendingEntry.value, bar.open, bar.date);
    }
    var settled := ExecutePending(run.config, s, bar, i).book;
    assert MarginHeld(run.config, settled);
    ChecksHoldMargin(run.config, settled, bar.open, bar.high, bar.low, bar.close, bar.date);
    var checked := CheckExit(run.config, settled, bar.open, bar.high, bar.low, bar.date);
    ChecksHoldMargin(run.config, checked, bar.open, bar.high, bar.low, bar.close, bar.date);
    var called := CheckMarginCall(run.config, checked, bar.close);
    ChecksHoldMargin(run.config, called, bar.open, bar.high, bar.low, bar.close, bar.date);
    ChecksHoldMargin(run.config, Managed(run.config, settled, bar), bar.open, bar.high, bar.low, bar.close, bar.date);
  }

  /** At every boundary the used margin and the margin account are accounted for, while opens are positive. */
  lemma {:induction false} EveryBoundaryHoldsMargin<S>(run: Run<S>, bars: seq<Bar>, k: nat)
    requires k <= |bars| && run.config.slippagePct < 1.0 && forall i :: 0 <= i < |bars| ==> 0.0 < bars[i].open
    ensures MarginHeld(run.config, After(run, bars, k).book)
  {
    hide TradeBar, MarginHeld, AtBoundary, InitialBook;
    StartHoldsMargin(run);
    if k > 0 {
      EveryBoundaryHoldsMargin(run, bars, k - 1);
      EveryBoundary(run, bars, k - 1);
      BarHoldsMargin(run, After(run, bars, k - 1), bars[k - 1], k - 1);
    }
  }

  lemma StartHoldsMargin<S>(run: Run<S>)
    ensures MarginHeld(run.config, Start(run).book)
  {
    PositiveNotional(FLAT);
    QuotientsAdd(0.0, 0.0, run.config.leverage);
  }

  /** A run ends without used margin exactly when it traded with leverage or not at all. */
  lemma UsedMarginAtTheEnd<S>(run: Run<S>, bars: seq<Bar>)
    requires run.config.slippagePct < 1.0 && forall i :: 0 <= i < |bars| ==> 0.0 < bars[i].open
    ensures var book := Result(run, bars).book;
      && (book.usedMargin == 0.0 <==> run.config.leverage > 1.0 || book.trades == [])
      && (book.account.Some? ==> book.account.value.marginBook == 0.0)
  {
    hide After, Close, MarginHeld, PortfolioValue, DrawdownFrom, Max, ReconciliationError, TallyOf;
    var s := After(run, bars, |bars|);
    EveryBoundaryHoldsMargin(run, bars, |bars|);
    EveryRunReconciles(run, bars);
    if s.book.position.size != 0.0 {
      var close := if bars == [] then 0.0 else bars[|bars| - 1].close;
      var date := if bars == [] then "" else bars[|bars| - 1].date;
      CloseHoldsMargin(run.config, s.book, close, date, "end_of_backtest");
    }
    FlatMarginExactly(run.config, Result(run, bars).book);
  }

  // ---------------------------------------------------------------------------------------
  // Trades
  // ---------------------------------------------------------------------------------------

  lemma BarAddsUp<S>(run: Run<S>, s: State<S>, bar: Bar, i: nat)
    requires AtBoundary(s, run.initialCash) && TradesAddUp(run.config, s.book)
    ensures TradesAddUp(run.config, TradeBar(run, s, bar, i).book)
  {
    hide Close, Enter, CheckExit, CheckMarginCall, ApplyFunding, Synced, TradesAddUp, Reconciled, PortfolioValue,
         DrawdownFrom, Max, OrderOf;
    if s.pendingExit.Some? {
      CloseAddsUp(run.config, s.book, bar.open, bar.date, "signal_exit_next_open");
    } else if s.pendingEntry.Some? {
      EnterAddsUp(run.config, s.book, s.pendingEntry.value, bar.open, bar.date);
    }
    var settled := ExecutePending(run.config, s, bar, i).book;
    assert TradesAddUp(run.config, settled);
    ChecksAddUp(run.config, settled, bar.open, bar.high, bar.low, bar.close, bar.date);
    var checked := CheckExit(run.config, settled, bar.open, bar.high, bar.low, bar.date);
    ChecksAddUp(run.config, checked, bar.open, bar.high, bar.low, bar.close, bar.date);
    var called := CheckMarginCall(run.config, checked, bar.close);
    ChecksAddUp(run.config, called, bar.open, bar.high, bar.low, bar.close, bar.date);
    ChecksAddUp(run.config, Managed(run.config, settled, bar), bar.open, bar.high, bar.low, bar.close, bar.date);
  }

  lemma {:induction false} EveryBoundaryAddsUp<S>(run: Run<S>, bars: seq<Bar>, k: nat)
    requires k <= |bars|
    ensures TradesAddUp(run.config, After(run, bars, k).book)
  {
    hide TradeBar, AtBoundary, Charge, Borrowed, TradeAddsUp;
    if k > 0 {
      EveryBoundaryAddsUp(run, bars, k - 1);
      EveryBoundary(run, bars, k - 1);
      BarAddsUp(run, After(run, bars, k - 1), bars[k - 1], k - 1);
    }
  }

  /** Every trade of every run adds up, the last one included. */
  lemma EveryTradeAddsUp<S>(run: Run<S>, bars: seq<Bar>)
    ensures forall t <- Result(run, bars).book.trades :: TradeAddsUp(run.config, t)
  {
    hide After, Close, Charge, Borrowed, TradeAddsUp, PortfolioValue, DrawdownFrom, Max;
    var s := After(run, bars, |bars|);
    EveryBoundaryAddsUp(run, bars, |bars|);
    if s.book.position.size != 0.0 {
      var close := if bars == [] then 0.0 else bars[|bars| - 1].close;
      var date := if bars == [] then "" else bars[|bars| - 1].date;
      CloseAddsUp(run.config, s.book, close, date, "end_of_backtest");
    }
    assert TradesAddUp(run.config, Result(run, bars).book);
  }

  // ---------------------------------------------------------------------------------------
  // What rounding adds
  // ---------------------------------------------------------------------------------------

  /** A rounding to cents moves a number by half a cent at most. */
  ghost predicate RoundsToCents(cents: real -> real) {
    forall x :: Abs(cents(x) - x) <= 0.005
  }

  /** The realized result as the report adds it up, from trades rounded one by one. */
  function ReportedPnl(trades: seq<Trade>, cents: real -> real): real {
    if trades == [] then 0.0
    else ReportedPnl(trades[..|trades| - 1], cents) + cents(trades[|trades| - 1].netPnl)
  }

  function ReportedError<S>(s: State<S>, initialCash: real, cents: real -> real): real {
    var finalValue := if s.curve == [] then initialCash else s.curve[|s.curve| - 1].value;
    cents(finalValue - initialCash - ReportedPnl(s.book.trades, cents) + s.book.totals.funding)
  }

  lemma {:induction false} RoundingAddsUp(trades: seq<Trade>, cents: real -> real)
    requires RoundsToCents(cents)
    ensures Abs(RealizedPnl(trades) - ReportedPnl(trades, cents)) <= |trades| as real * 0.005
  {
    if trades != [] {
      RoundingAddsUp(trades[..|trades| - 1], cents);
      assert Abs(cents(trades[|trades| - 1].netPnl) - trades[|trades| - 1].netPnl) <= 0.005;
    }
  }

  /** The reported error is what rounding the trades dropped, rounded: half a cent for each trade and one more. */
  lemma ReportedErrorIsRounding<S>(run: Run<S>, bars: seq<Bar>, cents: real -> real)
    requires RoundsToCents(cents)
    ensures var s := Result(run, bars);
            var error := ReportedError(s, run.initialCash, cents);
      && error == cents(RealizedPnl(s.book.trades) - ReportedPnl(s.book.trades, cents))
      && Abs(error) <= (|s.book.trades| + 1) as real * 0.005
  {
    hide Result, RealizedPnl, ReportedPnl;
    var s := Result(run, bars);
    EveryRunReconciles(run, bars);
    RoundingAddsUp(s.book.trades, cents);
    var dropped := RealizedPnl(s.book.trades) - ReportedPnl(s.book.trades, cents);
    assert Abs(cents(dropped) - dropped) <= 0.005;
  }

  /** The nearest cent, halves upwards. */
  function NearestCent(x: real): real {
    (x * 100.0 + 0.5).Floor as real / 100.0
  }

  lemma NearestCentRounds()
    ensures RoundsToCents(NearestCent)
  {
    forall x
      ensures Abs(NearestCent(x) - x) <= 0.005
    {
      var n := (x * 100.0 + 0.5).Floor as real;
      assert n <= x * 100.0 + 0.5 < n + 1.0;
      assert n / 100.0 * 100.0 == n;
    }
  }

  /** A flat spot book of a run that buys one share for a target of 100.004, after the given trades. */
  ghost predicate Scalping(s: State<real>, cash: real, trades: seq<Trade>) {
    && s.book.cash == cash && s.book.account == None && s.book.position.size == 0.0
    && s.book.trades == trades && s.book.totals.funding == 0.0
    && s.strategy == 100.004 && s.pendingExit == None
    && s.pendingEntry == Some(PendingEntry(Long, 0.0, 100.004, 1, true, 0.02, 100.0))
    && s.curve != [] && s.curve[|s.curve| - 1].value == cash
  }

  const FLAT_BAR := Bar("1", 100.0, 101.0, 100.0, 100.0, map[])

  function Scalper(): Run<real> {
    Run(Spot(0.0), BuyOnce, 100.004, 1000.0, 0.02, 0)
  }

  /** A share bought at the open and sold at its target within the bar earns 0.004, and the next one is ordered. */
  lemma ScalpOneBar(s: State<real>, cash: real, trades: seq<Trade>, i: nat) returns (t: Trade)
    requires Scalping(s, cash, trades)
    ensures t.netPnl == 0.004
    ensures Scalping(TradeBar(Scalper(), s, FLAT_BAR, i), cash + 0.004, trades + [t])
  {
    var config, order := Spot(0.0), s.pendingEntry.value;
    var entered := Enter(config, s.book, order, 100.0, "1");
    assert entered.cash == cash - 100.0 && entered.account == None && entered.trades == trades;
    assert entered.position == Position(1.0, Long, 100.0, "1", 0.0, 100.004, 100.0, 0, 0.0, 0.0);
    assert ExecutePending(config, s, FLAT_BAR, i).book == entered;
    var held := entered.(position := entered.position.(barsHeld := 1));
    assert ResolveExit(held.position, 100.0, 101.0, 100.0) == Some((100.004, "take_profit"));
    var closed := Close(config, held, 100.004, "1", "take_profit");
    assert CheckExit(config, entered, 100.0, 101.0, 100.0, "1") == closed;
    t := closed.trades[|trades|];
    assert closed.cash == cash + 0.004 && closed.position == FLAT && closed.account == None;
    assert closed.trades == trades + [t] && t.netPnl == 0.004;
    assert Managed(config, entered, FLAT_BAR) == closed;
  }

  /** The first bar only orders. */
  lemma ScalperStarts()
    ensures Scalping(After(Scalper(), [FLAT_BAR, FLAT_BAR, FLAT_BAR], 1), 1000.0, [])
  {
    var bars := [FLAT_BAR, FLAT_BAR, FLAT_BAR];
    assert After(Scalper(), bars, 0) == Start(Scalper());
  }

  /** Two trades that earn 0.004 each and are reported as 0.00: the report shows an error of one cent. */
  lemma ReportedErrorExample()
    ensures ReportedError(Result(Scalper(), [FLAT_BAR, FLAT_BAR, FLAT_BAR]), 1000.0, NearestCent) == 0.01
  {
    hide TradeBar, After, LiquidateOpen, Start;
    var run, bars := Scalper(), [FLAT_BAR, FLAT_BAR, FLAT_BAR];
    ScalperStarts();
    var t := ScalpOneBar(After(run, bars, 1), 1000.0, [], 1);
    var u := ScalpOneBar(After(run, bars, 2), 1000.004, [t], 2) by {
      NextScalp(bars, 2);
      assert [] + [t] == [t];
    }
    NextScalp(bars, 3);
    LeftAlone(run, bars, After(run, bars, 3));
    ReportedSnoc([], t);
    ReportedSnoc([t], u);
    assert [] + [t] == [t] && ReportedPnl([], NearestCent) == 0.0;
    assert NearestCent(0.004) == 0.0 && NearestCent(0.008) == 0.01;
  }

  lemma {:induction false} ReportedSnoc(trades: seq<Trade>, t: Trade)
    ensures ReportedPnl(trades + [t], NearestCent) == ReportedPnl(trades, NearestCent) + NearestCent(t.netPnl)
  {
    hide NearestCent;
    assert (trades + [t])[..|trades|] == trades;
  }

  lemma NextScalp(bars: seq<Bar>, k: nat)
    requires 0 < k <= |bars| && bars[k - 1] == FLAT_BAR
    ensures After(Scalper(), bars, k) == TradeBar(Scalper(), After(Scalper(), bars, k - 1), FLAT_BAR, k - 1)
  {
    hide TradeBar;
  }

  /** A flat run is not liquidated. */
  lemma LeftAlone<S>(run: Run<S>, bars: seq<Bar>, s: State<S>)
    requires s.book.position.size == 0.0
    ensures LiquidateAfter(run, bars, s) == s
  {
  }

  // ---------------------------------------------------------------------------------------
  // The last drawdown
  // ---------------------------------------------------------------------------------------

  /**
   * Liquidation replaces the last value but keeps it in the peak. The last reported drawdown is that
   * of the reported curve exactly when nothing was left to close, or the replaced value was no higher
   * than the earlier peak or the cash that closing yields, or not positive, or closing yields nothing
   * under a positive earlier peak.
   */
  lemma {:induction false} LastDrawdownExactly<S>(run: Run<S>, bars: seq<Bar>)
    requires run.firstTradable < |bars|
    ensures |Result(run, bars).curve| == |After(run, bars, |bars|).curve| == |bars| - run.firstTradable
    ensures var s, reported, n := After(run, bars, |bars|), Result(run, bars).curve, |bars|;
      var last := |reported| - 1;
      var cash := Liquidate(run.config, s.book, bars[n - 1].close, bars[n - 1].date).cash;
      var earlier, replaced := PeakOf(run.initialCash, s.curve[..last]), s.curve[last].value;
      reported[last].drawdown == DrawdownFrom(PeakOf(run.initialCash, reported), reported[last].value)
      <==> s.book.position.size == 0.0 || replaced <= Max(earlier, cash) || replaced <= 0.0
           || (cash == 0.0 && earlier > 0.0)
  {
    hide After, Close, Times, DrawdownFrom;
    var n := |bars|;
    var s, reported := After(run, bars, n), Result(run, bars).curve;
    CurveCharts(run, bars, n);
    var last := |s.curve| - 1;
    if s.book.position.size == 0.0 {
      assert reported == s.curve && s.curve[..last + 1] == s.curve;
    } else {
      var closed := Close(run.config, s.book, bars[n - 1].close, bars[n - 1].date, "end_of_backtest");
      EveryBoundary(run, bars, n);
      CloseReconciles(run.config, s.book, bars[n - 1].close, bars[n - 1].date, "end_of_backtest", run.initialCash);
      assert reported[last].value == closed.cash;
      assert reported[..last] == s.curve[..last];
      DrawdownsDiffer(PeakOf(run.initialCash, s.curve[..last]), s.curve[last].value, closed.cash);
    }
  }

  /** Spot trading at the given commission, for orders of an explicit and affordable size. */
  function Spot(commission: real): Config {
    Config(1.0, 0.0, commission, 0.0, 0.0, 0.0, false, false, false,
           (_, order: PendingEntry, _, _) => order.positionSize as real, (_, _) => None)
  }

  /** Buys one share whenever flat, to be sold at the target, if there is one. */
  function BuyOnce(target: real, bar: Bar, p: Position): (real, Option<Signal>) {
    (target, if p.size == 0.0 then Some(Signal(Buy, Long, 0.0, target, 0.0, 1)) else None)
  }

  /**
   * One share bought at 100 with 10 % commission closes a bar at 200: the book is worth 1090, closing
   * leaves 1070, and the report shows a drawdown from 1090 on a curve that never exceeds 1070.
   */
  lemma StalePeakExample()
    ensures var run := Run(Spot(0.1), BuyOnce, 0.0, 1000.0, 0.02, 0);
            var bars := [Bar("1", 100.0, 100.0, 100.0, 100.0, map[]), Bar("2", 100.0, 200.0, 100.0, 200.0, map[])];
            var reported := Result(run, bars).curve;
      && |reported| == 2 && reported[0].value == 1000.0 && reported[1].value == 1070.0
      && PeakOf(1000.0, reported) == 1070.0
      && reported[1].drawdown == 20.0 / 1090.0 > 0.0
  {
    hide After, LiquidateOpen, PeakOf, BuyOnce, DrawdownFrom;
    var run := Run(Spot(0.1), BuyOnce, 0.0, 1000.0, 0.02, 0);
    var bars := [Bar("1", 100.0, 100.0, 100.0, 100.0, map[]), Bar("2", 100.0, 200.0, 100.0, 200.0, map[])];
    var order := PendingEntry(Long, 0.0, 0.0, 1, true, 0.02, 100.0);
    FirstExampleBar(run, bars, order);
    SecondExampleBar(run, bars, order);
    var s, start := After(run, bars, 2), Point("1", 100.0, 1000.0, 0.0, 0.0);
    assert s.curve == [start, Point("2", 200.0, 1090.0, 0.0, 1.0)];
    LastExampleBar(s, start);
    PeakOfTwo(1000.0, start, Point("2", 200.0, 1070.0, 20.0 / 1090.0, 0.0));
  }

  lemma LastExampleBar(s: State<real>, start: Point)
    requires s.book.cash == 890.0 && s.book.account == None && s.peak == 1090.0
    requires s.book.position == Position(1.0, Long, 100.0, "2", 0.0, 0.0, 100.0, 1, 10.0, 0.0)
    requires s.curve == [start, Point("2", 200.0, 1090.0, 0.0, 1.0)]
    ensures LiquidateOpen(Spot(0.1), s, 200.0, "2").curve == [start, Point("2", 200.0, 1070.0, 20.0 / 1090.0, 0.0)]
  {
    var closed := Close(Spot(0.1), s.book, 200.0, "2", "end_of_backtest");
    assert closed.cash == 1070.0 && closed.position == FLAT;
    assert DrawdownFrom(1090.0, 1070.0) == 20.0 / 1090.0;
  }

  lemma {:induction false} PeakOfTwo(initialCash: real, a: Point, b: Point)
    ensures PeakOf(initialCash, [a, b]) == Max(Max(initialCash, a.value), b.value)
  {
    assert [a, b][..1] == [a] && [a][..0] == [];
    assert PeakOf(initialCash, [a]) == Max(PeakOf(initialCash, []), a.value);
  }

  lemma {:induction false} FirstExampleBar(run: Run<real>, bars: seq<Bar>, order: PendingEntry)
    requires run == Run(Spot(0.1), BuyOnce, 0.0, 1000.0, 0.02, 0) && order == PendingEntry(Long, 0.0, 0.0, 1, true, 0.02, 100.0)
    requires 1 <= |bars| && bars[0] == Bar("1", 100.0, 100.0, 100.0, 100.0, map[])
    ensures var s := After(run, bars, 1);
      && s.book == InitialBook(Spot(0.1), 1000.0).(position := FLAT.(barsHeld := 1))
      && s.pendingEntry == Some(order) && s.pendingExit == None && s.peak == 1000.0
      && s.curve == [Point("1", 100.0, 1000.0, 0.0, 0.0)]
  {
    assert After(run, bars, 0) == Start(run);
    assert DrawdownFrom(1000.0, 1000.0) == 0.0;
  }

  lemma {:induction false} SecondExampleBar(run: Run<real>, bars: seq<Bar>, order: PendingEntry)
    requires run == Run(Spot(0.1), BuyOnce, 0.0, 1000.0, 0.02, 0) && order == PendingEntry(Long, 0.0, 0.0, 1, true, 0.02, 100.0)
    requires 2 <= |bars| && bars[0] == Bar("1", 100.0, 100.0, 100.0, 100.0, map[])
    requires bars[1] == Bar("2", 100.0, 200.0, 100.0, 200.0, map[])
    ensures var first, s := After(run, bars, 1), After(run, bars, 2);
      && s.book.cash == 890.0 && s.book.account == None
      && s.book.position == Position(1.0, Long, 100.0, "2", 0.0, 0.0, 100.0, 1, 10.0, 0.0)
      && s.peak == 1090.0 && s.curve == first.curve + [Point("2", 200.0, 1090.0, 0.0, 1.0)]
  {
    FirstExampleBar(run, bars, order);
    var first := After(run, bars, 1);
    var entered := Enter(Spot(0.1), first.book, order, 100.0, "2");
    assert entered.cash == 890.0 && entered.account == None;
    assert entered.position == Position(1.0, Long, 100.0, "2", 0.0, 0.0, 100.0, 0, 10.0, 0.0);
    assert ExecutePending(Spot(0.1), first, bars[1], 1).book == entered;
    var managed := Managed(Spot(0.1), entered, bars[1]);
    assert managed == entered.(position := entered.position.(barsHeld := 1));
    assert DrawdownFrom(1090.0, 1090.0) == 0.0;
  }

  lemma DrawdownsDiffer(before: real, replaced: real, value: real)
    ensures DrawdownFrom(Max(Max(before, replaced), value), value) == DrawdownFrom(Max(before, value), value)
      <==> replaced <= Max(before, value) || replaced <= 0.0 || (value == 0.0 && before > 0.0)
  {
    var peak, kept := Max(before, value), Max(Max(before, replaced), value);
    if peak < replaced && 0.0 < replaced {
      assert kept == replaced;
      var q := DrawdownFrom(kept, value);
      assert q * replaced == replaced - value;
      if peak > 0.0 {
        var r := DrawdownFrom(peak, value);
        assert r * peak == peak - value;
        if q == r {
          assert (1.0 - q) * (replaced - peak) == 0.0;
          ZeroFactor(1.0 - q, replaced - peak);
          assert value == 0.0;
        } else {
          TotalLoss(kept);
          TotalLoss(peak);
        }
      }
    }
  }

  lemma TotalLoss(peak: real)
    requires peak > 0.0
    ensures DrawdownFrom(peak, 0.0) == 1.0
  {
    assert (peak - 0.0) / peak == peak / peak;
  }

  lemma ZeroFactor(x: real, y: real)
    requires x * y == 0.0 && y > 0.0
    ensures x == 0.0
  {
  }
}
