/** The bar loop as the program runs it, updating one simulation state in place. */
module BacktestRunner {
  import opened Prelude
  import opened Simulation
  import opened Execution
  import opened BarLoop

  /** The simulation state of one run, together with the executor's margin account. */
  class SimulationState<S> {
    const run: Run<S>
    var cash: real
    var position: Position
    var trades: seq<Trade>
    var totals: Totals
    var usedMargin: real
    var account: Option<Account>
    var strategy: S
    var pendingEntry: Option<PendingEntry>
    var pendingExit: Option<PendingExit>
    var peakValue: real
    var equityCurve: seq<Point>
    ghost var fills: seq<Fill>

    ghost function CurrentBook(): Book
      reads this
    {
      Book(cash, position, trades, totals, usedMargin, account)
    }

    ghost function View(): State<S>
      reads this
    {
      State(CurrentBook(), strategy, pendingEntry, pendingExit, peakValue, equityCurve, fills)
    }

    constructor (run: Run<S>)
      ensures this.run == run && View() == Start(run)
    {
      this.run := run;
      cash, position, trades := run.initialCash, FLAT, [];
      totals, usedMargin := Totals(0.0, 0.0, 0.0, 0.0), 0.0;
      account := if run.config.fullMargin then Some(Account(run.initialCash, 0.0)) else None;
      strategy, pendingEntry, pendingExit := run.initial, None, None;
      peakValue, equityCurve, fills := run.initialCash, [], [];
    }

    method ValuePortfolio(close: real) returns (value: real)
      ensures value == PortfolioValue(CurrentBook(), close)
    {
      if position.size > 0.0 {
        value := cash + Times(position.size, close);
      } else if position.size < 0.0 {
        value := cash - Times(Abs(position.size), close);
      } else {
        value := cash;
      }
    }

    // -----------------------------------------------------------------------------------
    // The executor
    // -----------------------------------------------------------------------------------

    method ExitPosition(price: real, date: string, reason: string)
      modifies `cash, `position, `trades, `totals, `usedMargin, `account
      ensures CurrentBook() == Close(run.config, old(CurrentBook()), price, date, reason)
    {
      hide Times, Slipped, Commission, BorrowCost, Released, Abs, Min;
      var size := Abs(position.size);
      var fill := Slipped(run.config, price, position.direction, false);
      var cost := Times(size, fill);
      var commission := Commission(run.config, cost);
      totals := totals.(commission := totals.commission + commission,
                        slippage := totals.slippage + Times(Abs(fill - price), size));
      var gross := Times(size, if position.size > 0.0 then fill - position.entryPrice else position.entryPrice - fill);
      var borrow := BorrowCost(run.config, position, date);
      totals := totals.(borrow := totals.borrow + borrow);
      var net := gross - position.entryCommission - commission - borrow;
      if position.size > 0.0 {
        cash := cash + (cost - commission);
      } else {
        cash := cash - (cost + commission + borrow);
      }
      usedMargin := Released(run.config, usedMargin, Times(size, position.entryPrice), position.entryPrice);
      if account.Some? {
        var released := Min(Times(size, position.entryPrice) / run.config.leverage, account.value.marginBook);
        account := Some(account.value.(marginBook := account.value.marginBook - released));
        account := Some(account.value.(cash := cash));
      }
      trades := trades + [Trade(position.entryDate, date, position.entryPrice, fill, size, gross, net,
                                position.entryCommission, commission, borrow, position.barsHeld,
                                position.direction, reason)];
      position := FLAT;
    }

    method OpenPosition(entry: PendingEntry, size: real, price: real, fill: real, date: string)
      modifies `cash, `position, `totals, `usedMargin, `account
      ensures CurrentBook() == Open(run.config, old(CurrentBook()), entry, size, price, fill, date)
    {
      hide Times, Commission, LiquidationPrice, IsClose, Abs;
      var cost := Times(size, fill);
      var commission := Commission(run.config, cost);
      var slippage := Times(Abs(fill - price), size);
      totals := totals.(commission := totals.commission + commission, slippage := totals.slippage + slippage);
      if entry.direction == Long {
        cash := cash - (cost + commission);
        if account.Some? {
          account := Some(account.value.(marginBook := account.value.marginBook + cost / run.config.leverage));
          account := Some(Mirrored(account.value, cash, -(cost + commission)));
        }
        position := FLAT.(size := size);
      } else if entry.direction == Short {
        cash := cash + (cost - commission);
        if account.Some? {
          account := Some(Mirrored(account.value, cash, cost - commission));
        }
        position := FLAT.(size := -size);
      } else {
        return;
      }
      position := position.(direction := entry.direction, entryPrice := fill, entryDate := date,
                            stopPrice := entry.stopPrice, targetPrice := entry.targetPrice,
                            entryCommission := commission, entrySlippage := slippage,
                            liquidationPrice := LiquidationPrice(run.config, fill, entry.direction));
      usedMargin := usedMargin + cost / run.config.leverage;
    }

    method EnterPosition(order: PendingEntry, price: real, date: string)
      modifies `cash, `position, `totals, `usedMargin, `account
      ensures CurrentBook() == Enter(run.config, old(CurrentBook()), order, price, date)
    {
      hide Open, Slipped, Rebased, StopValid, PortfolioValue;
      var fill := Slipped(run.config, price, order.direction, true);
      var entry := Rebased(run.config, order, fill);
      if !StopValid(run.config, entry, fill) {
        return;
      }
      var value := ValuePortfolio(fill);
      var size := run.config.resolveSize(cash, entry, fill, value);
      if size > 0.0 {
        OpenPosition(entry, size, price, fill, date);
      }
    }

    method CheckExitConditions(bar: Bar)
      modifies `cash, `position, `trades, `totals, `usedMargin, `account
      ensures CurrentBook() == CheckExit(run.config, old(CurrentBook()), bar.open, bar.high, bar.low, bar.date)
    {
      hide Close, ResolveExit, Liquidated;
      position := position.(barsHeld := position.barsHeld + 1);
      if Liquidated(run.config, position, bar.high, bar.low) {
        ExitPosition(position.liquidationPrice, bar.date, "liquidation");
        return;
      }
      var exit := ResolveExit(position, bar.open, bar.high, bar.low);
      if exit.Some? {
        ExitPosition(exit.value.0, bar.date, exit.value.1);
      }
    }

    /** The per-bar upkeep after stops and targets: the margin call, then funding. */
    method ApplyMargin(bar: Bar)
      modifies `cash, `position, `trades, `totals, `usedMargin, `account
      ensures CurrentBook() == ApplyFunding(run.config, CheckMarginCall(run.config, old(CurrentBook()), bar.close))
    {
      hide Close, MarginCalled, FundingPayment;
      if account.None? {
        return;
      }
      if MarginCalled(run.config, position, bar.close) {
        ExitPosition(bar.close, "", "margin_call");
      }
      assert account.Some? by {
        CloseKeepsAccount(run.config, old(CurrentBook()), bar.close, "", "margin_call");
      }
      var payment := FundingPayment(run.config, position);
      account := Some(account.value.(cash := account.value.cash - payment));
      if payment != 0.0 {
        totals := totals.(funding := totals.funding + payment);
      }
      cash := account.value.cash;
    }

    // -----------------------------------------------------------------------------------
    // The loop
    // -----------------------------------------------------------------------------------

    method ExecutePendingOrders(bar: Bar, ghost i: nat)
      modifies this
      ensures View() == ExecutePending(run.config, old(View()), bar, i)
    {
      hide Close, Enter;
      if pendingExit.Some? && position.size != 0.0 {
        ExitPosition(bar.open, bar.date, "signal_exit_next_open");
        pendingExit := None;
      }
      if pendingEntry.None? || position.size != 0.0 {
        return;
      }
      var order := pendingEntry.value;
      pendingEntry := None;
      EnterPosition(order, bar.open, bar.date);
      fills := fills + [Fill(i, order, bar.open, bar.date)];
    }

    method HandleSignal(bar: Bar)
      modifies `strategy, `pendingEntry, `pendingExit
      ensures View() == ProcessSignal(run, old(View()), bar)
    {
      var (next, signal) := run.onBar(strategy, bar, position);
      strategy := next;
      if ExitRequested(signal, position) {
        pendingExit := Some(PendingExit(position.direction, signal.value.confidence));
        return;
      }
      if EntryRequested(signal, position) {
        var requested := if signal.value.positionSize > 0 then signal.value.positionSize else 0;
        pendingEntry := Some(PendingEntry(signal.value.direction, signal.value.stopPrice, signal.value.targetPrice,
                                          requested, signal.value.positionSize > 0, run.riskPerTrade, bar.close));
      }
    }

    method RecordEquity(bar: Bar)
      modifies `peakValue, `equityCurve
      ensures View() == TrackEquity(old(View()), bar)
    {
      hide PortfolioValue;
      var value := ValuePortfolio(bar.close);
      if value > peakValue {
        peakValue := value;
      }
      var drawdown := if peakValue > 0.0 then (peakValue - value) / peakValue else 0.0;
      equityCurve := equityCurve + [Point(bar.date, bar.close, value, drawdown, position.size)];
    }

    method LiquidatePosition(close: real, date: string)
      modifies this
      ensures View() == LiquidateOpen(run.config, old(View()), close, date)
    {
      hide Close, PortfolioValue;
      if position.size == 0.0 {
        return;
      }
      ExitPosition(close, date, "end_of_backtest");
      if equityCurve != [] {
        var last := |equityCurve| - 1;
        var value := ValuePortfolio(close);
        if value > peakValue {
          peakValue := value;
        }
        var drawdown := if peakValue > 0.0 then (peakValue - value) / peakValue else 0.0;
        equityCurve := equityCurve[last := equityCurve[last].(value := value, position := 0.0, drawdown := drawdown)];
      }
    }

    method ProcessBar(bar: Bar, ghost i: nat)
      modifies this
      ensures View() == TradeBar(run, old(View()), bar, i)
    {
      hide ExecutePending, CheckExit, CheckMarginCall, ApplyFunding, ProcessSignal, PortfolioValue, DrawdownFrom, Max;
      ExecutePendingOrders(bar, i);
      ghost var settled := View();
      CheckExitConditions(bar);
      ApplyMargin(bar);
      assert View() == settled.(book := Managed(run.config, settled.book, bar));
      HandleSignal(bar);
      RecordEquity(bar);
      ghost var tracked := View();
      if account.Some? {
        cash := account.value.cash;
      }
      assert View() == tracked.(book := Synced(tracked.book));
    }

    /**
     * Runs a freshly constructed state over the bars. The final state is the specified one, hence flat,
     * reconciled, with one point for every tradable bar, every entry filled at the next open and trades
     * that add up.
     */
    method RunLoop(bars: seq<Bar>)
      requires View() == Start(run)
      modifies this
      ensures View() == Result(run, bars)
      ensures position.size == 0.0 && |equityCurve| == MaxInt(0, |bars| - run.firstTradable)
      ensures cash == run.initialCash + RealizedPnl(trades) - totals.funding
      ensures ReconciliationError(View(), run.initialCash) == 0.0
      ensures fills == ExpectedFills(run, bars, |bars|)
      ensures forall t <- trades :: TradeAddsUp(run.config, t)
    {
      hide TradeBar, LiquidateOpen, Start, ExpectedFills, RealizedPnl, ReconciliationError, TradeAddsUp;
      var finalClose, finalDate := 0.0, "";
      for i := 0 to |bars|
        invariant View() == After(run, bars, i)
        invariant i == 0 ==> finalClose == 0.0 && finalDate == ""
        invariant i > 0 ==> finalClose == bars[i - 1].close && finalDate == bars[i - 1].date
      {
        var bar := bars[i];
        finalClose, finalDate := bar.close, bar.date;
        if i < run.firstTradable {
          strategy := run.onBar(strategy, bar, position).0;
        } else {
          ProcessBar(bar, i);
        }
      }
      LiquidatePosition(finalClose, finalDate);
      EveryRunReconciles(run, bars);
      EntriesFillAtNextOpen(run, bars, |bars|);
      EveryTradeAddsUp(run, bars);
      LiquidationFillsNothing(run, bars);
    }
  }

  lemma CloseKeepsAccount(config: Config, book: Book, price: real, date: string, reason: string)
    ensures Close(config, book, price, date, reason).account.Some? <==> book.account.Some?
  {
  }

  lemma {:induction false} LiquidationFillsNothing<S>(run: Run<S>, bars: seq<Bar>)
    ensures Result(run, bars).fills == After(run, bars, |bars|).fills
  {
    hide After, Liquidate, PortfolioValue, Max, DrawdownFrom;
  }
}
