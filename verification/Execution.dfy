/**
 * What every execution comes to, in prices and amounts: fills concede the slippage, exits pay what
 * they owe, entries open exactly what was ordered, stops and targets fill where they should.
 */
module Execution {
  import opened Prelude
  import opened Simulation

  // ---------------------------------------------------------------------------------------
  // Exits
  // ---------------------------------------------------------------------------------------

  /** What every fill concedes against its raw price. */
  function Concession(config: Config, price: real): real {
    Max(0.0, config.slippagePct) * price
  }

  /** What a side of a trade is charged for a notional of either sign. */
  function Charge(config: Config, notional: real): real {
    Max(0.0, config.commissionPct) * Max(notional, -notional)
  }

  /** A short borrows the notional it was opened at for the days it was held; undated it borrows nothing. */
  function Borrowed(config: Config, direction: Direction, notional: real, entryDate: string, exitDate: string): real {
    var days := config.daysBetween(entryDate, exitDate);
    if direction == Short && 0.0 < notional && days.Some? then
      Max(0.0, config.borrowFee) * notional * (Max(0.0, days.value) / 365.0)
    else 0.0
  }

  lemma SlippedApart(config: Config, price: real, direction: Direction)
    requires direction == Long || direction == Short
    ensures var concession := Concession(config, price);
      && Slipped(config, price, direction, true) == (if direction == Long then price + concession else price - concession)
      && Slipped(config, price, direction, false) == (if direction == Long then price - concession else price + concession)
  {
    assert price * (1.0 + config.slippagePct) == price + config.slippagePct * price;
    assert price * (1.0 - config.slippagePct) == price - config.slippagePct * price;
  }

  lemma CommissionCharges(config: Config, size: real, price: real)
    ensures Commission(config, Times(Abs(size), price)) == Charge(config, Times(size, price))
  {
    assert Abs(Times(Abs(size), price)) == Max(size * price, -(size * price));
  }

  lemma BorrowCosts(config: Config, p: Position, date: string)
    requires SidesAgree(p)
    ensures BorrowCost(config, p, date) == Borrowed(config, p.direction, Notional(p), p.entryDate, date)
  {
    PositiveNotional(p);
    var days := config.daysBetween(p.entryDate, date);
    if p.direction == Short {
      assert 0.0 < Notional(p) <==> 0.0 < p.entryPrice;
      assert Abs(p.size) * p.entryPrice * config.borrowFee == config.borrowFee * Notional(p);
      if config.borrowFee <= 0.0 {
        assert Max(0.0, config.borrowFee) * Notional(p) == 0.0;
      }
    }
  }

  lemma GrossIsSigned(size: real, fill: real, entryPrice: real)
    ensures Times(Abs(size), if size > 0.0 then fill - entryPrice else entryPrice - fill) == Times(size, fill - entryPrice)
    ensures Times(Abs(size), fill) == if size > 0.0 then Times(size, fill) else -Times(size, fill)
  {
  }

  /** An exit, spelled out: the trade it records, the cash it moves and what it adds to the totals. */
  lemma ExitSpelledOut(config: Config, book: Book, price: real, date: string, reason: string)
    requires SidesAgree(book.position) && book.position.size != 0.0
    ensures var p, after := book.position, Close(config, book, price, date, reason);
            var concession := Concession(config, price);
      && |after.trades| == |book.trades| + 1 && after.trades[..|book.trades|] == book.trades
      && var trade := after.trades[|book.trades|];
      && trade.exitPrice == (if p.size > 0.0 then price - concession else price + concession)
      && trade.size == Abs(p.size) && trade.direction == p.direction && trade.barsHeld == p.barsHeld
      && trade.entryDate == p.entryDate && trade.exitDate == date && trade.reason == reason
      && trade.entryPrice == p.entryPrice && trade.entryCommission == p.entryCommission
      && trade.exitCommission == Charge(config, Times(p.size, trade.exitPrice))
      && trade.borrowCost == Borrowed(config, p.direction, Notional(p), p.entryDate, date)
      && trade.grossPnl == Times(p.size, trade.exitPrice - p.entryPrice)
      && trade.netPnl == trade.grossPnl - trade.entryCommission - trade.exitCommission - trade.borrowCost
      && after.cash == book.cash + Times(p.size, trade.exitPrice) - trade.exitCommission - trade.borrowCost
      && after.totals == Totals(book.totals.commission + trade.exitCommission,
                                book.totals.slippage + Times(Abs(concession), Abs(p.size)),
                                book.totals.borrow + trade.borrowCost, book.totals.funding)
      && after.position == Position(0.0, NoDirection, 0.0, "", 0.0, 0.0, 0.0, 0, 0.0, 0.0)
  {
    hide Slipped, Commission, BorrowCost, Released, Charge, Borrowed, Concession, Min, Times;
    var p := book.position;
    var fill := Slipped(config, price, p.direction, false);
    SlippedApart(config, price, p.direction);
    CommissionCharges(config, p.size, fill);
    BorrowCosts(config, p, date);
    LongsBorrowNothing(config, p, date);
    GrossIsSigned(p.size, fill, p.entryPrice);
  }

  /** What an exit releases: with leverage the position's margin, as far as there is any; the account is told the cash. */
  lemma ExitReleasesMargin(config: Config, book: Book, price: real, date: string, reason: string)
    ensures var p, after := book.position, Close(config, book, price, date, reason);
            var margin := Notional(p) / config.leverage;
      && (config.leverage <= 1.0 || p.entryPrice <= 0.0 ==> after.usedMargin == book.usedMargin)
      && (1.0 < config.leverage && 0.0 < p.entryPrice ==>
            after.usedMargin == if margin < book.usedMargin then book.usedMargin - margin else 0.0)
      && (book.account.None? <==> after.account.None?)
      && (book.account.Some? ==>
            && after.account.value.cash == after.cash
            && after.account.value.marginBook
               == if margin < book.account.value.marginBook then book.account.value.marginBook - margin else 0.0)
  {
    hide Times, Slipped, Commission, BorrowCost, Abs;
  }

  /** Slippage never favours the trader on the way out. */
  lemma ExitsPaySlippage(config: Config, book: Book, price: real, date: string, reason: string)
    requires SidesAgree(book.position) && book.position.size != 0.0 && 0.0 <= price
    ensures var p, trades := book.position, Close(config, book, price, date, reason).trades;
      && |trades| == |book.trades| + 1
      && var trade := trades[|book.trades|];
      && (p.size > 0.0 ==> trade.exitPrice <= price)
      && (p.size < 0.0 ==> price <= trade.exitPrice)
      && (config.slippagePct <= 0.0 ==> trade.exitPrice == price)
      && (0.0 < config.slippagePct ==> Abs(trade.exitPrice - price) == price * config.slippagePct)
  {
    hide Close, Charge, Borrowed, Times;
    ExitSpelledOut(config, book, price, date, reason);
    ConcessionSign(config, price);
  }

  lemma ConcessionSign(config: Config, price: real)
    ensures 0.0 <= price ==> 0.0 <= Concession(config, price)
  {
  }

  // ---------------------------------------------------------------------------------------
  // Entries
  // ---------------------------------------------------------------------------------------

  /** A risk level that moves with the fill keeps its ratio to the price it was set against. */
  function RiskLevel(config: Config, order: PendingEntry, level: real, fill: real): real {
    if config.rebaseRiskPrices && 0.0 < order.signalClose && 0.0 < level then level * fill / order.signalClose else level
  }

  /** The order as it is filled, and the price of the fill. */
  function FillPrice(config: Config, order: PendingEntry, price: real): real {
    var concession := Concession(config, price);
    if order.direction == Long then price + concession else price - concession
  }

  function FilledOrder(config: Config, order: PendingEntry, fill: real): PendingEntry {
    order.(stopPrice := RiskLevel(config, order, order.stopPrice, fill),
           targetPrice := RiskLevel(config, order, order.targetPrice, fill))
  }

  /** With leverage, a position is liquidated once it has lost its initial margin except the maintenance margin. */
  function LiquidatedAt(config: Config, fill: real, direction: Direction): real {
    var cushion := fill / config.leverage - fill * config.maintenance;
    if config.leverage <= 1.0 then fill else if direction == Long then fill - cushion else fill + cushion
  }

  /** A stop lies on the losing side of the fill and, with leverage, is reached before liquidation. */
  ghost predicate StopFits(config: Config, order: PendingEntry, fill: real) {
    0.0 < order.stopPrice ==>
      if order.direction == Long then
        order.stopPrice < fill && (1.0 < config.leverage ==> LiquidatedAt(config, fill, Long) < order.stopPrice)
      else fill < order.stopPrice && (1.0 < config.leverage ==> order.stopPrice < LiquidatedAt(config, fill, Short))
  }

  lemma FillPrices(config: Config, order: PendingEntry, price: real)
    requires order.direction == Long || order.direction == Short
    ensures FillPrice(config, order, price) == Slipped(config, price, order.direction, true)
  {
    hide Slipped, Concession;
    SlippedApart(config, price, order.direction);
  }

  lemma RiskLevels(config: Config, order: PendingEntry, fill: real)
    ensures Rebased(config, order, fill) == FilledOrder(config, order, fill)
  {
    if config.rebaseRiskPrices && 0.0 < order.signalClose {
      ScaleKeepsRatio(order.stopPrice, order.signalClose, fill);
      ScaleKeepsRatio(order.targetPrice, order.signalClose, fill);
    }
  }

  lemma ScaleKeepsRatio(level: real, signalClose: real, fill: real)
    requires 0.0 < signalClose
    ensures ScalePrice(level, signalClose, fill) == if 0.0 < level then level * fill / signalClose else level
  {
    if 0.0 < level {
      var ratio := fill / signalClose;
      assert signalClose * ratio == fill;
      assert level * ratio == level * fill / signalClose;
      assert (level - signalClose) * ratio == level * ratio - signalClose * ratio;
    }
  }

  lemma LiquidationPrices(config: Config, fill: real, direction: Direction)
    requires direction == Long || direction == Short
    ensures LiquidationPrice(config, fill, direction) == LiquidatedAt(config, fill, direction)
  {
    var share := 1.0 / config.leverage;
    assert fill * share == fill / config.leverage;
    assert fill * (1.0 - share + config.maintenance) == fill - fill * share + fill * config.maintenance;
    assert fill * (1.0 + share - config.maintenance) == fill + fill * share - fill * config.maintenance;
  }

  lemma StopsFit(config: Config, order: PendingEntry, fill: real)
    requires order.direction == Long || order.direction == Short
    ensures StopValid(config, order, fill) <==> StopFits(config, order, fill)
  {
    hide LiquidationPrice, LiquidatedAt;
    LiquidationPrices(config, fill, order.direction);
  }

  /**
   * An entry, spelled out: it is filled exactly when its stop fits the fill price and the sizer gives
   * it a positive size, and then opens just that; otherwise nothing changes.
   */
  lemma EntrySpelledOut(config: Config, book: Book, order: PendingEntry, price: real, date: string)
    requires book.position.size == 0.0 && order.direction in {Long, Short}
    ensures var after, fill := Enter(config, book, order, price, date), FillPrice(config, order, price);
            var filled := FilledOrder(config, order, fill);
            var size := config.resolveSize(book.cash, filled, fill, book.cash);
      && (after.position.size != 0.0 <==> StopFits(config, filled, fill) && 0.0 < size)
      && (after.position.size == 0.0 ==> after == book)
      && (after.position.size != 0.0 ==>
          var signed, slippage := if order.direction == Long then size else -size, Times(Abs(fill - price), size);
          && after.position == Position(signed, order.direction, fill, date, filled.stopPrice, filled.targetPrice,
                                        LiquidatedAt(config, fill, order.direction), 0,
                                        Charge(config, Times(size, fill)), slippage)
          && after.cash == book.cash - Times(signed, fill) - Charge(config, Times(size, fill))
          && after.usedMargin == book.usedMargin + Times(size, fill) / config.leverage
          && after.totals == book.totals.(commission := book.totals.commission + Charge(config, Times(size, fill)),
                                          slippage := book.totals.slippage + slippage)
          && after.trades == book.trades)
  {
    hide Slipped, Commission, LiquidationPrice, LiquidatedAt, Charge, Concession, Rebased, FillPrice, RiskLevel,
         StopValid, StopFits, Mirrored, Times;
    var fill := FillPrice(config, order, price);
    var filled := FilledOrder(config, order, fill);
    var size := config.resolveSize(book.cash, filled, fill, book.cash);
    FillPrices(config, order, price);
    RiskLevels(config, order, fill);
    StopsFit(config, filled, fill);
    LiquidationPrices(config, fill, order.direction);
    assert order.direction == Long || order.direction == Short;
    assert PortfolioValue(book, fill) == book.cash;
    assert Enter(config, book, order, price, date)
        == if StopValid(config, filled, fill) && 0.0 < size
           then Open(config, book, filled, size, price, fill, date) else book;
    if 0.0 < size {
      CommissionCharges(config, size, fill);
      TimesNegates(size, fill);
    }
  }

  /** The numbers differ by no more than 1e-12 of the larger. */
  ghost predicate Near(x: real, y: real) {
    var gap := 0.000000000001 * Max(Max(x, -x), Max(y, -y));
    -gap <= x - y <= gap
  }

  lemma NearIsClose(x: real, y: real)
    ensures IsClose(x, y) <==> Near(x, y)
  {
  }

  /**
   * The margin account follows an entry: an account that already agrees with the new cash is moved like
   * it, any other takes it over; a long locks its margin there, a short none.
   */
  lemma EntryIsMirrored(
      config: Config, book: Book, entry: PendingEntry, size: real, price: real, fill: real, date: string)
    requires entry.direction in {Long, Short}
    ensures var after := Open(config, book, entry, size, price, fill, date);
      && (book.account.None? <==> after.account.None?)
      && (book.account.Some? ==>
            var a, b := book.account.value, after.account.value;
            && (Near(after.cash, a.cash) ==> b.cash == a.cash + (after.cash - book.cash))
            && (!Near(after.cash, a.cash) ==> b.cash == after.cash)
            && b.marginBook
               == a.marginBook + (if entry.direction == Long then Times(size, fill) / config.leverage else 0.0))
  {
    hide Times, Commission, LiquidationPrice, IsClose, Near, Abs;
    if book.account.Some? {
      NearIsClose(Open(config, book, entry, size, price, fill, date).cash, book.account.value.cash);
    }
  }

  /** Slippage never favours the trader on the way in either. */
  lemma EntriesPaySlippage(config: Config, book: Book, order: PendingEntry, price: real, date: string)
    requires book.position.size == 0.0 && order.direction in {Long, Short} && 0.0 <= price
    ensures var p := Enter(config, book, order, price, date).position;
      && (p.size > 0.0 ==> price <= p.entryPrice)
      && (p.size < 0.0 ==> p.entryPrice <= price)
      && (p.size != 0.0 && config.slippagePct <= 0.0 ==> p.entryPrice == price)
      && (p.size != 0.0 && 0.0 < config.slippagePct ==> Abs(p.entryPrice - price) == price * config.slippagePct)
  {
    hide Enter, LiquidatedAt, Charge, RiskLevel, StopFits, Times;
    EntrySpelledOut(config, book, order, price, date);
    ConcessionSign(config, price);
  }

  /** Entering and leaving at one and the same price loses the slippage twice and every fee, and never gains. */
  lemma RoundTripLosesItsCosts(
      config: Config, book: Book, order: PendingEntry, price: real, date: string, exitDate: string, reason: string)
    requires book.position.size == 0.0 && order.direction in {Long, Short}
    ensures var held := Enter(config, book, order, price, date);
      held.position.size != 0.0 ==>
        var after := Close(config, held, price, exitDate, reason);
        && |after.trades| == |book.trades| + 1
        && var trade := after.trades[|book.trades|];
        && trade.netPnl == -2.0 * Times(trade.size, Concession(config, price))
                           - trade.entryCommission - trade.exitCommission - trade.borrowCost
        && (0.0 <= price ==> trade.netPnl <= 0.0)
  {
    hide Enter, Close, LiquidatedAt, RiskLevel, StopFits, Charge, Borrowed, Concession, Times;
    EntrySpelledOut(config, book, order, price, date);
    var held := Enter(config, book, order, price, date);
    if held.position.size != 0.0 {
      ExitSpelledOut(config, held, price, exitDate, reason);
      var concession := Concession(config, price);
      var p, trade := held.position, Close(config, held, price, exitDate, reason).trades[|book.trades|];
      assert trade.exitPrice - p.entryPrice == if p.size > 0.0 then -2.0 * concession else 2.0 * concession;
      SignedTwice(p.size, concession);
      ConcessionSign(config, price);
      CostsAreNotNegative(config, Times(p.size, trade.exitPrice), Long, date, exitDate);
      CostsAreNotNegative(config, Notional(p), p.direction, date, exitDate);
      ChargeIsEven(config, p.size, p.entryPrice);
    }
  }

  lemma SignedTwice(size: real, concession: real)
    ensures Times(size, if size > 0.0 then -2.0 * concession else 2.0 * concession) == -2.0 * Times(Abs(size), concession)
    ensures 0.0 <= concession ==> 0.0 <= Times(Abs(size), concession)
  {
  }

  lemma ChargeIsEven(config: Config, size: real, price: real)
    ensures Charge(config, Times(Abs(size), price)) == Charge(config, Times(size, price))
  {
  }

  lemma CostsAreNotNegative(config: Config, notional: real, direction: Direction, entryDate: string, exitDate: string)
    ensures 0.0 <= Charge(config, notional)
    ensures 0.0 <= Borrowed(config, direction, notional, entryDate, exitDate)
  {
    var days := config.daysBetween(entryDate, exitDate);
    if direction == Short && 0.0 < notional && days.Some? {
      assert 0.0 <= Max(0.0, config.borrowFee) * notional;
      assert 0.0 <= Max(0.0, days.value) / 365.0;
    }
  }

  // ---------------------------------------------------------------------------------------
  // Every trade adds up
  // ---------------------------------------------------------------------------------------

  /** A recorded trade earns its price difference less a charge on either side and the borrow fee. */
  ghost predicate TradeAddsUp(config: Config, t: Trade) {
    && t.direction in {Long, Short} && 0.0 < t.size
    && t.grossPnl == Times(t.size, if t.direction == Long then t.exitPrice - t.entryPrice else t.entryPrice - t.exitPrice)
    && t.entryCommission == Charge(config, Times(t.size, t.entryPrice))
    && t.exitCommission == Charge(config, Times(t.size, t.exitPrice))
    && t.borrowCost == Borrowed(config, t.direction, Times(t.size, t.entryPrice), t.entryDate, t.exitDate)
    && t.netPnl == t.grossPnl - t.entryCommission - t.exitCommission - t.borrowCost
  }

  ghost predicate TradesAddUp(config: Config, book: Book) {
    && SidesAgree(book.position)
    && (book.position.size != 0.0 ==> book.position.entryCommission == Charge(config, Notional(book.position)))
    && forall k :: 0 <= k < |book.trades| ==> TradeAddsUp(config, book.trades[k])
  }

  lemma CloseAddsUp(config: Config, book: Book, price: real, date: string, reason: string)
    requires TradesAddUp(config, book) && book.position.size != 0.0
    ensures TradesAddUp(config, Close(config, book, price, date, reason))
  {
    hide Close, Charge, Borrowed, Concession, Times;
    ExitSpelledOut(config, book, price, date, reason);
    var p, after := book.position, Close(config, book, price, date, reason);
    var trade := after.trades[|book.trades|];
    ChargeIsEven(config, p.size, trade.exitPrice);
    TimesNegates(p.size, trade.exitPrice - p.entryPrice);
    TimesDistributes(p.size, trade.exitPrice, p.entryPrice);
    TimesDistributes(-p.size, trade.exitPrice, p.entryPrice);
    TimesDistributes(-p.size, p.entryPrice, trade.exitPrice);
    assert TradeAddsUp(config, trade);
    forall k | 0 <= k < |after.trades|
      ensures TradeAddsUp(config, after.trades[k])
    {
      assert k < |book.trades| ==> after.trades[k] == after.trades[..|book.trades|][k];
    }
  }

  lemma EnterAddsUp(config: Config, book: Book, order: PendingEntry, price: real, date: string)
    requires TradesAddUp(config, book) && book.position.size == 0.0 && order.direction in {Long, Short}
    ensures TradesAddUp(config, Enter(config, book, order, price, date))
  {
    hide Enter, Charge, Borrowed, FillPrice, RiskLevel, LiquidatedAt, StopFits, Times, TradeAddsUp;
    EntrySpelledOut(config, book, order, price, date);
  }

  lemma ChecksAddUp(config: Config, book: Book, open: real, high: real, low: real, close: real, date: string)
    requires TradesAddUp(config, book)
    ensures TradesAddUp(config, CheckExit(config, book, open, high, low, date))
    ensures TradesAddUp(config, CheckMarginCall(config, book, close))
    ensures TradesAddUp(config, ApplyFunding(config, book))
    ensures TradesAddUp(config, Synced(book))
  {
    hide Close, Charge, Borrowed, Times, Abs, FundingPayment, TradeAddsUp;
    var held := book.(position := book.position.(barsHeld := book.position.barsHeld + 1));
    assert TradesAddUp(config, held);
    if held.position.size != 0.0 {
      CloseAddsUp(config, held, held.position.liquidationPrice, date, "liquidation");
      CloseAddsUp(config, book, close, "", "margin_call");
      match ResolveExit(held.position, open, high, low)
      case None =>
      case Some((price, reason)) => CloseAddsUp(config, held, price, date, reason);
    }
  }

  // ---------------------------------------------------------------------------------------
  // Stops, targets, liquidation, margin calls and funding
  // ---------------------------------------------------------------------------------------

  /** A price at or beyond the stop, on the losing side. */
  predicate StopHit(p: Position, price: real) {
    0.0 < p.stopPrice && if p.size > 0.0 then price <= p.stopPrice else p.stopPrice <= price
  }

  predicate TargetHit(p: Position, price: real) {
    0.0 < p.targetPrice && if p.size > 0.0 then p.targetPrice <= price else price <= p.targetPrice
  }

  predicate LiquidationHit(p: Position, price: real) {
    if p.size > 0.0 then price <= p.liquidationPrice else p.liquidationPrice <= price
  }

  /** Why a position leaves within a bar, and at which price, judged by the bar's worst and best prices for it. */
  function ExitOf(config: Config, p: Position, open: real, worst: real, best: real): Option<(real, string)> {
    if 1.0 < config.leverage && LiquidationHit(p, worst) then Some((p.liquidationPrice, "liquidation"))
    else if StopHit(p, open) then Some((open, "stop_loss_gap"))
    else if TargetHit(p, open) then Some((open, "take_profit_gap"))
    else if StopHit(p, worst) then Some((p.stopPrice, "stop_loss"))
    else if TargetHit(p, best) then Some((p.targetPrice, "take_profit"))
    else None
  }

  /** The check of a bar closes the position exactly when the bar calls for it, where and why it does. */
  lemma BarExits(config: Config, book: Book, open: real, high: real, low: real, date: string)
    ensures var p, after := book.position, CheckExit(config, book, open, high, low, date);
            var held := book.(position := p.(barsHeld := p.barsHeld + 1));
            var exit := if p.size > 0.0 then ExitOf(config, p, open, low, high) else ExitOf(config, p, open, high, low);
      && (p.size == 0.0 || exit.None? ==> after == held)
      && (p.size != 0.0 && exit.Some? ==> after == Close(config, held, exit.value.0, date, exit.value.1))
  {
    hide Close;
  }

  /** A margin account is called exactly when the close is at or beyond a positive liquidation price. */
  lemma MarginCalls(config: Config, book: Book, close: real)
    ensures var p, after := book.position, CheckMarginCall(config, book, close);
            var called := book.account.Some? && 1.0 < config.leverage && p.size != 0.0 && 0.0 < p.entryPrice
                          && 0.0 < p.liquidationPrice && LiquidationHit(p, close);
      && (called ==> after == Close(config, book, close, "", "margin_call"))
      && (!called ==> after == book)
  {
    hide Close;
  }

  /** Funding moves the signed notional times the rate out of the cash: longs pay what shorts receive. */
  lemma FundingIsSigned(config: Config, book: Book, initialCash: real)
    requires Reconciled(book, initialCash)
    ensures var p, after := book.position, ApplyFunding(config, book);
            var payment := if book.account.Some? && config.enableFunding && 0.0 < p.entryPrice
                           then p.size * p.entryPrice * config.fundingRate else 0.0;
      && after.cash == book.cash - payment && after.totals == book.totals.(funding := book.totals.funding + payment)
      && after.position == p && after.trades == book.trades && after.usedMargin == book.usedMargin
  {
    hide TallyOf, Times;
    var p := book.position;
    var payment := p.size * p.entryPrice * config.fundingRate;
    assert Abs(p.size) * p.entryPrice * config.fundingRate == if p.size < 0.0 then -payment else payment;
  }

  /** A book is worth its cash plus its signed position at the close. */
  lemma ValueIsCashPlusPosition(book: Book, close: real)
    ensures PortfolioValue(book, close) == book.cash + book.position.size * close
  {
  }
}
