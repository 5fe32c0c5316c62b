/**
 * The money side of a backtest: opening and closing positions, stops and targets, liquidation,
 * funding and the optional margin account, with the accounting identity all of them keep.
 */
module Simulation {
  import opened Prelude

  datatype Direction = NoDirection | Long | Short | Exit

  /** A leverage multiplier; margin_required raises on any other value. */
  type Leverage = x: real | 0.0 < x witness 1.0

  datatype PendingEntry = PendingEntry(
    direction: Direction,
    stopPrice: real,
    targetPrice: real,
    positionSize: int,
    explicitSize: bool,
    riskPerTrade: real,
    signalClose: real)

  /**
   * Execution settings. `resolveSize` stands for the position sizer (cash, order, fill price and
   * portfolio value to size) and `daysBetween` for the date arithmetic of the borrow fee, which
   * yields None for dates that do not parse and is negative when the second date is the earlier.
   */
  datatype Config = Config(
    leverage: Leverage,
    maintenance: real,
    commissionPct: real,
    slippagePct: real,
    borrowFee: real,
    fundingRate: real,
    enableFunding: bool,
    fullMargin: bool,
    rebaseRiskPrices: bool,
    resolveSize: (real, PendingEntry, real, real) -> real,
    daysBetween: (string, string) -> Option<real>)

  datatype Position = Position(
    size: real,
    direction: Direction,
    entryPrice: real,
    entryDate: string,
    stopPrice: real,
    targetPrice: real,
    liquidationPrice: real,
    barsHeld: nat,
    entryCommission: real,
    entrySlippage: real)

  const FLAT := Position(0.0, NoDirection, 0.0, "", 0.0, 0.0, 0.0, 0, 0.0, 0.0)

  datatype Trade = Trade(
    entryDate: string,
    exitDate: string,
    entryPrice: real,
    exitPrice: real,
    size: real,
    grossPnl: real,
    netPnl: real,
    entryCommission: real,
    exitCommission: real,
    borrowCost: real,
    barsHeld: nat,
    direction: Direction,
    reason: string)

  datatype Account = Account(cash: real, marginBook: real)

  /** Running totals of what trading has cost. */
  datatype Totals = Totals(commission: real, slippage: real, borrow: real, funding: real)

  /** Everything the executor reads or writes; account is present in full-margin mode only. */
  datatype Book = Book(
    cash: real,
    position: Position,
    trades: seq<Trade>,
    totals: Totals,
    usedMargin: real,
    account: Option<Account>)

  function InitialBook(config: Config, initialCash: real): Book {
    Book(initialCash, FLAT, [], Totals(0.0, 0.0, 0.0, 0.0), 0.0,
         if config.fullMargin then Some(Account(initialCash, 0.0)) else None)
  }

  function PortfolioValue(book: Book, close: real): real {
    if book.position.size > 0.0 then book.cash + Times(book.position.size, close)
    else if book.position.size < 0.0 then book.cash - Times(Abs(book.position.size), close)
    else book.cash
  }

  function Slipped(config: Config, price: real, direction: Direction, entering: bool): real {
    if config.slippagePct <= 0.0 || (direction != Long && direction != Short) then price
    else if (direction == Long) == entering then price * (1.0 + config.slippagePct)
    else price * (1.0 - config.slippagePct)
  }

  function Commission(config: Config, gross: real): real {
    if config.commissionPct <= 0.0 then 0.0 else Abs(gross) * config.commissionPct
  }

  function BorrowCost(config: Config, p: Position, exitDate: string): real {
    if p.direction != Short || config.borrowFee <= 0.0 || Abs(p.size) <= 0.0 || p.entryPrice <= 0.0 then 0.0
    else
      var days := config.daysBetween(p.entryDate, exitDate);
      if days.None? then 0.0 else Abs(p.size) * p.entryPrice * config.borrowFee * (Max(0.0, days.value) / 365.0)
  }

  function LiquidationPrice(config: Config, entryPrice: real, direction: Direction): real {
    if config.leverage <= 1.0 then entryPrice
    else if direction == Long then entryPrice * (1.0 - 1.0 / config.leverage + config.maintenance)
    else entryPrice * (1.0 + 1.0 / config.leverage - config.maintenance)
  }

  /** Leveraged positions hold margin until they are closed. */
  function Released(config: Config, usedMargin: real, notional: real, entryPrice: real): real {
    if config.leverage <= 1.0 || entryPrice <= 0.0 then usedMargin
    else Max(0.0, usedMargin - notional / config.leverage)
  }

  /** Closes the position: settles cash, mirrors it to the margin account, records the trade. */
  function Close(config: Config, book: Book, price: real, date: string, reason: string): Book {
    var p := book.position;
    var size := Abs(p.size);
    var fill := Slipped(config, price, p.direction, false);
    var cost := Times(size, fill);
    var commission := Commission(config, cost);
    var borrow := BorrowCost(config, p, date);
    var gross := Times(size, if p.size > 0.0 then fill - p.entryPrice else p.entryPrice - fill);
    var net := gross - p.entryCommission - commission - borrow;
    var cash := book.cash + if p.size > 0.0 then cost - commission else -(cost + commission + borrow);
    var account := match book.account
      case None => None
      case Some(a) => Some(Account(cash, a.marginBook - Min(Times(size, p.entryPrice) / config.leverage, a.marginBook)));
    var trade := Trade(p.entryDate, date, p.entryPrice, fill, size, gross, net, p.entryCommission, commission, borrow,
                       p.barsHeld, p.direction, reason);
    var totals := Totals(book.totals.commission + commission,
                         book.totals.slippage + Times(Abs(fill - price), size),
                         book.totals.borrow + borrow, book.totals.funding);
    Book(cash, FLAT, book.trades + [trade], totals,
         Released(config, book.usedMargin, Times(size, p.entryPrice), p.entryPrice), account)
  }

  /** The account follows an entry's cash movement, already applied to `cash`. */
  function Mirrored(account: Account, cash: real, movement: real): Account {
    account.(cash := if IsClose(cash, account.cash) then account.cash + movement else cash)
  }

  function Open(config: Config, book: Book, entry: PendingEntry, size: real, price: real, fill: real, date: string): Book {
    var cost := Times(size, fill);
    var commission := Commission(config, cost);
    var slippage := Times(Abs(fill - price), size);
    var position := Position(if entry.direction == Long then size else -size, entry.direction, fill, date,
                             entry.stopPrice, entry.targetPrice,
                             LiquidationPrice(config, fill, entry.direction), 0, commission, slippage);
    var totals := book.totals.(commission := book.totals.commission + commission,
                               slippage := book.totals.slippage + slippage);
    var usedMargin := book.usedMargin + cost / config.leverage;
    if entry.direction == Long then
      var cash := book.cash - (cost + commission);
      var account := match book.account
        case None => None
        case Some(a) =>
          Some(Mirrored(a.(marginBook := a.marginBook + cost / config.leverage), cash, -(cost + commission)));
      Book(cash, position, book.trades, totals, usedMargin, account)
    else if entry.direction == Short then
      var cash := book.cash + (cost - commission);
      var account := match book.account
        case None => None
        case Some(a) => Some(Mirrored(a, cash, cost - commission));
      Book(cash, position, book.trades, totals, usedMargin, account)
    else book.(totals := totals)
  }

  function ScalePrice(price: real, signalClose: real, fill: real): real
    requires 0.0 < signalClose
  {
    if price <= 0.0 then price else fill + (price - signalClose) * (fill / signalClose)
  }

  function Rebased(config: Config, entry: PendingEntry, fill: real): PendingEntry {
    if !config.rebaseRiskPrices || entry.signalClose <= 0.0 then entry
    else entry.(stopPrice := ScalePrice(entry.stopPrice, entry.signalClose, fill),
                targetPrice := ScalePrice(entry.targetPrice, entry.signalClose, fill))
  }

  predicate StopValid(config: Config, entry: PendingEntry, price: real) {
    var liquidation := LiquidationPrice(config, price, entry.direction);
    || entry.stopPrice <= 0.0
    || (&& (entry.direction == Long ==> entry.stopPrice < price)
        && (entry.direction == Short ==> price < entry.stopPrice)
        && (config.leverage <= 1.0
            || (if entry.direction == Long then liquidation < entry.stopPrice else entry.stopPrice < liquidation)))
  }

  /** Fills a pending entry at a price, unless its stop or its size turns out unusable. */
  function Enter(config: Config, book: Book, order: PendingEntry, price: real, date: string): Book {
    var fill := Slipped(config, price, order.direction, true);
    var entry := Rebased(config, order, fill);
    if !StopValid(config, entry, fill) then book
    else
      var size := config.resolveSize(book.cash, entry, fill, PortfolioValue(book, fill));
      if size <= 0.0 then book else Open(config, book, entry, size, price, fill, date)
  }

  /** Where a stop or target fills within a bar: gaps at the open first, then stop before target. */
  function ResolveExit(p: Position, open: real, high: real, low: real): Option<(real, string)> {
    var stop, target := p.stopPrice, p.targetPrice;
    if p.size > 0.0 then
      if stop > 0.0 && open <= stop then Some((open, "stop_loss_gap"))
      else if target > 0.0 && open >= target then Some((open, "take_profit_gap"))
      else if stop > 0.0 && low <= stop then Some((stop, "stop_loss"))
      else if target > 0.0 && high >= target then Some((target, "take_profit"))
      else None
    else if p.size < 0.0 then
      if stop > 0.0 && open >= stop then Some((open, "stop_loss_gap"))
      else if target > 0.0 && open <= target then Some((open, "take_profit_gap"))
      else if stop > 0.0 && high >= stop then Some((stop, "stop_loss"))
      else if target > 0.0 && low <= target then Some((target, "take_profit"))
      else None
    else None
  }

  /**
   * Stops and targets fill inside the bar, at the open when the bar gaps through the level and at
   * the level otherwise; a bar leaves the position open exactly when it reaches neither level.
   */
  lemma ExitsAreGapAware(p: Position, open: real, high: real, low: real)
    requires low <= open <= high && p.size != 0.0
    ensures var exit := ResolveExit(p, open, high, low);
      && (exit.Some? ==> low <= exit.value.0 <= high)
      && (exit.Some? && exit.value.0 != open ==> exit.value.0 == p.stopPrice || exit.value.0 == p.targetPrice)
      && (exit.Some? && exit.value.0 == p.targetPrice != open ==>
          !(0.0 < p.stopPrice && low <= p.stopPrice <= high) || p.stopPrice == p.targetPrice)
      && (exit.None? <==>
          if p.size > 0.0 then !(0.0 < p.stopPrice && low <= p.stopPrice) && !(0.0 < p.targetPrice <= high)
          else !(0.0 < p.stopPrice <= high) && !(0.0 < p.targetPrice && low <= p.targetPrice))
  {
  }

  predicate Liquidated(config: Config, p: Position, high: real, low: real) {
    config.leverage > 1.0
    && (if p.size > 0.0 then low <= p.liquidationPrice else p.size < 0.0 && high >= p.liquidationPrice)
  }

  function CheckExit(config: Config, book: Book, open: real, high: real, low: real, date: string): Book {
    var held := book.(position := book.position.(barsHeld := book.position.barsHeld + 1));
    if Liquidated(config, held.position, high, low) then
      Close(config, held, held.position.liquidationPrice, date, "liquidation")
    else
      match ResolveExit(held.position, open, high, low)
      case None => held
      case Some((price, reason)) => Close(config, held, price, date, reason)
  }

  predicate MarginCalled(config: Config, p: Position, close: real) {
    && config.leverage > 1.0 && p.entryPrice > 0.0 && p.liquidationPrice > 0.0
    && (if p.size > 0.0 then close <= p.liquidationPrice else p.size < 0.0 && close >= p.liquidationPrice)
  }

  /** The exit of a margin call carries no date. */
  function CheckMarginCall(config: Config, book: Book, close: real): Book {
    if book.account.Some? && MarginCalled(config, book.position, close) then
      Close(config, book, close, "", "margin_call")
    else book
  }

  function FundingPayment(config: Config, p: Position): real {
    if !config.enableFunding || p.size == 0.0 || p.entryPrice <= 0.0 then 0.0
    else
      var payment := Abs(p.size) * p.entryPrice * config.fundingRate;
      if p.size < 0.0 then -payment else payment
  }

  function ApplyFunding(config: Config, book: Book): Book {
    match book.account
    case None => book
    case Some(a) =>
      var payment := FundingPayment(config, book.position);
      book.(cash := a.cash - payment, totals := book.totals.(funding := book.totals.funding + payment),
            account := Some(a.(cash := a.cash - payment)))
  }

  function Synced(book: Book): Book {
    if book.account.Some? then book.(cash := book.account.value.cash) else book
  }

  function Liquidate(config: Config, book: Book, close: real, date: string): Book {
    if book.position.size == 0.0 then book else Close(config, book, close, date, "end_of_backtest")
  }

  // ---------------------------------------------------------------------------------------
  // The accounting identity
  // ---------------------------------------------------------------------------------------

  /** Sums over the closed trades. */
  datatype Tally = Tally(net: real, gross: real, commission: real, borrow: real)

  function TallyOf(trades: seq<Trade>): Tally {
    if trades == [] then Tally(0.0, 0.0, 0.0, 0.0)
    else
      var before, t := TallyOf(trades[..|trades| - 1]), trades[|trades| - 1];
      Tally(before.net + t.netPnl, before.gross + t.grossPnl,
            before.commission + t.entryCommission + t.exitCommission, before.borrow + t.borrowCost)
  }

  function RealizedPnl(trades: seq<Trade>): real {
    TallyOf(trades).net
  }

  ghost predicate SidesAgree(p: Position) {
    && (p.size > 0.0 <==> p.direction == Long)
    && (p.size < 0.0 <==> p.direction == Short)
    && (p.size == 0.0 ==> p.entryCommission == 0.0)
  }

  /**
   * Cash is the initial cash, plus what the closed trades earned, minus the funding paid, minus
   * what the open position cost to enter; a margin account always holds the same cash.  The totals
   * are the costs of the closed trades and of the open entry, and make up all the difference
   * between gross and net results.
   */
  ghost predicate Reconciled(book: Book, initialCash: real) {
    var tally := TallyOf(book.trades);
    && SidesAgree(book.position)
    && (book.account.Some? ==> book.account.value.cash == book.cash)
    && book.cash == initialCash + tally.net - book.totals.funding
                    - Times(book.position.size, book.position.entryPrice) - book.position.entryCommission
    && book.totals.commission == tally.commission + book.position.entryCommission
    && book.totals.borrow == tally.borrow
    && tally.net == tally.gross - tally.commission - tally.borrow
  }

  lemma {:induction false} TallySnoc(trades: seq<Trade>, t: Trade)
    ensures var before, after := TallyOf(trades), TallyOf(trades + [t]);
      && after.net == before.net + t.netPnl && after.gross == before.gross + t.grossPnl
      && after.commission == before.commission + t.entryCommission + t.exitCommission
      && after.borrow == before.borrow + t.borrowCost
  {
    assert (trades + [t])[..|trades|] == trades;
  }

  lemma LongsBorrowNothing(config: Config, p: Position, date: string)
    ensures p.direction != Short ==> BorrowCost(config, p, date) == 0.0
  {
  }

  lemma RebasedKeepsDirection(config: Config, entry: PendingEntry, fill: real)
    ensures Rebased(config, entry, fill).direction == entry.direction
  {
  }

  lemma TimesDistributes(x: real, y: real, z: real)
    ensures Times(x, y - z) == Times(x, y) - Times(x, z)
    ensures Times(-x, y) == -Times(x, y)
    ensures Times(0.0, y) == 0.0
  {
  }

  /** Whatever the price, date and reason, closing an open position keeps the identity and leaves it flat. */
  lemma CloseReconciles(config: Config, book: Book, price: real, date: string, reason: string, initialCash: real)
    requires Reconciled(book, initialCash) && book.position.size != 0.0
    ensures var after := Close(config, book, price, date, reason);
      && Reconciled(after, initialCash) && after.position == FLAT
      && |after.trades| == |book.trades| + 1 && after.trades[..|book.trades|] == book.trades
      && after.trades[|book.trades|].exitDate == date && after.trades[|book.trades|].reason == reason
      && after.trades[|book.trades|].exitPrice == Slipped(config, price, book.position.direction, false)
      && after.totals.funding == book.totals.funding
  {
    hide Times, Slipped, Commission, BorrowCost, Released, Min, TallyOf;
    var p := book.position;
    var after := Close(config, book, price, date, reason);
    var trade := after.trades[|book.trades|];
    TallySnoc(book.trades, trade);
    LongsBorrowNothing(config, p, date);
    TimesDistributes(Abs(p.size), trade.exitPrice, p.entryPrice);
    TimesDistributes(Abs(p.size), p.entryPrice, trade.exitPrice);
    TimesDistributes(Abs(p.size), p.entryPrice, 0.0);
    TimesDistributes(0.0, FLAT.entryPrice, 0.0);
  }

  lemma OpenReconciles(
      config: Config, book: Book, entry: PendingEntry, size: real, price: real, fill: real, date: string,
      initialCash: real)
    requires Reconciled(book, initialCash) && book.position.size == 0.0 && 0.0 < size
    requires entry.direction == Long || entry.direction == Short
    ensures Reconciled(Open(config, book, entry, size, price, fill, date), initialCash)
    ensures Open(config, book, entry, size, price, fill, date).trades == book.trades
  {
    hide Times, Commission, LiquidationPrice, IsClose, TallyOf;
    TimesDistributes(size, fill, 0.0);
    TimesDistributes(0.0, book.position.entryPrice, 0.0);
  }

  lemma EnterReconciles(config: Config, book: Book, entry: PendingEntry, price: real, date: string, initialCash: real)
    requires Reconciled(book, initialCash) && book.position.size == 0.0
    requires entry.direction == Long || entry.direction == Short
    ensures Reconciled(Enter(config, book, entry, price, date), initialCash)
    ensures Enter(config, book, entry, price, date).trades == book.trades
  {
    hide Open, Slipped, Rebased, StopValid, PortfolioValue, Reconciled;
    var fill := Slipped(config, price, entry.direction, true);
    var rebased := Rebased(config, entry, fill);
    var size := config.resolveSize(book.cash, rebased, fill, PortfolioValue(book, fill));
    RebasedKeepsDirection(config, entry, fill);
    if 0.0 < size {
      OpenReconciles(config, book, rebased, size, price, fill, date, initialCash);
    }
  }

  lemma ChecksReconcile(config: Config, book: Book, open: real, high: real, low: real, close: real, date: string, initialCash: real)
    requires Reconciled(book, initialCash)
    ensures Reconciled(CheckExit(config, book, open, high, low, date), initialCash)
    ensures Reconciled(CheckMarginCall(config, book, close), initialCash)
  {
    hide Close, TallyOf, Times, Abs;
    var held := book.(position := book.position.(barsHeld := book.position.barsHeld + 1));
    assert Reconciled(held, initialCash);
    hide Reconciled;
    if held.position.size != 0.0 {
      CloseReconciles(config, held, held.position.liquidationPrice, date, "liquidation", initialCash);
      CloseReconciles(config, book, close, "", "margin_call", initialCash);
      match ResolveExit(held.position, open, high, low)
      case None =>
      case Some((price, reason)) => CloseReconciles(config, held, price, date, reason, initialCash);
    }
  }

  /** Funding and syncing keep the identity; syncing changes nothing at all in a reconciled book. */
  lemma UpkeepReconciles(config: Config, book: Book, initialCash: real)
    requires Reconciled(book, initialCash)
    ensures Reconciled(ApplyFunding(config, book), initialCash)
    ensures Synced(book) == book
  {
    hide FundingPayment, TallyOf, Times;
  }

  /** No step of the executor touches a trade once it is recorded. */
  lemma TradesOnlyGrow(
      config: Config, book: Book, entry: PendingEntry, price: real, open: real, high: real, low: real, close: real,
      date: string, reason: string)
    ensures book.trades <= Close(config, book, price, date, reason).trades
    ensures book.trades == Enter(config, book, entry, price, date).trades
    ensures book.trades <= CheckExit(config, book, open, high, low, date).trades
    ensures book.trades <= CheckMarginCall(config, book, close).trades
    ensures book.trades == ApplyFunding(config, book).trades == Synced(book).trades
  {
    hide Times, Slipped, Commission, BorrowCost, LiquidationPrice, Rebased, StopValid, PortfolioValue, ResolveExit,
         Liquidated, MarginCalled, FundingPayment;
  }

  // ---------------------------------------------------------------------------------------
  // Margin
  // ---------------------------------------------------------------------------------------

  function Notional(p: Position): real {
    Times(Abs(p.size), p.entryPrice)
  }

  /** What the closed trades were worth when they were opened. */
  function Traded(trades: seq<Trade>): real {
    if trades == [] then 0.0
    else Traded(trades[..|trades| - 1]) + Times(trades[|trades| - 1].size, trades[|trades| - 1].entryPrice)
  }

  /**
   * With leverage, used margin is that of the open position; without, opening adds to it and closing
   * never takes away.  The margin account holds the margin of an open long, and none for a short.
   */
  ghost predicate MarginHeld(config: Config, book: Book) {
    var p := book.position;
    && (p.size != 0.0 ==> 0.0 < p.entryPrice)
    && book.usedMargin
       == Notional(p) / config.leverage + (if config.leverage > 1.0 then 0.0 else Traded(book.trades) / config.leverage)
    && (book.account.Some? ==>
          book.account.value.marginBook == if p.size > 0.0 then Notional(p) / config.leverage else 0.0)
    && (forall k :: 0 <= k < |book.trades| ==> 0.0 < Times(book.trades[k].size, book.trades[k].entryPrice))
  }

  lemma {:induction false} TradedSnoc(trades: seq<Trade>, t: Trade)
    ensures Traded(trades + [t]) == Traded(trades) + Times(t.size, t.entryPrice)
  {
    assert (trades + [t])[..|trades|] == trades;
  }

  lemma QuotientsAdd(x: real, y: real, leverage: Leverage)
    ensures x / leverage + y / leverage == (x + y) / leverage
    ensures 0.0 / leverage == 0.0
    ensures 0.0 < x ==> 0.0 < x / leverage
  {
  }

  lemma PositiveNotional(p: Position)
    ensures p.size != 0.0 && 0.0 < p.entryPrice ==> 0.0 < Notional(p)
    ensures p.size == 0.0 ==> Notional(p) == 0.0
  {
    PositiveTimes(Abs(p.size), p.entryPrice);
    TimesZero(p.entryPrice);
  }

  lemma CloseHoldsMargin(config: Config, book: Book, price: real, date: string, reason: string)
    requires MarginHeld(config, book) && book.position.size != 0.0
    ensures MarginHeld(config, Close(config, book, price, date, reason))
  {
    hide Times, Slipped, Commission, BorrowCost, Traded, Abs;
    var p, after := book.position, Close(config, book, price, date, reason);
    PositiveNotional(p);
    PositiveNotional(FLAT);
    TradedSnoc(book.trades, after.trades[|book.trades|]);
    QuotientsAdd(Notional(p), Traded(book.trades), config.leverage);
    QuotientsAdd(Traded(book.trades), Notional(p), config.leverage);
  }

  lemma OpenHoldsMargin(
      config: Config, book: Book, entry: PendingEntry, size: real, price: real, fill: real, date: string)
    requires MarginHeld(config, book) && book.position.size == 0.0 && 0.0 < size && 0.0 < fill
    requires entry.direction == Long || entry.direction == Short
    ensures MarginHeld(config, Open(config, book, entry, size, price, fill, date))
  {
    hide Times, Commission, LiquidationPrice, IsClose, Traded;
    PositiveNotional(book.position);
    QuotientsAdd(Notional(book.position), 0.0, config.leverage);
  }

  lemma EnterHoldsMargin(config: Config, book: Book, order: PendingEntry, price: real, date: string)
    requires MarginHeld(config, book) && book.position.size == 0.0 && 0.0 < price && config.slippagePct < 1.0
    requires order.direction == Long || order.direction == Short
    ensures MarginHeld(config, Enter(config, book, order, price, date))
  {
    hide Open, Slipped, Rebased, StopValid, PortfolioValue, MarginHeld;
    var fill := Slipped(config, price, order.direction, true);
    SlippedIsPositive(config, price, order.direction, true);
    var entry := Rebased(config, order, fill);
    RebasedKeepsDirection(config, order, fill);
    var size := config.resolveSize(book.cash, entry, fill, PortfolioValue(book, fill));
    if 0.0 < size {
      OpenHoldsMargin(config, book, entry, size, price, fill, date);
    }
  }

  lemma SlippedIsPositive(config: Config, price: real, direction: Direction, entering: bool)
    requires 0.0 < price && config.slippagePct < 1.0
    ensures 0.0 < Slipped(config, price, direction, entering)
  {
    if 0.0 < config.slippagePct {
      PositiveTimes(price, 1.0 + config.slippagePct);
      PositiveTimes(price, 1.0 - config.slippagePct);
    }
  }

  lemma ChecksHoldMargin(config: Config, book: Book, open: real, high: real, low: real, close: real, date: string)
    requires MarginHeld(config, book)
    ensures MarginHeld(config, CheckExit(config, book, open, high, low, date))
    ensures MarginHeld(config, CheckMarginCall(config, book, close))
    ensures MarginHeld(config, ApplyFunding(config, book))
    ensures MarginHeld(config, Synced(book))
  {
    hide Close, Traded, Times, Abs, FundingPayment;
    var held := book.(position := book.position.(barsHeld := book.position.barsHeld + 1));
    assert MarginHeld(config, held);
    if held.position.size != 0.0 {
      hide MarginHeld;
      CloseHoldsMargin(config, held, held.position.liquidationPrice, date, "liquidation");
      CloseHoldsMargin(config, book, close, "", "margin_call");
      match ResolveExit(held.position, open, high, low)
      case None =>
      case Some((price, reason)) => CloseHoldsMargin(config, held, price, date, reason);
    }
  }

  /** A flat account holds no used margin exactly when it trades with leverage or has not traded; its margin account holds none. */
  lemma FlatMarginExactly(config: Config, book: Book)
    requires MarginHeld(config, book) && book.position.size == 0.0
    ensures book.usedMargin == 0.0 <==> config.leverage > 1.0 || book.trades == []
    ensures book.account.Some? ==> book.account.value.marginBook == 0.0
  {
    hide Times;
    PositiveNotional(book.position);
    QuotientsAdd(Traded(book.trades), 0.0, config.leverage);
    TradedIsPositive(book.trades);
  }

  lemma {:induction false} TradedIsPositive(trades: seq<Trade>)
    requires forall k :: 0 <= k < |trades| ==> 0.0 < Times(trades[k].size, trades[k].entryPrice)
    ensures if trades == [] then Traded(trades) == 0.0 else 0.0 < Traded(trades)
  {
    hide Times;
    if trades != [] {
      TradedIsPositive(trades[..|trades| - 1]);
    }
  }
}
