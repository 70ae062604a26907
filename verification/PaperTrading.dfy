/**
  The paper trading cycle as functions on values: strategy.py (entries, exits, fills), executor.py
  (delayed immediate-or-cancel orders) and process_tick of engine.py in paper mode, without a ledger.

  Amounts and prices (in cents) are exact reals. A reason text is reduced to the class the code
  tells apart: stop-loss, time exit, or anything else (take-profit exits and entries).
*/
module PaperTrading {
  import opened Common
  import opened Fees

  // ---------- Values ----------

  datatype Reason = StopLoss | TimeExit | Other

  datatype Config = Config(
    takeProfit: real, trail: real, stopLoss: real, maxHold: real,
    contractsPerTrade: real, maxOpen: nat, oneContractPerEvent: bool,
    minPrice: real, maxPrice: real, maxSpread: real, maxDailyLoss: real,
    latency: real, fillTimeout: real, slippage: real, precision: real,
    dipThreshold: real, lookback: real, staleAfter: real)

  /** The limits config.py puts on the settings used here. */
  predicate ValidConfig(cfg: Config) {
    && cfg.takeProfit > 0.0 && cfg.trail >= 0.0 && cfg.stopLoss > 0.0 && cfg.maxHold > 0.0
    && cfg.contractsPerTrade > 0.0 && cfg.maxOpen > 0
    && cfg.minPrice >= 0.0 && cfg.maxPrice > 0.0 && cfg.maxPrice + cfg.takeProfit <= 100.0
    && cfg.maxDailyLoss > 0.0 && cfg.fillTimeout > 0.0 && cfg.latency >= 0.0 && cfg.slippage >= 0.0
    && ValidPrecision(cfg.precision)
  }

  datatype Position = Position(entryPrice: real, contracts: real, openedAt: real, entryFee: real, peakBid: Option<real>)

  /** What a position cost when its exit was submitted. */
  datatype Basis = Basis(entryPrice: real, contracts: real, entryFee: real)

  datatype Order = Order(
    ticker: string, side: Side, contracts: real, dueAt: real, reason: Reason,
    limit: Option<real>, basis: Option<Basis>)

  /** Best bid and ask with their sizes; any may be missing. */
  datatype Book = Book(bid: Option<real>, bidQty: Option<real>, ask: Option<real>, askQty: Option<real>)

  datatype Fill = Fill(price: real, filled: real, fee: real)

  datatype Attempt = Attempt(order: Order, fill: Option<Fill>)

  datatype Account = Account(positions: map<string, Position>, realized: real)

  datatype Halt = NoFreshBid | LossLimit

  datatype EntryStatus =
    | Eligible | PaperAllowed | CloseHorizon | EventSibling | SiblingSpike | ScoreBlocked | CanceledAtArrival

  datatype Trader = Trader(
    account: Account, pending: seq<Order>,
    latestBid: map<string, real>, bidTs: map<string, real>,
    status: map<string, EntryStatus>, halt: Option<Halt>)

  type Feed = map<string, Book>

  /** Everything one observation brings: the quote, the clock readings, the feed and the gates' answers. */
  datatype Tick = Tick(
    ticker: string, mid: Option<real>, bid: Option<real>, ask: Option<real>,
    quoteTs: real, now: real, arrivalClock: real, clock: real,
    feed: Feed, history: seq<(real, real)>,
    closeAllowed: bool, earlyCloseRisk: bool, gateBlocks: bool, siblingBlocks: bool)

  function TopOfBook(feed: Feed, ticker: string): Book {
    if ticker in feed then feed[ticker] else Book(None, None, None, None)
  }

  function Max(a: real, b: real): real { if a >= b then a else b }

  function OrZero(x: Option<real>): real { if x.Some? then x.value else 0.0 }

  // ---------- strategy.py: fills ----------

  predicate Positive(positions: map<string, Position>) {
    forall t :: t in positions ==> positions[t].contracts > 0.0
  }

  /** `record_fill`. */
  function RecordFill(account: Account, ticker: string, side: Side, fill: Fill, now: real): (r: Account)
    requires Positive(account.positions)
    ensures Positive(r.positions)
  {
    var positions := account.positions;
    if fill.filled <= 0.0 then account
    else if side.Buy? then
      if ticker !in positions then
        account.(positions := positions[ticker := Position(fill.price, fill.filled, now, fill.fee, None)])
      else
        account.(positions := positions[ticker := AveragedIn(positions[ticker], fill)])
    else if ticker !in positions then account
    else
      var pos := positions[ticker];
      var closing := Min(fill.filled, pos.contracts);
      var left := pos.contracts - closing;
      Account(
        if left == 0.0 then positions - {ticker}
        else positions[ticker := pos.(contracts := left, entryFee := pos.entryFee - FeePart(pos, closing))],
        account.realized + ClosedPnl(pos, fill))
  }

  function AveragedIn(pos: Position, fill: Fill): Position
    requires pos.contracts > 0.0 && fill.filled > 0.0
  {
    var total := pos.contracts + fill.filled;
    pos.(entryPrice := (pos.entryPrice * pos.contracts + fill.price * fill.filled) / total,
         contracts := total, entryFee := pos.entryFee + fill.fee)
  }

  function FeePart(pos: Position, closing: real): real
    requires pos.contracts > 0.0
  {
    pos.entryFee * (closing / pos.contracts)
  }

  function ClosedPnl(pos: Position, fill: Fill): real
    requires pos.contracts > 0.0
  {
    var closing := Min(fill.filled, pos.contracts);
    (fill.price - pos.entryPrice) * closing / 100.0 - fill.fee - FeePart(pos, closing)
  }

  // ---------- strategy.py: exits ----------

  function WithPeak(pos: Position, bid: real): Position {
    if pos.peakBid.None? || bid > pos.peakBid.value then pos.(peakBid := Some(bid)) else pos
  }

  function ExitSignal(cfg: Config, pos: Position, bid: real, now: real): Option<Reason> {
    var move := bid - pos.entryPrice;
    var peak := WithPeak(pos, bid).peakBid.value;
    if move <= -cfg.stopLoss then Some(StopLoss)
    else if now - pos.openedAt >= cfg.maxHold then Some(TimeExit)
    else if peak - pos.entryPrice < cfg.takeProfit then None
    else if cfg.trail <= 0.0 then if move >= cfg.takeProfit then Some(Other) else None
    else if peak - bid >= cfg.trail && move >= cfg.takeProfit then Some(Other) else None
  }

  /** `check_exit`: the positions with the peak moved up, and the signal. */
  function CheckExit(cfg: Config, positions: map<string, Position>, ticker: string, bid: Option<real>, now: real)
    : (r: (map<string, Position>, Option<Reason>))
    ensures Positive(positions) ==> Positive(r.0)
  {
    if ticker !in positions || bid.None? then (positions, None)
    else
      (positions[ticker := WithPeak(positions[ticker], bid.value)], ExitSignal(cfg, positions[ticker], bid.value, now))
  }

  // ---------- strategy.py: entries ----------

  /** The greatest mid in the look-back window. */
  function WindowMax(history: seq<(real, real)>, now: real, lookback: real): Option<real> {
    if history == [] then None
    else
      var earlier := WindowMax(history[..|history| - 1], now, lookback);
      var (ts, mid) := history[|history| - 1];
      if !(0.0 < now - ts <= lookback) then earlier
      else if earlier.None? then Some(mid) else Some(Max(earlier.value, mid))
  }

  function DipSignal(history: seq<(real, real)>, now: real, mid: real, threshold: real, lookback: real): Option<real> {
    var high := WindowMax(history, now, lookback);
    if high.None? then None
    else if high.value - mid >= threshold then Some(high.value - mid) else None
  }

  /** `check_entry`: the size to buy. */
  function CheckEntry(cfg: Config, account: Account, tick: Tick, askQty: Option<real>): Option<real>
    requires ValidPrecision(cfg.precision)
  {
    if tick.mid.None? || tick.bid.None? || tick.ask.None? then None
    else if tick.ticker in account.positions then None
    else if |account.positions| >= cfg.maxOpen then None
    else if !(cfg.minPrice <= tick.ask.value <= cfg.maxPrice) then None
    else if tick.ask.value - tick.bid.value > cfg.maxSpread then None
    else if account.realized <= -cfg.maxDailyLoss then None
    else if askQty.None? || askQty.value <= 0.0 then None
    else
      var size := Min(cfg.contractsPerTrade, askQty.value);
      if ProjectedScalpPnl(tick.ask.value, cfg.takeProfit, size, cfg.precision) <= 0.0 then None
      else if DipSignal(tick.history, tick.now, tick.mid.value, cfg.dipThreshold, cfg.lookback).None? then None
      else Some(size)
  }

  // ---------- executor.py ----------

  predicate Matches(o: Order, ticker: Option<string>, side: Option<Side>) {
    (ticker.None? || o.ticker == ticker.value) && (side.None? || o.side == side.value)
  }

  predicate HasPending(pending: seq<Order>, ticker: Option<string>, side: Option<Side>) {
    pending != [] && (Matches(pending[0], ticker, side) || HasPending(pending[1..], ticker, side))
  }

  /** `get_pending`: the first match. */
  function GetPending(pending: seq<Order>, ticker: Option<string>, side: Option<Side>): Option<Order> {
    if pending == [] then None
    else if Matches(pending[0], ticker, side) then Some(pending[0]) else GetPending(pending[1..], ticker, side)
  }

  function PendingCount(pending: seq<Order>, side: Option<Side>): nat {
    if pending == [] then 0
    else (if side.None? || pending[0].side == side.value then 1 else 0) + PendingCount(pending[1..], side)
  }

  /** `_paper_fill`: one attempt against the current book. */
  function PaperFill(cfg: Config, feed: Feed, o: Order): Option<Fill>
    requires ValidPrecision(cfg.precision)
  {
    var book := TopOfBook(feed, o.ticker);
    if o.side.Buy? then
      if book.ask.None? || (o.limit.Some? && book.ask.value > o.limit.value) then None
      else
        var price := book.ask.value;
        var filled := Min(o.contracts, OrZero(book.askQty));
        if filled <= 0.0 || ProjectedScalpPnl(price, cfg.takeProfit, filled, cfg.precision) <= 0.0 then None
        else Some(Fill(price, filled, NetFee(price, filled, 1.0, Buy, cfg.precision)))
    else if book.bid.None? then None
    else
      var risk := !o.reason.Other?;
      if !risk && o.limit.Some? && book.bid.value < o.limit.value then None
      else
        var price := if o.reason.StopLoss? then Max(0.0, book.bid.value - cfg.slippage) else book.bid.value;
        var filled := Min(o.contracts, OrZero(book.bidQty));
        var fee := NetFee(price, filled, 1.0, Sell, cfg.precision);
        if filled <= 0.0 || (!risk && !ProfitOnBasis(o.basis, price, filled, fee)) then None
        else Some(Fill(price, filled, fee))
  }

  /** The fee-inclusive check on a take-profit fragment. */
  predicate ProfitOnBasis(basis: Option<Basis>, price: real, filled: real, fee: real) {
    && basis.Some?
    && basis.value.contracts > 0.0 && basis.value.entryFee >= 0.0 && filled <= basis.value.contracts
    && ProjectedExit(basis.value, price, filled, fee) > 0.0
  }

  function ProjectedExit(basis: Basis, price: real, filled: real, fee: real): real
    requires basis.contracts > 0.0
  {
    (price - basis.entryPrice) * filled / 100.0 - fee - basis.entryFee * filled / basis.contracts
  }

  /** `submit_paper`: nothing while the ticker has a pending order. */
  function SubmitPaper(cfg: Config, feed: Feed, pending: seq<Order>, ticker: string, side: Side, contracts: real,
                       reason: Reason, now: real, basis: Option<Basis>): seq<Order>
  {
    if HasPending(pending, Some(ticker), None) then pending
    else pending + [NewOrder(cfg, feed, ticker, side, contracts, reason, now, basis)]
  }

  function NewOrder(cfg: Config, feed: Feed, ticker: string, side: Side, contracts: real,
                    reason: Reason, now: real, basis: Option<Basis>): Order
  {
    var book := TopOfBook(feed, ticker);
    var limit := if !reason.Other? then None else if side.Buy? then book.ask else book.bid;
    Order(ticker, side, contracts, now + cfg.latency, reason, limit, basis)
  }

  /** `upgrade_pending_paper_exit`: the first pending exit of the ticker is retagged and loses its floor. */
  function UpgradeExit(pending: seq<Order>, ticker: string, reason: Reason): (r: seq<Order>)
    ensures |r| == |pending|
  {
    if pending == [] then []
    else if Matches(pending[0], Some(ticker), Some(Sell)) then
      [pending[0].(reason := reason, limit := None)] + pending[1..]
    else [pending[0]] + UpgradeExit(pending[1..], ticker, reason)
  }

  predicate Due(o: Order, now: real, ticker: Option<string>) {
    o.dueAt <= now && (ticker.None? || o.ticker == ticker.value)
  }

  function Attempted(cfg: Config, feed: Feed, o: Order, now: real): Attempt
    requires ValidPrecision(cfg.precision)
  {
    Attempt(o, if now > o.dueAt + cfg.fillTimeout then None else PaperFill(cfg, feed, o))
  }

  /** `process_due_paper_orders`: every due order is attempted once and dropped. */
  function Attempts(cfg: Config, feed: Feed, pending: seq<Order>, now: real, ticker: Option<string>): seq<Attempt>
    requires ValidPrecision(cfg.precision)
  {
    if pending == [] then []
    else (if Due(pending[0], now, ticker) then [Attempted(cfg, feed, pending[0], now)] else [])
         + Attempts(cfg, feed, pending[1..], now, ticker)
  }

  function Remaining(pending: seq<Order>, now: real, ticker: Option<string>): seq<Order> {
    if pending == [] then []
    else (if Due(pending[0], now, ticker) then [] else [pending[0]]) + Remaining(pending[1..], now, ticker)
  }

  /** `cancel_pending_paper`: what is canceled. */
  function Canceled(pending: seq<Order>, ticker: Option<string>, side: Option<Side>): seq<Order> {
    if pending == [] then []
    else (if Matches(pending[0], ticker, side) then [pending[0]] else []) + Canceled(pending[1..], ticker, side)
  }

  /** What is left. */
  function CancelPending(pending: seq<Order>, ticker: Option<string>, side: Option<Side>): seq<Order> {
    if pending == [] then []
    else (if Matches(pending[0], ticker, side) then [] else [pending[0]]) + CancelPending(pending[1..], ticker, side)
  }

  // ---------- engine.py: valuing and halting ----------

  /** The sum of a map's values. */
  ghost function SumOf(m: map<string, real>): real {
    if m == map[] then 0.0
    else
      var t :| t in m;
      m[t] + SumOf(m - {t})
  }

  /** What closing at the bid less slippage, as deep as the book goes, would add to the P&L. */
  function Mark(cfg: Config, feed: Feed, ticker: string, pos: Position, bid: real): real
    requires ValidPrecision(cfg.precision)
  {
    var executable := Min(pos.contracts, Max(0.0, OrZero(TopOfBook(feed, ticker).bidQty)));
    var price := Max(0.0, bid - cfg.slippage);
    var fee := if executable != 0.0 then NetFee(price, executable, 1.0, Sell, cfg.precision) else 0.0;
    price * executable / 100.0 - fee - OpenCostOf(pos)
  }

  function OpenCostOf(pos: Position): real { pos.entryPrice * pos.contracts / 100.0 + pos.entryFee }

  function Marks(cfg: Config, feed: Feed, positions: map<string, Position>,
                 latestBid: map<string, real>): map<string, real>
    requires ValidPrecision(cfg.precision)
  {
    map t | t in positions && t in latestBid :: Mark(cfg, feed, t, positions[t], latestBid[t])
  }

  predicate Stale(cfg: Config, trader: Trader, clock: real) {
    exists t :: t in trader.account.positions && (t !in trader.bidTs || clock - trader.bidTs[t] > cfg.staleAfter)
  }

  ghost predicate LossBreached(cfg: Config, trader: Trader, feed: Feed)
    requires ValidPrecision(cfg.precision)
  {
    trader.account.realized + SumOf(Marks(cfg, feed, trader.account.positions, trader.latestBid)) <= -cfg.maxDailyLoss
  }

  /** `check_loss_limit`; the first reason to halt stays. */
  ghost function LossCheck(cfg: Config, trader: Trader, feed: Feed, clock: real): (r: Trader)
    requires ValidPrecision(cfg.precision)
    ensures r.account == trader.account && r.pending == trader.pending
  {
    if trader.halt.Some? then trader
    else if Stale(cfg, trader, clock) then trader.(halt := Some(NoFreshBid))
    else if LossBreached(cfg, trader, feed) then trader.(halt := Some(LossLimit))
    else trader
  }

  // ---------- engine.py: one observation ----------

  function Priority(reason: Reason): nat {
    match reason
    case StopLoss => 2
    case TimeExit => 1
    case Other => 0
  }

  function Tickers(pending: seq<Order>): set<string> {
    if pending == [] then {} else {pending[0].ticker} + Tickers(pending[1..])
  }

  function Exposed(trader: Trader): set<string> { trader.account.positions.Keys + Tickers(trader.pending) }

  /** Another exposed ticker is on the ticker's event. */
  predicate SharesEvent(eventOf: string -> Option<string>, exposed: set<string>, ticker: string) {
    eventOf(ticker).Some? && exists other :: other in exposed && other != ticker && eventOf(other) == eventOf(ticker)
  }

  predicate EventBlocks(cfg: Config, eventOf: string -> Option<string>, trader: Trader, ticker: string) {
    cfg.oneContractPerEvent && SharesEvent(eventOf, Exposed(trader), ticker)
  }

  function Observed(trader: Trader, tick: Tick): Trader {
    if tick.bid.None? then trader
    else trader.(latestBid := trader.latestBid[tick.ticker := tick.bid.value],
                 bidTs := trader.bidTs[tick.ticker := tick.quoteTs])
  }

  predicate Fresh(tick: Tick) { tick.mid.Some? && tick.bid.Some? && tick.ask.Some? }

  function WithPositions(trader: Trader, positions: map<string, Position>): Trader {
    trader.(account := trader.account.(positions := positions))
  }

  /** A due exit is judged again against the book it is about to meet. */
  function ExitRejudged(cfg: Config, trader: Trader, tick: Tick): (r: Trader)
    ensures Positive(trader.account.positions) ==> Positive(r.account.positions)
  {
    var working := GetPending(trader.pending, Some(tick.ticker), Some(Sell));
    if working.None? || working.value.dueAt > tick.quoteTs || tick.ticker !in trader.account.positions then trader
    else
      var (positions, signal) := CheckExit(cfg, trader.account.positions, tick.ticker, tick.bid, tick.quoteTs);
      var judged := WithPositions(trader, positions);
      if signal.Some? && Priority(signal.value) > Priority(working.value.reason) then
        judged.(pending := UpgradeExit(trader.pending, tick.ticker, signal.value))
      else judged
  }

  /** Why a due entry may not fill now. */
  predicate ArrivalBlocked(cfg: Config, eventOf: string -> Option<string>, trader: Trader, tick: Tick)
    requires Fresh(tick)
  {
    || trader.halt.Some?
    || !(cfg.minPrice <= tick.ask.value <= cfg.maxPrice)
    || tick.ask.value - tick.bid.value > cfg.maxSpread
    || !tick.closeAllowed
    || EventBlocks(cfg, eventOf, trader, tick.ticker)
    || tick.gateBlocks
    || tick.siblingBlocks
  }

  ghost function EntryRejudged(cfg: Config, eventOf: string -> Option<string>, trader: Trader, tick: Tick): (r: Trader)
    requires ValidPrecision(cfg.precision) && Fresh(tick)
    ensures r.account == trader.account
  {
    var entry := GetPending(trader.pending, Some(tick.ticker), Some(Buy));
    if entry.None? || entry.value.dueAt > tick.quoteTs then trader
    else
      var checked := LossCheck(cfg, trader, tick.feed, tick.arrivalClock);
      if ArrivalBlocked(cfg, eventOf, checked, tick) then
        checked.(pending := CancelPending(checked.pending, Some(tick.ticker), Some(Buy)),
                 status := checked.status[tick.ticker := CanceledAtArrival])
      else checked
  }

  function RecordAll(account: Account, attempts: seq<Attempt>, now: real): (r: Account)
    requires Positive(account.positions)
    ensures Positive(r.positions)
    decreases attempts
  {
    if attempts == [] then account
    else
      var a := attempts[0];
      var next := if a.fill.None? then account
                  else RecordFill(account, a.order.ticker, a.order.side, a.fill.value, now);
      RecordAll(next, attempts[1..], now)
  }

  function DueFilled(cfg: Config, trader: Trader, tick: Tick): Trader
    requires ValidPrecision(cfg.precision) && Positive(trader.account.positions)
  {
    var attempts := Attempts(cfg, tick.feed, trader.pending, tick.quoteTs, Some(tick.ticker));
    trader.(account := RecordAll(trader.account, attempts, tick.now),
            pending := Remaining(trader.pending, tick.quoteTs, Some(tick.ticker)))
  }

  /** The state the due orders of a fresh quote meet. */
  ghost function Rejudged(cfg: Config, eventOf: string -> Option<string>, trader: Trader, tick: Tick): (r: Trader)
    requires ValidPrecision(cfg.precision) && Fresh(tick)
    ensures Positive(trader.account.positions) ==> Positive(r.account.positions)
  {
    EntryRejudged(cfg, eventOf, ExitRejudged(cfg, trader, tick), tick)
  }

  /** An exit is submitted, or the working one is upgraded if the new reason outranks it. */
  function ExitDecided(cfg: Config, trader: Trader, tick: Tick, reason: Reason): (r: Trader)
    requires tick.ticker in trader.account.positions
    ensures r.account == trader.account && r.halt == trader.halt
  {
    var pos := trader.account.positions[tick.ticker];
    var working := GetPending(trader.pending, Some(tick.ticker), Some(Sell));
    if working.Some? then
      if Priority(reason) > Priority(working.value.reason) then
        trader.(pending := UpgradeExit(trader.pending, tick.ticker, reason))
      else trader
    else
      trader.(pending := SubmitPaper(cfg, tick.feed, trader.pending, tick.ticker, Sell, pos.contracts, reason, tick.now,
                                     Some(Basis(pos.entryPrice, pos.contracts, pos.entryFee))))
  }

  function WithStatus(trader: Trader, ticker: string, status: EntryStatus): Trader {
    trader.(status := trader.status[ticker := status])
  }

  function EntryDecided(cfg: Config, eventOf: string -> Option<string>, trader: Trader, tick: Tick): (r: Trader)
    requires ValidPrecision(cfg.precision)
    ensures r.account == trader.account && r.halt == trader.halt
  {
    if |trader.account.positions| + PendingCount(trader.pending, Some(Buy)) >= cfg.maxOpen then trader
    else if !tick.closeAllowed then WithStatus(trader, tick.ticker, CloseHorizon)
    else
      var open := WithStatus(trader, tick.ticker, if tick.earlyCloseRisk then PaperAllowed else Eligible);
      var size := CheckEntry(cfg, trader.account, tick, TopOfBook(tick.feed, tick.ticker).askQty);
      if size.None? then open
      else if EventBlocks(cfg, eventOf, trader, tick.ticker) then WithStatus(open, tick.ticker, EventSibling)
      else if tick.siblingBlocks then WithStatus(open, tick.ticker, SiblingSpike)
      else if tick.gateBlocks then WithStatus(open, tick.ticker, ScoreBlocked)
      else open.(pending := SubmitPaper(cfg, tick.feed, open.pending, tick.ticker, Buy, size.value, Other,
                                        tick.now, None))
  }

  /** What follows the loss check. */
  function Decided(cfg: Config, eventOf: string -> Option<string>, trader: Trader, tick: Tick): Trader
    requires ValidPrecision(cfg.precision)
  {
    if trader.halt.Some? || HasPending(trader.pending, Some(tick.ticker), Some(Buy)) then trader
    else
      var (positions, signal) := CheckExit(cfg, trader.account.positions, tick.ticker, tick.bid, tick.now);
      var judged := WithPositions(trader, positions);
      if signal.Some? then ExitDecided(cfg, judged, tick, signal.value)
      else if HasPending(trader.pending, Some(tick.ticker), Some(Sell)) then judged
      else EntryDecided(cfg, eventOf, judged, tick)
  }

  /** The state after due orders, before the loss check. */
  ghost function Arrived(cfg: Config, eventOf: string -> Option<string>, trader: Trader, tick: Tick): Trader
    requires ValidPrecision(cfg.precision) && Positive(trader.account.positions)
  {
    var seen := Observed(trader, tick);
    if !Fresh(tick) then seen
    else DueFilled(cfg, Rejudged(cfg, eventOf, seen, tick), tick)
  }

  /** `process_tick` in paper mode. */
  ghost function ProcessTick(cfg: Config, eventOf: string -> Option<string>, trader: Trader, tick: Tick): Trader
    requires ValidPrecision(cfg.precision) && Positive(trader.account.positions)
  {
    Decided(cfg, eventOf, LossCheck(cfg, Arrived(cfg, eventOf, trader, tick), tick.feed, tick.clock), tick)
  }
}
