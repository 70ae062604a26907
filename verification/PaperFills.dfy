/**
  At what price, in what size and at what fee due orders fill, stated on the raw book, and when an order is judged
  anew before it meets that book.
*/
module PaperFills {
  import opened Common
  import opened Fees
  import opened PaperTrading
  import opened PendingOrders
  import opened PaperSafety

  ghost predicate IsSmaller(x: real, a: real, b: real) { x <= a && x <= b && (x == a || x == b) }

  // ---------- Exits ----------

  /** A stop-loss sells below the bid by the slippage, but never below zero; any other exit at the bid. */
  ghost predicate ExitPrice(cfg: Config, reason: Reason, bid: real, price: real) {
    if reason.StopLoss? then price == (if bid >= cfg.slippage then bid - cfg.slippage else 0.0) else price == bid
  }

  /** Sold at this price, the part of the basis brings more than the fees of both sides. */
  ghost predicate Profits(basis: Basis, f: Fill) {
    && basis.contracts > 0.0 && basis.entryFee >= 0.0 && f.filled <= basis.contracts
    && (f.price - basis.entryPrice) * f.filled / 100.0 - f.fee - basis.entryFee * f.filled / basis.contracts > 0.0
  }

  /** How an exit fills at time `at`: all of it or all there is, and unless it is a risk exit above floor and cost. */
  ghost predicate ExitFills(cfg: Config, feed: Feed, o: Order, at: real, f: Fill)
    requires ValidPrecision(cfg.precision)
  {
    && at <= o.dueAt + cfg.fillTimeout
    && o.ticker in feed && feed[o.ticker].bid.Some? && feed[o.ticker].bidQty.Some?
    && 0.0 < f.filled && IsSmaller(f.filled, o.contracts, feed[o.ticker].bidQty.value)
    && ExitPrice(cfg, o.reason, feed[o.ticker].bid.value, f.price)
    && f.fee == NetFee(f.price, f.filled, 1.0, Sell, cfg.precision)
    && (o.reason.Other? ==>
          && (o.limit.Some? ==> o.limit.value <= feed[o.ticker].bid.value)
          && o.basis.Some? && Profits(o.basis.value, f))
  }

  lemma ProfitIs(basis: Basis, f: Fill)
    ensures Profits(basis, f) <==> ProfitOnBasis(Some(basis), f.price, f.filled, f.fee)
  {
    var unknown: Option<Basis> := Some(basis);
    assert unknown.value == basis;
    if basis.contracts > 0.0 {
      var profit := ProjectedExit(basis, f.price, f.filled, f.fee);
      assert profit
          == (f.price - basis.entryPrice) * f.filled / 100.0 - f.fee - basis.entryFee * f.filled / basis.contracts;
      hide ProjectedExit;
      assert ProfitOnBasis(unknown, f.price, f.filled, f.fee)
        <==> basis.entryFee >= 0.0 && f.filled <= basis.contracts && profit > 0.0;
    }
  }

  lemma NoProfitUnknown(f: Fill)
    ensures !ProfitOnBasis(None, f.price, f.filled, f.fee)
  {
  }

  lemma ExitAttempt(cfg: Config, feed: Feed, o: Order, f: Fill)
    requires ValidPrecision(cfg.precision) && o.side.Sell?
    ensures PaperFill(cfg, feed, o) == Some(f) <==> ExitFills(cfg, feed, o, o.dueAt + cfg.fillTimeout, f)
  {
    hide NetFee, ProjectedScalpPnl, ProfitOnBasis, Profits;
    if o.basis.Some? {
      ProfitIs(o.basis.value, f);
    } else {
      assert !ProfitOnBasis(o.basis, f.price, f.filled, f.fee) by { NoProfitUnknown(f); }
    }
  }

  /** A due exit fills exactly as the relation says. */
  lemma ExitFillsExactly(cfg: Config, feed: Feed, o: Order, at: real, f: Fill)
    requires ValidPrecision(cfg.precision) && o.side.Sell?
    ensures Attempted(cfg, feed, o, at).order == o
    ensures Attempted(cfg, feed, o, at).fill == Some(f) <==> ExitFills(cfg, feed, o, at, f)
  {
    hide PaperFill, NetFee, Profits, ExitPrice;
    ExitAttempt(cfg, feed, o, f);
  }

  /** A stop's price lies between the bid less the slippage and the bid. */
  lemma StopPriceBounds(cfg: Config, bid: real, price: real)
    requires cfg.slippage >= 0.0 && bid >= 0.0 && ExitPrice(cfg, StopLoss, bid, price)
    ensures bid - cfg.slippage <= price <= bid && 0.0 <= price
  {
  }

  // ---------- Entries ----------

  /** How an entry fills at time `at`: at the ask, if that is within its limit and the scalp is worth its fees. */
  ghost predicate EntryFills(cfg: Config, feed: Feed, o: Order, at: real, f: Fill)
    requires ValidPrecision(cfg.precision)
  {
    && at <= o.dueAt + cfg.fillTimeout
    && o.ticker in feed && feed[o.ticker].ask == Some(f.price) && feed[o.ticker].askQty.Some?
    && (o.limit.Some? ==> f.price <= o.limit.value)
    && 0.0 < f.filled && IsSmaller(f.filled, o.contracts, feed[o.ticker].askQty.value)
    && f.fee == NetFee(f.price, f.filled, 1.0, Buy, cfg.precision)
    && ProjectedScalpPnl(f.price, cfg.takeProfit, f.filled, cfg.precision) > 0.0
  }

  /** A due entry fills exactly as the relation says. */
  lemma EntryFillsExactly(cfg: Config, feed: Feed, o: Order, at: real, f: Fill)
    requires ValidPrecision(cfg.precision) && o.side.Buy?
    ensures Attempted(cfg, feed, o, at).order == o
    ensures Attempted(cfg, feed, o, at).fill == Some(f) <==> EntryFills(cfg, feed, o, at, f)
  {
    hide NetFee, ProjectedScalpPnl;
  }

  // ---------- When an exit is called ----------

  /** The reason the bid and the clock call for: the stop first, then the deadline, then a trailed take-profit. */
  ghost predicate ExitCalled(cfg: Config, pos: Position, bid: real, now: real, reason: Reason) {
    var stopped, expired := bid <= pos.entryPrice - cfg.stopLoss, now >= pos.openedAt + cfg.maxHold;
    match reason
    case StopLoss => stopped
    case TimeExit => !stopped && expired
    case Other =>
      && !stopped && !expired && bid >= pos.entryPrice + cfg.takeProfit
      && (cfg.trail > 0.0 ==> pos.peakBid.Some? && pos.peakBid.value >= bid + cfg.trail)
  }

  /** Signals are exactly the calls; with no trail the peak does not matter. */
  lemma SignalIsCall(cfg: Config, pos: Position, bid: real, now: real, reason: Reason)
    ensures ExitSignal(cfg, pos, bid, now) == Some(reason) <==> ExitCalled(cfg, pos, bid, now, reason)
  {
  }

  /** A stop-loss outranks everything else, a time exit a take-profit. */
  predicate Outranks(a: Reason, b: Reason) { (a.StopLoss? && !b.StopLoss?) || (a.TimeExit? && b.Other?) }

  lemma PriorityIsRank(a: Reason, b: Reason)
    ensures Priority(a) > Priority(b) <==> Outranks(a, b)
  {
  }

  /** `later` is the exit `o` after the call for `reason`. */
  function Retag(o: Order, reason: Reason): Order {
    if Outranks(reason, o.reason) then o.(reason := reason, limit := None) else o
  }

  /** The exit that meets the book is the due one, raised by what the same book calls for. */
  ghost predicate RaisedBy(cfg: Config, pos: Position, bid: real, now: real, o: Order, later: Order) {
    && (forall reason :: ExitCalled(cfg, pos, bid, now, reason) ==> later == Retag(o, reason))
    && ((forall reason :: !ExitCalled(cfg, pos, bid, now, reason)) ==> later == o)
  }

  lemma RaisedBySignal(cfg: Config, pos: Position, bid: real, now: real, o: Order)
    ensures var signal := ExitSignal(cfg, pos, bid, now);
            RaisedBy(cfg, pos, bid, now, o, if signal.Some? then Retag(o, signal.value) else o)
  {
    hide ExitSignal, ExitCalled, Retag;
    forall reason: Reason
      ensures ExitSignal(cfg, pos, bid, now) == Some(reason) <==> ExitCalled(cfg, pos, bid, now, reason)
    {
      SignalIsCall(cfg, pos, bid, now, reason);
    }
  }

  // ---------- When an entry is let through ----------

  /** The tickers of pending entries. */
  function BuyTickers(pending: seq<Order>): set<string> { set o | o in pending && o.side.Buy? :: o.ticker }

  lemma {:induction false} BuysCounted(pending: seq<Order>)
    requires Distinct(pending)
    ensures |BuyTickers(pending)| == PendingCount(pending, Some(Buy))
    ensures BuyTickers(pending) <= Tickers(pending)
  {
    if pending != [] {
      var first, rest := pending[0], pending[1..];
      BuysCounted(rest);
      PendsIsTicker(rest, first.ticker);
      assert pending == [first] + rest;
      assert BuyTickers(pending) == BuyTickers(rest) + (if first.side.Buy? then {first.ticker} else {});
    }
  }

  /** Positions and entries together, ticker by ticker. */
  ghost predicate FullyExposed(cfg: Config, d: Trader) {
    |d.account.positions.Keys + BuyTickers(d.pending)| >= cfg.maxOpen
  }

  lemma ExposureIsTickers(cfg: Config, eventOf: string -> Option<string>, d: Trader)
    requires Inv(cfg, eventOf, d)
    ensures Exposure(d) == |d.account.positions.Keys + BuyTickers(d.pending)| <= cfg.maxOpen
  {
    var held, buys := d.account.positions.Keys, BuyTickers(d.pending);
    BuysCounted(d.pending);
    forall t | t in buys ensures t !in held {
      var o :| o in d.pending && o.side.Buy? && o.ticker == t;
      var i :| 0 <= i < |d.pending| && d.pending[i] == o;
      OrderAt(d.pending, d.account.positions, i);
    }
    assert held !! buys;
    assert |held + buys| == |held| + |buys|;
  }

  /** Another ticker of the same known event is held or has a pending order. */
  ghost predicate Conflicts(eventOf: string -> Option<string>, d: Trader, ticker: string) {
    exists other ::
      && (other in d.account.positions || exists i :: 0 <= i < |d.pending| && d.pending[i].ticker == other)
      && other != ticker && eventOf(ticker).Some? && eventOf(other) == eventOf(ticker)
  }

  lemma {:induction false} TickersAre(pending: seq<Order>, ticker: string)
    ensures ticker in Tickers(pending) <==> exists i :: 0 <= i < |pending| && pending[i].ticker == ticker
  {
    if pending != [] {
      TickersAre(pending[1..], ticker);
      if ticker in Tickers(pending[1..]) {
        var i :| 0 <= i < |pending[1..]| && pending[1..][i].ticker == ticker;
        assert pending[i + 1].ticker == ticker;
      }
      if i :| 0 < i < |pending| && pending[i].ticker == ticker {
        assert pending[1..][i - 1].ticker == ticker;
      }
    }
  }

  lemma ConflictIsShared(eventOf: string -> Option<string>, d: Trader, ticker: string)
    ensures SharesEvent(eventOf, Exposed(d), ticker) <==> Conflicts(eventOf, d, ticker)
  {
    hide Tickers;
    forall other
      ensures other in Tickers(d.pending) <==> exists i :: 0 <= i < |d.pending| && d.pending[i].ticker == other
    {
      TickersAre(d.pending, other);
    }
  }

  /** In every run the caps hold, ticker by ticker. */
  lemma RunCaps(cfg: Config, eventOf: string -> Option<string>, ticks: seq<Tick>, ticker: string)
    requires ValidConfig(cfg)
    ensures var r := Run(cfg, eventOf, ticks);
      && |r.account.positions.Keys + BuyTickers(r.pending)| <= cfg.maxOpen
      && (cfg.oneContractPerEvent
          && (ticker in r.account.positions || exists i :: 0 <= i < |r.pending| && r.pending[i].ticker == ticker)
          ==> !Conflicts(eventOf, r, ticker))
  {
    var r := Run(cfg, eventOf, ticks);
    hide Tickers, BuyTickers, Conflicts;
    ExposureIsTickers(cfg, eventOf, r);
    ConflictIsShared(eventOf, r, ticker);
    TickersAre(r.pending, ticker);
  }
}
