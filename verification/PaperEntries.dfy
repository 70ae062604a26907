/** Exactly when an entry order is submitted, and for what. */
module PaperEntries {
  import opened Common
  import opened Fees
  import opened PaperTrading
  import opened PendingOrders
  import opened PaperSafety
  import opened PaperLatency
  import opened PaperRisk
  import opened PaperFills

  /** Some mid of the look-back window is at least the threshold above the current one. */
  ghost predicate Dipped(cfg: Config, tick: Tick)
    requires tick.mid.Some?
  {
    exists i :: 0 <= i < |tick.history| && tick.now - cfg.lookback <= tick.history[i].0 < tick.now
      && tick.history[i].1 >= tick.mid.value + cfg.dipThreshold
  }

  /** No order of the ticker is pending. */
  ghost predicate Free(pending: seq<Order>, ticker: string) {
    forall i :: 0 <= i < |pending| ==> pending[i].ticker != ticker
  }

  /** The state `d` and the observation call for the entry `o`. */
  ghost predicate Signalled(cfg: Config, eventOf: string -> Option<string>, d: Trader, tick: Tick, o: Order)
    requires ValidPrecision(cfg.precision)
  {
    // room for it, and nothing of it held or pending
    && d.halt.None? && tick.ticker !in d.account.positions && Free(d.pending, tick.ticker)
    && !FullyExposed(cfg, d) && d.account.realized > -cfg.maxDailyLoss
    // an acceptable quote, and every gate open
    && tick.mid.Some? && tick.bid.Some? && tick.ask.Some?
    && cfg.minPrice <= tick.ask.value <= cfg.maxPrice && tick.ask.value <= tick.bid.value + cfg.maxSpread
    && tick.closeAllowed && !tick.siblingBlocks && !tick.gateBlocks
    && !(cfg.oneContractPerEvent && Conflicts(eventOf, d, tick.ticker))
    // a dip worth buying, in the size of a trade or of the ask if that is smaller
    && Dipped(cfg, tick)
    && tick.ticker in tick.feed && tick.feed[tick.ticker].askQty.Some?
    && 0.0 < o.contracts && IsSmaller(o.contracts, cfg.contractsPerTrade, tick.feed[tick.ticker].askQty.value)
    && ProjectedScalpPnl(tick.ask.value, cfg.takeProfit, o.contracts, cfg.precision) > 0.0
    // delayed, and capped at the ask of the book
    && o == Order(tick.ticker, Buy, o.contracts, tick.now + cfg.latency, Other, tick.feed[tick.ticker].ask, None)
  }

  lemma DippedIsSignal(cfg: Config, tick: Tick)
    requires tick.mid.Some?
    ensures Dipped(cfg, tick)
       <==> DipSignal(tick.history, tick.now, tick.mid.value, cfg.dipThreshold, cfg.lookback).Some?
  {
    hide DipSignal;
    DipSignalled(tick.history, tick.now, tick.mid.value, cfg.dipThreshold, cfg.lookback);
    if Dipped(cfg, tick) {
      var i :| 0 <= i < |tick.history| && tick.now - cfg.lookback <= tick.history[i].0 < tick.now
        && tick.history[i].1 >= tick.mid.value + cfg.dipThreshold;
      assert InWindow(tick.history, i, tick.now, cfg.lookback);
    }
  }

  /** The entry test alone: an acceptable quote, and a dip worth this size. */
  ghost predicate Worth(cfg: Config, account: Account, tick: Tick, askQty: Option<real>, size: real)
    requires ValidPrecision(cfg.precision)
  {
    && tick.mid.Some? && tick.bid.Some? && tick.ask.Some? && tick.ticker !in account.positions
    && |account.positions| < cfg.maxOpen && account.realized > -cfg.maxDailyLoss
    && cfg.minPrice <= tick.ask.value <= cfg.maxPrice && tick.ask.value <= tick.bid.value + cfg.maxSpread
    && askQty.Some? && 0.0 < size && IsSmaller(size, cfg.contractsPerTrade, askQty.value)
    && ProjectedScalpPnl(tick.ask.value, cfg.takeProfit, size, cfg.precision) > 0.0
    && Dipped(cfg, tick)
  }

  /** The entry test passes with exactly the sizes that are worth it. */
  lemma EntryMeans(cfg: Config, account: Account, tick: Tick, askQty: Option<real>, size: real)
    requires ValidConfig(cfg)
    ensures CheckEntry(cfg, account, tick, askQty) == Some(size) <==> Worth(cfg, account, tick, askQty, size)
  {
    hide ProjectedScalpPnl, DipSignal, Dipped;
    if tick.mid.Some? { DippedIsSignal(cfg, tick); }
  }

  // ---------- The entry decision ----------

  lemma FreeIsNone(pending: seq<Order>, ticker: string)
    ensures Free(pending, ticker) <==> PendingOf(pending, ticker).None?
  {
    hide GetPending, HasPending, Tickers;
    PendsIsTicker(pending, ticker);
    HasIsGet(pending, Some(ticker), None);
    TickersAre(pending, ticker);
  }

  /** With nothing of the ticker held or pending, the entry decision submits exactly what is signalled. */
  lemma EntryExactly(cfg: Config, eventOf: string -> Option<string>, d: Trader, tick: Tick, o: Order)
    requires ValidConfig(cfg) && Inv(cfg, eventOf, d) && d.halt.None?
    requires tick.ticker !in d.account.positions && Free(d.pending, tick.ticker)
    ensures PendingOf(EntryDecided(cfg, eventOf, d, tick).pending, tick.ticker) == Some(o)
       <==> Signalled(cfg, eventOf, d, tick, o)
  {
    FreeIsNone(d.pending, tick.ticker);
    HasIsGet(d.pending, Some(tick.ticker), None);
    ExposureIsTickers(cfg, eventOf, d);
    ConflictIsShared(eventOf, d, tick.ticker);
    var askQty := TopOfBook(tick.feed, tick.ticker).askQty;
    EntryMeans(cfg, d.account, tick, askQty, o.contracts);
    var size := CheckEntry(cfg, d.account, tick, askQty);
    hide CheckEntry, ProjectedScalpPnl, GetPending, HasPending, Dipped, Inv, Conflicts, SharesEvent, IsSmaller, Free;
    hide PendingCount, BuyTickers;
    if size.Some? {
      EntryMeans(cfg, d.account, tick, askQty, size.value);
      FoundInAppended(d.pending, NewOrder(cfg, tick.feed, tick.ticker, Buy, size.value, Other, tick.now, None),
                      tick.ticker);
    }
  }

  /** A held ticker is not entered. */
  lemma HeldNotEntered(cfg: Config, eventOf: string -> Option<string>, d: Trader, tick: Tick)
    requires ValidPrecision(cfg.precision) && (tick.ticker in d.account.positions || tick.bid.None?)
    ensures EntryDecided(cfg, eventOf, d, tick).pending == d.pending
  {
    hide EventBlocks, PendingCount, ProjectedScalpPnl;
  }

  /** Only the observed ticker can get an order, and only if it has none; an entry comes from the entry decision. */
  lemma DecidedSubmits(cfg: Config, eventOf: string -> Option<string>, d: Trader, tick: Tick, o: Order)
    requires ValidConfig(cfg) && Inv(cfg, eventOf, d) && Free(d.pending, tick.ticker) && o.side.Buy?
    ensures PendingOf(Decided(cfg, eventOf, d, tick).pending, tick.ticker) == Some(o)
       <==> Signalled(cfg, eventOf, d, tick, o)
  {
    assert Distinct(d.pending);
    FreeIsNone(d.pending, tick.ticker);
    HasIsGet(d.pending, Some(tick.ticker), Some(Buy));
    HasIsGet(d.pending, Some(tick.ticker), Some(Sell));
    SideOfOnly(d.pending, tick.ticker, Buy);
    SideOfOnly(d.pending, tick.ticker, Sell);
    var (positions, signal) := CheckExit(cfg, d.account.positions, tick.ticker, tick.bid, tick.now);
    var judged := WithPositions(d, positions);
    SignalNeedsPosition(cfg, d.account.positions, tick.ticker, tick.bid, tick.now);
    if tick.ticker in d.account.positions {
      hide Inv, EntryDecided, UpgradeExit, GetPending, HasPending, Distinct, Signalled, ExitSignal, WithPeak;
      assert !Signalled(cfg, eventOf, d, tick, o) by { NotSignalled(cfg, eventOf, d, tick, o); }
      HeldNotEntered(cfg, eventOf, judged, tick);
      if signal.Some? { ExitGivesNoEntry(cfg, judged, tick, signal.value, tick.ticker); }
    } else {
      assert signal.None? && judged == d;
      hide Inv, EntryDecided, UpgradeExit, GetPending, HasPending, Distinct, Signalled, CheckExit;
      if d.halt.None? {
        EntryExactly(cfg, eventOf, d, tick, o);
      } else {
        assert !Signalled(cfg, eventOf, d, tick, o) by { NotSignalled(cfg, eventOf, d, tick, o); }
      }
    }
  }

  lemma NotSignalled(cfg: Config, eventOf: string -> Option<string>, d: Trader, tick: Tick, o: Order)
    requires ValidPrecision(cfg.precision) && (d.halt.Some? || tick.ticker in d.account.positions)
    ensures !Signalled(cfg, eventOf, d, tick, o)
  {
  }

  lemma ExitGivesNoEntry(cfg: Config, d: Trader, tick: Tick, reason: Reason, ticker: string)
    requires tick.ticker in d.account.positions && Distinct(d.pending) && PendingOf(d.pending, ticker).None?
    ensures var o := PendingOf(ExitDecided(cfg, d, tick, reason).pending, ticker); o.Some? ==> o.value.side.Sell?
  {
    hide GetPending, HasPending, UpgradeExit, Distinct;
    UpgradeFinds(d.pending, tick.ticker, reason, ticker);
    var pos := d.account.positions[tick.ticker];
    FoundInAppended(d.pending, NewOrder(cfg, tick.feed, tick.ticker, Sell, pos.contracts, reason, tick.now,
                                        Some(Basis(pos.entryPrice, pos.contracts, pos.entryFee))), ticker);
  }

  /** Other tickers keep their orders, holdings and peaks. */
  lemma OthersDecided(cfg: Config, eventOf: string -> Option<string>, d: Trader, tick: Tick, other: string)
    requires ValidConfig(cfg) && Distinct(d.pending) && other != tick.ticker
    ensures var r := Decided(cfg, eventOf, d, tick);
      && PendingOf(r.pending, other) == PendingOf(d.pending, other)
      && (other in r.account.positions <==> other in d.account.positions)
      && (other in d.account.positions ==> r.account.positions[other] == d.account.positions[other])
  {
    var (positions, signal) := CheckExit(cfg, d.account.positions, tick.ticker, tick.bid, tick.now);
    var judged := WithPositions(d, positions);
    SignalNeedsPosition(cfg, d.account.positions, tick.ticker, tick.bid, tick.now);
    hide GetPending, HasPending, UpgradeExit, Distinct, CheckEntry, EventBlocks, PendingCount, ExitSignal, WithPeak;
    if signal.Some? {
      var pos := positions[tick.ticker];
      UpgradeFinds(d.pending, tick.ticker, signal.value, other);
      FoundInAppended(d.pending, NewOrder(cfg, tick.feed, tick.ticker, Sell, pos.contracts, signal.value, tick.now,
                                          Some(Basis(pos.entryPrice, pos.contracts, pos.entryFee))), other);
    } else {
      var size := CheckEntry(cfg, judged.account, tick, TopOfBook(tick.feed, tick.ticker).askQty);
      if size.Some? {
        var entry := NewOrder(cfg, tick.feed, tick.ticker, Buy, size.value, Other, tick.now, None);
        FoundInAppended(d.pending, entry, other);
      }
    }
  }

  // ---------- Entries before the decision ----------

  /** An entry that is pending when the observation decides was pending before it. */
  lemma EntriesOnlyStay(cfg: Config, eventOf: string -> Option<string>, trader: Trader, tick: Tick, ticker: string)
    requires ValidConfig(cfg) && Inv(cfg, eventOf, trader)
    requires var o := PendingOf(Deciding(cfg, eventOf, trader, tick).pending, ticker); o.Some? && o.value.side.Buy?
    ensures PendingOf(Deciding(cfg, eventOf, trader, tick).pending, ticker) == PendingOf(trader.pending, ticker)
  {
    if Fresh(tick) {
      var seen := Observed(trader, tick);
      var judged := ExitRejudged(cfg, seen, tick);
      ExitRejudgedKeeps(cfg, eventOf, seen, tick);
      RejudgedKeeps(cfg, eventOf, seen, tick);
      var ready := Rejudged(cfg, eventOf, seen, tick);
      assert Distinct(judged.pending) && Distinct(ready.pending) && Positive(ready.account.positions);
      hide GetPending, Distinct, ExitRejudged, EntryRejudged, DueFilled, Inv, LossCheck;
      FilledStay(cfg, ready, tick, ticker);
      RejudgedStay(cfg, eventOf, judged, tick, ticker);
      JudgedStay(cfg, seen, tick, ticker);
    }
  }

  lemma FilledStay(cfg: Config, trader: Trader, tick: Tick, ticker: string)
    requires ValidConfig(cfg) && Distinct(trader.pending) && Positive(trader.account.positions)
    ensures var o := PendingOf(DueFilled(cfg, trader, tick).pending, ticker);
      o.Some? ==> o == PendingOf(trader.pending, ticker)
  {
    hide GetPending, HasPending, Distinct, RecordAll, Attempts, Remaining, Attempted;
    if ticker != tick.ticker {
      OthersRemain(trader.pending, tick.quoteTs, tick.ticker, ticker);
    } else if DueOrder(trader, tick).None? {
      NotYetDue(cfg, tick.feed, trader.pending, tick.quoteTs, ticker);
    } else {
      OneDue(cfg, tick.feed, trader.pending, tick.quoteTs, ticker);
      OrderTicker(trader.pending, ticker);
      HasIsGet(Remaining(trader.pending, tick.quoteTs, Some(ticker)), Some(ticker), None);
    }
  }

  lemma RejudgedStay(cfg: Config, eventOf: string -> Option<string>, trader: Trader, tick: Tick, ticker: string)
    requires ValidConfig(cfg) && Fresh(tick) && Distinct(trader.pending)
    ensures var o := PendingOf(EntryRejudged(cfg, eventOf, trader, tick).pending, ticker);
      o.Some? ==> o == PendingOf(trader.pending, ticker)
  {
    hide GetPending, HasPending, Distinct, CancelPending, ArrivalBlocked, LossCheck;
    if ticker != tick.ticker {
      OthersStay(trader.pending, tick.ticker, Buy, ticker);
    } else if GetPending(trader.pending, Some(ticker), Some(Buy)).Some? {
      OneCanceled(trader.pending, ticker, Buy);
      OrderTicker(trader.pending, ticker);
      HasIsGet(CancelPending(trader.pending, Some(ticker), Some(Buy)), Some(ticker), None);
    }
  }

  lemma JudgedStay(cfg: Config, trader: Trader, tick: Tick, ticker: string)
    requires Distinct(trader.pending)
    ensures var o := PendingOf(ExitRejudged(cfg, trader, tick).pending, ticker);
      o.Some? && o.value.side.Buy? ==> o == PendingOf(trader.pending, ticker)
  {
    hide GetPending, Distinct, UpgradeExit, CheckExit;
    var (_, signal) := CheckExit(cfg, trader.account.positions, tick.ticker, tick.bid, tick.quoteTs);
    if signal.Some? { UpgradeFinds(trader.pending, tick.ticker, signal.value, ticker); }
  }

  /** An entry that was not pending before an observation is one that the observation had every reason to submit. */
  lemma SubmissionsAreSignalled(cfg: Config, eventOf: string -> Option<string>, trader: Trader, tick: Tick,
                                ticker: string)
    requires ValidConfig(cfg) && Inv(cfg, eventOf, trader)
    requires var o := PendingOf(ProcessTick(cfg, eventOf, trader, tick).pending, ticker);
      o.Some? && o.value.side.Buy? && o != PendingOf(trader.pending, ticker)
    ensures ticker == tick.ticker
    ensures Signalled(cfg, eventOf, Deciding(cfg, eventOf, trader, tick), tick,
                      PendingOf(ProcessTick(cfg, eventOf, trader, tick).pending, ticker).value)
  {
    TickKeeps(cfg, eventOf, trader, tick);
    var d := Deciding(cfg, eventOf, trader, tick);
    assert Inv(cfg, eventOf, d) && Distinct(d.pending);
    assert ProcessTick(cfg, eventOf, trader, tick) == Decided(cfg, eventOf, d, tick);
    hide Inv, Deciding, Decided, GetPending, Distinct, Signalled, ProcessTick;
    var o := PendingOf(Decided(cfg, eventOf, d, tick).pending, ticker).value;
    if ticker != tick.ticker { OthersDecided(cfg, eventOf, d, tick, ticker); }
    if PendingOf(d.pending, ticker).None? {
      FreeIsNone(d.pending, ticker);
      DecidedSubmits(cfg, eventOf, d, tick, o);
    } else {
      DecidedRaises(cfg, eventOf, d, tick, ticker);
      EntriesOnlyStay(cfg, eventOf, trader, tick, ticker);
    }
  }

  /** And an entry that is signalled is submitted, whole. */
  lemma SignalledIsSubmitted(cfg: Config, eventOf: string -> Option<string>, trader: Trader, tick: Tick, o: Order)
    requires ValidConfig(cfg) && Inv(cfg, eventOf, trader)
    requires Signalled(cfg, eventOf, Deciding(cfg, eventOf, trader, tick), tick, o)
    ensures PendingOf(ProcessTick(cfg, eventOf, trader, tick).pending, tick.ticker) == Some(o)
  {
    TickKeeps(cfg, eventOf, trader, tick);
    var d := Deciding(cfg, eventOf, trader, tick);
    assert Inv(cfg, eventOf, d) && Free(d.pending, tick.ticker) && o.side.Buy?;
    assert ProcessTick(cfg, eventOf, trader, tick) == Decided(cfg, eventOf, d, tick);
    hide Inv, Deciding, Decided, GetPending, Free, Signalled, ProcessTick;
    DecidedSubmits(cfg, eventOf, d, tick, o);
  }
}
