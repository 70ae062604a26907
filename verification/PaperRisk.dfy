/** When the paper cycle may add exposure, and that a halt ends it for good. */
module PaperRisk {
  import opened Common
  import opened Fees
  import opened PaperTrading
  import opened PendingOrders
  import opened PaperSafety
  import opened PaperCash

  /** What must hold at arrival for an entry of `o` to fill. */
  ghost predicate Admitted(cfg: Config, eventOf: string -> Option<string>, trader: Trader, tick: Tick, o: Order)
    requires ValidPrecision(cfg.precision)
  {
    && Fresh(tick) && o.ticker == tick.ticker && o.side.Buy?
    // within the arrival window
    && o.dueAt <= tick.quoteTs <= o.dueAt + cfg.fillTimeout
    // not halted, and not breached at the arrival check
    && trader.halt.None? && !Stale(cfg, trader, tick.arrivalClock) && !LossBreached(cfg, trader, tick.feed)
    && cfg.minPrice <= tick.ask.value <= cfg.maxPrice && tick.ask.value - tick.bid.value <= cfg.maxSpread
    && tick.closeAllowed && !tick.gateBlocks && !tick.siblingBlocks
    && !EventBlocks(cfg, eventOf, trader, tick.ticker)
  }

  /** A fill of the entry at the book's ask: no dearer than its limit, at most its size, and worth it after fees. */
  ghost predicate Worthwhile(cfg: Config, feed: Feed, o: Order, fill: Fill)
    requires ValidPrecision(cfg.precision)
  {
    && TopOfBook(feed, o.ticker).ask == Some(fill.price) && (o.limit.Some? ==> fill.price <= o.limit.value)
    && 0.0 < fill.filled == Min(o.contracts, OrZero(TopOfBook(feed, o.ticker).askQty))
    && fill.fee == NetFee(fill.price, fill.filled, 1.0, Buy, cfg.precision)
    && ProjectedScalpPnl(fill.price, cfg.takeProfit, fill.filled, cfg.precision) > 0.0
  }

  lemma EntryFillIsWorthwhile(cfg: Config, feed: Feed, o: Order)
    requires ValidPrecision(cfg.precision) && o.side.Buy? && PaperFill(cfg, feed, o).Some?
    ensures Worthwhile(cfg, feed, o, PaperFill(cfg, feed, o).value)
  {
    hide NetFee, ProjectedScalpPnl;
  }

  /** The state in which an observation judges its due entry. */
  ghost function Seen(cfg: Config, trader: Trader, tick: Tick): Trader {
    ExitRejudged(cfg, Observed(trader, tick), tick)
  }

  // ---------- New positions ----------

  /** The position one fill opens. */
  function Opened(fill: Fill, now: real): Position { Position(fill.price, fill.filled, now, fill.fee, None) }

  lemma AttemptOpens(cfg: Config, eventOf: string -> Option<string>, trader: Trader, tick: Tick, ticker: string)
    requires ValidConfig(cfg) && Inv(cfg, eventOf, trader)
    requires ticker !in trader.account.positions && ticker in DueFilled(cfg, trader, tick).account.positions
    ensures DueOrder(trader, tick).Some?
    ensures var o := DueOrder(trader, tick).value;
      && o.ticker == ticker == tick.ticker && o.side.Buy? && Attempted(cfg, tick.feed, o, tick.quoteTs).fill.Some?
      && PaperFill(cfg, tick.feed, o).Some?
      && DueFilled(cfg, trader, tick).account.positions[ticker] == Opened(PaperFill(cfg, tick.feed, o).value, tick.now)
  {
    hide DueFilled, Attempted, OneEvent, Distinct, OrdersHold, Without, GetPending, PaperFill;
    DueFilledIs(cfg, trader, tick);
    var o := DueOrder(trader, tick).value;
    AttemptOf(cfg, tick.feed, o, tick.quoteTs);
  }

  /** A due entry still pending after it was judged was not blocked. */
  lemma NotBlocked(cfg: Config, eventOf: string -> Option<string>, trader: Trader, tick: Tick)
    requires ValidConfig(cfg) && Inv(cfg, eventOf, trader) && Fresh(tick)
    requires var o := DueOrder(EntryRejudged(cfg, eventOf, trader, tick), tick); o.Some? && o.value.side.Buy?
    ensures DueOrder(trader, tick) == DueOrder(EntryRejudged(cfg, eventOf, trader, tick), tick)
    ensures trader.halt.None? && !Stale(cfg, trader, tick.arrivalClock) && !LossBreached(cfg, trader, tick.feed)
    ensures !ArrivalBlocked(cfg, eventOf, trader, tick)
  {
    hide OneEvent, OrdersHold, Distinct, Stale, LossBreached, SharesEvent, GetPending, HasPending, CancelPending;
    var entry := GetPending(trader.pending, Some(tick.ticker), Some(Buy));
    SideOfOnly(trader.pending, tick.ticker, Buy);
    if entry.Some? {
      OneCanceled(trader.pending, tick.ticker, Buy);
      OrderTicker(trader.pending, tick.ticker);
      HasIsGet(CancelPending(trader.pending, Some(tick.ticker), Some(Buy)), Some(tick.ticker), None);
    }
  }

  lemma SeenKeeps(cfg: Config, eventOf: string -> Option<string>, trader: Trader, tick: Tick)
    requires ValidConfig(cfg) && Inv(cfg, eventOf, trader) && Fresh(tick)
    ensures Inv(cfg, eventOf, Seen(cfg, trader, tick))
    ensures Inv(cfg, eventOf, Rejudged(cfg, eventOf, Observed(trader, tick), tick))
    ensures Seen(cfg, trader, tick).account.positions.Keys == trader.account.positions.Keys
    ensures Seen(cfg, trader, tick).halt == trader.halt
  {
    hide Rejudged, OneEvent, Distinct, OrdersHold, GetPending, UpgradeExit;
    RejudgedKeeps(cfg, eventOf, Observed(trader, tick), tick);
    ExitRejudgedKeeps(cfg, eventOf, Observed(trader, tick), tick);
    PeakMoves(cfg, trader.account.positions, tick.ticker, tick.bid, tick.quoteTs);
  }

  /** A position opens only by filling, at the ask and worthwhile, an entry that every arrival check admits. */
  lemma OpeningsAreAdmitted(cfg: Config, eventOf: string -> Option<string>, trader: Trader, tick: Tick, ticker: string)
    requires ValidConfig(cfg) && Inv(cfg, eventOf, trader)
    requires ticker !in trader.account.positions
    requires ticker in ProcessTick(cfg, eventOf, trader, tick).account.positions
    ensures ticker == tick.ticker
    ensures Fresh(tick) && DueOrder(Seen(cfg, trader, tick), tick).Some?
    ensures var o := DueOrder(Seen(cfg, trader, tick), tick).value;
      && Admitted(cfg, eventOf, Seen(cfg, trader, tick), tick, o)
      && PaperFill(cfg, tick.feed, o).Some? && Worthwhile(cfg, tick.feed, o, PaperFill(cfg, tick.feed, o).value)
      && SameHolding(Opened(PaperFill(cfg, tick.feed, o).value, tick.now),
                     ProcessTick(cfg, eventOf, trader, tick).account.positions[ticker])
  {
    hide Rejudged, DueFilled, Decided, LossCheck, Attempted, Inv, DueOrder, ExitRejudged, EntryRejudged;
    hide Stale, LossBreached, PaperFill, EventBlocks, Opened, SameHolding, Worthwhile;
    assert Positive(trader.account.positions) by { Sound(cfg, eventOf, trader); }
    var arrived := Arrived(cfg, eventOf, trader, tick);
    DecidedHoldings(cfg, eventOf, LossCheck(cfg, arrived, tick.feed, tick.clock), tick);
    assert ticker in arrived.account.positions;
    assert Fresh(tick);
    SeenKeeps(cfg, eventOf, trader, tick);
    var r := Rejudged(cfg, eventOf, Observed(trader, tick), tick);
    assert r == EntryRejudged(cfg, eventOf, Seen(cfg, trader, tick), tick) by {
      RejudgedIs(cfg, eventOf, trader, tick);
    }
    AttemptOpens(cfg, eventOf, r, tick, ticker);
    NotBlocked(cfg, eventOf, Seen(cfg, trader, tick), tick);
    AttemptOf(cfg, tick.feed, DueOrder(r, tick).value, tick.quoteTs);
    EntryFillIsWorthwhile(cfg, tick.feed, DueOrder(r, tick).value);
    DueIsDue(r, tick);
  }

  lemma Sound(cfg: Config, eventOf: string -> Option<string>, trader: Trader)
    requires Inv(cfg, eventOf, trader)
    ensures Positive(trader.account.positions)
  {
  }

  lemma RejudgedIs(cfg: Config, eventOf: string -> Option<string>, trader: Trader, tick: Tick)
    requires ValidConfig(cfg) && Fresh(tick)
    ensures Rejudged(cfg, eventOf, Observed(trader, tick), tick)
         == EntryRejudged(cfg, eventOf, Seen(cfg, trader, tick), tick)
  {
    hide ExitRejudged, EntryRejudged;
  }

  lemma DueIsDue(trader: Trader, tick: Tick)
    requires DueOrder(trader, tick).Some?
    ensures DueOrder(trader, tick).value.dueAt <= tick.quoteTs
  {
  }

  // ---------- After a halt ----------

  /** Nothing is held or pending that was not before, and the halt stays. */
  ghost predicate Winding(before: Trader, after: Trader) {
    && after.halt == before.halt
    && after.account.positions.Keys <= before.account.positions.Keys
    && Tickers(after.pending) <= Tickers(before.pending)
  }

  lemma SeenWinds(cfg: Config, eventOf: string -> Option<string>, trader: Trader, tick: Tick)
    requires ValidConfig(cfg) && Inv(cfg, eventOf, trader) && Fresh(tick)
    ensures Winding(trader, Seen(cfg, trader, tick))
  {
    hide Distinct, OrdersHold, OneEvent, GetPending, UpgradeExit, CheckExit;
    PeakMoves(cfg, trader.account.positions, tick.ticker, tick.bid, tick.quoteTs);
    forall reason: Reason ensures Tickers(UpgradeExit(trader.pending, tick.ticker, reason)) == Tickers(trader.pending) {
      UpgradeRetags(trader.pending, tick.ticker, reason);
    }
  }

  lemma EntryWinds(cfg: Config, eventOf: string -> Option<string>, trader: Trader, tick: Tick)
    requires ValidConfig(cfg) && Inv(cfg, eventOf, trader) && Fresh(tick) && trader.halt.Some?
    ensures Winding(trader, EntryRejudged(cfg, eventOf, trader, tick))
  {
    hide Distinct, OrdersHold, OneEvent, GetPending, CancelPending, HasPending, EventBlocks, Stale, LossBreached;
    if GetPending(trader.pending, Some(tick.ticker), Some(Buy)).Some? {
      OneCanceled(trader.pending, tick.ticker, Buy);
    }
  }

  lemma DueWinds(cfg: Config, eventOf: string -> Option<string>, trader: Trader, tick: Tick)
    requires ValidConfig(cfg) && Inv(cfg, eventOf, trader)
    requires var o := DueOrder(trader, tick); o.Some? ==> o.value.side.Sell?
    ensures Winding(trader, DueFilled(cfg, trader, tick))
  {
    hide DueFilled, Attempted, OneEvent, Distinct, OrdersHold, GetPending, RecordFill;
    DueFilledIs(cfg, trader, tick);
    if DueOrder(trader, tick).Some? {
      var o := DueOrder(trader, tick).value;
      AttemptOf(cfg, tick.feed, o, tick.quoteTs);
      var a := Attempted(cfg, tick.feed, o, tick.quoteTs);
      if a.fill.Some? { FillMoves(trader.account, o.ticker, Sell, a.fill.value, tick.now); }
    }
  }

  /** A halted trader only winds down. */
  lemma HaltedWinds(cfg: Config, eventOf: string -> Option<string>, trader: Trader, tick: Tick)
    requires ValidConfig(cfg) && Inv(cfg, eventOf, trader) && trader.halt.Some?
    ensures Winding(trader, ProcessTick(cfg, eventOf, trader, tick))
  {
    Sound(cfg, eventOf, trader);
    hide Rejudged, DueFilled, Inv, DueOrder, ExitRejudged, EntryRejudged;
    hide Tickers, HasPending, CheckExit, ExitDecided, EntryDecided, Stale, LossBreached;
    if Fresh(tick) {
      SeenKeeps(cfg, eventOf, trader, tick);
      SeenWinds(cfg, eventOf, trader, tick);
      var seen := Seen(cfg, trader, tick);
      RejudgedIs(cfg, eventOf, trader, tick);
      EntryWinds(cfg, eventOf, seen, tick);
      var r := Rejudged(cfg, eventOf, Observed(trader, tick), tick);
      if DueOrder(r, tick).Some? && DueOrder(r, tick).value.side.Buy? {
        NotBlocked(cfg, eventOf, seen, tick);
      }
      DueWinds(cfg, eventOf, r, tick);
    }
  }

  /** In every run: once halted, halted for the same reason ever after, with no exposure added. */
  lemma {:induction false} HaltIsFinal(cfg: Config, eventOf: string -> Option<string>, ticks: seq<Tick>, i: nat)
    requires ValidConfig(cfg) && i <= |ticks| && Run(cfg, eventOf, ticks[..i]).halt.Some?
    ensures Winding(Run(cfg, eventOf, ticks[..i]), Run(cfg, eventOf, ticks))
  {
    hide ProcessTick, Inv;
    if i == |ticks| {
      assert ticks[..i] == ticks;
    } else {
      var before := ticks[..|ticks| - 1];
      assert before[..i] == ticks[..i];
      HaltIsFinal(cfg, eventOf, before, i);
      HaltedWinds(cfg, eventOf, Run(cfg, eventOf, before), ticks[|ticks| - 1]);
    }
  }

  // ---------- What a dip is ----------

  /** The history's mid at `i` is in the look-back window. */
  predicate InWindow(history: seq<(real, real)>, i: nat, now: real, lookback: real)
    requires i < |history|
  {
    0.0 < now - history[i].0 <= lookback
  }

  lemma {:induction false} WindowMaxIsGreatest(history: seq<(real, real)>, now: real, lookback: real)
    ensures var high := WindowMax(history, now, lookback);
      && (high.Some? <==> exists i :: 0 <= i < |history| && InWindow(history, i, now, lookback))
      && (high.Some? ==> exists i ::
            0 <= i < |history| && InWindow(history, i, now, lookback) && history[i].1 == high.value)
      && (high.Some? ==> forall i ::
            0 <= i < |history| && InWindow(history, i, now, lookback) ==> history[i].1 <= high.value)
  {
    if history != [] {
      var n := |history| - 1;
      var earlier := history[..n];
      WindowMaxIsGreatest(earlier, now, lookback);
      assert forall i :: 0 <= i < n ==>
        earlier[i] == history[i] && InWindow(earlier, i, now, lookback) == InWindow(history, i, now, lookback);
      assert InWindow(history, n, now, lookback) == (0.0 < now - history[n].0 <= lookback);
    }
  }

  /** A dip is signalled exactly when some mid of the window is at least the threshold above the current one. */
  lemma DipSignalled(history: seq<(real, real)>, now: real, mid: real, threshold: real, lookback: real)
    ensures DipSignal(history, now, mid, threshold, lookback).Some?
       <==> exists i :: 0 <= i < |history| && InWindow(history, i, now, lookback) && history[i].1 - mid >= threshold
  {
    hide WindowMax;
    WindowMaxIsGreatest(history, now, lookback);
  }
}
