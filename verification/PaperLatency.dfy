/** Delayed orders: none is refreshed, resized or dropped before its due observation, and none outlives it. */
module PaperLatency {
  import opened Common
  import opened Fees
  import opened PaperTrading
  import opened PendingOrders
  import opened PaperSafety

  // ---------- Another ticker's order, or one not yet due, stays where it is ----------

  lemma {:induction false} OthersRemain(pending: seq<Order>, now: real, ticker: string, other: string)
    requires other != ticker
    ensures PendingOf(Remaining(pending, now, Some(ticker)), other) == PendingOf(pending, other)
  {
    if pending != [] {
      OthersRemain(pending[1..], now, ticker, other);
      var tail := Remaining(pending[1..], now, Some(ticker));
      assert ([] + tail) == tail && ([pending[0]] + tail)[1..] == tail;
    }
  }

  lemma {:induction false} OthersStay(pending: seq<Order>, ticker: string, side: Side, other: string)
    requires other != ticker
    ensures PendingOf(CancelPending(pending, Some(ticker), Some(side)), other) == PendingOf(pending, other)
  {
    if pending != [] {
      OthersStay(pending[1..], ticker, side, other);
      var tail := CancelPending(pending[1..], Some(ticker), Some(side));
      assert ([] + tail) == tail && ([pending[0]] + tail)[1..] == tail;
    }
  }

  lemma {:induction false} FoundInAppended(pending: seq<Order>, o: Order, ticker: string)
    ensures PendingOf(pending + [o], ticker)
         == if PendingOf(pending, ticker).Some? then PendingOf(pending, ticker)
            else if o.ticker == ticker then Some(o) else None
  {
    var all := pending + [o];
    if pending == [] {
      assert all == [o] && all[1..] == [];
    } else {
      assert all[1..] == pending[1..] + [o];
      FoundInAppended(pending[1..], o, ticker);
    }
  }

  /** The same order, at most raised to a more urgent reason. */
  ghost predicate Raised(o: Order, later: Option<Order>) {
    && later.Some?
    && later.value.(reason := o.reason, limit := o.limit) == o
    && (later.value == o || (o.side.Sell? && Priority(later.value.reason) > Priority(o.reason)))
  }

  // ---------- The phases of an observation ----------

  lemma SeenRaises(cfg: Config, trader: Trader, tick: Tick, ticker: string)
    requires Distinct(trader.pending) && PendingOf(trader.pending, ticker).Some?
    ensures Raised(PendingOf(trader.pending, ticker).value, PendingOf(ExitRejudged(cfg, trader, tick).pending, ticker))
  {
    hide Distinct, GetPending, UpgradeExit, CheckExit;
    var (_, signal) := CheckExit(cfg, trader.account.positions, tick.ticker, tick.bid, tick.quoteTs);
    SideOfOnly(trader.pending, tick.ticker, Sell);
    if signal.Some? { UpgradeFinds(trader.pending, tick.ticker, signal.value, ticker); }
  }

  /** The ticker is not the observed one, or its order is not yet due. */
  ghost predicate Waiting(trader: Trader, tick: Tick, ticker: string) {
    && PendingOf(trader.pending, ticker).Some?
    && (ticker != tick.ticker || PendingOf(trader.pending, ticker).value.dueAt > tick.quoteTs)
  }

  lemma EntryWaits(cfg: Config, eventOf: string -> Option<string>, trader: Trader, tick: Tick, ticker: string)
    requires ValidPrecision(cfg.precision) && Fresh(tick) && Distinct(trader.pending) && Waiting(trader, tick, ticker)
    ensures PendingOf(EntryRejudged(cfg, eventOf, trader, tick).pending, ticker) == PendingOf(trader.pending, ticker)
  {
    hide Distinct, GetPending, CancelPending, ArrivalBlocked, LossCheck;
    SideOfOnly(trader.pending, tick.ticker, Buy);
    if ticker != tick.ticker { OthersStay(trader.pending, tick.ticker, Buy, ticker); }
  }

  lemma DueWaits(cfg: Config, trader: Trader, tick: Tick, ticker: string)
    requires ValidPrecision(cfg.precision) && Positive(trader.account.positions)
    requires Distinct(trader.pending) && Waiting(trader, tick, ticker)
    ensures PendingOf(DueFilled(cfg, trader, tick).pending, ticker) == PendingOf(trader.pending, ticker)
  {
    hide Distinct, GetPending, RecordAll, PaperFill, Attempts, Remaining;
    if ticker != tick.ticker {
      OthersRemain(trader.pending, tick.quoteTs, tick.ticker, ticker);
    } else {
      NotYetDue(cfg, tick.feed, trader.pending, tick.quoteTs, ticker);
    }
  }

  lemma SubmitFinds(cfg: Config, feed: Feed, pending: seq<Order>, o: Order, ticker: string)
    requires PendingOf(pending, ticker).Some?
    ensures PendingOf(pending + [o], ticker) == PendingOf(pending, ticker)
  {
    FoundInAppended(pending, o, ticker);
  }

  lemma ExitDecidedRaises(cfg: Config, trader: Trader, tick: Tick, reason: Reason, ticker: string)
    requires Distinct(trader.pending) && PendingOf(trader.pending, ticker).Some?
          && tick.ticker in trader.account.positions
    ensures Raised(PendingOf(trader.pending, ticker).value,
                   PendingOf(ExitDecided(cfg, trader, tick, reason).pending, ticker))
  {
    hide Distinct, GetPending, UpgradeExit, HasPending;
    SideOfOnly(trader.pending, tick.ticker, Sell);
    UpgradeFinds(trader.pending, tick.ticker, reason, ticker);
    var pos := trader.account.positions[tick.ticker];
    SubmitFinds(cfg, tick.feed, trader.pending,
                NewOrder(cfg, tick.feed, tick.ticker, Sell, pos.contracts, reason, tick.now,
                         Some(Basis(pos.entryPrice, pos.contracts, pos.entryFee))), ticker);
  }

  lemma EntryDecidedKeepsOrder(cfg: Config, eventOf: string -> Option<string>, trader: Trader, tick: Tick,
                               ticker: string)
    requires ValidPrecision(cfg.precision) && PendingOf(trader.pending, ticker).Some?
    ensures PendingOf(EntryDecided(cfg, eventOf, trader, tick).pending, ticker) == PendingOf(trader.pending, ticker)
  {
    hide GetPending, HasPending, CheckEntry, EventBlocks, PendingCount;
    var size := CheckEntry(cfg, trader.account, tick, TopOfBook(tick.feed, tick.ticker).askQty);
    if size.Some? {
      SubmitFinds(cfg, tick.feed, trader.pending,
                  NewOrder(cfg, tick.feed, tick.ticker, Buy, size.value, Other, tick.now, None), ticker);
    }
  }

  lemma DecidedRaises(cfg: Config, eventOf: string -> Option<string>, trader: Trader, tick: Tick, ticker: string)
    requires ValidPrecision(cfg.precision) && Distinct(trader.pending) && PendingOf(trader.pending, ticker).Some?
    ensures Raised(PendingOf(trader.pending, ticker).value,
                   PendingOf(Decided(cfg, eventOf, trader, tick).pending, ticker))
  {
    hide GetPending, HasPending, ExitDecided, EntryDecided, CheckExit, Distinct;
    var (positions, signal) := CheckExit(cfg, trader.account.positions, tick.ticker, tick.bid, tick.now);
    var judged := WithPositions(trader, positions);
    SignalNeedsPosition(cfg, trader.account.positions, tick.ticker, tick.bid, tick.now);
    if signal.Some? {
      ExitDecidedRaises(cfg, judged, tick, signal.value, ticker);
    } else {
      EntryDecidedKeepsOrder(cfg, eventOf, judged, tick, ticker);
    }
  }

  // ---------- Before and after the due observation ----------

  /**
    An observation that is no fresh quote of the ticker at or after the due time keeps the order's size, basis
    and due time.
  */
  lemma OrderWaits(cfg: Config, eventOf: string -> Option<string>, trader: Trader, tick: Tick, ticker: string)
    requires ValidConfig(cfg) && Inv(cfg, eventOf, trader) && PendingOf(trader.pending, ticker).Some?
    requires Fresh(tick) ==> Waiting(trader, tick, ticker)
    ensures Raised(PendingOf(trader.pending, ticker).value,
                   PendingOf(ProcessTick(cfg, eventOf, trader, tick).pending, ticker))
  {
    var o := PendingOf(trader.pending, ticker).value;
    TickKeeps(cfg, eventOf, trader, tick);
    assert Positive(trader.account.positions);
    var arrived := Arrived(cfg, eventOf, trader, tick);
    assert Distinct(arrived.pending);
    hide GetPending, Distinct, ExitRejudged, EntryRejudged, DueFilled, LossCheck, Decided, Inv;
    if Fresh(tick) { ArrivedRaises(cfg, eventOf, trader, tick, ticker); }
    assert Raised(o, PendingOf(arrived.pending, ticker));
    var checked := LossCheck(cfg, arrived, tick.feed, tick.clock);
    DecidedRaises(cfg, eventOf, checked, tick, ticker);
  }

  lemma ArrivedRaises(cfg: Config, eventOf: string -> Option<string>, trader: Trader, tick: Tick, ticker: string)
    requires ValidConfig(cfg) && Inv(cfg, eventOf, trader) && Fresh(tick) && Waiting(trader, tick, ticker)
    ensures Raised(PendingOf(trader.pending, ticker).value,
                   PendingOf(Arrived(cfg, eventOf, trader, tick).pending, ticker))
  {
    var seen := Observed(trader, tick);
    var judged := ExitRejudged(cfg, seen, tick);
    ExitRejudgedKeeps(cfg, eventOf, seen, tick);
    RejudgedKeeps(cfg, eventOf, seen, tick);
    assert Distinct(judged.pending) && Distinct(Rejudged(cfg, eventOf, seen, tick).pending);
    assert Positive(trader.account.positions);
    hide GetPending, Distinct, ExitRejudged, EntryRejudged, DueFilled, Inv;
    SeenRaises(cfg, seen, tick, ticker);
    EntryWaits(cfg, eventOf, judged, tick, ticker);
    DueWaits(cfg, Rejudged(cfg, eventOf, seen, tick), tick, ticker);
  }

  /**
    Is every observation from `i` up to `j` something else than a fresh quote of the ticker at or after the due time?
  */
  ghost predicate NoDueQuote(ticks: seq<Tick>, i: nat, j: nat, ticker: string, dueAt: real)
    requires j <= |ticks|
  {
    forall k :: i <= k < j && Fresh(ticks[k]) && ticks[k].ticker == ticker ==> ticks[k].quoteTs < dueAt
  }

  lemma RaisedAgain(o: Order, between: Order, later: Option<Order>)
    requires Raised(o, Some(between)) && Raised(between, later)
    ensures Raised(o, later)
  {
  }

  /**
    In every run an order waits, never dropped or resized, until a fresh quote of its ticker at or after its due time.
  */
  lemma {:induction false} OrdersWait(cfg: Config, eventOf: string -> Option<string>, ticks: seq<Tick>, i: nat, j: nat,
                                      ticker: string)
    requires ValidConfig(cfg) && i <= j <= |ticks|
    requires PendingOf(Run(cfg, eventOf, ticks[..i]).pending, ticker).Some?
    requires NoDueQuote(ticks, i, j, ticker, PendingOf(Run(cfg, eventOf, ticks[..i]).pending, ticker).value.dueAt)
    ensures Raised(PendingOf(Run(cfg, eventOf, ticks[..i]).pending, ticker).value,
                   PendingOf(Run(cfg, eventOf, ticks[..j]).pending, ticker))
    decreases j
  {
    hide GetPending, ProcessTick, Inv;
    if i < j {
      OrdersWait(cfg, eventOf, ticks, i, j - 1, ticker);
      var before := Run(cfg, eventOf, ticks[..j - 1]);
      var o := PendingOf(Run(cfg, eventOf, ticks[..i]).pending, ticker).value;
      assert ticks[..j][..j - 1] == ticks[..j - 1];
      OrderWaits(cfg, eventOf, before, ticks[j - 1], ticker);
      RaisedAgain(o, PendingOf(before.pending, ticker).value, PendingOf(Run(cfg, eventOf, ticks[..j]).pending, ticker));
    }
  }

  /** An order decided by this very observation. */
  ghost predicate JustSubmitted(cfg: Config, o: Option<Order>, tick: Tick) {
    o.None? || o.value.dueAt == tick.now + cfg.latency
  }

  lemma DecidedIsNew(cfg: Config, eventOf: string -> Option<string>, trader: Trader, tick: Tick)
    requires ValidPrecision(cfg.precision) && Distinct(trader.pending) && PendingOf(trader.pending, tick.ticker).None?
    ensures JustSubmitted(cfg, PendingOf(Decided(cfg, eventOf, trader, tick).pending, tick.ticker), tick)
  {
    hide GetPending, HasPending, CheckExit, CheckEntry, UpgradeExit, EventBlocks, Distinct, PendingCount;
    var (positions, signal) := CheckExit(cfg, trader.account.positions, tick.ticker, tick.bid, tick.now);
    var judged := WithPositions(trader, positions);
    SignalNeedsPosition(cfg, trader.account.positions, tick.ticker, tick.bid, tick.now);
    SideOfOnly(trader.pending, tick.ticker, Sell);
    if signal.Some? {
      var pos := positions[tick.ticker];
      FoundInAppended(trader.pending, NewOrder(cfg, tick.feed, tick.ticker, Sell, pos.contracts, signal.value, tick.now,
                                               Some(Basis(pos.entryPrice, pos.contracts, pos.entryFee))), tick.ticker);
    } else {
      var size := CheckEntry(cfg, judged.account, tick, TopOfBook(tick.feed, tick.ticker).askQty);
      if size.Some? {
        FoundInAppended(trader.pending, NewOrder(cfg, tick.feed, tick.ticker, Buy, size.value, Other, tick.now, None),
                        tick.ticker);
      }
    }
  }

  lemma NothingDueLeft(cfg: Config, eventOf: string -> Option<string>, trader: Trader, tick: Tick)
    requires ValidConfig(cfg) && Inv(cfg, eventOf, trader)
    requires PendingOf(trader.pending, tick.ticker).Some?
         ==> PendingOf(trader.pending, tick.ticker).value.dueAt <= tick.quoteTs
    ensures PendingOf(DueFilled(cfg, trader, tick).pending, tick.ticker).None?
  {
    hide GetPending, HasPending, DueFilled, OrdersHold, OneEvent, Distinct, AfterAttempt, Attempted;
    DueFilledIs(cfg, trader, tick);
    HasIsGet(DueFilled(cfg, trader, tick).pending, Some(tick.ticker), None);
  }

  /** Judging a due order leaves it due or cancels it. */
  lemma RejudgedStaysDue(cfg: Config, eventOf: string -> Option<string>, trader: Trader, tick: Tick)
    requires ValidConfig(cfg) && Inv(cfg, eventOf, trader) && Fresh(tick) && DueOrder(trader, tick).Some?
    ensures var o := PendingOf(Rejudged(cfg, eventOf, trader, tick).pending, tick.ticker);
      o.Some? ==> o.value.dueAt <= tick.quoteTs
  {
    ExitRejudgedKeeps(cfg, eventOf, trader, tick);
    var judged := ExitRejudged(cfg, trader, tick);
    assert Distinct(trader.pending) && Distinct(judged.pending);
    hide GetPending, HasPending, ExitRejudged, CancelPending, ArrivalBlocked, LossCheck, Distinct, Inv;
    SeenRaises(cfg, trader, tick, tick.ticker);
    if GetPending(judged.pending, Some(tick.ticker), Some(Buy)).Some? {
      OneCanceled(judged.pending, tick.ticker, Buy);
      OrderTicker(judged.pending, tick.ticker);
      HasIsGet(CancelPending(judged.pending, Some(tick.ticker), Some(Buy)), Some(tick.ticker), None);
    }
  }

  /** A due order is gone after a fresh quote of its ticker: filled, expired or canceled, never kept working. */
  lemma DueOrdersLeave(cfg: Config, eventOf: string -> Option<string>, trader: Trader, tick: Tick)
    requires ValidConfig(cfg) && Inv(cfg, eventOf, trader) && Fresh(tick) && DueOrder(trader, tick).Some?
    ensures JustSubmitted(cfg, PendingOf(ProcessTick(cfg, eventOf, trader, tick).pending, tick.ticker), tick)
  {
    var seen := Observed(trader, tick);
    TickKeeps(cfg, eventOf, trader, tick);
    RejudgedKeeps(cfg, eventOf, seen, tick);
    assert Positive(trader.account.positions);
    var arrived := Arrived(cfg, eventOf, trader, tick);
    assert Distinct(arrived.pending);
    hide GetPending, Distinct, Rejudged, DueFilled, LossCheck, Decided, Inv;
    RejudgedStaysDue(cfg, eventOf, seen, tick);
    NothingDueLeft(cfg, eventOf, Rejudged(cfg, eventOf, seen, tick), tick);
    DecidedIsNew(cfg, eventOf, LossCheck(cfg, arrived, tick.feed, tick.clock), tick);
  }

  // ---------- Exits that must come ----------

  /** The state in which an observation decides: after fills and the loss check. */
  ghost function Deciding(cfg: Config, eventOf: string -> Option<string>, trader: Trader, tick: Tick): Trader
    requires ValidPrecision(cfg.precision) && Positive(trader.account.positions)
  {
    LossCheck(cfg, Arrived(cfg, eventOf, trader, tick), tick.feed, tick.clock)
  }

  /** A working exit for all that is held, at least as urgent as `reason`. */
  ghost predicate Exiting(trader: Trader, ticker: string, reason: Reason) {
    var o := PendingOf(trader.pending, ticker);
    && o.Some? && o.value.side.Sell? && Priority(o.value.reason) >= Priority(reason)
    && ticker in trader.account.positions && o.value.contracts == trader.account.positions[ticker].contracts
  }

  lemma DecidedExits(cfg: Config, eventOf: string -> Option<string>, trader: Trader, tick: Tick, reason: Reason)
    requires ValidConfig(cfg) && Inv(cfg, eventOf, trader) && trader.halt.None?
    requires tick.ticker in trader.account.positions && tick.bid.Some?
    requires ExitSignal(cfg, trader.account.positions[tick.ticker], tick.bid.value, tick.now) == Some(reason)
    ensures var r := Decided(cfg, eventOf, trader, tick);
      var o := PendingOf(r.pending, tick.ticker);
      o.Some? && Priority(o.value.reason) >= Priority(reason) && tick.ticker in r.account.positions
  {
    assert Distinct(trader.pending);
    HeldIsNotBought(cfg, eventOf, trader, tick.ticker);
    SideOfOnly(trader.pending, tick.ticker, Buy);
    SideOfOnly(trader.pending, tick.ticker, Sell);
    HasIsGet(trader.pending, Some(tick.ticker), Some(Buy));
    HasIsGet(trader.pending, Some(tick.ticker), None);
    hide Inv, GetPending, HasPending, ExitSignal, UpgradeExit, Distinct, EntryDecided;
    UpgradeFinds(trader.pending, tick.ticker, reason, tick.ticker);
    var pos := WithPeak(trader.account.positions[tick.ticker], tick.bid.value);
    FoundInAppended(trader.pending, NewOrder(cfg, tick.feed, tick.ticker, Sell, pos.contracts, reason, tick.now,
                                             Some(Basis(pos.entryPrice, pos.contracts, pos.entryFee))), tick.ticker);
  }

  lemma HeldIsNotBought(cfg: Config, eventOf: string -> Option<string>, trader: Trader, ticker: string)
    requires Inv(cfg, eventOf, trader) && ticker in trader.account.positions
    ensures PendingOf(trader.pending, ticker).Some? ==> PendingOf(trader.pending, ticker).value.side.Sell?
  {
    hide GetPending, Distinct, OneEvent;
    if PendingOf(trader.pending, ticker).Some? { FoundHolds(trader.pending, trader.account.positions, ticker); }
  }

  /**
    Unless halted, an observation whose bid calls for an exit leaves one working, for all that is held and no
    less urgent.
  */
  lemma ExitsAreWorking(cfg: Config, eventOf: string -> Option<string>, trader: Trader, tick: Tick, reason: Reason)
    requires ValidConfig(cfg) && Inv(cfg, eventOf, trader) && tick.bid.Some?
    requires var d := Deciding(cfg, eventOf, trader, tick);
      && d.halt.None? && tick.ticker in d.account.positions
      && ExitSignal(cfg, d.account.positions[tick.ticker], tick.bid.value, tick.now) == Some(reason)
    ensures Exiting(ProcessTick(cfg, eventOf, trader, tick), tick.ticker, reason)
  {
    TickKeeps(cfg, eventOf, trader, tick);
    var d := Deciding(cfg, eventOf, trader, tick);
    assert Inv(cfg, eventOf, d);
    DecidedExits(cfg, eventOf, d, tick, reason);
    var after := ProcessTick(cfg, eventOf, trader, tick);
    hide ProcessTick, GetPending, Distinct, OneEvent;
    HeldIsNotBought(cfg, eventOf, after, tick.ticker);
    FoundHolds(after.pending, after.account.positions, tick.ticker);
  }

  /** The stop and the holding deadline bind: neither waits for the trailing take-profit. */
  lemma RiskExitsBind(cfg: Config, eventOf: string -> Option<string>, trader: Trader, tick: Tick)
    requires ValidConfig(cfg) && Inv(cfg, eventOf, trader) && tick.bid.Some?
    requires var d := Deciding(cfg, eventOf, trader, tick);
      d.halt.None? && tick.ticker in d.account.positions
    ensures var pos := Deciding(cfg, eventOf, trader, tick).account.positions[tick.ticker];
      var after := ProcessTick(cfg, eventOf, trader, tick);
      && (tick.bid.value - pos.entryPrice <= -cfg.stopLoss ==> Exiting(after, tick.ticker, StopLoss))
      && (tick.now - pos.openedAt >= cfg.maxHold ==> Exiting(after, tick.ticker, TimeExit))
  {
    var pos := Deciding(cfg, eventOf, trader, tick).account.positions[tick.ticker];
    hide Inv, Deciding, ProcessTick, GetPending;
    if tick.bid.value - pos.entryPrice <= -cfg.stopLoss {
      ExitsAreWorking(cfg, eventOf, trader, tick, StopLoss);
    } else if tick.now - pos.openedAt >= cfg.maxHold {
      ExitsAreWorking(cfg, eventOf, trader, tick, TimeExit);
    }
  }
}
