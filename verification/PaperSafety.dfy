/** What every run of observations keeps: the shape of pending orders, the exposure caps and the one-event rule. */
module PaperSafety {
  import opened Common
  import opened Fees
  import opened PaperTrading
  import opened PendingOrders

  /** No two exposed tickers are on one known event. */
  ghost predicate OneEvent(eventOf: string -> Option<string>, exposed: set<string>) {
    forall a, b :: a in exposed && b in exposed && a != b && eventOf(a).Some? ==> eventOf(a) != eventOf(b)
  }

  ghost predicate Inv(cfg: Config, eventOf: string -> Option<string>, trader: Trader) {
    && Positive(trader.account.positions)
    && Distinct(trader.pending)
    && OrdersHold(trader.pending, trader.account.positions)
    && Exposure(trader) <= cfg.maxOpen
    && (cfg.oneContractPerEvent ==> OneEvent(eventOf, Exposed(trader)))
  }

  /** Positions and pending entries together. */
  function Exposure(trader: Trader): nat { |trader.account.positions| + PendingCount(trader.pending, Some(Buy)) }

  const START := Trader(Account(map[], 0.0), [], map[], map[], map[], None)

  // ---------- Steps that add no exposure ----------

  lemma NoMoreExposure(cfg: Config, eventOf: string -> Option<string>, before: Trader, after: Trader)
    requires Inv(cfg, eventOf, before)
    requires Positive(after.account.positions) && Distinct(after.pending)
    requires OrdersHold(after.pending, after.account.positions)
    requires Exposure(after) <= Exposure(before) && Exposed(after) <= Exposed(before)
    ensures Inv(cfg, eventOf, after)
  {
  }

  lemma PeakMoves(cfg: Config, positions: map<string, Position>, ticker: string, bid: Option<real>, now: real)
    ensures var after := CheckExit(cfg, positions, ticker, bid, now).0;
            && SameHoldings(positions, after) && |after| == |positions|
  {
    var after := CheckExit(cfg, positions, ticker, bid, now).0;
    assert after.Keys == positions.Keys;
    assert |after.Keys| == |after| && |positions.Keys| == |positions|;
  }

  lemma PeakKeeps(cfg: Config, eventOf: string -> Option<string>, trader: Trader, ticker: string, bid: Option<real>,
                  now: real)
    requires Inv(cfg, eventOf, trader)
    ensures Inv(cfg, eventOf, WithPositions(trader, CheckExit(cfg, trader.account.positions, ticker, bid, now).0))
  {
    hide CheckExit, OneEvent, PendingCount, Tickers, Distinct;
    var after := CheckExit(cfg, trader.account.positions, ticker, bid, now).0;
    PeakMoves(cfg, trader.account.positions, ticker, bid, now);
    HoldSame(trader.pending, trader.account.positions, after);
  }

  lemma UpgradeKeeps(cfg: Config, eventOf: string -> Option<string>, trader: Trader, ticker: string, reason: Reason)
    requires Inv(cfg, eventOf, trader)
    ensures Inv(cfg, eventOf, trader.(pending := UpgradeExit(trader.pending, ticker, reason)))
  {
    hide OneEvent, PendingCount, Tickers, Distinct, OrdersHold, UpgradeExit;
    UpgradeRetags(trader.pending, ticker, reason);
  }

  lemma ExitRejudgedKeeps(cfg: Config, eventOf: string -> Option<string>, trader: Trader, tick: Tick)
    requires Inv(cfg, eventOf, trader)
    ensures Inv(cfg, eventOf, ExitRejudged(cfg, trader, tick))
  {
    hide Inv, CheckExit, UpgradeExit;
    PeakKeeps(cfg, eventOf, trader, tick.ticker, tick.bid, tick.quoteTs);
    var (positions, signal) := CheckExit(cfg, trader.account.positions, tick.ticker, tick.bid, tick.quoteTs);
    if signal.Some? {
      UpgradeKeeps(cfg, eventOf, WithPositions(trader, positions), tick.ticker, signal.value);
    }
  }

  lemma CancelKeeps(cfg: Config, eventOf: string -> Option<string>, trader: Trader, ticker: string)
    requires Inv(cfg, eventOf, trader)
    ensures Inv(cfg, eventOf, trader.(pending := CancelPending(trader.pending, Some(ticker), Some(Buy))))
  {
    hide OneEvent, PendingCount, Tickers, Distinct, OrdersHold, CancelPending, GetPending, HasPending;
    HasIsGet(trader.pending, Some(ticker), Some(Buy));
    if HasPending(trader.pending, Some(ticker), Some(Buy)) {
      OneCanceled(trader.pending, ticker, Buy);
      NoMoreExposure(cfg, eventOf, trader, trader.(pending := CancelPending(trader.pending, Some(ticker), Some(Buy))));
    } else {
      NothingCanceled(trader.pending, ticker, Buy);
    }
  }

  lemma EntryRejudgedKeeps(cfg: Config, eventOf: string -> Option<string>, trader: Trader, tick: Tick)
    requires Inv(cfg, eventOf, trader) && ValidPrecision(cfg.precision) && Fresh(tick)
    ensures Inv(cfg, eventOf, EntryRejudged(cfg, eventOf, trader, tick))
  {
    hide OneEvent, PendingCount, Tickers, Distinct, OrdersHold, CancelPending, GetPending, ArrivalBlocked, LossCheck;
    var checked := LossCheck(cfg, trader, tick.feed, tick.arrivalClock);
    CancelKeeps(cfg, eventOf, checked, tick.ticker);
  }

  // ---------- A due order meets the book ----------

  lemma Cardinality(positions: map<string, Position>, ticker: string, pos: Position)
    ensures |positions[ticker := pos]| == |positions| + (if ticker in positions then 0 else 1)
    ensures positions[ticker := pos].Keys == positions.Keys + {ticker}
    ensures |positions - {ticker}| <= |positions|
    ensures (positions - {ticker}).Keys <= positions.Keys
  {
    var more, less := positions[ticker := pos], positions - {ticker};
    assert more.Keys == positions.Keys + {ticker} && less.Keys == positions.Keys - {ticker};
    assert |more.Keys| == |more| && |positions.Keys| == |positions| && |less.Keys| == |less|;
  }

  lemma FillMoves(account: Account, ticker: string, side: Side, fill: Fill, now: real)
    requires Positive(account.positions) && (side.Buy? ==> ticker !in account.positions)
    ensures var after := RecordFill(account, ticker, side, fill, now).positions;
            && SameElsewhere(account.positions, after, ticker)
            && |after| <= |account.positions| + (if side.Buy? then 1 else 0)
            && after.Keys <= account.positions.Keys + (if side.Buy? then {ticker} else {})
  {
    var after := RecordFill(account, ticker, side, fill, now).positions;
    if ticker in after {
      Cardinality(account.positions, ticker, after[ticker]);
    } else if ticker in account.positions {
      Cardinality(account.positions, ticker, account.positions[ticker]);
    }
  }

  lemma AttemptOf(cfg: Config, feed: Feed, o: Order, now: real)
    requires ValidPrecision(cfg.precision)
    ensures Attempted(cfg, feed, o, now).order == o
    ensures Attempted(cfg, feed, o, now).fill.Some?
      ==> now <= o.dueAt + cfg.fillTimeout && PaperFill(cfg, feed, o) == Attempted(cfg, feed, o, now).fill
  {
    hide PaperFill;
  }

  function AfterAttempt(account: Account, a: Attempt, now: real): Account
    requires Positive(account.positions)
  {
    if a.fill.None? then account else RecordFill(account, a.order.ticker, a.order.side, a.fill.value, now)
  }

  lemma RecordOne(account: Account, a: Attempt, now: real)
    requires Positive(account.positions)
    ensures RecordAll(account, [a], now) == AfterAttempt(account, a, now)
    ensures RecordAll(account, [], now) == account
  {
    assert [a][1..] == [];
  }

  lemma AttemptKeeps(cfg: Config, eventOf: string -> Option<string>, trader: Trader, a: Attempt, now: real,
                     left: seq<Order>)
    requires Inv(cfg, eventOf, trader)
    requires PendingOf(trader.pending, a.order.ticker) == Some(a.order) && Without(trader.pending, left, a.order)
    ensures Inv(cfg, eventOf, trader.(account := AfterAttempt(trader.account, a, now), pending := left))
  {
    hide OneEvent, PendingCount, Distinct, OrdersHold, RecordFill, SameElsewhere, HasPending, GetPending;
    var positions := trader.account.positions;
    var after := trader.(account := AfterAttempt(trader.account, a, now), pending := left);
    FoundHolds(trader.pending, positions, a.order.ticker);
    PendsIsTicker(trader.pending, a.order.ticker);
    HasIsGet(trader.pending, Some(a.order.ticker), None);
    if a.fill.Some? {
      FillMoves(trader.account, a.order.ticker, a.order.side, a.fill.value, now);
      HoldElsewhere(left, positions, after.account.positions, a.order.ticker);
    }
    NoMoreExposure(cfg, eventOf, trader, after);
  }

  /** The due order of a ticker, if it has one. */
  function DueOrder(trader: Trader, tick: Tick): Option<Order> {
    var o := PendingOf(trader.pending, tick.ticker);
    if o.Some? && o.value.dueAt <= tick.quoteTs then o else None
  }

  /** Filling what is due is at most one attempt. */
  lemma DueFilledIs(cfg: Config, trader: Trader, tick: Tick)
    requires ValidPrecision(cfg.precision) && Distinct(trader.pending) && Positive(trader.account.positions)
    ensures DueOrder(trader, tick).None? ==> DueFilled(cfg, trader, tick) == trader
    ensures DueOrder(trader, tick).Some? ==>
      var o := DueOrder(trader, tick).value;
      var left := Remaining(trader.pending, tick.quoteTs, Some(tick.ticker));
      && o.ticker == tick.ticker && Without(trader.pending, left, o)
      && DueFilled(cfg, trader, tick)
         == trader.(account := AfterAttempt(trader.account, Attempted(cfg, tick.feed, o, tick.quoteTs), tick.now),
                    pending := left)
  {
    hide Distinct, PaperFill, RecordFill, RecordAll, GetPending, Attempts, Remaining;
    if DueOrder(trader, tick).None? {
      NotYetDue(cfg, tick.feed, trader.pending, tick.quoteTs, tick.ticker);
      RecordOne(trader.account, Attempt(Order("", Buy, 0.0, 0.0, Other, None, None), None), tick.now);
    } else {
      OneDue(cfg, tick.feed, trader.pending, tick.quoteTs, tick.ticker);
      OrderTicker(trader.pending, tick.ticker);
      RecordOne(trader.account, Attempted(cfg, tick.feed, DueOrder(trader, tick).value, tick.quoteTs), tick.now);
    }
  }

  lemma DueFilledKeeps(cfg: Config, eventOf: string -> Option<string>, trader: Trader, tick: Tick)
    requires Inv(cfg, eventOf, trader) && ValidPrecision(cfg.precision)
    ensures Inv(cfg, eventOf, DueFilled(cfg, trader, tick))
  {
    hide OneEvent, Distinct, OrdersHold, PaperFill, RecordFill, RecordAll;
    hide GetPending, Attempts, Remaining, DueFilled, Without, AfterAttempt;
    DueFilledIs(cfg, trader, tick);
    if DueOrder(trader, tick).Some? {
      AttemptKeeps(cfg, eventOf, trader, Attempted(cfg, tick.feed, DueOrder(trader, tick).value, tick.quoteTs),
                   tick.now, Remaining(trader.pending, tick.quoteTs, Some(tick.ticker)));
    }
  }

  // ---------- A new order ----------

  lemma SubmitKeeps(cfg: Config, eventOf: string -> Option<string>, trader: Trader, o: Order)
    requires Inv(cfg, eventOf, trader) && !Pends(trader.pending, o.ticker) && OrderHolds(o, trader.account.positions)
    requires o.side.Buy? ==> Exposure(trader) < cfg.maxOpen
    requires o.side.Buy? && cfg.oneContractPerEvent ==> !SharesEvent(eventOf, Exposed(trader), o.ticker)
    ensures Inv(cfg, eventOf, trader.(pending := trader.pending + [o]))
  {
    hide Distinct, OrdersHold, Tickers, PendingCount, OneEvent, SharesEvent, Pends;
    Appended(trader.pending, o);
    AppendedHolds(trader.pending, o, trader.account.positions);
    if cfg.oneContractPerEvent {
      OneMoreExposed(eventOf, Exposed(trader), o.ticker, o.side);
      assert Exposed(trader.(pending := trader.pending + [o])) == Exposed(trader) + {o.ticker};
    }
  }

  lemma OneMoreExposed(eventOf: string -> Option<string>, exposed: set<string>, ticker: string, side: Side)
    requires OneEvent(eventOf, exposed)
    requires if side.Buy? then !SharesEvent(eventOf, exposed, ticker) else ticker in exposed
    ensures OneEvent(eventOf, exposed + {ticker})
  {
    if side.Sell? { assert exposed + {ticker} == exposed; }
  }

  lemma ExitDecidedKeeps(cfg: Config, eventOf: string -> Option<string>, trader: Trader, tick: Tick, reason: Reason)
    requires Inv(cfg, eventOf, trader) && tick.ticker in trader.account.positions
    requires !HasPending(trader.pending, Some(tick.ticker), Some(Buy))
    ensures Inv(cfg, eventOf, ExitDecided(cfg, trader, tick, reason))
  {
    hide Inv, UpgradeExit, HasPending, GetPending;
    UpgradeKeeps(cfg, eventOf, trader, tick.ticker, reason);
    SideGets(cfg, eventOf, trader, tick.ticker);
    if GetPending(trader.pending, Some(tick.ticker), Some(Sell)).None? {
      var pos := trader.account.positions[tick.ticker];
      var o := NewOrder(cfg, tick.feed, tick.ticker, Sell, pos.contracts, reason, tick.now,
                        Some(Basis(pos.entryPrice, pos.contracts, pos.entryFee)));
      Held(cfg, eventOf, trader, tick.ticker);
      SubmitKeeps(cfg, eventOf, trader, o);
    }
  }

  lemma Held(cfg: Config, eventOf: string -> Option<string>, trader: Trader, ticker: string)
    requires Inv(cfg, eventOf, trader) && ticker in trader.account.positions
    ensures trader.account.positions[ticker].contracts > 0.0
  {
  }

  lemma SideGets(cfg: Config, eventOf: string -> Option<string>, trader: Trader, ticker: string)
    requires Inv(cfg, eventOf, trader)
    ensures !HasPending(trader.pending, Some(ticker), Some(Buy))
         && GetPending(trader.pending, Some(ticker), Some(Sell)).None?
        ==> !HasPending(trader.pending, Some(ticker), None)
    ensures !HasPending(trader.pending, Some(ticker), Some(Buy))
         && !HasPending(trader.pending, Some(ticker), Some(Sell))
        ==> !HasPending(trader.pending, Some(ticker), None)
  {
    hide OrdersHold, Distinct, HasPending, GetPending, OneEvent;
    SideOfOnly(trader.pending, ticker, Buy);
    SideOfOnly(trader.pending, ticker, Sell);
    HasIsGet(trader.pending, Some(ticker), None);
    HasIsGet(trader.pending, Some(ticker), Some(Buy));
    HasIsGet(trader.pending, Some(ticker), Some(Sell));
  }

  lemma StatusKeeps(cfg: Config, eventOf: string -> Option<string>, trader: Trader, ticker: string, status: EntryStatus)
    requires Inv(cfg, eventOf, trader)
    ensures Inv(cfg, eventOf, WithStatus(trader, ticker, status))
  {
  }

  lemma EntrySize(cfg: Config, account: Account, tick: Tick, askQty: Option<real>)
    requires ValidConfig(cfg) && CheckEntry(cfg, account, tick, askQty).Some?
    ensures CheckEntry(cfg, account, tick, askQty).value > 0.0 && tick.ticker !in account.positions
  {
    hide ProjectedScalpPnl, DipSignal;
  }

  lemma EntryDecidedKeeps(cfg: Config, eventOf: string -> Option<string>, trader: Trader, tick: Tick)
    requires Inv(cfg, eventOf, trader) && ValidConfig(cfg) && !Pends(trader.pending, tick.ticker)
    ensures Inv(cfg, eventOf, EntryDecided(cfg, eventOf, trader, tick))
  {
    hide Inv, CheckEntry, HasPending, PendingCount, SharesEvent;
    var askQty := TopOfBook(tick.feed, tick.ticker).askQty;
    var size := CheckEntry(cfg, trader.account, tick, askQty);
    var open := WithStatus(trader, tick.ticker, if tick.earlyCloseRisk then PaperAllowed else Eligible);
    StatusKeeps(cfg, eventOf, trader, tick.ticker, CloseHorizon);
    StatusKeeps(cfg, eventOf, trader, tick.ticker, if tick.earlyCloseRisk then PaperAllowed else Eligible);
    StatusKeeps(cfg, eventOf, open, tick.ticker, EventSibling);
    StatusKeeps(cfg, eventOf, open, tick.ticker, SiblingSpike);
    StatusKeeps(cfg, eventOf, open, tick.ticker, ScoreBlocked);
    if size.Some? && Exposure(trader) < cfg.maxOpen && !EventBlocks(cfg, eventOf, trader, tick.ticker) {
      EntrySize(cfg, trader.account, tick, askQty);
      SubmitKeeps(cfg, eventOf, open, NewOrder(cfg, tick.feed, tick.ticker, Buy, size.value, Other, tick.now, None));
    }
  }

  lemma DecidedKeeps(cfg: Config, eventOf: string -> Option<string>, trader: Trader, tick: Tick)
    requires Inv(cfg, eventOf, trader) && ValidConfig(cfg)
    ensures Inv(cfg, eventOf, Decided(cfg, eventOf, trader, tick))
  {
    hide Inv, CheckExit, HasPending, GetPending, ExitDecided, EntryDecided;
    PeakKeeps(cfg, eventOf, trader, tick.ticker, tick.bid, tick.now);
    var (positions, signal) := CheckExit(cfg, trader.account.positions, tick.ticker, tick.bid, tick.now);
    var judged := WithPositions(trader, positions);
    SideGets(cfg, eventOf, judged, tick.ticker);
    SignalNeedsPosition(cfg, trader.account.positions, tick.ticker, tick.bid, tick.now);
    if !HasPending(trader.pending, Some(tick.ticker), Some(Buy)) {
      if signal.Some? {
        ExitDecidedKeeps(cfg, eventOf, judged, tick, signal.value);
      } else if !HasPending(trader.pending, Some(tick.ticker), Some(Sell)) {
        EntryDecidedKeeps(cfg, eventOf, judged, tick);
      }
    }
  }

  lemma SignalNeedsPosition(cfg: Config, positions: map<string, Position>, ticker: string, bid: Option<real>, now: real)
    ensures CheckExit(cfg, positions, ticker, bid, now).1.Some?
        ==> ticker in CheckExit(cfg, positions, ticker, bid, now).0
  {
  }

  // ---------- Whole runs ----------

  lemma TickKeeps(cfg: Config, eventOf: string -> Option<string>, trader: Trader, tick: Tick)
    requires Inv(cfg, eventOf, trader) && ValidConfig(cfg)
    ensures Inv(cfg, eventOf, Arrived(cfg, eventOf, trader, tick))
    ensures Inv(cfg, eventOf, ProcessTick(cfg, eventOf, trader, tick))
  {
    hide Rejudged, ExitRejudged, EntryRejudged, DueFilled, LossCheck, Decided, OneEvent, Distinct, OrdersHold;
    var seen := Observed(trader, tick);
    if Fresh(tick) {
      RejudgedKeeps(cfg, eventOf, seen, tick);
      DueFilledKeeps(cfg, eventOf, Rejudged(cfg, eventOf, seen, tick), tick);
    }
    var arrived := Arrived(cfg, eventOf, trader, tick);
    var checked := LossCheck(cfg, arrived, tick.feed, tick.clock);
    assert Inv(cfg, eventOf, arrived);
    assert checked.account == arrived.account && checked.pending == arrived.pending;
    DecidedKeeps(cfg, eventOf, checked, tick);
  }

  lemma RejudgedKeeps(cfg: Config, eventOf: string -> Option<string>, trader: Trader, tick: Tick)
    requires Inv(cfg, eventOf, trader) && ValidConfig(cfg) && Fresh(tick)
    ensures Inv(cfg, eventOf, Rejudged(cfg, eventOf, trader, tick))
  {
    hide Inv, ExitRejudged, EntryRejudged;
    ExitRejudgedKeeps(cfg, eventOf, trader, tick);
    EntryRejudgedKeeps(cfg, eventOf, ExitRejudged(cfg, trader, tick), tick);
  }

  /** The state after a run of observations from an empty account. */
  ghost function Run(cfg: Config, eventOf: string -> Option<string>, ticks: seq<Tick>): (r: Trader)
    requires ValidConfig(cfg)
    ensures Inv(cfg, eventOf, r)
  {
    if ticks == [] then StartKeeps(cfg, eventOf); START
    else
      var before := Run(cfg, eventOf, ticks[..|ticks| - 1]);
      TickKeeps(cfg, eventOf, before, ticks[|ticks| - 1]);
      ProcessTick(cfg, eventOf, before, ticks[|ticks| - 1])
  }

  lemma StartKeeps(cfg: Config, eventOf: string -> Option<string>)
    ensures Inv(cfg, eventOf, START)
  {
  }

  /**
    What every run keeps, spelled out: the exposure cap, one pending order per ticker, what pending orders are
    for, and, with one contract per event, no two exposed tickers on one known event.
  */
  lemma RunShape(cfg: Config, eventOf: string -> Option<string>, ticks: seq<Tick>, i: nat, j: nat, a: string, b: string)
    requires ValidConfig(cfg)
    ensures var r := Run(cfg, eventOf, ticks);
      && |r.account.positions| + PendingCount(r.pending, Some(Buy)) <= cfg.maxOpen
      && (i < j < |r.pending| ==> r.pending[i].ticker != r.pending[j].ticker)
      && (i < |r.pending| ==> OrderHolds(r.pending[i], r.account.positions))
      && (cfg.oneContractPerEvent && a in Exposed(r) && b in Exposed(r) && a != b && eventOf(a).Some?
          ==> eventOf(a) != eventOf(b))
  {
    var r := Run(cfg, eventOf, ticks);
    if i < |r.pending| { OrderAt(r.pending, r.account.positions, i); }
    if i < j < |r.pending| { DistinctAt(r.pending, i, j); }
  }

  lemma {:induction false} OrderAt(pending: seq<Order>, positions: map<string, Position>, i: nat)
    requires OrdersHold(pending, positions) && i < |pending|
    ensures OrderHolds(pending[i], positions)
  {
    if i > 0 { OrderAt(pending[1..], positions, i - 1); }
  }

  lemma {:induction false} DistinctAt(pending: seq<Order>, i: nat, j: nat)
    requires Distinct(pending) && i < j < |pending|
    ensures pending[i].ticker != pending[j].ticker
  {
    if i > 0 {
      DistinctAt(pending[1..], i - 1, j - 1);
    } else {
      PendsAt(pending[1..], pending[0].ticker, j - 1);
    }
  }

  lemma {:induction false} PendsAt(pending: seq<Order>, ticker: string, j: nat)
    requires !Pends(pending, ticker) && j < |pending|
    ensures pending[j].ticker != ticker
  {
    if j > 0 { PendsAt(pending[1..], ticker, j - 1); }
  }
}
