/**
  The trading context of engine.py in paper mode: process_tick and the loss check over the strategy and the executor.
*/
module PaperContext {
  import opened Common
  import opened Fees
  import T = PaperTrading
  import PaperCash
  import PaperSafety
  import opened PaperEngine

  class Context {
    const cfg: T.Config
    const eventOf: string -> Option<string>
    const strategy: ScalpStrategy
    const executor: Executor
    var latestBid: map<string, real>
    var bidTs: map<string, real>
    var entryStatus: map<string, T.EntryStatus>
    var halt: Option<T.Halt>

    ghost predicate Valid()
      reads this, strategy
    {
      strategy.Valid() && strategy.cfg == cfg && executor.cfg == cfg
    }

    ghost function State(): T.Trader
      reads this, strategy, executor
    {
      T.Trader(strategy.Account(), executor.pendingPaper, latestBid, bidTs, entryStatus, halt)
    }

    constructor (cfg: T.Config, eventOf: string -> Option<string>)
      requires T.ValidConfig(cfg)
      ensures Valid() && fresh(strategy) && fresh(executor) && this.cfg == cfg && this.eventOf == eventOf
      ensures State() == PaperSafety.START
    {
      this.cfg := cfg;
      this.eventOf := eventOf;
      strategy := new ScalpStrategy(cfg);
      executor := new Executor(cfg);
      latestBid, bidTs, entryStatus, halt := map[], map[], map[], None;
    }

    /** `open_pnl_usd`. */
    method OpenPnl(feed: T.Feed) returns (total: real)
      requires Valid()
      ensures total == T.SumOf(T.Marks(cfg, feed, strategy.positions, latestBid))
    {
      hide T.Mark, T.SumOf;
      total := 0.0;
      var positions := strategy.positions;
      ghost var marks := T.Marks(cfg, feed, positions, latestBid);
      ghost var left := marks;
      var remaining := positions.Keys;
      assert left.Keys == marks.Keys * remaining;
      while remaining != {}
        invariant remaining <= positions.Keys
        invariant left.Keys == marks.Keys * remaining && forall t :: t in left ==> left[t] == marks[t]
        invariant total + T.SumOf(left) == T.SumOf(marks)
        decreases |remaining|
      {
        var t :| t in remaining;
        remaining := remaining - {t};
        PaperCash.SumDrop(left, t);
        assert (left - {t}).Keys == left.Keys - {t};
        left := left - {t};
        if t in latestBid {
          total := total + T.Mark(cfg, feed, t, positions[t], latestBid[t]);
        }
      }
      assert left == map[];
      EmptySum();
    }

    /** Some open position has no bid recent enough to value it. */
    method AnyStale(clock: real) returns (stale: bool)
      ensures stale == T.Stale(cfg, State(), clock)
    {
      var remaining := strategy.positions.Keys;
      while remaining != {}
        invariant remaining <= strategy.positions.Keys
        invariant T.Stale(cfg, State(), clock)
          ==> exists t :: t in remaining && (t !in bidTs || clock - bidTs[t] > cfg.staleAfter)
        decreases |remaining|
      {
        var t :| t in remaining;
        if t !in bidTs || clock - bidTs[t] > cfg.staleAfter { return true; }
        remaining := remaining - {t};
      }
      return false;
    }

    method Trip(reason: T.Halt)
      modifies `halt
      ensures halt == if old(halt).Some? then old(halt) else Some(reason)
    {
      if halt.None? { halt := Some(reason); }
    }

    method CheckLossLimit(feed: T.Feed, clock: real)
      requires Valid()
      modifies `halt
      ensures Valid() && State() == T.LossCheck(cfg, old(State()), feed, clock)
    {
      hide T.SumOf, T.Marks, T.Stale;
      var stale := AnyStale(clock);
      if stale {
        Trip(T.NoFreshBid);
        return;
      }
      var open := OpenPnl(feed);
      var total := strategy.realizedPnl + open;
      if total <= -cfg.maxDailyLoss { Trip(T.LossLimit); }
    }

    /** `_same_event_exposure`: another exposed ticker on the ticker's event. */
    method SameEventExposure(ticker: string) returns (conflict: Option<string>)
      requires Valid()
      ensures conflict.Some? <==> T.SharesEvent(eventOf, T.Exposed(State()), ticker)
      ensures conflict.Some? ==> conflict.value in T.Exposed(State()) && conflict.value != ticker
      ensures conflict.Some? ==> eventOf(conflict.value) == eventOf(ticker)
    {
      var event := eventOf(ticker);
      if event.None? { return None; }
      var occupied := strategy.positions.Keys;
      var pending := executor.pendingPaper;
      assert pending[0..] == pending;
      var i := 0;
      while i < |pending|
        invariant i <= |pending|
        invariant occupied + T.Tickers(pending[i..]) == T.Exposed(State())
      {
        occupied := occupied + {pending[i].ticker};
        i := i + 1;
      }
      assert occupied == T.Exposed(State());
      var remaining := occupied;
      while remaining != {}
        invariant remaining <= occupied
        invariant forall t :: t in occupied && t !in remaining ==> t == ticker || eventOf(t) != event
        decreases |remaining|
      {
        var other :| other in remaining;
        remaining := remaining - {other};
        if other != ticker && eventOf(other) == event { return Some(other); }
      }
      return None;
    }

    method EventConflict(ticker: string) returns (blocked: bool)
      requires Valid()
      ensures blocked == T.EventBlocks(cfg, eventOf, State(), ticker)
    {
      hide T.SharesEvent;
      if !cfg.oneContractPerEvent { return false; }
      var conflict := SameEventExposure(ticker);
      return conflict.Some?;
    }

    method SetEntryStatus(ticker: string, status: T.EntryStatus)
      modifies `entryStatus
      ensures entryStatus == old(entryStatus)[ticker := status]
    {
      entryStatus := entryStatus[ticker := status];
    }

    /** A due exit is judged again before it meets the book. */
    method RejudgeExit(tick: T.Tick)
      requires Valid()
      modifies strategy`positions, executor`pendingPaper
      ensures Valid() && State() == T.ExitRejudged(cfg, old(State()), tick)
    {
      hide T.CheckExit, T.UpgradeExit, T.GetPending;
      var working := executor.GetPending(Some(tick.ticker), Some(Sell));
      if working.Some? && working.value.dueAt <= tick.quoteTs && tick.ticker in strategy.positions {
        var signal := strategy.CheckExit(tick.ticker, tick.bid, tick.quoteTs);
        if signal.Some? && T.Priority(signal.value) > T.Priority(working.value.reason) {
          var _ := executor.UpgradePendingPaperExit(tick.ticker, signal.value);
        }
      }
    }

    /** A due entry is canceled if it may no longer fill. */
    method RejudgeEntry(tick: T.Tick)
      requires Valid() && T.Fresh(tick)
      modifies `halt, `entryStatus, executor`pendingPaper
      ensures Valid() && State() == T.EntryRejudged(cfg, eventOf, old(State()), tick)
    {
      hide T.LossCheck, T.CancelPending, T.GetPending, T.EventBlocks;
      var entry := executor.GetPending(Some(tick.ticker), Some(Buy));
      if entry.Some? && entry.value.dueAt <= tick.quoteTs {
        CheckLossLimit(tick.feed, tick.arrivalClock);
        var block := halt.Some?;
        if !block { block := !(cfg.minPrice <= tick.ask.value <= cfg.maxPrice); }
        if !block { block := tick.ask.value - tick.bid.value > cfg.maxSpread; }
        if !block { block := !tick.closeAllowed; }
        if !block { block := EventConflict(tick.ticker); }
        if !block { block := tick.gateBlocks; }
        if !block { block := tick.siblingBlocks; }
        if block {
          var _ := executor.CancelPendingPaper(Some(tick.ticker), Some(Buy));
          SetEntryStatus(tick.ticker, T.CanceledAtArrival);
        }
      }
    }

    method FillDue(tick: T.Tick)
      requires Valid()
      modifies strategy`positions, strategy`realizedPnl, executor`pendingPaper
      ensures Valid() && State() == T.DueFilled(cfg, old(State()), tick)
    {
      hide T.RecordFill, T.Attempts, T.Remaining, T.RecordAll;
      var results := executor.ProcessDuePaperOrders(tick.feed, tick.quoteTs, Some(tick.ticker));
      RecordResults(results, tick.now);
    }

    method RecordResults(results: seq<T.Attempt>, now: real)
      requires Valid()
      modifies strategy`positions, strategy`realizedPnl
      ensures Valid() && strategy.Account() == T.RecordAll(old(strategy.Account()), results, now)
    {
      hide T.RecordFill, T.RecordAll;
      assert results[0..] == results;
      var i := 0;
      while i < |results|
        invariant i <= |results| && Valid()
        invariant T.RecordAll(strategy.Account(), results[i..], now)
               == T.RecordAll(old(strategy.Account()), results, now)
      {
        RecordStep(strategy.Account(), results, i, now);
        var result := results[i];
        if result.fill.Some? {
          strategy.RecordFill(result.order.ticker, result.order.side, result.fill.value, now);
        }
        i := i + 1;
      }
      assert results[i..] == [];
      RecordNone(strategy.Account(), now);
    }

    /** An exit signal becomes an order, or raises the working one. */
    method DecideExit(tick: T.Tick, reason: T.Reason)
      requires Valid() && tick.ticker in strategy.positions
      modifies executor`pendingPaper
      ensures Valid() && State() == T.ExitDecided(cfg, old(State()), tick, reason)
    {
      hide T.UpgradeExit, T.GetPending, T.SubmitPaper;
      var pos := strategy.positions[tick.ticker];
      var working := executor.GetPending(Some(tick.ticker), Some(Sell));
      if working.Some? {
        if T.Priority(reason) > T.Priority(working.value.reason) {
          var _ := executor.UpgradePendingPaperExit(tick.ticker, reason);
        }
        return;
      }
      var _ := executor.SubmitPaper(tick.feed, tick.ticker, Sell, pos.contracts, reason, tick.now,
                                    Some(T.Basis(pos.entryPrice, pos.contracts, pos.entryFee)));
    }

    method DecideEntry(tick: T.Tick)
      requires Valid()
      modifies `entryStatus, executor`pendingPaper
      ensures Valid() && State() == T.EntryDecided(cfg, eventOf, old(State()), tick)
    {
      hide T.PendingCount, T.SubmitPaper, T.CheckEntry, T.EventBlocks;
      var count := executor.PendingCount(Some(Buy));
      if |strategy.positions| + count >= cfg.maxOpen { return; }
      if !tick.closeAllowed {
        SetEntryStatus(tick.ticker, T.CloseHorizon);
        return;
      }
      SetEntryStatus(tick.ticker, if tick.earlyCloseRisk then T.PaperAllowed else T.Eligible);
      var size := strategy.CheckEntry(tick, T.TopOfBook(tick.feed, tick.ticker).askQty);
      if size.None? { return; }
      StatusIsNoExposure(old(State()), State(), tick.ticker);
      var conflict := EventConflict(tick.ticker);
      if conflict {
        SetEntryStatus(tick.ticker, T.EventSibling);
        return;
      }
      if tick.siblingBlocks {
        SetEntryStatus(tick.ticker, T.SiblingSpike);
        return;
      }
      if tick.gateBlocks {
        SetEntryStatus(tick.ticker, T.ScoreBlocked);
        return;
      }
      var _ := executor.SubmitPaper(tick.feed, tick.ticker, Buy, size.value, T.Other, tick.now, None);
    }

    lemma StatusIsNoExposure(before: T.Trader, after: T.Trader, ticker: string)
      requires before.account == after.account && before.pending == after.pending
      ensures T.EventBlocks(cfg, eventOf, before, ticker) == T.EventBlocks(cfg, eventOf, after, ticker)
    {
    }

    method Decide(tick: T.Tick)
      requires Valid()
      modifies `entryStatus, strategy`positions, executor`pendingPaper
      ensures Valid() && State() == T.Decided(cfg, eventOf, old(State()), tick)
    {
      hide T.CheckExit, T.HasPending, T.ExitDecided, T.EntryDecided;
      if halt.Some? { return; }
      var awaiting := executor.HasPending(Some(tick.ticker), Some(Buy));
      if awaiting { return; }
      var signal := strategy.CheckExit(tick.ticker, tick.bid, tick.now);
      if signal.Some? {
        PaperSafety.SignalNeedsPosition(cfg, old(strategy.positions), tick.ticker, tick.bid, tick.now);
        DecideExit(tick, signal.value);
        return;
      }
      var working := executor.HasPending(Some(tick.ticker), Some(Sell));
      if working { return; }
      DecideEntry(tick);
    }

    /** `process_tick`. */
    method ProcessTick(tick: T.Tick)
      requires Valid()
      modifies this, strategy, executor
      ensures Valid() && State() == T.ProcessTick(cfg, eventOf, old(State()), tick)
    {
      hide T.ExitRejudged, T.EntryRejudged, T.DueFilled, T.LossCheck, T.Decided;
      if tick.bid.Some? {
        latestBid := latestBid[tick.ticker := tick.bid.value];
        bidTs := bidTs[tick.ticker := tick.quoteTs];
      }
      if T.Fresh(tick) {
        RejudgeExit(tick);
        RejudgeEntry(tick);
        FillDue(tick);
      }
      CheckLossLimit(tick.feed, tick.clock);
      Decide(tick);
    }
  }

  lemma EmptySum()
    ensures T.SumOf(map[]) == 0.0
  {
  }

  lemma RecordStep(account: T.Account, results: seq<T.Attempt>, i: nat, now: real)
    requires T.Positive(account.positions) && i < |results|
    ensures T.RecordAll(account, results[i..], now)
         == T.RecordAll(
              if results[i].fill.None? then account
              else T.RecordFill(account, results[i].order.ticker, results[i].order.side, results[i].fill.value, now),
              results[i + 1..], now)
  {
    hide T.RecordFill;
    assert results[i..][1..] == results[i + 1..];
  }

  lemma RecordNone(account: T.Account, now: real)
    requires T.Positive(account.positions)
    ensures T.RecordAll(account, [], now) == account
  {
  }
}
