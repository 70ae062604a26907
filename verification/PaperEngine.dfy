/**
  The paper trading cycle as the source runs it: a strategy, an executor and a context that update
  their fields. Each method is proved to compute the function of module PaperTrading on the old state.
*/
module PaperEngine {
  import opened Common
  import opened Fees
  import T = PaperTrading

  lemma AveragedPositive(pos: T.Position, fill: T.Fill)
    requires pos.contracts > 0.0 && fill.filled > 0.0
    ensures T.AveragedIn(pos, fill).contracts > 0.0
  {
  }

  class ScalpStrategy {
    const cfg: T.Config
    var positions: map<string, T.Position>
    var realizedPnl: real

    ghost predicate Valid()
      reads this
    {
      T.ValidConfig(cfg) && T.Positive(positions)
    }

    ghost function Account(): T.Account
      reads this
    {
      T.Account(positions, realizedPnl)
    }

    constructor (cfg: T.Config)
      requires T.ValidConfig(cfg)
      ensures Valid() && this.cfg == cfg && Account() == T.Account(map[], 0.0)
    {
      this.cfg := cfg;
      positions := map[];
      realizedPnl := 0.0;
    }

    method CheckEntry(tick: T.Tick, askQty: Option<real>) returns (size: Option<real>)
      requires Valid()
      ensures size == T.CheckEntry(cfg, Account(), tick, askQty)
    {
      if tick.mid.None? || tick.bid.None? || tick.ask.None? { return None; }
      if tick.ticker in positions || |positions| >= cfg.maxOpen { return None; }
      var ask := tick.ask.value;
      if !(cfg.minPrice <= ask <= cfg.maxPrice) || ask - tick.bid.value > cfg.maxSpread { return None; }
      if realizedPnl <= -cfg.maxDailyLoss { return None; }
      if askQty.None? || askQty.value <= 0.0 { return None; }
      var clip := Min(cfg.contractsPerTrade, askQty.value);
      if ProjectedScalpPnl(ask, cfg.takeProfit, clip, cfg.precision) <= 0.0 { return None; }
      var dip := T.DipSignal(tick.history, tick.now, tick.mid.value, cfg.dipThreshold, cfg.lookback);
      if dip.Some? { return Some(clip); }
      return None;
    }

    method CheckExit(ticker: string, bid: Option<real>, now: real) returns (signal: Option<T.Reason>)
      requires Valid()
      modifies `positions
      ensures Valid() && (positions, signal) == T.CheckExit(cfg, old(positions), ticker, bid, now)
    {
      if ticker !in positions || bid.None? { return None; }
      var pos := positions[ticker];
      if pos.peakBid.None? || bid.value > pos.peakBid.value {
        pos := pos.(peakBid := Some(bid.value));
      }
      positions := positions[ticker := pos];
      var move, peakMove, giveback := bid.value - pos.entryPrice, pos.peakBid.value - pos.entryPrice,
                                      pos.peakBid.value - bid.value;
      if move <= -cfg.stopLoss { return Some(T.StopLoss); }
      if now - pos.openedAt >= cfg.maxHold { return Some(T.TimeExit); }
      if peakMove >= cfg.takeProfit {
        if cfg.trail <= 0.0 {
          if move >= cfg.takeProfit { return Some(T.Other); }
        } else if giveback >= cfg.trail && move >= cfg.takeProfit {
          return Some(T.Other);
        }
      }
      return None;
    }

    method RecordFill(ticker: string, side: Side, fill: T.Fill, now: real)
      requires Valid()
      modifies `positions, `realizedPnl
      ensures Valid() && Account() == T.RecordFill(old(Account()), ticker, side, fill, now)
    {
      if fill.filled <= 0.0 { return; }
      hide T.AveragedIn, T.ClosedPnl, T.FeePart;
      if side.Buy? {
        if ticker !in positions {
          positions := positions[ticker := T.Position(fill.price, fill.filled, now, fill.fee, None)];
        } else {
          AveragedPositive(positions[ticker], fill);
          var pos := T.AveragedIn(positions[ticker], fill);
          positions := positions[ticker := pos];
        }
      } else {
        if ticker !in positions { return; }
        var pos := positions[ticker];
        var closing := Min(fill.filled, pos.contracts);
        var entryFeePart := T.FeePart(pos, closing);
        realizedPnl := realizedPnl + T.ClosedPnl(pos, fill);
        pos := pos.(contracts := pos.contracts - closing, entryFee := pos.entryFee - entryFeePart);
        if pos.contracts == 0.0 { positions := positions - {ticker}; } else { positions := positions[ticker := pos]; }
      }
    }
  }

  // ---------- One step of the executor's loops ----------

  lemma UpgradeStep(pending: seq<T.Order>, i: nat, ticker: string, reason: T.Reason)
    requires i < |pending|
    ensures pending[..i] + T.UpgradeExit(pending[i..], ticker, reason)
         == if T.Matches(pending[i], Some(ticker), Some(Sell))
            then pending[i := pending[i].(reason := reason, limit := None)]
            else pending[..i + 1] + T.UpgradeExit(pending[i + 1..], ticker, reason)
  {
    hide T.Matches;
    assert pending[i..][1..] == pending[i + 1..];
    assert pending[..i + 1] == pending[..i] + [pending[i]];
  }

  lemma WorkingStep(pending: seq<T.Order>, i: nat, ticker: string)
    requires i < |pending|
    ensures T.GetPending(pending[i..], Some(ticker), Some(Sell))
         == if T.Matches(pending[i], Some(ticker), Some(Sell)) then Some(pending[i])
            else T.GetPending(pending[i + 1..], Some(ticker), Some(Sell))
    ensures T.Matches(pending[i], Some(ticker), Some(Sell)) <==> pending[i].ticker == ticker && pending[i].side.Sell?
  {
    assert pending[i..][1..] == pending[i + 1..];
  }

  lemma UpgradeEnd(pending: seq<T.Order>, ticker: string, reason: T.Reason)
    ensures pending[..|pending|] + T.UpgradeExit(pending[|pending|..], ticker, reason) == pending
    ensures T.GetPending(pending[|pending|..], Some(ticker), Some(Sell)).None?
  {
  }

  lemma DueStep(cfg: T.Config, feed: T.Feed, pending: seq<T.Order>, i: nat, now: real, ticker: Option<string>,
                results: seq<T.Attempt>, remaining: seq<T.Order>)
    requires ValidPrecision(cfg.precision) && i < |pending|
    ensures results + T.Attempts(cfg, feed, pending[i..], now, ticker)
         == (if T.Due(pending[i], now, ticker) then results + [T.Attempted(cfg, feed, pending[i], now)] else results)
            + T.Attempts(cfg, feed, pending[i + 1..], now, ticker)
    ensures remaining + T.Remaining(pending[i..], now, ticker)
         == (if T.Due(pending[i], now, ticker) then remaining else remaining + [pending[i]])
            + T.Remaining(pending[i + 1..], now, ticker)
  {
    hide T.Attempted, T.Due;
    assert pending[i..][1..] == pending[i + 1..];
    Moved(results, T.Attempted(cfg, feed, pending[i], now), T.Attempts(cfg, feed, pending[i + 1..], now, ticker));
    Moved(remaining, pending[i], T.Remaining(pending[i + 1..], now, ticker));
  }

  lemma DueEnd(cfg: T.Config, feed: T.Feed, now: real, ticker: Option<string>)
    requires ValidPrecision(cfg.precision)
    ensures T.Attempts(cfg, feed, [], now, ticker) == [] && T.Remaining([], now, ticker) == []
  {
  }

  lemma CancelStep(pending: seq<T.Order>, i: nat, ticker: Option<string>, side: Option<Side>, canceled: seq<T.Order>,
                   remaining: seq<T.Order>)
    requires i < |pending|
    ensures remaining + T.CancelPending(pending[i..], ticker, side)
         == (if T.Matches(pending[i], ticker, side) then remaining else remaining + [pending[i]])
            + T.CancelPending(pending[i + 1..], ticker, side)
    ensures canceled + T.Canceled(pending[i..], ticker, side)
         == (if T.Matches(pending[i], ticker, side) then canceled + [pending[i]] else canceled)
            + T.Canceled(pending[i + 1..], ticker, side)
  {
    hide T.Matches;
    assert pending[i..][1..] == pending[i + 1..];
    Moved(remaining, pending[i], T.CancelPending(pending[i + 1..], ticker, side));
    Moved(canceled, pending[i], T.Canceled(pending[i + 1..], ticker, side));
  }

  /** An element between two sequences goes with either. */
  lemma Moved<A>(front: seq<A>, x: A, back: seq<A>)
    ensures front + ([x] + back) == (front + [x]) + back && [] + back == back
  {
  }

  lemma CancelEnd(ticker: Option<string>, side: Option<Side>)
    ensures T.CancelPending([], ticker, side) == [] && T.Canceled([], ticker, side) == []
  {
  }

  class Executor {
    const cfg: T.Config
    var pendingPaper: seq<T.Order>

    constructor (cfg: T.Config)
      ensures this.cfg == cfg && pendingPaper == []
    {
      this.cfg := cfg;
      pendingPaper := [];
    }

    method PaperFill(feed: T.Feed, order: T.Order) returns (fill: Option<T.Fill>)
      requires ValidPrecision(cfg.precision)
      ensures fill == T.PaperFill(cfg, feed, order)
    {
      hide NetFee, ProjectedScalpPnl, T.ProjectedExit;
      var book := T.TopOfBook(feed, order.ticker);
      var isStop, isTime := order.reason.StopLoss?, order.reason.TimeExit?;
      var price: real;
      var avail: Option<real>;
      if order.side.Buy? {
        if book.ask.None? { return None; }
        if order.limit.Some? && book.ask.value > order.limit.value { return None; }
        price, avail := book.ask.value, book.askQty;
      } else {
        if book.bid.None? { return None; }
        if isStop {
          price, avail := T.Max(0.0, book.bid.value - cfg.slippage), book.bidQty;
        } else if isTime {
          price, avail := book.bid.value, book.bidQty;
        } else {
          if order.limit.Some? && book.bid.value < order.limit.value { return None; }
          price, avail := book.bid.value, book.bidQty;
        }
      }
      var filled := Min(order.contracts, T.OrZero(avail));
      if filled <= 0.0 { return None; }
      if order.side.Buy? && ProjectedScalpPnl(price, cfg.takeProfit, filled, cfg.precision) <= 0.0 { return None; }
      var fee := NetFee(price, filled, 1.0, order.side, cfg.precision);
      if order.side.Sell? && !isStop && !isTime {
        if order.basis.None? { return None; }
        var basis := order.basis.value;
        if basis.contracts <= 0.0 || basis.entryFee < 0.0 || filled > basis.contracts { return None; }
        var projected := T.ProjectedExit(basis, price, filled, fee);
        if projected <= 0.0 { return None; }
      }
      return Some(T.Fill(price, filled, fee));
    }

    method HasPending(ticker: Option<string>, side: Option<Side>) returns (found: bool)
      ensures found == T.HasPending(pendingPaper, ticker, side)
    {
      var i := 0;
      assert pendingPaper[0..] == pendingPaper;
      while i < |pendingPaper|
        invariant i <= |pendingPaper|
        invariant T.HasPending(pendingPaper, ticker, side) == T.HasPending(pendingPaper[i..], ticker, side)
      {
        if T.Matches(pendingPaper[i], ticker, side) { return true; }
        assert pendingPaper[i..][1..] == pendingPaper[i + 1..];
        i := i + 1;
      }
      return false;
    }

    method GetPending(ticker: Option<string>, side: Option<Side>) returns (order: Option<T.Order>)
      ensures order == T.GetPending(pendingPaper, ticker, side)
    {
      var i := 0;
      assert pendingPaper[0..] == pendingPaper;
      while i < |pendingPaper|
        invariant i <= |pendingPaper|
        invariant T.GetPending(pendingPaper, ticker, side) == T.GetPending(pendingPaper[i..], ticker, side)
      {
        if T.Matches(pendingPaper[i], ticker, side) { return Some(pendingPaper[i]); }
        assert pendingPaper[i..][1..] == pendingPaper[i + 1..];
        i := i + 1;
      }
      return None;
    }

    method PendingCount(side: Option<Side>) returns (count: nat)
      ensures count == T.PendingCount(pendingPaper, side)
    {
      count := 0;
      var i := 0;
      assert pendingPaper[0..] == pendingPaper;
      while i < |pendingPaper|
        invariant i <= |pendingPaper|
        invariant T.PendingCount(pendingPaper, side) == count + T.PendingCount(pendingPaper[i..], side)
      {
        if side.None? || pendingPaper[i].side == side.value { count := count + 1; }
        assert pendingPaper[i..][1..] == pendingPaper[i + 1..];
        i := i + 1;
      }
    }

    method SubmitPaper(feed: T.Feed, ticker: string, side: Side, contracts: real, reason: T.Reason, now: real,
                       basis: Option<T.Basis>)
      returns (order: Option<T.Order>)
      modifies `pendingPaper
      ensures pendingPaper == T.SubmitPaper(cfg, feed, old(pendingPaper), ticker, side, contracts, reason, now, basis)
      ensures order == if T.HasPending(old(pendingPaper), Some(ticker), None) then None
                       else Some(T.NewOrder(cfg, feed, ticker, side, contracts, reason, now, basis))
    {
      var busy := HasPending(Some(ticker), None);
      if busy { return None; }
      var limit := None;
      if reason.Other? {
        var book := T.TopOfBook(feed, ticker);
        limit := if side.Buy? then book.ask else book.bid;
      }
      var submitted := T.Order(ticker, side, contracts, now + cfg.latency, reason, limit, basis);
      pendingPaper := pendingPaper + [submitted];
      return Some(submitted);
    }

    method UpgradePendingPaperExit(ticker: string, reason: T.Reason) returns (order: Option<T.Order>)
      modifies `pendingPaper
      ensures pendingPaper == T.UpgradeExit(old(pendingPaper), ticker, reason)
      ensures order == match T.GetPending(old(pendingPaper), Some(ticker), Some(Sell))
        case None => None
        case Some(working) => Some(working.(reason := reason, limit := None))
    {
      var i := 0;
      ghost var before := pendingPaper;
      assert before[0..] == before && before[..0] == [];
      hide T.UpgradeExit, T.GetPending, T.Matches;
      while i < |pendingPaper|
        invariant i <= |pendingPaper| && pendingPaper == before
        invariant T.UpgradeExit(before, ticker, reason) == before[..i] + T.UpgradeExit(before[i..], ticker, reason)
        invariant T.GetPending(before, Some(ticker), Some(Sell)) == T.GetPending(before[i..], Some(ticker), Some(Sell))
      {
        UpgradeStep(before, i, ticker, reason);
        WorkingStep(before, i, ticker);
        var working := pendingPaper[i];
        if working.ticker == ticker && working.side.Sell? {
          var upgraded := working.(reason := reason, limit := None);
          pendingPaper := pendingPaper[i := upgraded];
          return Some(upgraded);
        }
        i := i + 1;
      }
      UpgradeEnd(before, ticker, reason);
      return None;
    }

    method ProcessDuePaperOrders(feed: T.Feed, now: real, ticker: Option<string>) returns (results: seq<T.Attempt>)
      requires ValidPrecision(cfg.precision)
      modifies `pendingPaper
      ensures results == T.Attempts(cfg, feed, old(pendingPaper), now, ticker)
      ensures pendingPaper == T.Remaining(old(pendingPaper), now, ticker)
    {
      hide T.PaperFill, T.Attempts, T.Remaining;
      results := [];
      var remaining: seq<T.Order> := [];
      var i := 0;
      assert pendingPaper[0..] == pendingPaper;
      while i < |pendingPaper|
        invariant i <= |pendingPaper| && pendingPaper == old(pendingPaper)
        invariant T.Attempts(cfg, feed, pendingPaper, now, ticker)
               == results + T.Attempts(cfg, feed, pendingPaper[i..], now, ticker)
        invariant T.Remaining(pendingPaper, now, ticker) == remaining + T.Remaining(pendingPaper[i..], now, ticker)
      {
        var order := pendingPaper[i];
        DueStep(cfg, feed, pendingPaper, i, now, ticker, results, remaining);
        if !(order.dueAt <= now && (ticker.None? || order.ticker == ticker.value)) {
          remaining := remaining + [order];
        } else {
          var expired := now > order.dueAt + cfg.fillTimeout;
          var fill := None;
          if !expired { fill := PaperFill(feed, order); }
          results := results + [T.Attempt(order, fill)];
        }
        i := i + 1;
      }
      assert pendingPaper[i..] == [];
      DueEnd(cfg, feed, now, ticker);
      pendingPaper := remaining;
    }

    method CancelPendingPaper(ticker: Option<string>, side: Option<Side>) returns (canceled: seq<T.Order>)
      modifies `pendingPaper
      ensures pendingPaper == T.CancelPending(old(pendingPaper), ticker, side)
      ensures canceled == T.Canceled(old(pendingPaper), ticker, side)
    {
      canceled := [];
      var remaining: seq<T.Order> := [];
      var i := 0;
      ghost var before := pendingPaper;
      assert before[0..] == before;
      hide T.CancelPending, T.Canceled, T.Matches;
      while i < |pendingPaper|
        invariant i <= |pendingPaper| && pendingPaper == before
        invariant T.CancelPending(before, ticker, side) == remaining + T.CancelPending(before[i..], ticker, side)
        invariant T.Canceled(before, ticker, side) == canceled + T.Canceled(before[i..], ticker, side)
      {
        CancelStep(before, i, ticker, side, canceled, remaining);
        var order := pendingPaper[i];
        if T.Matches(order, ticker, side) { canceled := canceled + [order]; } else { remaining := remaining + [order]; }
        i := i + 1;
      }
      assert before[i..] == [];
      CancelEnd(ticker, side);
      pendingPaper := remaining;
    }
  }
}
