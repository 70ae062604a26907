/**
  What an observation does before it decides: what its due order books, and when it halts the trader. Both are
  stated on the holdings and on the set of a ticker's orders.
*/
module PaperSettling {
  import opened Common
  import opened Fees
  import opened PaperTrading
  import opened PendingOrders
  import opened PaperSafety
  import opened PaperCash
  import opened PaperLatency
  import opened PaperFills

  // ---------- A ticker's orders ----------

  ghost function OrdersFor(pending: seq<Order>, ticker: string): set<Order> {
    set o | o in pending && o.ticker == ticker
  }

  /** The one order of a ticker is the one that is looked up. */
  lemma {:induction false} OrdersForIs(pending: seq<Order>, ticker: string)
    requires Distinct(pending)
    ensures OrdersFor(pending, ticker)
         == var o := PendingOf(pending, ticker); if o.Some? then {o.value} else {}
  {
    if pending != [] {
      var first, rest := pending[0], pending[1..];
      OrdersForIs(rest, ticker);
      HasIsGet(rest, Some(first.ticker), None);
      assert pending == [first] + rest;
      assert OrdersFor(pending, ticker) == OrdersFor(rest, ticker) + (if first.ticker == ticker then {first} else {});
    }
  }

  // ---------- The quote ----------

  predicate FullQuote(tick: Tick) { tick.mid.Some? && tick.bid.Some? && tick.ask.Some? }

  /** The trader with the tick's bid and the time of its quote noted. */
  function Noted(trader: Trader, tick: Tick): Trader {
    if tick.bid.Some? then
      trader.(latestBid := trader.latestBid[tick.ticker := tick.bid.value],
              bidTs := trader.bidTs[tick.ticker := tick.quoteTs])
    else trader
  }

  /** The position after a bid: its peak is the higher of the two. */
  function Peaked(pos: Position, bid: real): Position {
    pos.(peakBid := Some(if pos.peakBid.Some? && pos.peakBid.value >= bid then pos.peakBid.value else bid))
  }

  lemma PeakedIs(pos: Position, bid: real)
    ensures WithPeak(pos, bid) == Peaked(pos, bid)
  {
  }

  // ---------- What is booked ----------

  /** The part of the entry fee that goes with what is sold. */
  function Share(pos: Position, sold: real): real
    requires pos.contracts > 0.0
  {
    pos.entryFee * sold / pos.contracts
  }

  /** What is earned on what is sold, less both fees. */
  function Earned(pos: Position, f: Fill): real
    requires pos.contracts > 0.0
  {
    (f.price - pos.entryPrice) * f.filled / 100.0 - f.fee - Share(pos, f.filled)
  }

  /** Selling `f` out of the holding of `before` at its ticker books the proceeds less cost and both fees. */
  ghost predicate SaleBooked(before: Account, ticker: string, f: Fill, after: Account)
    requires ticker in before.positions && before.positions[ticker].contracts > 0.0
  {
    var pos := before.positions[ticker];
    && after.realized == before.realized + Earned(pos, f)
    && after.positions
       == if f.filled == pos.contracts then map t | t in before.positions && t != ticker :: before.positions[t]
          else before.positions[ticker := Position(pos.entryPrice, pos.contracts - f.filled, pos.openedAt,
                                                   pos.entryFee - Share(pos, f.filled), pos.peakBid)]
  }

  lemma FeePartIs(pos: Position, filled: real)
    requires pos.contracts > 0.0
    ensures FeePart(pos, filled) == Share(pos, filled)
  {
    var fee, contracts := pos.entryFee, pos.contracts;
    FeeShare(fee, filled, contracts);
    assert FeePart(pos, filled) == fee * (filled / contracts);
  }

  lemma ClosedIs(pos: Position, f: Fill)
    requires pos.contracts > 0.0 && 0.0 < f.filled <= pos.contracts
    ensures Min(f.filled, pos.contracts) == f.filled
    ensures ClosedPnl(pos, f) == Earned(pos, f)
  {
    FeePartIs(pos, f.filled);
    hide FeePart, Share;
  }

  lemma SaleMoves(before: Account, ticker: string, f: Fill, now: real)
    requires Positive(before.positions) && ticker in before.positions
    requires 0.0 < f.filled <= before.positions[ticker].contracts
    ensures var pos, after := before.positions[ticker], RecordFill(before, ticker, Sell, f, now);
      && after.realized == before.realized + ClosedPnl(pos, f)
      && after.positions
         == if f.filled == pos.contracts then before.positions - {ticker}
            else before.positions[ticker := Position(pos.entryPrice, pos.contracts - f.filled, pos.openedAt,
                                                     pos.entryFee - FeePart(pos, f.filled), pos.peakBid)]
  {
    var pos := before.positions[ticker];
    hide ClosedPnl, FeePart;
    assert Min(f.filled, pos.contracts) == f.filled;
  }

  lemma RecordedSale(before: Account, ticker: string, f: Fill, now: real)
    requires Positive(before.positions) && ticker in before.positions
    requires 0.0 < f.filled <= before.positions[ticker].contracts
    ensures SaleBooked(before, ticker, f, RecordFill(before, ticker, Sell, f, now))
  {
    var pos := before.positions[ticker];
    SaleMoves(before, ticker, f, now);
    FeePartIs(pos, f.filled);
    ClosedIs(pos, f);
    hide FeePart, ClosedPnl, RecordFill, Share, Earned;
    assert before.positions - {ticker} == map t | t in before.positions && t != ticker :: before.positions[t];
  }

  /** What a due exit that meets the book as `later` does to the account. */
  ghost predicate ExitSettles(cfg: Config, tick: Tick, later: Order, before: Account, after: Account)
    requires ValidPrecision(cfg.precision)
    requires tick.ticker in before.positions && before.positions[tick.ticker].contracts > 0.0
  {
    && (forall f :: ExitFills(cfg, tick.feed, later, tick.quoteTs, f) ==> SaleBooked(before, tick.ticker, f, after))
    && ((forall f :: !ExitFills(cfg, tick.feed, later, tick.quoteTs, f)) ==> after == before)
  }

  /** What a due entry does to the account. */
  ghost predicate EntrySettles(cfg: Config, tick: Tick, o: Order, admitted: bool, before: Account, after: Account)
    requires ValidPrecision(cfg.precision)
  {
    && (forall f :: admitted && EntryFills(cfg, tick.feed, o, tick.quoteTs, f) ==>
          after == Account(before.positions[tick.ticker := Position(f.price, f.filled, tick.now, f.fee, None)],
                           before.realized))
    && ((forall f :: !(admitted && EntryFills(cfg, tick.feed, o, tick.quoteTs, f))) ==> after == before)
  }

  lemma AttemptedExit(cfg: Config, tick: Tick, o: Order, before: Account)
    requires ValidPrecision(cfg.precision) && Positive(before.positions)
    requires o.side.Sell? && o.ticker == tick.ticker && tick.ticker in before.positions
    requires o.contracts == before.positions[tick.ticker].contracts
    ensures ExitSettles(cfg, tick, o, before,
                        AfterAttempt(before, Attempted(cfg, tick.feed, o, tick.quoteTs), tick.now))
  {
    var a := Attempted(cfg, tick.feed, o, tick.quoteTs);
    hide Attempted, ExitFills, RecordFill, SaleBooked;
    forall f: Fill
      ensures a.order == o && (a.fill == Some(f) <==> ExitFills(cfg, tick.feed, o, tick.quoteTs, f))
    {
      ExitFillsExactly(cfg, tick.feed, o, tick.quoteTs, f);
    }
    if a.fill.Some? {
      ExitWithin(cfg, tick.feed, o, tick.quoteTs, a.fill.value);
      assert a.order == o by { ExitFillsExactly(cfg, tick.feed, o, tick.quoteTs, a.fill.value); }
      RecordedSale(before, tick.ticker, a.fill.value, tick.now);
    }
  }

  lemma ExitWithin(cfg: Config, feed: Feed, o: Order, at: real, f: Fill)
    requires ValidPrecision(cfg.precision) && ExitFills(cfg, feed, o, at, f)
    ensures 0.0 < f.filled <= o.contracts
  {
  }

  lemma EntryWithin(cfg: Config, feed: Feed, o: Order, at: real, f: Fill)
    requires ValidPrecision(cfg.precision) && EntryFills(cfg, feed, o, at, f)
    ensures 0.0 < f.filled <= o.contracts
  {
  }

  lemma AttemptedEntry(cfg: Config, tick: Tick, o: Order, before: Account)
    requires ValidPrecision(cfg.precision) && Positive(before.positions)
    requires o.side.Buy? && o.ticker == tick.ticker && tick.ticker !in before.positions
    ensures EntrySettles(cfg, tick, o, true, before,
                         AfterAttempt(before, Attempted(cfg, tick.feed, o, tick.quoteTs), tick.now))
  {
    var a := Attempted(cfg, tick.feed, o, tick.quoteTs);
    hide Attempted, EntryFills;
    forall f: Fill
      ensures a.order == o && (a.fill == Some(f) <==> EntryFills(cfg, tick.feed, o, tick.quoteTs, f))
    {
      EntryFillsExactly(cfg, tick.feed, o, tick.quoteTs, f);
    }
    if a.fill.Some? {
      EntryWithin(cfg, tick.feed, o, tick.quoteTs, a.fill.value);
    }
  }

  // ---------- Halting ----------

  /** Some position has no bid, or only one older than the limit. */
  ghost predicate NoBid(cfg: Config, trader: Trader, clock: real) {
    exists t :: t in trader.account.positions && (t in trader.bidTs ==> trader.bidTs[t] < clock - cfg.staleAfter)
  }

  /** Selling now what the bid takes, at the bid less slippage but not below zero, would add this to the P&L. */
  ghost predicate MarkedAt(cfg: Config, feed: Feed, ticker: string, pos: Position, bid: real, mark: real)
    requires ValidPrecision(cfg.precision)
  {
    var price := if bid >= cfg.slippage then bid - cfg.slippage else 0.0;
    var cost := pos.entryPrice * pos.contracts / 100.0 + pos.entryFee;
    if ticker in feed && feed[ticker].bidQty.Some? && feed[ticker].bidQty.value > 0.0 then
      var sold := if pos.contracts <= feed[ticker].bidQty.value then pos.contracts else feed[ticker].bidQty.value;
      mark == price * sold / 100.0 - NetFee(price, sold, 1.0, Sell, cfg.precision) - cost
    else mark == -cost
  }

  /** The marks of all positions with a known bid. */
  ghost predicate MarksAre(cfg: Config, feed: Feed, trader: Trader, marks: map<string, real>)
    requires ValidPrecision(cfg.precision)
  {
    && marks.Keys == trader.account.positions.Keys * trader.latestBid.Keys
    && forall t :: t in marks ==>
         && t in trader.account.positions && t in trader.latestBid
         && MarkedAt(cfg, feed, t, trader.account.positions[t], trader.latestBid[t], marks[t])
  }

  /** Realized and open P&L together reach the daily loss limit. */
  ghost predicate Losing(cfg: Config, feed: Feed, trader: Trader)
    requires ValidPrecision(cfg.precision)
  {
    exists marks ::
      MarksAre(cfg, feed, trader, marks) && trader.account.realized + SumOf(marks) <= -cfg.maxDailyLoss
  }

  ghost predicate HaltIs(cfg: Config, feed: Feed, trader: Trader, clock: real, halt: Option<Halt>)
    requires ValidPrecision(cfg.precision)
  {
    if trader.halt.Some? then halt == trader.halt
    else if NoBid(cfg, trader, clock) then halt == Some(NoFreshBid)
    else if Losing(cfg, feed, trader) then halt == Some(LossLimit)
    else halt == None
  }

  lemma MarkIs(cfg: Config, feed: Feed, ticker: string, pos: Position, bid: real, mark: real)
    requires ValidPrecision(cfg.precision) && pos.contracts > 0.0
    ensures MarkedAt(cfg, feed, ticker, pos, bid, mark) <==> mark == Mark(cfg, feed, ticker, pos, bid)
  {
    hide NetFee;
    var price := if bid >= cfg.slippage then bid - cfg.slippage else 0.0;
    assert price == Max(0.0, bid - cfg.slippage);
  }

  lemma LosingIs(cfg: Config, feed: Feed, trader: Trader)
    requires ValidPrecision(cfg.precision) && Positive(trader.account.positions)
    ensures Losing(cfg, feed, trader) <==> LossBreached(cfg, trader, feed)
  {
    hide SumOf, Mark, MarkedAt;
    var all := Marks(cfg, feed, trader.account.positions, trader.latestBid);
    forall t, mark: real | t in trader.account.positions && t in trader.latestBid
      ensures MarkedAt(cfg, feed, t, trader.account.positions[t], trader.latestBid[t], mark)
         <==> mark == Mark(cfg, feed, t, trader.account.positions[t], trader.latestBid[t])
    {
      MarkIs(cfg, feed, t, trader.account.positions[t], trader.latestBid[t], mark);
    }
    assert MarksAre(cfg, feed, trader, all);
    forall marks | MarksAre(cfg, feed, trader, marks) ensures marks == all {}
  }

  lemma HaltsExactly(cfg: Config, feed: Feed, trader: Trader, clock: real)
    requires ValidPrecision(cfg.precision) && Positive(trader.account.positions)
    ensures HaltIs(cfg, feed, trader, clock, LossCheck(cfg, trader, feed, clock).halt)
    ensures LossCheck(cfg, trader, feed, clock) == trader.(halt := LossCheck(cfg, trader, feed, clock).halt)
  {
    hide LossBreached, Losing;
    LosingIs(cfg, feed, trader);
    assert NoBid(cfg, trader, clock) <==> Stale(cfg, trader, clock);
  }

  // ---------- What the due order does ----------

  /** The observation brings the ticker's pending order `o` to the book. */
  ghost predicate DueNow(before: Trader, tick: Tick, o: Order) {
    FullQuote(tick) && o in OrdersFor(before.pending, tick.ticker) && o.dueAt <= tick.quoteTs
  }

  /** An entry may fill on arrival. */
  ghost predicate Admits(cfg: Config, eventOf: string -> Option<string>, trader: Trader, tick: Tick)
    requires ValidPrecision(cfg.precision) && FullQuote(tick)
  {
    && trader.halt.None? && !NoBid(cfg, trader, tick.arrivalClock) && !Losing(cfg, tick.feed, trader)
    && cfg.minPrice <= tick.ask.value <= cfg.maxPrice && tick.ask.value <= tick.bid.value + cfg.maxSpread
    && tick.closeAllowed && !tick.gateBlocks && !tick.siblingBlocks
    && !(cfg.oneContractPerEvent && Conflicts(eventOf, trader, tick.ticker))
  }

  /** What the due order `o` does to the account. */
  ghost predicate OrderSettles(cfg: Config, eventOf: string -> Option<string>, before: Trader, tick: Tick, o: Order,
                               after: Account)
    requires ValidPrecision(cfg.precision) && FullQuote(tick)
  {
    var account := before.account;
    if o.side.Buy? then EntrySettles(cfg, tick, o, Admits(cfg, eventOf, Noted(before, tick), tick), account, after)
    else
      && tick.ticker in account.positions && account.positions[tick.ticker].contracts > 0.0
      && var pos := account.positions[tick.ticker];
      && var watched := Account(account.positions[tick.ticker := Peaked(pos, tick.bid.value)], account.realized);
      exists later ::
        && RaisedBy(cfg, pos, tick.bid.value, tick.quoteTs, o, later)
        && ExitSettles(cfg, tick, later, watched, after)
  }

  /** Before its decision an observation settles the due order of its ticker, and nothing else. */
  ghost predicate Settles(cfg: Config, eventOf: string -> Option<string>, before: Trader, tick: Tick, d: Trader)
    requires ValidPrecision(cfg.precision)
  {
    && (d.latestBid, d.bidTs) == (Noted(before, tick).latestBid, Noted(before, tick).bidTs)
    && (forall u :: u != tick.ticker ==> OrdersFor(d.pending, u) == OrdersFor(before.pending, u))
    && (forall o :: DueNow(before, tick, o) ==>
          OrdersFor(d.pending, tick.ticker) == {} && OrderSettles(cfg, eventOf, before, tick, o, d.account))
    && ((forall o :: !DueNow(before, tick, o)) ==>
          OrdersFor(d.pending, tick.ticker) == OrdersFor(before.pending, tick.ticker) && d.account == before.account)
  }

  /** The trader is halted on a stale bid or a loss: when a due entry arrives, and after the due order. */
  ghost predicate Halts(cfg: Config, before: Trader, tick: Tick, d: Trader)
    requires ValidPrecision(cfg.precision)
  {
    exists arrived ::
      && (if exists o :: DueNow(before, tick, o) && o.side.Buy?
          then HaltIs(cfg, tick.feed, Noted(before, tick), tick.arrivalClock, arrived)
          else arrived == before.halt)
      && HaltIs(cfg, tick.feed, d.(halt := arrived), tick.clock, d.halt)
  }

  /** The ticker's order is not yet due, or not on a full quote: nothing happens. */
  lemma NothingDue(cfg: Config, eventOf: string -> Option<string>, trader: Trader, tick: Tick)
    requires ValidConfig(cfg) && Inv(cfg, eventOf, trader)
    requires Fresh(tick) ==> DueOrder(trader, tick).None?
    ensures Arrived(cfg, eventOf, trader, tick) == Observed(trader, tick)
  {
    var seen := Observed(trader, tick);
    assert Distinct(trader.pending) && Positive(trader.account.positions);
    hide Inv, Distinct, GetPending, LossCheck, ArrivalBlocked, CheckExit, DueFilled;
    SideOfOnly(trader.pending, tick.ticker, Buy);
    SideOfOnly(trader.pending, tick.ticker, Sell);
    if Fresh(tick) { DueFilledIs(cfg, seen, tick); }
  }

  /** Judging the due exit again moves the peak and raises the order. */
  lemma ExitJudged(cfg: Config, eventOf: string -> Option<string>, trader: Trader, tick: Tick, o: Order)
    requires ValidConfig(cfg) && Inv(cfg, eventOf, trader) && Fresh(tick)
    requires DueOrder(trader, tick) == Some(o) && o.side.Sell?
    ensures tick.ticker in trader.account.positions
    ensures var j := Rejudged(cfg, eventOf, trader, tick);
      var pos := trader.account.positions[tick.ticker];
      && j == trader.(pending := j.pending, account := Account(
           trader.account.positions[tick.ticker := Peaked(pos, tick.bid.value)], trader.account.realized))
      && DueOrder(j, tick).Some?
      && RaisedBy(cfg, pos, tick.bid.value, tick.quoteTs, o, DueOrder(j, tick).value)
      && (forall u :: u != tick.ticker ==> PendingOf(j.pending, u) == PendingOf(trader.pending, u))
  {
    FoundHolds(trader.pending, trader.account.positions, tick.ticker);
    ExitRejudgedKeeps(cfg, eventOf, trader, tick);
    var j := ExitRejudged(cfg, trader, tick);
    assert Distinct(trader.pending) && Distinct(j.pending);
    hide Inv, Distinct, GetPending, LossCheck, ArrivalBlocked, ExitSignal, WithPeak, UpgradeExit, RaisedBy, Outranks;
    SideOfOnly(trader.pending, tick.ticker, Sell);
    var pos, bid := trader.account.positions[tick.ticker], tick.bid.value;
    PeakedIs(pos, bid);
    RaisedBySignal(cfg, pos, bid, tick.quoteTs, o);
    var signal := ExitSignal(cfg, pos, bid, tick.quoteTs);
    if signal.Some? {
      PriorityIsRank(signal.value, o.reason);
      forall u ensures PendingOf(UpgradeExit(trader.pending, tick.ticker, signal.value), u)
        == var p := PendingOf(trader.pending, u);
           if p.Some? && u == tick.ticker && p.value.side.Sell?
           then Some(p.value.(reason := signal.value, limit := None)) else p
      {
        UpgradeFinds(trader.pending, tick.ticker, signal.value, u);
      }
    }
    SideOfOnly(j.pending, tick.ticker, Buy);
  }

  lemma DueExitSettles(cfg: Config, eventOf: string -> Option<string>, trader: Trader, tick: Tick, o: Order)
    requires ValidConfig(cfg) && Inv(cfg, eventOf, trader) && Fresh(tick)
    requires DueOrder(trader, tick) == Some(o) && o.side.Sell?
    ensures var a := DueFilled(cfg, Rejudged(cfg, eventOf, trader, tick), tick);
      && a == trader.(account := a.account, pending := a.pending)
      && OrderSettles(cfg, eventOf, trader, tick, o, a.account)
      && PendingOf(a.pending, tick.ticker).None?
      && (forall u :: u != tick.ticker ==> PendingOf(a.pending, u) == PendingOf(trader.pending, u))
  {
    ExitJudged(cfg, eventOf, trader, tick, o);
    RejudgedKeeps(cfg, eventOf, trader, tick);
    var j := Rejudged(cfg, eventOf, trader, tick);
    var later := DueOrder(j, tick).value;
    assert Positive(trader.account.positions) && Positive(j.account.positions) && Distinct(j.pending);
    assert OrdersHold(j.pending, j.account.positions);
    hide Inv, Distinct, OrdersHold, GetPending, RaisedBy, Rejudged, DueFilled, ExitSettles, Attempted, AfterAttempt;
    FoundHolds(j.pending, j.account.positions, tick.ticker);
    DueFilledIs(cfg, j, tick);
    LaterSells(cfg, trader.account.positions[tick.ticker], tick.bid.value, tick.quoteTs, o, later);
    AttemptedExit(cfg, tick, later, j.account);
    DueLeaves(j.pending, tick.quoteTs, tick.ticker, later);
  }

  lemma LaterSells(cfg: Config, pos: Position, bid: real, now: real, o: Order, later: Order)
    requires RaisedBy(cfg, pos, bid, now, o, later)
    ensures later.side == o.side
  {
    if exists reason :: ExitCalled(cfg, pos, bid, now, reason) {
      var reason :| ExitCalled(cfg, pos, bid, now, reason);
      assert later == Retag(o, reason);
    }
  }

  /** Without its due order the ticker has none; other tickers' orders stay. */
  lemma DueLeaves(pending: seq<Order>, now: real, ticker: string, o: Order)
    requires Without(pending, Remaining(pending, now, Some(ticker)), o) && o.ticker == ticker
    ensures var left := Remaining(pending, now, Some(ticker));
      && PendingOf(left, ticker).None?
      && (forall u :: u != ticker ==> PendingOf(left, u) == PendingOf(pending, u))
  {
    hide GetPending, HasPending, Remaining;
    HasIsGet(Remaining(pending, now, Some(ticker)), Some(ticker), None);
    forall u | u != ticker ensures PendingOf(Remaining(pending, now, Some(ticker)), u) == PendingOf(pending, u) {
      OthersRemain(pending, now, ticker, u);
    }
  }

  /** An entry is blocked exactly when it is not admitted. */
  lemma BlockedIs(cfg: Config, eventOf: string -> Option<string>, trader: Trader, tick: Tick)
    requires ValidConfig(cfg) && Positive(trader.account.positions) && Fresh(tick)
    ensures ArrivalBlocked(cfg, eventOf, LossCheck(cfg, trader, tick.feed, tick.arrivalClock), tick)
       <==> !Admits(cfg, eventOf, trader, tick)
  {
    HaltsExactly(cfg, tick.feed, trader, tick.arrivalClock);
    hide LossCheck, SharesEvent, Conflicts, Tickers, Losing, NoBid;
    ConflictIsShared(eventOf, trader, tick.ticker);
  }

  lemma EntryJudged(cfg: Config, eventOf: string -> Option<string>, trader: Trader, tick: Tick, o: Order)
    requires ValidConfig(cfg) && Inv(cfg, eventOf, trader) && Fresh(tick)
    requires DueOrder(trader, tick) == Some(o) && o.side.Buy?
    ensures var j := Rejudged(cfg, eventOf, trader, tick);
      && j == trader.(pending := j.pending, status := j.status, halt := j.halt)
      && HaltIs(cfg, tick.feed, trader, tick.arrivalClock, j.halt)
      && (if Admits(cfg, eventOf, trader, tick) then j.pending == trader.pending && j.status == trader.status
          else
            && j.pending == CancelPending(trader.pending, Some(tick.ticker), Some(Buy))
            && j.status == trader.status[tick.ticker := CanceledAtArrival])
  {
    assert Distinct(trader.pending) && Positive(trader.account.positions);
    hide Inv, Distinct, GetPending, LossCheck, ArrivalBlocked, CheckExit, Admits, HaltIs;
    SideOfOnly(trader.pending, tick.ticker, Sell);
    SideOfOnly(trader.pending, tick.ticker, Buy);
    BlockedIs(cfg, eventOf, trader, tick);
    HaltsExactly(cfg, tick.feed, trader, tick.arrivalClock);
  }

  lemma DueEntrySettles(cfg: Config, eventOf: string -> Option<string>, trader: Trader, tick: Tick, o: Order)
    requires ValidConfig(cfg) && Inv(cfg, eventOf, trader) && Fresh(tick)
    requires DueOrder(trader, tick) == Some(o) && o.side.Buy?
    ensures var a := DueFilled(cfg, Rejudged(cfg, eventOf, trader, tick), tick);
      && a == trader.(account := a.account, pending := a.pending, status := a.status, halt := a.halt)
      && HaltIs(cfg, tick.feed, trader, tick.arrivalClock, a.halt)
      && EntrySettles(cfg, tick, o, Admits(cfg, eventOf, trader, tick), trader.account, a.account)
      && (a.status == if Admits(cfg, eventOf, trader, tick) then trader.status
                      else trader.status[tick.ticker := CanceledAtArrival])
      && PendingOf(a.pending, tick.ticker).None?
      && (forall u :: u != tick.ticker ==> PendingOf(a.pending, u) == PendingOf(trader.pending, u))
  {
    EntryJudged(cfg, eventOf, trader, tick, o);
    RejudgedKeeps(cfg, eventOf, trader, tick);
    var j := Rejudged(cfg, eventOf, trader, tick);
    assert Positive(trader.account.positions) && Distinct(trader.pending) && Distinct(j.pending);
    assert OrdersHold(trader.pending, trader.account.positions);
    hide Inv, Distinct, OrdersHold, GetPending, Rejudged, DueFilled, EntrySettles, Attempted, AfterAttempt, HaltIs;
    hide Admits, HasPending;
    FoundHolds(trader.pending, trader.account.positions, tick.ticker);
    DueFilledIs(cfg, j, tick);
    if Admits(cfg, eventOf, trader, tick) {
      AttemptedEntry(cfg, tick, o, trader.account);
      DueLeaves(j.pending, tick.quoteTs, tick.ticker, o);
    } else {
      NotSettled(cfg, tick, o, trader.account);
      SideOfOnly(trader.pending, tick.ticker, Buy);
      OneCanceled(trader.pending, tick.ticker, Buy);
      HasIsGet(j.pending, Some(tick.ticker), None);
      forall u | u != tick.ticker ensures PendingOf(j.pending, u) == PendingOf(trader.pending, u) {
        OthersStay(trader.pending, tick.ticker, Buy, u);
      }
    }
  }

  lemma NotSettled(cfg: Config, tick: Tick, o: Order, account: Account)
    requires ValidPrecision(cfg.precision)
    ensures EntrySettles(cfg, tick, o, false, account, account)
  {
  }
}
