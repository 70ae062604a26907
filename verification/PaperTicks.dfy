/** What one observation does, all of it: what it settles, when it halts the trader, and what it then decides. */
module PaperTicks {
  import opened Common
  import opened Fees
  import opened PaperTrading
  import opened PendingOrders
  import opened PaperSafety
  import opened PaperCash
  import opened PaperLatency
  import opened PaperFills
  import opened PaperEntries
  import opened PaperSettling

  // ---------- What the decision leaves ----------

  /** The pending orders of the ticker after the decision, when the bid calls for an exit of `pos`. */
  ghost predicate ExitLeft(cfg: Config, tick: Tick, pos: Position, reason: Reason, before: set<Order>,
                           after: set<Order>)
  {
    var bid := if tick.ticker in tick.feed then tick.feed[tick.ticker].bid else None;
    && (before == {} ==>
          after == {Order(tick.ticker, Sell, pos.contracts, tick.now + cfg.latency, reason,
                          if reason.Other? then bid else None,
                          Some(Basis(pos.entryPrice, pos.contracts, pos.entryFee)))})
    && forall o :: before == {o} ==> after == {Retag(o, reason)}
  }

  /** A halted trader, or one waiting to buy the ticker, decides nothing. */
  ghost predicate Idle(d: Trader, ticker: string) {
    d.halt.Some? || exists o :: o in OrdersFor(d.pending, ticker) && o.side.Buy?
  }

  /** The decision of the state `d`, whole. */
  ghost predicate Decides(cfg: Config, eventOf: string -> Option<string>, d: Trader, tick: Tick, r: Trader)
    requires ValidPrecision(cfg.precision)
  {
    var before, after := OrdersFor(d.pending, tick.ticker), OrdersFor(r.pending, tick.ticker);
    && r == d.(account := r.account, pending := r.pending, status := r.status)
    && (forall u :: u != tick.ticker ==> OrdersFor(r.pending, u) == OrdersFor(d.pending, u))
    && if Idle(d, tick.ticker) then r.account == d.account && after == before
       else if tick.ticker in d.account.positions && tick.bid.Some? then
         var pos := d.account.positions[tick.ticker];
         && r.account
            == Account(d.account.positions[tick.ticker := Peaked(pos, tick.bid.value)], d.account.realized)
         && (forall reason :: ExitCalled(cfg, pos, tick.bid.value, tick.now, reason) ==>
               ExitLeft(cfg, tick, pos, reason, before, after))
         && ((forall reason :: !ExitCalled(cfg, pos, tick.bid.value, tick.now, reason)) ==> after == before)
       else
         && r.account == d.account
         && forall o :: o in after <==> o in before || Signalled(cfg, eventOf, d, tick, o)
  }

  lemma IdleIs(d: Trader, ticker: string)
    requires Distinct(d.pending)
    ensures Idle(d, ticker) <==> d.halt.Some? || HasPending(d.pending, Some(ticker), Some(Buy))
  {
    hide Distinct, HasPending, GetPending;
    OrdersForIs(d.pending, ticker);
    HasIsGet(d.pending, Some(ticker), Some(Buy));
    SideOfOnly(d.pending, ticker, Buy);
    var o := PendingOf(d.pending, ticker);
    if o.Some? { assert o.value in OrdersFor(d.pending, ticker); }
  }

  lemma ExitDecides(cfg: Config, d: Trader, tick: Tick, pos: Position, reason: Reason)
    requires tick.ticker in d.account.positions && Distinct(d.pending)
    requires pos == d.account.positions[tick.ticker].(peakBid := pos.peakBid)
    requires PendingOf(d.pending, tick.ticker).Some? ==> PendingOf(d.pending, tick.ticker).value.side.Sell?
    ensures var r := ExitDecided(cfg, d, tick, reason);
      && r == d.(pending := r.pending) && Distinct(r.pending)
      && ExitLeft(cfg, tick, pos, reason, OrdersFor(d.pending, tick.ticker), OrdersFor(r.pending, tick.ticker))
  {
    var r := ExitDecided(cfg, d, tick, reason);
    var exit := NewOrder(cfg, tick.feed, tick.ticker, Sell, pos.contracts, reason, tick.now,
                          Some(Basis(pos.entryPrice, pos.contracts, pos.entryFee)));
    SideOfOnly(d.pending, tick.ticker, Sell);
    HasIsGet(d.pending, Some(tick.ticker), None);
    UpgradeFinds(d.pending, tick.ticker, reason, tick.ticker);
    UpgradeRetags(d.pending, tick.ticker, reason);
    FoundInAppended(d.pending, exit, tick.ticker);
    OrdersForIs(d.pending, tick.ticker);
    hide Distinct, HasPending, GetPending, UpgradeExit, OrdersFor, Priority, Outranks;
    var o := PendingOf(d.pending, tick.ticker);
    if o.Some? {
      PriorityIsRank(reason, o.value.reason);
      OrdersForIs(r.pending, tick.ticker);
    } else {
      Appended(d.pending, exit);
      OrdersForIs(r.pending, tick.ticker);
    }
  }

  lemma HeldDecides(cfg: Config, eventOf: string -> Option<string>, d: Trader, tick: Tick)
    requires ValidConfig(cfg) && Inv(cfg, eventOf, d) && !Idle(d, tick.ticker)
    requires tick.ticker in d.account.positions && tick.bid.Some?
    ensures Decides(cfg, eventOf, d, tick, Decided(cfg, eventOf, d, tick))
  {
    var r := Decided(cfg, eventOf, d, tick);
    var pos, bid := d.account.positions[tick.ticker], tick.bid.value;
    DecidedKeeps(cfg, eventOf, d, tick);
    assert Distinct(d.pending) && Distinct(r.pending);
    IdleIs(d, tick.ticker);
    HeldIsNotBought(cfg, eventOf, d, tick.ticker);
    OthersKept(cfg, eventOf, d, tick);
    PeakedIs(pos, bid);
    var judged := WithPositions(d, d.account.positions[tick.ticker := Peaked(pos, bid)]);
    HeldNotEntered(cfg, eventOf, judged, tick);
    hide Inv, Distinct, HasPending, GetPending, ExitSignal, WithPeak, ExitCalled, ExitLeft, Idle, OrdersFor, Peaked;
    hide ExitDecided;
    forall reason: Reason
      ensures ExitSignal(cfg, pos, bid, tick.now) == Some(reason) <==> ExitCalled(cfg, pos, bid, tick.now, reason)
    {
      SignalIsCall(cfg, pos, bid, tick.now, reason);
    }
    var signal := ExitSignal(cfg, pos, bid, tick.now);
    if signal.Some? {
      assert r == ExitDecided(cfg, judged, tick, signal.value);
      PeakOnly(pos, bid);
      ExitDecides(cfg, judged, tick, pos, signal.value);
    } else {
      NothingElse(cfg, eventOf, judged, tick);
    }
  }

  lemma PeakOnly(pos: Position, bid: real)
    ensures pos == Peaked(pos, bid).(peakBid := pos.peakBid)
  {
  }

  lemma NothingElse(cfg: Config, eventOf: string -> Option<string>, d: Trader, tick: Tick)
    requires ValidPrecision(cfg.precision)
    ensures var r := EntryDecided(cfg, eventOf, d, tick); r == d.(pending := r.pending, status := r.status)
  {
    hide CheckEntry, EventBlocks, PendingCount, HasPending;
  }

  lemma OthersKept(cfg: Config, eventOf: string -> Option<string>, d: Trader, tick: Tick)
    requires ValidConfig(cfg) && Inv(cfg, eventOf, d)
    ensures var r := Decided(cfg, eventOf, d, tick);
      forall u :: u != tick.ticker ==> OrdersFor(r.pending, u) == OrdersFor(d.pending, u)
  {
    DecidedKeeps(cfg, eventOf, d, tick);
    var r := Decided(cfg, eventOf, d, tick);
    assert Distinct(d.pending) && Distinct(r.pending);
    hide Inv, Distinct, GetPending, OrdersFor, Decided;
    forall u | u != tick.ticker ensures OrdersFor(r.pending, u) == OrdersFor(d.pending, u) {
      OthersDecided(cfg, eventOf, d, tick, u);
      OrdersForIs(d.pending, u);
      OrdersForIs(r.pending, u);
    }
  }

  /** With no bid, or nothing held, only an entry can come. */
  lemma EntryDecides(cfg: Config, eventOf: string -> Option<string>, d: Trader, tick: Tick)
    requires ValidConfig(cfg) && Inv(cfg, eventOf, d) && !Idle(d, tick.ticker)
    requires tick.ticker !in d.account.positions || tick.bid.None?
    ensures Decides(cfg, eventOf, d, tick, Decided(cfg, eventOf, d, tick))
  {
    var r := Decided(cfg, eventOf, d, tick);
    DecidedKeeps(cfg, eventOf, d, tick);
    assert Distinct(d.pending) && Distinct(r.pending);
    IdleIs(d, tick.ticker);
    OthersKept(cfg, eventOf, d, tick);
    OrdersForIs(d.pending, tick.ticker);
    OrdersForIs(r.pending, tick.ticker);
    assert WithPositions(d, d.account.positions) == d;
    NothingElse(cfg, eventOf, d, tick);
    if tick.ticker in d.account.positions {
      hide Inv, Distinct, HasPending, GetPending, Idle, OrdersFor, EntryDecided, Signalled;
      HeldNotEntered(cfg, eventOf, d, tick);
      forall o: Order ensures !Signalled(cfg, eventOf, d, tick, o) { NotSignalled(cfg, eventOf, d, tick, o); }
    } else {
      NoOrder(cfg, eventOf, d, tick.ticker);
      FreeIsNone(d.pending, tick.ticker);
      HasIsGet(d.pending, Some(tick.ticker), Some(Sell));
      SideOfOnly(d.pending, tick.ticker, Sell);
      assert d.halt.None?;
      hide Inv, Distinct, HasPending, GetPending, Idle, OrdersFor, EntryDecided, Signalled, Free;
      forall o: Order
        ensures PendingOf(r.pending, tick.ticker) == Some(o) <==> Signalled(cfg, eventOf, d, tick, o)
      {
        EntryExactly(cfg, eventOf, d, tick, o);
      }
    }
  }

  lemma NoOrder(cfg: Config, eventOf: string -> Option<string>, d: Trader, ticker: string)
    requires Inv(cfg, eventOf, d) && !Idle(d, ticker) && ticker !in d.account.positions
    ensures PendingOf(d.pending, ticker).None?
  {
    IdleIs(d, ticker);
    HasIsGet(d.pending, Some(ticker), Some(Buy));
    SideOfOnly(d.pending, ticker, Buy);
    hide HasPending, GetPending, Distinct, Idle;
    if PendingOf(d.pending, ticker).Some? { FoundHolds(d.pending, d.account.positions, ticker); }
  }

  lemma DecidesExactly(cfg: Config, eventOf: string -> Option<string>, d: Trader, tick: Tick)
    requires ValidConfig(cfg) && Inv(cfg, eventOf, d)
    ensures Decides(cfg, eventOf, d, tick, Decided(cfg, eventOf, d, tick))
  {
    assert Distinct(d.pending);
    IdleIs(d, tick.ticker);
    hide Inv, HasPending, Idle, OrdersFor, Decides;
    if Idle(d, tick.ticker) {
      assert Decides(cfg, eventOf, d, tick, d);
    } else if tick.ticker in d.account.positions && tick.bid.Some? {
      HeldDecides(cfg, eventOf, d, tick);
    } else {
      EntryDecides(cfg, eventOf, d, tick);
    }
  }

  // ---------- Orders by ticker ----------

  lemma DueNowIs(trader: Trader, tick: Tick, o: Order)
    requires Distinct(trader.pending)
    ensures DueNow(trader, tick, o) <==> Fresh(tick) && DueOrder(Observed(trader, tick), tick) == Some(o)
  {
    hide Distinct, GetPending, OrdersFor;
    OrdersForIs(trader.pending, tick.ticker);
  }

  /** Equal orders ticker by ticker. */
  lemma SameOrders(a: seq<Order>, b: seq<Order>)
    requires Distinct(a) && Distinct(b)
    ensures forall u :: PendingOf(a, u) == PendingOf(b, u) <==> OrdersFor(a, u) == OrdersFor(b, u)
    ensures forall u :: PendingOf(a, u).None? <==> OrdersFor(a, u) == {}
  {
    hide Distinct, GetPending, OrdersFor;
    forall u
      ensures OrdersFor(a, u) == (var o := PendingOf(a, u); if o.Some? then {o.value} else {})
           && OrdersFor(b, u) == (var o := PendingOf(b, u); if o.Some? then {o.value} else {})
    {
      OrdersForIs(a, u);
      OrdersForIs(b, u);
    }
    forall u | OrdersFor(a, u) == OrdersFor(b, u) ensures PendingOf(a, u) == PendingOf(b, u) {
      if PendingOf(a, u).Some? { assert PendingOf(a, u).value in OrdersFor(b, u); }
      if PendingOf(b, u).Some? { assert PendingOf(b, u).value in OrdersFor(a, u); }
    }
  }

  // ---------- What is said of the ticker ----------

  /** A due entry that is not admitted was canceled at arrival. */
  ghost predicate SaidOnArrival(cfg: Config, eventOf: string -> Option<string>, before: Trader, tick: Tick,
                                status: map<string, EntryStatus>)
    requires ValidPrecision(cfg.precision)
  {
    status == if (exists o :: DueNow(before, tick, o) && o.side.Buy?)
                   && !Admits(cfg, eventOf, Noted(before, tick), tick)
              then before.status[tick.ticker := CanceledAtArrival] else before.status
  }

  function AskSize(tick: Tick): Option<real> {
    if tick.ticker in tick.feed then tick.feed[tick.ticker].askQty else None
  }

  /** Some size is worth buying. */
  ghost predicate Wanted(cfg: Config, d: Trader, tick: Tick)
    requires ValidPrecision(cfg.precision)
  {
    exists size :: Worth(cfg, d.account, tick, AskSize(tick), size)
  }

  /** Some exit of the ticker is called for. */
  ghost predicate Called(cfg: Config, d: Trader, tick: Tick) {
    && tick.ticker in d.account.positions && tick.bid.Some?
    && exists reason :: ExitCalled(cfg, d.account.positions[tick.ticker], tick.bid.value, tick.now, reason)
  }

  /** What the decision says of the ticker, if it comes to an entry. */
  ghost function Said(cfg: Config, eventOf: string -> Option<string>, d: Trader, tick: Tick): EntryStatus
    requires ValidPrecision(cfg.precision)
  {
    var wanted := Wanted(cfg, d, tick);
    if !tick.closeAllowed then CloseHorizon
    else if wanted && cfg.oneContractPerEvent && Conflicts(eventOf, d, tick.ticker) then EventSibling
    else if wanted && tick.siblingBlocks then SiblingSpike
    else if wanted && tick.gateBlocks then ScoreBlocked
    else if tick.earlyCloseRisk then PaperAllowed else Eligible
  }

  ghost predicate SaidByDecision(cfg: Config, eventOf: string -> Option<string>, d: Trader, tick: Tick,
                                 status: map<string, EntryStatus>)
    requires ValidPrecision(cfg.precision)
  {
    var passed := Idle(d, tick.ticker) || !Free(d.pending, tick.ticker) || Called(cfg, d, tick) || FullyExposed(cfg, d);
    status == if passed then d.status else d.status[tick.ticker := Said(cfg, eventOf, d, tick)]
  }

  lemma WantedIs(cfg: Config, d: Trader, tick: Tick)
    requires ValidConfig(cfg)
    ensures Wanted(cfg, d, tick)
       <==> CheckEntry(cfg, d.account, tick, TopOfBook(tick.feed, tick.ticker).askQty).Some?
  {
    hide CheckEntry, Worth;
    var askQty := TopOfBook(tick.feed, tick.ticker).askQty;
    forall size: real
      ensures CheckEntry(cfg, d.account, tick, askQty) == Some(size) <==> Worth(cfg, d.account, tick, askQty, size)
    {
      EntryMeans(cfg, d.account, tick, askQty, size);
    }
    var size := CheckEntry(cfg, d.account, tick, askQty);
    assert AskSize(tick) == askQty;
    if size.Some? { assert Worth(cfg, d.account, tick, AskSize(tick), size.value); }
  }

  lemma EntrySays(cfg: Config, eventOf: string -> Option<string>, d: Trader, tick: Tick)
    requires ValidConfig(cfg) && Inv(cfg, eventOf, d)
    ensures EntryDecided(cfg, eventOf, d, tick).status
         == if FullyExposed(cfg, d) then d.status else d.status[tick.ticker := Said(cfg, eventOf, d, tick)]
  {
    FullIs(cfg, eventOf, d);
    SharedIs(cfg, eventOf, d, tick.ticker);
    WantedIs(cfg, d, tick);
    hide CheckEntry, Wanted, Inv, Conflicts, EventBlocks, PendingCount, FullyExposed, SubmitPaper, TopOfBook;
  }

  lemma SharedIs(cfg: Config, eventOf: string -> Option<string>, d: Trader, ticker: string)
    ensures EventBlocks(cfg, eventOf, d, ticker) <==> cfg.oneContractPerEvent && Conflicts(eventOf, d, ticker)
  {
    ConflictIsShared(eventOf, d, ticker);
    hide Conflicts, SharesEvent, Exposed;
  }

  lemma FullIs(cfg: Config, eventOf: string -> Option<string>, d: Trader)
    requires Inv(cfg, eventOf, d)
    ensures |d.account.positions| + PendingCount(d.pending, Some(Buy)) >= cfg.maxOpen <==> FullyExposed(cfg, d)
  {
    ExposureIsTickers(cfg, eventOf, d);
  }

  lemma HeldNotWanted(cfg: Config, d: Trader, tick: Tick)
    requires ValidConfig(cfg) && tick.ticker in d.account.positions
    ensures !Wanted(cfg, d, tick)
  {
    WantedIs(cfg, d, tick);
  }

  /** A moved peak changes nothing that is said of the ticker. */
  lemma PeakSaysNothing(cfg: Config, eventOf: string -> Option<string>, d: Trader, tick: Tick)
    requires ValidConfig(cfg) && tick.ticker in d.account.positions && tick.bid.Some?
    ensures var pos := d.account.positions[tick.ticker];
      var judged := WithPositions(d, d.account.positions[tick.ticker := Peaked(pos, tick.bid.value)]);
      && Said(cfg, eventOf, judged, tick) == Said(cfg, eventOf, d, tick)
      && (FullyExposed(cfg, judged) <==> FullyExposed(cfg, d))
  {
    hide ProjectedScalpPnl, Dipped, BuyTickers, IsSmaller, Peaked;
    var pos := d.account.positions[tick.ticker];
    var judged := WithPositions(d, d.account.positions[tick.ticker := Peaked(pos, tick.bid.value)]);
    assert judged.account.positions.Keys == d.account.positions.Keys;
    assert Conflicts(eventOf, judged, tick.ticker) <==> Conflicts(eventOf, d, tick.ticker);
    HeldNotWanted(cfg, judged, tick);
    HeldNotWanted(cfg, d, tick);
  }

  lemma CalledIs(cfg: Config, d: Trader, tick: Tick)
    requires tick.ticker in d.account.positions && tick.bid.Some?
    ensures Called(cfg, d, tick)
       <==> ExitSignal(cfg, d.account.positions[tick.ticker], tick.bid.value, tick.now).Some?
  {
    var pos, bid := d.account.positions[tick.ticker], tick.bid.value;
    hide ExitSignal, ExitCalled;
    forall reason: Reason
      ensures ExitSignal(cfg, pos, bid, tick.now) == Some(reason) <==> ExitCalled(cfg, pos, bid, tick.now, reason)
    {
      SignalIsCall(cfg, pos, bid, tick.now, reason);
    }
    if ExitSignal(cfg, pos, bid, tick.now).Some? {
      assert ExitCalled(cfg, pos, bid, tick.now, ExitSignal(cfg, pos, bid, tick.now).value);
    }
  }

  lemma DecisionSays(cfg: Config, eventOf: string -> Option<string>, d: Trader, tick: Tick)
    requires ValidConfig(cfg) && Inv(cfg, eventOf, d)
    ensures SaidByDecision(cfg, eventOf, d, tick, Decided(cfg, eventOf, d, tick).status)
  {
    assert Distinct(d.pending);
    IdleIs(d, tick.ticker);
    FreeIsNone(d.pending, tick.ticker);
    HasIsGet(d.pending, Some(tick.ticker), Some(Buy));
    HasIsGet(d.pending, Some(tick.ticker), Some(Sell));
    SideOfOnly(d.pending, tick.ticker, Buy);
    SideOfOnly(d.pending, tick.ticker, Sell);
    PeakKeeps(cfg, eventOf, d, tick.ticker, tick.bid, tick.now);
    var (positions, signal) := CheckExit(cfg, d.account.positions, tick.ticker, tick.bid, tick.now);
    var judged := WithPositions(d, positions);
    EntrySays(cfg, eventOf, judged, tick);
    if tick.ticker in d.account.positions && tick.bid.Some? {
      CalledIs(cfg, d, tick);
      PeakedIs(d.account.positions[tick.ticker], tick.bid.value);
      PeakSaysNothing(cfg, eventOf, d, tick);
    } else {
      assert judged == d;
    }
    hide Inv, Distinct, HasPending, GetPending, ExitSignal, WithPeak, Peaked, Called, Idle, Free, FullyExposed, Said;
    hide ExitDecided, EntryDecided;
    if signal.Some? { ExitSaysNothing(cfg, judged, tick, signal.value); }
  }

  lemma ExitSaysNothing(cfg: Config, d: Trader, tick: Tick, reason: Reason)
    requires tick.ticker in d.account.positions
    ensures ExitDecided(cfg, d, tick, reason).status == d.status
  {
    hide GetPending, UpgradeExit, HasPending;
  }

  lemma ArrivalSays(cfg: Config, eventOf: string -> Option<string>, trader: Trader, tick: Tick)
    requires ValidConfig(cfg) && Inv(cfg, eventOf, trader)
    ensures SaidOnArrival(cfg, eventOf, trader, tick, Arrived(cfg, eventOf, trader, tick).status)
  {
    var seen := Observed(trader, tick);
    assert seen == Noted(trader, tick) && Inv(cfg, eventOf, seen) && Distinct(trader.pending);
    assert Positive(trader.account.positions);
    forall o: Order
      ensures DueNow(trader, tick, o) <==> Fresh(tick) && DueOrder(seen, tick) == Some(o)
    {
      DueNowIs(trader, tick, o);
    }
    assert DueOrder(seen, tick) == DueOrder(trader, tick) by { SameDue(trader, tick); }
    hide Inv, Distinct, GetPending, Rejudged, DueFilled, OrderSettles, EntrySettles, HaltIs, DueNow, DueOrder, Admits;
    if !Fresh(tick) || DueOrder(seen, tick).None? {
      NothingDue(cfg, eventOf, trader, tick);
    } else if DueOrder(seen, tick).value.side.Sell? {
      DueExitSettles(cfg, eventOf, seen, tick, DueOrder(seen, tick).value);
    } else {
      DueEntrySettles(cfg, eventOf, seen, tick, DueOrder(seen, tick).value);
      assert DueNow(trader, tick, DueOrder(seen, tick).value);
    }
  }

  // ---------- The whole observation ----------

  lemma SettlesNone(cfg: Config, eventOf: string -> Option<string>, trader: Trader, tick: Tick)
    requires ValidPrecision(cfg.precision) && forall o :: !DueNow(trader, tick, o)
    ensures Settles(cfg, eventOf, trader, tick, Noted(trader, tick))
  {
    hide OrdersFor, DueNow, OrderSettles;
  }

  lemma SettlesOne(cfg: Config, eventOf: string -> Option<string>, trader: Trader, tick: Tick, o: Order, a: Trader)
    requires ValidPrecision(cfg.precision) && DueNow(trader, tick, o)
    requires forall other :: DueNow(trader, tick, other) ==> other == o
    requires (a.latestBid, a.bidTs) == (Noted(trader, tick).latestBid, Noted(trader, tick).bidTs)
    requires forall u :: u != tick.ticker ==> OrdersFor(a.pending, u) == OrdersFor(trader.pending, u)
    requires OrdersFor(a.pending, tick.ticker) == {} && OrderSettles(cfg, eventOf, trader, tick, o, a.account)
    ensures Settles(cfg, eventOf, trader, tick, a)
  {
    hide OrdersFor, OrderSettles;
  }

  /** What settles the due order, and how the trader may have halted by then. */
  lemma ArrivedSettles(cfg: Config, eventOf: string -> Option<string>, trader: Trader, tick: Tick)
    requires ValidConfig(cfg) && Inv(cfg, eventOf, trader)
    ensures var a := Arrived(cfg, eventOf, trader, tick);
      && Settles(cfg, eventOf, trader, tick, a)
      && (if exists o :: DueNow(trader, tick, o) && o.side.Buy?
          then HaltIs(cfg, tick.feed, Noted(trader, tick), tick.arrivalClock, a.halt)
          else a.halt == trader.halt)
  {
    var seen, arrived := Observed(trader, tick), Arrived(cfg, eventOf, trader, tick);
    assert seen == Noted(trader, tick);
    TickKeeps(cfg, eventOf, trader, tick);
    assert Inv(cfg, eventOf, seen) && Distinct(trader.pending) && Distinct(arrived.pending);
    SameOrders(arrived.pending, trader.pending);
    forall o: Order
      ensures DueNow(trader, tick, o) <==> Fresh(tick) && DueOrder(seen, tick) == Some(o)
    {
      DueNowIs(trader, tick, o);
    }
    hide Inv, Distinct, GetPending, OrdersFor, Rejudged, DueFilled, OrderSettles, HaltIs, DueNow, DueOrder, Admits;
    if !Fresh(tick) || DueOrder(seen, tick).None? {
      assert arrived == seen by {
        assert DueOrder(seen, tick) == DueOrder(trader, tick) by { SameDue(trader, tick); }
        NothingDue(cfg, eventOf, trader, tick);
      }
      SettlesNone(cfg, eventOf, trader, tick);
      hide Settles, Noted, Arrived, Observed;
    } else {
      var o := DueOrder(seen, tick).value;
      assert DueNow(trader, tick, o);
      if o.side.Sell? {
        DueExitSettles(cfg, eventOf, seen, tick, o);
      } else {
        DueEntrySettles(cfg, eventOf, seen, tick, o);
      }
      assert OrderSettles(cfg, eventOf, seen, tick, o, arrived.account) by { SeenTwice(trader, tick); }
      SettlesSeen(cfg, eventOf, trader, tick, o, arrived.account);
      SettlesOne(cfg, eventOf, trader, tick, o, arrived);
      hide Settles;
    }
  }

  lemma SameDue(trader: Trader, tick: Tick)
    ensures DueOrder(Observed(trader, tick), tick) == DueOrder(trader, tick)
  {
  }

  lemma SeenTwice(trader: Trader, tick: Tick)
    ensures Noted(Observed(trader, tick), tick) == Noted(trader, tick)
  {
  }

  lemma SettlesSeen(cfg: Config, eventOf: string -> Option<string>, trader: Trader, tick: Tick, o: Order,
                    after: Account)
    requires ValidPrecision(cfg.precision) && FullQuote(tick)
    requires OrderSettles(cfg, eventOf, Observed(trader, tick), tick, o, after)
    ensures OrderSettles(cfg, eventOf, trader, tick, o, after)
  {
    SeenTwice(trader, tick);
  }

  /**
    One observation, whole: it settles its ticker's due order exactly, halts exactly on a stale bid or a loss, and
    then decides exactly the ticker's next order.
  */
  lemma TickIsExactly(cfg: Config, eventOf: string -> Option<string>, trader: Trader, tick: Tick)
    requires ValidConfig(cfg) && Inv(cfg, eventOf, trader)
    ensures var d := Deciding(cfg, eventOf, trader, tick);
      && Settles(cfg, eventOf, trader, tick, d)
      && Halts(cfg, trader, tick, d)
      && Decides(cfg, eventOf, d, tick, ProcessTick(cfg, eventOf, trader, tick))
      && SaidOnArrival(cfg, eventOf, trader, tick, d.status)
      && SaidByDecision(cfg, eventOf, d, tick, ProcessTick(cfg, eventOf, trader, tick).status)
  {
    ArrivalSays(cfg, eventOf, trader, tick);
    TickKeeps(cfg, eventOf, trader, tick);
    assert Positive(trader.account.positions);
    var a, d := Arrived(cfg, eventOf, trader, tick), Deciding(cfg, eventOf, trader, tick);
    assert Inv(cfg, eventOf, d) && Positive(a.account.positions);
    ArrivedSettles(cfg, eventOf, trader, tick);
    hide Inv, Positive, Arrived, LossCheck, Decided, Decides, HaltIs, OrderSettles, OrdersFor, DueNow;
    hide SaidOnArrival, SaidByDecision;
    HaltsExactly(cfg, tick.feed, a, tick.clock);
    DecidesExactly(cfg, eventOf, d, tick);
    DecisionSays(cfg, eventOf, d, tick);
    assert d == a.(halt := d.halt) && d.(halt := a.halt) == a;
  }
}
