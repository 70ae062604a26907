/** Where the money goes: fills conserve cash, and exits book what was projected for them. */
module PaperCash {
  import opened Common
  import opened Fees
  import opened PaperTrading
  import opened PendingOrders
  import opened PaperSafety

  // ---------- Sums over maps ----------

  lemma {:induction false} SumTakes(m: map<string, real>, t: string)
    requires t in m
    ensures SumOf(m) == m[t] + SumOf(m - {t})
    decreases |m|
  {
    var first :| first in m && SumOf(m) == m[first] + SumOf(m - {first});
    if first != t {
      var less := m - {first};
      assert |less.Keys| < |m.Keys| by {
        assert less.Keys == m.Keys - {first};
      }
      SumTakes(less, t);
      assert |(m - {t}).Keys| < |m.Keys| by {
        assert (m - {t}).Keys == m.Keys - {t};
      }
      SumTakes(m - {t}, first);
      assert less - {t} == m - {t} - {first};
    }
  }

  lemma SumPut(m: map<string, real>, t: string, value: real)
    ensures SumOf(m[t := value]) == SumOf(m - {t}) + value
  {
    SumTakes(m[t := value], t);
    assert m[t := value] - {t} == m - {t};
  }

  lemma SumDrop(m: map<string, real>, t: string)
    ensures SumOf(m) == SumOf(m - {t}) + (if t in m then m[t] else 0.0)
  {
    if t in m { SumTakes(m, t); } else { assert m - {t} == m; }
  }

  // ---------- One fill ----------

  /** What the open positions cost: price and the entry fees not yet booked. */
  function OpenCosts(positions: map<string, Position>): map<string, real> {
    map t | t in positions :: OpenCostOf(positions[t])
  }

  /** Realized P&L less what is still invested. */
  ghost function NetWorth(account: Account): real { account.realized - SumOf(OpenCosts(account.positions)) }

  /** Dollars for contracts at a price in cents. */
  function Gross(price: real, contracts: real): real { price * contracts / 100.0 }

  /** What a fill moves the cash balance by. */
  function Cash(side: Side, fill: Fill): real {
    var gross := Gross(fill.price, fill.filled);
    if side.Buy? then -gross - fill.fee else gross - fill.fee
  }

  /** The part of a fill's cash that the books leave out: sales beyond the holding, and empty fills. */
  function Unmatched(account: Account, ticker: string, side: Side, fill: Fill): real {
    if fill.filled <= 0.0 then Cash(side, fill)
    else if side.Buy? then 0.0
    else if ticker !in account.positions then Cash(side, fill)
    else Gross(fill.price, fill.filled - Min(fill.filled, account.positions[ticker].contracts))
  }

  lemma CostsOfPut(positions: map<string, Position>, t: string, pos: Position)
    ensures SumOf(OpenCosts(positions[t := pos])) == SumOf(OpenCosts(positions - {t})) + OpenCostOf(pos)
  {
    SumPut(OpenCosts(positions), t, OpenCostOf(pos));
    assert OpenCosts(positions[t := pos]) == OpenCosts(positions)[t := OpenCostOf(pos)];
    assert OpenCosts(positions - {t}) == OpenCosts(positions) - {t};
  }

  lemma CostsWithout(positions: map<string, Position>, t: string)
    ensures SumOf(OpenCosts(positions))
         == SumOf(OpenCosts(positions - {t})) + (if t in positions then OpenCostOf(positions[t]) else 0.0)
  {
    SumDrop(OpenCosts(positions), t);
    assert OpenCosts(positions - {t}) == OpenCosts(positions) - {t};
  }

  lemma AveragedCost(pos: Position, fill: Fill)
    requires pos.contracts > 0.0 && fill.filled > 0.0
    ensures OpenCostOf(AveragedIn(pos, fill)) == OpenCostOf(pos) - Cash(Buy, fill)
  {
    var total := pos.contracts + fill.filled;
    var spent := pos.entryPrice * pos.contracts + fill.price * fill.filled;
    assert spent / total * total == spent;
  }

  lemma ClosedCost(pos: Position, fill: Fill, left: real)
    requires pos.contracts > 0.0 && left == pos.contracts - Min(fill.filled, pos.contracts)
    ensures var closing := Min(fill.filled, pos.contracts);
      ClosedPnl(pos, fill) == Gross(fill.price, closing) - fill.fee
        - OpenCostOf(pos) + OpenCostOf(pos.(contracts := left, entryFee := pos.entryFee - FeePart(pos, closing)))
    ensures left == 0.0 ==> FeePart(pos, Min(fill.filled, pos.contracts)) == pos.entryFee
  {
    var closing := Min(fill.filled, pos.contracts);
    hide FeePart;
    assert (fill.price - pos.entryPrice) * closing == fill.price * closing - pos.entryPrice * closing;
    assert pos.entryPrice * left == pos.entryPrice * pos.contracts - pos.entryPrice * closing;
    WholeFee(pos);
  }

  lemma WholeFee(pos: Position)
    requires pos.contracts > 0.0
    ensures FeePart(pos, pos.contracts) == pos.entryFee
  {
  }

  /** One fill moves net worth by its cash, less what the books leave out. */
  lemma FillConserves(account: Account, ticker: string, side: Side, fill: Fill, now: real)
    requires Positive(account.positions)
    ensures NetWorth(RecordFill(account, ticker, side, fill, now))
         == NetWorth(account) + Cash(side, fill) - Unmatched(account, ticker, side, fill)
  {
    if fill.filled > 0.0 {
      if side.Buy? { BuyConserves(account, ticker, fill, now); } else { SellConserves(account, ticker, fill, now); }
    }
  }

  /** Exactly when a single fill is conserved. */
  lemma FillConservedExactly(account: Account, ticker: string, side: Side, fill: Fill, now: real)
    requires Positive(account.positions)
    ensures NetWorth(RecordFill(account, ticker, side, fill, now)) == NetWorth(account) + Cash(side, fill)
       <==> if fill.filled <= 0.0 || (side.Sell? && ticker !in account.positions) then Cash(side, fill) == 0.0
            else side.Buy? || fill.filled <= account.positions[ticker].contracts || fill.price == 0.0
  {
    hide NetWorth, RecordFill;
    FillConserves(account, ticker, side, fill, now);
    if ticker in account.positions {
      NothingGross(fill.price, fill.filled - Min(fill.filled, account.positions[ticker].contracts));
    }
  }

  lemma NothingGross(price: real, contracts: real)
    ensures Gross(price, contracts) == 0.0 <==> price == 0.0 || contracts == 0.0
  {
  }

  /** Selling two contracts at 60 cents out of a holding of one loses the second one's 60 cents. */
  lemma OversellLosesCash(ticker: string)
    ensures var held := Account(map[ticker := Position(50.0, 1.0, 0.0, 0.0, None)], 0.0);
      var fill := Fill(60.0, 2.0, 0.0);
      NetWorth(RecordFill(held, ticker, Sell, fill, 1.0)) == NetWorth(held) + Cash(Sell, fill) - 0.6
  {
    var held := Account(map[ticker := Position(50.0, 1.0, 0.0, 0.0, None)], 0.0);
    hide NetWorth, RecordFill, Cash;
    FillConserves(held, ticker, Sell, Fill(60.0, 2.0, 0.0), 1.0);
  }

  lemma BuyConserves(account: Account, ticker: string, fill: Fill, now: real)
    requires Positive(account.positions) && fill.filled > 0.0
    ensures NetWorth(RecordFill(account, ticker, Buy, fill, now)) == NetWorth(account) + Cash(Buy, fill)
  {
    hide OpenCosts, SumOf, AveragedIn;
    var positions := account.positions;
    CostsWithout(positions, ticker);
    if ticker in positions {
      AveragedCost(positions[ticker], fill);
      CostsOfPut(positions, ticker, AveragedIn(positions[ticker], fill));
    } else {
      CostsOfPut(positions, ticker, Position(fill.price, fill.filled, now, fill.fee, None));
    }
  }

  lemma SellConserves(account: Account, ticker: string, fill: Fill, now: real)
    requires Positive(account.positions) && fill.filled > 0.0
    ensures NetWorth(RecordFill(account, ticker, Sell, fill, now))
         == NetWorth(account) + Cash(Sell, fill) - Unmatched(account, ticker, Sell, fill)
  {
    hide OpenCosts, SumOf, FeePart, ClosedPnl, OpenCostOf, Gross;
    var positions := account.positions;
    if ticker in positions {
      var pos := positions[ticker];
      var closing := Min(fill.filled, pos.contracts);
      var left := pos.contracts - closing;
      var after := RecordFill(account, ticker, Sell, fill, now);
      assert after.realized == account.realized + ClosedPnl(pos, fill);
      ClosedCost(pos, fill, left);
      Sold(fill, closing);
      CostsAfterSale(positions, ticker, pos.(contracts := left, entryFee := pos.entryFee - FeePart(pos, closing)));
    }
  }

  lemma CostsAfterSale(positions: map<string, Position>, ticker: string, reduced: Position)
    requires ticker in positions && (reduced.contracts == 0.0 ==> reduced.entryFee == 0.0)
    ensures SumOf(OpenCosts(if reduced.contracts == 0.0 then positions - {ticker} else positions[ticker := reduced]))
         == SumOf(OpenCosts(positions)) - OpenCostOf(positions[ticker]) + OpenCostOf(reduced)
  {
    hide OpenCosts, SumOf, OpenCostOf;
    CostsWithout(positions, ticker);
    CostsOfPut(positions, ticker, reduced);
    if reduced.contracts == 0.0 { NothingLeft(reduced); }
  }

  lemma Sold(fill: Fill, closing: real)
    ensures Gross(fill.price, closing) == Gross(fill.price, fill.filled) - Gross(fill.price, fill.filled - closing)
  {
    assert fill.price * (fill.filled - closing) == fill.price * fill.filled - fill.price * closing;
  }

  lemma NothingLeft(pos: Position)
    requires pos.contracts == 0.0 && pos.entryFee == 0.0
    ensures OpenCostOf(pos) == 0.0
  {
  }

  // ---------- Any history of fills ----------

  datatype Trade = Trade(ticker: string, side: Side, fill: Fill, now: real)

  function Played(account: Account, trades: seq<Trade>): (r: Account)
    requires Positive(account.positions)
    ensures Positive(r.positions)
    decreases trades
  {
    if trades == [] then account
    else Played(RecordFill(account, trades[0].ticker, trades[0].side, trades[0].fill, trades[0].now), trades[1..])
  }

  function CashOf(trades: seq<Trade>): real {
    if trades == [] then 0.0 else Cash(trades[0].side, trades[0].fill) + CashOf(trades[1..])
  }

  function UnmatchedOf(account: Account, trades: seq<Trade>): real
    requires Positive(account.positions)
    decreases trades
  {
    if trades == [] then 0.0
    else
      var t := trades[0];
      Unmatched(account, t.ticker, t.side, t.fill)
      + UnmatchedOf(RecordFill(account, t.ticker, t.side, t.fill, t.now), trades[1..])
  }

  /** Every fill is real and no sale exceeds the holding it closes. */
  predicate NoOversell(account: Account, trades: seq<Trade>)
    requires Positive(account.positions)
    decreases trades
  {
    trades != [] ==>
      var t := trades[0];
      && t.fill.filled > 0.0
      && (t.side.Sell? ==> t.ticker in account.positions && t.fill.filled <= account.positions[t.ticker].contracts)
      && NoOversell(RecordFill(account, t.ticker, t.side, t.fill, t.now), trades[1..])
  }

  /** Cash is conserved exactly when what the books leave out nets to nothing. */
  lemma {:induction false} HistoryConserves(account: Account, trades: seq<Trade>)
    requires Positive(account.positions)
    ensures NetWorth(Played(account, trades)) == NetWorth(account) + CashOf(trades) - UnmatchedOf(account, trades)
    decreases trades
  {
    hide NetWorth, Cash, Unmatched, RecordFill;
    if trades != [] {
      var t := trades[0];
      FillConserves(account, t.ticker, t.side, t.fill, t.now);
      HistoryConserves(RecordFill(account, t.ticker, t.side, t.fill, t.now), trades[1..]);
    }
  }

  /** Without oversells nothing is left out. */
  lemma {:induction false} NothingUnmatched(account: Account, trades: seq<Trade>)
    requires Positive(account.positions) && NoOversell(account, trades)
    ensures UnmatchedOf(account, trades) == 0.0
    ensures NetWorth(Played(account, trades)) == NetWorth(account) + CashOf(trades)
    decreases trades
  {
    hide NetWorth, Cash, RecordFill;
    HistoryConserves(account, trades);
    if trades != [] {
      var t := trades[0];
      NothingUnmatched(RecordFill(account, t.ticker, t.side, t.fill, t.now), trades[1..]);
      MatchedFill(account, t);
    }
  }

  lemma MatchedFill(account: Account, t: Trade)
    requires Positive(account.positions) && t.fill.filled > 0.0
    requires t.side.Sell? ==> t.ticker in account.positions && t.fill.filled <= account.positions[t.ticker].contracts
    ensures Unmatched(account, t.ticker, t.side, t.fill) == 0.0
  {
  }

  // ---------- Runs of observations ----------

  /** The fill a tick makes, if any. */
  ghost function TickFill(cfg: Config, eventOf: string -> Option<string>, trader: Trader, tick: Tick): Option<Attempt>
    requires ValidPrecision(cfg.precision)
  {
    if !Fresh(tick) then None
    else
      var o := DueOrder(Rejudged(cfg, eventOf, Observed(trader, tick), tick), tick);
      if o.None? then None
      else
        var a := Attempted(cfg, tick.feed, o.value, tick.quoteTs);
        if a.fill.None? then None else Some(a)
  }

  ghost function TickCash(cfg: Config, eventOf: string -> Option<string>, trader: Trader, tick: Tick): real
    requires ValidPrecision(cfg.precision)
  {
    var a := TickFill(cfg, eventOf, trader, tick);
    if a.None? then 0.0 else Cash(a.value.order.side, a.value.fill.value)
  }

  lemma SameWorth(before: Account, after: Account)
    requires SameHoldings(before.positions, after.positions) && before.realized == after.realized
    ensures NetWorth(before) == NetWorth(after)
  {
    forall t | t in before.positions
      ensures OpenCosts(before.positions)[t] == OpenCosts(after.positions)[t]
    {
      assert SameHolding(before.positions[t], after.positions[t]);
    }
    assert OpenCosts(before.positions).Keys == OpenCosts(after.positions).Keys;
    assert OpenCosts(before.positions) == OpenCosts(after.positions);
  }

  /** Judging a tick's exits and entries moves peaks and orders only. */
  lemma RejudgedHoldings(cfg: Config, eventOf: string -> Option<string>, trader: Trader, tick: Tick)
    requires ValidPrecision(cfg.precision) && Fresh(tick)
    ensures var r := Rejudged(cfg, eventOf, Observed(trader, tick), tick);
      SameHoldings(trader.account.positions, r.account.positions) && r.account.realized == trader.account.realized
  {
    hide CheckExit, ArrivalBlocked, LossCheck, GetPending, CancelPending, UpgradeExit, SameHolding;
    PeakMoves(cfg, trader.account.positions, tick.ticker, tick.bid, tick.quoteTs);
    SameAsItself(trader.account.positions);
  }

  lemma SameAsItself(positions: map<string, Position>)
    ensures SameHoldings(positions, positions)
  {
  }

  lemma DecidedHoldings(cfg: Config, eventOf: string -> Option<string>, trader: Trader, tick: Tick)
    requires ValidPrecision(cfg.precision)
    ensures var r := Decided(cfg, eventOf, trader, tick);
      SameHoldings(trader.account.positions, r.account.positions) && r.account.realized == trader.account.realized
  {
    hide CheckExit, ExitDecided, EntryDecided, HasPending, SameHolding;
    PeakMoves(cfg, trader.account.positions, tick.ticker, tick.bid, tick.now);
    SignalNeedsPosition(cfg, trader.account.positions, tick.ticker, tick.bid, tick.now);
    SameAsItself(trader.account.positions);
  }

  /** A fill never exceeds its order, and is not empty. */
  lemma FillWithin(cfg: Config, feed: Feed, o: Order, now: real)
    requires ValidPrecision(cfg.precision) && Attempted(cfg, feed, o, now).fill.Some?
    ensures 0.0 < Attempted(cfg, feed, o, now).fill.value.filled <= o.contracts
  {
    hide NetFee, ProjectedScalpPnl, ProfitOnBasis;
  }

  lemma MatchedAttempt(cfg: Config, feed: Feed, account: Account, o: Order, quoteTs: real, now: real)
    requires ValidPrecision(cfg.precision) && Positive(account.positions) && OrderHolds(o, account.positions)
    ensures var a := Attempted(cfg, feed, o, quoteTs);
      NetWorth(AfterAttempt(account, a, now))
        == NetWorth(account) + (if a.fill.Some? then Cash(o.side, a.fill.value) else 0.0)
  {
    hide NetWorth, Cash, Attempted, RecordFill;
    var a := Attempted(cfg, feed, o, quoteTs);
    assert a.order == o by { AttemptOf(cfg, feed, o, quoteTs); }
    if a.fill.Some? {
      FillWithin(cfg, feed, o, quoteTs);
      FillConserves(account, o.ticker, o.side, a.fill.value, now);
      MatchedFill(account, Trade(o.ticker, o.side, a.fill.value, now));
    }
  }

  /** An observation moves net worth by the cash of its one fill, if it has one. */
  lemma TickConserves(cfg: Config, eventOf: string -> Option<string>, trader: Trader, tick: Tick)
    requires ValidConfig(cfg) && Inv(cfg, eventOf, trader)
    ensures NetWorth(ProcessTick(cfg, eventOf, trader, tick).account)
         == NetWorth(trader.account) + TickCash(cfg, eventOf, trader, tick)
  {
    assert Positive(trader.account.positions);
    hide NetWorth, Cash, Rejudged, DueFilled, Decided, LossCheck, Attempted, Inv, AfterAttempt, DueOrder;
    var seen := Observed(trader, tick);
    var arrived := Arrived(cfg, eventOf, trader, tick);
    if Fresh(tick) {
      var r := Rejudged(cfg, eventOf, seen, tick);
      RejudgedHoldings(cfg, eventOf, trader, tick);
      SameWorth(trader.account, r.account);
      assert Inv(cfg, eventOf, r) by { SeenKeeps(cfg, eventOf, trader, tick); }
      DueConserves(cfg, eventOf, r, tick);
    }
    var checked := LossCheck(cfg, arrived, tick.feed, tick.clock);
    assert checked.account == arrived.account;
    DecidedHoldings(cfg, eventOf, checked, tick);
    SameWorth(checked.account, Decided(cfg, eventOf, checked, tick).account);
  }

  lemma SeenKeeps(cfg: Config, eventOf: string -> Option<string>, trader: Trader, tick: Tick)
    requires ValidConfig(cfg) && Inv(cfg, eventOf, trader) && Fresh(tick)
    ensures Inv(cfg, eventOf, Rejudged(cfg, eventOf, Observed(trader, tick), tick))
  {
    hide Rejudged, OneEvent, Distinct, OrdersHold;
    RejudgedKeeps(cfg, eventOf, Observed(trader, tick), tick);
  }

  lemma DueConserves(cfg: Config, eventOf: string -> Option<string>, trader: Trader, tick: Tick)
    requires ValidConfig(cfg) && Inv(cfg, eventOf, trader)
    ensures NetWorth(DueFilled(cfg, trader, tick).account)
         == NetWorth(trader.account) + (
              var o := DueOrder(trader, tick);
              if o.None? then 0.0
              else
                var a := Attempted(cfg, tick.feed, o.value, tick.quoteTs);
                if a.fill.None? then 0.0 else Cash(a.order.side, a.fill.value))
  {
    hide NetWorth, Cash, DueFilled, Attempted, OneEvent, Distinct, OrdersHold, AfterAttempt, Without, GetPending;
    DueFilledIs(cfg, trader, tick);
    if DueOrder(trader, tick).Some? {
      var o := DueOrder(trader, tick).value;
      FoundHolds(trader.pending, trader.account.positions, tick.ticker);
      MatchedAttempt(cfg, tick.feed, trader.account, o, tick.quoteTs, tick.now);
      AttemptOf(cfg, tick.feed, o, tick.quoteTs);
    }
  }

  ghost function RunCash(cfg: Config, eventOf: string -> Option<string>, ticks: seq<Tick>): real
    requires ValidConfig(cfg)
  {
    if ticks == [] then 0.0
    else
      RunCash(cfg, eventOf, ticks[..|ticks| - 1])
      + TickCash(cfg, eventOf, Run(cfg, eventOf, ticks[..|ticks| - 1]), ticks[|ticks| - 1])
  }

  /** Over every run, realized P&L less open cost is what the fills paid and received. */
  lemma {:induction false} RunConserves(cfg: Config, eventOf: string -> Option<string>, ticks: seq<Tick>)
    requires ValidConfig(cfg)
    ensures NetWorth(Run(cfg, eventOf, ticks).account) == RunCash(cfg, eventOf, ticks)
  {
    hide TickCash, ProcessTick, Inv;
    if ticks == [] {
      assert OpenCosts(map[]) == map[];
    } else {
      hide NetWorth;
      var before := ticks[..|ticks| - 1];
      RunConserves(cfg, eventOf, before);
      TickConserves(cfg, eventOf, Run(cfg, eventOf, before), ticks[|ticks| - 1]);
    }
  }

  // ---------- What exits book ----------

  /** A filled exit that is neither stop nor time exit books exactly what was projected for it, and that is a profit. */
  lemma TakeProfitBooks(cfg: Config, feed: Feed, account: Account, o: Order, quoteTs: real, now: real)
    requires ValidPrecision(cfg.precision) && Positive(account.positions) && OrderHolds(o, account.positions)
    requires o.side.Sell? && o.reason.Other? && Attempted(cfg, feed, o, quoteTs).fill.Some?
    ensures var f := Attempted(cfg, feed, o, quoteTs).fill.value;
      && RecordFill(account, o.ticker, Sell, f, now).realized
         == account.realized + ProjectedExit(o.basis.value, f.price, f.filled, f.fee)
      && RecordFill(account, o.ticker, Sell, f, now).realized > account.realized
  {
    hide NetFee, ProjectedScalpPnl, ClosedPnl, ProjectedExit;
    var f := Attempted(cfg, feed, o, quoteTs).fill.value;
    ProjectionIsBooked(account.positions[o.ticker], f);
  }

  lemma ProjectionIsBooked(pos: Position, f: Fill)
    requires pos.contracts > 0.0 && f.filled <= pos.contracts
    ensures ClosedPnl(pos, f)
         == ProjectedExit(Basis(pos.entryPrice, pos.contracts, pos.entryFee), f.price, f.filled, f.fee)
  {
    FeeShare(pos.entryFee, f.filled, pos.contracts);
  }

  lemma FeeShare(fee: real, filled: real, contracts: real)
    requires contracts > 0.0
    ensures fee * (filled / contracts) == fee * filled / contracts
  {
    var part := filled / contracts;
    assert part * contracts == filled;
    assert fee * part * contracts == fee * filled;
  }

  /** A tick lowers realized P&L only by filling an exit that by then is a stop-loss or a time exit. */
  lemma LossesAreRiskExits(cfg: Config, eventOf: string -> Option<string>, trader: Trader, tick: Tick)
    requires ValidConfig(cfg) && Inv(cfg, eventOf, trader)
    requires ProcessTick(cfg, eventOf, trader, tick).account.realized < trader.account.realized
    ensures var a := TickFill(cfg, eventOf, trader, tick);
      a.Some? && a.value.order.side.Sell? && !a.value.order.reason.Other?
  {
    assert Positive(trader.account.positions);
    hide Rejudged, DueFilled, Decided, LossCheck, Attempted, Inv, AfterAttempt, DueOrder;
    var arrived := Arrived(cfg, eventOf, trader, tick);
    var checked := LossCheck(cfg, arrived, tick.feed, tick.clock);
    DecidedHoldings(cfg, eventOf, checked, tick);
    assert arrived.account.realized < trader.account.realized;
    if Fresh(tick) {
      var r := Rejudged(cfg, eventOf, Observed(trader, tick), tick);
      RejudgedHoldings(cfg, eventOf, trader, tick);
      assert Inv(cfg, eventOf, r) by { SeenKeeps(cfg, eventOf, trader, tick); }
      DueLosses(cfg, eventOf, r, tick);
    }
  }

  lemma DueLosses(cfg: Config, eventOf: string -> Option<string>, trader: Trader, tick: Tick)
    requires ValidConfig(cfg) && Inv(cfg, eventOf, trader)
    requires DueFilled(cfg, trader, tick).account.realized < trader.account.realized
    ensures DueOrder(trader, tick).Some?
    ensures var a := Attempted(cfg, tick.feed, DueOrder(trader, tick).value, tick.quoteTs);
      a.fill.Some? && a.order.side.Sell? && !a.order.reason.Other?
  {
    hide DueFilled, Attempted, OneEvent, Distinct, OrdersHold, Without, GetPending, ClosedPnl;
    DueFilledIs(cfg, trader, tick);
    var o := DueOrder(trader, tick).value;
    AttemptOf(cfg, tick.feed, o, tick.quoteTs);
    FoundHolds(trader.pending, trader.account.positions, tick.ticker);
    if Attempted(cfg, tick.feed, o, tick.quoteTs).fill.Some? && o.side.Sell? && o.reason.Other? {
      TakeProfitBooks(cfg, tick.feed, trader.account, o, tick.quoteTs, tick.now);
    }
  }

  /**
    A buy at the ask closed in one fill at its take-profit, neither above 99 cents, books exactly the projection that
    admitted it.
  */
  lemma ScalpBooksProjection(cfg: Config, account: Account, ticker: string, price: real, filled: real, bought: real,
                             sold: real)
    requires ValidPrecision(cfg.precision) && Positive(account.positions) && ticker !in account.positions
    requires filled > 0.0
    ensures var entry := if price <= 99.0 then price else 99.0;
      var buy := Fill(entry, filled, NetFee(entry, filled, 1.0, Buy, cfg.precision));
      var exit := if entry + cfg.takeProfit <= 99.0 then entry + cfg.takeProfit else 99.0;
      var sell := Fill(exit, filled, NetFee(exit, filled, 1.0, Sell, cfg.precision));
      var after := RecordFill(RecordFill(account, ticker, Buy, buy, bought), ticker, Sell, sell, sold);
      && after.positions == account.positions
      && after.realized == account.realized + ProjectedScalpPnl(price, cfg.takeProfit, filled, cfg.precision)
  {
    hide NetFee, RecordFill;
    var entry := if price <= 99.0 then price else 99.0;
    var exit := if entry + cfg.takeProfit <= 99.0 then entry + cfg.takeProfit else 99.0;
    var buyFee := NetFee(entry, filled, 1.0, Buy, cfg.precision);
    var sellFee := NetFee(exit, filled, 1.0, Sell, cfg.precision);
    ClosedInOne(account, ticker, Fill(entry, filled, buyFee), Fill(exit, filled, sellFee), bought, sold);
    assert ProjectedScalpPnl(price, cfg.takeProfit, filled, cfg.precision)
        == (exit - entry) * filled / 100.0 - buyFee - sellFee;
  }

  /** A buy sold in one fill books the difference less both fees. */
  lemma ClosedInOne(account: Account, ticker: string, buy: Fill, sell: Fill, bought: real, sold: real)
    requires Positive(account.positions) && ticker !in account.positions && buy.filled == sell.filled > 0.0
    ensures var after := RecordFill(RecordFill(account, ticker, Buy, buy, bought), ticker, Sell, sell, sold);
      && after.positions == account.positions
      && after.realized == account.realized + (sell.price - buy.price) * buy.filled / 100.0 - sell.fee - buy.fee
  {
    hide FeePart;
    var pos := Position(buy.price, buy.filled, bought, buy.fee, None);
    WholeFee(pos);
    assert account.positions[ticker := pos] - {ticker} == account.positions;
  }

  /** Every price of the feed is between 0 and 100 cents. */
  ghost predicate Quoted(feed: Feed) {
    forall t :: t in feed ==>
      && (feed[t].bid.Some? ==> 0.0 <= feed[t].bid.value <= 100.0)
      && (feed[t].ask.Some? ==> 0.0 <= feed[t].ask.value <= 100.0)
  }

  /** On such a feed the fee of a fill is the one fee_usd returns; it does not raise. */
  lemma FillFeeIsFeeUsd(cfg: Config, feed: Feed, o: Order)
    requires ValidConfig(cfg) && Quoted(feed) && PaperFill(cfg, feed, o).Some?
    ensures var f := PaperFill(cfg, feed, o).value;
      && FeeUsd(f.price, f.filled, 1.0, o.side, cfg.precision) == Ok(f.fee)
      && (o.side.Buy? ==> ProjectedScalpPnl(f.price, cfg.takeProfit, f.filled, cfg.precision) > 0.0)
  {
    hide NetFee, ProjectedScalpPnl, ProfitOnBasis;
  }
}
