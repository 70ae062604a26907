/** What the executor's operations do to a list of pending orders with at most one order per ticker. */
module PendingOrders {
  import opened Common
  import opened Fees
  import opened PaperTrading

  /** At most one pending order per ticker. */
  ghost predicate Distinct(pending: seq<Order>) {
    pending == [] || (!Pends(pending[1..], pending[0].ticker) && Distinct(pending[1..]))
  }

  predicate Pends(pending: seq<Order>, ticker: string) { HasPending(pending, Some(ticker), None) }

  function PendingOf(pending: seq<Order>, ticker: string): Option<Order> { GetPending(pending, Some(ticker), None) }

  /** An exit is for exactly what is held, at what it cost; an entry is for what is not held. */
  ghost predicate OrderHolds(o: Order, positions: map<string, Position>) {
    && o.contracts > 0.0
    && (o.side.Buy? ==> o.ticker !in positions)
    && (o.side.Sell? ==> o.ticker in positions && ForWhole(o, positions[o.ticker]))
  }

  ghost predicate ForWhole(o: Order, pos: Position) {
    o.contracts == pos.contracts && o.basis == Some(Basis(pos.entryPrice, pos.contracts, pos.entryFee))
  }

  ghost predicate OrdersHold(pending: seq<Order>, positions: map<string, Position>) {
    pending == [] || (OrderHolds(pending[0], positions) && OrdersHold(pending[1..], positions))
  }

  predicate SameHolding(a: Position, b: Position) {
    a.contracts == b.contracts && a.entryPrice == b.entryPrice && a.entryFee == b.entryFee
  }

  /** Only the ticker's position may differ. */
  ghost predicate SameElsewhere(before: map<string, Position>, after: map<string, Position>, ticker: string) {
    forall u :: u != ticker ==>
      (u in before <==> u in after) && (u in before ==> SameHolding(before[u], after[u]))
  }

  /** The same holdings, with other peaks perhaps. */
  ghost predicate SameHoldings(before: map<string, Position>, after: map<string, Position>) {
    before.Keys == after.Keys && forall u :: u in before ==> SameHolding(before[u], after[u])
  }

  // ---------- Looking up ----------

  lemma {:induction false} HasIsGet(pending: seq<Order>, ticker: Option<string>, side: Option<Side>)
    ensures HasPending(pending, ticker, side) <==> GetPending(pending, ticker, side).Some?
  {
    if pending != [] { HasIsGet(pending[1..], ticker, side); }
  }

  lemma {:induction false} SideOfOnly(pending: seq<Order>, ticker: string, side: Side)
    requires Distinct(pending)
    ensures GetPending(pending, Some(ticker), Some(side))
         == var o := PendingOf(pending, ticker); if o.Some? && o.value.side == side then o else None
  {
    if pending != [] {
      SideOfOnly(pending[1..], ticker, side);
      HasIsGet(pending[1..], Some(ticker), None);
    }
  }

  lemma {:induction false} PendsIsTicker(pending: seq<Order>, ticker: string)
    ensures Pends(pending, ticker) <==> ticker in Tickers(pending)
  {
    if pending != [] { PendsIsTicker(pending[1..], ticker); }
  }

  lemma {:induction false} FoundHolds(pending: seq<Order>, positions: map<string, Position>, ticker: string)
    requires OrdersHold(pending, positions) && PendingOf(pending, ticker).Some?
    ensures OrderHolds(PendingOf(pending, ticker).value, positions) && PendingOf(pending, ticker).value.ticker == ticker
  {
    if pending[0].ticker != ticker { FoundHolds(pending[1..], positions, ticker); }
  }

  // ---------- Other positions ----------

  lemma {:induction false} HoldElsewhere(pending: seq<Order>, before: map<string, Position>,
                                         after: map<string, Position>, ticker: string)
    requires OrdersHold(pending, before) && SameElsewhere(before, after, ticker) && !Pends(pending, ticker)
    ensures OrdersHold(pending, after)
  {
    if pending != [] { HoldElsewhere(pending[1..], before, after, ticker); }
  }

  lemma {:induction false} HoldSame(pending: seq<Order>, before: map<string, Position>, after: map<string, Position>)
    requires OrdersHold(pending, before) && SameHoldings(before, after)
    ensures OrdersHold(pending, after)
  {
    if pending != [] { HoldSame(pending[1..], before, after); }
  }

  // ---------- The ticker's order leaves ----------

  /** `after` is `before` without the ticker's order `o`. */
  ghost predicate Without(before: seq<Order>, after: seq<Order>, o: Order) {
    && Distinct(after) && !Pends(after, o.ticker)
    && Tickers(after) <= Tickers(before)
    && PendingCount(after, Some(Buy)) == PendingCount(before, Some(Buy)) - (if o.side.Buy? then 1 else 0)
    && forall positions :: OrdersHold(before, positions) ==> OrdersHold(after, positions)
  }

  lemma TailWithout(pending: seq<Order>)
    requires pending != [] && Distinct(pending)
    ensures Without(pending, pending[1..], pending[0])
  {
  }

  lemma PutBack(pending: seq<Order>, after: seq<Order>, o: Order)
    requires pending != [] && Distinct(pending) && pending[0].ticker != o.ticker
    requires Without(pending[1..], after, o)
    ensures Without(pending, [pending[0]] + after, o)
  {
    var all := [pending[0]] + after;
    assert all[1..] == after;
    PendsIsTicker(after, pending[0].ticker);
    PendsIsTicker(pending[1..], pending[0].ticker);
  }

  lemma {:induction false} Untouched(cfg: Config, feed: Feed, pending: seq<Order>, now: real, ticker: string)
    requires ValidPrecision(cfg.precision) && !Pends(pending, ticker)
    ensures Attempts(cfg, feed, pending, now, Some(ticker)) == []
    ensures Remaining(pending, now, Some(ticker)) == pending
  {
    if pending != [] { Untouched(cfg, feed, pending[1..], now, ticker); }
  }

  lemma {:induction false} NotYetDue(cfg: Config, feed: Feed, pending: seq<Order>, now: real, ticker: string)
    requires ValidPrecision(cfg.precision) && Distinct(pending)
    requires PendingOf(pending, ticker).Some? ==> PendingOf(pending, ticker).value.dueAt > now
    ensures Attempts(cfg, feed, pending, now, Some(ticker)) == []
    ensures Remaining(pending, now, Some(ticker)) == pending
  {
    if pending != [] {
      if pending[0].ticker == ticker {
        Untouched(cfg, feed, pending[1..], now, ticker);
      } else {
        NotYetDue(cfg, feed, pending[1..], now, ticker);
      }
    }
  }

  /** A ticker's one due order is attempted once and leaves. */
  lemma {:induction false} OneDue(cfg: Config, feed: Feed, pending: seq<Order>, now: real, ticker: string)
    requires ValidPrecision(cfg.precision) && Distinct(pending)
    requires PendingOf(pending, ticker).Some? && PendingOf(pending, ticker).value.dueAt <= now
    ensures Attempts(cfg, feed, pending, now, Some(ticker))
         == [Attempted(cfg, feed, PendingOf(pending, ticker).value, now)]
    ensures Without(pending, Remaining(pending, now, Some(ticker)), PendingOf(pending, ticker).value)
  {
    hide PaperFill, Attempted;
    if pending[0].ticker == ticker {
      Untouched(cfg, feed, pending[1..], now, ticker);
      TailWithout(pending);
      assert Remaining(pending, now, Some(ticker)) == pending[1..];
    } else {
      OneDue(cfg, feed, pending[1..], now, ticker);
      OrderTicker(pending[1..], ticker);
      PutBack(pending, Remaining(pending[1..], now, Some(ticker)), PendingOf(pending, ticker).value);
    }
  }

  lemma {:induction false} OrderTicker(pending: seq<Order>, ticker: string)
    requires PendingOf(pending, ticker).Some?
    ensures PendingOf(pending, ticker).value.ticker == ticker
  {
    if pending[0].ticker != ticker { OrderTicker(pending[1..], ticker); }
  }

  lemma {:induction false} NothingCanceled(pending: seq<Order>, ticker: string, side: Side)
    requires !HasPending(pending, Some(ticker), Some(side))
    ensures CancelPending(pending, Some(ticker), Some(side)) == pending
         && Canceled(pending, Some(ticker), Some(side)) == []
  {
    if pending != [] { NothingCanceled(pending[1..], ticker, side); }
  }

  lemma {:induction false} OneCanceled(pending: seq<Order>, ticker: string, side: Side)
    requires Distinct(pending) && GetPending(pending, Some(ticker), Some(side)).Some?
    ensures Without(pending, CancelPending(pending, Some(ticker), Some(side)),
                    GetPending(pending, Some(ticker), Some(side)).value)
    ensures PendingOf(pending, ticker) == GetPending(pending, Some(ticker), Some(side))
    ensures Canceled(pending, Some(ticker), Some(side)) == [GetPending(pending, Some(ticker), Some(side)).value]
  {
    SideOfOnly(pending, ticker, side);
    if Matches(pending[0], Some(ticker), Some(side)) {
      HasIsGet(pending[1..], Some(ticker), Some(side));
      SideOfOnly(pending[1..], ticker, side);
      HasIsGet(pending[1..], Some(ticker), None);
      NothingCanceled(pending[1..], ticker, side);
      TailWithout(pending);
      assert CancelPending(pending, Some(ticker), Some(side)) == pending[1..];
    } else {
      OneCanceled(pending[1..], ticker, side);
      OrderTicker(pending[1..], ticker);
      PutBack(pending, CancelPending(pending[1..], Some(ticker), Some(side)), PendingOf(pending, ticker).value);
    }
  }

  // ---------- An exit is retagged ----------

  ghost predicate Retagged(before: seq<Order>, after: seq<Order>) {
    && Distinct(after)
    && Tickers(after) == Tickers(before)
    && PendingCount(after, Some(Buy)) == PendingCount(before, Some(Buy))
    && forall positions :: OrdersHold(before, positions) ==> OrdersHold(after, positions)
  }

  lemma RetagHead(pending: seq<Order>, reason: Reason)
    requires pending != [] && Distinct(pending) && pending[0].side.Sell?
    ensures Retagged(pending, [pending[0].(reason := reason, limit := None)] + pending[1..])
  {
    var all := [pending[0].(reason := reason, limit := None)] + pending[1..];
    assert all[1..] == pending[1..];
  }

  lemma RetagTail(pending: seq<Order>, after: seq<Order>)
    requires pending != [] && Distinct(pending) && Retagged(pending[1..], after)
    ensures Retagged(pending, [pending[0]] + after)
  {
    var all := [pending[0]] + after;
    assert all[1..] == after;
    PendsIsTicker(after, pending[0].ticker);
    PendsIsTicker(pending[1..], pending[0].ticker);
  }

  lemma {:induction false} UpgradeRetags(pending: seq<Order>, ticker: string, reason: Reason)
    requires Distinct(pending)
    ensures Retagged(pending, UpgradeExit(pending, ticker, reason))
  {
    if pending != [] {
      if Matches(pending[0], Some(ticker), Some(Sell)) {
        RetagHead(pending, reason);
      } else {
        UpgradeRetags(pending[1..], ticker, reason);
        RetagTail(pending, UpgradeExit(pending[1..], ticker, reason));
      }
    }
  }

  /** The retagged order keeps its size, cost basis and due time; other tickers' orders stay as they are. */
  lemma {:induction false} UpgradeFinds(pending: seq<Order>, ticker: string, reason: Reason, other: string)
    requires Distinct(pending)
    ensures PendingOf(UpgradeExit(pending, ticker, reason), other)
         == var o := PendingOf(pending, other);
            if o.Some? && other == ticker && o.value.side.Sell? then Some(o.value.(reason := reason, limit := None))
            else o
  {
    if pending != [] {
      UpgradeFinds(pending[1..], ticker, reason, other);
      if Matches(pending[0], Some(ticker), Some(Sell)) {
        var all := UpgradeExit(pending, ticker, reason);
        assert all[1..] == pending[1..];
      } else {
        assert ([pending[0]] + UpgradeExit(pending[1..], ticker, reason))[1..]
            == UpgradeExit(pending[1..], ticker, reason);
      }
    }
  }

  // ---------- An order is added ----------

  lemma {:induction false} Appended(pending: seq<Order>, o: Order)
    requires Distinct(pending) && !Pends(pending, o.ticker)
    ensures Distinct(pending + [o])
    ensures Tickers(pending + [o]) == Tickers(pending) + {o.ticker}
    ensures PendingCount(pending + [o], Some(Buy)) == PendingCount(pending, Some(Buy)) + (if o.side.Buy? then 1 else 0)
  {
    var all := pending + [o];
    if pending == [] {
      assert all == [o] && all[1..] == [];
    } else {
      Appended(pending[1..], o);
      assert all[1..] == pending[1..] + [o];
      PendsIsTicker(all[1..], pending[0].ticker);
      PendsIsTicker(pending[1..], pending[0].ticker);
    }
  }

  lemma {:induction false} AppendedHolds(pending: seq<Order>, o: Order, positions: map<string, Position>)
    requires OrdersHold(pending, positions) && OrderHolds(o, positions)
    ensures OrdersHold(pending + [o], positions)
  {
    var all := pending + [o];
    if pending == [] {
      assert all == [o] && all[1..] == [];
    } else {
      AppendedHolds(pending[1..], o, positions);
      assert all[1..] == pending[1..] + [o];
    }
  }
}
