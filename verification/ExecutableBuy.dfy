/**
  Greedy fill of a buy through the complementary ladder
  (inci_tennis_expert/market_book.py, executable_buy), and its optimality.
*/
module ExecutableBuy {
  import opened Common
  import opened MarketBook

  datatype BuyError = InvalidContracts | InvalidLimitPrice | BookUntrusted | MarketNotOpen

  datatype Fill = Fill(contracts: real, averagePrice: real, consumed: seq<BookLevel>)

  function AskLevel(bid: BookLevel): BookLevel { BookLevel(1.0 - bid.price, bid.quantity) }

  /** The complementary bids as the buyer sees them. */
  function Asks(bids: seq<BookLevel>): seq<BookLevel> {
    seq(|bids|, i requires 0 <= i < |bids| => AskLevel(bids[i]))
  }

  // ---------- What a fill is measured against ----------

  /** Total quantity offered at or under the limit. */
  function Depth(asks: seq<BookLevel>, limit: real): real {
    if asks == [] then 0.0
    else (if asks[0].price <= limit then asks[0].quantity else 0.0) + Depth(asks[1..], limit)
  }

  function Cost(asks: seq<BookLevel>, alloc: seq<real>): real
    requires |alloc| == |asks|
  {
    if asks == [] then 0.0 else Pays(asks[0].price, alloc[0]) + Cost(asks[1..], alloc[1..])
  }

  /** Any way of taking quantity from the levels at or under the limit. */
  ghost predicate Allocation(asks: seq<BookLevel>, limit: real, alloc: seq<real>) {
    && |alloc| == |asks|
    && forall i :: 0 <= i < |asks| ==>
         0.0 <= alloc[i] <= asks[i].quantity && (alloc[i] > 0.0 ==> asks[i].price <= limit)
  }

  function TotalQuantity(levels: seq<BookLevel>): real {
    if levels == [] then 0.0 else levels[0].quantity + TotalQuantity(levels[1..])
  }

  /** Dollars for a quantity at a price. */
  function Pays(price: real, quantity: real): real { price * quantity }

  function TotalCost(levels: seq<BookLevel>): real {
    if levels == [] then 0.0 else Pays(levels[0].price, levels[0].quantity) + TotalCost(levels[1..])
  }

  /** What the source promises of a fill: all that is on offer within the limit, as cheaply as can be. */
  ghost predicate BestFill(asks: seq<BookLevel>, contracts: real, limit: real, f: Fill) {
    && f.contracts == Min(contracts, Depth(asks, limit))
    && f.contracts == TotalQuantity(f.consumed)
    && Pays(f.averagePrice, f.contracts) == TotalCost(f.consumed)
    && forall alloc :: Allocation(asks, limit, alloc) && Sum(alloc) == f.contracts ==>
         TotalCost(f.consumed) <= Cost(asks, alloc)
  }

  /** The consumed levels are the front of the ladder, within the limit, whole but for the last. */
  ghost predicate FrontOfLadder(asks: seq<BookLevel>, limit: real, consumed: seq<BookLevel>) {
    && |consumed| <= |asks|
    && forall i :: 0 <= i < |consumed| ==>
         && consumed[i].price == asks[i].price <= limit
         && 0.0 < consumed[i].quantity <= asks[i].quantity
         && (i + 1 < |consumed| ==> consumed[i].quantity == asks[i].quantity)
  }

  // ---------- The fill and the price-to-quantity map of the opposite bids ----------

  /** Quantity of the bids `m` whose price leaves at most the limit of a dollar, summed in whatever order. */
  ghost function MapDepth(m: map<real, real>, limit: real): real {
    if m.Keys == {} then 0.0
    else
      var p := AnyOf(m.Keys);
      Offered(m, p, limit) + MapDepth(m - {p}, limit)
  }

  ghost function AnyOf<T>(prices: set<T>): (p: T)
    requires prices != {}
    ensures p in prices
  {
    var p :| p in prices; p
  }

  ghost function Offered(m: map<real, real>, p: real, limit: real): real
    requires p in m
  {
    if 1.0 - p <= limit then m[p] else 0.0
  }

  /**
    The fill is the smaller of the request and what the bids offer within the limit. Each level taken is the rest of
    a dollar over one of the bids and no more than its quantity; the first is at the best ask.
  */
  ghost predicate TakenFrom(bids: map<real, real>, ask: Option<real>, contracts: real, limit: real, f: Fill) {
    && f.contracts == Min(contracts, MapDepth(bids, limit))
    && (f.contracts == 0.0 <==> f.consumed == [])
    && (f.consumed == [] ==> f.averagePrice == 0.0)
    && (f.consumed != [] ==> ask == Some(f.consumed[0].price))
    && forall l :: l in f.consumed ==>
         l.price <= limit && 1.0 - l.price in bids && 0.0 < l.quantity <= bids[1.0 - l.price]
  }

  lemma {:induction false} MapDepthTakes(m: map<real, real>, p: real, limit: real)
    requires p in m
    ensures MapDepth(m, limit) == Offered(m, p, limit) + MapDepth(m - {p}, limit)
  {
    var q := AnyOf(m.Keys);
    if q != p {
      MapDepthTakes(m - {q}, p, limit);
      MapDepthTakes(m - {p}, q, limit);
      assert m - {q} - {p} == m - {p} - {q};
    }
  }

  lemma {:induction false} DepthOfMap(bids: seq<BookLevel>, limit: real)
    requires DistinctPrices(bids)
    ensures Depth(Asks(bids), limit) == MapDepth(LadderMap(bids), limit)
  {
    if bids != [] {
      var rest := bids[1..];
      DepthOfMap(rest, limit);
      assert Asks(bids)[1..] == Asks(rest);
      RemoveFirst(bids);
      MapDepthTakes(LadderMap(bids), bids[0].price, limit);
    }
  }

  lemma {:induction false} LevelInMap(bids: seq<BookLevel>, k: nat)
    requires k < |bids| && DistinctPrices(bids)
    ensures bids[k].price in LadderMap(bids) && LadderMap(bids)[bids[k].price] == bids[k].quantity
  {
    if k > 0 {
      assert bids[k] == bids[1..][k - 1];
      LevelInMap(bids[1..], k - 1);
    }
  }

  lemma FillIsTaken(bids: seq<BookLevel>, contracts: real, limit: real, f: Fill)
    requires ValidLadder(bids) && 0.0 <= contracts
    requires BestFill(Asks(bids), contracts, limit, f) && FrontOfLadder(Asks(bids), limit, f.consumed)
    requires f.consumed == [] ==> f.averagePrice == 0.0
    ensures TakenFrom(LadderMap(bids), if bids == [] then None else Some(1.0 - bids[0].price), contracts, limit, f)
  {
    hide MapDepth, Depth, TotalQuantity, TotalCost, Pays, LadderMap, Allocation, ValidLadder;
    DepthOfMap(bids, limit) by { DistinctLadder(bids); }
    FillQuantity(Asks(bids), contracts, limit, f);
    hide BestFill;
    NoLevels();
    if f.consumed != [] {
      PositiveTotal(f.consumed);
    }
    forall l | l in f.consumed
      ensures l.price <= limit
              && 1.0 - l.price in LadderMap(bids) && 0.0 < l.quantity <= LadderMap(bids)[1.0 - l.price]
    {
      var i :| 0 <= i < |f.consumed| && f.consumed[i] == l;
      DistinctLadder(bids);
      LevelInMap(bids, i);
    }
  }

  lemma DistinctLadder(bids: seq<BookLevel>)
    requires ValidLadder(bids)
    ensures DistinctPrices(bids)
  {
  }

  lemma FillQuantity(asks: seq<BookLevel>, contracts: real, limit: real, f: Fill)
    requires BestFill(asks, contracts, limit, f)
    ensures f.contracts == Min(contracts, Depth(asks, limit)) && f.contracts == TotalQuantity(f.consumed)
  {
  }

  // ---------- Taking from the front ----------

  /** What taking `q` from the front of the ladder costs. */
  function FrontCost(asks: seq<BookLevel>, q: real): real {
    if asks == [] then 0.0
    else
      var take := Min(q, asks[0].quantity);
      Pays(asks[0].price, take) + FrontCost(asks[1..], q - take)
  }

  /** Positive quantities at prices that do not fall. */
  ghost predicate CheapestFirst(asks: seq<BookLevel>) {
    asks != [] ==>
      && 0.0 < asks[0].quantity
      && (|asks| > 1 ==> asks[0].price <= asks[1].price)
      && CheapestFirst(asks[1..])
  }

  lemma {:induction false} LadderCheapestFirst(bids: seq<BookLevel>)
    requires ValidLadder(bids)
    ensures CheapestFirst(Asks(bids))
  {
    if bids != [] {
      assert bids[0] in bids;
      LadderCheapestFirst(bids[1..]);
      assert Asks(bids)[1..] == Asks(bids[1..]);
    }
  }

  lemma {:induction false} TotalQuantityNonnegative(asks: seq<BookLevel>)
    requires CheapestFirst(asks)
    ensures TotalQuantity(asks) >= 0.0
  {
    if asks != [] {
      TotalQuantityNonnegative(asks[1..]);
    }
  }

  lemma OneLevel(levels: seq<BookLevel>)
    requires levels != []
    ensures TotalQuantity(levels) == levels[0].quantity + TotalQuantity(levels[1..])
    ensures TotalCost(levels) == Pays(levels[0].price, levels[0].quantity) + TotalCost(levels[1..])
  {
  }

  lemma NoLevels()
    ensures TotalQuantity([]) == 0.0 && TotalCost([]) == 0.0
  {
  }

  lemma FrontStep(asks: seq<BookLevel>, q: real)
    requires asks != []
    ensures var take := Min(q, asks[0].quantity);
      FrontCost(asks, q) == Pays(asks[0].price, take) + FrontCost(asks[1..], q - take)
  {
  }

  lemma {:induction false} FrontCostZero(asks: seq<BookLevel>)
    requires CheapestFirst(asks)
    ensures FrontCost(asks, 0.0) == 0.0
  {
    if asks != [] {
      assert Pays(asks[0].price, 0.0) == 0.0;
      hide Pays;
      FrontCostZero(asks[1..]);
    }
  }

  lemma IncrementArithmetic(ask: real, floor: real, x: real, y: real, q: real, r: real, costR: real, costQ: real)
    requires floor <= ask && x <= y
    requires costR - costQ >= Pays(floor, (r - y) - (q - x))
    ensures (Pays(ask, y) + costR) - (Pays(ask, x) + costQ) >= Pays(floor, r - q)
  {
    hide Pays;
    Dearer(ask, floor, y - x);
    Less(ask, y, x);
    Less(floor, y, x);
    Less(floor, r, q);
    Less(floor, r - y, q - x);
    Less(floor, r, y);
    Less(floor, q, x);
  }

  lemma Dearer(ask: real, floor: real, quantity: real)
    requires floor <= ask && quantity >= 0.0
    ensures Pays(floor, quantity) <= Pays(ask, quantity)
  {
    assert (ask - floor) * quantity >= 0.0;
    assert (ask - floor) * quantity == ask * quantity - floor * quantity;
  }

  lemma Less(price: real, b: real, c: real)
    ensures Pays(price, b - c) == Pays(price, b) - Pays(price, c)
  {
  }

  /** Taking more costs at least the cheapest ask for each extra contract. */
  lemma {:induction false} FrontIncrement(asks: seq<BookLevel>, q: real, r: real, floor: real)
    requires CheapestFirst(asks) && (asks != [] ==> floor <= asks[0].price)
    requires 0.0 <= q <= r <= TotalQuantity(asks)
    ensures FrontCost(asks, r) - FrontCost(asks, q) >= Pays(floor, r - q)
  {
    if asks == [] {
      NoLevels();
      assert r - q == 0.0 && Pays(floor, 0.0) == 0.0;
    } else {
      hide FrontCost, TotalQuantity, Pays;
      var rest := asks[1..];
      var x, y := Min(q, asks[0].quantity), Min(r, asks[0].quantity);
      OneLevel(asks);
      TotalQuantityNonnegative(rest);
      FrontIncrement(rest, q - x, r - y, floor);
      FrontStep(asks, q);
      FrontStep(asks, r);
      hide CheapestFirst;
      IncrementArithmetic(asks[0].price, floor, x, y, q, r, FrontCost(rest, r - y), FrontCost(rest, q - x));
    }
  }

  lemma {:induction false} AllocationSum(asks: seq<BookLevel>, limit: real, alloc: seq<real>)
    requires Allocation(asks, limit, alloc)
    ensures 0.0 <= Sum(alloc) <= TotalQuantity(asks)
  {
    if asks != [] {
      AllocationSum(asks[1..], limit, alloc[1..]);
    }
  }

  /** No allocation of the same quantity is cheaper than taking from the front. */
  lemma {:induction false} FrontIsCheapest(asks: seq<BookLevel>, limit: real, alloc: seq<real>)
    requires CheapestFirst(asks) && Allocation(asks, limit, alloc)
    ensures FrontCost(asks, Sum(alloc)) <= Cost(asks, alloc)
  {
    if asks != [] {
      var rest, ra := asks[1..], alloc[1..];
      AllocationSum(rest, limit, ra);
      FrontIsCheapest(rest, limit, ra);
      hide Pays, FrontCost, CheapestFirst, TotalQuantity;
      CheapestFront(asks, alloc[0], Sum(ra));
    }
  }

  /** Moving quantity from later levels into the first one does not raise the cost. */
  lemma CheapestFront(asks: seq<BookLevel>, a: real, s: real)
    requires asks != [] && CheapestFirst(asks)
    requires 0.0 <= a <= asks[0].quantity && 0.0 <= s <= TotalQuantity(asks[1..])
    ensures FrontCost(asks, a + s) <= Pays(asks[0].price, a) + FrontCost(asks[1..], s)
  {
    hide FrontCost, TotalQuantity, Pays;
    var ask, rest, take := asks[0].price, asks[1..], Min(a + s, asks[0].quantity);
    FrontStep(asks, a + s);
    FrontIncrement(rest, a + s - take, s, ask);
    Less(ask, take, a);
    assert s - (a + s - take) == take - a;
  }

  // ---------- The loop ----------

  /** The state of the loop at level `k`: everything before it has been taken whole. */
  ghost predicate Taken(asks: seq<BookLevel>, k: nat, contracts: real, limit: real, consumed: seq<BookLevel>,
                        remaining: real)
  {
    && k == |consumed| <= |asks|
    && consumed == asks[..k]
    && (forall i :: 0 <= i < k ==> asks[i].price <= limit && 0.0 < asks[i].quantity)
    && 0.0 < remaining == contracts - TotalQuantity(consumed)
  }

  /** The state in which the loop stops: out of levels within the limit, or of contracts to take. */
  ghost predicate Stopped(asks: seq<BookLevel>, k: nat, contracts: real, limit: real, consumed: seq<BookLevel>,
                          remaining: real)
  {
    && k == |consumed| <= |asks|
    && FrontOfLadder(asks, limit, consumed)
    && 0.0 <= remaining == contracts - TotalQuantity(consumed)
    && (remaining > 0.0 ==> consumed == asks[..k] && (k < |asks| ==> asks[k].price > limit))
    && (remaining == 0.0 ==> 0 < k && consumed[..k - 1] == asks[..k - 1])
  }

  lemma {:induction false} CheapestFirstDrop(asks: seq<BookLevel>, k: nat)
    requires k <= |asks| && CheapestFirst(asks)
    ensures CheapestFirst(asks[k..])
    ensures k < |asks| ==> 0.0 < asks[k].quantity
  {
    if k > 0 {
      assert asks[1..][k - 1..] == asks[k..];
      CheapestFirstDrop(asks[1..], k - 1);
    } else {
      assert asks[0..] == asks;
    }
  }

  lemma {:induction false} TotalAppend(levels: seq<BookLevel>, l: BookLevel)
    ensures TotalQuantity(levels + [l]) == TotalQuantity(levels) + l.quantity
  {
    if levels == [] {
      assert [] + [l] == [l];
    } else {
      assert (levels + [l])[1..] == levels[1..] + [l];
      TotalAppend(levels[1..], l);
    }
  }

  lemma TakeOne(asks: seq<BookLevel>, k: nat, contracts: real, limit: real, consumed: seq<BookLevel>, remaining: real)
    requires CheapestFirst(asks)
    requires k < |asks| && Taken(asks, k, contracts, limit, consumed, remaining) && asks[k].price <= limit
    ensures var take := Min(remaining, asks[k].quantity);
            var after := consumed + [BookLevel(asks[k].price, take)];
            if remaining == take then Stopped(asks, k + 1, contracts, limit, after, 0.0)
            else Taken(asks, k + 1, contracts, limit, after, remaining - take)
  {
    CheapestFirstDrop(asks, k);
    var take := Min(remaining, asks[k].quantity);
    var after := consumed + [BookLevel(asks[k].price, take)];
    TotalAppend(consumed, BookLevel(asks[k].price, take));
    assert after[..k] == consumed;
  }

  method Buy(st: BookState, outcome: ContractSide, contracts: real, limit: real) returns (r: Result<Fill, BuyError>)
    requires ValidState(st)
    ensures r.Err? <==> contracts < 0.0 || limit < 0.0 || limit > 1.0 || !st.trusted || !st.status.Open?
    ensures r.Err? ==> r.error == (if contracts < 0.0 then InvalidContracts
                                   else if limit < 0.0 || limit > 1.0 then InvalidLimitPrice
                                   else if !st.trusted then BookUntrusted else MarketNotOpen)
    ensures r.Ok? && outcome.Yes? ==>
              && BestFill(Asks(st.noBids), contracts, limit, r.value)
              && FrontOfLadder(Asks(st.noBids), limit, r.value.consumed)
              && TakenFrom(LadderMap(st.noBids), AsksOf(st).yes, contracts, limit, r.value)
    ensures r.Ok? && outcome.No? ==>
              && BestFill(Asks(st.yesBids), contracts, limit, r.value)
              && FrontOfLadder(Asks(st.yesBids), limit, r.value.consumed)
              && TakenFrom(LadderMap(st.yesBids), AsksOf(st).no, contracts, limit, r.value)
  {
    hide BestFill, FrontOfLadder, TakenFrom, ValidLevels, StrictlyDescending, LadderMap;
    if contracts < 0.0 { return Err(InvalidContracts); }
    if limit < 0.0 || limit > 1.0 { return Err(InvalidLimitPrice); }
    if !st.trusted || st.sequenceGap { return Err(BookUntrusted); }
    if !st.status.Open? { return Err(MarketNotOpen); }
    var complementary := if outcome.Yes? then st.noBids else st.yesBids;
    LadderCheapestFirst(complementary);
    var f := Fill(0.0, 0.0, []);
    if contracts == 0.0 || complementary == [] {
      NothingToTake(Asks(complementary), contracts, limit);
    } else {
      f := BuyLevels(complementary, contracts, limit);
    }
    FillIsTaken(complementary, contracts, limit, f);
    return Ok(f);
  }

  method BuyLevels(bids: seq<BookLevel>, contracts: real, limit: real) returns (f: Fill)
    requires CheapestFirst(Asks(bids)) && bids != [] && 0.0 < contracts
    ensures BestFill(Asks(bids), contracts, limit, f)
    ensures FrontOfLadder(Asks(bids), limit, f.consumed)
    ensures f.consumed == [] ==> f.averagePrice == 0.0
  {
    ghost var asks := Asks(bids);
    var remaining := contracts;
    var consumed: seq<BookLevel> := [];
    var k := 0;
    while k < |bids|
      invariant Taken(asks, k, contracts, limit, consumed, remaining)
    {
      var askPrice := 1.0 - bids[k].price;
      if askPrice > limit { break; }
      var quantity := Min(remaining, bids[k].quantity);
      TakeOne(asks, k, contracts, limit, consumed, remaining);
      consumed := consumed + [BookLevel(askPrice, quantity)];
      remaining := remaining - quantity;
      k := k + 1;
      if remaining == 0.0 { break; }
    }
    assert Stopped(asks, k, contracts, limit, consumed, remaining);
    StoppedIsBest(asks, k, contracts, limit, consumed, remaining);
    if consumed == [] { return Fill(0.0, 0.0, []); }
    var filled := TotalQuantity(consumed);
    return Fill(filled, TotalCost(consumed) / filled, consumed);
  }

  // ---------- What the loop has taken ----------

  lemma {:induction false} DepthSplit(asks: seq<BookLevel>, k: nat, limit: real)
    requires k <= |asks| && forall i :: 0 <= i < k ==> asks[i].price <= limit
    ensures Depth(asks, limit) == TotalQuantity(asks[..k]) + Depth(asks[k..], limit)
  {
    if k == 0 {
      assert asks[0..] == asks;
    } else {
      assert asks[..k][1..] == asks[1..][..k - 1];
      assert asks[1..][k - 1..] == asks[k..];
      DepthSplit(asks[1..], k - 1, limit);
    }
  }

  lemma {:induction false} NoDepth(asks: seq<BookLevel>, limit: real)
    requires CheapestFirst(asks) && asks != [] && asks[0].price > limit
    ensures Depth(asks, limit) == 0.0
  {
    if |asks| > 1 {
      NoDepth(asks[1..], limit);
    }
  }

  lemma {:induction false} DepthNonnegative(asks: seq<BookLevel>, limit: real)
    requires CheapestFirst(asks)
    ensures 0.0 <= Depth(asks, limit)
  {
    if asks != [] {
      DepthNonnegative(asks[1..], limit);
    }
  }

  /** A fill that takes every level whole but the last pays what taking its quantity from the front costs. */
  lemma {:induction false} WholeButLast(asks: seq<BookLevel>, consumed: seq<BookLevel>)
    requires CheapestFirst(asks) && |consumed| <= |asks|
    requires forall i :: 0 <= i < |consumed| ==>
               consumed[i].price == asks[i].price && 0.0 < consumed[i].quantity <= asks[i].quantity
    requires forall i :: 0 <= i < |consumed| - 1 ==> consumed[i].quantity == asks[i].quantity
    ensures 0.0 <= TotalQuantity(consumed)
    ensures TotalCost(consumed) == FrontCost(asks, TotalQuantity(consumed))
  {
    if consumed == [] {
      FrontCostZero(asks);
    } else {
      var rest, more := asks[1..], consumed[1..];
      WholeButLast(rest, more);
      FrontCostZero(rest);
      hide CheapestFirst, FrontCost, TotalCost, TotalQuantity, Pays;
      OneLevel(consumed);
      NoLevels();
      FrontStep(asks, TotalQuantity(consumed));
    }
  }

  /** However the loop stops, it has taken the smaller of the request and the depth. */
  lemma StoppedQuantity(asks: seq<BookLevel>, k: nat, contracts: real, limit: real, consumed: seq<BookLevel>,
                        remaining: real)
    requires CheapestFirst(asks) && Stopped(asks, k, contracts, limit, consumed, remaining)
    ensures TotalQuantity(consumed) == Min(contracts, Depth(asks, limit))
  {
    CheapestFirstDrop(asks, k);
    if remaining > 0.0 {
      hide TotalQuantity, Depth, CheapestFirst;
      DepthSplit(asks, k, limit);
      if asks[k..] != [] {
        NoDepth(asks[k..], limit);
      } else {
        NoDepthLeft(limit);
      }
    } else {
      var j := k - 1;
      var taken := consumed[..j];
      assert taken + [consumed[j]] == consumed;
      hide TotalQuantity, Depth, CheapestFirst;
      TotalAppend(taken, consumed[j]);
      DepthSplit(asks, j, limit);
      DepthOfLast(asks, j, limit);
      DepthNonnegative(asks[k..], limit);
    }
  }

  lemma NoDepthLeft(limit: real)
    ensures Depth([], limit) == 0.0
  {
  }

  lemma DepthOfLast(asks: seq<BookLevel>, j: nat, limit: real)
    requires j < |asks| && asks[j].price <= limit
    ensures Depth(asks[j..], limit) == asks[j].quantity + Depth(asks[j + 1..], limit)
  {
    assert asks[j..][1..] == asks[j + 1..];
  }

  lemma {:induction false} PositiveTotal(levels: seq<BookLevel>)
    requires levels != [] && forall i :: 0 <= i < |levels| ==> 0.0 < levels[i].quantity
    ensures TotalQuantity(levels) > 0.0
  {
    if |levels| > 1 {
      PositiveTotal(levels[1..]);
    }
  }

  lemma Average(total: real, n: real)
    requires n > 0.0
    ensures Pays(total / n, n) == total
  {
  }

  lemma StoppedIsBest(asks: seq<BookLevel>, k: nat, contracts: real, limit: real, consumed: seq<BookLevel>,
                      remaining: real)
    requires CheapestFirst(asks) && Stopped(asks, k, contracts, limit, consumed, remaining)
    ensures consumed == [] ==> BestFill(asks, contracts, limit, Fill(0.0, 0.0, []))
    ensures consumed != [] ==> TotalQuantity(consumed) > 0.0
    ensures consumed != [] ==>
              BestFill(asks, contracts, limit,
                       Fill(TotalQuantity(consumed), TotalCost(consumed) / TotalQuantity(consumed), consumed))
  {
    StoppedQuantity(asks, k, contracts, limit, consumed, remaining);
    WholeButLast(asks, consumed);
    if consumed != [] {
      PositiveTotal(consumed);
    }
    FrontIsBestFill(asks, contracts, limit, consumed);
  }

  lemma FrontIsBestFill(asks: seq<BookLevel>, contracts: real, limit: real, consumed: seq<BookLevel>)
    requires CheapestFirst(asks)
    requires TotalQuantity(consumed) == Min(contracts, Depth(asks, limit))
    requires TotalCost(consumed) == FrontCost(asks, TotalQuantity(consumed))
    ensures consumed == [] ==> BestFill(asks, contracts, limit, Fill(0.0, 0.0, []))
    ensures TotalQuantity(consumed) > 0.0 ==>
              BestFill(asks, contracts, limit,
                       Fill(TotalQuantity(consumed), TotalCost(consumed) / TotalQuantity(consumed), consumed))
  {
    hide Cost, Depth, FrontCost, CheapestFirst, Sum;
    var q, c := TotalQuantity(consumed), TotalCost(consumed);
    forall alloc | Allocation(asks, limit, alloc) && Sum(alloc) == q ensures c <= Cost(asks, alloc) {
      FrontIsCheapest(asks, limit, alloc);
    }
    if q > 0.0 { Average(c, q); }
  }

  lemma NothingToTake(asks: seq<BookLevel>, contracts: real, limit: real)
    requires CheapestFirst(asks) && 0.0 <= contracts && (contracts == 0.0 || asks == [])
    ensures BestFill(asks, contracts, limit, Fill(0.0, 0.0, [])) && FrontOfLadder(asks, limit, [])
  {
    DepthNonnegative(asks, limit);
    FrontCostZero(asks);
    FrontIsBestFill(asks, contracts, limit, []);
  }
}
