/**
  The order book of inci_tennis_expert/market_book.py: two ladders of bids driven by
  snapshots, deltas and lifecycle events.

  Decimals are exact reals.  A stored SHA-256 digest is modelled by the event it digests.
*/
module MarketBook {
  import opened Common

  datatype ContractSide = Yes | No

  datatype MarketStatus = PreOpen | Open | Suspended | Closed | Settled | Cancelled

  datatype BookLevel = BookLevel(price: real, quantity: real)

  datatype BookSnapshot = BookSnapshot(
    ticker: string, epoch: nat, sequence: nat, status: MarketStatus, scheduledClose: nat,
    sourceWall: nat, observed: nat, uncertainty: nat,
    yesBids: seq<BookLevel>, noBids: seq<BookLevel>)

  datatype BookDelta = BookDelta(
    ticker: string, epoch: nat, sequence: nat, sourceWall: nat, observed: nat, uncertainty: nat,
    side: ContractSide, price: real, quantity: real)

  datatype MarketLifecycle = MarketLifecycle(
    ticker: string, epoch: nat, status: MarketStatus, scheduledClose: nat,
    sourceWall: nat, observed: nat, uncertainty: nat)

  datatype BookEvent =
    | SnapshotEvent(snapshot: BookSnapshot)
    | DeltaEvent(delta: BookDelta)
    | LifecycleEvent(lifecycle: MarketLifecycle)

  datatype BookState = BookState(
    ticker: string, epoch: nat, sequence: nat, status: MarketStatus, scheduledClose: nat,
    bookSourceWall: nat, bookObserved: nat, bookUncertainty: nat,
    lifecycleSourceWall: nat, lifecycleObserved: nat, lifecycleUncertainty: nat,
    yesBids: seq<BookLevel>, noBids: seq<BookLevel>,
    trusted: bool, sequenceGap: bool,
    lastMove: real, lastMoveObserved: nat,
    lastSnapshot: BookSnapshot, lastEvent: BookEvent)

  /** `accepted` is the kind and digest of the accepted event; None is a refused event. */
  datatype BookTransition = BookTransition(
    state: BookState, accepted: Option<BookEvent>, move: real, moveObserved: Option<nat>,
    epoch: nat, sequence: nat, topChanged: bool)

  datatype BookError =
    | TickerMismatch | SnapshotNotRequired | SnapshotEpochStale | SnapshotEpochNotNewer
    | BookTimeRegression | ResnapshotRequired | EpochStale | LifecycleTimeRegression

  // ---------- What the contracts demand of ladders ----------

  ghost predicate ValidLevels(levels: seq<BookLevel>) {
    forall l :: l in levels ==> 0.0 <= l.price <= 1.0 && 0.0 < l.quantity
  }

  ghost predicate DistinctPrices(levels: seq<BookLevel>) {
    forall i, j :: 0 <= i < j < |levels| ==> levels[i].price != levels[j].price
  }

  ghost predicate StrictlyDescending(levels: seq<BookLevel>) {
    forall i, j :: 0 <= i < j < |levels| ==> levels[i].price > levels[j].price
  }

  ghost predicate ValidLadder(levels: seq<BookLevel>) {
    ValidLevels(levels) && StrictlyDescending(levels)
  }

  predicate Crossed(yesBids: seq<BookLevel>, noBids: seq<BookLevel>) {
    yesBids != [] && noBids != [] && yesBids[0].price + noBids[0].price > 1.0
  }

  ghost predicate ValidBook(yesBids: seq<BookLevel>, noBids: seq<BookLevel>) {
    ValidLadder(yesBids) && ValidLadder(noBids) && !Crossed(yesBids, noBids)
  }

  ghost predicate ValidSnapshot(s: BookSnapshot) {
    ValidBook(s.yesBids, s.noBids)
  }

  ghost predicate ValidDelta(d: BookDelta) {
    0.0 <= d.price <= 1.0 && 0.0 <= d.quantity
  }

  ghost predicate ValidState(st: BookState) {
    && ValidBook(st.yesBids, st.noBids)
    && st.trusted == !st.sequenceGap
    && 0.0 <= st.lastMove <= 1.0
    && st.lastMoveObserved <= st.bookObserved
  }

  // ---------- Executable moves ----------

  /** Best executable ask of each outcome; the complement's best bid sets it. */
  datatype BestAsks = BestAsks(yes: Option<real>, no: Option<real>)

  function BestAsksOf(yesBids: seq<BookLevel>, noBids: seq<BookLevel>): BestAsks {
    BestAsks(
      if noBids != [] then Some(1.0 - noBids[0].price) else None,
      if yesBids != [] then Some(1.0 - yesBids[0].price) else None)
  }

  function Abs(x: real): real { if x < 0.0 then -x else x }

  function OneSideMove(before: Option<real>, after: Option<real>): real {
    if before.None? && after.None? then 0.0
    else if before.None? || after.None? then 1.0
    else Abs(after.value - before.value)
  }

  function MoveBetween(before: BestAsks, after: BestAsks): real {
    var yesMove := OneSideMove(before.yes, after.yes);
    var noMove := OneSideMove(before.no, after.no);
    if yesMove >= noMove then yesMove else noMove
  }

  function ExecutableMove(beforeYes: seq<BookLevel>, beforeNo: seq<BookLevel>,
                          afterYes: seq<BookLevel>, afterNo: seq<BookLevel>): real {
    MoveBetween(BestAsksOf(beforeYes, beforeNo), BestAsksOf(afterYes, afterNo))
  }

  // ---------- Sorting and searching a ladder ----------

  function Insert(level: BookLevel, levels: seq<BookLevel>): (r: seq<BookLevel>)
    ensures multiset(r) == multiset(levels) + multiset{level}
  {
    if levels == [] || level.price > levels[0].price then [level] + levels
    else
      assert levels == [levels[0]] + levels[1..];
      [levels[0]] + Insert(level, levels[1..])
  }

  /** `sorted(levels, key=price, reverse=True)`. */
  function SortDescending(levels: seq<BookLevel>): (r: seq<BookLevel>)
    ensures multiset(r) == multiset(levels)
  {
    if levels == [] then []
    else
      assert levels == [levels[0]] + levels[1..];
      Insert(levels[0], SortDescending(levels[1..]))
  }

  function MatchingIndex(levels: seq<BookLevel>, price: real): (r: Option<nat>)
    ensures r.Some? ==> r.value < |levels| && levels[r.value].price == price
    ensures r.Some? ==> forall k :: 0 <= k < r.value ==> levels[k].price != price
    ensures r.None? ==> forall k :: 0 <= k < |levels| ==> levels[k].price != price
  {
    if levels == [] then None
    else if levels[0].price == price then Some(0)
    else match MatchingIndex(levels[1..], price)
      case None => None
      case Some(i) => Some(i + 1)
  }

  method FindMatchingIndex(levels: seq<BookLevel>, price: real) returns (r: Option<nat>)
    ensures r == MatchingIndex(levels, price)
  {
    for index := 0 to |levels|
      invariant forall k :: 0 <= k < index ==> levels[k].price != price
    {
      if levels[index].price == price {
        return Some(index);
      }
    }
    return None;
  }

  // ---------- Transitions ----------

  function StatusTransitionAllowed(current: MarketStatus, incoming: MarketStatus): bool {
    match current
    case PreOpen => incoming in {PreOpen, Open, Suspended, Closed, Cancelled}
    case Open => incoming in {Open, Suspended, Closed, Cancelled}
    case Suspended => incoming in {Suspended, Open, Closed, Cancelled}
    case Closed => incoming in {Closed, Settled, Cancelled}
    case Settled => incoming == Settled
    case Cancelled => incoming == Cancelled
  }

  function GappedCopy(st: BookState): BookState {
    st.(trusted := false, sequenceGap := true)
  }

  function NoEvent(st: BookState): BookTransition {
    BookTransition(st, None, 0.0, None, st.epoch, st.sequence, false)
  }

  function StateFromSnapshot(s: BookSnapshot, move: real): BookState {
    BookState(s.ticker, s.epoch, s.sequence, s.status, s.scheduledClose,
              s.sourceWall, s.observed, s.uncertainty,
              s.sourceWall, s.observed, s.uncertainty,
              s.yesBids, s.noBids, true, false, move, s.observed, s, SnapshotEvent(s))
  }

  function BookFromSnapshot(s: BookSnapshot): BookTransition {
    BookTransition(StateFromSnapshot(s, 0.0), Some(SnapshotEvent(s)), 0.0, Some(s.observed),
                   s.epoch, s.sequence, false)
  }

  function RequireBookResnapshot(st: BookState): BookState {
    if !st.trusted && st.sequenceGap then st else GappedCopy(st)
  }

  function ApplyBookSnapshot(st: BookState, s: BookSnapshot): Result<BookTransition, BookError> {
    if s.ticker != st.ticker then Err(TickerMismatch)
    else if st.trusted || !st.sequenceGap then Err(SnapshotNotRequired)
    else if s.epoch < st.epoch then Err(SnapshotEpochStale)
    else if s.epoch == st.epoch then Err(SnapshotEpochNotNewer)
    else if s.observed < st.bookObserved || s.observed < st.lifecycleObserved then Err(BookTimeRegression)
    else if !StatusTransitionAllowed(st.status, s.status) then Ok(NoEvent(GappedCopy(st)))
    else
      var move := ExecutableMove(st.yesBids, st.noBids, s.yesBids, s.noBids);
      Ok(BookTransition(StateFromSnapshot(s, move), Some(SnapshotEvent(s)), move, Some(s.observed),
                        s.epoch, s.sequence, move > 0.0))
  }

  function SideLevels(st: BookState, side: ContractSide): seq<BookLevel> {
    if side.Yes? then st.yesBids else st.noBids
  }

  /** The ladder after the delta, before sorting; None deletes a level that is not there. */
  function UpdatedLevels(selected: seq<BookLevel>, matching: Option<nat>, d: BookDelta): Option<seq<BookLevel>>
    requires matching.Some? ==> matching.value < |selected|
  {
    if d.quantity == 0.0 then
      if matching.None? then None
      else Some(selected[..matching.value] + selected[matching.value + 1..])
    else if matching.None? then Some(selected + [BookLevel(d.price, d.quantity)])
    else Some(selected[..matching.value] + [BookLevel(d.price, d.quantity)] + selected[matching.value + 1..])
  }

  function AcceptDelta(st: BookState, d: BookDelta, yesBids: seq<BookLevel>, noBids: seq<BookLevel>): BookTransition {
    var move := ExecutableMove(st.yesBids, st.noBids, yesBids, noBids);
    BookTransition(
      st.(epoch := d.epoch, sequence := d.sequence,
          bookSourceWall := d.sourceWall, bookObserved := d.observed, bookUncertainty := d.uncertainty,
          yesBids := yesBids, noBids := noBids, trusted := true, sequenceGap := false,
          lastMove := move, lastMoveObserved := d.observed, lastEvent := DeltaEvent(d)),
      Some(DeltaEvent(d)), move, Some(d.observed), d.epoch, d.sequence, move > 0.0)
  }

  function ApplyDelta(st: BookState, d: BookDelta): Result<BookTransition, BookError> {
    if d.ticker != st.ticker then Err(TickerMismatch)
    else if !st.trusted || st.sequenceGap then Err(ResnapshotRequired)
    else if d.epoch < st.epoch then Err(EpochStale)
    else if d.epoch > st.epoch || d.observed < st.bookObserved
            || d.sequence <= st.sequence || d.sequence > st.sequence + 1 then
      Ok(NoEvent(GappedCopy(st)))
    else
      var selected := SideLevels(st, d.side);
      var updated := UpdatedLevels(selected, MatchingIndex(selected, d.price), d);
      if updated.None? then Ok(NoEvent(GappedCopy(st)))
      else
        var sorted := SortDescending(updated.value);
        var yesBids := if d.side.Yes? then sorted else st.yesBids;
        var noBids := if d.side.Yes? then st.noBids else sorted;
        if Crossed(yesBids, noBids) then Ok(NoEvent(GappedCopy(st)))
        else Ok(AcceptDelta(st, d, yesBids, noBids))
  }

  /** `apply_book_delta` with its search loop. */
  method ApplyBookDelta(st: BookState, d: BookDelta) returns (r: Result<BookTransition, BookError>)
    ensures r == ApplyDelta(st, d)
  {
    if d.ticker != st.ticker { return Err(TickerMismatch); }
    if !st.trusted || st.sequenceGap { return Err(ResnapshotRequired); }
    if d.epoch < st.epoch { return Err(EpochStale); }
    if d.epoch > st.epoch { return Ok(NoEvent(GappedCopy(st))); }
    if d.observed < st.bookObserved { return Ok(NoEvent(GappedCopy(st))); }
    if d.sequence <= st.sequence { return Ok(NoEvent(GappedCopy(st))); }
    if d.sequence > st.sequence + 1 { return Ok(NoEvent(GappedCopy(st))); }
    var selected := SideLevels(st, d.side);
    var matching := FindMatchingIndex(selected, d.price);
    var updated := UpdatedLevels(selected, matching, d);
    if updated.None? { return Ok(NoEvent(GappedCopy(st))); }
    var sorted := SortDescending(updated.value);
    var yesBids, noBids := st.yesBids, st.noBids;
    if d.side.Yes? { yesBids := sorted; } else { noBids := sorted; }
    if Crossed(yesBids, noBids) { return Ok(NoEvent(GappedCopy(st))); }
    return Ok(AcceptDelta(st, d, yesBids, noBids));
  }

  function ApplyMarketLifecycle(st: BookState, l: MarketLifecycle): Result<BookTransition, BookError> {
    if l.ticker != st.ticker then Err(TickerMismatch)
    else if l.epoch < st.epoch then Err(EpochStale)
    else if l.epoch > st.epoch then Ok(NoEvent(GappedCopy(st)))
    else if l.observed < st.lifecycleObserved then Err(LifecycleTimeRegression)
    else if l.observed == st.lifecycleObserved then
      if (l.status, l.scheduledClose, l.sourceWall, l.uncertainty)
         == (st.status, st.scheduledClose, st.lifecycleSourceWall, st.lifecycleUncertainty)
      then Ok(NoEvent(st))
      else Ok(NoEvent(GappedCopy(st)))
    else if !StatusTransitionAllowed(st.status, l.status) then Ok(NoEvent(GappedCopy(st)))
    else
      Ok(BookTransition(
           st.(status := l.status, scheduledClose := l.scheduledClose,
               lifecycleSourceWall := l.sourceWall, lifecycleObserved := l.observed,
               lifecycleUncertainty := l.uncertainty, lastEvent := LifecycleEvent(l)),
           Some(LifecycleEvent(l)), 0.0, None, st.epoch, st.sequence, false))
  }

  // ---------- A ladder as a map from price to quantity ----------

  function LadderMap(levels: seq<BookLevel>): map<real, real> {
    if levels == [] then map[]
    else LadderMap(levels[1..])[levels[0].price := levels[0].quantity]
  }

  /** What one delta means for the price-to-quantity map. */
  function DeltaMap(m: map<real, real>, d: BookDelta): map<real, real> {
    if d.quantity == 0.0 then m - {d.price} else m[d.price := d.quantity]
  }

  ghost predicate MapsUncrossed(yes: map<real, real>, no: map<real, real>) {
    forall p, q :: p in yes && q in no ==> p + q <= 1.0
  }

  lemma {:induction false} LadderMapKeys(levels: seq<BookLevel>)
    ensures forall p :: p in LadderMap(levels) <==> exists k :: 0 <= k < |levels| && levels[k].price == p
  {
    if levels != [] {
      var rest := levels[1..];
      LadderMapKeys(rest);
      forall p ensures p in LadderMap(levels) <==> exists k :: 0 <= k < |levels| && levels[k].price == p {
        if p in LadderMap(rest) {
          var k :| 0 <= k < |rest| && rest[k].price == p;
          assert levels[k + 1].price == p;
        }
        if k :| 0 <= k < |levels| && levels[k].price == p && k > 0 {
          assert rest[k - 1].price == p;
        }
      }
    }
  }

  lemma {:induction false} LadderMapAppend(levels: seq<BookLevel>, l: BookLevel)
    requires forall k :: 0 <= k < |levels| ==> levels[k].price != l.price
    ensures LadderMap(levels + [l]) == LadderMap(levels)[l.price := l.quantity]
  {
    if levels == [] {
      assert levels + [l] == [l];
    } else {
      assert (levels + [l])[1..] == levels[1..] + [l];
      LadderMapAppend(levels[1..], l);
    }
  }

  lemma {:induction false} LadderMapReplace(levels: seq<BookLevel>, i: nat, l: BookLevel)
    requires i < |levels| && levels[i].price == l.price && DistinctPrices(levels)
    ensures LadderMap(levels[..i] + [l] + levels[i + 1..]) == LadderMap(levels)[l.price := l.quantity]
  {
    var after := levels[..i] + [l] + levels[i + 1..];
    if i == 0 {
      assert after[1..] == levels[1..];
    } else {
      assert after[1..] == levels[1..][..i - 1] + [l] + levels[1..][i..];
      LadderMapReplace(levels[1..], i - 1, l);
    }
  }

  lemma {:induction false} LadderMapRemove(levels: seq<BookLevel>, i: nat)
    requires i < |levels| && DistinctPrices(levels)
    ensures LadderMap(levels[..i] + levels[i + 1..]) == LadderMap(levels) - {levels[i].price}
  {
    hide LadderMap;
    if i == 0 {
      assert levels[..0] + levels[1..] == levels[1..];
      RemoveFirst(levels);
    } else {
      LadderMapRemove(levels[1..], i - 1);
      RemoveLater(levels, i);
    }
  }

  lemma RemoveFirst(levels: seq<BookLevel>)
    requires levels != [] && DistinctPrices(levels)
    ensures LadderMap(levels[1..]) == LadderMap(levels) - {levels[0].price}
  {
    var rest, p := levels[1..], levels[0].price;
    LadderMapKeys(rest);
    assert p !in LadderMap(rest);
    assert LadderMap(levels) == LadderMap(rest)[p := levels[0].quantity];
    hide LadderMap, DistinctPrices;
    assert LadderMap(rest)[p := levels[0].quantity] - {p} == LadderMap(rest);
  }

  lemma RemoveLater(levels: seq<BookLevel>, i: nat)
    requires 0 < i < |levels| && levels[0].price != levels[i].price
    requires var rest := levels[1..]; LadderMap(rest[..i - 1] + rest[i..]) == LadderMap(rest) - {levels[i].price}
    ensures LadderMap(levels[..i] + levels[i + 1..]) == LadderMap(levels) - {levels[i].price}
  {
    hide LadderMap;
    var rest := levels[1..];
    ConsMap(levels[0], rest[..i - 1] + rest[i..]);
    ConsMap(levels[0], rest);
    assert levels[..i] + levels[i + 1..] == [levels[0]] + (rest[..i - 1] + rest[i..]) && levels == [levels[0]] + rest;
    PutRemoved(LadderMap(rest), levels[0].price, levels[0].quantity, levels[i].price);
  }

  lemma PutRemoved(m: map<real, real>, a: real, x: real, b: real)
    requires a != b
    ensures (m - {b})[a := x] == m[a := x] - {b}
  {
  }

  /** Each price under the one before it, as the contract's scan checks it. */
  ghost predicate Descending(levels: seq<BookLevel>) {
    |levels| > 1 ==> levels[0].price > levels[1].price && Descending(levels[1..])
  }

  lemma {:induction false} DescendingIsStrict(levels: seq<BookLevel>)
    requires Descending(levels)
    ensures StrictlyDescending(levels)
  {
    if |levels| > 1 {
      var rest := levels[1..];
      DescendingIsStrict(rest);
      forall j | 0 < j < |levels| ensures levels[0].price > levels[j].price {
        assert levels[j] == rest[j - 1];
      }
      forall i, j | 0 < i < j < |levels| ensures levels[i].price > levels[j].price {
        assert levels[i] == rest[i - 1] && levels[j] == rest[j - 1];
      }
    }
  }

  lemma {:induction false} InsertSorted(l: BookLevel, levels: seq<BookLevel>)
    requires Descending(levels) && forall k :: 0 <= k < |levels| ==> levels[k].price != l.price
    ensures Descending(Insert(l, levels))
  {
    if levels == [] || l.price > levels[0].price {
      assert ([l] + levels)[1..] == levels;
    } else {
      InsertSorted(l, levels[1..]);
      assert ([levels[0]] + Insert(l, levels[1..]))[1..] == Insert(l, levels[1..]);
    }
  }

  lemma {:induction false} InsertMap(l: BookLevel, levels: seq<BookLevel>)
    requires forall k :: 0 <= k < |levels| ==> levels[k].price != l.price
    ensures LadderMap(Insert(l, levels)) == LadderMap(levels)[l.price := l.quantity]
  {
    hide LadderMap;
    if levels == [] || l.price > levels[0].price {
      ConsMap(l, levels);
    } else {
      InsertMap(l, levels[1..]);
      ConsMap(levels[0], Insert(l, levels[1..]));
      ConsMap(levels[0], levels[1..]);
      assert levels == [levels[0]] + levels[1..];
      EitherOrder(LadderMap(levels[1..]), l, levels[0]);
    }
  }

  lemma EitherOrder(m: map<real, real>, a: BookLevel, b: BookLevel)
    requires a.price != b.price
    ensures m[a.price := a.quantity][b.price := b.quantity] == m[b.price := b.quantity][a.price := a.quantity]
  {
  }

  lemma ConsMap(l: BookLevel, levels: seq<BookLevel>)
    ensures LadderMap([l] + levels) == LadderMap(levels)[l.price := l.quantity]
  {
    assert ([l] + levels)[1..] == levels;
  }

  lemma NewPrice(levels: seq<BookLevel>)
    requires levels != [] && DistinctPrices(levels)
    ensures var s := SortDescending(levels[1..]); forall k :: 0 <= k < |s| ==> s[k].price != levels[0].price
  {
    var rest := levels[1..];
    var s := SortDescending(rest);
    forall k | 0 <= k < |s| ensures s[k].price != levels[0].price {
      assert s[k] in multiset(s);
      assert s[k] in rest;
    }
  }

  lemma SortedFront(levels: seq<BookLevel>)
    requires levels != []
    ensures SortDescending(levels) == Insert(levels[0], SortDescending(levels[1..]))
  {
  }

  lemma {:induction false} SortedLadder(levels: seq<BookLevel>)
    requires DistinctPrices(levels)
    ensures Descending(SortDescending(levels))
    ensures LadderMap(SortDescending(levels)) == LadderMap(levels)
  {
    if levels != [] {
      var rest := levels[1..];
      SortedLadder(rest);
      var s := SortDescending(rest);
      hide LadderMap, Descending, SortDescending;
      NewPrice(levels);
      hide DistinctPrices;
      SortedFront(levels);
      ConsMap(levels[0], rest);
      assert levels == [levels[0]] + rest;
      InsertSorted(levels[0], s);
      InsertMap(levels[0], s);
    }
  }

  lemma SortedValid(levels: seq<BookLevel>)
    requires DistinctPrices(levels) && ValidLevels(levels)
    ensures ValidLadder(SortDescending(levels))
  {
    SortedLadder(levels);
    DescendingIsStrict(SortDescending(levels));
    forall l | l in SortDescending(levels) ensures l in levels {
      assert l in multiset(SortDescending(levels));
    }
  }

  lemma UncrossedMaps(yes: seq<BookLevel>, no: seq<BookLevel>)
    requires StrictlyDescending(yes) && StrictlyDescending(no)
    ensures !Crossed(yes, no) <==> MapsUncrossed(LadderMap(yes), LadderMap(no))
  {
    LadderMapKeys(yes);
    LadderMapKeys(no);
    if yes != [] && no != [] {
      assert yes[0].price in LadderMap(yes) && no[0].price in LadderMap(no);
      if !Crossed(yes, no) {
        forall p, q | p in LadderMap(yes) && q in LadderMap(no) ensures p + q <= 1.0 {
          var i :| 0 <= i < |yes| && yes[i].price == p;
          var j :| 0 <= j < |no| && no[j].price == q;
          assert yes[0].price >= p && no[0].price >= q;
        }
      }
    }
  }

  lemma RemoveValid(levels: seq<BookLevel>, i: nat)
    requires ValidLadder(levels) && i < |levels|
    ensures var u := levels[..i] + levels[i + 1..]; ValidLevels(u) && DistinctPrices(u)
  {
    var u := levels[..i] + levels[i + 1..];
    forall j, k | 0 <= j < k < |u| ensures u[j].price != u[k].price {
      assert levels[if j < i then j else j + 1].price > levels[if k < i then k else k + 1].price;
    }
  }

  lemma ReplaceValid(levels: seq<BookLevel>, i: nat, l: BookLevel)
    requires ValidLadder(levels) && i < |levels| && l.price == levels[i].price && 0.0 < l.quantity
    ensures var u := levels[..i] + [l] + levels[i + 1..]; ValidLevels(u) && DistinctPrices(u)
  {
    var u := levels[..i] + [l] + levels[i + 1..];
    assert levels[i] in levels;
    forall j, k | 0 <= j < k < |u| ensures u[j].price != u[k].price {
      assert levels[j].price > levels[k].price;
    }
  }

  lemma AppendValid(levels: seq<BookLevel>, l: BookLevel)
    requires ValidLadder(levels) && 0.0 <= l.price <= 1.0
    ensures 0.0 < l.quantity && (forall k :: 0 <= k < |levels| ==> levels[k].price != l.price) ==>
      ValidLevels(levels + [l]) && DistinctPrices(levels + [l])
  {
  }

  lemma UpdatedLevelsValid(selected: seq<BookLevel>, d: BookDelta)
    requires ValidLadder(selected) && ValidDelta(d)
    ensures var u := UpdatedLevels(selected, MatchingIndex(selected, d.price), d);
            u.Some? ==> ValidLevels(u.value) && DistinctPrices(u.value)
  {
    var matching := MatchingIndex(selected, d.price);
    AppendValid(selected, BookLevel(d.price, d.quantity));
    hide ValidLevels, DistinctPrices, StrictlyDescending;
    if matching.Some? {
      RemoveValid(selected, matching.value);
      if d.quantity > 0.0 {
        ReplaceValid(selected, matching.value, BookLevel(d.price, d.quantity));
      }
    }
  }

  /** Editing one ladder and sorting it again is one update of its map. */
  lemma UpdatedLadder(selected: seq<BookLevel>, d: BookDelta)
    requires ValidLadder(selected) && ValidDelta(d)
    ensures var u := UpdatedLevels(selected, MatchingIndex(selected, d.price), d);
            && (u.None? <==> d.quantity == 0.0 && d.price !in LadderMap(selected))
            && (u.Some? ==> ValidLadder(SortDescending(u.value))
                            && LadderMap(SortDescending(u.value)) == DeltaMap(LadderMap(selected), d))
  {
    var matching := MatchingIndex(selected, d.price);
    var u := UpdatedLevels(selected, matching, d);
    assert u.None? <==> d.quantity == 0.0 && d.price !in LadderMap(selected) by {
      LadderMapKeys(selected);
    }
    if u.Some? {
      UpdatedMap(selected, d);
      UpdatedLevelsValid(selected, d);
      SortedLadder(u.value);
      SortedValid(u.value);
    }
  }

  lemma UpdatedMap(selected: seq<BookLevel>, d: BookDelta)
    requires StrictlyDescending(selected)
    ensures var u := UpdatedLevels(selected, MatchingIndex(selected, d.price), d);
            u.Some? ==> LadderMap(u.value) == DeltaMap(LadderMap(selected), d)
  {
    var matching := MatchingIndex(selected, d.price);
    var l := BookLevel(d.price, d.quantity);
    assert DistinctPrices(selected);
    hide LadderMap, StrictlyDescending;
    if matching.None? {
      LadderMapAppend(selected, l);
    } else if d.quantity == 0.0 {
      LadderMapRemove(selected, matching.value);
    } else {
      LadderMapReplace(selected, matching.value, l);
    }
  }

  // ---------- One delta ----------

  /** The conditions under which a delta is in sequence for this book. */
  predicate InSequence(st: BookState, d: BookDelta) {
    d.epoch == st.epoch && d.observed >= st.bookObserved && d.sequence == st.sequence + 1
  }

  /** Nothing is accepted, moved or reported; the book is marked gapped and otherwise as it was. */
  ghost predicate OnlyGaps(st: BookState, t: BookTransition) {
    t == BookTransition(st.(trusted := false, sequenceGap := true), None, 0.0, None, st.epoch, st.sequence, false)
  }

  /**
    A delta is refused with an error exactly for a wrong ticker, else for an untrusted book, else for an old
    epoch. It is accepted exactly when it is next in sequence, deletes only a price that is there, and leaves
    the two maps uncrossed; then the maps change by that one delta. Any other delta only marks the gap.
  */
  lemma DeltaOutcome(st: BookState, d: BookDelta)
    requires ValidState(st) && ValidDelta(d)
    ensures var r := ApplyDelta(st, d);
            var yes, no := LadderMap(st.yesBids), LadderMap(st.noBids);
            var yes', no' := (if d.side.Yes? then DeltaMap(yes, d) else yes),
                             (if d.side.Yes? then no else DeltaMap(no, d));
            && (r == Err(TickerMismatch) <==> d.ticker != st.ticker)
            && (r == Err(ResnapshotRequired) <==> d.ticker == st.ticker && !st.trusted)
            && (r == Err(EpochStale) <==> d.ticker == st.ticker && st.trusted && d.epoch < st.epoch)
            && (r.Err? ==> r.error in {TickerMismatch, ResnapshotRequired, EpochStale})
            && (r.Ok? ==>
                  && (r.value.accepted.Some? <==>
                        && InSequence(st, d)
                        && (d.quantity == 0.0 ==> d.price in (if d.side.Yes? then yes else no))
                        && MapsUncrossed(yes', no'))
                  && (r.value.accepted.Some? ==>
                        && ValidState(r.value.state) && r.value.state.trusted
                        && LadderMap(r.value.state.yesBids) == yes'
                        && LadderMap(r.value.state.noBids) == no'
                        && r.value.state.sequence == d.sequence == st.sequence + 1)
                  && (r.value.accepted.None? ==> OnlyGaps(st, r.value)))
  {
    if d.ticker == st.ticker && st.trusted && InSequence(st, d) {
      var selected := SideLevels(st, d.side);
      UpdatedLadder(selected, d);
      var u := UpdatedLevels(selected, MatchingIndex(selected, d.price), d);
      if u.Some? {
        var sorted := SortDescending(u.value);
        if d.side.Yes? {
          UncrossedMaps(sorted, st.noBids);
          MoveBounds(st.yesBids, st.noBids, sorted, st.noBids);
        } else {
          UncrossedMaps(st.yesBids, sorted);
          MoveBounds(st.yesBids, st.noBids, st.yesBids, sorted);
        }
      }
    }
  }

  lemma MoveBounds(beforeYes: seq<BookLevel>, beforeNo: seq<BookLevel>, afterYes: seq<BookLevel>,
                   afterNo: seq<BookLevel>)
    requires ValidLevels(beforeYes) && ValidLevels(beforeNo) && ValidLevels(afterYes) && ValidLevels(afterNo)
    ensures 0.0 <= ExecutableMove(beforeYes, beforeNo, afterYes, afterNo) <= 1.0
  {
    assert forall s: seq<BookLevel> :: s != [] ==> s[0] in s;
  }

  // ---------- One snapshot or lifecycle event ----------

  /** How far a market has come: not yet open, trading, closed, ended. */
  function Stage(status: MarketStatus): nat {
    match status
    case PreOpen => 0
    case Open => 1
    case Suspended => 1
    case Closed => 2
    case Settled => 3
    case Cancelled => 3
  }

  /** A market stays, trades on and off, or moves to a later stage; only a closed one is settled. */
  predicate MayFollow(before: MarketStatus, after: MarketStatus) {
    || before == after
    || Stage(before) == Stage(after) == 1
    || (Stage(before) < Stage(after) && (after.Settled? ==> before.Closed?))
  }

  lemma StatusesInOrder(before: MarketStatus, after: MarketStatus)
    ensures StatusTransitionAllowed(before, after) <==> MayFollow(before, after)
  {
  }

  /**
    A snapshot is refused with an error exactly for a wrong ticker, else for a book that has no gap, else for an
    epoch that is not newer, else for a time before either of the book's. It is accepted exactly when its status
    may follow the book's; otherwise the gap stays.
  */
  lemma SnapshotOutcome(st: BookState, s: BookSnapshot)
    requires st.trusted == !st.sequenceGap
    ensures var r := ApplyBookSnapshot(st, s);
            var asked := s.ticker == st.ticker && !st.trusted;
            var timely := s.observed >= st.bookObserved && s.observed >= st.lifecycleObserved;
            && (r == Err(TickerMismatch) <==> s.ticker != st.ticker)
            && (r == Err(SnapshotNotRequired) <==> s.ticker == st.ticker && st.trusted)
            && (r == Err(SnapshotEpochStale) <==> asked && s.epoch < st.epoch)
            && (r == Err(SnapshotEpochNotNewer) <==> asked && s.epoch == st.epoch)
            && (r == Err(BookTimeRegression) <==> asked && s.epoch > st.epoch && !timely)
            && (r.Ok? <==> asked && s.epoch > st.epoch && timely)
            && (r.Ok? ==>
                  && (r.value.accepted.Some? <==> MayFollow(st.status, s.status))
                  && (r.value.accepted.Some? ==> r.value.state.trusted)
                  && (r.value.accepted.None? ==> OnlyGaps(st, r.value)))
  {
    StatusesInOrder(st.status, s.status);
  }

  /** The lifecycle event says again what the book holds. */
  ghost predicate Repeats(st: BookState, l: MarketLifecycle) {
    && l.observed == st.lifecycleObserved && l.status == st.status && l.scheduledClose == st.scheduledClose
    && l.sourceWall == st.lifecycleSourceWall && l.uncertainty == st.lifecycleUncertainty
  }

  /**
    A lifecycle event is refused with an error exactly for a wrong ticker, else for an old epoch, else for an
    earlier time in the same epoch. It is accepted exactly in the same epoch, at a strictly later time, with a
    status that may follow the book's, and keeps the book's trust; a repeat changes nothing; any other marks the gap.
  */
  lemma LifecycleOutcome(st: BookState, l: MarketLifecycle)
    ensures var r := ApplyMarketLifecycle(st, l);
            var same := l.ticker == st.ticker && l.epoch == st.epoch;
            && (r == Err(TickerMismatch) <==> l.ticker != st.ticker)
            && (r == Err(EpochStale) <==> l.ticker == st.ticker && l.epoch < st.epoch)
            && (r == Err(LifecycleTimeRegression) <==> same && l.observed < st.lifecycleObserved)
            && (r.Err? ==> r.error in {TickerMismatch, EpochStale, LifecycleTimeRegression})
            && (r.Ok? ==>
                  && (r.value.accepted.Some? <==>
                        same && l.observed > st.lifecycleObserved && MayFollow(st.status, l.status))
                  && (r.value.accepted.Some? ==>
                        r.value.state.trusted == st.trusted && r.value.state.sequenceGap == st.sequenceGap)
                  && (same && Repeats(st, l) ==>
                        r.value == BookTransition(st, None, 0.0, None, st.epoch, st.sequence, false))
                  && (r.value.accepted.None? && !(same && Repeats(st, l)) ==> OnlyGaps(st, r.value)))
  {
    StatusesInOrder(st.status, l.status);
  }

  /** Demanding a snapshot leaves a trusted book gapped and nothing else changed; a gapped one is the same. */
  lemma ResnapshotOutcome(st: BookState)
    requires st.trusted == !st.sequenceGap
    ensures RequireBookResnapshot(st) == st.(trusted := false, sequenceGap := true)
  {
  }

  // ---------- Runs ----------

  datatype BookInput = Event(event: BookEvent) | RequireResnapshot

  ghost predicate ValidInput(i: BookInput) {
    match i
    case Event(SnapshotEvent(s)) => ValidSnapshot(s)
    case Event(DeltaEvent(d)) => ValidDelta(d)
    case _ => true
  }

  function Apply(st: BookState, i: BookInput): Result<BookTransition, BookError> {
    match i
    case Event(SnapshotEvent(s)) => ApplyBookSnapshot(st, s)
    case Event(DeltaEvent(d)) => ApplyDelta(st, d)
    case Event(LifecycleEvent(l)) => ApplyMarketLifecycle(st, l)
    case RequireResnapshot => Ok(NoEvent(RequireBookResnapshot(st)))
  }

  /** An exception leaves the caller with the state it had. */
  function Step(st: BookState, i: BookInput): BookState {
    var r := Apply(st, i);
    if r.Ok? then r.value.state else st
  }

  function Run(st: BookState, inputs: seq<BookInput>): BookState {
    if inputs == [] then st
    else Step(Run(st, inputs[..|inputs| - 1]), inputs[|inputs| - 1])
  }

  predicate Accepts(st: BookState, i: BookInput) {
    var r := Apply(st, i);
    r.Ok? && r.value.accepted.Some?
  }

  /** What was accepted: the last snapshot, the deltas and the last lifecycle event since it, and the last event. */
  datatype Ledger = Ledger(snapshot: BookSnapshot, deltas: seq<BookDelta>, lifecycle: Option<MarketLifecycle>,
                           last: BookEvent)

  function LedgerStep(g: Ledger, i: BookInput, accepted: bool): Ledger {
    if !accepted then g
    else match i
      case Event(SnapshotEvent(s)) => Ledger(s, [], None, i.event)
      case Event(DeltaEvent(d)) => g.(deltas := g.deltas + [d], last := i.event)
      case Event(LifecycleEvent(l)) => g.(lifecycle := Some(l), last := i.event)
      case RequireResnapshot => g
  }

  function LedgerOf(first: BookSnapshot, inputs: seq<BookInput>): Ledger {
    if inputs == [] then Ledger(first, [], None, SnapshotEvent(first))
    else
      var before := inputs[..|inputs| - 1];
      var i := inputs[|inputs| - 1];
      LedgerStep(LedgerOf(first, before), i, Accepts(Run(BookFromSnapshot(first).state, before), i))
  }

  function FoldDeltas(side: ContractSide, m: map<real, real>, deltas: seq<BookDelta>): map<real, real> {
    if deltas == [] then m
    else
      var before := FoldDeltas(side, m, deltas[..|deltas| - 1]);
      var d := deltas[|deltas| - 1];
      if d.side == side then DeltaMap(before, d) else before
  }

  /** Status, scheduled close and lifecycle times are those of the last accepted lifecycle event or snapshot. */
  ghost predicate LifecycleIs(st: BookState, g: Ledger) {
    match g.lifecycle
    case Some(l) =>
      && st.status == l.status && st.scheduledClose == l.scheduledClose && st.lifecycleSourceWall == l.sourceWall
      && st.lifecycleObserved == l.observed && st.lifecycleUncertainty == l.uncertainty
    case None =>
      var s := g.snapshot;
      && st.status == s.status && st.scheduledClose == s.scheduledClose && st.lifecycleSourceWall == s.sourceWall
      && st.lifecycleObserved == s.observed && st.lifecycleUncertainty == s.uncertainty
  }

  /** The book's own times are those of the last accepted delta or snapshot, and so is that of its last move. */
  ghost predicate TimesAre(st: BookState, g: Ledger) {
    && st.lastMoveObserved == st.bookObserved
    && if g.deltas != [] then
         var d := g.deltas[|g.deltas| - 1];
         st.bookSourceWall == d.sourceWall && st.bookObserved == d.observed && st.bookUncertainty == d.uncertainty
       else
         var s := g.snapshot;
         st.bookSourceWall == s.sourceWall && st.bookObserved == s.observed && st.bookUncertainty == s.uncertainty
  }

  /** The book holds what its last snapshot and the deltas since it add up to. */
  ghost predicate Refines(st: BookState, g: Ledger) {
    && ValidState(st)
    && st.lastSnapshot == g.snapshot
    && st.lastEvent == g.last
    && st.ticker == g.snapshot.ticker
    && st.epoch == g.snapshot.epoch
    && st.sequence == g.snapshot.sequence + |g.deltas|
    && LadderMap(st.yesBids) == FoldDeltas(Yes, LadderMap(g.snapshot.yesBids), g.deltas)
    && LadderMap(st.noBids) == FoldDeltas(No, LadderMap(g.snapshot.noBids), g.deltas)
    && LifecycleIs(st, g)
    && TimesAre(st, g)
  }

  lemma StepRefines(st: BookState, g: Ledger, i: BookInput)
    requires Refines(st, g) && ValidInput(i)
    ensures Refines(Step(st, i), LedgerStep(g, i, Accepts(st, i)))
  {
    match i
    case Event(SnapshotEvent(s)) => SnapshotRefines(st, g, s);
    case Event(DeltaEvent(d)) => DeltaRefines(st, g, d);
    case Event(LifecycleEvent(l)) => LifecycleRefines(st, g, l);
    case RequireResnapshot =>
      GappedBook(st, g);
      hide Refines;
  }

  lemma SnapshotRefines(st: BookState, g: Ledger, s: BookSnapshot)
    requires Refines(st, g) && ValidSnapshot(s)
    ensures var i := Event(SnapshotEvent(s)); Refines(Step(st, i), LedgerStep(g, i, Accepts(st, i)))
  {
    Bids(st, g, s);
    FreshBook(s, ExecutableMove(st.yesBids, st.noBids, s.yesBids, s.noBids));
    GappedBook(st, g);
    hide Refines, ExecutableMove, GappedCopy, StateFromSnapshot;
  }

  lemma Bids(st: BookState, g: Ledger, s: BookSnapshot)
    requires Refines(st, g) && ValidSnapshot(s)
    ensures 0.0 <= ExecutableMove(st.yesBids, st.noBids, s.yesBids, s.noBids) <= 1.0
  {
    hide LadderMap, FoldDeltas, ExecutableMove, StrictlyDescending;
    MoveBounds(st.yesBids, st.noBids, s.yesBids, s.noBids);
  }

  lemma FreshBook(s: BookSnapshot, move: real)
    requires ValidSnapshot(s) && 0.0 <= move <= 1.0
    ensures Refines(StateFromSnapshot(s, move), Ledger(s, [], None, SnapshotEvent(s)))
  {
    hide LadderMap, ValidBook;
  }

  lemma GappedBook(st: BookState, g: Ledger)
    requires Refines(st, g)
    ensures Refines(GappedCopy(st), g)
  {
    hide LadderMap, FoldDeltas, ValidBook;
  }

  /** What no lifecycle event touches: the ladders, their sequence and times, and the last move. */
  ghost predicate SameBook(a: BookState, b: BookState) {
    && a.ticker == b.ticker && a.epoch == b.epoch && a.sequence == b.sequence
    && a.yesBids == b.yesBids && a.noBids == b.noBids
    && a.bookSourceWall == b.bookSourceWall && a.bookObserved == b.bookObserved
    && a.bookUncertainty == b.bookUncertainty
    && a.lastMove == b.lastMove && a.lastMoveObserved == b.lastMoveObserved
    && a.lastSnapshot == b.lastSnapshot
  }

  lemma LifecycleKeepsBook(st: BookState, l: MarketLifecycle)
    requires st.trusted == !st.sequenceGap
    ensures var r := ApplyMarketLifecycle(st, l);
            r.Ok? ==>
              && SameBook(st, r.value.state)
              && r.value.state.trusted == !r.value.state.sequenceGap
              && r.value.move == 0.0 && !r.value.topChanged
  {
  }

  lemma LifecycleRefines(st: BookState, g: Ledger, l: MarketLifecycle)
    requires Refines(st, g)
    ensures var i := Event(LifecycleEvent(l)); Refines(Step(st, i), LedgerStep(g, i, Accepts(st, i)))
  {
    hide LadderMap, FoldDeltas, ValidBook;
    LifecycleKeepsBook(st, l);
  }

  lemma AcceptedDelta(st: BookState, d: BookDelta)
    requires ValidState(st) && ValidDelta(d) && ApplyDelta(st, d).Ok? && ApplyDelta(st, d).value.accepted.Some?
    ensures var st' := ApplyDelta(st, d).value.state;
            && ApplyDelta(st, d).value.accepted == Some(DeltaEvent(d))
            && ValidState(st')
            && st'.lastSnapshot == st.lastSnapshot && st'.ticker == st.ticker && st'.epoch == st.epoch
            && st'.sequence == st.sequence + 1 && st'.lastEvent == DeltaEvent(d)
            && st'.bookSourceWall == d.sourceWall && st'.bookObserved == d.observed
            && st'.bookUncertainty == d.uncertainty && st'.lastMoveObserved == d.observed
            && st'.status == st.status && st'.scheduledClose == st.scheduledClose
            && st'.lifecycleSourceWall == st.lifecycleSourceWall && st'.lifecycleObserved == st.lifecycleObserved
            && st'.lifecycleUncertainty == st.lifecycleUncertainty
            && LadderMap(st'.yesBids)
               == (if d.side.Yes? then DeltaMap(LadderMap(st.yesBids), d) else LadderMap(st.yesBids))
            && LadderMap(st'.noBids) == (if d.side.No? then DeltaMap(LadderMap(st.noBids), d) else LadderMap(st.noBids))
  {
    DeltaOutcome(st, d);
  }

  lemma DeltaRefines(st: BookState, g: Ledger, d: BookDelta)
    requires Refines(st, g) && ValidDelta(d)
    ensures var i := Event(DeltaEvent(d)); Refines(Step(st, i), LedgerStep(g, i, Accepts(st, i)))
  {
    var r := ApplyDelta(st, d);
    if r.Ok? && r.value.accepted.Some? {
      AcceptedDelta(st, d);
      assert (g.deltas + [d])[..|g.deltas|] == g.deltas;
    } else {
      RefusedDelta(st, d);
    }
  }

  lemma RefusedDelta(st: BookState, d: BookDelta)
    ensures var r := ApplyDelta(st, d);
            r.Ok? && r.value.accepted.None? ==> r.value.state == GappedCopy(st)
  {
  }

  /**
    Over every run of snapshots, deltas, lifecycle events and resnapshot demands, the book is
    two strictly descending, positive, uncrossed ladders equal to the maps folded from the
    deltas accepted since the last snapshot, numbered by their count.
  */
  lemma {:induction false} BookRunRefinesMap(first: BookSnapshot, inputs: seq<BookInput>)
    requires ValidSnapshot(first) && forall i :: i in inputs ==> ValidInput(i)
    ensures var t := BookFromSnapshot(first);
            && t.accepted == Some(SnapshotEvent(first)) && t.moveObserved == Some(first.observed)
            && t.move == t.state.lastMove == 0.0 && !t.topChanged
            && t.epoch == first.epoch && t.sequence == first.sequence && t.state.trusted
    ensures Refines(Run(BookFromSnapshot(first).state, inputs), LedgerOf(first, inputs))
  {
    if inputs != [] {
      var before := inputs[..|inputs| - 1];
      BookRunRefinesMap(first, before);
      StepRefines(Run(BookFromSnapshot(first).state, before), LedgerOf(first, before), inputs[|inputs| - 1]);
    }
  }

  lemma StepStatus(st: BookState, i: BookInput)
    ensures MayFollow(st.status, Step(st, i).status)
  {
    hide SortDescending, ExecutableMove, Crossed, UpdatedLevels, MatchingIndex;
    match i
    case Event(SnapshotEvent(s)) => StatusesInOrder(st.status, s.status);
    case Event(LifecycleEvent(l)) => StatusesInOrder(st.status, l.status);
    case _ =>
  }

  /** Over every run a market never falls back a stage, and it is settled only after it was closed. */
  lemma {:induction false} StatusNeverReturns(st: BookState, inputs: seq<BookInput>)
    ensures var end := Run(st, inputs).status;
            && (end == st.status || Stage(st.status) == Stage(end) == 1 || Stage(st.status) < Stage(end))
            && (end.Settled? && !st.status.Settled? ==>
                  exists n :: 0 <= n < |inputs| && Run(st, inputs[..n]).status == Closed)
  {
    if inputs != [] {
      var before := inputs[..|inputs| - 1];
      StatusNeverReturns(st, before);
      StepStatus(Run(st, before), inputs[|inputs| - 1]);
      hide Step;
      if Run(st, inputs).status.Settled? && !st.status.Settled? {
        if Run(st, before).status.Settled? {
          var n :| 0 <= n < |before| && Run(st, before[..n]).status == Closed;
          assert inputs[..n] == before[..n];
        }
      }
    }
  }

  /** Final market statuses are absorbing over every run. */
  lemma FinalStatusAbsorbing(st: BookState, inputs: seq<BookInput>)
    requires st.status in {Settled, Cancelled}
    ensures Run(st, inputs).status == st.status
  {
    StatusNeverReturns(st, inputs);
  }

  /**
    After a gap no delta is accepted, the ladders stay frozen and the book stays untrusted, for
    as long as no snapshot of a strictly newer connection epoch is accepted.
  */
  lemma {:induction false} GapFreezesBook(st: BookState, inputs: seq<BookInput>)
    requires !st.trusted && st.sequenceGap
    requires forall i :: i in inputs && i.Event? && i.event.SnapshotEvent? ==> i.event.snapshot.epoch <= st.epoch
    ensures var end := Run(st, inputs);
            && !end.trusted && end.sequenceGap && end.epoch == st.epoch && end.sequence == st.sequence
            && end.yesBids == st.yesBids && end.noBids == st.noBids
  {
    if inputs != [] {
      GapFreezesBook(st, inputs[..|inputs| - 1]);
    }
  }

  // ---------- Moves over runs ----------

  ghost predicate InUnit(a: Option<real>) { a.Some? ==> 0.0 <= a.value <= 1.0 }

  ghost predicate UnitAsks(a: BestAsks) { InUnit(a.yes) && InUnit(a.no) }

  /** Executable move is a metric on pairs of best asks. */
  lemma MoveIsMetric(a: BestAsks, b: BestAsks, c: BestAsks)
    requires UnitAsks(a) && UnitAsks(b) && UnitAsks(c)
    ensures 0.0 <= MoveBetween(a, b) <= 1.0
    ensures MoveBetween(a, b) == 0.0 <==> a == b
    ensures MoveBetween(a, b) == MoveBetween(b, a)
    ensures MoveBetween(a, c) <= MoveBetween(a, b) + MoveBetween(b, c)
  {
    OneSideTriangle(a.yes, b.yes, c.yes);
    OneSideTriangle(a.no, b.no, c.no);
  }

  /** An ask moved at most `m`: the same, or both there and at most `m` apart; a whole dollar if it came or went. */
  ghost predicate SideWithin(a: Option<real>, b: Option<real>, m: real) {
    || a == b
    || m >= 1.0
    || (a.Some? && b.Some? && a.value - m <= b.value <= a.value + m)
  }

  /** The move is the least `m` within which both asks moved. */
  lemma MoveIsLeast(a: BestAsks, b: BestAsks, m: real)
    requires UnitAsks(a) && UnitAsks(b) && 0.0 <= m
    ensures MoveBetween(a, b) <= m <==> SideWithin(a.yes, b.yes, m) && SideWithin(a.no, b.no, m)
  {
  }

  /** The ask a ladder's bids offer the other side: what is left of a dollar over its greatest price. */
  ghost predicate IsAskOver(ask: Option<real>, bids: map<real, real>) {
    && (ask.None? <==> bids == map[])
    && (ask.Some? ==> 1.0 - ask.value in bids && forall p :: p in bids ==> p <= 1.0 - ask.value)
  }

  /** The best YES ask is set by the greatest NO bid and the best NO ask by the greatest YES bid. */
  lemma AsksAreBest(st: BookState)
    requires ValidState(st)
    ensures IsAskOver(AsksOf(st).yes, LadderMap(st.noBids)) && IsAskOver(AsksOf(st).no, LadderMap(st.yesBids))
  {
    FrontIsGreatest(st.noBids);
    FrontIsGreatest(st.yesBids);
  }

  lemma FrontIsGreatest(levels: seq<BookLevel>)
    requires StrictlyDescending(levels)
    ensures IsAskOver(if levels == [] then None else Some(1.0 - levels[0].price), LadderMap(levels))
  {
    LadderMapKeys(levels);
    if levels != [] {
      assert levels[0].price in LadderMap(levels);
    }
  }

  lemma OneSideTriangle(a: Option<real>, b: Option<real>, c: Option<real>)
    requires InUnit(a) && InUnit(b) && InUnit(c)
    ensures OneSideMove(a, c) <= OneSideMove(a, b) + OneSideMove(b, c)
  {
  }

  function AsksOf(st: BookState): BestAsks { BestAsksOf(st.yesBids, st.noBids) }

  /** The move a step reports; a step that raises reports none. */
  function ReportedMove(st: BookState, i: BookInput): real {
    var r := Apply(st, i);
    if r.Ok? then r.value.move else 0.0
  }

  function TotalMove(st: BookState, inputs: seq<BookInput>): real {
    if inputs == [] then 0.0
    else
      var before := inputs[..|inputs| - 1];
      TotalMove(st, before) + ReportedMove(Run(st, before), inputs[|inputs| - 1])
  }

  /** An accepted snapshot or delta also reports its time and records move and time; nothing else moves. */
  ghost predicate Reports(st: BookState, i: BookInput, t: BookTransition) {
    && t.epoch == t.state.epoch && t.sequence == t.state.sequence
    && (t.accepted.Some? ==> i == Event(t.accepted.value))
    && match t.accepted
       case Some(SnapshotEvent(s)) => t.moveObserved == Some(s.observed) && t.state.lastMove == t.move
       case Some(DeltaEvent(d)) => t.moveObserved == Some(d.observed) && t.state.lastMove == t.move
       case _ => t.moveObserved == None && t.move == 0.0 && t.state.lastMove == st.lastMove
  }

  lemma StepReports(st: BookState, i: BookInput)
    ensures Apply(st, i).Ok? ==> Reports(st, i, Apply(st, i).value)
  {
    hide SortDescending, ExecutableMove, Crossed, UpdatedLevels, MatchingIndex;
  }

  /** Each step reports exactly the distance it moved the best asks, and flags exactly a change. */
  lemma StepReportsMove(st: BookState, i: BookInput)
    requires ValidState(st) && ValidInput(i)
    ensures ReportedMove(st, i) == MoveBetween(AsksOf(st), AsksOf(Step(st, i)))
    ensures Apply(st, i).Ok? ==> (Apply(st, i).value.topChanged <==> AsksOf(Step(st, i)) != AsksOf(st))
    ensures Apply(st, i).Ok? ==> Reports(st, i, Apply(st, i).value)
  {
    var end := Step(st, i);
    assert UnitAsks(AsksOf(st)) by { ValidAsks(st.yesBids, st.noBids); }
    assert UnitAsks(AsksOf(end)) by {
      StepKeepsLevelsValid(st, i);
      ValidAsks(end.yesBids, end.noBids);
    }
    MoveIsMetric(AsksOf(st), AsksOf(end), AsksOf(end));
    StepMove(st, i);
    StepReports(st, i);
  }

  /** Moved by the distance reported and flagged if positive, or not moved, not flagged and none reported. */
  lemma StepMove(st: BookState, i: BookInput)
    requires ValidState(st)
    ensures var r := Apply(st, i);
            && (r.Ok? ==> r.value.topChanged == (r.value.move > 0.0))
            && (ReportedMove(st, i) == MoveBetween(AsksOf(st), AsksOf(Step(st, i)))
                || (ReportedMove(st, i) == 0.0 && AsksOf(Step(st, i)) == AsksOf(st)))
  {
    match i
    case Event(SnapshotEvent(s)) =>
    case Event(DeltaEvent(d)) => DeltaMove(st, d);
    case Event(LifecycleEvent(l)) => LifecycleKeepsBook(st, l);
    case RequireResnapshot =>
  }

  lemma DeltaMove(st: BookState, d: BookDelta)
    requires ValidState(st)
    ensures var r := ApplyDelta(st, d);
            r.Ok? ==> if r.value.accepted.Some?
                      then r.value.move == MoveBetween(AsksOf(st), AsksOf(r.value.state))
                           && r.value.topChanged == (r.value.move > 0.0)
                      else r.value.move == 0.0 && !r.value.topChanged && AsksOf(r.value.state) == AsksOf(st)
  {
  }

  lemma StepKeepsLevelsValid(st: BookState, i: BookInput)
    requires ValidState(st) && ValidInput(i)
    ensures ValidLevels(Step(st, i).yesBids) && ValidLevels(Step(st, i).noBids)
  {
    if i.Event? && i.event.DeltaEvent? {
      DeltaOutcome(st, i.event.delta);
    }
  }

  lemma ValidAsks(yes: seq<BookLevel>, no: seq<BookLevel>)
    requires ValidLevels(yes) && ValidLevels(no)
    ensures UnitAsks(BestAsksOf(yes, no))
  {
    assert yes != [] ==> yes[0] in yes;
    assert no != [] ==> no[0] in no;
  }

  /** Across gaps and resnapshots, first to last book moved at most what the events reported. */
  lemma {:induction false} RunMoveBounded(first: BookSnapshot, inputs: seq<BookInput>)
    requires ValidSnapshot(first) && forall i :: i in inputs ==> ValidInput(i)
    ensures var st := BookFromSnapshot(first).state;
            MoveBetween(AsksOf(st), AsksOf(Run(st, inputs))) <= TotalMove(st, inputs)
  {
    var st := BookFromSnapshot(first).state;
    if inputs != [] {
      var before := inputs[..|inputs| - 1];
      RunMoveBounded(first, before);
      BookRunRefinesMap(first, before);
      BookRunRefinesMap(first, inputs);
      var mid := Run(st, before);
      var end := Run(st, inputs);
      StepReportsMove(mid, inputs[|inputs| - 1]);
      ValidAsks(st.yesBids, st.noBids);
      ValidAsks(mid.yesBids, mid.noBids);
      ValidAsks(end.yesBids, end.noBids);
      MoveIsMetric(AsksOf(st), AsksOf(mid), AsksOf(end));
    }
  }
}
