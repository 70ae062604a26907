/**
  Which trees are accepted as frames, and as what: a declarative account of KalshiFrames.ClassifyTree,
  and the tree of a frame, which is accepted as that frame.
*/
module FrameContents {
  import opened Common
  import opened BoundedJson
  import opened KalshiDecimals
  import opened KalshiFrames

  // ---------- Valid frames ----------

  /** A capital or a figure, or if `small` also a small letter. */
  ghost predicate Alnum(c: char, small: bool) { 'A' <= c <= 'Z' || '0' <= c <= '9' || (small && 'a' <= c <= 'z') }

  /** One to 64 plain characters; those after the first may also be dots, underscores and dashes. */
  ghost predicate Word(s: string, small: bool) {
    && 1 <= |s| <= 64 && Alnum(s[0], small)
    && forall i :: 0 < i < |s| ==> Alnum(s[i], small) || s[i] in {'.', '_', '-'}
  }

  /** Tickers and trade ids have no small letters. */
  ghost predicate Named(s: string) { Word(s, false) }

  ghost predicate Sequenced(s: string) { Word(s, true) }

  lemma TextsAre(s: string)
    ensures TickerText(s) <==> Named(s)
    ensures OpaqueText(s) <==> Sequenced(s)
  {
  }

  /** Prices are at most one and quantities at most a million, in ten-thousandths. */
  ghost predicate ValidLevel(l: Level) { l.price <= 10_000 && 0 < l.quantity <= 10_000_000_000 }

  /** Valid levels at strictly falling prices, all below `previous`. */
  ghost predicate Falling(levels: seq<Level>, previous: Option<nat>) {
    levels != [] ==>
      && ValidLevel(levels[0])
      && (previous.Some? ==> levels[0].price < previous.value)
      && Falling(levels[1..], Some(levels[0].price))
  }

  ghost predicate ValidBody(body: Body) {
    match body
    case Snapshot(yes, no) =>
      && |yes| <= 1024 && |no| <= 1024 && Falling(yes, None) && Falling(no, None)
      && (yes != [] && no != [] ==> yes[0].price + no[0].price <= 10_000)
    case Delta(_, price, change) => price <= 10_000 && change != 0 && -10_000_000_000 <= change <= 10_000_000_000
    case Lifecycle(_) => true
    case Trade(tradeId, _, price, quantity) => Named(tradeId) && price <= 10_000 && 0 < quantity <= 10_000_000_000
  }

  ghost predicate ValidFrame(f: Frame) { Named(f.ticker) && Sequenced(f.sequence) && ValidBody(f.body) }

  // ---------- What a tree says ----------

  ghost predicate Has(members: seq<Member>, key: string, text: string) { Get(members, key) == Some(JString(text)) }

  ghost predicate LevelSays(v: Json, l: Level) {
    && LevelShaped(v)
    && l.price <= ONE && Has(v.members, "price", PriceText(l.price))
    && Has(v.members, "quantity", QuantityText(l.quantity))
  }

  ghost predicate LadderSays(items: seq<Json>, levels: seq<Level>) {
    |items| == |levels| && (items != [] ==> LevelSays(items[0], levels[0]) && LadderSays(items[1..], levels[1..]))
  }

  ghost predicate ArraySays(v: Option<Json>, levels: seq<Level>) {
    v.Some? && v.value.JArray? && LadderSays(v.value.items, levels)
  }

  ghost predicate BodySays(root: seq<Member>, body: Body) {
    match body
    case Snapshot(yes, no) =>
      && ArraySays(Get(root, "yes_bids"), yes) && ArraySays(Get(root, "no_bids"), no)
      && Get(root, "complete") == Some(JBool(true))
    case Delta(side, price, change) =>
      && Has(root, "side", SideText(side)) && price <= ONE && Has(root, "price", PriceText(price))
      && Has(root, "quantity_delta", QuantityText(change))
    case Lifecycle(status) => Has(root, "status", StatusText(status))
    case Trade(tradeId, side, price, quantity) =>
      && Has(root, "trade_id", tradeId) && Has(root, "side", SideText(side))
      && price <= ONE && Has(root, "price", PriceText(price)) && Has(root, "quantity", QuantityText(quantity))
  }

  function KindText(body: Body): string {
    match body
    case Snapshot(_, _) => "ORDERBOOK_SNAPSHOT"
    case Delta(_, _, _) => "ORDERBOOK_DELTA"
    case Lifecycle(_) => "MARKET_LIFECYCLE"
    case Trade(_, _, _, _) => "PUBLIC_TRADE"
  }

  ghost function KeysOf(body: Body): set<string> {
    match body
    case Snapshot(_, _) => {"type", "ticker", "sequence", "complete", "yes_bids", "no_bids"}
    case Delta(_, _, _) => {"type", "ticker", "sequence", "side", "price", "quantity_delta"}
    case Lifecycle(_) => {"type", "ticker", "sequence", "status"}
    case Trade(_, _, _, _) => {"type", "ticker", "sequence", "trade_id", "side", "price", "quantity"}
  }

  /** The tree has exactly the frame's members, in any order, each with its canonical text. */
  ghost predicate TreeSays(v: Json, f: Frame) {
    && v.JObject?
    && Keys(v.members) == KeysOf(f.body)
    && Has(v.members, "type", KindText(f.body))
    && Has(v.members, "ticker", f.ticker)
    && Has(v.members, "sequence", f.sequence)
    && BodySays(v.members, f.body)
  }

  // ---------- Accepted exactly when valid and said ----------

  lemma PriceSaid(v: Option<Json>, k: nat)
    ensures PriceOf(v) == Some(k) <==> k <= ONE && v == Some(JString(PriceText(k)))
  {
    hide ParsePrice, PriceText;
    if StringOf(v).Some? { PriceIsCanonical(v.value.s, k); }
    if k <= ONE { PriceIsCanonical(PriceText(k), k); }
  }

  lemma QuantitySaid(v: Option<Json>, k: int, signed: bool)
    ensures QuantityOf(v, signed) == Some(k)
       <==> k != 0 && -MAX_QUANTITY <= k <= MAX_QUANTITY && (k < 0 ==> signed) && v == Some(JString(QuantityText(k)))
  {
    hide ParseQuantity, QuantityText;
    if StringOf(v).Some? { QuantityIsCanonical(v.value.s, k, signed); }
    QuantityIsCanonical(QuantityText(k), k, signed);
  }

  lemma LevelExact(v: Json, previous: Option<nat>, l: Level)
    requires LevelShaped(v)
    ensures LevelOf(v, previous) == Some(l)
       <==> ValidLevel(l) && (previous.Some? ==> l.price < previous.value) && LevelSays(v, l)
  {
    hide PriceOf, QuantityOf, PriceText, QuantityText, Get, Keys;
    PriceSaid(Get(v.members, "price"), l.price);
    QuantitySaid(Get(v.members, "quantity"), l.quantity, false);
  }

  lemma {:induction false} LadderExact(items: seq<Json>, previous: Option<nat>, levels: seq<Level>)
    requires LevelsShaped(items)
    ensures Ladder(items, previous) == Some(levels) <==> Falling(levels, previous) && LadderSays(items, levels)
    decreases |items|
  {
    hide LevelOf, LevelSays, LevelShaped;
    if items != [] {
      assert LevelShaped(items[0]);
      if levels != [] {
        LevelExact(items[0], previous, levels[0]);
        LadderExact(items[1..], Some(levels[0].price), levels[1..]);
        assert levels == [levels[0]] + levels[1..];
      }
    }
  }

  lemma {:induction false} SaidIsShaped(items: seq<Json>, levels: seq<Level>)
    requires LadderSays(items, levels)
    ensures LevelsShaped(items)
    decreases |items|
  {
    if items != [] {
      SaidIsShaped(items[1..], levels[1..]);
      assert forall i :: 0 < i < |items| ==> items[i] == items[1..][i - 1];
    }
  }

  lemma SnapshotExact(root: seq<Member>, body: Body)
    ensures SnapshotBody(root) == Ok(body) <==> body.Snapshot? && ValidBody(body) && BodySays(root, body)
  {
    hide Ladder, LadderSays, Falling, LevelsShaped, Get;
    var yes, no := Get(root, "yes_bids"), Get(root, "no_bids");
    if body.Snapshot? && yes.Some? && no.Some? && yes.value.JArray? && no.value.JArray? {
      if LadderSays(yes.value.items, body.yes) { SaidIsShaped(yes.value.items, body.yes); }
      if LadderSays(no.value.items, body.no) { SaidIsShaped(no.value.items, body.no); }
      if LevelsShaped(yes.value.items) && LevelsShaped(no.value.items) {
        LadderExact(yes.value.items, None, body.yes);
        LadderExact(no.value.items, None, body.no);
        SaidLength(yes.value.items, body.yes);
        SaidLength(no.value.items, body.no);
      }
    }
  }

  lemma SaidLength(items: seq<Json>, levels: seq<Level>)
    requires LevelsShaped(items)
    ensures LadderSays(items, levels) ==> |items| == |levels|
    ensures Ladder(items, None).Some? ==> |Ladder(items, None).value| == |items|
  {
    LadderLength(items, None);
  }

  lemma {:induction false} LadderLength(items: seq<Json>, previous: Option<nat>)
    requires LevelsShaped(items)
    ensures Ladder(items, previous).Some? ==> |Ladder(items, previous).value| == |items|
    decreases |items|
  {
    if items != [] && LevelOf(items[0], previous).Some? {
      LadderLength(items[1..], Some(LevelOf(items[0], previous).value.price));
    }
  }

  lemma SideExact(v: Option<Json>, side: Side)
    ensures SideOf(v) == Some(side) <==> v == Some(JString(SideText(side)))
  {
  }

  lemma StatusExact(v: Option<Json>, status: Status)
    ensures StatusOf(v) == Some(status) <==> v == Some(JString(StatusText(status)))
  {
  }

  lemma DeltaExact(root: seq<Member>, body: Body)
    ensures DeltaBody(root) == Ok(body) <==> body.Delta? && ValidBody(body) && BodySays(root, body)
  {
    hide PriceOf, QuantityOf, SideOf, PriceText, QuantityText, SideText, Get;
    if body.Delta? {
      SideExact(Get(root, "side"), body.side);
      PriceSaid(Get(root, "price"), body.price);
      QuantitySaid(Get(root, "quantity_delta"), body.change, true);
    }
  }

  lemma LifecycleExact(root: seq<Member>, body: Body)
    ensures LifecycleBody(root) == Ok(body) <==> body.Lifecycle? && ValidBody(body) && BodySays(root, body)
  {
    hide StatusOf, StatusText, Get;
    if body.Lifecycle? { StatusExact(Get(root, "status"), body.status); }
  }

  lemma TradeExact(root: seq<Member>, body: Body)
    ensures TradeBody(root) == Ok(body) <==> body.Trade? && ValidBody(body) && BodySays(root, body)
  {
    hide PriceOf, QuantityOf, SideOf, PriceText, QuantityText, SideText, TickerText, Named, Get;
    if body.Trade? {
      TextsAre(body.tradeId);
      SideExact(Get(root, "side"), body.side);
      PriceSaid(Get(root, "price"), body.price);
      QuantitySaid(Get(root, "quantity"), body.quantity, false);
    }
  }

  lemma BodyExact(kind: string, root: seq<Member>, body: Body)
    requires FrameKeys(kind).Some?
    ensures BodyOf(kind, root) == Ok(body) <==> KindText(body) == kind && ValidBody(body) && BodySays(root, body)
  {
    hide SnapshotBody, DeltaBody, LifecycleBody, TradeBody, ValidBody, BodySays;
    SnapshotExact(root, body);
    DeltaExact(root, body);
    LifecycleExact(root, body);
    TradeExact(root, body);
  }

  lemma KeysAre(body: Body)
    ensures FrameKeys(KindText(body)) == Some(KeysOf(body))
  {
    match body
    case Snapshot(_, _) => assert KeysOf(body) == COMMON_KEYS + {"complete", "yes_bids", "no_bids"};
    case Delta(_, _, _) => assert KeysOf(body) == COMMON_KEYS + {"side", "price", "quantity_delta"};
    case Lifecycle(_) => assert KeysOf(body) == COMMON_KEYS + {"status"};
    case Trade(_, _, _, _) => assert KeysOf(body) == COMMON_KEYS + {"trade_id", "side", "price", "quantity"};
  }

  /** A tree is accepted as a frame exactly when the frame is valid and the tree says that frame. */
  lemma TreeExact(v: Json, f: Frame)
    ensures ClassifyTree(v) == Accepted(f) <==> ValidFrame(f) && TreeSays(v, f)
  {
    hide BodyOf, ValidBody, BodySays, Keys, Get, TickerText, OpaqueText, Named, Sequenced;
    TextsAre(f.ticker);
    TextsAre(f.sequence);
    KeysAre(f.body);
    if v.JObject? {
      var kind := StringOf(Get(v.members, "type"));
      if kind.Some? && FrameKeys(kind.value).Some? {
        BodyExact(kind.value, v.members, f.body);
      }
    }
  }

  // ---------- The tree of a frame ----------

  function LevelJson(l: Level): Json
    requires l.price <= ONE
  {
    JObject([Member("price", JString(PriceText(l.price))), Member("quantity", JString(QuantityText(l.quantity)))])
  }

  predicate Priced(levels: seq<Level>) { forall i :: 0 <= i < |levels| ==> levels[i].price <= ONE }

  function LadderJson(levels: seq<Level>): seq<Json>
    requires Priced(levels)
  {
    if levels == [] then [] else [LevelJson(levels[0])] + LadderJson(levels[1..])
  }

  function BodyMembers(body: Body): seq<Member>
    requires ValidBody(body)
  {
    match body
    case Snapshot(yes, no) =>
      FallingPriced(yes, None);
      FallingPriced(no, None);
      [Member("complete", JBool(true)), Member("yes_bids", JArray(LadderJson(yes))),
       Member("no_bids", JArray(LadderJson(no)))]
    case Delta(side, price, change) =>
      [Member("side", JString(SideText(side))), Member("price", JString(PriceText(price))),
       Member("quantity_delta", JString(QuantityText(change)))]
    case Lifecycle(status) => [Member("status", JString(StatusText(status)))]
    case Trade(tradeId, side, price, quantity) =>
      [Member("trade_id", JString(tradeId)), Member("side", JString(SideText(side))),
       Member("price", JString(PriceText(price))), Member("quantity", JString(QuantityText(quantity)))]
  }

  function FrameMembers(f: Frame): seq<Member>
    requires ValidFrame(f)
  {
    [Member("type", JString(KindText(f.body))), Member("ticker", JString(f.ticker)),
     Member("sequence", JString(f.sequence))]
    + BodyMembers(f.body)
  }

  function FrameJson(f: Frame): Json
    requires ValidFrame(f)
  {
    JObject(FrameMembers(f))
  }

  lemma {:induction false} FallingPriced(levels: seq<Level>, previous: Option<nat>)
    requires Falling(levels, previous)
    ensures Priced(levels)
    decreases |levels|
  {
    if levels != [] {
      FallingPriced(levels[1..], Some(levels[0].price));
      assert forall i :: 0 < i < |levels| ==> levels[i] == levels[1..][i - 1];
    }
  }

  lemma {:induction false} LadderSaid(levels: seq<Level>)
    requires Priced(levels)
    ensures LadderSays(LadderJson(levels), levels) && |LadderJson(levels)| == |levels|
    decreases |levels|
  {
    hide PriceText, QuantityText;
    if levels != [] {
      LadderSaid(levels[1..]);
      assert LadderJson(levels)[1..] == LadderJson(levels[1..]);
      LevelSaid(levels[0]);
    }
  }

  lemma LevelSaid(l: Level)
    requires l.price <= ONE
    ensures LevelSays(LevelJson(l), l)
  {
    hide PriceText, QuantityText;
    var price, quantity := Member("price", JString(PriceText(l.price))),
                           Member("quantity", JString(QuantityText(l.quantity)));
    Two(price, quantity);
  }

  lemma Two(a: Member, b: Member)
    requires a.key != b.key
    ensures Keys([a, b]) == {a.key, b.key} && Get([a, b], a.key) == Some(a.value) && Get([a, b], b.key) == Some(b.value)
  {
    hide Get, Keys;
    assert [a, b] == [a] + [b] && [b] == [b] + [];
    GetFirst(a, [b], a.key);
    GetFirst(a, [b], b.key);
    GetFirst(b, [], b.key);
    NoMembers(b.key);
  }

  // ---------- Members one by one ----------

  lemma GetFirst(m: Member, rest: seq<Member>, key: string)
    ensures Get([m] + rest, key) == if m.key == key then Some(m.value) else Get(rest, key)
    ensures Keys([m] + rest) == {m.key} + Keys(rest)
  {
    assert ([m] + rest)[1..] == rest;
  }

  lemma Get3(a: Member, b: Member, c: Member, rest: seq<Member>, key: string)
    ensures var all := [a, b, c] + rest;
      && Keys(all) == {a.key, b.key, c.key} + Keys(rest)
      && Get(all, key) == (if a.key == key then Some(a.value) else if b.key == key then Some(b.value)
                           else if c.key == key then Some(c.value) else Get(rest, key))
  {
    hide Get, Keys;
    assert [a, b, c] + rest == [a] + ([b] + ([c] + rest));
    GetFirst(a, [b] + ([c] + rest), key);
    GetFirst(b, [c] + rest, key);
    GetFirst(c, rest, key);
  }

  lemma NoMembers(key: string)
    ensures Keys([]) == {} && Get([], key) == None
  {
  }

  /** The body's members are found behind the three common ones. */
  lemma BodyFound(f: Frame, key: string)
    requires ValidFrame(f)
    ensures var all := FrameMembers(f);
      && Keys(all) == COMMON_KEYS + Keys(BodyMembers(f.body))
      && (key !in COMMON_KEYS ==> Get(all, key) == Get(BodyMembers(f.body), key))
      && Has(all, "type", KindText(f.body)) && Has(all, "ticker", f.ticker) && Has(all, "sequence", f.sequence)
  {
    hide Get, Keys, BodyMembers, ValidBody, TickerText, OpaqueText, KindText;
    var a, b, c := Member("type", JString(KindText(f.body))), Member("ticker", JString(f.ticker)),
                   Member("sequence", JString(f.sequence));
    Get3(a, b, c, BodyMembers(f.body), key);
    Get3(a, b, c, BodyMembers(f.body), "type");
    Get3(a, b, c, BodyMembers(f.body), "ticker");
    Get3(a, b, c, BodyMembers(f.body), "sequence");
  }

  lemma SnapshotMembers(yes: seq<Level>, no: seq<Level>)
    requires ValidBody(Snapshot(yes, no))
    ensures var m := BodyMembers(Snapshot(yes, no));
      && Keys(m) == {"complete", "yes_bids", "no_bids"} && BodySays(m, Snapshot(yes, no))
  {
    FallingPriced(yes, None);
    FallingPriced(no, None);
    LadderSaid(yes);
    LadderSaid(no);
    hide Get, Keys, Falling, LadderSays, LadderJson;
    var a, b, c := Member("complete", JBool(true)), Member("yes_bids", JArray(LadderJson(yes))),
                   Member("no_bids", JArray(LadderJson(no)));
    assert BodyMembers(Snapshot(yes, no)) == [a, b, c] + [];
    NoMembers("");
    Get3(a, b, c, [], "complete");
    Get3(a, b, c, [], "yes_bids");
    Get3(a, b, c, [], "no_bids");
  }

  lemma DeltaMembers(side: Side, price: nat, change: int)
    requires ValidBody(Delta(side, price, change))
    ensures var m := BodyMembers(Delta(side, price, change));
      && Keys(m) == {"side", "price", "quantity_delta"} && BodySays(m, Delta(side, price, change))
  {
    hide Get, Keys, PriceText, QuantityText, SideText;
    var a, b, c := Member("side", JString(SideText(side))), Member("price", JString(PriceText(price))),
                   Member("quantity_delta", JString(QuantityText(change)));
    assert BodyMembers(Delta(side, price, change)) == [a, b, c] + [];
    NoMembers("");
    Get3(a, b, c, [], "side");
    Get3(a, b, c, [], "price");
    Get3(a, b, c, [], "quantity_delta");
  }

  lemma LifecycleMembers(status: Status)
    ensures var m := BodyMembers(Lifecycle(status));
      Keys(m) == {"status"} && BodySays(m, Lifecycle(status))
  {
    hide Get, Keys, StatusText;
    var a := Member("status", JString(StatusText(status)));
    assert BodyMembers(Lifecycle(status)) == [a] + [];
    NoMembers("");
    GetFirst(a, [], "status");
  }

  lemma TradeMembers(tradeId: string, side: Side, price: nat, quantity: int)
    requires ValidBody(Trade(tradeId, side, price, quantity))
    ensures var m := BodyMembers(Trade(tradeId, side, price, quantity));
      && Keys(m) == {"trade_id", "side", "price", "quantity"} && BodySays(m, Trade(tradeId, side, price, quantity))
  {
    hide Get, Keys, PriceText, QuantityText, SideText, TickerText;
    var a, b, c, d := Member("trade_id", JString(tradeId)), Member("side", JString(SideText(side))),
                      Member("price", JString(PriceText(price))), Member("quantity", JString(QuantityText(quantity)));
    assert BodyMembers(Trade(tradeId, side, price, quantity)) == [a, b, c] + [d] && [d] == [d] + [];
    NoMembers("quantity");
    GetFirst(d, [], "quantity");
    Get3(a, b, c, [d], "trade_id");
    Get3(a, b, c, [d], "side");
    Get3(a, b, c, [d], "price");
    Get3(a, b, c, [d], "quantity");
  }

  lemma BodyMembersSay(body: Body)
    requires ValidBody(body)
    ensures BodySays(BodyMembers(body), body)
    ensures FrameKeys(KindText(body)) == Some(COMMON_KEYS + Keys(BodyMembers(body)))
  {
    hide Keys, BodySays, BodyMembers, ValidBody;
    match body
    case Snapshot(yes, no) => SnapshotMembers(yes, no);
    case Delta(side, price, change) => DeltaMembers(side, price, change);
    case Lifecycle(status) => LifecycleMembers(status);
    case Trade(tradeId, side, price, quantity) => TradeMembers(tradeId, side, price, quantity);
  }

  lemma SameSaid(a: seq<Member>, b: seq<Member>, body: Body)
    requires BodySays(a, body)
    requires forall key :: key !in COMMON_KEYS ==> Get(b, key) == Get(a, key)
    ensures BodySays(b, body)
  {
    hide Get, LadderSays, PriceText, QuantityText;
  }

  /** The tree printed for a frame is accepted as that frame. */
  lemma TreeRoundTrip(f: Frame)
    requires ValidFrame(f)
    ensures ClassifyTree(FrameJson(f)) == Accepted(f)
  {
    hide Get, Keys, BodySays, BodyMembers, ValidBody, ClassifyTree, TickerText, OpaqueText, FrameMembers;
    forall key | key !in COMMON_KEYS ensures Get(FrameMembers(f), key) == Get(BodyMembers(f.body), key) {
      BodyFound(f, key);
    }
    BodyFound(f, "");
    BodyMembersSay(f.body);
    SameSaid(BodyMembers(f.body), FrameMembers(f), f.body);
    TreeExact(FrameJson(f), f);
  }
}
