/** Why a tree is refused as a frame, and in whose name: each reason under its own condition. */
module FrameRefusals {
  import opened Common
  import opened BoundedJson
  import opened KalshiDecimals
  import opened KalshiFrames
  import opened FrameContents

  /** The tree is an object of a known type. */
  ghost predicate Typed(v: Json, kind: string) {
    && v.JObject? && Has(v.members, "type", kind)
    && kind in {"ORDERBOOK_SNAPSHOT", "ORDERBOOK_DELTA", "MARKET_LIFECYCLE", "PUBLIC_TRADE"}
  }

  ghost predicate Identified(members: seq<Member>, ticker: string) {
    && Has(members, "ticker", ticker) && Named(ticker)
    && exists sequence :: Has(members, "sequence", sequence) && Sequenced(sequence)
  }

  ghost function KeysFor(kind: string): set<string> {
    {"type", "ticker", "sequence"}
    + if kind == "ORDERBOOK_SNAPSHOT" then {"complete", "yes_bids", "no_bids"}
      else if kind == "ORDERBOOK_DELTA" then {"side", "price", "quantity_delta"}
      else if kind == "MARKET_LIFECYCLE" then {"status"}
      else {"trade_id", "side", "price", "quantity"}
  }

  /** Some valid body of the kind is said. */
  ghost predicate SaysSome(members: seq<Member>, kind: string) {
    exists body :: KindText(body) == kind && ValidBody(body) && BodySays(members, body)
  }

  ghost predicate IsLadder(v: Option<Json>) { v.Some? && v.value.JArray? }

  ghost predicate TooMany(v: Option<Json>) { IsLadder(v) && |v.value.items| > 1024 }

  /** Every item is an object with a price and a quantity and nothing else. */
  ghost predicate InShape(v: Option<Json>) {
    && IsLadder(v)
    && forall i :: 0 <= i < |v.value.items| ==>
         v.value.items[i].JObject? && Keys(v.value.items[i].members) == {"price", "quantity"}
  }

  ghost predicate Fault(members: seq<Member>, kind: string, reason: FrameReason) {
    var yes, no := Get(members, "yes_bids"), Get(members, "no_bids");
    var snapshot := kind == "ORDERBOOK_SNAPSHOT";
    var known := Keys(members) == KeysFor(kind);
    var ladders, full := IsLadder(yes) && IsLadder(no), TooMany(yes) || TooMany(no);
    var shaped := InShape(yes) && InShape(no);
    var named := exists id :: Has(members, "trade_id", id) && Named(id);
    match reason
    case SchemaUnknown => !known || (snapshot && (!ladders || (!full && !shaped)))
    case Capacity => known && snapshot && ladders && full
    case IdentityInvalid => known && kind == "PUBLIC_TRADE" && !named
    case BookInvalid =>
      && known && !SaysSome(members, kind)
      && (kind == "ORDERBOOK_DELTA" || (snapshot && ladders && !full && shaped))
    case BadPayload =>
      && known && !SaysSome(members, kind)
      && (kind == "MARKET_LIFECYCLE" || (kind == "PUBLIC_TRADE" && named))
  }

  /** The tree is refused for this reason, in the name of a ticker or of the connection. */
  ghost predicate Refused(v: Json, ticker: Option<string>, reason: FrameReason) {
    match ticker
    case None =>
      || (reason == SchemaUnknown && forall kind :: !Typed(v, kind))
      || (reason == IdentityInvalid && exists kind :: Typed(v, kind) && forall t :: !Identified(v.members, t))
    case Some(t) => exists kind :: Typed(v, kind) && Identified(v.members, t) && Fault(v.members, kind, reason)
  }

  lemma BodyRefused(kind: string, root: seq<Member>)
    requires FrameKeys(kind).Some?
    ensures BodyOf(kind, root).Ok? <==> SaysSome(root, kind)
  {
    hide BodyOf, ValidBody, BodySays;
    var r := BodyOf(kind, root);
    if r.Ok? { BodyExact(kind, root, r.value); }
    if SaysSome(root, kind) {
      var body :| KindText(body) == kind && ValidBody(body) && BodySays(root, body);
      BodyExact(kind, root, body);
    }
  }

  lemma TradeNamed(root: seq<Member>)
    ensures (exists id :: Has(root, "trade_id", id) && Named(id))
       <==> (var id := StringOf(Get(root, "trade_id")); id.Some? && TickerText(id.value))
  {
    hide TickerText, Named;
    var id := StringOf(Get(root, "trade_id"));
    if id.Some? {
      TextsAre(id.value);
      assert Has(root, "trade_id", id.value);
    }
  }

  lemma LaddersShaped(v: Option<Json>)
    ensures InShape(v) <==> IsLadder(v) && LevelsShaped(v.value.items)
  {
    if IsLadder(v) {
      assert forall i :: 0 <= i < |v.value.items| ==>
        (LevelShaped(v.value.items[i])
         <==> v.value.items[i].JObject? && Keys(v.value.items[i].members) == {"price", "quantity"});
    }
  }

  /** Why a body of known keys is refused. */
  lemma BodyFault(kind: string, root: seq<Member>, reason: FrameReason)
    requires FrameKeys(kind) == Some(Keys(root)) && Keys(root) == KeysFor(kind)
    ensures BodyOf(kind, root) == Err(reason) <==> Fault(root, kind, reason)
  {
    BodyRefused(kind, root);
    TradeNamed(root);
    LaddersShaped(Get(root, "yes_bids"));
    LaddersShaped(Get(root, "no_bids"));
    hide TickerText, Get, Keys, StringOf, InShape, LevelsShaped, Ladder, SideOf, PriceOf, QuantityOf, StatusOf;
    hide SaysSome, KeysFor, FrameKeys, Has, Named;
  }

  lemma KindKeys(kind: string)
    ensures FrameKeys(kind).Some?
       <==> kind in {"ORDERBOOK_SNAPSHOT", "ORDERBOOK_DELTA", "MARKET_LIFECYCLE", "PUBLIC_TRADE"}
    ensures FrameKeys(kind).Some? ==> FrameKeys(kind).value == KeysFor(kind)
  {
  }

  lemma IdentifiedIs(members: seq<Member>, ticker: string)
    ensures Identified(members, ticker)
       <==> (var t, s := StringOf(Get(members, "ticker")), StringOf(Get(members, "sequence"));
             t == Some(ticker) && TickerText(ticker) && s.Some? && OpaqueText(s.value))
  {
    hide TickerText, OpaqueText, Named, Sequenced, Get;
    TextsAre(ticker);
    var s := StringOf(Get(members, "sequence"));
    if s.Some? {
      TextsAre(s.value);
      assert Has(members, "sequence", s.value);
    }
  }

  /** A tree is refused in a name and for a reason exactly under that reason's condition. */
  lemma RefusedExactly(v: Json, ticker: Option<string>, reason: FrameReason)
    ensures ClassifyTree(v) == Rejected(ticker, reason) <==> Refused(v, ticker, reason)
  {
    if v.JObject? {
      var root := v.members;
      var kind := StringOf(Get(root, "type"));
      forall k ensures Typed(v, k) <==> kind == Some(k) && FrameKeys(k).Some? {
        KindKeys(k);
        TypedIs(v, k);
      }
      forall t
        ensures Identified(root, t)
           <==> (var own, s := StringOf(Get(root, "ticker")), StringOf(Get(root, "sequence"));
                 own == Some(t) && TickerText(t) && s.Some? && OpaqueText(s.value))
      {
        IdentifiedIs(root, t);
      }
      if kind.Some? && FrameKeys(kind.value).Some? {
        KindKeys(kind.value);
        assert Keys(root) == KeysFor(kind.value) ==> FrameKeys(kind.value) == Some(Keys(root));
        if Keys(root) == KeysFor(kind.value) {
          BodyFault(kind.value, root, reason);
        } else {
          UnknownKeys(root, kind.value, reason);
        }
      }
    }
    hide TickerText, OpaqueText, Get, Keys, StringOf, Identified, FrameKeys, KeysFor, BodyOf, Fault, Typed;
  }

  lemma TypedIs(v: Json, kind: string)
    requires v.JObject?
    ensures Typed(v, kind)
       <==> StringOf(Get(v.members, "type")) == Some(kind)
            && kind in {"ORDERBOOK_SNAPSHOT", "ORDERBOOK_DELTA", "MARKET_LIFECYCLE", "PUBLIC_TRADE"}
  {
    hide Get;
  }

  lemma UnknownKeys(root: seq<Member>, kind: string, reason: FrameReason)
    requires Keys(root) != KeysFor(kind)
    ensures Fault(root, kind, reason) <==> reason == SchemaUnknown
  {
  }
}
