/**
  The verdict on a parsed tree (the four frame parsers of classify_kalshi_synthetic_frame,
  inci_tennis_adapters/kalshi_candidate.py). Prices and quantities are counted in ten-thousandths.
*/
module KalshiFrames {
  import opened Common
  import opened Digits
  import opened BoundedJson
  import opened KalshiDecimals

  const MAX_LADDER_LEVELS: nat := 1024

  datatype Side = Yes | No

  datatype Status = Open | Suspended | Closed | Settled

  datatype Level = Level(price: nat, quantity: int)

  datatype Body =
    | Snapshot(yes: seq<Level>, no: seq<Level>)
    | Delta(side: Side, price: nat, change: int)
    | Lifecycle(status: Status)
    | Trade(tradeId: string, side: Side, price: nat, quantity: int)

  datatype Frame = Frame(ticker: string, sequence: string, body: Body)

  datatype FrameReason = IdentityInvalid | Capacity | SchemaUnknown | BookInvalid | BadPayload

  /** A rejection names the ticker when its scope is the ticker, and the connection otherwise. */
  datatype Verdict = Accepted(frame: Frame) | Rejected(ticker: Option<string>, reason: FrameReason)

  // ---------- Members ----------

  function Get(members: seq<Member>, key: string): Option<Json> {
    if members == [] then None
    else if members[0].key == key then Some(members[0].value) else Get(members[1..], key)
  }

  function Keys(members: seq<Member>): set<string> {
    if members == [] then {} else {members[0].key} + Keys(members[1..])
  }

  // ---------- Texts ----------

  predicate Upper(c: char) { 'A' <= c <= 'Z' }

  predicate Lower(c: char) { 'a' <= c <= 'z' }

  predicate Joining(c: char) { c == '.' || c == '_' || c == '-' }

  predicate TickerText(s: string) {
    && 1 <= |s| <= 64 && (Upper(s[0]) || IsDigit(s[0]))
    && forall i :: 0 < i < |s| ==> Upper(s[i]) || IsDigit(s[i]) || Joining(s[i])
  }

  predicate OpaqueText(s: string) {
    && 1 <= |s| <= 64 && (Upper(s[0]) || Lower(s[0]) || IsDigit(s[0]))
    && forall i :: 0 < i < |s| ==> Upper(s[i]) || Lower(s[i]) || IsDigit(s[i]) || Joining(s[i])
  }

  function StringOf(v: Option<Json>): Option<string> {
    if v.Some? && v.value.JString? then Some(v.value.s) else None
  }

  function PriceOf(v: Option<Json>): Option<nat> {
    var s := StringOf(v);
    if s.None? then None else ParsePrice(s.value)
  }

  function QuantityOf(v: Option<Json>, signed: bool): Option<int> {
    var s := StringOf(v);
    if s.None? then None else ParseQuantity(s.value, signed)
  }

  function SideText(side: Side): string { if side.Yes? then "YES" else "NO" }

  function SideOf(v: Option<Json>): Option<Side> {
    var s := StringOf(v);
    if s == Some("YES") then Some(Yes) else if s == Some("NO") then Some(No) else None
  }

  function StatusText(status: Status): string {
    match status
    case Open => "OPEN"
    case Suspended => "SUSPENDED"
    case Closed => "CLOSED"
    case Settled => "SETTLED"
  }

  function StatusOf(v: Option<Json>): Option<Status> {
    var s := StringOf(v);
    if s == Some("OPEN") then Some(Open)
    else if s == Some("SUSPENDED") then Some(Suspended)
    else if s == Some("CLOSED") then Some(Closed)
    else if s == Some("SETTLED") then Some(Settled)
    else None
  }

  // ---------- Ladders ----------

  const LEVEL_KEYS: set<string> := {"price", "quantity"}

  predicate LevelShaped(v: Json) { v.JObject? && Keys(v.members) == LEVEL_KEYS }

  predicate LevelsShaped(items: seq<Json>) { forall i :: 0 <= i < |items| ==> LevelShaped(items[i]) }

  /** One level's values, if the price is below the one before. */
  function LevelOf(v: Json, previous: Option<nat>): Option<Level>
    requires LevelShaped(v)
  {
    var price, quantity := PriceOf(Get(v.members, "price")), QuantityOf(Get(v.members, "quantity"), false);
    if price.None? || quantity.None? || (previous.Some? && price.value >= previous.value) then None
    else Some(Level(price.value, quantity.value))
  }

  function Ladder(items: seq<Json>, previous: Option<nat>): Option<seq<Level>>
    requires LevelsShaped(items)
  {
    if items == [] then Some([])
    else
      var level := LevelOf(items[0], previous);
      if level.None? then None
      else
        var rest := Ladder(items[1..], Some(level.value.price));
        if rest.None? then None else Some([level.value] + rest.value)
  }

  predicate Crossing(yes: seq<Level>, no: seq<Level>) { yes != [] && no != [] && yes[0].price + no[0].price > ONE }

  // ---------- Bodies ----------

  function SnapshotBody(root: seq<Member>): Result<Body, FrameReason> {
    var yes, no := Get(root, "yes_bids"), Get(root, "no_bids");
    if yes.None? || no.None? || !yes.value.JArray? || !no.value.JArray? then Err(SchemaUnknown)
    else if |yes.value.items| > MAX_LADDER_LEVELS || |no.value.items| > MAX_LADDER_LEVELS then Err(Capacity)
    else if !LevelsShaped(yes.value.items) || !LevelsShaped(no.value.items) then Err(SchemaUnknown)
    else if Get(root, "complete") != Some(JBool(true)) then Err(BookInvalid)
    else
      var yesLadder, noLadder := Ladder(yes.value.items, None), Ladder(no.value.items, None);
      if yesLadder.None? || noLadder.None? || Crossing(yesLadder.value, noLadder.value) then Err(BookInvalid)
      else Ok(Snapshot(yesLadder.value, noLadder.value))
  }

  function DeltaBody(root: seq<Member>): Result<Body, FrameReason> {
    var side, price, change := SideOf(Get(root, "side")), PriceOf(Get(root, "price")),
                               QuantityOf(Get(root, "quantity_delta"), true);
    if side.None? || price.None? || change.None? then Err(BookInvalid)
    else Ok(Delta(side.value, price.value, change.value))
  }

  function LifecycleBody(root: seq<Member>): Result<Body, FrameReason> {
    var status := StatusOf(Get(root, "status"));
    if status.None? then Err(BadPayload) else Ok(Lifecycle(status.value))
  }

  function TradeBody(root: seq<Member>): Result<Body, FrameReason> {
    var tradeId := StringOf(Get(root, "trade_id"));
    if tradeId.None? || !TickerText(tradeId.value) then Err(IdentityInvalid)
    else
      var side, price, quantity := SideOf(Get(root, "side")), PriceOf(Get(root, "price")),
                                   QuantityOf(Get(root, "quantity"), false);
      if side.None? || price.None? || quantity.None? then Err(BadPayload)
      else Ok(Trade(tradeId.value, side.value, price.value, quantity.value))
  }

  const COMMON_KEYS: set<string> := {"type", "ticker", "sequence"}

  /** The keys a frame of the type has; None for an unknown type. */
  function FrameKeys(kind: string): Option<set<string>> {
    if kind == "ORDERBOOK_SNAPSHOT" then Some(COMMON_KEYS + {"complete", "yes_bids", "no_bids"})
    else if kind == "ORDERBOOK_DELTA" then Some(COMMON_KEYS + {"side", "price", "quantity_delta"})
    else if kind == "MARKET_LIFECYCLE" then Some(COMMON_KEYS + {"status"})
    else if kind == "PUBLIC_TRADE" then Some(COMMON_KEYS + {"trade_id", "side", "price", "quantity"})
    else None
  }

  function BodyOf(kind: string, root: seq<Member>): Result<Body, FrameReason> {
    if kind == "ORDERBOOK_SNAPSHOT" then SnapshotBody(root)
    else if kind == "ORDERBOOK_DELTA" then DeltaBody(root)
    else if kind == "MARKET_LIFECYCLE" then LifecycleBody(root)
    else TradeBody(root)
  }

  /** What follows parsing: the tree's verdict. */
  function ClassifyTree(v: Json): Verdict {
    if !v.JObject? then Rejected(None, SchemaUnknown)
    else
      var kind := StringOf(Get(v.members, "type"));
      if kind.None? || FrameKeys(kind.value).None? then Rejected(None, SchemaUnknown)
      else
        var ticker, sequence := StringOf(Get(v.members, "ticker")), StringOf(Get(v.members, "sequence"));
        if ticker.None? || !TickerText(ticker.value) || sequence.None? || !OpaqueText(sequence.value) then
          Rejected(None, IdentityInvalid)
        else if Keys(v.members) != FrameKeys(kind.value).value then Rejected(ticker, SchemaUnknown)
        else
          var body := BodyOf(kind.value, v.members);
          if body.Err? then Rejected(ticker, body.error) else Accepted(Frame(ticker.value, sequence.value, body.value))
  }

  // ---------- As the source computes it ----------

  /** The loop over one raw ladder. */
  method ReadLadder(items: seq<Json>) returns (ladder: Option<seq<Level>>)
    requires LevelsShaped(items)
    ensures ladder == Ladder(items, None)
  {
    hide LevelOf;
    var levels: seq<Level> := [];
    var previous: Option<nat> := None;
    var i := 0;
    assert items[0..] == items;
    NothingAdded(Ladder(items, None));
    while i < |items|
      invariant i <= |items|
      invariant Ladder(items, None)
        == var rest := Ladder(items[i..], previous); if rest.None? then None else Some(levels + rest.value)
    {
      assert items[i..][1..] == items[i + 1..];
      var level := LevelOf(items[i], previous);
      if level.None? { return None; }
      Joined(levels, level.value, Ladder(items[i + 1..], Some(level.value.price)));
      levels := levels + [level.value];
      previous := Some(level.value.price);
      i := i + 1;
    }
    assert items[i..] == [] && levels + [] == levels;
    return Some(levels);
  }

  lemma NothingAdded(rest: Option<seq<Level>>)
    ensures rest.Some? ==> [] + rest.value == rest.value
  {
  }

  lemma Joined(levels: seq<Level>, level: Level, rest: Option<seq<Level>>)
    ensures rest.Some? ==> levels + ([level] + rest.value) == (levels + [level]) + rest.value
  {
  }

  method ReadSnapshot(root: seq<Member>) returns (body: Result<Body, FrameReason>)
    ensures body == SnapshotBody(root)
  {
    hide Get, Ladder;
    var yes, no := Get(root, "yes_bids"), Get(root, "no_bids");
    if yes.None? || no.None? || !yes.value.JArray? || !no.value.JArray? { return Err(SchemaUnknown); }
    var rawYes, rawNo := yes.value.items, no.value.items;
    if |rawYes| > MAX_LADDER_LEVELS || |rawNo| > MAX_LADDER_LEVELS { return Err(Capacity); }
    if !LevelsShaped(rawYes) || !LevelsShaped(rawNo) { return Err(SchemaUnknown); }
    if Get(root, "complete") != Some(JBool(true)) { return Err(BookInvalid); }
    var yesLadder := ReadLadder(rawYes);
    if yesLadder.None? { return Err(BookInvalid); }
    var noLadder := ReadLadder(rawNo);
    if noLadder.None? || Crossing(yesLadder.value, noLadder.value) { return Err(BookInvalid); }
    return Ok(Snapshot(yesLadder.value, noLadder.value));
  }

  method ReadTree(v: Json) returns (verdict: Verdict)
    ensures verdict == ClassifyTree(v)
  {
    hide Get, Keys, TickerText, OpaqueText, SnapshotBody, DeltaBody, LifecycleBody, TradeBody;
    if !v.JObject? { return Rejected(None, SchemaUnknown); }
    var kind := StringOf(Get(v.members, "type"));
    if kind.None? || FrameKeys(kind.value).None? { return Rejected(None, SchemaUnknown); }
    var ticker, sequence := StringOf(Get(v.members, "ticker")), StringOf(Get(v.members, "sequence"));
    if ticker.None? || !TickerText(ticker.value) || sequence.None? || !OpaqueText(sequence.value) {
      return Rejected(None, IdentityInvalid);
    }
    if Keys(v.members) != FrameKeys(kind.value).value { return Rejected(ticker, SchemaUnknown); }
    var body: Result<Body, FrameReason>;
    if kind.value == "ORDERBOOK_SNAPSHOT" {
      body := ReadSnapshot(v.members);
    } else {
      body := BodyOf(kind.value, v.members);
    }
    return if body.Err? then Rejected(ticker, body.error)
           else Accepted(Frame(ticker.value, sequence.value, body.value));
  }
}
