/**
  Frames as text: printing a valid frame and classifying the text gives the frame back, unless the text is
  too long or its tree needs more nodes than the parser counts.
*/
module FrameTexts {
  import opened Common
  import opened BoundedJson
  import opened KalshiDecimals
  import opened KalshiFrames
  import opened FrameContents
  import opened JsonGrammar
  import opened JsonPrinter
  import opened JsonSizes
  import opened KalshiClassifier
  import opened FrameSizes

  // ---------- Members that fit ----------

  lemma PlainFits(m: Member, depth: nat)
    requires Plain(m)
    ensures MemberFits(m, depth) && Nodes(m.value) == 1
  {
    SizeBound(m.key);
    ShortFits(m.value.s);
  }

  ghost predicate AllFit(members: seq<Member>, depth: nat) {
    && DistinctKeys(members)
    && forall i :: 0 <= i < |members| ==> MemberFits(members[i], depth)
  }

  lemma OneMore(m: Member, rest: seq<Member>, depth: nat)
    requires AllFit(rest, depth) && MemberFits(m, depth) && m.key !in Keys(rest)
    ensures AllFit([m] + rest, depth)
    ensures MemberNodes([m] + rest) == 1 + Nodes(m.value) + MemberNodes(rest)
    ensures Keys([m] + rest) == {m.key} + Keys(rest)
  {
    hide MemberFits, Nodes;
    var all := [m] + rest;
    assert all[1..] == rest;
    forall i, j | 0 <= i < j < |all| ensures all[i].key != all[j].key {
      assert all[j] == rest[j - 1];
      KeyIn(rest, j - 1);
      if i > 0 { assert all[i] == rest[i - 1]; }
    }
  }

  lemma {:induction false} KeyIn(members: seq<Member>, i: nat)
    requires i < |members|
    ensures members[i].key in Keys(members)
  {
    if i > 0 { KeyIn(members[1..], i - 1); }
  }

  lemma OneMorePlain(m: Member, rest: seq<Member>, depth: nat)
    requires AllFit(rest, depth) && Plain(m) && m.key !in Keys(rest)
    ensures AllFit([m] + rest, depth)
    ensures MemberNodes([m] + rest) == 2 + MemberNodes(rest)
    ensures Keys([m] + rest) == {m.key} + Keys(rest)
  {
    PlainFits(m, depth);
    OneMore(m, rest, depth);
  }

  lemma ThreeMore(a: Member, b: Member, c: Member, rest: seq<Member>, depth: nat)
    requires AllFit(rest, depth) && Plain(a) && Plain(b) && Plain(c)
    requires a.key != b.key && a.key != c.key && b.key != c.key && {a.key, b.key, c.key} !! Keys(rest)
    ensures var all := [a] + ([b] + ([c] + rest));
      AllFit(all, depth) && MemberNodes(all) == 6 + MemberNodes(rest)
  {
    hide AllFit, Plain, MemberNodes, Keys;
    OneMorePlain(c, rest, depth);
    OneMorePlain(b, [c] + rest, depth);
    OneMorePlain(a, [b] + ([c] + rest), depth);
  }

  lemma NoMore(depth: nat)
    ensures AllFit([], depth) && MemberNodes([]) == 0 && Keys([]) == {}
  {
  }

  // ---------- Ladders ----------

  lemma LevelFits(l: Level, depth: nat)
    requires ValidLevel(l) && depth <= MAX_DEPTH
    ensures Fits(LevelJson(l), depth, false) && Nodes(LevelJson(l)) == 5
  {
    hide PriceText, QuantityText, AllFit, Plain, MemberNodes;
    PriceShort(l.price);
    QuantityShort(l.quantity);
    var a, b := Member("price", JString(PriceText(l.price))), Member("quantity", JString(QuantityText(l.quantity)));
    assert Plain(a) && Plain(b) by { Shape(a); Shape(b); }
    NoMore(depth);
    OneMorePlain(b, [], depth);
    assert [b] + [] == [b];
    OneMorePlain(a, [b], depth);
    assert [a] + [b] == [a, b];
    Whole([a, b], depth);
  }

  lemma Whole(members: seq<Member>, depth: nat)
    requires AllFit(members, depth) && depth <= MAX_DEPTH
    ensures Fits(JObject(members), depth, false) && Nodes(JObject(members)) == 1 + MemberNodes(members)
  {
  }

  lemma {:induction false} LadderFits(levels: seq<Level>, previous: Option<nat>, depth: nat)
    requires Falling(levels, previous) && Priced(levels) && depth <= MAX_DEPTH
    ensures forall i :: 0 <= i < |LadderJson(levels)| ==> Fits(LadderJson(levels)[i], depth, false)
    ensures ItemNodes(LadderJson(levels)) == 5 * |levels|
    decreases |levels|
  {
    hide LevelJson, Fits, Nodes;
    if levels != [] {
      LevelFits(levels[0], depth);
      LadderFits(levels[1..], Some(levels[0].price), depth);
      var items, tail := LadderJson(levels), LadderJson(levels[1..]);
      assert items[1..] == tail;
      assert forall i :: 0 < i < |items| ==> items[i] == tail[i - 1];
    }
  }

  lemma LadderMember(key: string, levels: seq<Level>)
    requires Utf8Size(key) <= MAX_KEY_BYTES && Falling(levels, None) && Priced(levels)
    ensures MemberFits(Member(key, JArray(LadderJson(levels))), 0)
    ensures Nodes(JArray(LadderJson(levels))) == 1 + 5 * |levels|
  {
    var depth := 2;
    LadderFits(levels, None, depth);
  }

  // ---------- Bodies ----------

  /** The nodes of the frame's tree. */
  function FrameNodes(f: Frame): nat {
    match f.body
    case Snapshot(yes, no) => 13 + 5 * (|yes| + |no|)
    case Delta(_, _, _) => 13
    case Lifecycle(_) => 9
    case Trade(_, _, _, _) => 15
  }

  ghost predicate BodyFits(body: Body, nodes: nat)
    requires ValidBody(body)
  {
    AllFit(BodyMembers(body), 0) && MemberNodes(BodyMembers(body)) == nodes
  }

  lemma SnapshotFits(yes: seq<Level>, no: seq<Level>)
    requires ValidBody(Snapshot(yes, no))
    ensures BodyFits(Snapshot(yes, no), 6 + 5 * (|yes| + |no|))
  {
    FallingPriced(yes, None);
    FallingPriced(no, None);
    SizeBound("yes_bids");
    SizeBound("no_bids");
    LadderMember("yes_bids", yes);
    LadderMember("no_bids", no);
    CompleteFits();
    hide Falling, LadderJson, AllFit, MemberFits, MemberNodes, Nodes, Keys;
    var a, b, c := Member("complete", JBool(true)), Member("yes_bids", JArray(LadderJson(yes))),
                   Member("no_bids", JArray(LadderJson(no)));
    assert BodyMembers(Snapshot(yes, no)) == [a] + ([b] + ([c] + []));
    NoMore(0);
    OneMore(c, [], 0);
    OneMore(b, [c] + [], 0);
    OneMore(a, [b] + ([c] + []), 0);
  }

  lemma CompleteFits()
    ensures MemberFits(Member("complete", JBool(true)), 0) && Nodes(JBool(true)) == 1
  {
    SizeBound("complete");
  }

  lemma DeltaFits(side: Side, price: nat, change: int)
    requires ValidBody(Delta(side, price, change))
    ensures BodyFits(Delta(side, price, change), 6)
  {
    PriceShort(price);
    QuantityShort(change);
    hide PriceText, QuantityText, AllFit, MemberNodes, Keys;
    var a, b, c := Member("side", JString(SideText(side))), Member("price", JString(PriceText(price))),
                   Member("quantity_delta", JString(QuantityText(change)));
    assert BodyMembers(Delta(side, price, change)) == [a] + ([b] + ([c] + []));
    NoMore(0);
    ThreeMore(a, b, c, [], 0);
  }

  lemma LifecycleFits(status: Status)
    ensures BodyFits(Lifecycle(status), 2)
  {
    hide AllFit, MemberNodes, Keys;
    var a := Member("status", JString(StatusText(status)));
    assert BodyMembers(Lifecycle(status)) == [a] + [];
    NoMore(0);
    OneMorePlain(a, [], 0);
  }

  lemma TradeFits(tradeId: string, side: Side, price: nat, quantity: int)
    requires ValidBody(Trade(tradeId, side, price, quantity))
    ensures BodyFits(Trade(tradeId, side, price, quantity), 8)
  {
    PriceShort(price);
    QuantityShort(quantity);
    hide PriceText, QuantityText, AllFit, MemberNodes, Keys;
    var a, b, c, d := Member("trade_id", JString(tradeId)), Member("side", JString(SideText(side))),
                      Member("price", JString(PriceText(price))), Member("quantity", JString(QuantityText(quantity)));
    assert BodyMembers(Trade(tradeId, side, price, quantity)) == [a, b, c, d];
    assert Plain(a) && Plain(b) && Plain(c) && Plain(d);
    hide Plain, BodyMembers, ValidBody;
    Listed(a, b, c, d, []);
    NoMore(0);
    OneMorePlain(d, [], 0);
    ThreeMore(a, b, c, [d] + [], 0);
  }

  lemma BodyNodes(f: Frame)
    requires ValidFrame(f)
    ensures FrameNodes(f) >= 7 && BodyFits(f.body, FrameNodes(f) - 7)
  {
    hide BodyFits, ValidBody;
    match f.body
    case Snapshot(yes, no) => SnapshotFits(yes, no);
    case Delta(side, price, change) => DeltaFits(side, price, change);
    case Lifecycle(status) => LifecycleFits(status);
    case Trade(tradeId, side, price, quantity) => TradeFits(tradeId, side, price, quantity);
  }

  lemma FrameFits(f: Frame)
    requires ValidFrame(f)
    ensures Fits(FrameJson(f), 0, false) && Nodes(FrameJson(f)) == FrameNodes(f)
  {
    BodyNodes(f);
    BodyMembersSay(f.body);
    BodyKeys(f.body);
    hide AllFit, MemberNodes, Keys, BodyMembers, ValidBody, BodySays, Fits, Nodes, FrameNodes;
    var body := BodyMembers(f.body);
    var a, b, c := Member("type", JString(KindText(f.body))), Member("ticker", JString(f.ticker)),
                   Member("sequence", JString(f.sequence));
    assert FrameMembers(f) == [a] + ([b] + ([c] + body));
    ThreeMore(a, b, c, body, 0);
    Whole(FrameMembers(f), 0);
  }

  lemma BodyKeys(body: Body)
    requires ValidBody(body)
    ensures Keys(BodyMembers(body)) !! COMMON_KEYS
  {
    hide Keys, BodyMembers, ValidBody, BodySays;
    match body
    case Snapshot(yes, no) => SnapshotMembers(yes, no);
    case Delta(side, price, change) => DeltaMembers(side, price, change);
    case Lifecycle(status) => LifecycleMembers(status);
    case Trade(tradeId, side, price, quantity) => TradeMembers(tradeId, side, price, quantity);
  }

  // ---------- Text and back ----------

  /** A printed frame is accepted as itself, or refused for capacity exactly when it has too many bytes or nodes. */
  lemma TextRoundTrip(f: Frame, gap: string)
    requires ValidFrame(f) && Blank(gap)
    ensures Classify(Text(FrameText(f, gap)), true)
         == if Utf8Size(FrameText(f, gap)) <= 1_048_576 && FrameNodes(f) <= 8192 then Accepted(f)
            else Rejected(None, Capacity)
  {
    hide Print, ClassifyTree, Fits, Nodes, ValidFrame, FrameMembers, Utf8Size, Capped;
    FrameFits(f);
    ParsePrinted(FrameJson(f), gap);
    TreeRoundTrip(f);
    CapNeverBinds(FrameJson(f));
  }
}
