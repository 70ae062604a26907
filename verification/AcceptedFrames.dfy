/**
  Which frames classification can accept at all, whatever payload carries them, and that accepted snapshots
  are books the order book machine may start from.
*/
module AcceptedFrames {
  import opened Common
  import opened BoundedJson
  import opened JsonGrammar
  import opened JsonPrinter
  import opened JsonRange
  import opened KalshiDecimals
  import opened KalshiFrames
  import opened KalshiClassifier
  import opened FrameContents
  import opened FrameSizes
  import opened FrameTexts
  import opened FrameRefusals
  import MarketBook

  // ---------- The nodes of a tree that says a frame ----------

  /** The members without the first one of the key. */
  function Without(members: seq<Member>, key: string): seq<Member> {
    if members == [] then []
    else if members[0].key == key then members[1..]
    else [members[0]] + Without(members[1..], key)
  }

  lemma {:induction false} TakenOut(members: seq<Member>, key: string, other: string)
    requires Get(members, key).Some?
    ensures MemberNodes(members) == 1 + Nodes(Get(members, key).value) + MemberNodes(Without(members, key))
    ensures other != key ==> Get(Without(members, key), other) == Get(members, other)
  {
    if members[0].key != key {
      TakenOut(members[1..], key, other);
      var less := Without(members, key);
      assert less[1..] == Without(members[1..], key);
    }
  }

  /** Three members of different keys count apart, whatever else there is. */
  lemma ThreeCounted(members: seq<Member>, a: string, b: string, c: string, other: string)
    requires a != b && a != c && b != c && other !in {a, b, c}
    requires Get(members, a).Some? && Get(members, b).Some? && Get(members, c).Some?
    ensures var rest := Without(Without(Without(members, a), b), c);
      && MemberNodes(members) == 3 + Nodes(Get(members, a).value) + Nodes(Get(members, b).value)
                                 + Nodes(Get(members, c).value) + MemberNodes(rest)
      && Get(rest, other) == Get(members, other)
  {
    hide Get, Without, MemberNodes, Nodes;
    TakenOut(members, a, b);
    TakenOut(members, a, c);
    TakenOut(members, a, other);
    var less := Without(members, a);
    TakenOut(less, b, c);
    TakenOut(less, b, other);
    TakenOut(Without(less, b), c, other);
  }

  lemma LevelNodes(v: Json, l: Level)
    requires LevelSays(v, l)
    ensures Nodes(v) >= 5
  {
    hide Get, PriceText, QuantityText, Keys;
    assert Nodes(v) == 1 + MemberNodes(v.members);
    TakenOut(v.members, "price", "quantity");
    TakenOut(Without(v.members, "price"), "quantity", "");
  }

  lemma {:induction false} LadderNodes(items: seq<Json>, levels: seq<Level>)
    requires LadderSays(items, levels)
    ensures ItemNodes(items) >= 5 * |levels|
  {
    hide LevelSays, Nodes;
    if items != [] {
      LevelNodes(items[0], levels[0]);
      LadderNodes(items[1..], levels[1..]);
    }
  }

  /** The frame's nodes without those of its tree's root and its three common members. */
  lemma BodyCounted(root: seq<Member>, body: Body)
    requires BodySays(root, body)
    ensures MemberNodes(root) >= BodyCount(body)
  {
    hide Get, MemberNodes, PriceText, QuantityText, SideText, StatusText, LadderSays;
    match body
    case Snapshot(yes, no) =>
      LadderNodes(Get(root, "yes_bids").value.items, yes);
      LadderNodes(Get(root, "no_bids").value.items, no);
      ThreeCounted(root, "complete", "yes_bids", "no_bids", "");
    case Delta(_, _, _) => ThreeCounted(root, "side", "price", "quantity_delta", "");
    case Lifecycle(_) => TakenOut(root, "status", "");
    case Trade(_, _, _, _) =>
      ThreeCounted(root, "trade_id", "side", "price", "quantity");
      TakenOut(Without(Without(Without(root, "trade_id"), "side"), "price"), "quantity", "");
  }

  function BodyCount(body: Body): nat {
    match body
    case Snapshot(yes, no) => 6 + 5 * (|yes| + |no|)
    case Delta(_, _, _) => 6
    case Lifecycle(_) => 2
    case Trade(_, _, _, _) => 8
  }

  /** However a tree says a frame, it has at least the frame's nodes. */
  lemma SaidNodes(v: Json, f: Frame)
    requires TreeSays(v, f)
    ensures Nodes(v) >= FrameNodes(f)
  {
    var rest := Without(Without(Without(v.members, "type"), "ticker"), "sequence");
    hide Get, Keys, BodySays, MemberNodes, KindText, Without;
    assert Nodes(v) == 1 + MemberNodes(v.members);
    ThreeCounted(v.members, "type", "ticker", "sequence", "");
    forall key | key !in COMMON_KEYS ensures Get(rest, key) == Get(v.members, key) {
      ThreeCounted(v.members, "type", "ticker", "sequence", key);
    }
    SameSaid(v.members, rest, f.body);
    BodyCounted(rest, f.body);
  }

  // ---------- What some payload can deliver ----------

  /** Some payload of the expected digest is accepted as the frame. */
  ghost predicate Deliverable(f: Frame) { exists payload :: Classify(payload, true) == Accepted(f) }

  /**
    A payload is accepted as a frame exactly when it is text within the byte limit that lays out, in whatever spelling,
    a proper tree within every limit that says the valid frame.
  */
  lemma AcceptedText(payload: Decoded, f: Frame)
    ensures Classify(payload, true) == Accepted(f) <==>
              && payload.Text? && Utf8Size(payload.text) <= 1_048_576 && ValidFrame(f)
              && exists v :: LaysOut(payload.text, v) && Proper(v, 0, false) && Bounded(v, 0) && Nodes(v) <= 8192
                             && TreeSays(v, f)
  {
    hide Parse, ClassifyTree, Capped, ValidFrame, TreeSays, Nodes, Proper, Bounded, Utf8Size, LaysOut, ParsePayload;
    if payload.Text? {
      NoMark(payload.text);
      if Parse(payload.text).Ok? {
        var v := Parse(payload.text).value;
        TextExactly(payload.text, v);
        CapNeverBinds(v);
        TreeExact(v, f);
      }
      if v :| LaysOut(payload.text, v) && Proper(v, 0, false) && Bounded(v, 0) && Nodes(v) <= 8192 && TreeSays(v, f) {
        TextExactly(payload.text, v);
      }
    } else {
      BadText(payload);
    }
  }

  lemma BadText(payload: Decoded)
    requires payload.BadUtf8?
    ensures ParsePayload(payload).Err?
  {
    hide Parse;
  }

  /** The text lays out, within every limit, a tree that is refused for this reason. */
  ghost predicate RefusedText(text: string, ticker: Option<string>, reason: FrameReason) {
    exists v ::
      LaysOut(text, v) && Proper(v, 0, false) && Bounded(v, 0) && Nodes(v) <= 8192 && Refused(v, ticker, reason)
  }

  /**
    Why a payload is refused: another digest, more bytes than allowed, a text that cannot be read or does not fit,
    or what the tree it lays out is refused for.
  */
  lemma RefusedPayload(payload: Decoded, ticker: Option<string>, reason: FrameReason)
    ensures Classify(payload, false) == Rejected(None, IdentityInvalid)
    ensures ByteCount(payload) > 1_048_576 ==> Classify(payload, true) == Rejected(None, Capacity)
    ensures ByteCount(payload) <= 1_048_576 ==>
              (Classify(payload, true) == Rejected(ticker, reason) <==>
                 || (payload.Text? && RefusedText(payload.text, ticker, reason))
                 || (ticker == None && ParsePayload(payload) == Err(PayloadInvalid) && reason == BadPayload)
                 || (ticker == None && ParsePayload(payload) == Err(CapacityExceeded) && reason == Capacity))
  {
    hide Parse, ClassifyTree, Capped, Refused, Nodes, Proper, Bounded, LaysOut, ParsePayload, ByteCount;
    if payload.Text? {
      NoMark(payload.text);
      if Parse(payload.text).Ok? {
        var v := Parse(payload.text).value;
        TextExactly(payload.text, v);
        CapNeverBinds(v);
        RefusedExactly(v, ticker, reason);
      }
      if RefusedText(payload.text, ticker, reason) {
        var v :| LaysOut(payload.text, v) && Proper(v, 0, false) && Bounded(v, 0) && Nodes(v) <= 8192
          && Refused(v, ticker, reason);
        TextExactly(payload.text, v);
      }
    } else {
      BadText(payload);
    }
  }

  lemma DeliveredCounts(payload: Decoded, f: Frame)
    requires Classify(payload, true) == Accepted(f)
    ensures ValidFrame(f) && FrameNodes(f) <= MAX_NODES
  {
    hide Parse, ClassifyTree, Capped, ValidFrame, TreeSays, Nodes, Fits, FrameNodes, Utf8Size;
    ParseFits(payload.text);
    var v := Parse(payload.text).value;
    CapNeverBinds(v);
    TreeExact(v, f);
    SaidNodes(v, f);
  }

  /** Exactly the valid frames within the node cap can be delivered, by any payload whatever. */
  lemma DeliverableExactly(f: Frame)
    ensures Deliverable(f) <==> ValidFrame(f) && FrameNodes(f) <= MAX_NODES
  {
    hide Classify, ValidFrame, FrameNodes, FrameText, Utf8Size;
    if payload :| Classify(payload, true) == Accepted(f) { DeliveredCounts(payload, f); }
    if ValidFrame(f) && FrameNodes(f) <= MAX_NODES {
      TextRoundTrip(f, "");
      FramesAreShort(f, "");
      assert Classify(Text(FrameText(f, "")), true) == Accepted(f);
    }
  }

  /** Two ladders within their own cap may still be too much: no payload delivers more than 1635 levels. */
  lemma LadderCapsTooWide(f: Frame)
    requires f.body.Snapshot?
    ensures Deliverable(f) <==> ValidFrame(f) && |f.body.yes| + |f.body.no| <= 1635
  {
    hide Deliverable, ValidFrame;
    DeliverableExactly(f);
  }

  /** One contract at every price from `n` ten-thousandths, excluded, down to zero. */
  function Steps(n: nat): seq<Level> { if n == 0 then [] else [Level(n - 1, ONE)] + Steps(n - 1) }

  lemma {:induction false} StepsFall(n: nat, previous: Option<nat>)
    requires n <= ONE && (previous.Some? ==> n <= previous.value)
    ensures |Steps(n)| == n && Falling(Steps(n), previous)
  {
    if n > 0 {
      StepsFall(n - 1, Some(n - 1));
      assert Steps(n)[1..] == Steps(n - 1);
    }
  }

  /**
    A complete, uncrossed snapshot of 1636 levels, each ladder within its cap of 1024, that no payload delivers;
    printed, it is refused for capacity.
  */
  lemma WideSnapshotRefused(gap: string)
    requires Blank(gap)
    ensures var f := Frame("A", "1", Snapshot(Steps(MAX_LADDER_LEVELS), Steps(612)));
      ValidFrame(f) && !Deliverable(f) && Classify(Text(FrameText(f, gap)), true) == Rejected(None, Capacity)
  {
    hide Falling, Classify, FrameText, Deliverable;
    var yes, no := Steps(MAX_LADDER_LEVELS), Steps(612);
    StepsFall(MAX_LADDER_LEVELS, None);
    StepsFall(612, None);
    var f := Frame("A", "1", Snapshot(yes, no));
    TextRoundTrip(f, gap);
    LadderCapsTooWide(f);
  }

  // ---------- Accepted books ----------

  function Reals(levels: seq<Level>): seq<MarketBook.BookLevel> {
    seq(|levels|, i requires 0 <= i < |levels| =>
      MarketBook.BookLevel(levels[i].price as real / 10000.0, levels[i].quantity as real / 10000.0))
  }

  lemma {:induction false} FallingAt(levels: seq<Level>, previous: Option<nat>, i: nat, j: nat)
    requires Falling(levels, previous) && i < |levels|
    ensures ValidLevel(levels[i]) && (previous.Some? ==> levels[i].price < previous.value)
    ensures i < j < |levels| ==> levels[j].price < levels[i].price
    decreases |levels|
  {
    if i > 0 {
      FallingAt(levels[1..], Some(levels[0].price), i - 1, if j > 0 then j - 1 else 0);
    } else if 0 < j < |levels| {
      FallingAt(levels[1..], Some(levels[0].price), j - 1, 0);
    }
  }

  lemma RealLadder(levels: seq<Level>)
    requires Falling(levels, None)
    ensures MarketBook.ValidLadder(Reals(levels))
  {
    hide Falling;
    var reals := Reals(levels);
    forall i, j | 0 <= i < j < |reals| ensures reals[i].price > reals[j].price { FallingAt(levels, None, i, j); }
    forall i | 0 <= i < |reals| ensures 0.0 <= reals[i].price <= 1.0 && 0.0 < reals[i].quantity {
      FallingAt(levels, None, i, i);
    }
  }

  /** What classification accepts as a snapshot, the order book machine may be built on. */
  lemma AcceptedBook(v: Json, f: Frame)
    requires ClassifyTree(v) == Accepted(f) && f.body.Snapshot?
    ensures MarketBook.ValidBook(Reals(f.body.yes), Reals(f.body.no))
  {
    hide ClassifyTree, TreeSays, Falling, MarketBook.ValidLadder;
    TreeExact(v, f);
    RealLadder(f.body.yes);
    RealLadder(f.body.no);
  }
}
