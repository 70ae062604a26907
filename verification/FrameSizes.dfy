/** How long the texts of valid frames and the canonical JSON of their results are. */
module FrameSizes {
  import opened Common
  import opened Digits
  import opened BoundedJson
  import opened KalshiDecimals
  import opened KalshiFrames
  import opened KalshiClassifier
  import opened FrameContents
  import opened JsonGrammar
  import opened JsonPrinter
  import opened JsonSizes

  // ---------- Short texts ----------

  predicate Short(s: string) { |s| <= 64 }

  lemma ShortFits(s: string)
    requires Short(s)
    ensures Utf8Size(s) <= MAX_STRING_BYTES
  {
    SizeBound(s);
  }

  lemma PriceShort(k: nat)
    requires k <= ONE
    ensures |PriceText(k)| <= 6 && Short(PriceText(k)) && PlainText(PriceText(k))
  {
    hide FractionOf;
    if 0 < k < ONE { FractionRound(k); }
  }

  lemma QuantityShort(k: int)
    requires -MAX_QUANTITY <= k <= MAX_QUANTITY
    ensures |QuantityText(k)| <= 13 && Short(QuantityText(k)) && PlainText(QuantityText(k))
  {
    hide FractionOf, PrintNat;
    var m: nat := if k < 0 then -k else k;
    SevenDigits(PLACES);
    DigitCount(m / ONE, 7);
    NatPrinted(m / ONE);
    if m % ONE != 0 { FractionRound(m % ONE); }
  }

  /** A short text under a short key. */
  ghost predicate Plain(m: Member) { |m.key| <= 32 && m.value.JString? && Short(m.value.s) }

  lemma Shape(m: Member)
    requires |m.key| <= 32 && m.value.JString? && Short(m.value.s)
    ensures Plain(m)
  {
  }

  lemma Listed(a: Member, b: Member, c: Member, d: Member, rest: seq<Member>)
    ensures [a, b, c] == [a] + ([b] + ([c] + [])) && [a, b, c] + rest == [a] + ([b] + ([c] + rest))
    ensures [a, b, c, d] == [a] + ([b] + ([c] + ([d] + [])))
  {
  }

  // ---------- Bytes of a frame ----------

  function FrameText(f: Frame, gap: string): string
    requires ValidFrame(f)
  {
    gap + Print(FrameJson(f), gap, gap)
  }

  /** Gaps so short that every valid frame is within the byte limit. */
  const GAP_LIMIT: nat := 16

  lemma ObjectFits(members: seq<Member>, gap: string, rest: string)
    ensures var g := Utf8Size(gap);
      Utf8Size(Print(JObject(members), gap, rest)) <= 2 + g + MembersRoom(members, g) + Utf8Size(rest)
  {
    hide Print, MembersRoom, Utf8Size;
    TextFits(JObject(members), gap, rest);
  }

  lemma MemberRoom(m: Member, rest: seq<Member>, gap: nat)
    ensures MembersRoom([m] + rest, gap)
         == StringRoom(m.key) + Room(m.value, gap) + 4 * gap + 2 + MembersRoom(rest, gap)
    ensures MembersRoom([], gap) == 0
  {
    assert ([m] + rest)[1..] == rest;
  }

  /** A member whose value is a short text, null or the schema version. */
  ghost predicate Small(m: Member) { Plain(m) || (|m.key| <= 32 && m.value in {JNull, JInt(1)}) }

  lemma SmallRoom(m: Member, rest: seq<Member>, gap: nat)
    requires Small(m) && gap <= GAP_LIMIT
    ensures MembersRoom([m] + rest, gap) <= 1000 + MembersRoom(rest, gap)
  {
    hide StringRoom, Utf8Size;
    StringRoomIs(m.key);
    if m.value.JString? { StringRoomIs(m.value.s); }
    if m.value.JInt? { SizeBound(PrintInt(1, "")); }
    MemberRoom(m, rest, gap);
  }

  lemma LevelRoom(l: Level, gap: nat)
    requires ValidLevel(l)
    ensures Room(LevelJson(l), gap) <= 46 + 9 * gap
  {
    hide PriceText, QuantityText, MembersRoom, StringRoom;
    PriceShort(l.price);
    QuantityShort(l.quantity);
    var a, b := Member("price", JString(PriceText(l.price))), Member("quantity", JString(QuantityText(l.quantity)));
    assert LevelJson(l) == JObject([a, b]) && |a.key| == 5 && |b.key| == 8 && PlainText(a.key) && PlainText(b.key);
    hide LevelJson, PlainText;
    StringRoomIs(a.key);
    StringRoomIs(b.key);
    StringRoomIs(a.value.s);
    StringRoomIs(b.value.s);
    assert [b] + [] == [b] && [a] + [b] == [a, b];
    MemberRoom(b, [], gap);
    MemberRoom(a, [b], gap);
  }

  lemma {:induction false} LadderRoom(levels: seq<Level>, previous: Option<nat>, gap: nat)
    requires Falling(levels, previous) && Priced(levels) && gap <= GAP_LIMIT
    ensures ItemsRoom(LadderJson(levels), gap) <= 400 * |levels|
    ensures gap == 0 ==> ItemsRoom(LadderJson(levels), gap) <= 47 * |levels|
    decreases |levels|
  {
    hide LevelJson, Room;
    if levels != [] {
      LevelRoom(levels[0], gap);
      LadderRoom(levels[1..], Some(levels[0].price), gap);
      assert LadderJson(levels)[1..] == LadderJson(levels[1..]);
    }
  }

  lemma SnapshotRoom(yes: seq<Level>, no: seq<Level>, gap: nat)
    requires ValidBody(Snapshot(yes, no)) && gap <= GAP_LIMIT
    ensures var room := MembersRoom(BodyMembers(Snapshot(yes, no)), gap);
      room <= 900_000 && (gap == 0 ==> room <= 100_000)
  {
    FallingPriced(yes, None);
    FallingPriced(no, None);
    LadderRoom(yes, None, gap);
    LadderRoom(no, None, gap);
    var a, b, c := Member("complete", JBool(true)), Member("yes_bids", JArray(LadderJson(yes))),
                   Member("no_bids", JArray(LadderJson(no)));
    assert BodyMembers(Snapshot(yes, no)) == [a, b, c] && |a.key| <= 8 && |b.key| <= 8 && |c.key| <= 8;
    hide Falling, LadderJson, MembersRoom, ItemsRoom, BodyMembers, ValidBody, Crossing;
    ThreeRoom(a, b, c, gap);
  }

  lemma ThreeRoom(a: Member, b: Member, c: Member, gap: nat)
    requires |a.key| <= 8 && |b.key| <= 8 && |c.key| <= 8 && gap <= GAP_LIMIT
    ensures MembersRoom([a, b, c], gap) <= 400 + Room(a.value, gap) + Room(b.value, gap) + Room(c.value, gap)
  {
    hide MembersRoom, Room, StringRoom;
    StringRoomIs(a.key);
    StringRoomIs(b.key);
    StringRoomIs(c.key);
    Listed(a, b, c, a, []);
    MemberRoom(c, [], gap);
    MemberRoom(b, [c] + [], gap);
    MemberRoom(a, [b] + ([c] + []), gap);
  }

  /** Members that are all small. */
  lemma {:induction false} SmallsRoom(members: seq<Member>, rest: seq<Member>, gap: nat)
    requires (forall i :: 0 <= i < |members| ==> Small(members[i])) && gap <= GAP_LIMIT
    ensures MembersRoom(members + rest, gap) <= 1000 * |members| + MembersRoom(rest, gap)
  {
    hide Small, MembersRoom;
    if members == [] {
      assert members + rest == rest;
    } else {
      assert members + rest == [members[0]] + (members[1..] + rest);
      SmallRoom(members[0], members[1..] + rest, gap);
      SmallsRoom(members[1..], rest, gap);
    }
  }

  lemma AllSmallRoom(members: seq<Member>, gap: nat)
    requires (forall i :: 0 <= i < |members| ==> Small(members[i])) && |members| <= 4 && gap <= GAP_LIMIT
    ensures MembersRoom(members, gap) <= 4000
  {
    hide Small, MembersRoom;
    SmallsRoom(members, [], gap);
    MemberRoom(Member("", JNull), [], gap);
    assert members + [] == members;
  }

  lemma BodyRoom(body: Body, gap: nat)
    requires ValidBody(body) && gap <= GAP_LIMIT
    ensures MembersRoom(BodyMembers(body), gap) <= 900_000
    ensures gap == 0 ==> MembersRoom(BodyMembers(body), gap) <= 100_000
  {
    hide MembersRoom, PriceText, QuantityText, Falling;
    match body
    case Snapshot(yes, no) => SnapshotRoom(yes, no, gap);
    case Delta(_, price, change) =>
      PriceShort(price);
      QuantityShort(change);
      AllSmallRoom(BodyMembers(body), gap);
    case Lifecycle(_) => AllSmallRoom(BodyMembers(body), gap);
    case Trade(_, _, price, quantity) =>
      PriceShort(price);
      QuantityShort(quantity);
      AllSmallRoom(BodyMembers(body), gap);
  }

  lemma FrameRoom(f: Frame, gap: nat)
    requires ValidFrame(f) && gap <= GAP_LIMIT
    ensures MembersRoom(FrameMembers(f), gap) <= 903_000
    ensures gap == 0 ==> MembersRoom(FrameMembers(f), gap) <= 103_000
  {
    BodyRoom(f.body, gap);
    var common := [Member("type", JString(KindText(f.body))), Member("ticker", JString(f.ticker)),
                   Member("sequence", JString(f.sequence))];
    assert forall i :: 0 <= i < |common| ==> Small(common[i]);
    hide MembersRoom, BodyMembers, ValidBody, Small;
    SmallsRoom(common, BodyMembers(f.body), gap);
  }

  /** With gaps of up to sixteen white-space characters no valid frame exceeds the byte limit. */
  lemma FramesAreShort(f: Frame, gap: string)
    requires ValidFrame(f) && Blank(gap) && |gap| <= GAP_LIMIT
    ensures Utf8Size(FrameText(f, gap)) <= 1_048_576
  {
    FrameRoom(f, |gap|);
    BlankSize(gap);
    hide MembersRoom, FrameMembers, ValidFrame, Utf8Size, Print, Blank;
    SizeJoined(gap, Print(FrameJson(f), gap, gap));
    ObjectFits(FrameMembers(f), gap, gap);
  }

  // ---------- The canonical result ----------

  lemma ProjectionRoom(f: Frame)
    requires ValidFrame(f)
    ensures Room(FrameProjection(f), 0) <= 104_002
  {
    hide MembersRoom, Room, FrameMembers, ValidFrame, Plain;
    FrameRoom(f, 0);
    ObjectRoom(Member("schema_version", JInt(1)), FrameMembers(f));
  }

  lemma ObjectRoom(first: Member, rest: seq<Member>)
    requires |first.key| <= 32 && first.value == JInt(1)
    ensures Room(JObject([first] + rest), 0) <= 1002 + MembersRoom(rest, 0)
  {
    hide MembersRoom;
    SmallRoom(first, rest, 0);
  }

  /** All members of a result but its frame are small. */
  lemma OthersSmall(verdict: Verdict, raw: string, digest: string)
    requires verdict.Accepted? ==> ValidFrame(verdict.frame)
    requires Presentable(verdict) && DigestText(raw) && DigestText(digest)
    ensures var members := ResultMembers(verdict, raw, digest);
      && |members| == 10 && (forall i :: 0 < i < 10 ==> Small(members[i])) && |members[0].key| == 5
      && members[0].value == if verdict.Accepted? then FrameProjection(verdict.frame) else JNull
  {
    hide ValidBody, FrameProjection, HexDigit;
  }

  /** No result's canonical JSON exceeds its limit: a capacity error never comes from it. */
  lemma CanonicalFits(verdict: Verdict, raw: string, digest: string)
    requires verdict.Accepted? ==> ValidFrame(verdict.frame)
    requires Presentable(verdict) && DigestText(raw) && DigestText(digest)
    ensures Utf8Size(CanonicalText(verdict, raw, digest)) <= 131_064
  {
    hide MembersRoom, Small, ResultMembers, ValidFrame, Utf8Size;
    hide Print, StringRoom, FrameProjection, Presentable, DigestText;
    var members := ResultMembers(verdict, raw, digest);
    OthersSmall(verdict, raw, digest);
    if verdict.Accepted? { ProjectionRoom(verdict.frame); }
    ResultRoom(members);
    ObjectFits(members, "", "");
    NothingSized("");
  }

  lemma ResultRoom(members: seq<Member>)
    requires |members| == 10 && |members[0].key| == 5 && Room(members[0].value, 0) <= 104_002
    requires forall i :: 0 < i < 10 ==> Small(members[i])
    ensures MembersRoom(members, 0) <= 114_000
  {
    hide MembersRoom, Room, Small, StringRoom;
    var others := members[1..];
    assert members == [members[0]] + others && others + [] == others;
    StringRoomIs(members[0].key);
    MemberRoom(members[0], others, 0);
    SmallsRoom(others, [], 0);
  }

  lemma RejectedIsPresentable(v: Json)
    ensures Presentable(ClassifyTree(v))
  {
    hide BodyOf, TickerText, OpaqueText, Keys, Get, FrameKeys;
  }

  /** So the classification is the tree's verdict, untouched. */
  lemma CapNeverBinds(v: Json)
    ensures ClassifyTree(v).Accepted? ==> ValidFrame(ClassifyTree(v).frame)
    ensures Capped(ClassifyTree(v)) == ClassifyTree(v)
  {
    AcceptedIsValid(v);
    RejectedIsPresentable(v);
    hide ClassifyTree, CanonicalText, Utf8Size, ValidFrame, Presentable;
    FixedIsDigest(0);
    CanonicalFits(ClassifyTree(v), SOME_DIGEST, SOME_DIGEST);
  }

  lemma FixedIsDigest(k: nat)
    requires k == 0
    ensures DigestText(Fixed(k, 64))
  {
    hide Fixed;
    FixedRound(k, 64);
  }
}
