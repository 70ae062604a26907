/**
  The bounded JSON parser reads exactly the layouts of JsonGrammar: each of them as its tree or, exactly when the
  tree exceeds a limit, not at all for capacity; and no other text.
*/
module JsonReading {
  import opened Common
  import opened Digits
  import opened BoundedJson
  import opened JsonGrammar

  // ---------- Integers ----------

  lemma {:induction false} DigitsAtLeast(n: nat, k: nat)
    requires n >= PowerOfTen(k)
    ensures |PrintNat(n)| > k
  {
    if k > 0 {
      assert n >= 10 * PowerOfTen(k - 1) >= 10;
      DigitsAtLeast(n / 10, k - 1);
    }
  }

  lemma {:induction false} ScansAll(digits: string, rest: string, first: char, count: nat)
    requires AllDigits(digits) && Delimited(rest)
    requires count + |digits| <= MAX_DIGITS && (first == '0' ==> count + |digits| <= 1)
    ensures ScanDigits(digits + rest, first, count) == Ok(count + |digits|)
  {
    if digits == "" {
      assert digits + rest == rest;
      assert rest != "" ==> !IsDigit(rest[0]);
    } else {
      assert (digits + rest)[1..] == digits[1..] + rest;
      assert (digits + rest)[0] == digits[0] && IsDigit(digits[0]);
      ScansAll(digits[1..], rest, first, count + 1);
    }
  }

  lemma {:induction false} ScansTooMany(digits: string, rest: string, first: char, count: nat)
    requires AllDigits(digits) && first != '0' && count <= MAX_DIGITS < count + |digits|
    ensures ScanDigits(digits + rest, first, count) == Err(CapacityExceeded)
  {
    assert (digits + rest)[1..] == digits[1..] + rest;
    assert (digits + rest)[0] == digits[0] && IsDigit(digits[0]);
    if count < MAX_DIGITS {
      ScansTooMany(digits[1..], rest, first, count + 1);
    }
  }

  lemma NineteenDigits()
    ensures PowerOfTen(MAX_DIGITS) == 10_000_000_000_000_000_000
  {
    hide PowerOfTen;
    var n := MAX_DIGITS - 19;
    NoDigits(n);
    FourDigits(n);
    FourDigits(n + 4);
    FourDigits(n + 8);
    FourDigits(n + 12);
    TenMore(n + 16);
    TenMore(n + 17);
    TenMore(n + 18);
  }

  lemma NatScanned(n: nat, rest: string)
    requires Delimited(rest)
    ensures PrintNat(n) != "" && ScanDigits(PrintNat(n) + rest, PrintNat(n)[0], 0)
         == if TooLong(n) then Err(CapacityExceeded) else Ok(|PrintNat(n)|)
  {
    hide PrintNat, ScanDigits, PowerOfTen;
    NatPrinted(n);
    NineteenDigits();
    if TooLong(n) {
      DigitsAtLeast(n, MAX_DIGITS);
      ScansTooMany(PrintNat(n), rest, PrintNat(n)[0], 0);
    } else {
      DigitCount(n, MAX_DIGITS);
      if n == 0 { DigitCount(n, 1); }
      ScansAll(PrintNat(n), rest, PrintNat(n)[0], 0);
    }
  }

  lemma NatTaken(n: nat, rest: string)
    ensures var t := PrintNat(n) + rest; t[..|PrintNat(n)|] == PrintNat(n) && t[|PrintNat(n)|..] == rest
  {
  }

  ghost predicate InRange(n: int) { -0x8000_0000_0000_0000 <= n < 0x8000_0000_0000_0000 }

  lemma NatToken(n: nat, rest: string)
    requires (InRange(n) || TooLong(n)) && Delimited(rest)
    ensures IntegerToken(PrintNat(n) + rest) == if TooLong(n) then Err(CapacityExceeded) else Ok((n, rest))
  {
    hide PrintNat, ScanDigits;
    NatScanned(n, rest);
    NatPrinted(n);
    NatTaken(n, rest);
    assert IsDigit(PrintNat(n)[0]);
  }

  lemma NegativeToken(n: nat, rest: string)
    requires 0 < n && (InRange(-(n as int)) || TooLong(-(n as int))) && Delimited(rest)
    ensures IntegerToken("-" + (PrintNat(n) + rest))
         == if TooLong(-(n as int)) then Err(CapacityExceeded) else Ok((-(n as int), rest))
  {
    hide PrintNat, ScanDigits;
    NatScanned(n, rest);
    NatPrinted(n);
    NatTaken(n, rest);
    assert IsDigit(PrintNat(n)[0]);
    assert ("-" + (PrintNat(n) + rest))[1..] == PrintNat(n) + rest;
  }

  /** An integer's one numeral is read as it, or refused for capacity when it has more than nineteen digits. */
  lemma IntRead(n: int, rest: string)
    requires (InRange(n) || TooLong(n)) && Delimited(rest)
    ensures IntegerToken(PrintInt(n, rest)) == if TooLong(n) then Err(CapacityExceeded) else Ok((n, rest))
  {
    if n < 0 { NegativeToken(-n, rest); } else { NatToken(n, rest); }
  }

  lemma IntStart(n: int, rest: string)
    ensures var t := PrintInt(n, rest); t != "" && (t[0] == '-' || IsDigit(t[0]))
  {
    NatPrinted(if n < 0 then -n else n);
  }

  lemma {:induction false} ScannedShape(s: string, first: char, count: nat)
    requires ScanDigits(s, first, count).Ok?
    ensures var taken := ScanDigits(s, first, count).value - count;
            Delimited(s[taken..]) && (first == '0' && count > 0 ==> taken == 0)
    decreases |s|
  {
    if s != "" && IsDigit(s[0]) {
      ScannedShape(s[1..], first, count + 1);
      var taken := ScanDigits(s, first, count).value - count;
      assert s[1..][taken - 1..] == s[taken..];
    } else {
      assert s[0..] == s;
    }
  }

  /** And nothing else is read as an integer. */
  lemma ReadInt(s: string)
    requires IntegerToken(s).Ok?
    ensures var (n, rest) := IntegerToken(s).value;
            s == PrintInt(n, rest) && InRange(n) && Delimited(rest)
  {
    hide PrintNat, Number, ScanDigits;
    var negative := Peek(s, '-');
    var t := if negative then s[1..] else s;
    var count := ScanDigits(t, t[0], 0).value;
    ScannedShape(t, t[0], 0);
    if t[0] == '0' { ZeroAlone(t); }
    NatUnique(t[..count]);
    assert t == t[..count] + t[count..];
    assert negative ==> s == "-" + t;
  }

  lemma ZeroAlone(t: string)
    requires t != "" && t[0] == '0' && ScanDigits(t, t[0], 0).Ok?
    ensures ScanDigits(t, t[0], 0).value == 1
  {
    ScannedShape(t[1..], t[0], 1);
  }

  // ---------- Values ----------

  /** What reading a layout of `v` must give. */
  ghost predicate Reads(r: Result<Parsed<Json>, Reason>, v: Json, rest: string, nodes: nat, bounded: bool) {
    r == if bounded && nodes <= 8192 then Ok(Parsed(v, rest, nodes)) else Err(CapacityExceeded)
  }

  /** A layout starts with neither white space nor a closing bracket. */
  lemma Starts(t: Layout, rest: string)
    ensures var text := Write(t, rest); text != "" && !IsSpace(text[0]) && text[0] != ']'
  {
    if t.IntText? { IntStart(t.n, rest); }
  }

  lemma LiteralTaken(token: string, rest: string)
    ensures token <= token + rest && (token + rest)[|token|..] == rest
  {
  }

  lemma ScalarRead(t: Layout, rest: string, nodes: nat, depth: nat, allowBoolean: bool)
    requires LayoutOk(t) && Proper(Meaning(t), depth, allowBoolean) && !t.ArrayText? && !t.ObjectText?
    requires Delimited(rest) && nodes <= MAX_NODES
    ensures Reads(Value(Write(t, rest), nodes, depth, allowBoolean), Meaning(t), rest, nodes + 1,
                  Bounded(Meaning(t), depth))
  {
    hide Write, Meaning, LayoutOk, Reads, Value, Proper, Bounded;
    match t
    case IntText(_) => IntScalar(t, rest, nodes, depth, allowBoolean);
    case StringText(_) => StringScalar(t, rest, nodes, depth, allowBoolean);
    case NullText => LiteralScalar(t, rest, nodes, depth, allowBoolean);
    case BoolText(_) => LiteralScalar(t, rest, nodes, depth, allowBoolean);
  }

  lemma IntScalar(t: Layout, rest: string, nodes: nat, depth: nat, allowBoolean: bool)
    requires LayoutOk(t) && Proper(Meaning(t), depth, allowBoolean) && t.IntText?
    requires Delimited(rest) && nodes <= MAX_NODES
    ensures Reads(Value(Write(t, rest), nodes, depth, allowBoolean), Meaning(t), rest, nodes + 1,
                  Bounded(Meaning(t), depth))
  {
    hide PrintInt, IntegerToken, StringToken, Spells, Object, Array;
    IntStart(t.n, rest);
    IntRead(t.n, rest);
  }

  lemma StringScalar(t: Layout, rest: string, nodes: nat, depth: nat, allowBoolean: bool)
    requires LayoutOk(t) && Proper(Meaning(t), depth, allowBoolean) && t.StringText?
    requires Delimited(rest) && nodes <= MAX_NODES
    ensures Reads(Value(Write(t, rest), nodes, depth, allowBoolean), Meaning(t), rest, nodes + 1,
                  Bounded(Meaning(t), depth))
  {
    hide PrintInt, IntegerToken, StringToken, Spells, Object, Array;
    QuotedRead(t.q, rest, false);
  }

  lemma LiteralScalar(t: Layout, rest: string, nodes: nat, depth: nat, allowBoolean: bool)
    requires LayoutOk(t) && Proper(Meaning(t), depth, allowBoolean) && (t.NullText? || t.BoolText?)
    requires Delimited(rest) && nodes <= MAX_NODES
    ensures Reads(Value(Write(t, rest), nodes, depth, allowBoolean), Meaning(t), rest, nodes + 1,
                  Bounded(Meaning(t), depth))
  {
    hide PrintInt, IntegerToken, StringToken, Spells, Object, Array;
    LiteralTaken(if t.NullText? then "null" else if t.b then "true" else "false", rest);
  }

  // ---------- Arrays ----------

  function ItemTail(items: seq<ItemText>, rest: string): string
    requires items != []
  {
    if |items| == 1 then "]" + rest else "," + (items[0].next + WriteItems(items[1..], rest))
  }

  lemma ItemsUnfold(items: seq<ItemText>, rest: string)
    requires items != []
    ensures WriteItems(items, rest) == Write(items[0].value, items[0].after + ItemTail(items, rest))
    ensures ItemMeanings(items) == [Meaning(items[0].value)] + ItemMeanings(items[1..])
    ensures ItemMeanings([]) == []
  {
  }

  lemma ItemNodesUnfold(v: Json, values: seq<Json>)
    ensures ItemNodes([v] + values) == Nodes(v) + ItemNodes(values)
    ensures ItemNodes([]) == 0
  {
    assert ([v] + values)[1..] == values;
  }

  lemma ArrayOpens(open: string, items: seq<ItemText>, rest: string, nodes: nat, depth: nat, allowBoolean: bool)
    requires Blank(open) && depth <= MAX_DEPTH && nodes < MAX_NODES
    ensures Value(Write(ArrayText(open, items), rest), nodes, depth, allowBoolean)
         == if items == [] then Ok(Parsed(JArray([]), rest, nodes + 1))
            else Items(WriteItems(items, rest), nodes + 1, depth, [])
  {
    if items == [] {
      SkipsGap(open, "]" + rest);
    } else {
      Starts(items[0].value, items[0].after + ItemTail(items, rest));
      SkipsGap(open, WriteItems(items, rest));
    }
  }

  ghost predicate AllBounded(values: seq<Json>, depth: nat) {
    forall i :: 0 <= i < |values| ==> Bounded(values[i], depth)
  }

  ghost predicate AllProper(values: seq<Json>, depth: nat) {
    forall i :: 0 <= i < |values| ==> Proper(values[i], depth, false)
  }

  lemma BoundedFirst(v: Json, values: seq<Json>, depth: nat)
    ensures AllBounded([v] + values, depth) <==> Bounded(v, depth) && AllBounded(values, depth)
    ensures AllProper([v] + values, depth) <==> Proper(v, depth, false) && AllProper(values, depth)
  {
    hide Bounded, Proper;
    var all := [v] + values;
    assert all[0] == v && forall i :: 0 <= i < |values| ==> values[i] == all[i + 1];
  }

  /** One item read, and what comes after it. */
  lemma ItemStep(s: string, nodes: nat, depth: nat, found: seq<Json>, v: Json, after: string, tail: string, count: nat,
                 bounded: bool)
    requires Blank(after) && tail != "" && !IsSpace(tail[0])
    requires Reads(Value(s, nodes, depth + 1, false), v, after + tail, count, bounded)
    ensures Items(s, nodes, depth, found)
         == if !bounded || count > MAX_NODES then Err(CapacityExceeded)
            else if tail[0] == ']' then Ok(Parsed(JArray(found + [v]), tail[1..], count))
            else if tail[0] != ',' then Err(PayloadInvalid)
            else Items(SkipSpace(tail[1..]), count, depth, found + [v])
  {
    SkipsGap(after, tail);
  }

  lemma {:induction false} ItemsRead(items: seq<ItemText>, rest: string, nodes: nat, depth: nat, found: seq<Json>)
    requires items != [] && (forall i :: 0 <= i < |items| ==> ItemOk(items[i])) && nodes <= MAX_NODES
    requires AllProper(ItemMeanings(items), depth + 1)
    ensures Reads(Items(WriteItems(items, rest), nodes, depth, found), JArray(found + ItemMeanings(items)), rest,
                  nodes + ItemNodes(ItemMeanings(items)), AllBounded(ItemMeanings(items), depth + 1))
    decreases items, 1
  {
    hide Items, Value, Write, WriteItems, ItemMeanings, ItemNodes, Nodes, Meaning, AllProper, AllBounded;
    var item, tail := items[0], ItemTail(items, rest);
    var v, more := Meaning(item.value), ItemMeanings(items[1..]);
    ItemsUnfold(items, rest);
    ItemNodesUnfold(v, more);
    BoundedFirst(v, more, depth + 1);
    GapDelimits(item.after, tail);
    assert ItemOk(item);
    LayoutRead(item.value, item.after + tail, nodes, depth + 1, false);
    var count := nodes + Nodes(v);
    ItemStep(WriteItems(items, rest), nodes, depth, found, v, item.after, tail, count, Bounded(v, depth + 1));
    if |items| == 1 {
      assert items[1..] == [] && found + [v] == found + ([v] + more) && tail[1..] == rest;
      ItemsUnfold(items, rest);
      NoneBounded(depth + 1);
    } else {
      var after := WriteItems(items[1..], rest);
      ItemsUnfold(items[1..], rest);
      Starts(items[1].value, items[1].after + ItemTail(items[1..], rest));
      assert tail[1..] == item.next + after;
      SkipsGap(item.next, after);
      if count <= MAX_NODES {
        assert found + [v] + more == found + ([v] + more);
        ItemsRead(items[1..], rest, count, depth, found + [v]);
      }
    }
  }

  lemma NoneBounded(depth: nat)
    ensures AllBounded([], depth)
  {
  }

  // ---------- Objects ----------

  function MemberTail(members: seq<MemberText>, rest: string): string
    requires members != []
  {
    if |members| == 1 then "}" + rest else "," + (members[0].next + WriteMembers(members[1..], rest))
  }

  function ValueText(m: MemberText, tail: string): string { Write(m.value, m.after + tail) }

  lemma MembersUnfold(members: seq<MemberText>, rest: string)
    requires members != []
    ensures WriteMembers(members, rest)
         == WriteQuoted(members[0].key, members[0].colon + (":" + (members[0].before
                        + ValueText(members[0], MemberTail(members, rest)))))
    ensures WriteMembers(members, rest) != "" && WriteMembers(members, rest)[0] == '\"'
    ensures MemberMeanings(members)
         == [Member(members[0].key.s, Meaning(members[0].value))] + MemberMeanings(members[1..])
    ensures MemberMeanings([]) == []
  {
  }

  lemma MemberNodesUnfold(m: Member, members: seq<Member>)
    ensures MemberNodes([m] + members) == 1 + Nodes(m.value) + MemberNodes(members)
    ensures MemberNodes([]) == 0
  {
    assert ([m] + members)[1..] == members;
  }

  lemma ObjectOpens(open: string, members: seq<MemberText>, rest: string, nodes: nat, depth: nat, allowBoolean: bool)
    requires Blank(open) && depth <= MAX_DEPTH && nodes < MAX_NODES
    ensures Value(Write(ObjectText(open, members), rest), nodes, depth, allowBoolean)
         == if members == [] then Ok(Parsed(JObject([]), rest, nodes + 1))
            else Members(WriteMembers(members, rest), nodes + 1, depth, [])
  {
    if members == [] {
      SkipsGap(open, "}" + rest);
    } else {
      SkipsGap(open, WriteMembers(members, rest));
    }
  }

  ghost predicate MembersBounded(members: seq<Member>, depth: nat) {
    forall i :: 0 <= i < |members| ==> BoundedMember(members[i], depth)
  }

  ghost predicate MembersProper(members: seq<Member>, depth: nat) {
    forall i :: 0 <= i < |members| ==> ProperMember(members[i], depth)
  }

  lemma MembersFirst(m: Member, members: seq<Member>, depth: nat)
    ensures MembersBounded([m] + members, depth) <==> BoundedMember(m, depth) && MembersBounded(members, depth)
    ensures MembersProper([m] + members, depth) <==> ProperMember(m, depth) && MembersProper(members, depth)
  {
    hide BoundedMember, ProperMember;
    var all := [m] + members;
    assert all[0] == m && forall i :: 0 <= i < |members| ==> members[i] == all[i + 1];
  }

  /** The part of `Members` that follows a member's colon. */
  function AfterKey(key: string, value: string, nodes: nat, depth: nat,
                    found: seq<Member>): Result<Parsed<Json>, Reason>
  {
    var v :- Value(value, nodes, depth + 1, depth == 0 && key == "complete");
    AfterValue(v, depth, found, key)
  }

  /** A key, its colon and the gaps around it. */
  lemma KeyRead(m: MemberText, value: string, nodes: nat, depth: nat, found: seq<Member>)
    requires QuotedOk(m.key) && Blank(m.colon) && Blank(m.before) && value != "" && !IsSpace(value[0])
    requires !HasKey(found, m.key.s)
    ensures Members(WriteQuoted(m.key, m.colon + (":" + (m.before + value))), nodes, depth, found)
         == if nodes >= MAX_NODES || Utf8Size(m.key.s) > 128 then Err(CapacityExceeded)
            else AfterKey(m.key.s, value, nodes + 1, depth, found)
  {
    hide HasKey, StringToken, WriteSpelled, Value, Utf8Size, QuotedOk, Blank;
    QuotedRead(m.key, m.colon + (":" + (m.before + value)), true);
    SkipsGap(m.colon, ":" + (m.before + value));
    SkipsGap(m.before, value);
  }

  /** One member's value read, and what comes after it. */
  lemma MemberStep(key: string, s: string, nodes: nat, depth: nat, found: seq<Member>, v: Json, after: string,
                   tail: string, count: nat, bounded: bool)
    requires Blank(after) && tail != "" && !IsSpace(tail[0])
    requires Reads(Value(s, nodes, depth + 1, depth == 0 && key == "complete"), v, after + tail, count, bounded)
    ensures AfterKey(key, s, nodes, depth, found)
         == if !bounded || count > MAX_NODES then Err(CapacityExceeded)
            else if tail[0] == '}' then Ok(Parsed(JObject(found + [Member(key, v)]), tail[1..], count))
            else if tail[0] != ',' then Err(PayloadInvalid)
            else Members(SkipSpace(tail[1..]), count, depth, found + [Member(key, v)])
  {
    SkipsGap(after, tail);
  }

  lemma NewKey(found: seq<Member>, m: Member, more: seq<Member>)
    requires DistinctKeys(found + ([m] + more))
    ensures !HasKey(found, m.key)
    ensures found + [m] + more == found + ([m] + more)
  {
    var all := found + ([m] + more);
    assert all[|found|] == m;
    assert forall i :: 0 <= i < |found| ==> all[i] == found[i];
  }

  lemma {:induction false} MembersRead(members: seq<MemberText>, rest: string, nodes: nat, depth: nat,
                                       found: seq<Member>)
    requires members != [] && (forall i :: 0 <= i < |members| ==> MemberOk(members[i])) && nodes <= MAX_NODES
    requires MembersProper(MemberMeanings(members), depth) && DistinctKeys(found + MemberMeanings(members))
    ensures Reads(Members(WriteMembers(members, rest), nodes, depth, found), JObject(found + MemberMeanings(members)),
                  rest, nodes + MemberNodes(MemberMeanings(members)), MembersBounded(MemberMeanings(members), depth))
    decreases members, 1
  {
    hide Members, Value, Write, WriteQuoted, WriteMembers, MemberMeanings, MemberNodes, Nodes, AfterKey, DistinctKeys;
    hide HasKey, Meaning, MembersProper, MembersBounded, ValueText, Reads, Utf8Size;
    var m, tail := members[0], MemberTail(members, rest);
    var v, more := Meaning(m.value), MemberMeanings(members[1..]);
    MembersUnfold(members, rest);
    MemberNodesUnfold(Member(m.key.s, v), more);
    NewKey(found, Member(m.key.s, v), more);
    MembersFirst(Member(m.key.s, v), more, depth);
    assert MemberOk(m);
    MemberValueRead(m, tail, nodes + 1, depth);
    KeyRead(m, ValueText(m, tail), nodes, depth, found);
    if nodes < MAX_NODES && Utf8Size(m.key.s) <= 128 {
      MembersGoOn(members, rest, nodes + 1, depth, found);
    } else {
      NotRead(nodes, m.key.s, v, more, depth, found, rest);
    }
  }

  lemma NotRead(nodes: nat, key: string, v: Json, more: seq<Member>, depth: nat, found: seq<Member>, rest: string)
    requires nodes >= MAX_NODES || Utf8Size(key) > 128
    ensures var all := [Member(key, v)] + more;
            Reads(Err(CapacityExceeded), JObject(found + all), rest, nodes + MemberNodes(all),
                  MembersBounded(all, depth))
  {
    MembersFirst(Member(key, v), more, depth);
    MemberNodesUnfold(Member(key, v), more);
  }

  lemma {:induction false} MemberValueRead(m: MemberText, tail: string, nodes: nat, depth: nat)
    requires MemberOk(m) && Delimited(tail) && Proper(Meaning(m.value), depth + 1, depth == 0 && m.key.s == "complete")
    ensures var text := ValueText(m, tail);
      && text != "" && !IsSpace(text[0])
      && (nodes <= MAX_NODES ==>
            Reads(Value(text, nodes, depth + 1, depth == 0 && m.key.s == "complete"), Meaning(m.value),
                  m.after + tail, nodes + Nodes(Meaning(m.value)), Bounded(Meaning(m.value), depth + 1)))
    decreases m, 2
  {
    hide Value, Write, Meaning, Nodes, Proper, Bounded, Reads, QuotedOk;
    Starts(m.value, m.after + tail);
    GapDelimits(m.after, tail);
    if nodes <= MAX_NODES {
      LayoutRead(m.value, m.after + tail, nodes, depth + 1, depth == 0 && m.key.s == "complete");
    }
  }

  lemma {:induction false} MembersGoOn(members: seq<MemberText>, rest: string, nodes: nat, depth: nat,
                                       found: seq<Member>)
    requires members != [] && (forall i :: 0 <= i < |members| ==> MemberOk(members[i])) && 0 < nodes <= MAX_NODES
    requires MembersProper(MemberMeanings(members), depth) && DistinctKeys(found + MemberMeanings(members))
    requires Utf8Size(members[0].key.s) <= 128
    ensures Reads(AfterKey(members[0].key.s, ValueText(members[0], MemberTail(members, rest)), nodes, depth, found),
                  JObject(found + MemberMeanings(members)), rest, nodes - 1 + MemberNodes(MemberMeanings(members)),
                  MembersBounded(MemberMeanings(members), depth))
    decreases members, 0
  {
    hide Members, Value, Write, WriteQuoted, WriteMembers, MemberMeanings, MemberNodes, Nodes, AfterKey, DistinctKeys;
    hide HasKey, Meaning, MembersProper, MembersBounded, ValueText, Proper, Bounded, Utf8Size;
    var m, tail := members[0], MemberTail(members, rest);
    var v, more := Meaning(m.value), MemberMeanings(members[1..]);
    MembersUnfold(members, rest);
    MemberNodesUnfold(Member(m.key.s, v), more);
    NewKey(found, Member(m.key.s, v), more);
    MembersFirst(Member(m.key.s, v), more, depth);
    assert MemberOk(m);
    MemberValueRead(m, tail, nodes, depth);
    var count := nodes + Nodes(v);
    MemberStep(m.key.s, ValueText(m, tail), nodes, depth, found, v, m.after, tail, count, Bounded(v, depth + 1));
    if |members| == 1 {
      assert members[1..] == [] && found + [Member(m.key.s, v)] == found + ([Member(m.key.s, v)] + more);
      assert tail[1..] == rest;
      NoMembersBounded(depth);
    } else {
      var after := WriteMembers(members[1..], rest);
      MembersUnfold(members[1..], rest);
      assert tail[1..] == m.next + after;
      SkipsGap(m.next, after);
      if count <= MAX_NODES {
        MembersRead(members[1..], rest, count, depth, found + [Member(m.key.s, v)]);
      }
    }
  }

  lemma NoMembersBounded(depth: nat)
    ensures MembersBounded([], depth)
  {
  }

  // ---------- Every layout is read ----------

  lemma NoNodeLeft(t: Layout, rest: string, depth: nat, allowBoolean: bool)
    requires depth <= MAX_DEPTH || t.ArrayText? || t.ObjectText?
    ensures Value(Write(t, rest), MAX_NODES, depth, allowBoolean) == Err(CapacityExceeded)
  {
    Starts(t, rest);
  }

  lemma TooDeep(t: Layout, rest: string, nodes: nat, depth: nat, allowBoolean: bool)
    requires depth > MAX_DEPTH && (t.ArrayText? || t.ObjectText?)
    ensures Value(Write(t, rest), nodes, depth, allowBoolean) == Err(CapacityExceeded)
    ensures !Bounded(Meaning(t), depth)
  {
  }

  /**
    At every depth and node count, the layout of a proper tree is read as the tree, counting its nodes, or refused
    for capacity exactly when the tree exceeds a limit.
  */
  lemma {:induction false} LayoutRead(t: Layout, rest: string, nodes: nat, depth: nat, allowBoolean: bool)
    requires LayoutOk(t) && Proper(Meaning(t), depth, allowBoolean) && Delimited(rest) && nodes <= MAX_NODES
    ensures Reads(Value(Write(t, rest), nodes, depth, allowBoolean), Meaning(t), rest, nodes + Nodes(Meaning(t)),
                  Bounded(Meaning(t), depth))
    decreases t, 1
  {
    hide Value, Write, Reads;
    match t
    case ArrayText(_, _) => ArrayRead(t, rest, nodes, depth, allowBoolean);
    case ObjectText(_, _) => ObjectRead(t, rest, nodes, depth, allowBoolean);
    case _ => ScalarRead(t, rest, nodes, depth, allowBoolean);
  }

  lemma ArrayUnfold(t: Layout, depth: nat, allowBoolean: bool)
    requires t.ArrayText? && Proper(Meaning(t), depth, allowBoolean)
    ensures var values := ItemMeanings(t.items);
      && Meaning(t) == JArray(values) && Nodes(Meaning(t)) == 1 + ItemNodes(values) && AllProper(values, depth + 1)
      && (Bounded(Meaning(t), depth) <==> depth <= 16 && AllBounded(values, depth + 1))
      && (t.items == [] ==> values == [] && ItemNodes(values) == 0 && AllBounded(values, depth + 1))
  {
  }

  lemma {:induction false} ArrayRead(t: Layout, rest: string, nodes: nat, depth: nat, allowBoolean: bool)
    requires t.ArrayText? && LayoutOk(t) && Proper(Meaning(t), depth, allowBoolean) && nodes <= MAX_NODES
    ensures Reads(Value(Write(t, rest), nodes, depth, allowBoolean), Meaning(t), rest, nodes + Nodes(Meaning(t)),
                  Bounded(Meaning(t), depth))
    decreases t, 0
  {
    hide Value, Write, ItemNodes, Nodes, Bounded, Proper, Items, WriteItems, AllProper, AllBounded;
    hide Meaning, ItemMeanings, ItemOk;
    var values := ItemMeanings(t.items);
    ArrayUnfold(t, depth, allowBoolean);
    if depth > MAX_DEPTH {
      TooDeep(t, rest, nodes, depth, allowBoolean);
    } else if nodes == MAX_NODES {
      NoNodeLeft(t, rest, depth, allowBoolean);
    } else {
      ArrayOpens(t.open, t.items, rest, nodes, depth, allowBoolean);
      if t.items != [] {
        ItemsRead(t.items, rest, nodes + 1, depth, []);
        assert [] + values == values;
      }
    }
  }

  lemma ObjectUnfold(t: Layout, depth: nat, allowBoolean: bool)
    requires t.ObjectText? && Proper(Meaning(t), depth, allowBoolean)
    ensures var members := MemberMeanings(t.members);
      && Meaning(t) == JObject(members) && Nodes(Meaning(t)) == 1 + MemberNodes(members)
      && MembersProper(members, depth) && DistinctKeys(members)
      && (Bounded(Meaning(t), depth) <==> depth <= 16 && MembersBounded(members, depth))
      && (t.members == [] ==> members == [] && MemberNodes(members) == 0 && MembersBounded(members, depth))
  {
  }

  lemma {:induction false} ObjectRead(t: Layout, rest: string, nodes: nat, depth: nat, allowBoolean: bool)
    requires t.ObjectText? && LayoutOk(t) && Proper(Meaning(t), depth, allowBoolean) && nodes <= MAX_NODES
    ensures Reads(Value(Write(t, rest), nodes, depth, allowBoolean), Meaning(t), rest, nodes + Nodes(Meaning(t)),
                  Bounded(Meaning(t), depth))
    decreases t, 0
  {
    hide Value, Write, MemberNodes, Nodes, Bounded, Proper, Members, WriteMembers, MembersProper, MembersBounded;
    hide DistinctKeys, Meaning, MemberMeanings, MemberOk;
    var members := MemberMeanings(t.members);
    ObjectUnfold(t, depth, allowBoolean);
    if depth > MAX_DEPTH {
      TooDeep(t, rest, nodes, depth, allowBoolean);
    } else if nodes == MAX_NODES {
      NoNodeLeft(t, rest, depth, allowBoolean);
    } else {
      ObjectOpens(t.open, t.members, rest, nodes, depth, allowBoolean);
      if t.members != [] {
        assert [] + members == members;
        MembersRead(t.members, rest, nodes + 1, depth, []);
      }
    }
  }

  lemma LayoutParsed(before: string, t: Layout, after: string)
    requires Blank(before) && Blank(after) && LayoutOk(t) && Proper(Meaning(t), 0, false)
    ensures Parse(before + Write(t, after))
         == if Bounded(Meaning(t), 0) && Nodes(Meaning(t)) <= 8192 then Ok(Meaning(t)) else Err(CapacityExceeded)
  {
    hide Value, Write, Nodes, Proper, Bounded, LayoutOk, Meaning;
    Starts(t, after);
    SkipsGap(before, Write(t, after));
    assert after + "" == after;
    GapDelimits(after, "");
    SkipsGap(after, "");
    LayoutRead(t, after, 0, 0, false);
  }

  // ---------- And nothing else is ----------

  lemma ParsedText(text: string)
    requires Parse(text).Ok?
    ensures LaysOut(text, Parse(text).value)
  {
    hide Value, Write, LayoutOk, Meaning;
    var s := SkipSpace(text);
    var before := Skipped(text);
    var rest := Value(s, 0, 0, false).value.rest;
    var after := Skipped(rest);
    var t := ReadLayout(s, 0, 0, false);
    assert after + "" == after;
  }

  /** The layout of the text that was read. */
  lemma {:induction false} ReadLayout(s: string, nodes: nat, depth: nat, allowBoolean: bool) returns (t: Layout)
    requires Value(s, nodes, depth, allowBoolean).Ok?
    ensures var r := Value(s, nodes, depth, allowBoolean).value;
            LayoutOk(t) && Meaning(t) == r.value && s == Write(t, r.rest)
    decreases |s|, 2
  {
    if s[0] == '{' {
      t := ReadObject(s, nodes, depth);
    } else if s[0] == '[' {
      t := ReadArray(s, nodes, depth);
    } else {
      t := ReadScalar(s, nodes, depth, allowBoolean);
    }
  }

  lemma ReadScalar(s: string, nodes: nat, depth: nat, allowBoolean: bool) returns (t: Layout)
    requires Value(s, nodes, depth, allowBoolean).Ok? && s[0] != '{' && s[0] != '['
    ensures var r := Value(s, nodes, depth, allowBoolean).value;
            LayoutOk(t) && Meaning(t) == r.value && s == Write(t, r.rest)
  {
    hide StringToken, IntegerToken, PrintInt, WriteQuoted, QuotedOk;
    if s[0] == '\"' {
      var q := ReadQuoted(s, false);
      return StringText(q);
    } else if s[0] == 't' && Consumes(s, "true") {
      assert s == "true" + s[4..];
      return BoolText(true);
    } else if s[0] == 'f' && Consumes(s, "false") {
      assert s == "false" + s[5..];
      return BoolText(false);
    } else if s[0] == 'n' && Consumes(s, "null") {
      assert s == "null" + s[4..];
      return NullText;
    } else {
      ReadInt(s);
      return IntText(IntegerToken(s).value.0);
    }
  }

  lemma {:induction false} ReadArray(s: string, nodes: nat, depth: nat) returns (t: Layout)
    requires s != "" && s[0] == '[' && Array(s, nodes, depth).Ok?
    ensures var r := Array(s, nodes, depth).value;
            LayoutOk(t) && Meaning(t) == r.value && s == Write(t, r.rest)
    decreases |s|, 1
  {
    var open := Skipped(s[1..]);
    var next := SkipSpace(s[1..]);
    assert s == "[" + s[1..];
    if Peek(next, ']') {
      t := ArrayText(open, []);
      assert next == "]" + next[1..];
    } else {
      hide Items, Write, WriteItems, ItemMeanings;
      var items := ReadItems(next, nodes + 1, depth, []);
      t := ArrayText(open, items);
      LaidArray(open, items, Array(s, nodes, depth).value.rest);
      assert [] + ItemMeanings(items) == ItemMeanings(items);
    }
  }

  lemma LaidArray(open: string, items: seq<ItemText>, rest: string)
    requires items != []
    ensures Write(ArrayText(open, items), rest) == "[" + (open + WriteItems(items, rest))
    ensures Meaning(ArrayText(open, items)) == JArray(ItemMeanings(items))
  {
  }

  lemma {:induction false} ReadItems(s: string, nodes: nat, depth: nat, found: seq<Json>) returns (items: seq<ItemText>)
    requires Items(s, nodes, depth, found).Ok?
    ensures var r := Items(s, nodes, depth, found).value;
      && items != [] && (forall i :: 0 <= i < |items| ==> ItemOk(items[i]))
      && r.value == JArray(found + ItemMeanings(items)) && s == WriteItems(items, r.rest)
    decreases |s|, 3
  {
    var v := Value(s, nodes, depth + 1, false).value;
    var value := ReadLayout(s, nodes, depth + 1, false);
    var after := Skipped(v.rest);
    var next := SkipSpace(v.rest);
    hide Value, Write, WriteItems, ItemMeanings, LayoutOk, Meaning, ItemOk, Blank, SkipSpace;
    if Peek(next, ']') {
      assert next == "]" + next[1..];
      items := LaidLast(value, after, next[1..], found);
    } else {
      var gap := Skipped(next[1..]);
      var more := ReadItems(SkipSpace(next[1..]), v.nodes, depth, found + [v.value]);
      assert next == "," + next[1..];
      items := LaidNext(value, after, gap, more, Items(s, nodes, depth, found).value.rest, found);
    }
  }

  lemma LaidLast(value: Layout, after: string, rest: string, found: seq<Json>) returns (items: seq<ItemText>)
    requires LayoutOk(value) && Blank(after)
    ensures items != [] && forall i :: 0 <= i < |items| ==> ItemOk(items[i])
    ensures found + ItemMeanings(items) == found + [Meaning(value)]
    ensures WriteItems(items, rest) == Write(value, after + ("]" + rest))
  {
    hide Write, WriteItems, ItemMeanings, LayoutOk, Meaning;
    items := [ItemText(value, after, "")];
    ItemsUnfold(items, rest);
    assert items[1..] == [] && [Meaning(value)] + [] == [Meaning(value)];
    assert ItemOk(items[0]);
  }

  lemma LaidNext(value: Layout, after: string, gap: string, more: seq<ItemText>, rest: string, found: seq<Json>)
    returns (items: seq<ItemText>)
    requires LayoutOk(value) && Blank(after) && Blank(gap)
    requires more != [] && forall i :: 0 <= i < |more| ==> ItemOk(more[i])
    ensures items != [] && forall i :: 0 <= i < |items| ==> ItemOk(items[i])
    ensures found + ItemMeanings(items) == found + [Meaning(value)] + ItemMeanings(more)
    ensures WriteItems(items, rest) == Write(value, after + ("," + (gap + WriteItems(more, rest))))
  {
    hide Write, WriteItems, ItemMeanings, LayoutOk, Meaning, Blank;
    items := [ItemText(value, after, gap)] + more;
    ItemsUnfold(items, rest);
    assert items[1..] == more;
    assert found + [Meaning(value)] + ItemMeanings(more) == found + ([Meaning(value)] + ItemMeanings(more));
    assert ItemOk(items[0]) && forall i :: 0 < i < |items| ==> items[i] == more[i - 1];
  }

  lemma {:induction false} ReadObject(s: string, nodes: nat, depth: nat) returns (t: Layout)
    requires s != "" && s[0] == '{' && Object(s, nodes, depth).Ok?
    ensures var r := Object(s, nodes, depth).value;
            LayoutOk(t) && Meaning(t) == r.value && s == Write(t, r.rest)
    decreases |s|, 1
  {
    var open := Skipped(s[1..]);
    var next := SkipSpace(s[1..]);
    assert s == "{" + s[1..];
    if Peek(next, '}') {
      t := ObjectText(open, []);
      assert next == "}" + next[1..];
    } else {
      hide Members, Write, WriteMembers, MemberMeanings;
      var members := ReadMembers(next, nodes + 1, depth, []);
      t := ObjectText(open, members);
      LaidObject(open, members, Object(s, nodes, depth).value.rest);
      assert [] + MemberMeanings(members) == MemberMeanings(members);
    }
  }

  lemma LaidObject(open: string, members: seq<MemberText>, rest: string)
    requires members != []
    ensures Write(ObjectText(open, members), rest) == "{" + (open + WriteMembers(members, rest))
    ensures Meaning(ObjectText(open, members)) == JObject(MemberMeanings(members))
  {
  }

  /** A key that was read, its colon and the gaps around it. */
  lemma ReadKey(s: string, nodes: nat, found: seq<Member>) returns (q: Quoted, colon: string, before: string)
    requires KeyPart(s, nodes, found).Ok?
    ensures var (key, rest) := KeyPart(s, nodes, found).value;
      && QuotedOk(q) && q.s == key && Blank(colon) && Blank(before)
      && s == WriteQuoted(q, colon + (":" + (before + rest)))
  {
    hide HasKey, StringToken, QuotedOk, WriteQuoted, Blank;
    q := ReadQuoted(s, true);
    var afterKey := StringToken(s, true).value.1;
    colon := Skipped(afterKey);
    var next := SkipSpace(afterKey);
    before := Skipped(next[1..]);
    assert next == ":" + next[1..];
  }

  lemma {:induction false} ReadMembers(s: string, nodes: nat, depth: nat, found: seq<Member>)
    returns (members: seq<MemberText>)
    requires Members(s, nodes, depth, found).Ok?
    ensures var r := Members(s, nodes, depth, found).value;
      && members != [] && (forall i :: 0 <= i < |members| ==> MemberOk(members[i]))
      && r.value == JObject(found + MemberMeanings(members)) && s == WriteMembers(members, r.rest)
    decreases |s|, 0
  {
    var (key, text) := KeyPart(s, nodes, found).value;
    var q, colon, before := ReadKey(s, nodes, found);
    var allow := depth == 0 && key == "complete";
    var v := Value(text, nodes + 1, depth + 1, allow).value;
    var value := ReadLayout(text, nodes + 1, depth + 1, allow);
    hide KeyPart, Value;
    members := ReadAfter(v, depth, found, MemberText(q, colon, before, value, "", ""));
    MembersUnfold(members, Members(s, nodes, depth, found).value.rest);
  }

  /** What was read after a member's value: the rest of the members, the first of which is laid out as `m`. */
  lemma {:induction false} ReadAfter(v: Parsed<Json>, depth: nat, found: seq<Member>, m: MemberText)
    returns (members: seq<MemberText>)
    requires QuotedOk(m.key) && Blank(m.colon) && Blank(m.before) && LayoutOk(m.value) && Meaning(m.value) == v.value
    requires AfterValue(v, depth, found, m.key.s).Ok?
    ensures var r := AfterValue(v, depth, found, m.key.s).value;
      && members != [] && (forall i :: 0 <= i < |members| ==> MemberOk(members[i]))
      && members[0].key == m.key && members[0].colon == m.colon && members[0].before == m.before
      && members[0].value == m.value
      && r.value == JObject(found + MemberMeanings(members))
      && Write(m.value, v.rest) == ValueText(members[0], MemberTail(members, r.rest))
    decreases |v.rest|, 4
  {
    var one := Member(m.key.s, v.value);
    var after := Skipped(v.rest);
    var next := SkipSpace(v.rest);
    hide Write, WriteMembers, MemberMeanings, LayoutOk, Meaning, QuotedOk, MemberOk, Blank, SkipSpace, Members;
    if Peek(next, '}') {
      assert next == "}" + next[1..];
      members := LaidLastMember(m, after, next[1..], found);
    } else {
      var gap := Skipped(next[1..]);
      var more := ReadMembers(SkipSpace(next[1..]), v.nodes, depth, found + [one]);
      assert next == "," + next[1..];
      members := LaidNextMember(m, after, gap, more, AfterValue(v, depth, found, m.key.s).value.rest, found);
    }
  }

  lemma LaidLastMember(m: MemberText, after: string, rest: string, found: seq<Member>)
    returns (members: seq<MemberText>)
    requires QuotedOk(m.key) && Blank(m.colon) && Blank(m.before) && LayoutOk(m.value) && Blank(after)
    ensures members == [m.(after := after, next := "")] && MemberOk(members[0])
    ensures found + MemberMeanings(members) == found + [Member(m.key.s, Meaning(m.value))]
    ensures ValueText(members[0], MemberTail(members, rest)) == Write(m.value, after + ("}" + rest))
  {
    hide Write, WriteMembers, MemberMeanings, LayoutOk, Meaning, QuotedOk;
    members := [m.(after := after, next := "")];
    MembersUnfold(members, rest);
    var one := Member(m.key.s, Meaning(m.value));
    assert members[1..] == [] && [one] + [] == [one];
  }

  lemma LaidNextMember(m: MemberText, after: string, gap: string, more: seq<MemberText>, rest: string,
                       found: seq<Member>) returns (members: seq<MemberText>)
    requires QuotedOk(m.key) && Blank(m.colon) && Blank(m.before) && LayoutOk(m.value) && Blank(after) && Blank(gap)
    requires more != [] && forall i :: 0 <= i < |more| ==> MemberOk(more[i])
    ensures members == [m.(after := after, next := gap)] + more
    ensures forall i :: 0 <= i < |members| ==> MemberOk(members[i])
    ensures found + MemberMeanings(members) == found + [Member(m.key.s, Meaning(m.value))] + MemberMeanings(more)
    ensures ValueText(members[0], MemberTail(members, rest))
         == Write(m.value, after + ("," + (gap + WriteMembers(more, rest))))
  {
    hide Write, WriteMembers, MemberMeanings, LayoutOk, Meaning, QuotedOk, Blank;
    members := [m.(after := after, next := gap)] + more;
    MembersUnfold(members, rest);
    var one := Member(m.key.s, Meaning(m.value));
    assert members[1..] == more;
    assert found + [one] + MemberMeanings(more) == found + ([one] + MemberMeanings(more));
    assert MemberOk(members[0]) && forall i :: 0 < i < |members| ==> members[i] == more[i - 1];
  }
}
