/**
  What the bounded JSON parser can return: exactly the trees within its limits, so the separate check
  of boolean positions that follows parsing never rejects anything.
*/
module JsonRange {
  import opened Common
  import opened BoundedJson
  import opened JsonGrammar
  import JsonPrinter
  import JsonReading

  lemma {:induction false} CharsFit(s: string, limit: nat, found: string)
    requires Utf8Size(found) <= limit && Chars(s, limit, found).Ok?
    ensures Utf8Size(Chars(s, limit, found).value.0) <= limit
    decreases |s|
  {
    if s[0] != '\"' {
      var (c, rest) := OneChar(s).value;
      assert (found + [c])[..|found|] == found;
      CharsFit(rest, limit, found + [c]);
    }
  }

  lemma TokenFits(s: string, isKey: bool)
    requires s != "" && StringToken(s, isKey).Ok?
    ensures Utf8Size(StringToken(s, isKey).value.0) <= StringLimit(isKey)
  {
    CharsFit(s[1..], StringLimit(isKey), "");
  }

  /** A value that fits, counted on top of `nodes`. */
  ghost predicate Sound(r: Parsed<Json>, nodes: nat, depth: nat, allowBoolean: bool) {
    Fits(r.value, depth, allowBoolean) && r.nodes == nodes + Nodes(r.value) && r.nodes <= MAX_NODES
  }

  lemma {:induction false} ValueSound(s: string, nodes: nat, depth: nat, allowBoolean: bool)
    requires nodes <= MAX_NODES && Value(s, nodes, depth, allowBoolean).Ok?
    ensures Sound(Value(s, nodes, depth, allowBoolean).value, nodes, depth, allowBoolean)
    decreases |s|, 2
  {
    if s[0] == '{' {
      ObjectSound(s, nodes, depth, allowBoolean);
    } else if s[0] == '[' {
      ArraySound(s, nodes, depth, allowBoolean);
    } else if s[0] == '\"' {
      TokenFits(s, false);
    }
  }

  lemma {:induction false} ArraySound(s: string, nodes: nat, depth: nat, allowBoolean: bool)
    requires s != "" && nodes <= MAX_NODES && Array(s, nodes, depth).Ok?
    ensures Sound(Array(s, nodes, depth).value, nodes, depth, allowBoolean)
    decreases |s|, 1
  {
    var t := SkipSpace(s[1..]);
    if !Peek(t, ']') {
      hide Items, Sound, ItemsGood;
      ItemsSound(t, nodes + 1, depth, []);
      ItemsAreSound(Items(t, nodes + 1, depth, []).value, nodes, depth, allowBoolean);
    }
  }

  lemma ItemsAreSound(r: Parsed<Json>, nodes: nat, depth: nat, allowBoolean: bool)
    requires ItemsGood(r, nodes + 1, depth, []) && depth <= MAX_DEPTH
    ensures Sound(r, nodes, depth, allowBoolean)
  {
    assert r.value.items[0..] == r.value.items;
  }

  ghost predicate ItemsGood(r: Parsed<Json>, nodes: nat, depth: nat, found: seq<Json>) {
    && r.value.JArray?
    && found <= r.value.items
    && (forall i :: 0 <= i < |r.value.items| ==> Fits(r.value.items[i], depth + 1, false))
    && r.nodes == nodes + ItemNodes(r.value.items[|found|..]) <= MAX_NODES
  }

  lemma {:induction false} ItemsSound(s: string, nodes: nat, depth: nat, found: seq<Json>)
    requires nodes <= MAX_NODES && Items(s, nodes, depth, found).Ok?
    requires forall i :: 0 <= i < |found| ==> Fits(found[i], depth + 1, false)
    ensures ItemsGood(Items(s, nodes, depth, found).value, nodes, depth, found)
    decreases |s|, 3
  {
    ValueSound(s, nodes, depth + 1, false);
    var v := Value(s, nodes, depth + 1, false).value;
    var next := SkipSpace(v.rest);
    var more := found + [v.value];
    if Peek(next, ']') {
      assert more[|found|..] == [v.value];
      OneItem(v.value);
    } else {
      ItemsSound(SkipSpace(next[1..]), v.nodes, depth, more);
      ItemCounted(Items(SkipSpace(next[1..]), v.nodes, depth, more).value.value.items, found, v.value);
    }
  }

  lemma OneItem(v: Json)
    ensures ItemNodes([v]) == Nodes(v)
  {
    assert [v][1..] == [];
  }

  lemma ItemCounted(items: seq<Json>, found: seq<Json>, v: Json)
    requires found + [v] <= items
    ensures found <= items && ItemNodes(items[|found|..]) == Nodes(v) + ItemNodes(items[|found + [v]|..])
  {
    assert items[|found|] == (found + [v])[|found|];
    assert items[|found|..][1..] == items[|found| + 1..];
  }

  lemma {:induction false} ObjectSound(s: string, nodes: nat, depth: nat, allowBoolean: bool)
    requires s != "" && nodes <= MAX_NODES && Object(s, nodes, depth).Ok?
    ensures Sound(Object(s, nodes, depth).value, nodes, depth, allowBoolean)
    decreases |s|, 1
  {
    ObjectOpens(s, nodes, depth);
    var t := SkipSpace(s[1..]);
    hide Object, Members, Sound, MembersGood;
    if Peek(t, '}') {
      EmptyObjectSound(t[1..], nodes, depth, allowBoolean);
    } else {
      MembersSound(t, nodes + 1, depth, []);
      MembersAreSound(Members(t, nodes + 1, depth, []).value, nodes, depth, allowBoolean);
    }
  }

  lemma ObjectOpens(s: string, nodes: nat, depth: nat)
    requires s != "" && Object(s, nodes, depth).Ok?
    ensures var t := SkipSpace(s[1..]);
      && depth <= MAX_DEPTH && nodes < MAX_NODES
      && Object(s, nodes, depth) == if Peek(t, '}') then Ok(Parsed(JObject([]), t[1..], nodes + 1))
                                    else Members(t, nodes + 1, depth, [])
  {
    hide Members;
  }

  lemma EmptyObjectSound(rest: string, nodes: nat, depth: nat, allowBoolean: bool)
    requires depth <= MAX_DEPTH && nodes < MAX_NODES
    ensures Sound(Parsed(JObject([]), rest, nodes + 1), nodes, depth, allowBoolean)
  {
  }

  lemma MembersAreSound(r: Parsed<Json>, nodes: nat, depth: nat, allowBoolean: bool)
    requires MembersGood(r, nodes + 1, depth, []) && depth <= MAX_DEPTH
    ensures Sound(r, nodes, depth, allowBoolean)
  {
    assert r.value.members[0..] == r.value.members;
  }

  ghost predicate MembersGood(r: Parsed<Json>, nodes: nat, depth: nat, found: seq<Member>) {
    && r.value.JObject?
    && found <= r.value.members
    && DistinctKeys(r.value.members)
    && (forall i :: 0 <= i < |r.value.members| ==> MemberFits(r.value.members[i], depth))
    && r.nodes == nodes + MemberNodes(r.value.members[|found|..]) <= MAX_NODES
  }

  lemma {:induction false} MembersSound(s: string, nodes: nat, depth: nat, found: seq<Member>)
    requires nodes <= MAX_NODES && Members(s, nodes, depth, found).Ok?
    requires DistinctKeys(found) && forall i :: 0 <= i < |found| ==> MemberFits(found[i], depth)
    ensures MembersGood(Members(s, nodes, depth, found).value, nodes, depth, found)
    decreases |s|, 0
  {
    var (key, text) := KeyPart(s, nodes, found).value;
    KeyFits(s, nodes, found);
    hide KeyPart, Value, Fits, DistinctKeys, MembersGood;
    ValueSound(text, nodes + 1, depth + 1, depth == 0 && key == "complete");
    MembersGoOn(s, nodes, depth, found, key, Value(text, nodes + 1, depth + 1, depth == 0 && key == "complete").value);
  }

  lemma KeyFits(s: string, nodes: nat, found: seq<Member>)
    requires KeyPart(s, nodes, found).Ok?
    ensures var key := KeyPart(s, nodes, found).value.0;
      Utf8Size(key) <= MAX_KEY_BYTES && !HasKey(found, key) && nodes < MAX_NODES
  {
    hide HasKey, Utf8Size;
    TokenFits(s, true);
  }

  /** The step after a member's value. */
  lemma {:induction false} MembersGoOn(s: string, nodes: nat, depth: nat, found: seq<Member>, key: string,
                                       v: Parsed<Json>)
    requires Sound(v, nodes + 1, depth + 1, depth == 0 && key == "complete") && !HasKey(found, key)
    requires Utf8Size(key) <= MAX_KEY_BYTES && |v.rest| < |s|
    requires DistinctKeys(found) && forall i :: 0 <= i < |found| ==> MemberFits(found[i], depth)
    requires Members(s, nodes, depth, found).Ok?
    requires Members(s, nodes, depth, found) == AfterValue(v, depth, found, key)
    ensures MembersGood(Members(s, nodes, depth, found).value, nodes, depth, found)
    decreases |v.rest|, 4
  {
    hide Members, Value, Fits, Nodes, MemberNodes;
    var next := SkipSpace(v.rest);
    var more := found + [Member(key, v.value)];
    assert forall i :: 0 <= i < |found| ==> more[i] == found[i];
    assert MemberFits(more[|found|], depth);
    if Peek(next, '}') {
      assert more[|found|..] == [Member(key, v.value)];
      OneMember(Member(key, v.value));
    } else {
      MembersSound(SkipSpace(next[1..]), v.nodes, depth, more);
      MemberCounted(Members(SkipSpace(next[1..]), v.nodes, depth, more).value.value.members, found,
                    Member(key, v.value));
    }
  }

  lemma OneMember(m: Member)
    ensures MemberNodes([m]) == 1 + Nodes(m.value)
  {
    assert [m][1..] == [];
  }

  lemma MemberCounted(members: seq<Member>, found: seq<Member>, m: Member)
    requires found + [m] <= members
    ensures found <= members
    ensures MemberNodes(members[|found|..]) == 1 + Nodes(m.value) + MemberNodes(members[|found + [m]|..])
  {
    assert members[|found|] == (found + [m])[|found|];
    assert members[|found|..][1..] == members[|found| + 1..];
  }

  // ---------- The range of the parser ----------

  lemma ParseFits(text: string)
    requires Parse(text).Ok?
    ensures Fits(Parse(text).value, 0, false) && Nodes(Parse(text).value) <= MAX_NODES
  {
    ValueSound(SkipSpace(text), 0, 0, false);
  }

  /**
    A text is read as a tree exactly when it lays the tree out and the tree is proper and within every limit. Every
    layout of a proper tree that exceeds a limit is refused for capacity.
  */
  lemma TextExactly(text: string, v: Json)
    ensures Parse(text) == Ok(v) <==> LaysOut(text, v) && Proper(v, 0, false) && Bounded(v, 0) && Nodes(v) <= 8192
    ensures LaysOut(text, v) && Proper(v, 0, false) && !(Bounded(v, 0) && Nodes(v) <= 8192) ==>
              Parse(text) == Err(CapacityExceeded)
  {
    hide Parse, Proper, Bounded, Fits, Nodes, Meaning, LayoutOk, Write;
    if Parse(text) == Ok(v) {
      ParseFits(text);
      FitsIs(v, 0, false);
      JsonReading.ParsedText(text);
    }
    if LaysOut(text, v) && Proper(v, 0, false) {
      var before, t, after :| Blank(before) && Blank(after) && LayoutOk(t) && Meaning(t) == v
                              && text == before + Write(t, after);
      JsonReading.LayoutParsed(before, t, after);
    }
  }

  /** Some text parses to a tree exactly when the tree is within the limits. */
  lemma ParseRange(v: Json)
    ensures (exists text :: Parse(text) == Ok(v)) <==> Fits(v, 0, false) && Nodes(v) <= MAX_NODES
  {
    if text :| Parse(text) == Ok(v) {
      ParseFits(text);
    }
    if Fits(v, 0, false) && Nodes(v) <= MAX_NODES {
      JsonPrinter.ParsePrinted(v, "");
      assert Parse("" + JsonPrinter.Print(v, "", "")) == Ok(v);
    }
  }

  /** A byte-order mark starts no value anyway. */
  lemma NoMark(text: string)
    ensures ParsePayload(Text(text)) == Parse(text)
  {
    hide Object, Array;
  }

  // ---------- Boolean positions ----------

  /** `_validate_boolean_positions`: no boolean but a root member called complete. */
  predicate BooleanPositions(v: Json, root: bool) {
    match v
    case JObject(members) =>
      forall i :: 0 <= i < |members| ==>
        var m := members[i];
        if m.value.JBool? then root && m.key == "complete" else BooleanPositions(m.value, false)
    case JArray(items) =>
      forall i :: 0 <= i < |items| ==> !items[i].JBool? && BooleanPositions(items[i], false)
    case _ => true
  }

  lemma {:induction false} FitsPositions(v: Json, depth: nat, allowBoolean: bool)
    requires Fits(v, depth, allowBoolean)
    ensures BooleanPositions(v, depth == 0)
    decreases v
  {
    match v
    case JObject(members) =>
      forall i | 0 <= i < |members|
        ensures members[i].value.JBool? || BooleanPositions(members[i].value, false)
        ensures members[i].value.JBool? ==> depth == 0 && members[i].key == "complete"
      {
        assert MemberFits(members[i], depth);
        FitsPositions(members[i].value, depth + 1, depth == 0 && members[i].key == "complete");
      }
    case JArray(items) =>
      forall i | 0 <= i < |items|
        ensures !items[i].JBool? && BooleanPositions(items[i], false)
      {
        FitsPositions(items[i], depth + 1, false);
      }
    case _ =>
  }

  /** Checking boolean positions after parsing rejects nothing. */
  lemma PositionsAlwaysHold(text: string)
    requires Parse(text).Ok?
    ensures BooleanPositions(Parse(text).value, true)
  {
    ParseFits(text);
    FitsPositions(Parse(text).value, 0, false);
  }
}
