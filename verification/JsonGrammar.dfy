/**
  Which texts are values of the bounded JSON parser: every layout of a tree, with white space and spellings of
  the writer's choice as sections 2 to 7 of RFC 8259 allow them, is read as that tree or refused for capacity
  exactly when the tree exceeds a limit. Nothing here is defined by the parser's own character classes.
*/
module JsonGrammar {
  import opened Common
  import opened Digits
  import opened BoundedJson

  // ---------- Layouts ----------

  /** Space, tab, carriage return and line feed only. */
  predicate Blank(gap: string) { forall i :: 0 <= i < |gap| ==> gap[i] in {' ', '\t', '\r', '\n'} }

  /** The letter after a backslash and the code point it stands for. */
  ghost predicate ShortFor(letter: char, code: int) {
    (letter, code) in {('\"', 34), ('\\', 92), ('/', 47), ('b', 8), ('f', 12), ('n', 10), ('r', 13), ('t', 9)}
  }

  /** A hexadecimal digit of either case. */
  ghost predicate HexFor(digit: char, n: nat)
    requires n < 16
  {
    digit == "0123456789abcdef"[n] || digit == "0123456789ABCDEF"[n]
  }

  ghost predicate FourHexFor(digits: string, code: nat) {
    && |digits| == 4 && code < 0x1_0000
    && HexFor(digits[0], code / 4096) && HexFor(digits[1], code / 256 % 16)
    && HexFor(digits[2], code / 16 % 16) && HexFor(digits[3], code % 16)
  }

  /** One way of writing a character in a string: as itself, with a short escape or as \uXXXX. */
  ghost predicate Spells(spelling: string, c: char) {
    || (spelling == [c] && c as int >= 0x20 && c != '\"' && c != '\\')
    || (|spelling| == 2 && spelling[0] == '\\' && ShortFor(spelling[1], c as int))
    || (|spelling| == 6 && spelling[..2] == "\\u" && FourHexFor(spelling[2..], c as int))
  }

  /** A string and the spelling of each of its characters. */
  datatype Quoted = Quoted(s: string, spelled: seq<string>)

  /** A value as it is laid out: `open`, `colon`, `before`, `after` and `next` are white space. */
  datatype Layout =
    | NullText
    | BoolText(b: bool)
    | IntText(n: int)
    | StringText(q: Quoted)
    | ArrayText(open: string, items: seq<ItemText>)
    | ObjectText(open: string, members: seq<MemberText>)

  datatype ItemText = ItemText(value: Layout, after: string, next: string)

  datatype MemberText =
    MemberText(key: Quoted, colon: string, before: string, value: Layout, after: string, next: string)

  ghost predicate QuotedOk(q: Quoted) {
    |q.spelled| == |q.s| && forall i :: 0 <= i < |q.s| ==> Spells(q.spelled[i], q.s[i])
  }

  ghost predicate LayoutOk(t: Layout)
    decreases t, 1
  {
    match t
    case StringText(q) => QuotedOk(q)
    case ArrayText(open, items) => Blank(open) && forall i :: 0 <= i < |items| ==> ItemOk(items[i])
    case ObjectText(open, members) => Blank(open) && forall i :: 0 <= i < |members| ==> MemberOk(members[i])
    case _ => true
  }

  ghost predicate ItemOk(i: ItemText)
    decreases i, 0
  {
    LayoutOk(i.value) && Blank(i.after) && Blank(i.next)
  }

  ghost predicate MemberOk(m: MemberText)
    decreases m, 0
  {
    && QuotedOk(m.key) && Blank(m.colon) && Blank(m.before)
    && LayoutOk(m.value) && Blank(m.after) && Blank(m.next)
  }

  // ---------- The tree and the text of a layout ----------

  function Meaning(t: Layout): Json
    decreases t, 1
  {
    match t
    case NullText => JNull
    case BoolText(b) => JBool(b)
    case IntText(n) => JInt(n)
    case StringText(q) => JString(q.s)
    case ArrayText(_, items) => JArray(ItemMeanings(items))
    case ObjectText(_, members) => JObject(MemberMeanings(members))
  }

  function ItemMeanings(items: seq<ItemText>): seq<Json>
    decreases items, 0
  {
    if items == [] then [] else [Meaning(items[0].value)] + ItemMeanings(items[1..])
  }

  function MemberMeanings(members: seq<MemberText>): seq<Member>
    decreases members, 0
  {
    if members == [] then []
    else [Member(members[0].key.s, Meaning(members[0].value))] + MemberMeanings(members[1..])
  }

  function WriteSpelled(spelled: seq<string>, rest: string): string {
    if spelled == [] then rest else spelled[0] + WriteSpelled(spelled[1..], rest)
  }

  function WriteQuoted(q: Quoted, rest: string): string { "\"" + WriteSpelled(q.spelled, "\"" + rest) }

  function PrintInt(n: int, rest: string): string {
    if n < 0 then "-" + (PrintNat(-n) + rest) else PrintNat(n) + rest
  }

  /** The text of a layout, followed by `rest`. */
  function Write(t: Layout, rest: string): string
    decreases t, 0
  {
    match t
    case NullText => "null" + rest
    case BoolText(b) => (if b then "true" else "false") + rest
    case IntText(n) => PrintInt(n, rest)
    case StringText(q) => WriteQuoted(q, rest)
    case ArrayText(open, items) => "[" + (open + if items == [] then "]" + rest else WriteItems(items, rest))
    case ObjectText(open, members) => "{" + (open + if members == [] then "}" + rest else WriteMembers(members, rest))
  }

  function WriteItems(items: seq<ItemText>, rest: string): string
    requires items != []
    decreases items, 1
  {
    Write(items[0].value, items[0].after + if |items| == 1 then "]" + rest
                                           else "," + (items[0].next + WriteItems(items[1..], rest)))
  }

  function WriteMembers(members: seq<MemberText>, rest: string): string
    requires members != []
    decreases members, 1
  {
    var m := members[0];
    var tail := if |members| == 1 then "}" + rest else "," + (m.next + WriteMembers(members[1..], rest));
    WriteQuoted(m.key, m.colon + (":" + (m.before + Write(m.value, m.after + tail))))
  }

  /** The text is white space, a layout of the tree and white space. */
  ghost predicate LaysOut(text: string, v: Json) {
    exists before, t, after ::
      Blank(before) && Blank(after) && LayoutOk(t) && Meaning(t) == v && text == before + Write(t, after)
  }

  // ---------- What a tree must be, and what it may be ----------

  /** Keys differ, booleans stand only where they may, and no integer of up to nineteen digits is out of range. */
  predicate Proper(v: Json, depth: nat, allowBoolean: bool)
    decreases v, 1
  {
    match v
    case JBool(_) => allowBoolean
    case JInt(n) => -0x8000_0000_0000_0000 <= n < 0x8000_0000_0000_0000 || TooLong(n)
    case JArray(items) => forall i :: 0 <= i < |items| ==> Proper(items[i], depth + 1, false)
    case JObject(members) =>
      DistinctKeys(members) && forall i :: 0 <= i < |members| ==> ProperMember(members[i], depth)
    case _ => true
  }

  predicate ProperMember(m: Member, depth: nat)
    decreases m, 0
  {
    Proper(m.value, depth + 1, depth == 0 && m.key == "complete")
  }

  /** Twenty digits or more. */
  predicate TooLong(n: int) { n <= -10_000_000_000_000_000_000 || n >= 10_000_000_000_000_000_000 }

  /** Nested at most sixteen deep, keys of at most 128 bytes, strings of at most 4096, integers of at most 19 digits. */
  predicate Bounded(v: Json, depth: nat)
    decreases v, 1
  {
    match v
    case JInt(n) => !TooLong(n)
    case JString(s) => Utf8Size(s) <= 4096
    case JArray(items) => depth <= 16 && forall i :: 0 <= i < |items| ==> Bounded(items[i], depth + 1)
    case JObject(members) => depth <= 16 && forall i :: 0 <= i < |members| ==> BoundedMember(members[i], depth)
    case _ => true
  }

  predicate BoundedMember(m: Member, depth: nat)
    decreases m, 0
  {
    Utf8Size(m.key) <= 128 && Bounded(m.value, depth + 1)
  }

  lemma {:induction false} FitsIs(v: Json, depth: nat, allowBoolean: bool)
    ensures Fits(v, depth, allowBoolean) <==> Proper(v, depth, allowBoolean) && Bounded(v, depth)
    decreases v
  {
    match v
    case JArray(items) =>
      forall i | 0 <= i < |items|
        ensures Fits(items[i], depth + 1, false) <==> Proper(items[i], depth + 1, false) && Bounded(items[i], depth + 1)
      {
        FitsIs(items[i], depth + 1, false);
      }
    case JObject(members) =>
      forall i | 0 <= i < |members|
        ensures MemberFits(members[i], depth) <==> ProperMember(members[i], depth) && BoundedMember(members[i], depth)
      {
        FitsIs(members[i].value, depth + 1, depth == 0 && members[i].key == "complete");
      }
    case _ =>
  }

  // ---------- White space ----------

  lemma BlankMore(gap: string, c: char)
    requires Blank(gap) && IsSpace(c)
    ensures Blank(gap + [c])
  {
  }

  lemma {:induction false} SkipsGap(gap: string, rest: string)
    requires Blank(gap) && (rest == "" || !IsSpace(rest[0]))
    ensures SkipSpace(gap + rest) == rest
  {
    if gap == "" {
      assert gap + rest == rest;
    } else {
      assert (gap + rest)[1..] == gap[1..] + rest;
      assert gap[0] in {' ', '\t', '\r', '\n'};
      SkipsGap(gap[1..], rest);
    }
  }

  /** What is skipped is blank, and nothing blank follows it. */
  lemma {:induction false} Skipped(s: string) returns (gap: string)
    ensures Blank(gap) && s == gap + SkipSpace(s)
    ensures SkipSpace(s) == "" || SkipSpace(s)[0] !in {' ', '\t', '\r', '\n'}
  {
    if s != "" && IsSpace(s[0]) {
      var more := Skipped(s[1..]);
      gap := [s[0]] + more;
      assert s == [s[0]] + s[1..];
    } else {
      gap := "";
      assert "" + s == s;
    }
  }

  lemma GapDelimits(gap: string, rest: string)
    requires Blank(gap) && Delimited(rest)
    ensures Delimited(gap + rest)
  {
    if gap == "" {
      assert gap + rest == rest;
    } else {
      assert gap[0] in {' ', '\t', '\r', '\n'};
    }
  }

  // ---------- Strings ----------

  lemma {:induction false} PrefixSize(s: string, more: string)
    ensures Utf8Size(s) <= Utf8Size(s + more)
  {
    if more == "" {
      assert s + more == s;
    } else {
      var t := s + more;
      assert t[..|t| - 1] == s + more[..|more| - 1];
      PrefixSize(s, more[..|more| - 1]);
    }
  }

  lemma HexExact(c: char, n: nat)
    requires n < 16
    ensures HexDigit(c) == Some(n) <==> HexFor(c, n)
  {
  }

  lemma FourHexExact(digits: string, code: nat)
    requires |digits| == 4
    ensures HexValue(digits) == Some(code) <==> FourHexFor(digits, code)
  {
    hide HexFor, HexDigit;
    var a, b, c, d := HexDigit(digits[0]), HexDigit(digits[1]), HexDigit(digits[2]), HexDigit(digits[3]);
    if a.Some? && b.Some? && c.Some? && d.Some? {
      Base16(a.value, b.value, c.value, d.value, code);
    }
    if code < 0x1_0000 {
      HexExact(digits[0], code / 4096);
      HexExact(digits[1], code / 256 % 16);
      HexExact(digits[2], code / 16 % 16);
      HexExact(digits[3], code % 16);
      Base16(code / 4096, code / 256 % 16, code / 16 % 16, code % 16, code);
    }
  }

  lemma Base16(a: nat, b: nat, c: nat, d: nat, code: nat)
    requires a < 16 && b < 16 && c < 16 && d < 16
    ensures 4096 * a + 256 * b + 16 * c + d == code
       <==> a == code / 4096 && b == code / 256 % 16 && c == code / 16 % 16 && d == code % 16
  {
    OneDigit(16 * (16 * a + b) + c, d, code);
    OneDigit(16 * a + b, c, code / 16);
    OneDigit(a, b, code / 16 / 16);
    TwoOff(code);
  }

  lemma OneDigit(q: nat, r: nat, code: nat)
    requires r < 16
    ensures 16 * q + r == code <==> q == code / 16 && r == code % 16
  {
  }

  lemma TwoOff(code: nat)
    ensures code / 16 / 16 == code / 256 && code / 16 / 16 / 16 == code / 4096
  {
  }

  lemma ShortExact(letter: char, c: char)
    ensures SimpleEscape(letter) == Some(c) <==> ShortFor(letter, c as int)
    ensures SimpleEscape('u') == None
  {
  }

  /** The parser reads one character exactly from its spellings. */
  lemma OneCharExact(spelling: string, rest: string, c: char)
    ensures spelling != "" && spelling[0] != '\"' && OneChar(spelling + rest) == Ok((c, rest)) <==> Spells(spelling, c)
  {
    hide HexValue, FourHexFor, SimpleEscape, ShortFor;
    var s := spelling + rest;
    if spelling != "" {
      assert s[0] == spelling[0];
      if |spelling| > 1 { ShortExact(spelling[1], c); }
      if |spelling| == 6 { FourHexExact(spelling[2..], c as int); assert s[2..6] == spelling[2..]; }
      assert s[|spelling|..] == rest && |s| == |spelling| + |rest|;
    }
  }

  lemma {:induction false} SpelledRead(s: string, spelled: seq<string>, rest: string, limit: nat, found: string)
    requires QuotedOk(Quoted(s, spelled)) && Utf8Size(found) <= limit
    ensures Chars(WriteSpelled(spelled, "\"" + rest), limit, found)
         == if Utf8Size(found + s) <= limit then Ok((found + s, rest)) else Err(CapacityExceeded)
    decreases |s|
  {
    hide Spells, OneChar, Utf8Length;
    if s == "" {
      assert found + s == found && ("\"" + rest)[1..] == rest;
    } else {
      var tail := WriteSpelled(spelled[1..], "\"" + rest);
      OneCharExact(spelled[0], tail, s[0]);
      assert (spelled[0] + tail)[0] == spelled[0][0];
      var more := found + [s[0]];
      assert more + s[1..] == found + s;
      assert more[..|more| - 1] == found;
      PrefixSize(more, s[1..]);
      if Utf8Size(more) <= limit {
        SpelledRead(s[1..], spelled[1..], rest, limit, more);
      }
    }
  }

  /** However its characters are spelled, a string is read as itself, or refused for capacity when it is too long. */
  lemma QuotedRead(q: Quoted, rest: string, isKey: bool)
    requires QuotedOk(q)
    ensures StringToken(WriteQuoted(q, rest), isKey)
         == if Utf8Size(q.s) <= (if isKey then 128 else 4096) then Ok((q.s, rest)) else Err(CapacityExceeded)
  {
    assert WriteQuoted(q, rest)[1..] == WriteSpelled(q.spelled, "\"" + rest);
    assert "" + q.s == q.s;
    SpelledRead(q.s, q.spelled, rest, StringLimit(isKey), "");
  }

  lemma {:induction false} ReadSpelled(s: string, limit: nat, found: string) returns (q: Quoted)
    requires Chars(s, limit, found).Ok?
    ensures QuotedOk(q)
    ensures Chars(s, limit, found).value.0 == found + q.s
    ensures s == WriteSpelled(q.spelled, "\"" + Chars(s, limit, found).value.1)
    decreases |s|
  {
    hide Spells, OneChar, Utf8Length, Utf8Size;
    if s[0] == '\"' {
      q := Quoted("", []);
      assert s == "\"" + s[1..] && found + "" == found;
    } else {
      var (c, rest) := OneChar(s).value;
      var spelling := s[..|s| - |rest|];
      OneCharLeaves(s);
      OneCharExact(spelling, rest, c);
      var more := ReadSpelled(rest, limit, found + [c]);
      q := Quoted([c] + more.s, [spelling] + more.spelled);
      assert found + [c] + more.s == found + q.s;
      assert q.spelled[1..] == more.spelled;
      forall i | 0 <= i < |q.s| ensures Spells(q.spelled[i], q.s[i]) {
        if i > 0 { assert q.spelled[i] == more.spelled[i - 1] && q.s[i] == more.s[i - 1]; }
      }
    }
  }

  lemma OneCharLeaves(s: string)
    requires s != "" && OneChar(s).Ok?
    ensures var rest := OneChar(s).value.1; |rest| < |s| && s == s[..|s| - |rest|] + rest
  {
    hide HexValue, SimpleEscape;
  }

  /** And nothing else is read as a string. */
  lemma ReadQuoted(s: string, isKey: bool) returns (q: Quoted)
    requires s != "" && s[0] == '\"' && StringToken(s, isKey).Ok?
    ensures QuotedOk(q) && StringToken(s, isKey).value.0 == q.s
    ensures s == WriteQuoted(q, StringToken(s, isKey).value.1)
  {
    hide QuotedOk;
    q := ReadSpelled(s[1..], StringLimit(isKey), "");
    assert "" + q.s == q.s && s == "\"" + s[1..];
  }
}
