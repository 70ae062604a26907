/** How many bytes a printed tree takes in UTF-8: a bound that follows the tree. */
module JsonSizes {
  import opened BoundedJson
  import opened Digits
  import opened JsonGrammar
  import opened JsonPrinter

  lemma {:induction false} SizeBound(s: string)
    ensures |s| <= Utf8Size(s) <= 4 * |s|
  {
    if s != "" { SizeBound(s[..|s| - 1]); }
  }

  /** The bytes of a code point as section 3 of RFC 3629 lays out its bits. */
  function Utf8Bytes(n: nat): seq<int> {
    if n < 0x80 then [n]
    else if n < 0x800 then [0xC0 + n / 64, 0x80 + n % 64]
    else if n < 0x1_0000 then [0xE0 + n / 4096, 0x80 + n / 64 % 64, 0x80 + n % 64]
    else [0xF0 + n / 262_144, 0x80 + n / 4096 % 64, 0x80 + n / 64 % 64, 0x80 + n % 64]
  }

  /** The bits of a leading byte that announces `length` bytes, and six bits of each byte after it. */
  function Utf8Code(bytes: seq<int>): int
    requires 1 <= |bytes| <= 4
  {
    match |bytes|
    case 1 => bytes[0]
    case 2 => (bytes[0] - 0xC0) * 64 + (bytes[1] - 0x80)
    case 3 => (bytes[0] - 0xE0) * 4096 + (bytes[1] - 0x80) * 64 + (bytes[2] - 0x80)
    case _ => (bytes[0] - 0xF0) * 262_144 + (bytes[1] - 0x80) * 4096 + (bytes[2] - 0x80) * 64 + (bytes[3] - 0x80)
  }

  lemma SixBits(n: nat)
    ensures n == n / 64 * 64 + n % 64 && n / 64 / 64 == n / 4096 && n / 4096 / 64 == n / 262_144
  {
  }

  /** A code point's length is that of its UTF-8 bytes, from which it is read back. */
  lemma CodeEncoded(n: nat)
    requires n < 0x11_0000
    ensures var bytes := Utf8Bytes(n);
      && |bytes| == (if n < 0x80 then 1 else if n < 0x800 then 2 else if n < 0x1_0000 then 3 else 4)
      && Utf8Code(bytes) == n && bytes[0] < 0xF8 && forall i :: 0 < i < |bytes| ==> 0x80 <= bytes[i] < 0xC0
  {
    SixBits(n);
    SixBits(n / 64);
    SixBits(n / 4096);
  }

  lemma CharEncoded(c: char)
    ensures Utf8Length(c) == |Utf8Bytes(c as int)| && Utf8Code(Utf8Bytes(c as int)) == c as int
  {
    CodeEncoded(c as int);
    hide Utf8Code;
  }

  lemma {:induction false} SizeJoined(a: string, b: string)
    ensures Utf8Size(a + b) == Utf8Size(a) + Utf8Size(b)
  {
    if b == "" {
      assert a + b == a;
    } else {
      var t := a + b;
      assert t[..|t| - 1] == a + b[..|b| - 1];
      SizeJoined(a, b[..|b| - 1]);
    }
  }

  lemma {:induction false} BlankSize(gap: string)
    requires Blank(gap)
    ensures Utf8Size(gap) == |gap|
  {
    if gap != "" { BlankSize(gap[..|gap| - 1]); }
  }

  // ---------- Room for a tree ----------

  function StringRoom(s: string): nat { Utf8Size(PrintString(s, "")) }

  /** Bytes that suffice for the printed value, `gap` of them at each place for white space. */
  function Room(v: Json, gap: nat): nat
    decreases v, 0
  {
    match v
    case JNull => 4
    case JBool(_) => 5
    case JInt(n) => Utf8Size(PrintInt(n, ""))
    case JString(s) => StringRoom(s)
    case JArray(items) => 2 + gap + ItemsRoom(items, gap)
    case JObject(members) => 2 + gap + MembersRoom(members, gap)
  }

  function ItemsRoom(items: seq<Json>, gap: nat): nat
    decreases items, 1
  {
    if items == [] then 0 else Room(items[0], gap) + 2 * gap + 1 + ItemsRoom(items[1..], gap)
  }

  function MembersRoom(members: seq<Member>, gap: nat): nat
    decreases members, 1
  {
    if members == [] then 0
    else StringRoom(members[0].key) + Room(members[0].value, gap) + 4 * gap + 2 + MembersRoom(members[1..], gap)
  }

  // ---------- Pieces ----------

  /** A text of one-byte characters adds its length. */
  lemma {:induction false} Joins(token: string, rest: string)
    requires forall i :: 0 <= i < |token| ==> token[i] as int < 0x80
    ensures Utf8Size(token + rest) == |token| + Utf8Size(rest)
  {
    if token == "" {
      assert token + rest == rest;
    } else {
      assert token + rest == [token[0]] + (token[1..] + rest);
      SizeJoined([token[0]], token[1..] + rest);
      assert [token[0]][..0] == "" && Utf8Size([token[0]]) == 1;
      Joins(token[1..], rest);
    }
  }

  lemma CharRoom(c: char)
    ensures Utf8Size(PrintChar(c)) <= 6
  {
    if c == '\"' || c == '\\' || c as int < 0x20 {
      assert PrintChar(c) + "" == PrintChar(c);
      Joins(PrintChar(c), "");
    } else {
      SizeBound([c]);
    }
  }

  /** A character that is printed as itself, in one byte. */
  predicate PlainChar(c: char) { 0x20 <= c as int < 0x80 && c != '\"' && c != '\\' }

  predicate PlainText(s: string) { forall i :: 0 <= i < |s| ==> PlainChar(s[i]) }

  lemma PlainCharRoom(c: char)
    requires PlainChar(c)
    ensures Utf8Size(PrintChar(c)) == 1
  {
    assert [c][..0] == "";
  }

  /** A character is printed in at most six bytes. */
  lemma {:induction false} CharsRoom(s: string, rest: string)
    ensures Utf8Size(PrintChars(s, rest)) <= 6 * |s| + Utf8Size(rest)
    ensures PlainText(s) ==> Utf8Size(PrintChars(s, rest)) == |s| + Utf8Size(rest)
  {
    hide PrintChar, Utf8Size, PlainChar;
    if s != "" {
      CharRoom(s[0]);
      if PlainChar(s[0]) { PlainCharRoom(s[0]); }
      SizeJoined(PrintChar(s[0]), PrintChars(s[1..], rest));
      CharsRoom(s[1..], rest);
    }
  }

  lemma {:induction false} CharsThenRest(s: string, rest: string, more: string)
    ensures Utf8Size(PrintChars(s, rest + more)) == Utf8Size(PrintChars(s, rest)) + Utf8Size(more)
  {
    hide PrintChar, Utf8Size;
    if s == "" {
      SizeJoined(rest, more);
    } else {
      SizeJoined(PrintChar(s[0]), PrintChars(s[1..], rest + more));
      SizeJoined(PrintChar(s[0]), PrintChars(s[1..], rest));
      CharsThenRest(s[1..], rest, more);
    }
  }

  lemma StringFits(s: string, rest: string)
    ensures Utf8Size(PrintString(s, rest)) == StringRoom(s) + Utf8Size(rest)
  {
    hide PrintChars, Utf8Size;
    assert "\"" + "" == "\"";
    Joins("\"", PrintChars(s, "\"" + rest));
    Joins("\"", PrintChars(s, "\"" + ""));
    CharsThenRest(s, "\"", rest);
  }

  lemma StringRoomIs(s: string)
    ensures StringRoom(s) <= 6 * |s| + 2
    ensures PlainText(s) ==> StringRoom(s) == |s| + 2
  {
    hide PrintChars, Utf8Size, PlainText;
    Joins("\"", PrintChars(s, "\"" + ""));
    CharsRoom(s, "\"" + "");
    Joins("\"", "");
    assert Utf8Size("") == 0 by { NothingSized(""); }
  }

  lemma NothingSized(s: string)
    requires s == ""
    ensures Utf8Size(s) == 0
  {
  }

  lemma IntFits(n: int, rest: string)
    ensures Utf8Size(PrintInt(n, rest)) == Utf8Size(PrintInt(n, "")) + Utf8Size(rest)
  {
    hide PrintNat, Utf8Size;
    var digits := PrintNat(if n < 0 then -n else n);
    SizeJoined(digits, rest);
    assert digits + "" == digits;
    if n < 0 {
      SizeJoined("-", digits + rest);
      SizeJoined("-", digits);
    }
  }

  // ---------- Trees ----------

  lemma {:induction false} TextFits(v: Json, gap: string, rest: string)
    ensures Utf8Size(Print(v, gap, rest)) <= Room(v, Utf8Size(gap)) + Utf8Size(rest)
    decreases v, 0
  {
    hide PrintInt, PrintString, PrintItems, PrintMembers, ItemsRoom, MembersRoom, Utf8Size, StringRoom;
    match v
    case JNull => Joins("null", rest);
    case JBool(b) => Joins(if b then "true" else "false", rest);
    case JInt(n) => IntFits(n, rest);
    case JString(s) => StringFits(s, rest);
    case JArray(items) =>
      var after := if items == [] then "]" + rest else PrintItems(items, gap, rest);
      Joins("[", gap + after);
      SizeJoined(gap, after);
      if items == [] { Joins("]", rest); } else { ItemsTextFits(items, gap, rest); }
    case JObject(members) =>
      var after := if members == [] then "}" + rest else PrintMembers(members, gap, rest);
      Joins("{", gap + after);
      SizeJoined(gap, after);
      if members == [] { Joins("}", rest); } else { MembersTextFits(members, gap, rest); }
  }

  lemma {:induction false} ItemsTextFits(items: seq<Json>, gap: string, rest: string)
    requires items != []
    ensures Utf8Size(PrintItems(items, gap, rest)) <= ItemsRoom(items, Utf8Size(gap)) + 1 + Utf8Size(rest)
    decreases items, 1
  {
    hide Print, Room, Utf8Size, PrintItems;
    var tail := ItemTail(items, gap, rest);
    ItemsUnfold(items, gap, rest);
    TextFits(items[0], gap, gap + tail);
    SizeJoined(gap, tail);
    if |items| == 1 {
      Joins("]", rest);
    } else {
      var more := PrintItems(items[1..], gap, rest);
      Joins(",", gap + more);
      SizeJoined(gap, more);
      ItemsTextFits(items[1..], gap, rest);
    }
  }

  lemma {:induction false} MembersTextFits(members: seq<Member>, gap: string, rest: string)
    requires members != []
    ensures Utf8Size(PrintMembers(members, gap, rest)) <= MembersRoom(members, Utf8Size(gap)) + 1 + Utf8Size(rest)
    decreases members, 1
  {
    hide Print, Room, Utf8Size, PrintMembers, PrintString, StringRoom;
    var m, tail := members[0], MemberTail(members, gap, rest);
    var value := Print(m.value, gap, gap + tail);
    MembersUnfold(members, gap, rest);
    StringFits(m.key, gap + (":" + (gap + value)));
    SizeJoined(gap, ":" + (gap + value));
    Joins(":", gap + value);
    SizeJoined(gap, value);
    TextFits(m.value, gap, gap + tail);
    SizeJoined(gap, tail);
    if |members| == 1 {
      Joins("}", rest);
    } else {
      var more := PrintMembers(members[1..], gap, rest);
      Joins(",", gap + more);
      SizeJoined(gap, more);
      MembersTextFits(members[1..], gap, rest);
    }
  }
}
