/**
  A printer for the trees the bounded JSON parser accepts: one layout of each, with the same white space everywhere.
  Parsing what it prints gives the tree back, or the capacity error when the tree has too many nodes.
*/
module JsonPrinter {
  import opened Common
  import opened BoundedJson
  import opened JsonGrammar
  import JsonReading

  // ---------- The printer ----------

  function HexChar(n: nat): char
    requires n < 16
  {
    "0123456789abcdef"[n]
  }

  function PrintChar(c: char): string {
    if c == '\"' then "\\\""
    else if c == '\\' then "\\\\"
    else if c as int < 0x20 then "\\u00" + [HexChar(c as int / 16), HexChar(c as int % 16)]
    else [c]
  }

  function PrintChars(s: string, rest: string): string {
    if s == "" then rest else PrintChar(s[0]) + PrintChars(s[1..], rest)
  }

  function PrintString(s: string, rest: string): string { "\"" + PrintChars(s, "\"" + rest) }

  /** The printed value followed by `rest`; `gap` is put at every place where the grammar allows white space. */
  function Print(v: Json, gap: string, rest: string): (text: string)
    decreases v, 0
  {
    match v
    case JNull => "null" + rest
    case JBool(b) => (if b then "true" else "false") + rest
    case JInt(n) => PrintInt(n, rest)
    case JString(s) => PrintString(s, rest)
    case JArray(items) => "[" + (gap + if items == [] then "]" + rest else PrintItems(items, gap, rest))
    case JObject(members) => "{" + (gap + if members == [] then "}" + rest else PrintMembers(members, gap, rest))
  }

  function PrintItems(items: seq<Json>, gap: string, rest: string): string
    requires items != []
    decreases items, 1
  {
    Print(items[0], gap, gap + if |items| == 1 then "]" + rest else "," + (gap + PrintItems(items[1..], gap, rest)))
  }

  function PrintMembers(members: seq<Member>, gap: string, rest: string): string
    requires members != []
    decreases members, 1
  {
    var after := if |members| == 1 then "}" + rest else "," + (gap + PrintMembers(members[1..], gap, rest));
    PrintString(members[0].key, gap + (":" + (gap + Print(members[0].value, gap, gap + after))))
  }

  function ItemTail(items: seq<Json>, gap: string, rest: string): string
    requires items != []
  {
    if |items| == 1 then "]" + rest else "," + (gap + PrintItems(items[1..], gap, rest))
  }

  lemma ItemsUnfold(items: seq<Json>, gap: string, rest: string)
    requires items != []
    ensures PrintItems(items, gap, rest) == Print(items[0], gap, gap + ItemTail(items, gap, rest))
  {
  }

  function MemberTail(members: seq<Member>, gap: string, rest: string): string
    requires members != []
  {
    if |members| == 1 then "}" + rest else "," + (gap + PrintMembers(members[1..], gap, rest))
  }

  lemma MembersUnfold(members: seq<Member>, gap: string, rest: string)
    requires members != []
    ensures PrintMembers(members, gap, rest)
         == PrintString(members[0].key,
                        gap + (":" + (gap + Print(members[0].value, gap, gap + MemberTail(members, gap, rest)))))
  {
  }

  // ---------- What is printed is a layout ----------

  function LaidString(s: string): Quoted { Quoted(s, seq(|s|, i requires 0 <= i < |s| => PrintChar(s[i]))) }

  function Laid(v: Json, gap: string): Layout
    decreases v, 0
  {
    match v
    case JNull => NullText
    case JBool(b) => BoolText(b)
    case JInt(n) => IntText(n)
    case JString(s) => StringText(LaidString(s))
    case JArray(items) => ArrayText(gap, LaidItems(items, gap))
    case JObject(members) => ObjectText(gap, LaidMembers(members, gap))
  }

  function LaidItems(items: seq<Json>, gap: string): seq<ItemText>
    decreases items, 0
  {
    if items == [] then [] else [ItemText(Laid(items[0], gap), gap, gap)] + LaidItems(items[1..], gap)
  }

  function LaidMembers(members: seq<Member>, gap: string): seq<MemberText>
    decreases members, 0
  {
    if members == [] then []
    else
      var m := members[0];
      [MemberText(LaidString(m.key), gap, gap, Laid(m.value, gap), gap, gap)] + LaidMembers(members[1..], gap)
  }

  lemma CharSpelled(c: char)
    ensures Spells(PrintChar(c), c)
  {
    if c != '\"' && c != '\\' && c as int < 0x20 {
      assert PrintChar(c)[2..] == ['0', '0', HexChar(c as int / 16), HexChar(c as int % 16)];
    }
  }

  lemma {:induction false} StringLaid(s: string, rest: string)
    ensures QuotedOk(LaidString(s)) && PrintChars(s, rest) == WriteSpelled(LaidString(s).spelled, rest)
  {
    hide Spells, PrintChar;
    forall i | 0 <= i < |s| ensures Spells(LaidString(s).spelled[i], s[i]) { CharSpelled(s[i]); }
    if s != "" {
      StringLaid(s[1..], rest);
      assert LaidString(s).spelled[1..] == LaidString(s[1..]).spelled;
    }
  }

  lemma {:induction false} PrintIsLaid(v: Json, gap: string, rest: string)
    requires Blank(gap)
    ensures LayoutOk(Laid(v, gap)) && Meaning(Laid(v, gap)) == v && Print(v, gap, rest) == Write(Laid(v, gap), rest)
    decreases v, 0
  {
    hide QuotedOk, PrintInt;
    match v
    case JString(s) => StringLaid(s, "\"" + rest);
    case JArray(items) => if items != [] { ItemsLaid(items, gap, rest); }
    case JObject(members) => if members != [] { MembersLaid(members, gap, rest); }
    case _ =>
  }

  lemma {:induction false} ItemsLaid(items: seq<Json>, gap: string, rest: string)
    requires items != [] && Blank(gap)
    ensures var laid := LaidItems(items, gap);
      && laid != [] && (forall i :: 0 <= i < |laid| ==> ItemOk(laid[i])) && ItemMeanings(laid) == items
      && PrintItems(items, gap, rest) == WriteItems(laid, rest)
    decreases items, 0
  {
    hide Print, Write, Laid, LayoutOk, Meaning;
    var first, laid := ItemText(Laid(items[0], gap), gap, gap), LaidItems(items, gap);
    var tail := ItemTail(items, gap, rest);
    PrintIsLaid(items[0], gap, gap + tail);
    assert ItemOk(first);
    assert laid == [first] + LaidItems(items[1..], gap) && laid[1..] == LaidItems(items[1..], gap);
    assert items == [items[0]] + items[1..];
    if |items| == 1 {
      assert items[1..] == [];
    } else {
      ItemsLaid(items[1..], gap, rest);
      assert forall i :: 0 < i < |laid| ==> laid[i] == laid[1..][i - 1];
    }
  }

  lemma {:induction false} MembersLaid(members: seq<Member>, gap: string, rest: string)
    requires members != [] && Blank(gap)
    ensures var laid := LaidMembers(members, gap);
      && laid != [] && (forall i :: 0 <= i < |laid| ==> MemberOk(laid[i])) && MemberMeanings(laid) == members
      && PrintMembers(members, gap, rest) == WriteMembers(laid, rest)
    decreases members, 0
  {
    hide Print, Write, Laid, LayoutOk, Meaning, WriteSpelled, PrintChars, QuotedOk;
    var m, laid := members[0], LaidMembers(members, gap);
    var first := MemberText(LaidString(m.key), gap, gap, Laid(m.value, gap), gap, gap);
    var tail := MemberTail(members, gap, rest);
    PrintIsLaid(m.value, gap, gap + tail);
    StringLaid(m.key, "\"" + (gap + (":" + (gap + Print(m.value, gap, gap + tail)))));
    assert MemberOk(first);
    assert laid == [first] + LaidMembers(members[1..], gap) && laid[1..] == LaidMembers(members[1..], gap);
    assert members == [m] + members[1..];
    if |members| == 1 {
      assert members[1..] == [];
    } else {
      MembersLaid(members[1..], gap, rest);
      assert forall i :: 0 < i < |laid| ==> laid[i] == laid[1..][i - 1];
    }
  }

  lemma PrintedText(v: Json, gap: string)
    requires Blank(gap)
    ensures LaysOut(gap + Print(v, gap, gap), v)
  {
    hide Print, Write, Laid, LayoutOk, Meaning;
    PrintIsLaid(v, gap, gap);
    assert Blank(gap) && LayoutOk(Laid(v, gap));
  }

  /** Parsing a printed tree gives the tree, or the capacity error exactly when it has too many nodes. */
  lemma ParsePrinted(v: Json, gap: string)
    requires Fits(v, 0, false) && Blank(gap)
    ensures Parse(gap + Print(v, gap, gap)) == if Nodes(v) <= MAX_NODES then Ok(v) else Err(CapacityExceeded)
  {
    hide Print, Write, Laid, LayoutOk, Meaning, Fits, Nodes, Proper, Bounded, Parse;
    FitsIs(v, 0, false);
    PrintIsLaid(v, gap, gap);
    JsonReading.LayoutParsed(gap, Laid(v, gap), gap);
  }
}
