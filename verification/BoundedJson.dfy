/**
  The bounded JSON grammar of inci_tennis_adapters/kalshi_candidate.py (_BoundedJsonParser),
  as functions from what is left of the text to a value and what is left after it.

  Text is already decoded from UTF-8; a char is one Unicode scalar value.
*/
module BoundedJson {
  import opened Common
  import opened Digits

  const MAX_DEPTH: nat := 16
  const MAX_NODES: nat := 8192
  const MAX_KEY_BYTES: nat := 128
  const MAX_STRING_BYTES: nat := 4096
  const MAX_DIGITS: nat := 19

  datatype Reason = PayloadInvalid | CapacityExceeded

  datatype Json =
    | JNull
    | JBool(b: bool)
    | JInt(n: int)
    | JString(s: string)
    | JArray(items: seq<Json>)
    | JObject(members: seq<Member>)

  /** An object keeps its members in the order they were inserted. */
  datatype Member = Member(key: string, value: Json)

  /** A value, the text after it and the nodes counted so far. */
  datatype Parsed<+T> = Parsed(value: T, rest: string, nodes: nat)

  // ---------- Characters ----------

  predicate IsSpace(c: char) { c == ' ' || c == '\t' || c == '\r' || c == '\n' }

  /** What may follow a literal or a number. */
  predicate Delimiter(c: char) { IsSpace(c) || c == ',' || c == ']' || c == '}' }

  predicate Peek(s: string, c: char) { s != "" && s[0] == c }

  predicate Delimited(s: string) { s == "" || Delimiter(s[0]) }

  function SkipSpace(s: string): (r: string)
    ensures |r| <= |s|
    ensures r == "" || !IsSpace(r[0])
  {
    if s != "" && IsSpace(s[0]) then SkipSpace(s[1..]) else s
  }

  function Utf8Length(c: char): nat {
    var n := c as int;
    if n < 0x80 then 1 else if n < 0x800 then 2 else if n < 0x1_0000 then 3 else 4
  }

  function Utf8Size(s: string): nat {
    if s == "" then 0 else Utf8Size(s[..|s| - 1]) + Utf8Length(s[|s| - 1])
  }

  // ---------- Strings ----------

  function SimpleEscape(c: char): Option<char> {
    match c
    case '\"' => Some('\"')
    case '\\' => Some('\\')
    case '/' => Some('/')
    case 'b' => Some('\U{8}')
    case 'f' => Some('\U{C}')
    case 'n' => Some('\n')
    case 'r' => Some('\r')
    case 't' => Some('\t')
    case _ => None
  }

  function HexDigit(c: char): (r: Option<nat>)
    ensures r.Some? ==> r.value < 16
  {
    if '0' <= c <= '9' then Some(c as int - '0' as int)
    else if 'a' <= c <= 'f' then Some(c as int - 'a' as int + 10)
    else if 'A' <= c <= 'F' then Some(c as int - 'A' as int + 10)
    else None
  }

  /** Four hexadecimal digits as a code point; None if one is not a digit. */
  function HexValue(s: string): (r: Option<nat>)
    requires |s| == 4
    ensures r.Some? ==> r.value < 0x1_0000
  {
    var a, b, c, d := HexDigit(s[0]), HexDigit(s[1]), HexDigit(s[2]), HexDigit(s[3]);
    if a.None? || b.None? || c.None? || d.None? then None
    else Some(4096 * a.value + 256 * b.value + 16 * c.value + d.value)
  }

  /** One character of a string's inside, escaped or plain. */
  function OneChar(s: string): (r: Result<(char, string), Reason>)
    requires s != ""
    ensures r.Ok? ==> |r.value.1| < |s|
  {
    if s[0] == '\\' then
      if |s| < 2 then Err(PayloadInvalid)
      else
        var mapped := SimpleEscape(s[1]);
        if mapped.Some? then Ok((mapped.value, s[2..]))
        else if s[1] != 'u' || |s| < 6 then Err(PayloadInvalid)
        else
          var codepoint := HexValue(s[2..6]);
          if codepoint.None? || 0xD800 <= codepoint.value <= 0xDFFF then Err(PayloadInvalid)
          else Ok((codepoint.value as char, s[6..]))
    else if s[0] as int < 0x20 then Err(PayloadInvalid)
    else Ok((s[0], s[1..]))
  }

  /** The rest of a string's inside up to its closing quote, after `found`. */
  function Chars(s: string, limit: nat, found: string): (r: Result<(string, string), Reason>)
    ensures r.Ok? ==> |r.value.1| < |s|
    decreases |s|
  {
    if s == "" then Err(PayloadInvalid)
    else if s[0] == '\"' then Ok((found, s[1..]))
    else
      var (c, rest) :- OneChar(s);
      if Utf8Size(found) + Utf8Length(c) > limit then Err(CapacityExceeded)
      else Chars(rest, limit, found + [c])
  }

  function StringLimit(isKey: bool): nat { if isKey then MAX_KEY_BYTES else MAX_STRING_BYTES }

  /** A string whose opening quote has been seen. */
  function StringToken(s: string, isKey: bool): (r: Result<(string, string), Reason>)
    requires s != ""
    ensures r.Ok? ==> |r.value.1| < |s|
  {
    Chars(s[1..], StringLimit(isKey), "")
  }

  // ---------- Integers ----------

  /** How many digits the scan takes, given the first and how many it already has. */
  function ScanDigits(s: string, first: char, count: nat): (r: Result<nat, Reason>)
    ensures r.Ok? ==>
      count <= r.value && r.value - count <= |s| && r.value <= if count > MAX_DIGITS then count else MAX_DIGITS
    ensures r.Ok? ==> forall i :: 0 <= i < r.value - count ==> IsDigit(s[i])
    decreases |s|
  {
    if s == "" then Ok(count)
    else if !IsDigit(s[0]) then if Delimiter(s[0]) then Ok(count) else Err(PayloadInvalid)
    else if count + 1 > MAX_DIGITS then Err(CapacityExceeded)
    else if first == '0' && count + 1 > 1 then Err(PayloadInvalid)
    else ScanDigits(s[1..], first, count + 1)
  }

  function IntegerToken(s: string): (r: Result<(int, string), Reason>)
    ensures r.Ok? ==> |r.value.1| < |s|
    ensures r.Ok? ==> -MAX_SIGNED_64 - 1 <= r.value.0 <= MAX_SIGNED_64
  {
    var negative := Peek(s, '-');
    var t := if negative then s[1..] else s;
    if t == "" || !IsDigit(t[0]) then Err(PayloadInvalid)
    else
      var count :- ScanDigits(t, t[0], 0);
      if count == 0 || (negative && t[0] == '0') then Err(PayloadInvalid)
      else
        var n := if negative then -(Number(t[..count]) as int) else Number(t[..count]);
        if n < -MAX_SIGNED_64 - 1 || n > MAX_SIGNED_64 then Err(PayloadInvalid) else Ok((n, t[count..]))
  }

  // ---------- Values ----------

  function CountNode(nodes: nat): Result<nat, Reason> {
    if nodes >= MAX_NODES then Err(CapacityExceeded) else Ok(nodes + 1)
  }

  /** `_consume`: the token, then the end or a delimiter. */
  predicate Consumes(s: string, token: string) { token <= s && Delimited(s[|token|..]) }

  function HasKey(members: seq<Member>, key: string): bool {
    exists i :: 0 <= i < |members| && members[i].key == key
  }

  function Value(s: string, nodes: nat, depth: nat, allowBoolean: bool): (r: Result<Parsed<Json>, Reason>)
    ensures r.Ok? ==> |r.value.rest| < |s|
    decreases |s|, 2
  {
    if s == "" then Err(PayloadInvalid)
    else if s[0] == '{' then Object(s, nodes, depth)
    else if s[0] == '[' then Array(s, nodes, depth)
    else
      var nodes :- CountNode(nodes);
      if s[0] == '\"' then
        var (text, rest) :- StringToken(s, false);
        Ok(Parsed(JString(text), rest, nodes))
      else if s[0] == 't' && Consumes(s, "true") then
        if allowBoolean then Ok(Parsed(JBool(true), s[4..], nodes)) else Err(PayloadInvalid)
      else if s[0] == 'f' && Consumes(s, "false") then
        if allowBoolean then Ok(Parsed(JBool(false), s[5..], nodes)) else Err(PayloadInvalid)
      else if s[0] == 'n' && Consumes(s, "null") then Ok(Parsed(JNull, s[4..], nodes))
      else
        var (n, rest) :- IntegerToken(s);
        Ok(Parsed(JInt(n), rest, nodes))
  }

  function Object(s: string, nodes: nat, depth: nat): (r: Result<Parsed<Json>, Reason>)
    requires s != ""
    ensures r.Ok? ==> |r.value.rest| < |s|
    decreases |s|, 1
  {
    if depth > MAX_DEPTH then Err(CapacityExceeded)
    else
      var nodes :- CountNode(nodes);
      var t := SkipSpace(s[1..]);
      if Peek(t, '}') then Ok(Parsed(JObject([]), t[1..], nodes))
      else Members(t, nodes, depth, [])
  }

  /** A key that is not among those found, and the text of its value. */
  function KeyPart(s: string, nodes: nat, found: seq<Member>): (r: Result<(string, string), Reason>)
    ensures r.Ok? ==> |r.value.1| < |s|
  {
    if !Peek(s, '\"') then Err(PayloadInvalid)
    else
      var _ :- CountNode(nodes);
      var (key, afterKey) :- StringToken(s, true);
      if HasKey(found, key) then Err(PayloadInvalid)
      else
        var colon := SkipSpace(afterKey);
        if !Peek(colon, ':') then Err(PayloadInvalid) else Ok((key, SkipSpace(colon[1..])))
  }

  /** The members from here on, after the members `found`. */
  function Members(s: string, nodes: nat, depth: nat, found: seq<Member>): (r: Result<Parsed<Json>, Reason>)
    ensures r.Ok? ==> |r.value.rest| < |s|
    decreases |s|, 0
  {
    var (key, text) :- KeyPart(s, nodes, found);
    var v :- Value(text, nodes + 1, depth + 1, depth == 0 && key == "complete");
    AfterValue(v, depth, found, key)
  }

  /** What separates a member from the next, or ends the object. */
  function AfterValue(v: Parsed<Json>, depth: nat, found: seq<Member>, key: string): (r: Result<Parsed<Json>, Reason>)
    ensures r.Ok? ==> |r.value.rest| <= |v.rest|
    decreases |v.rest|, 4
  {
    var next := SkipSpace(v.rest);
    var more := found + [Member(key, v.value)];
    if Peek(next, '}') then Ok(Parsed(JObject(more), next[1..], v.nodes))
    else if !Peek(next, ',') then Err(PayloadInvalid)
    else Members(SkipSpace(next[1..]), v.nodes, depth, more)
  }

  function Array(s: string, nodes: nat, depth: nat): (r: Result<Parsed<Json>, Reason>)
    requires s != ""
    ensures r.Ok? ==> |r.value.rest| < |s|
    decreases |s|, 1
  {
    if depth > MAX_DEPTH then Err(CapacityExceeded)
    else
      var nodes :- CountNode(nodes);
      var t := SkipSpace(s[1..]);
      if Peek(t, ']') then Ok(Parsed(JArray([]), t[1..], nodes))
      else Items(t, nodes, depth, [])
  }

  function Items(s: string, nodes: nat, depth: nat, found: seq<Json>): (r: Result<Parsed<Json>, Reason>)
    ensures r.Ok? ==> |r.value.rest| < |s|
    decreases |s|, 3
  {
    var v :- Value(s, nodes, depth + 1, false);
    var next := SkipSpace(v.rest);
    var more := found + [v.value];
    if Peek(next, ']') then Ok(Parsed(JArray(more), next[1..], v.nodes))
    else if !Peek(next, ',') then Err(PayloadInvalid)
    else Items(SkipSpace(next[1..]), v.nodes, depth, more)
  }

  function Parse(text: string): Result<Json, Reason> {
    var v :- Value(SkipSpace(text), 0, 0, false);
    if SkipSpace(v.rest) != "" then Err(PayloadInvalid) else Ok(v.value)
  }

  /**
    A payload as the UTF-8 decoder leaves it: its text, or its valid prefix and the number of bytes from the
    first bad one on.
  */
  datatype Decoded = Text(text: string) | BadUtf8(prefix: string, undecoded: nat)

  /** The payload's length in bytes. */
  function ByteCount(payload: Decoded): nat {
    match payload
    case Text(text) => Utf8Size(text)
    case BadUtf8(prefix, undecoded) => Utf8Size(prefix) + undecoded
  }

  /** Undecodable bytes are invalid unless the text before them already exceeds a capacity. */
  function ParsePayload(payload: Decoded): Result<Json, Reason> {
    match payload
    case BadUtf8(prefix, _) =>
      if Parse(prefix) == Err(CapacityExceeded) then Err(CapacityExceeded) else Err(PayloadInvalid)
    case Text(text) =>
      if Peek(text, '\U{FEFF}') then Err(PayloadInvalid) else Parse(text)
  }

  // ---------- What a parsed value is ----------

  predicate DistinctKeys(members: seq<Member>) {
    forall i, j :: 0 <= i < j < |members| ==> members[i].key != members[j].key
  }

  /** A value within the depth, string, key and integer limits, with a boolean only where it may stand. */
  predicate Fits(v: Json, depth: nat, allowBoolean: bool)
    decreases v, 1
  {
    match v
    case JNull => true
    case JBool(_) => allowBoolean
    case JInt(n) => -MAX_SIGNED_64 - 1 <= n <= MAX_SIGNED_64
    case JString(s) => Utf8Size(s) <= MAX_STRING_BYTES
    case JArray(items) =>
      depth <= MAX_DEPTH && forall i :: 0 <= i < |items| ==> Fits(items[i], depth + 1, false)
    case JObject(members) =>
      depth <= MAX_DEPTH && DistinctKeys(members) && forall i :: 0 <= i < |members| ==> MemberFits(members[i], depth)
  }

  predicate MemberFits(m: Member, depth: nat)
    decreases m, 0
  {
    Utf8Size(m.key) <= MAX_KEY_BYTES && Fits(m.value, depth + 1, depth == 0 && m.key == "complete")
  }

  /** The nodes a value costs: itself, its keys and what is inside it. */
  function Nodes(v: Json): (n: nat)
    ensures n > 0
    decreases v, 0
  {
    match v
    case JArray(items) => 1 + ItemNodes(items)
    case JObject(members) => 1 + MemberNodes(members)
    case _ => 1
  }

  function ItemNodes(items: seq<Json>): nat
    decreases items, 0
  {
    if items == [] then 0 else Nodes(items[0]) + ItemNodes(items[1..])
  }

  function MemberNodes(members: seq<Member>): nat
    decreases members, 0
  {
    if members == [] then 0 else 1 + Nodes(members[0].value) + MemberNodes(members[1..])
  }
}
