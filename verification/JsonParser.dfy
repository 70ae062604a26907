/**
  _BoundedJsonParser of inci_tennis_adapters/kalshi_candidate.py as the source writes it: an object
  that moves an index over its text and counts nodes. Every method is proved to compute the grammar
  function of module BoundedJson on the text that is left.
*/
module JsonParser {
  import opened Common
  import opened Digits
  import opened BoundedJson
  import opened JsonGrammar

  // ---------- One step of the grammar ----------

  lemma MembersSplit(s: string, nodes: nat, depth: nat, found: seq<Member>)
    ensures Members(s, nodes, depth, found) == (
      var (key, t) :- KeyPart(s, nodes, found);
      var v :- Value(t, nodes + 1, depth + 1, depth == 0 && key == "complete");
      AfterValue(v, depth, found, key))
  {
    hide KeyPart, AfterValue, Value;
  }

  lemma ItemsSplit(s: string, nodes: nat, depth: nat, found: seq<Json>)
    ensures Items(s, nodes, depth, found) == (
      var v :- Value(s, nodes, depth + 1, false);
      var next := SkipSpace(v.rest);
      var more := found + [v.value];
      if Peek(next, ']') then Ok(Parsed(JArray(more), next[1..], v.nodes))
      else if !Peek(next, ',') then Err(PayloadInvalid)
      else Items(SkipSpace(next[1..]), v.nodes, depth, more))
  {
  }

  lemma EmptySize()
    ensures Utf8Size("") == 0
  {
  }

  lemma MoreSize(s: string, c: char)
    ensures Utf8Size(s + [c]) == Utf8Size(s) + Utf8Length(c)
  {
    assert (s + [c])[..|s|] == s;
  }

  /** One round of the string loop. */
  lemma CharsStep(s: string, limit: nat, found: string)
    ensures s == "" ==> Chars(s, limit, found) == Err(PayloadInvalid)
    ensures s != "" && s[0] == '\"' ==> Chars(s, limit, found) == Ok((found, s[1..]))
    ensures s != "" && s[0] != '\"' && OneChar(s).Err? ==> Chars(s, limit, found) == Err(OneChar(s).error)
    ensures s != "" && s[0] != '\"' && OneChar(s).Ok? ==>
      var (c, rest) := OneChar(s).value;
      Chars(s, limit, found)
      == if Utf8Size(found) + Utf8Length(c) > limit then Err(CapacityExceeded) else Chars(rest, limit, found + [c])
  {
    hide Utf8Size, Utf8Length, OneChar;
  }

  lemma Slices(s: string, i: nat, count: nat)
    requires i + count <= |s|
    ensures s[i..][..count] == s[i..i + count] && s[i..][count..] == s[i + count..]
  {
  }

  class BoundedJsonParser {
    const text: string
    var index: nat
    var nodes: nat

    ghost predicate Valid()
      reads this
    {
      index <= |text| && nodes <= MAX_NODES
    }

    ghost function Rest(): string
      reads this
      requires Valid()
    {
      text[index..]
    }

    /** The outcome of the grammar function: its error, or its value with the text it leaves. */
    ghost predicate Token<T>(spec: Result<(T, string), Reason>, r: Result<T, Reason>)
      reads this
      requires Valid()
    {
      if spec.Err? then r == Err(spec.error) else r == Ok(spec.value.0) && Rest() == spec.value.1
    }

    ghost predicate Parses(spec: Result<Parsed<Json>, Reason>, r: Result<Json, Reason>)
      reads this
      requires Valid()
    {
      if spec.Err? then r == Err(spec.error)
      else r == Ok(spec.value.value) && Rest() == spec.value.rest && nodes == spec.value.nodes
    }

    constructor (text: string)
      ensures Valid() && this.text == text && index == 0 && nodes == 0
    {
      this.text := text;
      index := 0;
      nodes := 0;
    }

    method CountNode() returns (r: Result<(), Reason>)
      requires Valid()
      modifies `nodes
      ensures Valid()
      ensures old(nodes) < MAX_NODES ==> r == Ok(()) && nodes == old(nodes) + 1
      ensures old(nodes) == MAX_NODES ==> r == Err(CapacityExceeded)
    {
      if nodes >= MAX_NODES { return Err(CapacityExceeded); }
      nodes := nodes + 1;
      return Ok(());
    }

    method Space()
      requires Valid()
      modifies `index
      ensures Valid() && old(index) <= index && Rest() == SkipSpace(old(Rest()))
      ensures Blank(text[old(index)..index])
      ensures index < |text| ==> text[index] !in {' ', '\t', '\r', '\n'}
    {
      while index < |text| && IsSpace(text[index])
        invariant Valid() && old(index) <= index && SkipSpace(Rest()) == SkipSpace(old(Rest()))
        invariant Blank(text[old(index)..index])
        decreases |text| - index
      {
        ghost var gap := text[old(index)..index];
        BlankMore(gap, text[index]);
        Advance();
        assert text[old(index)..index] == gap + [text[index - 1]];
      }
    }

    method Advance()
      requires Valid() && index < |text|
      modifies `index
      ensures Valid() && index == old(index) + 1 && Rest() == old(Rest())[1..]
    {
      index := index + 1;
    }

    method PeekChar(c: char) returns (found: bool)
      requires Valid()
      ensures found == Peek(Rest(), c)
    {
      found := index < |text| && text[index] == c;
    }

    method Consume(token: string) returns (found: bool)
      requires Valid()
      modifies `index
      ensures Valid() && found == Consumes(old(Rest()), token)
      ensures index == if found then old(index) + |token| else old(index)
    {
      var end := index + |token|;
      if end > |text| || text[index..end] != token { return false; }
      if end < |text| && !Delimiter(text[end]) { return false; }
      index := end;
      return true;
    }

    /** The character after a backslash, or the four digits of a \u escape. */
    method Escape() returns (r: Result<char, Reason>)
      requires Valid() && index < |text| && text[index] == '\\'
      modifies `index
      ensures Valid() && old(index) < index
      ensures Token(OneChar(old(Rest())), r)
    {
      index := index + 1;
      if index >= |text| { return Err(PayloadInvalid); }
      var escape := text[index];
      var mapped := SimpleEscape(escape);
      if mapped.None? {
        if escape != 'u' { return Err(PayloadInvalid); }
        var end := index + 5;
        if end > |text| { return Err(PayloadInvalid); }
        assert old(Rest())[2..6] == text[index + 1..end];
        var codepoint := HexValue(text[index + 1..end]);
        if codepoint.None? || 0xD800 <= codepoint.value <= 0xDFFF { return Err(PayloadInvalid); }
        index := end;
        assert old(Rest())[6..] == Rest();
        return Ok(codepoint.value as char);
      } else {
        index := index + 1;
        assert old(Rest())[2..] == Rest();
        return Ok(mapped.value);
      }
    }

    /** One character of a string's inside. */
    method ReadChar() returns (r: Result<char, Reason>)
      requires Valid() && index < |text|
      modifies `index
      ensures Valid() && old(index) < index
      ensures Token(OneChar(old(Rest())), r)
    {
      if text[index] == '\\' {
        r := Escape();
      } else {
        r := if text[index] as int < 0x20 then Err(PayloadInvalid) else Ok(text[index]);
        Advance();
      }
    }

    method ReadString(isKey: bool) returns (r: Result<string, Reason>)
      requires Valid() && index < |text|
      modifies `index
      ensures Valid() && old(index) < index
      ensures Token(StringToken(old(Rest()), isKey), r)
    {
      Advance();
      var characters := "";
      var byteLength := 0;
      var limit := StringLimit(isKey);
      hide Chars, OneChar, Utf8Length, Utf8Size;
      assert byteLength == Utf8Size(characters) by { EmptySize(); }
      while index < |text|
        invariant Valid() && old(index) < index && byteLength == Utf8Size(characters)
        invariant Chars(Rest(), limit, characters) == StringToken(old(Rest()), isKey)
        decreases |text| - index
      {
        CharsStep(Rest(), limit, characters);
        if text[index] == '\"' {
          Advance();
          return Ok(characters);
        }
        var next :- ReadChar();
        MoreSize(characters, next);
        byteLength := byteLength + Utf8Length(next);
        if byteLength > limit { return Err(CapacityExceeded); }
        characters := characters + [next];
      }
      assert Rest() == "";
      CharsStep("", limit, characters);
      return Err(PayloadInvalid);
    }

    /** The loop of `_integer`: the run of digits at the index. */
    method ScanRun(first: char) returns (r: Result<nat, Reason>)
      requires Valid()
      modifies `index
      ensures Valid() && old(index) <= index
      ensures r == ScanDigits(old(Rest()), first, 0)
      ensures r.Ok? ==> index == old(index) + r.value
    {
      var count := 0;
      while index < |text|
        invariant Valid() && old(index) <= index && count == index - old(index)
        invariant ScanDigits(Rest(), first, count) == ScanDigits(old(Rest()), first, 0)
        decreases |text| - index
      {
        if !IsDigit(text[index]) {
          if !Delimiter(text[index]) { return Err(PayloadInvalid); }
          break;
        }
        if count + 1 > MAX_DIGITS { return Err(CapacityExceeded); }
        if first == '0' && count + 1 > 1 { return Err(PayloadInvalid); }
        assert Rest()[1..] == text[index + 1..];
        count := count + 1;
        index := index + 1;
      }
      return Ok(count);
    }

    method ReadInteger() returns (r: Result<int, Reason>)
      requires Valid()
      modifies `index
      ensures Valid() && old(index) <= index && (r.Ok? ==> old(index) < index)
      ensures Token(IntegerToken(old(Rest())), r)
    {
      var negative := PeekChar('-');
      if negative {
        Advance();
      }
      if index >= |text| || !IsDigit(text[index]) { return Err(PayloadInvalid); }
      var start := index;
      ghost var digits := Rest();
      var count :- ScanRun(text[index]);
      Slices(text, start, count);
      if count == 0 || (negative && text[start] == '0') { return Err(PayloadInvalid); }
      var value: int := Number(text[start..index]);
      if negative { value := -value; }
      if value < -MAX_SIGNED_64 - 1 || value > MAX_SIGNED_64 { return Err(PayloadInvalid); }
      return Ok(value);
    }

    method ReadValue(depth: nat, allowBoolean: bool) returns (r: Result<Json, Reason>)
      requires Valid()
      modifies this
      ensures Valid() && old(index) <= index && (r.Ok? ==> old(index) < index)
      ensures Parses(Value(old(Rest()), old(nodes), depth, allowBoolean), r)
      decreases |text| - index, 2
    {
      if index >= |text| { return Err(PayloadInvalid); }
      var c := text[index];
      if c == '{' {
        r := ReadObject(depth);
        return;
      }
      if c == '[' {
        r := ReadArray(depth);
        return;
      }
      r := ReadScalar(allowBoolean);
    }

    /** The rest of `_value`, for what is neither an object nor an array. */
    method ReadScalar(allowBoolean: bool) returns (r: Result<Json, Reason>)
      requires Valid() && index < |text| && text[index] != '{' && text[index] != '['
      modifies this
      ensures Valid() && old(index) <= index && (r.Ok? ==> old(index) < index)
      ensures Parses(Value(old(Rest()), old(nodes), 0, allowBoolean), r)
    {
      hide StringToken, IntegerToken, Consumes;
      var c := text[index];
      var _ :- CountNode();
      if c == '\"' {
        var s :- ReadString(false);
        return Ok(JString(s));
      }
      ghost var s := Rest();
      if c == 't' {
        var found := Consume("true");
        if found {
          assert Rest() == s[4..];
          if !allowBoolean { return Err(PayloadInvalid); }
          return Ok(JBool(true));
        }
      }
      if c == 'f' {
        var found := Consume("false");
        if found {
          assert Rest() == s[5..];
          if !allowBoolean { return Err(PayloadInvalid); }
          return Ok(JBool(false));
        }
      }
      if c == 'n' {
        var found := Consume("null");
        if found {
          assert Rest() == s[4..];
          return Ok(JNull);
        }
      }
      var n :- ReadInteger();
      return Ok(JInt(n));
    }

    method ReadObject(depth: nat) returns (r: Result<Json, Reason>)
      requires Valid() && index < |text|
      modifies this
      ensures Valid() && old(index) <= index && (r.Ok? ==> old(index) < index)
      ensures Parses(Object(old(Rest()), old(nodes), depth), r)
      decreases |text| - index, 1
    {
      hide Members, Value;
      if depth > MAX_DEPTH { return Err(CapacityExceeded); }
      var _ :- CountNode();
      Advance();
      Space();
      var closed := PeekChar('}');
      if closed {
        Advance();
        return Ok(JObject([]));
      }
      r := ReadMembers(depth);
    }

    /** The loop of `_object`. */
    method ReadMembers(depth: nat) returns (r: Result<Json, Reason>)
      requires Valid()
      modifies this
      ensures Valid() && old(index) <= index && (r.Ok? ==> old(index) < index)
      ensures Parses(Members(old(Rest()), old(nodes), depth, []), r)
      decreases |text| - index, 1
    {
      hide Members, Value;
      var result: seq<Member> := [];
      while true
        invariant Valid() && old(index) <= index
        invariant Members(Rest(), nodes, depth, result) == Members(old(Rest()), old(nodes), depth, [])
        decreases |text| - index
      {
        var member :- ReadMember(depth, result);
        result := result + [member];
        Space();
        var closed := PeekChar('}');
        if closed {
          Advance();
          return Ok(JObject(result));
        }
        var comma := PeekChar(',');
        if !comma { return Err(PayloadInvalid); }
        Advance();
        Space();
      }
    }

    /** One key and its value, up to what separates it from the next. */
    method ReadMember(depth: nat, result: seq<Member>) returns (r: Result<Member, Reason>)
      requires Valid()
      modifies this
      ensures Valid() && old(index) <= index && (r.Ok? ==> old(index) < index)
      ensures Members(old(Rest()), old(nodes), depth, result) == (match r
        case Err(e) => Err(e)
        case Ok(m) => AfterValue(Parsed(m.value, Rest(), nodes), depth, result, m.key))
      decreases |text| - index, 0
    {
      hide Members, Value, AfterValue, KeyPart;
      MembersSplit(Rest(), nodes, depth, result);
      var key :- ReadKey(result);
      var value :- ReadValue(depth + 1, depth == 0 && key == "complete");
      return Ok(Member(key, value));
    }

    /** A key that is not yet in the object, and the colon after it. */
    method ReadKey(result: seq<Member>) returns (r: Result<string, Reason>)
      requires Valid()
      modifies this
      ensures Valid() && old(index) <= index && (r.Ok? ==> old(index) < index)
      ensures Token(KeyPart(old(Rest()), old(nodes), result), r)
      ensures r.Ok? ==> nodes == old(nodes) + 1
    {
      hide HasKey, StringToken, SkipSpace;
      var quote := PeekChar('\"');
      if !quote { return Err(PayloadInvalid); }
      var _ :- CountNode();
      var key :- ReadString(true);
      if HasKey(result, key) { return Err(PayloadInvalid); }
      Space();
      var colon := PeekChar(':');
      if !colon { return Err(PayloadInvalid); }
      Advance();
      Space();
      return Ok(key);
    }

    method ReadArray(depth: nat) returns (r: Result<Json, Reason>)
      requires Valid() && index < |text|
      modifies this
      ensures Valid() && old(index) <= index && (r.Ok? ==> old(index) < index)
      ensures Parses(Array(old(Rest()), old(nodes), depth), r)
      decreases |text| - index, 1
    {
      hide Items, Value;
      if depth > MAX_DEPTH { return Err(CapacityExceeded); }
      var _ :- CountNode();
      Advance();
      Space();
      var closed := PeekChar(']');
      if closed {
        Advance();
        return Ok(JArray([]));
      }
      r := ReadItems(depth);
    }

    /** The loop of `_array`. */
    method ReadItems(depth: nat) returns (r: Result<Json, Reason>)
      requires Valid()
      modifies this
      ensures Valid() && old(index) <= index && (r.Ok? ==> old(index) < index)
      ensures Parses(Items(old(Rest()), old(nodes), depth, []), r)
      decreases |text| - index, 3
    {
      hide Items, Value;
      var result: seq<Json> := [];
      while true
        invariant Valid() && old(index) <= index
        invariant Items(Rest(), nodes, depth, result) == Items(old(Rest()), old(nodes), depth, [])
        decreases |text| - index
      {
        ItemsSplit(Rest(), nodes, depth, result);
        var value :- ReadValue(depth + 1, false);
        result := result + [value];
        Space();
        var closed := PeekChar(']');
        if closed {
          Advance();
          return Ok(JArray(result));
        }
        var comma := PeekChar(',');
        if !comma { return Err(PayloadInvalid); }
        Advance();
        Space();
      }
    }

    method ReadText() returns (r: Result<Json, Reason>)
      requires Valid() && index == 0 && nodes == 0
      modifies this
      ensures Valid() && r == Parse(text)
    {
      assert Rest() == text;
      Space();
      var value :- ReadValue(0, false);
      Space();
      if index != |text| { return Err(PayloadInvalid); }
      return Ok(value);
    }
  }

  /** Building the parser from a payload and running it. */
  method ReadPayload(payload: Decoded) returns (r: Result<Json, Reason>)
    ensures r == ParsePayload(payload)
  {
    match payload
    case BadUtf8(prefix, _) =>
      var parser := new BoundedJsonParser(prefix);
      r := parser.ReadText();
      if r == Err(CapacityExceeded) { return; }
      return Err(PayloadInvalid);
    case Text(text) =>
      if Peek(text, '\U{FEFF}') { return Err(PayloadInvalid); }
      var parser := new BoundedJsonParser(text);
      r := parser.ReadText();
  }
}
