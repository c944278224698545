/**
 The JSON text of a flat object: escaping as in section 7 of RFC 8259, the fixed-order
 printer's object form, and a parser for objects without nested values.
 */
module Json {
  import opened Wrappers

  datatype BadJson = BadJson

  // Other is any value of another shape; the parser below reads numbers and booleans so.
  datatype Value = Str(text: string) | Null | Other

  datatype Member = Member(name: string, value: Value)

  // Where a parser stopped, and what it read.
  datatype Parsed<+T> = Parsed(value: T, rest: string)

  /******* Printing *******/

  const BACKSPACE: char := 8 as char
  const FORM_FEED: char := 12 as char

  function HexDigit(n: int): char
    requires 0 <= n < 16
  {
    if n < 10 then '0' + n as char else 'a' + (n - 10) as char
  }

  function HexValue(c: char): Option<int> {
    if '0' <= c <= '9' then Some(c as int - '0' as int)
    else if 'a' <= c <= 'f' then Some(c as int - 'a' as int + 10)
    else if 'A' <= c <= 'F' then Some(c as int - 'A' as int + 10)
    else None
  }

  // JSON.stringify escapes the quote, the backslash and the control characters.
  function EscapeChar(c: char): (r: string)
    ensures 1 <= |r|
  {
    if c == '"' then ['\\', '"']
    else if c == '\\' then ['\\', '\\']
    else if c == BACKSPACE then ['\\', 'b']
    else if c == '\t' then ['\\', 't']
    else if c == '\n' then ['\\', 'n']
    else if c == FORM_FEED then ['\\', 'f']
    else if c == '\r' then ['\\', 'r']
    else if c < ' ' then ['\\', 'u', '0', '0', HexDigit(c as int / 16), HexDigit(c as int % 16)]
    else [c]
  }

  function Escape(s: string): string
    decreases s
  {
    if s == "" then "" else EscapeChar(s[0]) + Escape(s[1..])
  }

  function Quote(s: string): string {
    "\"" + Escape(s) + "\""
  }

  // A name and the string printed for it.
  datatype Field = Field(name: string, text: string)

  function PrintField(f: Field): string {
    Quote(f.name) + ":" + Quote(f.text)
  }

  function Join(parts: seq<string>): string
    decreases parts
  {
    if parts == [] then ""
    else if |parts| == 1 then parts[0]
    else parts[0] + "," + Join(parts[1..])
  }

  function PrintFields(fields: seq<Field>): (parts: seq<string>)
    ensures |parts| == |fields|
    ensures forall i :: 0 <= i < |fields| ==> parts[i] == PrintField(fields[i])
  {
    seq(|fields|, i requires 0 <= i < |fields| => PrintField(fields[i]))
  }

  function PrintObject(fields: seq<Field>): string {
    "{" + Join(PrintFields(fields)) + "}"
  }

  /******* Parsing *******/

  // \uXXXX, without the surrogates: the strings here hold whole code points.
  function ParseHex4(s: string): Result<char, BadJson>
    requires |s| == 4
  {
    match (HexValue(s[0]), HexValue(s[1]), HexValue(s[2]), HexValue(s[3]))
    case (Some(a), Some(b), Some(c), Some(d)) =>
      var code := ((a * 16 + b) * 16 + c) * 16 + d;
      if 0 <= code < 0xD800 || 0xE000 <= code < 0x10000 then Ok(code as char) else Err(BadJson)
    case _ => Err(BadJson)
  }

  function ShortEscape(c: char): Option<char> {
    if c in {'"', '\\', '/'} then Some(c)
    else if c == 'b' then Some(BACKSPACE)
    else if c == 'f' then Some(FORM_FEED)
    else if c == 'n' then Some('\n')
    else if c == 'r' then Some('\r')
    else if c == 't' then Some('\t')
    else None
  }

  // One character of a string body, escaped or not.
  function ParseChar(s: string): (r: Result<Parsed<char>, BadJson>)
    ensures r.Ok? ==> |r.value.rest| < |s|
  {
    if s == "" || s[0] < ' ' || s[0] == '"' then Err(BadJson)
    else if s[0] != '\\' then Ok(Parsed(s[0], s[1..]))
    else if |s| < 2 then Err(BadJson)
    else if s[1] == 'u' then
      if |s| < 6 then Err(BadJson)
      else
        var c :- ParseHex4(s[2..6]);
        Ok(Parsed(c, s[6..]))
    else if ShortEscape(s[1]).Some? then Ok(Parsed(ShortEscape(s[1]).value, s[2..]))
    else Err(BadJson)
  }

  // A string body up to and including its closing quote.
  function ParseBody(s: string): (r: Result<Parsed<string>, BadJson>)
    ensures r.Ok? ==> |r.value.rest| < |s|
    decreases |s|
  {
    if s != "" && s[0] == '"' then Ok(Parsed("", s[1..]))
    else
      var head :- ParseChar(s);
      var tail :- ParseBody(head.rest);
      Ok(Parsed([head.value] + tail.value, tail.rest))
  }

  function SkipSpace(s: string): (r: string)
    ensures |r| <= |s|
    decreases s
  {
    if s != "" && s[0] in {' ', '\t', '\n', '\r'} then SkipSpace(s[1..]) else s
  }

  // The given punctuation mark, after optional white space.
  function Expect(c: char, s: string): (r: Result<string, BadJson>)
    ensures r.Ok? ==> |r.value| < |s|
  {
    var t := SkipSpace(s);
    if t != "" && t[0] == c then Ok(t[1..]) else Err(BadJson)
  }

  function ParseText(s: string): (r: Result<Parsed<string>, BadJson>)
    ensures r.Ok? ==> |r.value.rest| < |s|
  {
    var body :- Expect('"', s);
    ParseBody(body)
  }

  predicate Digit(c: char) { '0' <= c <= '9' }

  function SkipDigits(s: string): (r: string)
    ensures |r| <= |s|
    decreases s
  {
    if s != "" && Digit(s[0]) then SkipDigits(s[1..]) else s
  }

  function SomeDigits(s: string): (r: Result<string, BadJson>)
    ensures r.Ok? ==> |r.value| < |s|
  {
    if s != "" && Digit(s[0]) then Ok(SkipDigits(s[1..])) else Err(BadJson)
  }

  // What follows a number: section 6 of RFC 8259.
  function ParseNumber(s: string): (r: Result<string, BadJson>)
    ensures r.Ok? ==> |r.value| < |s|
  {
    var unsigned := if s != "" && s[0] == '-' then s[1..] else s;
    var afterDigits :- SomeDigits(unsigned);
    var afterInt := if unsigned[0] == '0' then unsigned[1..] else afterDigits;
    var afterFrac :- if afterInt != "" && afterInt[0] == '.' then SomeDigits(afterInt[1..]) else Ok(afterInt);
    if afterFrac != "" && afterFrac[0] in {'e', 'E'} then
      var exponent := afterFrac[1..];
      SomeDigits(if exponent != "" && exponent[0] in {'+', '-'} then exponent[1..] else exponent)
    else Ok(afterFrac)
  }

  function ParseValue(s: string): (r: Result<Parsed<Value>, BadJson>)
    ensures r.Ok? ==> |r.value.rest| < |s|
  {
    var t := SkipSpace(s);
    if "null" <= t then Ok(Parsed(Null, t[4..]))
    else if "true" <= t then Ok(Parsed(Other, t[4..]))
    else if "false" <= t then Ok(Parsed(Other, t[5..]))
    else if t != "" && (t[0] == '-' || Digit(t[0])) then
      var rest :- ParseNumber(t);
      Ok(Parsed(Other, rest))
    else
      var text :- ParseText(t);
      Ok(Parsed(Str(text.value), text.rest))
  }

  function ParseMember(s: string): (r: Result<Parsed<Member>, BadJson>)
    ensures r.Ok? ==> |r.value.rest| < |s|
  {
    var name :- ParseText(s);
    var afterColon :- Expect(':', name.rest);
    var value :- ParseValue(afterColon);
    Ok(Parsed(Member(name.value, value.value), value.rest))
  }

  // Members up to and including the closing brace.
  function ParseMembers(s: string): (r: Result<Parsed<seq<Member>>, BadJson>)
    ensures r.Ok? ==> |r.value.rest| < |s|
    decreases |s|
  {
    var head :- ParseMember(s);
    match Expect('}', head.rest)
    case Ok(rest) => Ok(Parsed([head.value], rest))
    case Err(_) =>
      var more :- Expect(',', head.rest);
      var tail :- ParseMembers(more);
      Ok(Parsed([head.value] + tail.value, tail.rest))
  }

  function ParseObject(s: string): Result<seq<Member>, BadJson> {
    var inside :- Expect('{', s);
    match Expect('}', inside)
    case Ok(rest) => if SkipSpace(rest) == "" then Ok([]) else Err(BadJson)
    case Err(_) =>
      var all :- ParseMembers(inside);
      if SkipSpace(all.rest) == "" then Ok(all.value) else Err(BadJson)
  }

  /******* Round trip *******/

  lemma CharRoundTrip(c: char, rest: string)
    ensures ParseChar(EscapeChar(c) + rest) == Ok(Parsed(c, rest))
  {
    var s := EscapeChar(c) + rest;
    if |EscapeChar(c)| == 1 {
      assert s[1..] == rest;
    } else if |EscapeChar(c)| == 2 {
      assert s[2..] == rest;
    } else {
      assert s[6..] == rest;
      assert s[2..6] == ['0', '0', HexDigit(c as int / 16), HexDigit(c as int % 16)];
      assert HexValue(HexDigit(c as int / 16)) == Some(c as int / 16);
      assert HexValue(HexDigit(c as int % 16)) == Some(c as int % 16);
    }
  }

  lemma EscapeNeverOpensWithQuote(c: char)
    ensures EscapeChar(c)[0] != '"'
  {
  }

  lemma {:induction false} BodyRoundTrip(v: string, rest: string)
    ensures ParseBody(Escape(v) + "\"" + rest) == Ok(Parsed(v, rest))
    decreases v
  {
    var s := Escape(v) + "\"" + rest;
    if v == "" {
      assert s[1..] == rest;
    } else {
      var tail := Escape(v[1..]) + "\"" + rest;
      assert s == EscapeChar(v[0]) + tail;
      EscapeNeverOpensWithQuote(v[0]);
      CharRoundTrip(v[0], tail);
      BodyRoundTrip(v[1..], rest);
      assert [v[0]] + v[1..] == v;
    }
  }

  lemma TextRoundTrip(v: string, rest: string)
    ensures ParseText(Quote(v) + rest) == Ok(Parsed(v, rest))
  {
    var s := Quote(v) + rest;
    assert s[1..] == Escape(v) + "\"" + rest;
    BodyRoundTrip(v, rest);
  }

  lemma ValueRoundTrip(v: string, rest: string)
    ensures ParseValue(Quote(v) + rest) == Ok(Parsed(Str(v), rest))
  {
    var s := Quote(v) + rest;
    assert s[0] == '"' && SkipSpace(s) == s;
    TextRoundTrip(v, rest);
  }

  lemma NameThenValue(s: string, name: string, tail: string, value: Value, rest: string)
    requires ParseText(s) == Ok(Parsed(name, ":" + tail))
    requires ParseValue(tail) == Ok(Parsed(value, rest))
    ensures ParseMember(s) == Ok(Parsed(Member(name, value), rest))
  {
  }

  lemma ColonRegroup(a: string, b: string, rest: string)
    ensures (a + ":" + b) + rest == a + (":" + (b + rest))
  {
  }

  lemma FieldRoundTrip(f: Field, rest: string)
    ensures ParseMember(PrintField(f) + rest) == Ok(Parsed(Member(f.name, Str(f.text)), rest))
  {
    var tail := Quote(f.text) + rest;
    ColonRegroup(Quote(f.name), Quote(f.text), rest);
    TextRoundTrip(f.name, ":" + tail);
    ValueRoundTrip(f.text, rest);
    NameThenValue(PrintField(f) + rest, f.name, tail, Str(f.text), rest);
  }

  function Members(fields: seq<Field>): (r: seq<Member>)
    ensures |r| == |fields|
    ensures forall i :: 0 <= i < |r| ==> r[i] == Member(fields[i].name, Str(fields[i].text))
  {
    seq(|fields|, i requires 0 <= i < |fields| => Member(fields[i].name, Str(fields[i].text)))
  }

  lemma LastMember(s: string, m: Member, rest: string)
    requires ParseMember(s) == Ok(Parsed(m, "}" + rest))
    ensures ParseMembers(s) == Ok(Parsed([m], rest))
  {
  }

  lemma OneMoreMember(s: string, m: Member, more: string, tail: seq<Member>, rest: string)
    requires ParseMember(s) == Ok(Parsed(m, "," + more))
    requires ParseMembers(more) == Ok(Parsed(tail, rest))
    ensures ParseMembers(s) == Ok(Parsed([m] + tail, rest))
  {
    assert ("," + more)[1..] == more;
  }

  // The text after the opening brace.
  function Inside(parts: seq<string>, rest: string): string {
    Join(parts) + "}" + rest
  }

  lemma InsideSplits(parts: seq<string>, rest: string)
    requires parts != []
    ensures |parts| == 1 ==> Inside(parts, rest) == parts[0] + ("}" + rest)
    ensures |parts| > 1 ==> Inside(parts, rest) == parts[0] + ("," + Inside(parts[1..], rest))
  {
  }

  lemma FieldsUncons(fields: seq<Field>)
    requires fields != []
    ensures PrintFields(fields)[1..] == PrintFields(fields[1..])
    ensures Members(fields) == [Member(fields[0].name, Str(fields[0].text))] + Members(fields[1..])
  {
  }

  lemma {:induction false} FieldsRoundTrip(fields: seq<Field>, rest: string)
    requires fields != []
    ensures ParseMembers(Inside(PrintFields(fields), rest)) == Ok(Parsed(Members(fields), rest))
    decreases fields
  {
    var s := Inside(PrintFields(fields), rest);
    var first := Member(fields[0].name, Str(fields[0].text));
    InsideSplits(PrintFields(fields), rest);
    FieldsUncons(fields);
    if |fields| == 1 {
      FieldRoundTrip(fields[0], "}" + rest);
      LastMember(s, first, rest);
      assert Members(fields) == [first];
    } else {
      var more := Inside(PrintFields(fields[1..]), rest);
      FieldRoundTrip(fields[0], "," + more);
      FieldsRoundTrip(fields[1..], rest);
      OneMoreMember(s, first, more, Members(fields[1..]), rest);
    }
  }

  lemma ObjectOfMembers(inside: string, members: seq<Member>)
    requires inside != "" && inside[0] == '"' && ParseMembers(inside) == Ok(Parsed(members, ""))
    ensures ParseObject("{" + inside) == Ok(members)
  {
  }

  lemma InsideOpensWithQuote(fields: seq<Field>)
    requires fields != []
    ensures Inside(PrintFields(fields), "") != "" && Inside(PrintFields(fields), "")[0] == '"'
  {
  }

  // The printed object parses back to its fields, whatever their names and texts.
  lemma {:induction false} ObjectRoundTrip(fields: seq<Field>)
    requires fields != []
    ensures ParseObject(PrintObject(fields)) == Ok(Members(fields))
  {
    var inside := Inside(PrintFields(fields), "");
    FieldsRoundTrip(fields, "");
    InsideOpensWithQuote(fields);
    ObjectOfMembers(inside, Members(fields));
    Closing(Join(PrintFields(fields)));
  }

  lemma Closing(joined: string)
    ensures "{" + joined + "}" == "{" + (joined + "}" + "")
  {
  }
}
