/**
 Base64, sections 4 and 5 of RFC 4648: the encoders of both sides, Go's decoder
 (which skips line breaks and ignores trailing bits), the browser's forgiving atob,
 and the three decoding functions built on them.
 */
module Base64 {
  import opened Wrappers
  import opened Records

  datatype Alphabet = Standard | UrlSafe

  datatype Corrupt = Corrupt

  type Sextet = x: int | 0 <= x < 64

  /******* Characters *******/

  function CharOf(alphabet: Alphabet, v: Sextet): (c: char)
    ensures c != '='
    ensures ValueOf(alphabet, c) == Some(v)
  {
    if v < 26 then 'A' + v as char
    else if v < 52 then 'a' + (v - 26) as char
    else if v < 62 then '0' + (v - 52) as char
    else if v == 62 then (if alphabet.Standard? then '+' else '-')
    else (if alphabet.Standard? then '/' else '_')
  }

  function ValueOf(alphabet: Alphabet, c: char): Option<Sextet> {
    if 'A' <= c <= 'Z' then Some(c as int - 'A' as int)
    else if 'a' <= c <= 'z' then Some(c as int - 'a' as int + 26)
    else if '0' <= c <= '9' then Some(c as int - '0' as int + 52)
    else if c == (if alphabet.Standard? then '+' else '-') then Some(62)
    else if c == (if alphabet.Standard? then '/' else '_') then Some(63)
    else None
  }

  /******* The encoders *******/

  function EncodeGroup(alphabet: Alphabet, padded: bool, b: Bytes): string
    requires 1 <= |b| <= 3
  {
    var c0 := CharOf(alphabet, b[0] / 4);
    if |b| == 1 then [c0, CharOf(alphabet, b[0] % 4 * 16)] + (if padded then "==" else "")
    else
      var c1 := CharOf(alphabet, b[0] % 4 * 16 + b[1] / 16);
      if |b| == 2 then [c0, c1, CharOf(alphabet, b[1] % 16 * 4)] + (if padded then "=" else "")
      else [c0, c1, CharOf(alphabet, b[1] % 16 * 4 + b[2] / 64), CharOf(alphabet, b[2] % 64)]
  }

  function Encode(alphabet: Alphabet, padded: bool, b: Bytes): string {
    if |b| == 0 then ""
    else if |b| <= 3 then EncodeGroup(alphabet, padded, b)
    else EncodeGroup(alphabet, padded, b[..3]) + Encode(alphabet, padded, b[3..])
  }

  function EncodeStd(b: Bytes): string { Encode(Standard, true, b) }

  function EncodeRawUrl(b: Bytes): string { Encode(UrlSafe, false, b) }

  /******* Decoding groups of four *******/

  function Byte0(v0: Sextet, v1: Sextet): Byte { v0 * 4 + v1 / 16 }
  function Byte1(v1: Sextet, v2: Sextet): Byte { v1 % 16 * 16 + v2 / 4 }
  function Byte2(v2: Sextet, v3: Sextet): Byte { v2 % 4 * 64 + v3 }

  // Two or three characters at the end of the data.
  function DecodeTail(alphabet: Alphabet, s: string): Result<Bytes, Corrupt>
    requires 2 <= |s| <= 3
  {
    var v0, v1 := ValueOf(alphabet, s[0]), ValueOf(alphabet, s[1]);
    if v0.None? || v1.None? then Err(Corrupt)
    else if |s| == 2 then Ok([Byte0(v0.value, v1.value)])
    else
      var v2 := ValueOf(alphabet, s[2]);
      if v2.None? then Err(Corrupt)
      else Ok([Byte0(v0.value, v1.value), Byte1(v1.value, v2.value)])
  }

  function DecodeFull(alphabet: Alphabet, s: string): Result<Bytes, Corrupt>
    requires |s| == 4
  {
    var head :- DecodeTail(alphabet, s[..3]);
    match (ValueOf(alphabet, s[2]), ValueOf(alphabet, s[3]))
    case (Some(v2), Some(v3)) => Ok(head + [Byte2(v2, v3)])
    case _ => Err(Corrupt)
  }

  // Go's decodeQuantum loop on text without line breaks.
  function DecodeClean(alphabet: Alphabet, padded: bool, s: string): Result<Bytes, Corrupt>
    decreases s
  {
    if |s| == 0 then Ok([])
    else if |s| < 4 then (if padded || |s| == 1 then Err(Corrupt) else DecodeTail(alphabet, s))
    else if padded && |s| == 4 && s[3] == '=' then DecodeTail(alphabet, if s[2] == '=' then s[..2] else s[..3])
    else
      var head :- DecodeFull(alphabet, s[..4]);
      var rest :- DecodeClean(alphabet, padded, s[4..]);
      Ok(head + rest)
  }

  function Without(dropped: set<char>, s: string): string
    decreases s
  {
    if s == "" then ""
    else (if s[0] in dropped then "" else [s[0]]) + Without(dropped, s[1..])
  }

  // Go's Encoding.DecodeString skips \r and \n wherever they stand.
  function DecodeString(alphabet: Alphabet, padded: bool, s: string): Result<Bytes, Corrupt> {
    DecodeClean(alphabet, padded, Without({'\r', '\n'}, s))
  }

  /******* The server's decoders *******/

  function B64Strict(s: string): Result<Bytes, Corrupt> {
    var decoded :- DecodeString(Standard, true, s);
    if EncodeStd(decoded) != s then Err(Corrupt) else Ok(decoded)
  }

  function DecodeFlexible(s: string): Result<Bytes, Corrupt> {
    match DecodeString(Standard, true, s)
    case Ok(b) => Ok(b)
    case Err(_) => DecodeString(UrlSafe, false, s)
  }

  /******* The client's codec *******/

  // Forgiving decode: drop ASCII whitespace, then up to two '=' of a whole number of
  // groups, then read groups of four with a tail of two or three characters.
  function Atob(s: string): Result<Bytes, Corrupt> {
    var t := Without({' ', '\t', '\n', '\r', 12 as char}, s);
    DecodeClean(Standard, false, Unpadded(t))
  }

  function Unpadded(t: string): string {
    if |t| % 4 != 0 || t == "" || t[|t| - 1] != '=' then t
    else if t[|t| - 2] != '=' then t[..|t| - 1]
    else t[..|t| - 2]
  }

  function ToStandardChar(c: char): char {
    if c == '-' then '+' else if c == '_' then '/' else c
  }

  function Normalized(s: string): (r: string)
    ensures |r| == |s|
    ensures forall i :: 0 <= i < |s| ==> r[i] == ToStandardChar(s[i])
  {
    seq(|s|, i requires 0 <= i < |s| => ToStandardChar(s[i]))
  }

  // What fromB64 computes.
  function FromB64Spec(s: string): Result<Bytes, Corrupt> { Atob(Normalized(s)) }

  function Binary(b: Bytes): (s: string)
    ensures |s| == |b|
    ensures forall i :: 0 <= i < |b| ==> s[i] == b[i] as char
  {
    seq(|b|, i requires 0 <= i < |b| => b[i] as char)
  }

  // btoa on a string of code points below 256.
  function Btoa(binary: string): string
    requires forall i :: 0 <= i < |binary| ==> binary[i] as int < 256
  {
    EncodeStd(seq(|binary|, i requires 0 <= i < |binary| => binary[i] as int))
  }

  method ToB64(bytes: Bytes) returns (s: string)
    ensures s == EncodeStd(bytes)
  {
    var binary := "";
    for i := 0 to |bytes|
      invariant binary == Binary(bytes[..i])
    {
      binary := binary + [bytes[i] as char];
    }
    assert bytes[..|bytes|] == bytes;
    assert seq(|binary|, i requires 0 <= i < |binary| => binary[i] as int) == bytes;
    s := Btoa(binary);
  }

  method FromB64(b64: string) returns (r: Result<Bytes, Corrupt>)
    ensures r == FromB64Spec(b64)
  {
    var decoded := Atob(Normalized(b64));
    if decoded.Err? {
      return decoded;
    }
    var binary := Binary(decoded.value);
    var out := new Byte[|binary|];
    for i := 0 to |binary|
      invariant forall j :: 0 <= j < i ==> out[j] == decoded.value[j]
    {
      out[i] := binary[i] as int;
    }
    assert out[..] == decoded.value;
    r := Ok(out[..]);
  }

  /******* Round trips *******/

  predicate Alphabetic(s: string) {
    forall i :: 0 <= i < |s| ==>
      'A' <= s[i] <= 'Z' || 'a' <= s[i] <= 'z' || '0' <= s[i] <= '9' || s[i] in {'+', '/', '-', '_', '='}
  }

  lemma {:induction false} EncodeIsAlphabetic(alphabet: Alphabet, padded: bool, b: Bytes)
    ensures Alphabetic(Encode(alphabet, padded, b))
  {
    if |b| > 3 {
      EncodeIsAlphabetic(alphabet, padded, b[3..]);
    }
  }

  lemma {:induction false} NothingToDrop(dropped: set<char>, s: string)
    requires Alphabetic(s) && dropped <= {' ', '\t', '\n', '\r', 12 as char}
    ensures Without(dropped, s) == s
    decreases s
  {
    if s != "" {
      NothingToDrop(dropped, s[1..]);
    }
  }

  lemma SplitBytes(b0: Byte, b1: Byte, b2: Byte)
    ensures Byte0(b0 / 4, b0 % 4 * 16) == b0
    ensures Byte0(b0 / 4, b0 % 4 * 16 + b1 / 16) == b0
    ensures Byte1(b0 % 4 * 16 + b1 / 16, b1 % 16 * 4) == b1
    ensures Byte1(b0 % 4 * 16 + b1 / 16, b1 % 16 * 4 + b2 / 64) == b1
    ensures Byte2(b1 % 16 * 4 + b2 / 64, b2 % 64) == b2
  {
  }

  lemma TailDecodes(alphabet: Alphabet, padded: bool, b: Bytes)
    requires 1 <= |b| <= 2
    ensures |EncodeGroup(alphabet, padded, b)| == (if padded then 4 else |b| + 1)
    ensures DecodeTail(alphabet, EncodeGroup(alphabet, padded, b)[..|b| + 1]) == Ok(b)
  {
    SplitBytes(b[0], if |b| > 1 then b[1] else 0, 0);
    if |b| == 1 {
      assert b == [b[0]];
    } else {
      assert b == [b[0], b[1]];
    }
  }

  lemma FullDecodes(alphabet: Alphabet, padded: bool, b: Bytes)
    requires |b| == 3
    ensures |EncodeGroup(alphabet, padded, b)| == 4
    ensures DecodeFull(alphabet, EncodeGroup(alphabet, padded, b)) == Ok(b)
  {
    var s := EncodeGroup(alphabet, padded, b);
    SplitBytes(b[0], b[1], b[2]);
    assert DecodeTail(alphabet, s[..3]) == Ok([b[0], b[1]]);
    assert b == [b[0], b[1]] + [b[2]];
  }

  lemma GroupRoundTrip(alphabet: Alphabet, padded: bool, b: Bytes)
    requires 1 <= |b| <= 3
    ensures DecodeClean(alphabet, padded, EncodeGroup(alphabet, padded, b)) == Ok(b)
    ensures |b| == 3 ==> |EncodeGroup(alphabet, padded, b)| == 4 &&
                         DecodeFull(alphabet, EncodeGroup(alphabet, padded, b)) == Ok(b) &&
                         EncodeGroup(alphabet, padded, b)[3] != '='
  {
    var s := EncodeGroup(alphabet, padded, b);
    if |b| == 3 {
      FullDecodes(alphabet, padded, b);
      assert s[..4] == s && s[4..] == "" && b + [] == b;
      assert DecodeClean(alphabet, padded, "") == Ok([]);
    } else {
      TailDecodes(alphabet, padded, b);
      assert !padded ==> s[..|b| + 1] == s;
    }
  }

  lemma {:induction false} CleanRoundTrip(alphabet: Alphabet, padded: bool, b: Bytes)
    ensures DecodeClean(alphabet, padded, Encode(alphabet, padded, b)) == Ok(b)
  {
    if 1 <= |b| <= 3 {
      GroupRoundTrip(alphabet, padded, b);
    } else if |b| > 3 {
      var head, tail := EncodeGroup(alphabet, padded, b[..3]), Encode(alphabet, padded, b[3..]);
      GroupRoundTrip(alphabet, padded, b[..3]);
      CleanRoundTrip(alphabet, padded, b[3..]);
      assert (head + tail)[..4] == head && (head + tail)[4..] == tail;
      assert b[..3] + b[3..] == b;
    }
  }

  lemma DecodeInvertsEncode(alphabet: Alphabet, padded: bool, b: Bytes)
    ensures DecodeString(alphabet, padded, Encode(alphabet, padded, b)) == Ok(b)
  {
    EncodeIsAlphabetic(alphabet, padded, b);
    NothingToDrop({'\r', '\n'}, Encode(alphabet, padded, b));
    CleanRoundTrip(alphabet, padded, b);
  }

  lemma {:induction false} EncodeIsInjective(alphabet: Alphabet, padded: bool, a: Bytes, b: Bytes)
    requires Encode(alphabet, padded, a) == Encode(alphabet, padded, b)
    ensures a == b
  {
    DecodeInvertsEncode(alphabet, padded, a);
    DecodeInvertsEncode(alphabet, padded, b);
  }

  // b64Strict accepts exactly the image of the padded encoder, and inverts it.
  lemma {:induction false} StrictAcceptsExactlyCanonical(s: string, b: Bytes)
    ensures B64Strict(s) == Ok(b) <==> s == EncodeStd(b)
  {
    DecodeInvertsEncode(Standard, true, b);
  }

  /******* One string, one reading *******/

  lemma SharedGroup(s: string)
    requires |s| == 4 && DecodeFull(Standard, s).Ok? && DecodeFull(UrlSafe, s).Ok?
    ensures DecodeFull(Standard, s) == DecodeFull(UrlSafe, s)
  {
  }

  lemma {:induction false} NoAmbiguousReadingClean(s: string)
    requires DecodeClean(Standard, true, s).Ok? && DecodeClean(UrlSafe, false, s).Ok?
    ensures DecodeClean(Standard, true, s) == DecodeClean(UrlSafe, false, s)
    decreases s
  {
    if |s| >= 4 {
      assert s[3] != '=' by { assert s[..4][3] == s[3]; }
      SharedGroup(s[..4]);
      NoAmbiguousReadingClean(s[4..]);
    }
  }

  // No string reads as one value in padded standard form and another in raw URL form.
  lemma NoAmbiguousReading(s: string)
    requires DecodeString(Standard, true, s).Ok? && DecodeString(UrlSafe, false, s).Ok?
    ensures DecodeString(Standard, true, s) == DecodeString(UrlSafe, false, s)
  {
    NoAmbiguousReadingClean(Without({'\r', '\n'}, s));
  }

  lemma FlexibleReadsBothForms(b: Bytes)
    ensures DecodeFlexible(EncodeStd(b)) == Ok(b)
    ensures DecodeFlexible(EncodeRawUrl(b)) == Ok(b)
  {
    DecodeInvertsEncode(Standard, true, b);
    DecodeInvertsEncode(UrlSafe, false, b);
    if DecodeString(Standard, true, EncodeRawUrl(b)).Ok? {
      NoAmbiguousReading(EncodeRawUrl(b));
    }
  }

  /******* fromB64 *******/

  lemma {:induction false} NormalizedGroup(alphabet: Alphabet, padded: bool, b: Bytes)
    requires 1 <= |b| <= 3
    ensures Normalized(EncodeGroup(alphabet, padded, b)) == EncodeGroup(Standard, padded, b)
  {
    assert forall v: Sextet :: ToStandardChar(CharOf(alphabet, v)) == CharOf(Standard, v);
  }

  lemma NormalizedAppend(a: string, b: string)
    ensures Normalized(a + b) == Normalized(a) + Normalized(b)
  {
  }

  lemma {:induction false} NormalizedEncode(alphabet: Alphabet, padded: bool, b: Bytes)
    ensures Normalized(Encode(alphabet, padded, b)) == Encode(Standard, padded, b)
  {
    if |b| > 3 {
      NormalizedEncode(alphabet, padded, b[3..]);
      NormalizedGroup(alphabet, padded, b[..3]);
      NormalizedAppend(EncodeGroup(alphabet, padded, b[..3]), Encode(alphabet, padded, b[3..]));
    } else if |b| > 0 {
      NormalizedGroup(alphabet, padded, b);
    }
  }

  lemma UnpaddedGroup(b: Bytes)
    requires 1 <= |b| <= 3
    ensures |EncodeGroup(Standard, true, b)| == 4
    ensures Unpadded(EncodeGroup(Standard, true, b)) == EncodeGroup(Standard, false, b)
  {
  }

  lemma {:induction false} UnpaddedEncode(b: Bytes)
    ensures |EncodeStd(b)| % 4 == 0
    ensures b != [] ==> |EncodeStd(b)| >= 4
    ensures Unpadded(EncodeStd(b)) == Encode(Standard, false, b)
  {
    if |b| > 3 {
      var head := EncodeGroup(Standard, true, b[..3]);
      UnpaddedGroup(b[..3]);
      UnpaddedEncode(b[3..]);
      UnpaddedTail(head, EncodeStd(b[3..]));
    } else if |b| > 0 {
      UnpaddedGroup(b);
    }
  }

  lemma {:induction false} UnpaddedTail(head: string, tail: string)
    requires |head| == 4 && |tail| % 4 == 0 && tail != ""
    ensures Unpadded(head + tail) == head + Unpadded(tail)
  {
    var s := head + tail;
    assert |s| % 4 == 0;
    assert s[..|s| - 1] == head + tail[..|tail| - 1];
    assert s[..|s| - 2] == head + tail[..|tail| - 2];
  }

  lemma {:induction false} RawLength(b: Bytes)
    ensures |Encode(Standard, false, b)| % 4 == 0 ==> Unpadded(Encode(Standard, false, b)) == Encode(Standard, false, b)
  {
    EncodeIsAlphabetic(Standard, false, b);
    NoPadChar(b);
  }

  lemma {:induction false} NoPadChar(b: Bytes)
    ensures '=' !in Encode(Standard, false, b)
  {
    if |b| > 3 {
      NoPadChar(b[3..]);
    }
  }

  // Both forms that reach the client decode to the bytes they came from.
  lemma {:induction false} FromB64ReadsBothForms(b: Bytes)
    ensures FromB64Spec(EncodeStd(b)) == Ok(b)
    ensures FromB64Spec(EncodeRawUrl(b)) == Ok(b)
  {
    var white := {' ', '\t', '\n', '\r', 12 as char};
    NormalizedEncode(Standard, true, b);
    NormalizedEncode(UrlSafe, false, b);
    EncodeIsAlphabetic(Standard, true, b);
    EncodeIsAlphabetic(Standard, false, b);
    NothingToDrop(white, EncodeStd(b));
    NothingToDrop(white, Encode(Standard, false, b));
    UnpaddedEncode(b);
    RawLength(b);
    CleanRoundTrip(Standard, false, b);
  }
}
