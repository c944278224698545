/**
 The envelope's two parsers.  The client prints six fields in a fixed order and parses
 them back; the server accepts a pushed object only with exactly those six names, and
 then checks it against the session's user and the clock.
 */
module EnvelopeCodec {
  import opened Wrappers
  import opened Records
  import opened Json
  import opened Base64
  import opened Aad
  import opened SyncHandler

  // The client's form, with raw bytes.
  datatype Envelope = Envelope(recordId: string, kind: Kind, nonce: Bytes, ciphertext: Bytes, aad: string, ts: string)

  // The wire form: six strings.
  datatype Wire = Wire(recordId: string, typeName: string, nonce: string, ciphertext: string, aad: string, ts: string)

  datatype Rejected = InvalidEnvelope | DuplicateField | FieldSetMismatch | ShapeMismatch | NotAnObject

  const NAMES: seq<string> := ["record_id", "type", "nonce", "ciphertext", "aad", "ts"]

  const FIELDS: set<string> := set n | n in NAMES

  function Texts(w: Wire): seq<string> {
    [w.recordId, w.typeName, w.nonce, w.ciphertext, w.aad, w.ts]
  }

  function WireForm(e: Envelope): Wire {
    Wire(e.recordId, KindName(e.kind), EncodeStd(e.nonce), EncodeStd(e.ciphertext), e.aad, e.ts)
  }

  function FieldsOf(w: Wire): (fields: seq<Field>)
    ensures |fields| == 6
    ensures forall i :: 0 <= i < 6 ==> fields[i] == Field(NAMES[i], Texts(w)[i])
  {
    seq(6, i requires 0 <= i < 6 => Field(NAMES[i], Texts(w)[i]))
  }

  function Print(w: Wire): string {
    PrintObject(FieldsOf(w))
  }

  // The switch on the key.
  method FieldText(env: Envelope, i: nat) returns (value: string)
    requires i < 6
    ensures value == Texts(WireForm(env))[i]
  {
    match i {
      case 0 => value := env.recordId;
      case 1 => value := KindName(env.kind);
      case 2 => value := ToB64(env.nonce);
      case 3 => value := ToB64(env.ciphertext);
      case 4 => value := env.aad;
      case _ => value := env.ts;
    }
  }

  method FieldPart(env: Envelope, i: nat, ghost printed: seq<string>) returns (part: string)
    requires i < 6 && printed == PrintFields(FieldsOf(WireForm(env)))
    ensures |printed| == 6 && part == printed[i]
  {
    var value := FieldText(env, i);
    part := Quote(NAMES[i]) + ":" + Quote(value);
    assert part == PrintField(FieldsOf(WireForm(env))[i]);
  }

  // The loop over the fixed key order, and the join.
  method JoinParts(env: Envelope, ghost printed: seq<string>) returns (joined: string)
    requires printed == PrintFields(FieldsOf(WireForm(env)))
    ensures joined == Join(printed)
  {
    var parts: seq<string> := [];
    var i := 0;
    while i < 6
      invariant |printed| == 6 && 0 <= i <= 6
      invariant parts == printed[..i]
    {
      var part := FieldPart(env, i, printed);
      parts := parts + [part];
      i := i + 1;
    }
    assert parts == printed;
    joined := Join(parts);
  }

  method SerializeEnvelope(env: Envelope) returns (json: string)
    ensures json == Print(WireForm(env))
  {
    var joined := JoinParts(env, PrintFields(FieldsOf(WireForm(env))));
    json := "{" + joined + "}";
  }

  /******* Objects *******/

  // JSON.parse and json.Unmarshal keep the last of several members with one name.
  function Object(members: seq<Member>): map<string, Value> {
    if members == [] then map[]
    else
      var last := members[|members| - 1];
      Object(members[..|members| - 1])[last.name := last.value]
  }

  predicate Distinct(members: seq<Member>) {
    forall i, j :: 0 <= i < j < |members| ==> members[i].name != members[j].name
  }

  method RejectDuplicateKeys(members: seq<Member>) returns (r: Result<(), Rejected>)
    ensures r.Ok? <==> Distinct(members)
    ensures r.Err? ==> r.error == DuplicateField
  {
    var seen: set<string> := {};
    for i := 0 to |members|
      invariant forall n :: n in seen <==> exists j :: 0 <= j < i && members[j].name == n
      invariant Distinct(members[..i])
    {
      var key := members[i].name;
      assert members[..i + 1] == members[..i] + [members[i]];
      if key in seen {
        return Err(DuplicateField);
      }
      seen := seen + {key};
    }
    assert members[..|members|] == members;
    r := Ok(());
  }

  predicate Named(members: seq<Member>, n: string) {
    exists i :: 0 <= i < |members| && members[i].name == n
  }

  lemma NamedStep(members: seq<Member>, n: string)
    requires members != []
    ensures Named(members, n) <==> Named(members[..|members| - 1], n) || members[|members| - 1].name == n
  {
  }

  // The object has exactly the members' names.
  lemma {:induction false} ObjectKeys(members: seq<Member>, n: string)
    ensures n in Object(members) <==> Named(members, n)
  {
    if members != [] {
      ObjectKeys(members[..|members| - 1], n);
      NamedStep(members, n);
    }
  }

  // With distinct names each member is found under its own.
  lemma {:induction false} ObjectAt(members: seq<Member>, i: nat)
    requires Distinct(members) && i < |members|
    ensures members[i].name in Object(members) && Object(members)[members[i].name] == members[i].value
  {
    if i < |members| - 1 {
      ObjectAt(members[..|members| - 1], i);
    }
  }

  lemma {:induction false} ObjectSize(members: seq<Member>)
    ensures |Object(members)| <= |members|
    ensures |Object(members)| == |members| <==> Distinct(members)
  {
    if members != [] {
      var init, last := members[..|members| - 1], members[|members| - 1];
      ObjectSize(init);
      ObjectKeys(init, last.name);
      assert Object(members).Keys == Object(init).Keys + {last.name};
      if last.name in Object(init) {
        var i :| 0 <= i < |init| && init[i].name == last.name;
        assert members[i].name == members[|members| - 1].name;
      } else if Distinct(init) {
        assert Distinct(members);
      }
    }
  }

  /******* The client's parser *******/

  function KindOfName(n: string): (k: Option<Kind>)
    ensures k.Some? ==> KindName(k.value) == n
    ensures k.None? ==> forall kind :: KindName(kind) != n
  {
    if n == KindName(Transactions) then Some(Transactions)
    else if n == KindName(Attachments) then Some(Attachments)
    else if n == KindName(Chat) then Some(Chat)
    else if n == KindName(Accounts) then Some(Accounts)
    else if n == KindName(Vault) then Some(Vault)
    else None
  }

  function TextAt(o: map<string, Value>, n: string): Result<string, Rejected> {
    if n in o && o[n].Str? then Ok(o[n].text) else Err(InvalidEnvelope)
  }

  function BytesAt(o: map<string, Value>, n: string): Result<Bytes, Rejected> {
    var text :- TextAt(o, n);
    match FromB64Spec(text)
    case Ok(b) => Ok(b)
    case Err(_) => Err(InvalidEnvelope)
  }

  function EnvelopeAt(o: map<string, Value>): Result<Envelope, Rejected> {
    var recordId :- TextAt(o, "record_id");
    var typeName :- TextAt(o, "type");
    var aad :- TextAt(o, "aad");
    var ts :- TextAt(o, "ts");
    var nonce :- BytesAt(o, "nonce");
    var ciphertext :- BytesAt(o, "ciphertext");
    if recordId == "" || KindOfName(typeName).None? || aad == "" || |nonce| != 12 || |ciphertext| < 16
    then Err(InvalidEnvelope)
    else Ok(Envelope(recordId, KindOfName(typeName).value, nonce, ciphertext, aad, ts))
  }

  function ParseEnvelope(json: string): Result<Envelope, Rejected> {
    match ParseObject(json)
    case Err(_) => Err(InvalidEnvelope)
    case Ok(members) => EnvelopeOf(Object(members))
  }

  function EnvelopeOf(o: map<string, Value>): Result<Envelope, Rejected> {
    if |o| != |NAMES| || exists n :: n in NAMES && n !in o then Err(InvalidEnvelope) else EnvelopeAt(o)
  }

  predicate WellFormed(e: Envelope) {
    e.recordId != "" && e.aad != "" && |e.nonce| == 12 && |e.ciphertext| >= 16
  }

  /******* The server's parser *******/

  // Unmarshalling null into a string field leaves it empty.
  function GoString(o: map<string, Value>, n: string): string {
    if n in o && o[n].Str? then o[n].text else ""
  }

  function StrictMembers(members: seq<Member>): Result<Wire, Rejected> {
    if !Distinct(members) then Err(DuplicateField)
    else
      var o := Object(members);
      if |o| != |FIELDS| || !(o.Keys <= FIELDS) then Err(FieldSetMismatch)
      else if exists n :: n in o && o[n].Other? then Err(ShapeMismatch)
      else Ok(Wire(GoString(o, "record_id"), GoString(o, "type"), GoString(o, "nonce"),
                   GoString(o, "ciphertext"), GoString(o, "aad"), GoString(o, "ts")))
  }

  function StrictEnvelope(raw: string): Result<Wire, Rejected> {
    match ParseObject(raw)
    case Err(_) => Err(NotAnObject)
    case Ok(members) => StrictMembers(members)
  }

  lemma NamesAreDistinct()
    ensures forall i, j :: 0 <= i < j < 6 ==> NAMES[i] != NAMES[j]
    ensures |FIELDS| == 6
  {
    assert |NAMES[0]| == 9 && |NAMES[1]| == 4 && |NAMES[2]| == 5 && |NAMES[3]| == 10 && |NAMES[4]| == 3 && |NAMES[5]| == 2;
    assert FIELDS == {NAMES[0], NAMES[1], NAMES[2], NAMES[3], NAMES[4], NAMES[5]};
  }

  lemma {:induction false} SubsetOfSameSize<T>(a: set<T>, b: set<T>)
    requires a <= b && |a| == |b|
    ensures a == b
    decreases a
  {
    if a == {} {
    } else {
      var x :| x in a;
      SubsetOfSameSize(a - {x}, b - {x});
    }
  }

  predicate SixNames(members: seq<Member>) {
    |members| == 6 && (set m | m in members :: m.name) == FIELDS
  }

  lemma {:induction false} FieldSetMatchesIff(members: seq<Member>)
    ensures Distinct(members) && |Object(members)| == |FIELDS| && Object(members).Keys <= FIELDS <==> SixNames(members)
  {
    NamesAreDistinct();
    ObjectSize(members);
    var o := Object(members);
    forall n ensures n in o.Keys <==> n in (set m | m in members :: m.name) {
      ObjectKeys(members, n);
      if n in (set m | m in members :: m.name) {
        var m :| m in members && m.name == n;
        var i :| 0 <= i < |members| && members[i] == m;
      }
    }
    assert o.Keys == set m | m in members :: m.name;
    if |o| == |FIELDS| && o.Keys <= FIELDS {
      SubsetOfSameSize(o.Keys, FIELDS);
    }
  }

  // With distinct names, a value of the wrong shape among the members is one in the object.
  lemma ShapesAgree(members: seq<Member>)
    requires Distinct(members)
    ensures (exists n :: n in Object(members) && Object(members)[n].Other?) <==> exists m :: m in members && m.value.Other?
  {
    var o := Object(members);
    if n :| n in o && o[n].Other? {
      ObjectKeys(members, n);
      var i :| 0 <= i < |members| && members[i].name == n;
      ObjectAt(members, i);
      assert members[i] in members;
    }
    if m :| m in members && m.value.Other? {
      var i :| 0 <= i < |members| && members[i] == m;
      ObjectAt(members, i);
    }
  }

  // The server accepts exactly the member lists with the six names, each once, in any
  // order, and no value of the wrong shape: one name repeated, missing or extra, or one
  // number, is enough to refuse, each with its own error.
  lemma StrictAcceptsIff(members: seq<Member>)
    ensures StrictMembers(members).Ok? <==> SixNames(members) && forall m :: m in members ==> !m.value.Other?
    ensures StrictMembers(members) == Err(DuplicateField) <==> !Distinct(members)
    ensures StrictMembers(members) == Err(FieldSetMismatch) <==> Distinct(members) && !SixNames(members)
    ensures StrictMembers(members) == Err(ShapeMismatch) <==> SixNames(members) && exists m :: m in members && m.value.Other?
  {
    FieldSetMatchesIff(members);
    if Distinct(members) {
      ShapesAgree(members);
    }
  }

  /******* Round trips *******/

  predicate DistinctNames(fields: seq<Field>) {
    forall i, j :: 0 <= i < j < |fields| ==> fields[i].name != fields[j].name
  }

  lemma ObjectOfFields(fields: seq<Field>)
    requires DistinctNames(fields)
    ensures Distinct(Members(fields))
    ensures forall i :: 0 <= i < |fields| ==>
      fields[i].name in Object(Members(fields)) && Object(Members(fields))[fields[i].name] == Str(fields[i].text)
    ensures Object(Members(fields)).Keys == set f | f in fields :: f.name
  {
    var members, o := Members(fields), Object(Members(fields));
    forall i | 0 <= i < |fields| ensures fields[i].name in o && o[fields[i].name] == Str(fields[i].text) {
      assert members[i] == Member(fields[i].name, Str(fields[i].text));
      ObjectAt(members, i);
    }
    forall n ensures n in o.Keys <==> n in set f | f in fields :: f.name {
      ObjectKeys(members, n);
      if n in o {
        var i :| 0 <= i < |members| && members[i].name == n;
        assert fields[i] in fields;
      }
    }
  }

  lemma FieldsAreDistinct(w: Wire)
    ensures DistinctNames(FieldsOf(w))
    ensures (set f | f in FieldsOf(w) :: f.name) == FIELDS
  {
  }

  // What both parsers look up in the printed form.
  lemma {:induction false} PrintedObject(w: Wire)
    ensures ParseObject(Print(w)) == Ok(Members(FieldsOf(w)))
    ensures Distinct(Members(FieldsOf(w)))
    ensures Object(Members(FieldsOf(w))).Keys == FIELDS && |FIELDS| == 6
    ensures var o := Object(Members(FieldsOf(w)));
      forall i :: 0 <= i < 6 ==> NAMES[i] in o && o[NAMES[i]] == Str(Texts(w)[i])
  {
    NamesAreDistinct();
    FieldsAreDistinct(w);
    var fields := FieldsOf(w);
    ObjectOfFields(fields);
    ObjectRoundTrip(fields);
    var o := Object(Members(fields));
    forall i | 0 <= i < 6 ensures NAMES[i] in o && o[NAMES[i]] == Str(Texts(w)[i]) {
      assert fields[i] == Field(NAMES[i], Texts(w)[i]);
    }
  }

  lemma PrintedTexts(w: Wire)
    ensures var o := Object(Members(FieldsOf(w)));
      && TextAt(o, "record_id") == Ok(w.recordId) && TextAt(o, "type") == Ok(w.typeName)
      && TextAt(o, "nonce") == Ok(w.nonce) && TextAt(o, "ciphertext") == Ok(w.ciphertext)
      && TextAt(o, "aad") == Ok(w.aad) && TextAt(o, "ts") == Ok(w.ts)
  {
    PrintedObject(w);
    var o := Object(Members(FieldsOf(w)));
    assert NAMES[0] in o && NAMES[1] in o && NAMES[2] in o && NAMES[3] in o && NAMES[4] in o && NAMES[5] in o;
  }

  // The strict parser accepts the printed form and reads back the same six strings.
  lemma {:induction false} StrictReadsPrinted(w: Wire)
    ensures StrictEnvelope(Print(w)) == Ok(w)
  {
    PrintedObject(w);
    PrintedTexts(w);
    NoOtherShapes(w);
    StrictWire(Members(FieldsOf(w)), w);
  }

  lemma StrictWire(members: seq<Member>, w: Wire)
    requires Distinct(members) && Object(members).Keys == FIELDS
    requires forall n :: n in Object(members) ==> !Object(members)[n].Other?
    requires var o := Object(members);
      && TextAt(o, "record_id") == Ok(w.recordId) && TextAt(o, "type") == Ok(w.typeName)
      && TextAt(o, "nonce") == Ok(w.nonce) && TextAt(o, "ciphertext") == Ok(w.ciphertext)
      && TextAt(o, "aad") == Ok(w.aad) && TextAt(o, "ts") == Ok(w.ts)
    ensures StrictMembers(members) == Ok(w)
  {
    assert |Object(members)| == |Object(members).Keys|;
  }

  lemma NoOtherShapes(w: Wire)
    ensures var o := Object(Members(FieldsOf(w))); forall n :: n in o ==> !o[n].Other?
  {
    PrintedObject(w);
    var o := Object(Members(FieldsOf(w)));
    forall n | n in o ensures !o[n].Other? {
      var i := NameIndex(n);
      assert o[NAMES[i]] == Str(Texts(w)[i]);
    }
  }

  lemma NameIndex(n: string) returns (i: nat)
    requires n in FIELDS
    ensures i < 6 && NAMES[i] == n
  {
    i :| 0 <= i < |NAMES| && NAMES[i] == n;
  }

  lemma PrintIsInjective(v: Wire, w: Wire)
    requires Print(v) == Print(w)
    ensures v == w
  {
    StrictReadsPrinted(v);
    StrictReadsPrinted(w);
  }

  // Different envelopes, well formed or not, never print alike.
  lemma SerializeIsInjective(d: Envelope, e: Envelope)
    requires Print(WireForm(d)) == Print(WireForm(e))
    ensures d == e
  {
    PrintIsInjective(WireForm(d), WireForm(e));
    KindNamesDiffer(d.kind, e.kind);
    EncodeIsInjective(Standard, true, d.nonce, e.nonce);
    EncodeIsInjective(Standard, true, d.ciphertext, e.ciphertext);
  }

  lemma {:induction false} ReadBackIff(e: Envelope, o: map<string, Value>)
    requires var w := WireForm(e);
      && TextAt(o, "record_id") == Ok(w.recordId) && TextAt(o, "type") == Ok(w.typeName)
      && TextAt(o, "nonce") == Ok(w.nonce) && TextAt(o, "ciphertext") == Ok(w.ciphertext)
      && TextAt(o, "aad") == Ok(w.aad) && TextAt(o, "ts") == Ok(w.ts)
    ensures EnvelopeAt(o) == if WellFormed(e) then Ok(e) else Err(InvalidEnvelope)
  {
    FromB64ReadsBothForms(e.nonce);
    FromB64ReadsBothForms(e.ciphertext);
    KindNamesDiffer(e.kind, KindOfName(KindName(e.kind)).value);
    assert BytesAt(o, "nonce") == Ok(e.nonce);
    assert BytesAt(o, "ciphertext") == Ok(e.ciphertext);
  }

  // The client's parser inverts its printer exactly on the well-formed envelopes.
  lemma {:induction false} ParseInvertsSerializeIff(e: Envelope)
    ensures ParseEnvelope(Print(WireForm(e))) == Ok(e) <==> WellFormed(e)
    ensures !WellFormed(e) ==> ParseEnvelope(Print(WireForm(e))) == Err(InvalidEnvelope)
  {
    var w := WireForm(e);
    PrintedObject(w);
    PrintedTexts(w);
    var o := Object(Members(FieldsOf(w)));
    ReadBackIff(e, o);
    AllNamesPresent(o);
  }

  lemma AllNamesPresent(o: map<string, Value>)
    requires o.Keys == FIELDS && |FIELDS| == 6
    ensures EnvelopeOf(o) == EnvelopeAt(o)
  {
    assert |o| == |o.Keys| && forall n :: n in NAMES ==> n in FIELDS;
  }

  /******* Validation *******/

  predicate LowerHex(c: char) { '0' <= c <= '9' || 'a' <= c <= 'f' }

  predicate CanonicalUuid(s: string) {
    && |s| == 36
    && forall i :: 0 <= i < 36 ==> if i in {8, 13, 18, 23} then s[i] == '-' else LowerHex(s[i])
  }

  // time.Parse(time.RFC3339, ·) is a parameter.
  type TimeParser = string -> Option<Instant>

  predicate Validates(user: UserId, e: Wire, parse: TimeParser, now: Instant) {
    && e.recordId != "" && e.typeName != "" && e.nonce != "" && e.ciphertext != "" && e.aad != "" && e.ts != ""
    && KindOfName(e.typeName).Some?
    && CanonicalUuid(e.recordId)
    && B64Strict(e.nonce).Ok? && |B64Strict(e.nonce).value| == 12
    && B64Strict(e.ciphertext).Ok? && |B64Strict(e.ciphertext).value| >= 17
    && e.aad == BuildAad(user, e.typeName, e.recordId)
    && parse(e.ts).Some? && parse(e.ts).value <= now + FUTURE_TOLERANCE
  }

  // What handleSync makes of one raw push; None stands for a rejected batch.
  function Convert(user: UserId, raw: string, parse: TimeParser, now: Instant): Option<Push> {
    match StrictEnvelope(raw)
    case Err(_) => None
    case Ok(e) =>
      if !Validates(user, e, parse, now) then None
      else if !Syncable(KindOfName(e.typeName).value) then None
      else
        match DecodeFlexible(e.ciphertext)
        case Err(_) => None
        case Ok(blob) => Some(Push(Key(KindOfName(e.typeName).value, e.recordId), blob, parse(e.ts).value))
  }

  lemma UuidsAreBarFree(s: string)
    requires CanonicalUuid(s)
    ensures BarFree(s) && s != ""
  {
  }
}
