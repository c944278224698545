/**
 Both ends of the data path: saveRecord and loadWorking, and the theorem that what one
 device saves another reads, across printing, validation, storage, pull and merge.
 The AEAD is a parameter; the theorem asks only that opening inverts sealing.
 */
module DataPath {
  import opened Wrappers
  import opened Records
  import opened Base64
  import opened Aad
  import opened EnvelopeCodec
  import opened SyncHandler
  import opened SyncStore
  import opened SyncStoreLaws
  import opened DeltaPull
  import opened ClientCache
  import SyncMachine

  // deriveSubkey as a free constructor.
  datatype Subkey = Subkey(dek: nat, kind: Kind)

  datatype Aead = Aead(seal: (Subkey, Bytes, string, Bytes) -> Bytes,
                       open: (Subkey, Bytes, string, Bytes) -> Option<Bytes>)

  const NONCE_BYTES := 12
  const TAG_BYTES := 16

  ghost predicate Correct(aead: Aead) {
    forall k, n, a, p {:trigger aead.seal(k, n, a, p)} ::
      |aead.seal(k, n, a, p)| == |p| + TAG_BYTES && aead.open(k, n, a, aead.seal(k, n, a, p)) == Some(p)
  }

  datatype Failure = BadAad | DecryptFailed

  function Packed(aead: Aead, key: Subkey, nonce: Bytes, aad: string, plaintext: Bytes): Bytes {
    nonce + aead.seal(key, nonce, aad, plaintext)
  }

  // The envelope saveRecord queues.
  function Sealed(aead: Aead, dek: nat, user: UserId, key: Key, nonce: Bytes, plaintext: Bytes, ts: string)
    : Result<Wire, Failure>
  {
    match BuildAadString(user, key.kind, key.id)
    case Err(_) => Err(BadAad)
    case Ok(aad) =>
      var packed := Packed(aead, Subkey(dek, key.kind), nonce, aad, plaintext);
      Ok(Wire(key.id, KindName(key.kind), EncodeStd(nonce), EncodeStd(packed), aad, ts))
  }

  // slice(0, 12) and slice(12) of the packed blob, opened under the row's own AAD.
  function Opened(aead: Aead, dek: nat, kind: Kind, row: CacheRow): Result<Bytes, Failure> {
    match FromB64Spec(row.blob)
    case Err(_) => Err(DecryptFailed)
    case Ok(packed) =>
      var cut := if |packed| < NONCE_BYTES then |packed| else NONCE_BYTES;
      match aead.open(Subkey(dek, kind), packed[..cut], row.aad, packed[cut..])
      case None => Err(DecryptFailed)
      case Some(plaintext) => Ok(plaintext)
  }

  // packed.set(nonce, 0); packed.set(ct, nonce.length).
  method EncryptWithSubkey(aead: Aead, key: Subkey, nonce: Bytes, plaintext: Bytes, aad: string)
    returns (packed: Bytes)
    ensures packed == Packed(aead, key, nonce, aad, plaintext)
  {
    var ct := aead.seal(key, nonce, aad, plaintext);
    var buffer := new Byte[|nonce| + |ct|];
    forall i | 0 <= i < |nonce| {
      buffer[i] := nonce[i];
    }
    forall i | 0 <= i < |ct| {
      buffer[|nonce| + i] := ct[i];
    }
    assert buffer[..] == nonce + ct;
    packed := buffer[..];
  }

  /******* The data layer's tables *******/

  class DataLayer {
    var envelopes: Envelopes
    var working: map<Key, Bytes>
    var outbox: seq<Wire>

    // A refused AAD part throws before anything is written.
    method SaveRecord(aead: Aead, dek: nat, user: UserId, key: Key, nonce: Bytes, plaintext: Bytes, ts: string)
      returns (r: Result<(), Failure>)
      modifies this`working, this`outbox
      ensures r.Ok? <==> Sealed(aead, dek, user, key, nonce, plaintext, ts).Ok?
      ensures r.Ok? ==>
        && working == old(working)[key := plaintext]
        && outbox == old(outbox) + [Sealed(aead, dek, user, key, nonce, plaintext, ts).value]
      ensures r.Err? ==> working == old(working) && outbox == old(outbox)
    {
      var aad := BuildAadString(user, key.kind, key.id);
      if aad.Err? {
        return Err(BadAad);
      }
      var packed := EncryptWithSubkey(aead, Subkey(dek, key.kind), nonce, plaintext, aad.value);
      var nonceText := ToB64(nonce);
      var text := ToB64(packed);
      var envelope := Wire(key.id, KindName(key.kind), nonceText, text, aad.value, ts);
      working := working[key := plaintext];
      outbox := outbox + [envelope];
      r := Ok(());
    }

    // The loop over the cached rows of one type, given how to open one of them; a row
    // that fails to open throws, with the rows before it already in the working set.
    method OpenRows(rows: seq<Key>, open: CacheRow -> Result<Bytes, Failure>)
      returns (r: Result<map<Key, Bytes>, Failure>)
      requires forall k :: k in rows ==> k in envelopes
      modifies this`working
      ensures r.Ok? ==>
        AllOpen(envelopes, rows, open) && r.value == Readable(envelopes, rows, open) && working == old(working) + r.value
      ensures r.Err? ==> StoppedEarly(envelopes, old(working), rows, open, working, r.error)
    {
      var covered: map<Key, Bytes> := map[];
      for i := 0 to |rows|
        invariant AllOpen(envelopes, rows[..i], open)
        invariant covered == Readable(envelopes, rows[..i], open)
        invariant working == old(working) + covered
      {
        var key := rows[i];
        ReadableStep(envelopes, rows, i, open);
        if !envelopes[key].deleted {
          var plaintext := open(envelopes[key]);
          if plaintext.Err? {
            assert StopsAt(envelopes, rows, i, open);
            return Err(plaintext.error);
          }
          BothGrow(old(working), covered, key, plaintext.value);
          working := working[key := plaintext.value];
          covered := covered[key := plaintext.value];
        }
      }
      assert rows[..|rows|] == rows;
      r := Ok(covered);
    }

    method LoadRows(kind: Kind, rows: seq<Key>, open: CacheRow -> Result<Bytes, Failure>)
      returns (r: Result<map<Key, Bytes>, Failure>)
      requires forall k :: k in rows <==> k in envelopes && k.kind == kind
      modifies this`working
      ensures Loaded(envelopes, old(working), kind, rows, open, working, r)
    {
      r := OpenRows(rows, open);
      if r.Ok? {
        // freshly saved rows that no envelope covers yet
        CoveredAndPending(working, r.value, kind);
        r := Ok(r.value + OfKind(working, kind, r.value.Keys));
      }
    }

    // The flush before the read merges `pulled`, nothing when it fails early; `rows` is
    // what the cache then lists for the type.
    method LoadWorking(aead: Aead, dek: nat, kind: Kind, pulled: seq<WireChange>, rows: seq<Key>)
      returns (r: Result<map<Key, Bytes>, Failure>)
      requires forall k :: k in rows <==> k in MergeAll(envelopes, pulled) && k.kind == kind
      modifies this`working, this`envelopes
      ensures envelopes == MergeAll(old(envelopes), pulled)
      ensures Loaded(envelopes, Surviving(old(working), pulled), kind, rows,
                     (row: CacheRow) => Opened(aead, dek, kind, row), working, r)
    {
      envelopes := MergeAll(envelopes, pulled);
      working := Surviving(working, pulled);
      r := LoadRows(kind, rows, (row: CacheRow) => Opened(aead, dek, kind, row));
    }
  }

  ghost predicate AllOpen(envelopes: Envelopes, rows: seq<Key>, open: CacheRow -> Result<Bytes, Failure>) {
    forall k :: k in rows && k in envelopes && !envelopes[k].deleted ==> open(envelopes[k]).Ok?
  }

  // The first of the listed rows that has to be opened and fails to.
  ghost predicate StopsAt(envelopes: Envelopes, rows: seq<Key>, n: nat, open: CacheRow -> Result<Bytes, Failure>) {
    && n < |rows| && rows[n] in envelopes && !envelopes[rows[n]].deleted && open(envelopes[rows[n]]).Err?
    && AllOpen(envelopes, rows[..n], open)
  }

  ghost predicate StoppedEarly(envelopes: Envelopes, before: map<Key, Bytes>, rows: seq<Key>,
                               open: CacheRow -> Result<Bytes, Failure>, after: map<Key, Bytes>, error: Failure)
  {
    exists n: nat :: StopsAt(envelopes, rows, n, open) && open(envelopes[rows[n]]).error == error
                     && after == before + Readable(envelopes, rows[..n], open)
  }

  // What a load over the listed rows leaves in the working set, and what it returns: all
  // the type's unflagged rows opened into it, or those before the first that fails.
  ghost predicate Loaded(envelopes: Envelopes, before: map<Key, Bytes>, kind: Kind, rows: seq<Key>,
                         open: CacheRow -> Result<Bytes, Failure>, after: map<Key, Bytes>,
                         r: Result<map<Key, Bytes>, Failure>)
  {
    match r
    case Ok(out) =>
      && AllOpen(envelopes, rows, open)
      && after == before + Readable(envelopes, rows, open)
      && out == OfKind(after, kind, {})
    case Err(error) => StoppedEarly(envelopes, before, rows, open, after, error)
  }

  // What the listed rows open to; rows flagged as deleted are passed over.
  function Readable(envelopes: Envelopes, rows: seq<Key>, open: CacheRow -> Result<Bytes, Failure>): map<Key, Bytes> {
    map k | k in rows && k in envelopes && !envelopes[k].deleted && open(envelopes[k]).Ok? :: open(envelopes[k]).value
  }

  // A row that opens joins both what is covered and the working set.
  lemma BothGrow(before: map<Key, Bytes>, covered: map<Key, Bytes>, key: Key, plaintext: Bytes)
    ensures (before + covered)[key := plaintext] == before + covered[key := plaintext]
  {
  }

  lemma ReadableStep(envelopes: Envelopes, rows: seq<Key>, i: nat, open: CacheRow -> Result<Bytes, Failure>)
    requires i < |rows| && rows[i] in envelopes
    ensures Readable(envelopes, rows[..i + 1], open) ==
      if envelopes[rows[i]].deleted || open(envelopes[rows[i]]).Err? then Readable(envelopes, rows[..i], open)
      else Readable(envelopes, rows[..i], open)[rows[i] := open(envelopes[rows[i]]).value]
    ensures AllOpen(envelopes, rows[..i + 1], open) <==>
      AllOpen(envelopes, rows[..i], open) && (envelopes[rows[i]].deleted || open(envelopes[rows[i]]).Ok?)
  {
    assert rows[..i + 1] == rows[..i] + [rows[i]];
  }

  // The working rows of one type, but for those already covered.
  function OfKind(working: map<Key, Bytes>, kind: Kind, covered: set<Key>): map<Key, Bytes> {
    map k | k in working && k.kind == kind && k !in covered :: working[k]
  }

  lemma CoveredAndPending(working: map<Key, Bytes>, covered: map<Key, Bytes>, kind: Kind)
    requires forall k :: k in covered ==> k.kind == kind && k in working && working[k] == covered[k]
    ensures covered + OfKind(working, kind, covered.Keys) == OfKind(working, kind, {})
  {
  }

  /******* From save to load *******/

  // The push the server should make of a saved record.
  function SentPush(aead: Aead, dek: nat, user: UserId, key: Key, nonce: Bytes, plaintext: Bytes, ts: Instant): Push {
    Push(key, Packed(aead, Subkey(dek, key.kind), nonce, BuildAad(user, KindName(key.kind), key.id), plaintext), ts)
  }

  // Every envelope saveRecord builds is accepted, and becomes the push of its own blob.
  lemma {:induction false} SavedEnvelopeIsAccepted(aead: Aead, dek: nat, user: UserId, key: Key, nonce: Bytes, plaintext: Bytes,
                                ts: string, parse: TimeParser, now: Instant)
    requires Correct(aead)
    requires CanonicalUuid(user) && CanonicalUuid(key.id) && Syncable(key.kind) && |nonce| == NONCE_BYTES
    requires ts != "" && parse(ts).Some? && parse(ts).value <= now + FUTURE_TOLERANCE
    ensures Sealed(aead, dek, user, key, nonce, plaintext, ts).Ok?
    ensures var w := Sealed(aead, dek, user, key, nonce, plaintext, ts).value;
      && StrictEnvelope(Print(w)) == Ok(w)
      && Validates(user, w, parse, now)
      && Convert(user, Print(w), parse, now) == Some(SentPush(aead, dek, user, key, nonce, plaintext, parse(ts).value))
  {
    UuidsAreBarFree(user);
    UuidsAreBarFree(key.id);
    var w := Sealed(aead, dek, user, key, nonce, plaintext, ts).value;
    var packed := Packed(aead, Subkey(dek, key.kind), nonce, w.aad, plaintext);
    assert |packed| >= NONCE_BYTES + TAG_BYTES;
    StrictReadsPrinted(w);
    StrictAcceptsExactlyCanonical(w.nonce, nonce);
    StrictAcceptsExactlyCanonical(w.ciphertext, packed);
    FlexibleReadsBothForms(packed);
    UnpaddedEncode(nonce);
    UnpaddedEncode(packed);
    KindNamesDiffer(key.kind, KindOfName(KindName(key.kind)).value);
  }

  // A blob that went out through the reply opens under the server-rebuilt AAD.
  lemma MirroredBlobOpens(aead: Aead, dek: nat, user: UserId, key: Key, nonce: Bytes, plaintext: Bytes, ts: int)
    requires Correct(aead) && |nonce| == NONCE_BYTES
    ensures var aad := BuildAad(user, KindName(key.kind), key.id);
      var packed := Packed(aead, Subkey(dek, key.kind), nonce, aad, plaintext);
      Opened(aead, dek, key.kind, CacheRow(EncodeStd(packed), aad, ts, false)) == Ok(plaintext)
  {
    var aad := BuildAad(user, KindName(key.kind), key.id);
    var ct := aead.seal(Subkey(dek, key.kind), nonce, aad, plaintext);
    FromB64ReadsBothForms(nonce + ct);
    assert (nonce + ct)[..NONCE_BYTES] == nonce && (nonce + ct)[NONCE_BYTES..] == ct;
  }

  // The version committed by a winning push is the row for as long as its ts stands.
  lemma VersionStands(rows: Tables, user: UserId, p: Push, later: seq<Op>)
    requires PushOne(rows, user, p).Ok? && Writes(rows, p)
    requires p.key in rows ==> rows[p.key].owner == user && rows[p.key].deletedAt.None?
    requires var now := Run(PushOne(rows, user, p).value, later);
      p.key in now ==> now[p.key].updatedAt == p.ts && now[p.key].deletedAt.None?
    ensures var now := Run(PushOne(rows, user, p).value, later);
      p.key in now && now[p.key] == Row(user, p.blob, p.ts, None)
  {
    RunEvolves(PushOne(rows, user, p).value, later);
  }

  // What the device should cache of a version.
  function CachedAs(user: UserId, p: Push): CacheRow {
    CacheRow(EncodeStd(p.blob), BuildAad(user, KindName(p.key.kind), p.key.id), WholeSecond(p.ts), false)
  }

  // A standing version that the pull reports replaces a cache row of an earlier second,
  // and no other.
  lemma PullBringsTheRow(rows: Tables, user: UserId, p: Push, later: seq<Op>,
                         order: Order, since: Instant, limit: int, answer: seq<Scanned>, cache: Envelopes)
    requires PushOne(rows, user, p).Ok? && Writes(rows, p)
    requires p.key in rows ==> rows[p.key].owner == user && rows[p.key].deletedAt.None?
    requires var now := Run(PushOne(rows, user, p).value, later);
      && (p.key in now ==> now[p.key].updatedAt == p.ts && now[p.key].deletedAt.None?)
      && IsAnswer(order, now, user, since, limit, answer)
    requires p.key in Keys(answer)
    ensures var now := Run(PushOne(rows, user, p).value, later);
      Lookup(MergeAll(cache, SyncMachine.Page(user, now, since, answer)), p.key) ==
      Some(if p.key in cache && cache[p.key].ts >= WholeSecond(p.ts) then cache[p.key] else CachedAs(user, p))
  {
    VersionStands(rows, user, p, later);
    var now := Run(PushOne(rows, user, p).value, later);
    var page := SyncMachine.Page(user, now, since, answer);
    var i :| 0 <= i < |answer| && answer[i].key == p.key;
    assert page[i] == SyncHandler.ToWire(user, ChangeOf(p.key, now[p.key]));
    MergeAllAt(cache, page, p.key);
  }

  // Save on one device; push; any later traffic that leaves the version standing; pull
  // and merge on any device of the user: the cache takes the version exactly when what it
  // held was absent, of an earlier second, or this version already, and keeps what it
  // held otherwise.  What it takes opens to the original plaintext.
  lemma {:induction false} SaveThenLoad(aead: Aead, dek: nat, user: UserId, key: Key, nonce: Bytes, plaintext: Bytes,
                     ts: string, parse: TimeParser, now: Instant,
                     rows: Tables, later: seq<Op>, order: Order, since: Instant, limit: int, answer: seq<Scanned>,
                     cache: Envelopes)
    requires Correct(aead)
    requires CanonicalUuid(user) && CanonicalUuid(key.id) && Syncable(key.kind) && |nonce| == NONCE_BYTES
    requires ts != "" && parse(ts).Some? && parse(ts).value <= now + FUTURE_TOLERANCE
    requires key in rows ==> rows[key].owner == user && rows[key].deletedAt.None?
    requires key in rows ==> !key.kind.Chat? && rows[key].updatedAt < parse(ts).value
    requires var sent := SentPush(aead, dek, user, key, nonce, plaintext, parse(ts).value);
      var server := Run(PushOne(rows, user, sent).value, later);
      && (key in server ==> server[key].updatedAt == sent.ts && server[key].deletedAt.None?)
      && IsAnswer(order, server, user, since, limit, answer)
      && key in Keys(answer)
    ensures var sent := SentPush(aead, dek, user, key, nonce, plaintext, parse(ts).value);
      var server := Run(PushOne(rows, user, sent).value, later);
      var merged := MergeAll(cache, SyncMachine.Page(user, server, since, answer));
      && Sealed(aead, dek, user, key, nonce, plaintext, ts).Ok?
      && Convert(user, Print(Sealed(aead, dek, user, key, nonce, plaintext, ts).value), parse, now) == Some(sent)
      && !CachedAs(user, sent).deleted && Opened(aead, dek, key.kind, CachedAs(user, sent)) == Ok(plaintext)
      && (Lookup(merged, key) == Some(CachedAs(user, sent)) <==>
            key !in cache || cache[key].ts < WholeSecond(sent.ts) || cache[key] == CachedAs(user, sent))
      && (Lookup(merged, key) == Some(CachedAs(user, sent)) || Lookup(merged, key) == Lookup(cache, key))
  {
    SavedEnvelopeIsAccepted(aead, dek, user, key, nonce, plaintext, ts, parse, now);
    var sent := SentPush(aead, dek, user, key, nonce, plaintext, parse(ts).value);
    PullBringsTheRow(rows, user, sent, later, order, since, limit, answer, cache);
    MirroredBlobOpens(aead, dek, user, key, nonce, plaintext, WholeSecond(sent.ts));
  }
}
