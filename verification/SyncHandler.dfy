/**
 The sync and delete endpoints around the store: the reply built from a pull, and the
 status a delete answers with, as the client's fetch wrapper reads it.
 */
module SyncHandler {
  import opened Wrappers
  import opened Records
  import opened SyncStore
  import opened Base64
  import opened Aad

  // A change object of the reply; its timestamps are whole seconds.
  datatype WireChange =
    | WireEnvelope(key: Key, ciphertext: string, aad: string, ts: int)
    | WireTombstone(key: Key, deletedAt: int)

  function ToWire(user: UserId, c: Change): WireChange {
    match c
    case Envelope(key, blob, ts) =>
      WireEnvelope(key, EncodeStd(blob), BuildAad(user, KindName(key.kind), key.id), WholeSecond(ts))
    case Tombstone(key, deletedAt) => WireTombstone(key, WholeSecond(deletedAt))
  }

  // The loop that fills resp.Changes.
  method BuildReply(user: UserId, changes: seq<Change>, maxTs: Instant)
    returns (reply: seq<WireChange>, nextCursor: Option<Instant>)
    ensures |reply| == |changes|
    ensures forall i :: 0 <= i < |changes| ==> reply[i] == ToWire(user, changes[i])
    ensures nextCursor == if maxTs == 0 then None else Some(maxTs)
  {
    reply := [];
    for i := 0 to |changes|
      invariant |reply| == i
      invariant forall j :: 0 <= j < i ==> reply[j] == ToWire(user, changes[j])
    {
      var c := changes[i];
      if c.Tombstone? {
        reply := reply + [WireTombstone(c.key, WholeSecond(c.deletedAt))];
      } else {
        reply := reply + [WireEnvelope(c.key, EncodeStd(c.blob), BuildAad(user, KindName(c.key.kind), c.key.id),
                                       WholeSecond(c.ts))];
      }
    }
    nextCursor := if maxTs == 0 then None else Some(maxTs);
  }

  /******* DELETE *******/

  const FUTURE_TOLERANCE := 300 * MICROS_PER_SECOND

  // A response: its status, and whether its body is JSON.
  datatype Http = Http(status: int, json: bool)

  // apiFetch returns only for a 2xx response whose body parses as JSON.
  predicate FetchReturns(h: Http) { 200 <= h.status < 300 && h.json }

  function HandleDelete(rows: Tables, user: UserId, key: Key, ts: Instant, now: Instant): (Tables, Http) {
    if !Syncable(key.kind) then (rows, Http(400, true))
    else if ts > now + FUTURE_TOLERANCE then (rows, Http(400, true))
    else if DeleteOne(rows, user, key, ts).Err? then (rows, Http(500, true))
    else if !Deletes(rows, user, key, ts) then (rows, Http(409, true))
    else (DeleteOne(rows, user, key, ts).value, Http(204, false))
  }

  // A delete is applied exactly when the reply is 204; that reply has no body, so the
  // client's fetch throws on every outcome and the queued delete is never cleared.
  lemma DeleteReplies(rows: Tables, user: UserId, key: Key, ts: Instant, now: Instant)
    ensures var (after, h) := HandleDelete(rows, user, key, ts, now);
      && !FetchReturns(h)
      && (h.status == 204 <==> after != rows)
      && (h.status == 204 ==> after == AfterDelete(rows, user, key, ts))
      && (key.kind.Chat? ==> after == rows && h.status in {400, 500})
  {
  }
}
