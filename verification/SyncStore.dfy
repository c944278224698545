/**
 The server's sync store: the upsert loop, the tombstoning delete and the delta
 pull.  A SQL statement is one atomic step; a transaction is a private copy of the
 tables that replaces them on commit.
 */
module SyncStore {
  import opened Wrappers
  import opened Records

  datatype Error = UnknownType | NoRows | NoSuchColumn

  // The envelope that won, as stored.
  datatype Outcome = Outcome(key: Key, applied: bool, blob: Bytes, ts: Instant)

  const ZEROED: Bytes := [0]

  /******* Specification of one upsert *******/

  // Whether `insert ... on conflict` writes: a fresh id, or (never for chat) a newer ts.
  predicate Writes(rows: Tables, p: Push) {
    p.key !in rows || (!p.key.kind.Chat? && rows[p.key].updatedAt < p.ts)
  }

  function Written(rows: Tables, user: UserId, p: Push): Row {
    if p.key in rows
    then rows[p.key].(blob := p.blob, updatedAt := p.ts)
    else Row(user, p.blob, p.ts, None)
  }

  function PushOne(rows: Tables, user: UserId, p: Push): Result<Tables, Error> {
    if !Syncable(p.key.kind) then Err(UnknownType)
    else if Writes(rows, p) then Ok(rows[p.key := Written(rows, user, p)])
    else if rows[p.key].owner == user then Ok(rows)
    else Err(NoRows)
  }

  function PushAll(rows: Tables, user: UserId, pushes: seq<Push>): Result<Tables, Error>
    decreases pushes
  {
    if pushes == [] then Ok(rows)
    else
      var next :- PushOne(rows, user, pushes[0]);
      PushAll(next, user, pushes[1..])
  }

  // What stays in the tables: a failed batch is rolled back.
  function AfterPush(rows: Tables, user: UserId, pushes: seq<Push>): Tables {
    match PushAll(rows, user, pushes)
    case Ok(next) => next
    case Err(_) => rows
  }

  // What the loop reports for one push: the envelope stored after it.
  function Winner(rows: Tables, p: Push): Outcome {
    if Writes(rows, p) then Outcome(p.key, true, p.blob, p.ts)
    else Outcome(p.key, false, rows[p.key].blob, rows[p.key].updatedAt)
  }

  function DeleteOne(rows: Tables, user: UserId, key: Key, ts: Instant): Result<Tables, Error> {
    if !Syncable(key.kind) then Err(UnknownType)
    else if key.kind.Chat? then Err(NoSuchColumn)
    else if Deletes(rows, user, key, ts)
    then Ok(rows[key := rows[key].(deletedAt := Some(ts), blob := ZEROED, updatedAt := ts)])
    else Ok(rows)
  }

  // The `where` clause of the tombstoning update.
  predicate Deletes(rows: Tables, user: UserId, key: Key, ts: Instant) {
    key in rows && rows[key].owner == user && rows[key].deletedAt.None? && rows[key].updatedAt <= ts
  }

  function AfterDelete(rows: Tables, user: UserId, key: Key, ts: Instant): Tables {
    match DeleteOne(rows, user, key, ts)
    case Ok(next) => next
    case Err(_) => rows
  }

  /******* Specification of the delta pull *******/

  // A change object: a live envelope or a tombstone, never both.
  datatype Change =
    | Envelope(key: Key, blob: Bytes, ts: Instant)
    | Tombstone(key: Key, deletedAt: Instant)

  function ChangeOf(key: Key, row: Row): Change {
    if row.deletedAt.Some? then Tombstone(key, row.deletedAt.value)
    else Envelope(key, row.blob, row.updatedAt)
  }

  // A row of the three-way union, as scanned.
  datatype Scanned = Scanned(key: Key, blob: Bytes, updatedAt: Instant, deletedAt: Option<Instant>)

  predicate Matches(rows: Tables, user: UserId, since: Instant, key: Key) {
    key in rows && rows[key].owner == user && rows[key].updatedAt > since
  }

  predicate Truthful(rows: Tables, user: UserId, since: Instant, answer: seq<Scanned>) {
    forall i :: 0 <= i < |answer| ==>
      && Matches(rows, user, since, answer[i].key)
      && var row := rows[answer[i].key];
         answer[i] == Scanned(answer[i].key, row.blob, row.updatedAt, row.deletedAt)
  }

  // The last element of `maxTS` over a page, starting from the zero time.
  function MaxTs(answer: seq<Scanned>): (m: Instant)
    ensures 0 <= m
    ensures forall i :: 0 <= i < |answer| ==> answer[i].updatedAt <= m
    ensures m == 0 || exists i :: 0 <= i < |answer| && answer[i].updatedAt == m
  {
    if answer == [] then 0
    else
      var rest := MaxTs(answer[..|answer| - 1]);
      var last := answer[|answer| - 1].updatedAt;
      assert answer == answer[..|answer| - 1] + [answer[|answer| - 1]];
      if last > rest then last else rest
  }

  /******* The store *******/

  // One push inside the transaction: the upsert, and on a conflict that changes nothing
  // the select of the stored row.
  method PushRecord(tx: Tables, user: UserId, p: Push) returns (r: Result<Tables, Error>, applied: bool)
    ensures r == PushOne(tx, user, p)
    ensures applied <==> r.Ok? && Writes(tx, p)
  {
    match p.key.kind {
      case Transactions | Accounts =>
        if p.key !in tx {
          return Ok(tx[p.key := Row(user, p.blob, p.ts, None)]), true;
        }
        if tx[p.key].updatedAt < p.ts {
          return Ok(tx[p.key := tx[p.key].(blob := p.blob, updatedAt := p.ts)]), true;
        }
      case Chat =>
        if p.key !in tx {
          return Ok(tx[p.key := Row(user, p.blob, p.ts, None)]), true;
        }
      case Attachments | Vault =>
        return Err(UnknownType), false;
    }
    if tx[p.key].owner != user {
      return Err(NoRows), false;
    }
    return Ok(tx), false;
  }

  class Store {
    var rows: Tables

    method PushEnvelopes(user: UserId, pushes: seq<Push>) returns (r: Result<seq<Outcome>, Error>)
      modifies this
      ensures r.Ok? <==> PushAll(old(rows), user, pushes).Ok?
      ensures rows == AfterPush(old(rows), user, pushes)
      ensures r.Err? ==> rows == old(rows) && r.error == PushAll(old(rows), user, pushes).error
      ensures r.Ok? ==> |r.value| == |pushes|
      ensures r.Ok? ==> forall i :: 0 <= i < |pushes| ==>
        r.value[i] == Winner(AfterPush(old(rows), user, pushes[..i]), pushes[i])
    {
      var tx := rows;
      var out: seq<Outcome> := [];
      for i := 0 to |pushes|
        invariant rows == old(rows)
        invariant PushAll(rows, user, pushes[..i]) == Ok(tx)
        invariant |out| == i
        invariant forall j :: 0 <= j < i ==> out[j] == Winner(AfterPush(rows, user, pushes[..j]), pushes[j])
      {
        var p := pushes[i];
        PushAllStep(rows, user, pushes, i);
        var upserted, applied := PushRecord(tx, user, p);
        if upserted.Err? {
          PushAllFails(rows, user, pushes, i + 1);
          return Err(upserted.error);
        }
        tx := upserted.value;
        out := out + [Outcome(p.key, applied, tx[p.key].blob, tx[p.key].updatedAt)];
      }
      assert pushes[..|pushes|] == pushes;
      rows := tx;
      r := Ok(out);
    }

    method DeleteRecord(user: UserId, key: Key, ts: Instant) returns (r: Result<bool, Error>)
      modifies this
      ensures rows == AfterDelete(old(rows), user, key, ts)
      ensures r.Err? <==> !Syncable(key.kind) || key.kind.Chat?
      ensures r.Ok? ==> (r.value <==> Deletes(old(rows), user, key, ts))
      ensures r.Ok? && r.value ==> rows[key] == Row(user, ZEROED, ts, Some(ts))
    {
      match key.kind {
        case Attachments | Vault => return Err(UnknownType);
        case Chat => return Err(NoSuchColumn);
        case Transactions | Accounts =>
      }
      if key in rows && rows[key].owner == user && rows[key].deletedAt.None? && rows[key].updatedAt <= ts {
        rows := rows[key := rows[key].(deletedAt := Some(ts), blob := ZEROED, updatedAt := ts)];
        return Ok(true);
      }
      return Ok(false);
    }

    // The loop over the query's answer.
    method PullChanges(user: UserId, since: Instant, answer: seq<Scanned>)
      returns (changes: seq<Change>, maxTs: Instant)
      requires Truthful(rows, user, since, answer)
      ensures |changes| == |answer|
      ensures forall i :: 0 <= i < |answer| ==>
        answer[i].key in rows && changes[i] == ChangeOf(answer[i].key, rows[answer[i].key])
      ensures maxTs == MaxTs(answer)
    {
      changes, maxTs := [], 0;
      for i := 0 to |answer|
        invariant |changes| == i
        invariant forall j :: 0 <= j < i ==>
          answer[j].key in rows && changes[j] == ChangeOf(answer[j].key, rows[answer[j].key])
        invariant maxTs == MaxTs(answer[..i])
      {
        var row := answer[i];
        if row.deletedAt.Some? {
          changes := changes + [Tombstone(row.key, row.deletedAt.value)];
        } else {
          changes := changes + [Envelope(row.key, row.blob, row.updatedAt)];
        }
        assert answer[..i + 1][..i] == answer[..i];
        if row.updatedAt > maxTs {
          maxTs := row.updatedAt;
        }
      }
      assert answer[..|answer|] == answer;
    }
  }

  /******* A batch, one push at a time *******/

  lemma {:induction false} PushAllAppend(rows: Tables, user: UserId, first: seq<Push>, second: seq<Push>)
    ensures PushAll(rows, user, first).Err? ==>
      PushAll(rows, user, first + second) == PushAll(rows, user, first)
    ensures PushAll(rows, user, first).Ok? ==>
      PushAll(rows, user, first + second) == PushAll(PushAll(rows, user, first).value, user, second)
    decreases first
  {
    if first == [] {
      assert first + second == second;
    } else {
      assert (first + second)[1..] == first[1..] + second;
      var next := PushOne(rows, user, first[0]);
      if next.Ok? {
        PushAllAppend(next.value, user, first[1..], second);
      }
    }
  }

  lemma PushAllStep(rows: Tables, user: UserId, pushes: seq<Push>, i: nat)
    requires i < |pushes| && PushAll(rows, user, pushes[..i]).Ok?
    ensures PushAll(rows, user, pushes[..i + 1]) ==
            PushOne(PushAll(rows, user, pushes[..i]).value, user, pushes[i])
  {
    assert pushes[..i + 1] == pushes[..i] + [pushes[i]];
    PushAllAppend(rows, user, pushes[..i], [pushes[i]]);
    var mid := PushAll(rows, user, pushes[..i]).value;
    assert [pushes[i]][1..] == [];
    var last := PushOne(mid, user, pushes[i]);
    if last.Ok? {
      assert PushAll(last.value, user, []) == Ok(last.value);
    }
  }

  lemma PushAllFails(rows: Tables, user: UserId, pushes: seq<Push>, i: nat)
    requires i <= |pushes| && PushAll(rows, user, pushes[..i]).Err?
    ensures PushAll(rows, user, pushes) == PushAll(rows, user, pushes[..i])
  {
    assert pushes == pushes[..i] + pushes[i..];
    PushAllAppend(rows, user, pushes[..i], pushes[i..]);
  }
}
