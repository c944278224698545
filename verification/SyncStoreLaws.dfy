/**
 What whole runs of pushes and deletes keep: rows never go back in time, re-sent
 requests have no effect, pushes converge whatever their order, tombstones stay.
 */
module SyncStoreLaws {
  import opened Wrappers
  import opened Records
  import opened SyncStore

  // One request that reached the database.
  datatype Op =
    | PushBatch(user: UserId, pushes: seq<Push>)
    | Delete(user: UserId, key: Key, ts: Instant)

  function Serve(rows: Tables, op: Op): Tables {
    match op
    case PushBatch(user, pushes) => AfterPush(rows, user, pushes)
    case Delete(user, key, ts) => AfterDelete(rows, user, key, ts)
  }

  function Run(rows: Tables, ops: seq<Op>): Tables {
    if ops == [] then rows else Serve(Run(rows, ops[..|ops| - 1]), ops[|ops| - 1])
  }

  lemma {:induction false} RunAppend(rows: Tables, first: seq<Op>, second: seq<Op>)
    ensures Run(rows, first + second) == Run(Run(rows, first), second)
  {
    if second == [] {
      assert first + second == first;
    } else {
      var n := |second| - 1;
      assert (first + second)[..|first + second| - 1] == first + second[..n];
      RunAppend(rows, first, second[..n]);
    }
  }

  // What the loop reports for a push is the row as it then stands, so the pusher learns
  // the winner even when its own envelope lost.
  lemma WinnerIsTheStoredRow(rows: Tables, user: UserId, p: Push)
    requires PushOne(rows, user, p).Ok?
    ensures var after := PushOne(rows, user, p).value;
      && p.key in after
      && Winner(rows, p) == Outcome(p.key, after != rows, after[p.key].blob, after[p.key].updatedAt)
  {
  }

  /******* Rows persist and never go back in time *******/

  predicate RowEvolves(kind: Kind, before: Row, after: Row) {
    && after.owner == before.owner
    && before.updatedAt <= after.updatedAt
    && (before.updatedAt == after.updatedAt && before.deletedAt == after.deletedAt ==> after == before)
    && (before.deletedAt.Some? ==> after.deletedAt == before.deletedAt)
    && (kind.Chat? ==> after == before)
  }

  ghost predicate Evolves(before: Tables, after: Tables) {
    forall k :: k in before ==> k in after && RowEvolves(k.kind, before[k], after[k])
  }

  lemma {:induction false} PushAllEvolves(rows: Tables, user: UserId, pushes: seq<Push>)
    requires PushAll(rows, user, pushes).Ok?
    ensures Evolves(rows, PushAll(rows, user, pushes).value)
    decreases pushes
  {
    if pushes != [] {
      PushAllEvolves(PushOne(rows, user, pushes[0]).value, user, pushes[1..]);
    }
  }

  lemma ServeEvolves(rows: Tables, op: Op)
    ensures Evolves(rows, Serve(rows, op))
  {
    if op.PushBatch? && PushAll(rows, op.user, op.pushes).Ok? {
      PushAllEvolves(rows, op.user, op.pushes);
    }
  }

  lemma {:induction false} RunEvolves(rows: Tables, ops: seq<Op>)
    ensures Evolves(rows, Run(rows, ops))
  {
    if ops != [] {
      RunEvolves(rows, ops[..|ops| - 1]);
      ServeEvolves(Run(rows, ops[..|ops| - 1]), ops[|ops| - 1]);
    }
  }

  /******* At-least-once delivery has exactly-once effect *******/

  // The server needs nothing more from this envelope.
  predicate Held(rows: Tables, p: Push) {
    p.key in rows && (p.key.kind.Chat? || p.ts <= rows[p.key].updatedAt)
  }

  lemma {:induction false} CommittedIsHeld(rows: Tables, user: UserId, pushes: seq<Push>)
    requires PushAll(rows, user, pushes).Ok?
    ensures forall p :: p in pushes ==> Held(PushAll(rows, user, pushes).value, p)
    decreases pushes
  {
    if pushes != [] {
      var next := PushOne(rows, user, pushes[0]).value;
      CommittedIsHeld(next, user, pushes[1..]);
      PushAllEvolves(next, user, pushes[1..]);
      assert Held(next, pushes[0]);
    }
  }

  lemma {:induction false} HeldIsNoOp(rows: Tables, user: UserId, pushes: seq<Push>)
    requires forall p :: p in pushes ==> Held(rows, p)
    ensures AfterPush(rows, user, pushes) == rows
    decreases pushes
  {
    if pushes != [] {
      assert Held(rows, pushes[0]);
      HeldIsNoOp(rows, user, pushes[1..]);
    }
  }

  lemma ReplayedBatchChangesNothing(rows: Tables, user: UserId, pushes: seq<Push>, later: seq<Op>)
    requires PushAll(rows, user, pushes).Ok?
    ensures var now := Run(Serve(rows, PushBatch(user, pushes)), later);
            Serve(now, PushBatch(user, pushes)) == now
  {
    var committed := PushAll(rows, user, pushes).value;
    CommittedIsHeld(rows, user, pushes);
    RunEvolves(committed, later);
    HeldIsNoOp(Run(committed, later), user, pushes);
  }

  lemma ReplayedDeleteChangesNothing(rows: Tables, user: UserId, key: Key, ts: Instant, later: seq<Op>)
    requires Syncable(key.kind) && !key.kind.Chat? && Deletes(rows, user, key, ts)
    ensures var now := Run(Serve(rows, Delete(user, key, ts)), later);
            Serve(now, Delete(user, key, ts)) == now
  {
    RunEvolves(Serve(rows, Delete(user, key, ts)), later);
  }

  /******* Last-writer-wins convergence *******/

  // One push and the user who sent it.
  datatype Sent = Sent(user: UserId, push: Push)

  datatype Batch = Batch(user: UserId, pushes: seq<Push>)

  function Deliver(rows: Tables, batches: seq<Batch>): Tables {
    if batches == [] then rows
    else
      var last := batches[|batches| - 1];
      AfterPush(Deliver(rows, batches[..|batches| - 1]), last.user, last.pushes)
  }

  function Tagged(user: UserId, pushes: seq<Push>): (r: seq<Sent>)
    ensures |r| == |pushes| && forall i :: 0 <= i < |r| ==> r[i] == Sent(user, pushes[i])
  {
    seq(|pushes|, i requires 0 <= i < |pushes| => Sent(user, pushes[i]))
  }

  function Flatten(batches: seq<Batch>): seq<Sent> {
    if batches == [] then []
    else
      var last := batches[|batches| - 1];
      Flatten(batches[..|batches| - 1]) + Tagged(last.user, last.pushes)
  }

  // Record ids are not shared between users: `home` names the one user of each id.
  ghost predicate AtHome(rows: Tables, home: RecordId -> UserId) {
    forall k :: k in rows ==> rows[k].owner == home(k.id)
  }

  ghost predicate FromHome(sents: seq<Sent>, home: RecordId -> UserId) {
    forall s :: s in sents ==>
      s.user == home(s.push.key.id) && (s.push.key.kind.Transactions? || s.push.key.kind.Accounts?)
  }

  ghost predicate TiesAgree(sents: multiset<Sent>) {
    forall s, t :: s in sents && t in sents && s.push.key == t.push.key && s.push.ts == t.push.ts ==>
      s.push.blob == t.push.blob
  }

  // The last-writer-wins outcome for one key, with no mention of an order.
  ghost predicate IsLww(rows: Tables, sents: multiset<Sent>, k: Key, after: Tables) {
    && (forall s :: s in sents && s.push.key == k ==> k in after && s.push.ts <= after[k].updatedAt)
    && (k in rows ==> k in after)
    && (k in after ==>
          || (k in rows && after[k] == rows[k])
          || exists s :: s in sents && FromSent(rows, s, k, after[k]))
  }

  // The row carries this push, which beat whatever was stored.
  predicate FromSent(rows: Tables, s: Sent, k: Key, row: Row) {
    && s.push.key == k
    && (k in rows ==> rows[k].updatedAt < s.push.ts)
    && row == if k in rows then rows[k].(blob := s.push.blob, updatedAt := s.push.ts)
              else Row(s.user, s.push.blob, s.push.ts, None)
  }

  lemma PushOneIsLww(rows: Tables, sents: seq<Sent>, mid: Tables, s: Sent, home: RecordId -> UserId)
    requires AtHome(rows, home) && AtHome(mid, home) && FromHome(sents + [s], home)
    requires forall k :: IsLww(rows, multiset(sents), k, mid)
    ensures PushOne(mid, s.user, s.push).Ok?
    ensures AtHome(PushOne(mid, s.user, s.push).value, home)
    ensures forall k :: IsLww(rows, multiset(sents + [s]), k, PushOne(mid, s.user, s.push).value)
  {
    assert s in sents + [s];
    var after := PushOne(mid, s.user, s.push).value;
    forall k ensures IsLww(rows, multiset(sents + [s]), k, after) {
      assert IsLww(rows, multiset(sents), k, mid);
      assert s in multiset(sents + [s]);
      if k == s.push.key && Writes(mid, s.push) {
        assert FromSent(rows, s, k, after[k]);
      } else if k in after && !(k in rows && after[k] == rows[k]) {
        var t :| t in multiset(sents) && FromSent(rows, t, k, mid[k]);
        assert t in multiset(sents + [s]) && FromSent(rows, t, k, after[k]);
      }
    }
  }

  lemma {:induction false} PushAllIsLww(rows: Tables, sents: seq<Sent>, mid: Tables, user: UserId, pushes: seq<Push>,
                                        home: RecordId -> UserId)
    requires AtHome(rows, home) && AtHome(mid, home) && FromHome(sents + Tagged(user, pushes), home)
    requires forall k :: IsLww(rows, multiset(sents), k, mid)
    ensures PushAll(mid, user, pushes).Ok?
    ensures AtHome(PushAll(mid, user, pushes).value, home)
    ensures forall k :: IsLww(rows, multiset(sents + Tagged(user, pushes)), k, PushAll(mid, user, pushes).value)
    decreases pushes
  {
    if pushes == [] {
      assert sents + Tagged(user, pushes) == sents;
    } else {
      var s := Sent(user, pushes[0]);
      assert sents + Tagged(user, pushes) == (sents + [s]) + Tagged(user, pushes[1..]);
      assert forall t :: t in sents + [s] ==> t in sents + Tagged(user, pushes);
      PushOneIsLww(rows, sents, mid, s, home);
      PushAllIsLww(rows, sents + [s], PushOne(mid, user, pushes[0]).value, user, pushes[1..], home);
    }
  }

  // The greatest ts wins, the stored row on a tie, however the pushes were batched.
  lemma {:induction false} DeliveryIsLww(rows: Tables, batches: seq<Batch>, home: RecordId -> UserId)
    requires AtHome(rows, home) && FromHome(Flatten(batches), home)
    ensures AtHome(Deliver(rows, batches), home)
    ensures forall k :: IsLww(rows, multiset(Flatten(batches)), k, Deliver(rows, batches))
  {
    if batches != [] {
      var init, last := batches[..|batches| - 1], batches[|batches| - 1];
      assert forall s :: s in Flatten(init) ==> s in Flatten(batches);
      DeliveryIsLww(rows, init, home);
      PushAllIsLww(rows, Flatten(init), Deliver(rows, init), last.user, last.pushes, home);
    }
  }

  lemma LwwIsUnique(rows: Tables, sents: multiset<Sent>, k: Key, one: Tables, two: Tables, home: RecordId -> UserId)
    requires IsLww(rows, sents, k, one) && IsLww(rows, sents, k, two)
    requires TiesAgree(sents)
    requires forall s :: s in sents ==> s.user == home(s.push.key.id)
    ensures k in one <==> k in two
    ensures k in one ==> one[k] == two[k]
  {
  }

  // Any order, any split into batches, any retries of whole batches in between.
  lemma {:induction false} DeliveryOrderIsIrrelevant(rows: Tables, one: seq<Batch>, two: seq<Batch>, home: RecordId -> UserId)
    requires AtHome(rows, home) && FromHome(Flatten(one), home)
    requires multiset(Flatten(one)) == multiset(Flatten(two))
    requires TiesAgree(multiset(Flatten(one)))
    ensures Deliver(rows, one) == Deliver(rows, two)
  {
    SameSents(Flatten(one), Flatten(two), home);
    DeliveryIsLww(rows, one, home);
    DeliveryIsLww(rows, two, home);
    var a, b := Deliver(rows, one), Deliver(rows, two);
    forall k ensures (k in a <==> k in b) && (k in a ==> a[k] == b[k]) {
      LwwIsUnique(rows, multiset(Flatten(one)), k, a, b, home);
    }
  }

  lemma SameSents(one: seq<Sent>, two: seq<Sent>, home: RecordId -> UserId)
    requires FromHome(one, home) && multiset(one) == multiset(two)
    ensures FromHome(two, home)
    ensures forall s :: s in multiset(one) ==> s.user == home(s.push.key.id)
  {
    forall s | s in two ensures s in one {
      assert s in multiset(two);
    }
  }

  // Chat is first-writer-wins: two pushes to a fresh chat id commute only when equal.
  lemma ChatConvergesIffEqual(rows: Tables, user: UserId, p: Push, q: Push)
    requires p.key == q.key && p.key.kind.Chat? && p.key !in rows
    ensures Deliver(rows, [Batch(user, [p, q])]) == Deliver(rows, [Batch(user, [q, p])])
            <==> p == q
  {
    ChatFirstWriterWins(rows, user, p, q);
    ChatFirstWriterWins(rows, user, q, p);
    var a, b := Deliver(rows, [Batch(user, [p, q])]), Deliver(rows, [Batch(user, [q, p])]);
    assert a == b ==> a[p.key] == b[p.key];
  }

  lemma ChatFirstWriterWins(rows: Tables, user: UserId, p: Push, q: Push)
    requires p.key == q.key && p.key.kind.Chat? && p.key !in rows
    ensures Deliver(rows, [Batch(user, [p, q])]) == rows[p.key := Row(user, p.blob, p.ts, None)]
  {
    var next := rows[p.key := Row(user, p.blob, p.ts, None)];
    assert [p, q][1..] == [q] && [q][1..] == [];
    assert PushAll(next, user, []) == Ok(next);
    assert PushAll(next, user, [q]) == Ok(next);
    assert PushAll(rows, user, [p, q]) == Ok(next);
    assert [Batch(user, [p, q])][..0] == [];
    assert Deliver(rows, []) == rows;
  }

  /******* Tombstones *******/

  lemma TombstonesArePermanent(rows: Tables, ops: seq<Op>, k: Key)
    requires k in rows && rows[k].deletedAt.Some?
    ensures k in Run(rows, ops)
    ensures ChangeOf(k, Run(rows, ops)[k]) == Tombstone(k, rows[k].deletedAt.value)
  {
    RunEvolves(rows, ops);
  }

  // The upsert does not look at deleted_at: a zeroed blob survives a push exactly
  // when the push is not newer, or carries the zero byte itself.
  lemma ZeroedBlobSurvivesIff(rows: Tables, user: UserId, p: Push)
    requires Syncable(p.key.kind) && !p.key.kind.Chat?
    requires p.key in rows && rows[p.key].owner == user
    requires rows[p.key].deletedAt.Some? && rows[p.key].blob == ZEROED
    ensures p.key in AfterPush(rows, user, [p])
    ensures AfterPush(rows, user, [p])[p.key].blob == ZEROED
            <==> p.ts <= rows[p.key].updatedAt || p.blob == ZEROED
    ensures AfterPush(rows, user, [p])[p.key].deletedAt == rows[p.key].deletedAt
  {
    var next := PushOne(rows, user, p).value;
    assert [p][1..] == [];
    assert PushAll(next, user, []) == Ok(next);
  }

  // Every push to the key is at most d, and this op does not delete the key.
  ghost predicate Below(op: Op, key: Key, d: Instant) {
    match op
    case PushBatch(_, pushes) => forall p :: p in pushes && p.key == key ==> p.ts <= d
    case Delete(_, k, _) => k != key
  }

  predicate LiveBelow(rows: Tables, key: Key, d: Instant) {
    key in rows ==> rows[key].deletedAt.None? && rows[key].updatedAt <= d
  }

  lemma {:induction false} PushesStayBelow(rows: Tables, user: UserId, pushes: seq<Push>, key: Key, d: Instant)
    requires PushAll(rows, user, pushes).Ok?
    requires forall p :: p in pushes && p.key == key ==> p.ts <= d
    ensures LiveBelow(rows, key, d) ==> LiveBelow(PushAll(rows, user, pushes).value, key, d)
    ensures key in rows && rows[key].updatedAt == d ==>
      key in PushAll(rows, user, pushes).value && PushAll(rows, user, pushes).value[key] == rows[key]
    decreases pushes
  {
    if pushes != [] {
      assert pushes[0] in pushes;
      PushesStayBelow(PushOne(rows, user, pushes[0]).value, user, pushes[1..], key, d);
    }
  }

  lemma {:induction false} RunStaysBelow(rows: Tables, ops: seq<Op>, key: Key, d: Instant)
    requires forall op :: op in ops ==> Below(op, key, d)
    ensures LiveBelow(rows, key, d) ==> LiveBelow(Run(rows, ops), key, d)
    ensures key in rows && rows[key].updatedAt == d ==> key in Run(rows, ops) && Run(rows, ops)[key] == rows[key]
  {
    if ops != [] {
      var init, last := ops[..|ops| - 1], ops[|ops| - 1];
      assert Below(last, key, d);
      assert forall op :: op in init ==> op in ops;
      RunStaysBelow(rows, init, key, d);
      if last.PushBatch? && PushAll(Run(rows, init), last.user, last.pushes).Ok? {
        PushesStayBelow(Run(rows, init), last.user, last.pushes, key, d);
      }
    }
  }

  // One delete at least as new as every push to its record, arriving once the row is
  // there, leaves the same zeroed tombstone wherever it falls among the pushes.
  lemma DominatingDeleteWins(rows: Tables, before: seq<Op>, after: seq<Op>, user: UserId, key: Key, d: Instant)
    requires Syncable(key.kind) && !key.kind.Chat?
    requires LiveBelow(rows, key, d)
    requires forall op :: op in before + after ==> Below(op, key, d)
    requires key in Run(rows, before) && Run(rows, before)[key].owner == user
    ensures key in Run(rows, before + [Delete(user, key, d)] + after)
    ensures Run(rows, before + [Delete(user, key, d)] + after)[key] == Row(user, ZEROED, d, Some(d))
  {
    assert forall op :: op in before ==> op in before + after;
    assert forall op :: op in after ==> op in before + after;
    RunStaysBelow(rows, before, key, d);
    var deleted := Serve(Run(rows, before), Delete(user, key, d));
    var ops := before + [Delete(user, key, d)];
    assert ops[..|ops| - 1] == before;
    RunStaysBelow(deleted, after, key, d);
    RunAppend(rows, ops, after);
  }

  // A push and a delete of one record, in the two orders they can arrive in.
  function PushThenDelete(rows: Tables, user: UserId, p: Push, d: Instant): Tables {
    AfterDelete(AfterPush(rows, user, [p]), user, p.key, d)
  }

  function DeleteThenPush(rows: Tables, user: UserId, p: Push, d: Instant): Tables {
    AfterPush(AfterDelete(rows, user, p.key, d), user, [p])
  }

  lemma AfterOnePush(rows: Tables, user: UserId, p: Push)
    ensures AfterPush(rows, user, [p]) == if PushOne(rows, user, p).Ok? then PushOne(rows, user, p).value else rows
  {
    var next := PushOne(rows, user, p);
    assert [p][1..] == [];
    if next.Ok? {
      assert PushAll(next.value, user, []) == Ok(next.value);
    }
  }

  // Pushes and deletes do not converge: the two orders agree exactly when the delete does
  // not fall, in its ts, from the stored row up to before the push.  Without a row yet it
  // is the delete that finds nothing, or the push that it beats.
  lemma {:induction false} PushAndDeleteCommuteIff(rows: Tables, user: UserId, p: Push, d: Instant)
    requires Syncable(p.key.kind) && !p.key.kind.Chat?
    ensures PushThenDelete(rows, user, p, d) == DeleteThenPush(rows, user, p, d) <==>
      if p.key in rows
      then !(rows[p.key].owner == user && rows[p.key].deletedAt.None? && rows[p.key].updatedAt <= d < p.ts)
      else d < p.ts
  {
    AfterOnePush(rows, user, p);
    AfterOnePush(AfterDelete(rows, user, p.key, d), user, p);
    var a, b := PushThenDelete(rows, user, p, d), DeleteThenPush(rows, user, p, d);
    assert a == b ==> (p.key in a <==> p.key in b) && (p.key in a ==> a[p.key] == b[p.key]);
    if p.key in rows && p.key in a && p.key in b && a[p.key] == b[p.key] {
      assert a == rows[p.key := a[p.key]] && b == rows[p.key := b[p.key]];
    }
  }
}
