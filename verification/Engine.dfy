/**
 The client's flush as one uninterrupted call.  The network decides whether the request
 or its reply gets through; the steps in between, interleaved, are those of SyncMachine.
 */
module Engine {
  import opened Wrappers
  import opened Records
  import opened SyncStore
  import opened DeltaPull
  import opened SyncHandler
  import opened ClientCache
  import opened SyncMachine

  datatype Network = Delivers | LosesRequest | LosesReply

  datatype FlushResult = FlushResult(pushed: nat, failed: bool)

  // The tables after the queued deletes have each been sent once.
  function AfterDeletes(rows: Tables, user: UserId, queue: seq<(Key, Instant)>, now: Instant): Tables {
    if queue == [] then rows
    else
      var last := queue[|queue| - 1];
      HandleDelete(AfterDeletes(rows, user, queue[..|queue| - 1], now), user, last.0, last.1, now).0
  }

  // clearDelete after the fetch; a throw keeps the entry for a retry.
  function AfterReply(deletes: map<Key, Instant>, key: Key, http: Http): map<Key, Instant> {
    if FetchReturns(http) then deletes - {key} else deletes
  }

  // flushDeletes: every delete is sent, and every one stays queued, because no reply of
  // the endpoint lets the fetch return.
  method FlushDeletes(store: Store, cache: DeviceCache, user: UserId, queue: seq<(Key, Instant)>, now: Instant)
    modifies store, cache`deletes
    ensures store.rows == AfterDeletes(old(store.rows), user, queue, now)
    ensures cache.deletes == old(cache.deletes)
  {
    for i := 0 to |queue|
      invariant store.rows == AfterDeletes(old(store.rows), user, queue[..i], now)
      invariant cache.deletes == old(cache.deletes)
    {
      var (key, ts) := queue[i];
      assert queue[..i + 1][..i] == queue[..i];
      DeleteReplies(store.rows, user, key, ts, now);
      var (rows, http) := HandleDelete(store.rows, user, key, ts, now);
      store.rows := rows;
      cache.deletes := AfterReply(cache.deletes, key, http);
    }
    assert queue[..|queue|] == queue;
  }

  // The batch a flush would drain from these tables.
  function Batch(outbox: map<nat, Push>, nextSeq: nat): seq<Entry> {
    ClientCache.Drained(outbox, nextSeq, BATCH_LIMIT)
  }

  // The server's half of one request.
  method Exchange(store: Store, user: UserId, pushes: seq<Push>, since: Instant, answer: seq<Scanned>)
    returns (ok: bool, page: seq<WireChange>, next: Option<Instant>)
    requires Truthful(AfterPush(store.rows, user, pushes), user, since, answer)
    modifies store
    ensures ok <==> PushAll(old(store.rows), user, pushes).Ok?
    ensures store.rows == AfterPush(old(store.rows), user, pushes)
    ensures Truthful(store.rows, user, since, answer)
    ensures ok ==> page == Page(user, store.rows, since, answer)
    ensures ok ==> next == if MaxTs(answer) == 0 then None else Some(MaxTs(answer))
  {
    page, next := [], None;
    var pushed := store.PushEnvelopes(user, pushes);
    ok := pushed.Ok?;
    if ok {
      var changes, maxTs := store.PullChanges(user, since, answer);
      page, next := BuildReply(user, changes, maxTs);
      assert page == Page(user, store.rows, since, answer);
    }
  }

  // What flush does with a reply that got through.
  method Land(store: Store, cache: DeviceCache, user: UserId, batch: seq<Entry>, page: seq<WireChange>,
              next: Option<Instant>, queue: seq<(Key, Instant)>, now: Instant)
    requires cache.Valid()
    modifies store, cache
    ensures cache.Valid()
    ensures cache.envelopes == MergeAll(old(cache.envelopes), page)
    ensures cache.cursor == if next.Some? then next.value else old(cache.cursor)
    ensures cache.outbox == WithoutSeqs(old(cache.outbox), SeqNos(batch))
    ensures store.rows == if batch == [] then old(store.rows) else AfterDeletes(old(store.rows), user, queue, now)
    ensures cache.deletes == old(cache.deletes) && cache.nextSeq == old(cache.nextSeq)
  {
    cache.MergePage(page);
    if next.Some? {
      cache.cursor := next.value;
    }
    if batch != [] {
      cache.RemoveFlushed(SeqNos(batch));
      FlushDeletes(store, cache, user, queue, now);
    }
    assert cache.outbox == WithoutSeqs(old(cache.outbox), SeqNos(batch));
  }

  // pendingDeletes: every queued delete, in some order.
  ghost predicate Lists(queue: seq<(Key, Instant)>, deletes: map<Key, Instant>) {
    forall k, ts :: (k, ts) in queue <==> k in deletes && deletes[k] == ts
  }

  // `answer` is the database's answer to the pull that follows the push, and `queue` the
  // pending deletes as flushDeletes lists them.
  method Flush(store: Store, cache: DeviceCache, user: UserId, network: Network, answer: seq<Scanned>,
               queue: seq<(Key, Instant)>, now: Instant)
    returns (r: FlushResult)
    requires cache.Valid()
    requires Truthful(AfterPush(store.rows, user, Pushes(Batch(cache.outbox, cache.nextSeq))), user, cache.cursor, answer)
    requires Lists(queue, cache.deletes)
    modifies store, cache
    ensures cache.Valid()
    ensures var batch := Batch(old(cache.outbox), old(cache.nextSeq));
      var accepted := PushAll(old(store.rows), user, Pushes(batch)).Ok?;
      // reported as done only when the request and a non-empty reply got through
      && (!r.failed <==> network.Delivers? && accepted && answer != [])
      && r.pushed == (if r.failed then 0 else |batch|)
      // on failure the device is as it was, whether or not the server committed
      && (r.failed ==>
            && cache.outbox == old(cache.outbox) && cache.envelopes == old(cache.envelopes)
            && cache.cursor == old(cache.cursor)
            && store.rows == (if network.LosesRequest? then old(store.rows)
                              else AfterPush(old(store.rows), user, Pushes(batch))))
      // on success exactly the batch has left the outbox, after the page was merged
      && (!r.failed ==>
            var read := AfterPush(old(store.rows), user, Pushes(batch));
            && Truthful(read, user, old(cache.cursor), answer)
            && cache.outbox == WithoutSeqs(old(cache.outbox), SeqNos(batch))
            && cache.envelopes == MergeAll(old(cache.envelopes), Page(user, read, old(cache.cursor), answer))
            && cache.cursor == NextSince(old(cache.cursor), answer)
            && store.rows == if batch == [] then read else AfterDeletes(read, user, queue, now))
    ensures cache.deletes == old(cache.deletes) && cache.nextSeq == old(cache.nextSeq)
  {
    var batch := ClientCache.Drained(cache.outbox, cache.nextSeq, BATCH_LIMIT);
    var since := cache.cursor;
    if network.LosesRequest? {
      return FlushResult(0, true);
    }
    var ok, page, next := Exchange(store, user, Pushes(batch), since, answer);
    // an empty page is sent as null, and the loop over null throws
    if !ok || network.LosesReply? || page == [] {
      return FlushResult(0, true);
    }
    Land(store, cache, user, batch, page, next, queue, now);
    r := FlushResult(|batch|, false);
  }
}
