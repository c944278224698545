/**
 Runs at the edge of what CacheRefinement assumes: flushes that report success and leave
 the device's cache the image of the live rows exactly when the assumption holds.
 */
module Boundaries {
  import opened Wrappers
  import opened Records
  import opened SyncStore
  import opened DeltaPull
  import opened SyncHandler
  import opened ClientCache
  import opened SyncMachine
  import opened CacheRefinement
  import opened FlushRun

  /******* Building the runs *******/

  function FreshDevice(user: UserId): Device {
    Device(user, map[], 0, 0, map[], map[], map[])
  }

  // The row of an edit, and the change it is pulled as.
  function RowOf(user: UserId, p: Push): Row { Row(user, p.blob, p.ts, None) }

  function Pulled(user: UserId, p: Push): WireChange { ToWire(user, ChangeOf(p.key, RowOf(user, p))) }

  predicate Editable(p: Push) {
    Syncable(p.key.kind) && !p.key.kind.Chat? && 0 < p.ts
  }

  lemma {:induction false} OnlyOneIsOldest(outbox: map<nat, Push>, n: nat, lo: nat)
    requires outbox.Keys == {n} && lo <= n
    ensures Oldest(outbox, lo, n + 1, BATCH_LIMIT) == [n]
    decreases n - lo
  {
    if lo < n {
      OnlyOneIsOldest(outbox, n, lo + 1);
    }
  }

  lemma OnePushBatch(rows: Tables, user: UserId, p: Push, n: nat)
    requires PushOne(rows, user, p).Ok?
    ensures var batch := ClientCache.Drained(map[n := p], n + 1, BATCH_LIMIT);
      batch == [Entry(n, p)] && PushAll(rows, user, Pushes(batch)) == PushOne(rows, user, p)
  {
    OnlyOneIsOldest(map[n := p], n, 0);
    var batch := ClientCache.Drained(map[n := p], n + 1, BATCH_LIMIT);
    assert batch == [Entry(n, p)];
    assert Pushes(batch) == [p] && [p][1..] == [];
    var next := PushOne(rows, user, p).value;
    assert PushAll(next, user, []) == Ok(next);
  }

  // Enqueue on an idle device and flush, up to the point of reporting success.
  lemma {:induction false} EditAndFlush(w: World, d: nat, p: Push, answer: seq<Scanned>) returns (steps: seq<Step>)
    requires d in w.devices && w.devices[d].outbox == map[] && w.devices[d].flights == map[]
    requires PushOne(w.server, w.devices[d].user, p).Ok? && answer != []
    requires var dev := w.devices[d];
      IsAnswer(AS_WRITTEN, PushOne(w.server, dev.user, p).value, dev.user, dev.cursor, PAGE_LIMIT, answer)
    ensures Legal(w, steps) && OwnSteps(steps, d) && Enabled(Final(w, steps), Step(d, FinishFlush(0)))
    ensures var dev, end := w.devices[d], Final(w, steps).devices[d];
      var read := PushOne(w.server, dev.user, p).value;
      && Final(w, steps).server == read
      && end.user == dev.user && end.outbox == map[] && end.deletes == dev.deletes && end.flights - {0} == map[]
      && end.cursor == NextSince(dev.cursor, answer)
      && end.envelopes == MergeAll(dev.envelopes, Page(dev.user, read, dev.cursor, answer))
  {
    var dev, enqueue := w.devices[d], Step(d, Enqueue(p));
    OneMore(w, [], enqueue);
    var queued := Final(w, [] + [enqueue]);
    assert queued.devices[d].outbox == map[dev.nextSeq := p];
    OnePushBatch(w.server, dev.user, p, dev.nextSeq);
    var flush := FlushCanFinish(queued, d, 0, answer);
    RunAppend(w, [] + [enqueue], flush);
    steps := [] + [enqueue] + flush;
    assert SeqNos([Entry(dev.nextSeq, p)]) == [dev.nextSeq];
    assert WithoutSeqs(map[dev.nextSeq := p], [dev.nextSeq]) == map[];
  }

  lemma OneRowAnswer(user: UserId, p: Push, since: Instant)
    requires 0 <= since < p.ts
    ensures var rows := map[p.key := RowOf(user, p)];
      var answer := [ScanOf(rows, p.key)];
      && IsAnswer(AS_WRITTEN, rows, user, since, PAGE_LIMIT, answer)
      && Page(user, rows, since, answer) == [Pulled(user, p)]
      && NextSince(since, answer) == p.ts
  {
    var rows := map[p.key := RowOf(user, p)];
    var answer := [ScanOf(rows, p.key)];
    assert answer[0].key == p.key && answer[..0] == [];
    assert p.key in Keys(answer);
  }

  lemma OneChange(cache: Envelopes, c: WireChange)
    ensures MergeAll(cache, [c]) == Merge(cache, c)
  {
    assert [c][..0] == [];
    assert MergeAll(cache, []) == cache;
  }

  // Edit and flush when the tables hold at most that record.
  lemma {:induction false} LoneEdit(w: World, d: nat, p: Push) returns (steps: seq<Step>)
    requires d in w.devices && w.devices[d].outbox == map[] && w.devices[d].flights == map[] && Editable(p)
    requires 0 <= w.devices[d].cursor < p.ts && w.server.Keys <= {p.key}
    requires p.key in w.server ==>
      w.server[p.key].owner == w.devices[d].user && w.server[p.key].deletedAt.None? && w.server[p.key].updatedAt < p.ts
    ensures Legal(w, steps) && OwnSteps(steps, d) && Enabled(Final(w, steps), Step(d, FinishFlush(0)))
    ensures var dev, end := w.devices[d], Final(w, steps).devices[d];
      && Final(w, steps).server == map[p.key := RowOf(dev.user, p)]
      && end.user == dev.user && end.outbox == map[] && end.deletes == dev.deletes && end.flights - {0} == map[]
      && end.cursor == p.ts && end.envelopes == Merge(dev.envelopes, Pulled(dev.user, p))
  {
    var dev := w.devices[d];
    var read := map[p.key := RowOf(dev.user, p)];
    assert w.server[p.key := RowOf(dev.user, p)] == read;
    OneRowAnswer(dev.user, p, dev.cursor);
    OneChange(dev.envelopes, Pulled(dev.user, p));
    steps := EditAndFlush(w, d, p, [ScanOf(read, p.key)]);
  }

  // A first edit on device 0, flushed and reported.
  lemma {:induction false} FirstEdit(w: World, p: Push) returns (steps: seq<Step>)
    requires w.server == map[] && 0 in w.devices && w.devices[0] == FreshDevice(w.devices[0].user) && Editable(p)
    ensures Legal(w, steps) && OwnSteps(steps, 0) && 0 in Final(w, steps).devices
    ensures var user, end := w.devices[0].user, Final(w, steps).devices[0];
      && Final(w, steps).server == map[p.key := RowOf(user, p)]
      && end.user == user && end.outbox == map[] && end.deletes == map[] && end.flights == map[] && end.cursor == p.ts
      && end.envelopes == map[p.key := Mirror(user, p.key, RowOf(user, p))]
  {
    var flush := LoneEdit(w, 0, p);
    OneMore(w, flush, Step(0, FinishFlush(0)));
    steps := flush + [Step(0, FinishFlush(0))];
  }

  /******* Two edits in one second *******/

  lemma SecondMergeIff(user: UserId, p: Push, q: Push)
    requires p.key == q.key && p.ts < q.ts
    ensures var held := map[p.key := Mirror(user, p.key, RowOf(user, p))];
      Merge(held, Pulled(user, q)) == LiveImage(map[q.key := RowOf(user, q)], user)
      <==> WholeSecond(p.ts) < WholeSecond(q.ts) || p.blob == q.blob
  {
    var cache: Envelopes := map[p.key := Mirror(user, p.key, RowOf(user, p))];
    var after, image := Merge(cache, Pulled(user, q)), LiveImage(map[q.key := RowOf(user, q)], user);
    NewerVersionIsTakenIff(user, p.key, RowOf(user, p), RowOf(user, q), cache);
    assert image == map[q.key := Mirror(user, q.key, RowOf(user, q))];
    assert after.Keys == {q.key};
    if after[q.key] == image[q.key] {
      assert after == image;
    }
  }

  // One device edits one record twice, with nothing else going on, and both flushes
  // report success: the cache is the image of the live rows exactly when the edits lie in
  // different whole seconds, or do not differ.
  lemma {:induction false} SecondEditIsCachedIff(user: UserId, p: Push, q: Push) returns (w: World, steps: seq<Step>)
    requires p.key == q.key && Editable(p) && p.ts < q.ts
    ensures Initial(w) && w.server == map[] && 0 in w.devices && w.devices[0].user == user
    ensures Legal(w, steps) && Enabled(Final(w, steps), Step(0, FinishFlush(0)))
    ensures var end := Final(w, steps);
      && end.server == map[q.key := RowOf(user, q)]
      && end.devices[0].deletes == map[] && end.devices[0].outbox == map[]
      && (end.devices[0].envelopes == LiveImage(end.server, user)
          <==> WholeSecond(p.ts) < WholeSecond(q.ts) || p.blob == q.blob)
  {
    w := World(map[], map[0 := FreshDevice(user)], {});
    var first := FirstEdit(w, p);
    var second := LoneEdit(Final(w, first), 0, q);
    RunAppend(w, first, second);
    steps := first + second;
    SecondMergeIff(user, p, q);
  }

  /******* A commit behind the cursor *******/

  function ThreeRows(user: UserId, p: Push, q: Push, r: Push): Tables {
    map[p.key := RowOf(user, p), q.key := RowOf(user, q), r.key := RowOf(user, r)]
  }

  predicate ThreeKeys(p: Push, q: Push, r: Push) {
    p.key != q.key && q.key != r.key && p.key != r.key
  }

  lemma ThreeRowsPage(user: UserId, p: Push, q: Push, r: Push, answer: seq<Scanned>)
    requires ThreeKeys(p, q, r) && p.ts < r.ts
    requires IsAnswer(AS_WRITTEN, ThreeRows(user, p, q, r), user, p.ts, PAGE_LIMIT, answer)
    ensures Keys(answer) == if p.ts < q.ts then {q.key, r.key} else {r.key}
  {
    var newer := MatchSet(ThreeRows(user, p, q, r), user, p.ts);
    assert newer == if p.ts < q.ts then {q.key, r.key} else {r.key};
    FittingPageIsWhole(AS_WRITTEN, ThreeRows(user, p, q, r), user, p.ts, PAGE_LIMIT, answer);
  }

  // What a device that held the first row caches of the page.
  lemma ThreeRowsCached(user: UserId, p: Push, q: Push, r: Push, answer: seq<Scanned>, k: Key)
    requires ThreeKeys(p, q, r) && p.ts < r.ts
    requires IsAnswer(AS_WRITTEN, ThreeRows(user, p, q, r), user, p.ts, PAGE_LIMIT, answer)
    ensures var rows := ThreeRows(user, p, q, r);
      var held: Envelopes := map[p.key := Mirror(user, p.key, RowOf(user, p))];
      Lookup(MergeAll(held, Page(user, rows, p.ts, answer)), k) ==
      if k == p.key || k == r.key || (k == q.key && p.ts < q.ts) then Some(Mirror(user, k, rows[k])) else None
  {
    var rows := ThreeRows(user, p, q, r);
    var held: Envelopes := map[p.key := Mirror(user, p.key, RowOf(user, p))];
    var page := Page(user, rows, p.ts, answer);
    ThreeRowsPage(user, p, q, r, answer);
    MergeAllAt(held, page, k);
    if k in Keys(answer) {
      var i :| 0 <= i < |answer| && answer[i].key == k;
      assert page[i] == ToWire(user, ChangeOf(k, rows[k]));
    } else {
      assert forall i :: 0 <= i < |page| ==> page[i].key in Keys(answer);
    }
  }

  lemma ThreeRowsImageIff(user: UserId, p: Push, q: Push, r: Push, answer: seq<Scanned>)
    requires ThreeKeys(p, q, r) && p.ts < r.ts
    requires IsAnswer(AS_WRITTEN, ThreeRows(user, p, q, r), user, p.ts, PAGE_LIMIT, answer)
    ensures var rows := ThreeRows(user, p, q, r);
      var held: Envelopes := map[p.key := Mirror(user, p.key, RowOf(user, p))];
      MergeAll(held, Page(user, rows, p.ts, answer)) == LiveImage(rows, user) <==> p.ts < q.ts
  {
    var rows := ThreeRows(user, p, q, r);
    var held: Envelopes := map[p.key := Mirror(user, p.key, RowOf(user, p))];
    var cache, image := MergeAll(held, Page(user, rows, p.ts, answer)), LiveImage(rows, user);
    forall k ensures Lookup(cache, k) == Lookup(image, k) || (k == q.key && !(p.ts < q.ts)) {
      ThreeRowsCached(user, p, q, r, answer, k);
    }
    ThreeRowsCached(user, p, q, r, answer, q.key);
    if p.ts < q.ts {
      SameLookupsSameMap(cache, image);
    } else {
      assert q.key in image && q.key !in cache;
    }
  }

  // The second device's edit reaches the tables.
  lemma {:induction false} SecondDeviceCommits(w: World, q: Push) returns (steps: seq<Step>)
    requires 1 in w.devices && w.devices[1] == FreshDevice(w.devices[1].user) && Editable(q) && q.key !in w.server
    ensures Legal(w, steps) && OwnSteps(steps, 1)
    ensures Final(w, steps).server == w.server[q.key := RowOf(w.devices[1].user, q)]
  {
    var dev, enqueue := w.devices[1], Step(1, Enqueue(q));
    OneMore(w, [], enqueue);
    var queued := Final(w, [] + [enqueue]);
    assert queued.devices[1].outbox == map[0 := q];
    OnePushBatch(w.server, dev.user, q, 0);
    var push := ReachPushed(queued, 1, 0);
    RunAppend(w, [] + [enqueue], push);
    steps := [] + [enqueue] + push;
  }

  // The device is idle, and its cache and cursor are where the first edit left them.
  predicate AfterFirst(w: World, user: UserId, p: Push, q: Push) {
    && 0 in w.devices
    && w.server == map[p.key := RowOf(user, p), q.key := RowOf(user, q)]
    && var dev := w.devices[0];
       && dev.user == user && dev.outbox == map[] && dev.deletes == map[] && dev.flights == map[] && dev.cursor == p.ts
       && dev.envelopes == map[p.key := Mirror(user, p.key, RowOf(user, p))]
  }

  lemma {:induction false} TwoDevicesEdit(w: World, user: UserId, p: Push, q: Push) returns (steps: seq<Step>)
    requires w == World(map[], map[0 := FreshDevice(user), 1 := FreshDevice(user)], {})
    requires p.key != q.key && Editable(p) && Editable(q)
    ensures Legal(w, steps) && AfterFirst(Final(w, steps), user, p, q)
  {
    var first := FirstEdit(w, p);
    OwnStepsLeaveOthers(w, first, 0);
    var one := Final(w, first);
    var second := SecondDeviceCommits(one, q);
    OwnStepsLeaveOthers(one, second, 1);
    RunAppend(w, first, second);
    steps := first + second;
    assert map[p.key := RowOf(user, p)][q.key := RowOf(user, q)] == map[p.key := RowOf(user, p), q.key := RowOf(user, q)];
  }

  lemma {:induction false} ThirdEdit(w: World, user: UserId, p: Push, q: Push, r: Push, answer: seq<Scanned>)
    returns (steps: seq<Step>)
    requires AfterFirst(w, user, p, q) && ThreeKeys(p, q, r) && Editable(r) && p.ts < r.ts
    requires IsAnswer(AS_WRITTEN, ThreeRows(user, p, q, r), user, p.ts, PAGE_LIMIT, answer)
    ensures Legal(w, steps) && Enabled(Final(w, steps), Step(0, FinishFlush(0)))
    ensures var end := Final(w, steps);
      && end.server == ThreeRows(user, p, q, r) && end.devices[0].deletes == map[]
      && (end.devices[0].envelopes == LiveImage(end.server, user) <==> p.ts < q.ts)
  {
    assert w.server[r.key := RowOf(user, r)] == ThreeRows(user, p, q, r);
    ThreeRowsPage(user, p, q, r, answer);
    assert r.key in Keys(answer);
    steps := EditAndFlush(w, 0, r, answer);
    ThreeRowsImageIff(user, p, q, r, answer);
  }

  // Device 0 edits and flushes; device 1 of the same user then commits an edit of another
  // record; device 0 edits a third one and flushes with success, on a page that is not
  // truncated.  Its cache is the image of the live rows exactly when device 1's edit is
  // newer than the first: one made earlier, and sent late, is behind the cursor.
  lemma {:induction false} LateCommitIsCachedIff(user: UserId, p: Push, q: Push, r: Push, answer: seq<Scanned>)
    returns (w: World, steps: seq<Step>)
    requires ThreeKeys(p, q, r) && Editable(p) && Editable(q) && Editable(r) && p.ts < r.ts
    requires IsAnswer(AS_WRITTEN, ThreeRows(user, p, q, r), user, p.ts, PAGE_LIMIT, answer)
    ensures Initial(w) && w.server == map[] && 0 in w.devices && w.devices[0].user == user
    ensures Legal(w, steps) && Enabled(Final(w, steps), Step(0, FinishFlush(0)))
    ensures var end := Final(w, steps);
      && end.server == ThreeRows(user, p, q, r) && end.devices[0].deletes == map[]
      && (end.devices[0].envelopes == LiveImage(end.server, user) <==> p.ts < q.ts)
  {
    w := World(map[], map[0 := FreshDevice(user), 1 := FreshDevice(user)], {});
    var before := TwoDevicesEdit(w, user, p, q);
    var third := ThirdEdit(Final(w, before), user, p, q, r, answer);
    RunAppend(w, before, third);
    steps := before + third;
  }
}
