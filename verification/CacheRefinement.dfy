/**
 A device's envelope cache refines the server.  The machine is the one of SyncMachine;
 the run is restricted, for one device, by the assumptions of `Disciplined`.
 */
module CacheRefinement {
  import opened Wrappers
  import opened Records
  import opened SyncStore
  import opened SyncStoreLaws
  import opened DeltaPull
  import opened Aad
  import opened Base64
  import opened SyncHandler
  import opened ClientCache
  import opened SyncMachine

  /******* One key *******/

  function Visible(rows: Tables, user: UserId, k: Key): Option<Row> {
    if k in rows && rows[k].owner == user then Some(rows[k]) else None
  }

  // The cache row a live server row turns into.
  function Mirror(user: UserId, k: Key, row: Row): CacheRow {
    CacheRow(EncodeStd(row.blob), BuildAad(user, KindName(k.kind), k.id), WholeSecond(row.updatedAt), false)
  }

  predicate Agrees(user: UserId, k: Key, row: Option<Row>, e: Option<CacheRow>) {
    e == if row.Some? && row.value.deletedAt.None? then Some(Mirror(user, k, row.value)) else None
  }

  // Nothing that merging the row itself would not bring up to date.
  predicate Trails(user: UserId, k: Key, row: Option<Row>, e: Option<CacheRow>) {
    || e.None?
    || (row.Some? && row.value.deletedAt.Some?)
    || (row.Some? && (e.value.ts < WholeSecond(row.value.updatedAt) || e.value == Mirror(user, k, row.value)))
  }

  // A row is replaced only by a version beyond the horizon and in a later second.
  predicate Supersedes(before: Option<Row>, after: Option<Row>, horizon: Instant) {
    after == before ||
    (after.Some? && after.value.updatedAt > horizon &&
     (before.Some? && after.value.deletedAt.None? ==>
       before.value.deletedAt.None? && WholeSecond(before.value.updatedAt) < WholeSecond(after.value.updatedAt)))
  }

  /******* The assumptions *******/

  // The newest instant any reply this device is working from has told it about.
  ghost function Horizon(dev: Device): Instant {
    if exists f :: f in dev.flights && dev.flights[f].phase.Merging? then
      var f :| f in dev.flights && dev.flights[f].phase.Merging?;
      dev.flights[f].phase.next
    else dev.cursor
  }

  // Versions committed in this step are newer than the horizon, and a live version
  // replaces another only in a different whole second.
  ghost predicate FreshCommit(before: Tables, after: Tables, user: UserId, deletes: map<Key, Instant>, horizon: Instant) {
    forall k :: k !in deletes && Visible(after, user, k) != Visible(before, user, k) && Visible(after, user, k).Some? ==>
      && after[k].updatedAt > horizon
      && (Visible(before, user, k).Some? && after[k].deletedAt.None? ==>
            WholeSecond(before[k].updatedAt) != WholeSecond(after[k].updatedAt))
  }

  ghost predicate Disciplined(w: World, s: Step, d: nat)
    requires d in w.devices && Enabled(w, s)
  {
    var dev := w.devices[d];
    && FreshCommit(w.server, Apply(w, s).server, dev.user, dev.deletes, Horizon(dev))
    && (s.Step? && s.d == d ==>
          // flushes do not overlap, and pages are not truncated
          && (s.action.StartFlush? ==> dev.flights == map[])
          && (s.action.ServerPull? ==>
                MatchSet(w.server, dev.user, dev.flights[s.action.f].phase.since) <= Keys(s.action.answer)))
  }

  ghost predicate DisciplinedRun(w: World, steps: seq<Step>, d: nat)
    requires d in w.devices && Legal(w, steps)
    decreases steps
  {
    steps == [] ||
    (Disciplined(w, steps[0], d) && DisciplinedRun(Apply(w, steps[0]), steps[1..], d))
  }

  /******* The invariant *******/

  // Rows up to the cursor are mirrored, newer ones may be behind.
  predicate KeySound(server: Tables, dev: Device, k: Key) {
    var row, e := Visible(server, dev.user, k), Lookup(dev.envelopes, k);
    if row.Some? && row.value.updatedAt <= dev.cursor then Agrees(dev.user, k, row, e)
    else Trails(dev.user, k, row, e)
  }

  // Between pulls.
  ghost predicate CacheSound(server: Tables, dev: Device) {
    forall k :: k !in dev.deletes ==> KeySound(server, dev, k)
  }

  predicate Touched(page: seq<WireChange>, merged: nat, k: Key)
    requires merged <= |page|
  {
    exists i :: 0 <= i < merged && page[i].key == k
  }

  predicate KeyMerged(snap: Tables, dev: Device, page: seq<WireChange>, merged: nat, k: Key)
    requires merged <= |page|
  {
    var row, e := Visible(snap, dev.user, k), Lookup(dev.envelopes, k);
    if (row.Some? && row.value.updatedAt <= dev.cursor) || Touched(page, merged, k)
    then Agrees(dev.user, k, row, e)
    else Trails(dev.user, k, row, e)
  }

  // During a merge: the first `merged` changes of the page have been brought up to date.
  ghost predicate MergeSound(snap: Tables, dev: Device, page: seq<WireChange>, merged: nat)
    requires merged <= |page|
  {
    forall k :: k !in dev.deletes ==> KeyMerged(snap, dev, page, merged, k)
  }

  // The page is exactly the snapshot's rows beyond the cursor, once each.
  ghost predicate PageComplete(snap: Tables, user: UserId, since: Instant, page: seq<WireChange>, next: Instant) {
    && OneChangePerKey(page)
    && since <= next
    && (forall i :: 0 <= i < |page| ==>
          && Visible(snap, user, page[i].key).Some?
          && page[i] == ToWire(user, ChangeOf(page[i].key, snap[page[i].key])))
    && forall k :: Visible(snap, user, k).Some? ==>
         && snap[k].updatedAt <= next
         && (snap[k].updatedAt > since ==> Touched(page, |page|, k))
  }

  ghost predicate Later(snap: Tables, server: Tables, dev: Device, horizon: Instant) {
    forall k :: k !in dev.deletes ==> Supersedes(Visible(snap, dev.user, k), Visible(server, dev.user, k), horizon)
  }

  // The cache is the image of the live rows of the tables the pull read.
  ghost predicate Mirrors(snap: Tables, dev: Device) {
    forall k :: k !in dev.deletes ==> Agrees(dev.user, k, Visible(snap, dev.user, k), Lookup(dev.envelopes, k))
  }

  ghost predicate FlightInv(server: Tables, dev: Device, phase: Phase) {
    match phase
    case Drained => CacheSound(server, dev)
    case Asked(since) => since == dev.cursor && CacheSound(server, dev)
    case Pushed(since) => since == dev.cursor && CacheSound(server, dev)
    case Merging(since, snap, page, next, merged) =>
      && since == dev.cursor && merged <= |page|
      && PageComplete(snap, dev.user, since, page, next)
      && MergeSound(snap, dev, page, merged)
      && Later(snap, server, dev, next)
    case CursorStored(snap) => SnapInv(server, dev, snap)
    case Deleting(snap, _) => SnapInv(server, dev, snap)
  }

  ghost predicate SnapInv(server: Tables, dev: Device, snap: Tables) {
    && (forall k :: Visible(snap, dev.user, k).Some? ==> snap[k].updatedAt <= dev.cursor)
    && Mirrors(snap, dev)
    && Later(snap, server, dev, dev.cursor)
  }

  ghost predicate CacheInv(server: Tables, dev: Device) {
    && 0 <= dev.cursor
    && (forall f, g :: f in dev.flights && g in dev.flights ==> f == g)
    && (dev.flights == map[] ==> CacheSound(server, dev))
    && forall f :: f in dev.flights ==> FlightInv(server, dev, dev.flights[f].phase)
  }

  /******* Steps of others *******/

  lemma FreshSupersedes(before: Tables, after: Tables, dev: Device, horizon: Instant)
    requires Evolves(before, after) && FreshCommit(before, after, dev.user, dev.deletes, horizon)
    ensures Later(before, after, dev, horizon)
  {
  }

  lemma LaterTransitive(a: Tables, b: Tables, c: Tables, dev: Device, horizon: Instant)
    requires Later(a, b, dev, horizon) && Later(b, c, dev, horizon)
    ensures Later(a, c, dev, horizon)
  {
  }

  lemma LaterKeepsSound(before: Tables, after: Tables, dev: Device)
    requires CacheSound(before, dev) && Later(before, after, dev, dev.cursor)
    ensures CacheSound(after, dev)
  {
  }

  lemma HorizonOf(dev: Device, f: nat)
    requires f in dev.flights && forall g :: g in dev.flights ==> f == g
    ensures Horizon(dev) == if dev.flights[f].phase.Merging? then dev.flights[f].phase.next else dev.cursor
  {
  }

  // Any commit by anyone, seen from the device.
  lemma {:induction false} CommitKeepsCacheInv(before: Tables, after: Tables, dev: Device)
    requires CacheInv(before, dev) && Evolves(before, after)
    requires FreshCommit(before, after, dev.user, dev.deletes, Horizon(dev))
    ensures CacheInv(after, dev)
  {
    FreshSupersedes(before, after, dev, Horizon(dev));
    if dev.flights == map[] {
      LaterKeepsSound(before, after, dev);
    } else {
      var f :| f in dev.flights;
      HorizonOf(dev, f);
      match dev.flights[f].phase
      case Drained => LaterKeepsSound(before, after, dev);
      case Asked(_) => LaterKeepsSound(before, after, dev);
      case Pushed(_) => LaterKeepsSound(before, after, dev);
      case Merging(_, snap, _, next, _) => LaterTransitive(snap, before, after, dev, next);
      case CursorStored(snap) => LaterTransitive(snap, before, after, dev, dev.cursor);
      case Deleting(snap, _) => LaterTransitive(snap, before, after, dev, dev.cursor);
    }
  }

  /******* The device's own steps *******/

  // Dropping a flight in any phase leaves a sound cache behind.
  lemma FlightInvIsSound(server: Tables, dev: Device, phase: Phase)
    requires FlightInv(server, dev, phase)
    ensures CacheSound(server, dev)
  {
  }

  lemma PageIsComplete(server: Tables, user: UserId, since: Instant, answer: seq<Scanned>)
    requires 0 <= since && IsAnswer(AS_WRITTEN, server, user, since, PAGE_LIMIT, answer)
    requires MatchSet(server, user, since) <= Keys(answer)
    ensures PageComplete(server, user, since, Page(user, server, since, answer), NextSince(since, answer))
  {
    NextSinceBounds(server, user, since, answer);
    var page := Page(user, server, since, answer);
    forall k | Visible(server, user, k).Some?
      ensures server[k].updatedAt <= NextSince(since, answer)
      ensures server[k].updatedAt > since ==> Touched(page, |page|, k)
    {
      if server[k].updatedAt > since {
        assert k in MatchSet(server, user, since);
        var i :| 0 <= i < |answer| && answer[i].key == k;
        assert page[i].key == k;
      }
    }
  }

  lemma {:induction false} PullStartsMerge(server: Tables, dev: Device, f: nat, answer: seq<Scanned>)
    requires CacheInv(server, dev) && ActionEnabled(server, dev, ServerPull(f, answer))
    requires MatchSet(server, dev.user, dev.flights[f].phase.since) <= Keys(answer)
    ensures var p := DeviceAfter(server, dev, ServerPull(f, answer)).flights[f].phase;
            FlightInv(server, DeviceAfter(server, dev, ServerPull(f, answer)), p)
  {
    var dev' := DeviceAfter(server, dev, ServerPull(f, answer));
    var p := dev'.flights[f].phase;
    assert FlightInv(server, dev, dev.flights[f].phase);
    PageIsComplete(server, dev.user, p.since, answer);
    forall k | k !in dev'.deletes ensures KeyMerged(server, dev', p.page, 0, k) {
      assert KeySound(server, dev, k);
    }
  }

  lemma MergeOneKey(snap: Tables, dev: Device, dev': Device, page: seq<WireChange>, merged: nat, next: Instant, k: Key)
    requires merged < |page| && PageComplete(snap, dev.user, dev.cursor, page, next)
    requires KeyMerged(snap, dev, page, merged, k)
    requires dev'.user == dev.user && dev'.cursor == dev.cursor && dev'.envelopes == Merge(dev.envelopes, page[merged])
    ensures KeyMerged(snap, dev', page, merged + 1, k)
  {
  }

  lemma MergeOneAdvances(server: Tables, dev: Device, f: nat)
    requires CacheInv(server, dev) && ActionEnabled(server, dev, MergeNext(f))
    ensures var dev' := DeviceAfter(server, dev, MergeNext(f));
            FlightInv(server, dev', dev'.flights[f].phase)
  {
    var p := dev.flights[f].phase;
    var dev' := DeviceAfter(server, dev, MergeNext(f));
    assert FlightInv(server, dev, p);
    forall k | k !in dev'.deletes ensures KeyMerged(p.snap, dev', p.page, p.merged + 1, k) {
      assert KeyMerged(p.snap, dev, p.page, p.merged, k);
      MergeOneKey(p.snap, dev, dev', p.page, p.merged, p.next, k);
    }
    assert Later(p.snap, server, dev', p.next);
  }

  // Merging a row's own change brings the cache up to date exactly when it trailed the
  // row or agreed with it already.
  lemma {:induction false} MergeSettlesIff(user: UserId, k: Key, row: Row, cache: Envelopes)
    ensures Agrees(user, k, Some(row), Lookup(Merge(cache, ToWire(user, ChangeOf(k, row))), k))
            <==> Trails(user, k, Some(row), Lookup(cache, k)) || Agrees(user, k, Some(row), Lookup(cache, k))
  {
    var c := ToWire(user, ChangeOf(k, row));
    if row.deletedAt.None? {
      assert c.ts == WholeSecond(row.updatedAt);
    }
  }

  // A device that holds one live version of a record takes a newer one exactly when that
  // lies in a later whole second or carries the same blob.  Otherwise the merge leaves
  // the cache as it is, however often the row is pulled.
  lemma NewerVersionIsTakenIff(user: UserId, k: Key, held: Row, newer: Row, cache: Envelopes)
    requires held.deletedAt.None? && newer.deletedAt.None? && held.updatedAt < newer.updatedAt
    requires Lookup(cache, k) == Some(Mirror(user, k, held))
    ensures var c := ToWire(user, ChangeOf(k, newer));
      && (Agrees(user, k, Some(newer), Lookup(Merge(cache, c), k))
          <==> WholeSecond(held.updatedAt) < WholeSecond(newer.updatedAt) || held.blob == newer.blob)
      && (WholeSecond(held.updatedAt) == WholeSecond(newer.updatedAt) ==> Merge(cache, c) == cache)
  {
    MergeSettlesIff(user, k, newer, cache);
    if EncodeStd(held.blob) == EncodeStd(newer.blob) {
      EncodeIsInjective(Standard, true, held.blob, newer.blob);
    }
  }

  lemma CursorCloses(server: Tables, dev: Device, f: nat)
    requires CacheInv(server, dev) && ActionEnabled(server, dev, PutCursor(f))
    ensures SnapInv(server, DeviceAfter(server, dev, PutCursor(f)), dev.flights[f].phase.snap)
  {
    var p := dev.flights[f].phase;
    assert FlightInv(server, dev, p);
    forall k | k !in dev.deletes
      ensures Agrees(dev.user, k, Visible(p.snap, dev.user, k), Lookup(dev.envelopes, k))
    {
      assert KeyMerged(p.snap, dev, p.page, |p.page|, k);
    }
  }

  // More deletes queued, and nothing else the invariant reads of the other records.
  ghost predicate OnlyMoreDeletes(dev: Device, dev': Device) {
    && dev'.user == dev.user && dev'.cursor == dev.cursor && dev'.flights == dev.flights
    && forall k :: k !in dev'.deletes ==> k !in dev.deletes && Lookup(dev'.envelopes, k) == Lookup(dev.envelopes, k)
  }

  lemma MoreDeletesKeepSound(server: Tables, dev: Device, dev': Device)
    requires OnlyMoreDeletes(dev, dev') && CacheSound(server, dev)
    ensures CacheSound(server, dev')
  {
  }

  lemma MoreDeletesKeepSnap(server: Tables, dev: Device, dev': Device, snap: Tables)
    requires OnlyMoreDeletes(dev, dev') && SnapInv(server, dev, snap)
    ensures SnapInv(server, dev', snap)
  {
  }

  lemma MoreDeletesKeepMerge(server: Tables, dev: Device, dev': Device, phase: Phase)
    requires OnlyMoreDeletes(dev, dev') && phase.Merging? && FlightInv(server, dev, phase)
    ensures FlightInv(server, dev', phase)
  {
    assert MergeSound(phase.snap, dev', phase.page, phase.merged);
  }

  lemma {:induction false} QueueDeleteKeepsCacheInv(server: Tables, dev: Device, a: Action)
    requires CacheInv(server, dev) && a.QueueDelete?
    ensures CacheInv(server, DeviceAfter(server, dev, a))
  {
    var dev' := DeviceAfter(server, dev, a);
    assert OnlyMoreDeletes(dev, dev');
    if dev.flights == map[] {
      MoreDeletesKeepSound(server, dev, dev');
    }
    forall f | f in dev.flights ensures FlightInv(server, dev', dev.flights[f].phase) {
      match dev.flights[f].phase
      case Drained => MoreDeletesKeepSound(server, dev, dev');
      case Asked(_) => MoreDeletesKeepSound(server, dev, dev');
      case Pushed(_) => MoreDeletesKeepSound(server, dev, dev');
      case Merging(_, _, _, _, _) => MoreDeletesKeepMerge(server, dev, dev', dev.flights[f].phase);
      case CursorStored(snap) => MoreDeletesKeepSnap(server, dev, dev', snap);
      case Deleting(snap, _) => MoreDeletesKeepSnap(server, dev, dev', snap);
    }
  }

  // What the invariant reads of the device apart from its flights.
  predicate SameCache(dev: Device, dev': Device) {
    dev'.user == dev.user && dev'.cursor == dev.cursor && dev'.deletes == dev.deletes && dev'.envelopes == dev.envelopes
  }

  lemma SameCacheSameFlightInv(server: Tables, dev: Device, dev': Device, phase: Phase)
    requires SameCache(dev, dev')
    ensures FlightInv(server, dev, phase) <==> FlightInv(server, dev', phase)
    ensures CacheSound(server, dev) <==> CacheSound(server, dev')
  {
    match phase
    case Merging(_, snap, page, _, merged) =>
      if merged <= |page| {
        assert MergeSound(snap, dev, page, merged) <==> MergeSound(snap, dev', page, merged);
      }
    case _ =>
  }

  // Steps that change neither the server's rows nor what the invariant reads.
  lemma {:induction false} QuietStepKeepsCacheInv(server: Tables, dev: Device, a: Action)
    requires CacheInv(server, dev) && ActionEnabled(server, dev, a)
    requires a.StartFlush? ==> dev.flights == map[]
    requires a.Enqueue? || a.StartFlush? || a.ReadCursor? || a.ServerPush? || a.RemoveBatch? || a.SendDelete?
             || a.FinishFlush? || a.FailFlush? || a.Crash?
    ensures CacheInv(server, DeviceAfter(server, dev, a))
  {
    var dev' := DeviceAfter(server, dev, a);
    if a.SendDelete? {
      DeleteReplies(server, dev.user, a.key, dev.flights[a.f].phase.queue[a.key], a.now);
    }
    assert SameCache(dev, dev');
    SameCacheSameFlightInv(server, dev, dev', Phase.Drained);
    if g :| g in dev.flights {
      FlightInvIsSound(server, dev, dev.flights[g].phase);
    }
    forall f | f in dev'.flights
      ensures FlightInv(server, dev', dev'.flights[f].phase)
    {
      SameCacheSameFlightInv(server, dev, dev', dev'.flights[f].phase);
    }
  }

  lemma SoleFlightSuffices(server: Tables, dev: Device, f: nat)
    requires 0 <= dev.cursor && f in dev.flights && (forall g :: g in dev.flights ==> g == f)
    requires FlightInv(server, dev, dev.flights[f].phase)
    ensures CacheInv(server, dev)
  {
  }

  lemma {:induction false} MergingStepKeepsCacheInv(server: Tables, dev: Device, a: Action)
    requires CacheInv(server, dev) && ActionEnabled(server, dev, a)
    requires a.ServerPull? || a.MergeNext? || a.PutCursor?
    requires a.ServerPull? ==> MatchSet(server, dev.user, dev.flights[a.f].phase.since) <= Keys(a.answer)
    ensures CacheInv(server, DeviceAfter(server, dev, a))
  {
    var dev' := DeviceAfter(server, dev, a);
    assert FlightInv(server, dev', dev'.flights[a.f].phase) by {
      match a
      case ServerPull(f, answer) => PullStartsMerge(server, dev, f, answer);
      case MergeNext(f) => MergeOneAdvances(server, dev, f);
      case PutCursor(f) => CursorCloses(server, dev, f);
    }
    SoleFlightSuffices(server, dev', a.f);
  }

  // On the tables as they were; the commit, if the step makes one, comes on top.
  lemma {:induction false} OwnStepKeepsCacheInv(server: Tables, dev: Device, a: Action)
    requires CacheInv(server, dev) && ActionEnabled(server, dev, a)
    requires a.StartFlush? ==> dev.flights == map[]
    requires a.ServerPull? ==> MatchSet(server, dev.user, dev.flights[a.f].phase.since) <= Keys(a.answer)
    ensures CacheInv(server, DeviceAfter(server, dev, a))
  {
    if a.QueueDelete? {
      QueueDeleteKeepsCacheInv(server, dev, a);
    } else if a.ServerPull? || a.MergeNext? || a.PutCursor? {
      MergingStepKeepsCacheInv(server, dev, a);
    } else {
      QuietStepKeepsCacheInv(server, dev, a);
    }
  }

  lemma CommitStepKeepsHorizon(server: Tables, dev: Device, a: Action)
    requires CacheInv(server, dev) && ActionEnabled(server, dev, a) && (a.ServerPush? || a.SendDelete?)
    ensures Horizon(DeviceAfter(server, dev, a)) == Horizon(dev)
    ensures DeviceAfter(server, dev, a).user == dev.user && DeviceAfter(server, dev, a).deletes == dev.deletes
  {
    var dev' := DeviceAfter(server, dev, a);
    if a.SendDelete? {
      DeleteReplies(server, dev.user, a.key, dev.flights[a.f].phase.queue[a.key], a.now);
    }
    HorizonOf(dev, a.f);
    HorizonOf(dev', a.f);
  }

  lemma StepKeepsCacheInv(w: World, s: Step, d: nat)
    requires d in w.devices && Enabled(w, s) && Disciplined(w, s, d)
    requires CacheInv(w.server, w.devices[d])
    ensures CacheInv(Apply(w, s).server, Apply(w, s).devices[d])
  {
    var dev, dev' := w.devices[d], Apply(w, s).devices[d];
    ApplyEvolves(w, s);
    if s.Step? && s.d == d {
      OwnStepKeepsCacheInv(w.server, dev, s.action);
      if s.action.ServerPush? || s.action.SendDelete? {
        CommitStepKeepsHorizon(w.server, dev, s.action);
        CommitKeepsCacheInv(w.server, Apply(w, s).server, dev');
      }
    } else {
      CommitKeepsCacheInv(w.server, Apply(w, s).server, dev);
    }
  }

  lemma {:induction false} RunKeepsCacheInv(w: World, steps: seq<Step>, d: nat)
    requires d in w.devices && Legal(w, steps) && DisciplinedRun(w, steps, d)
    requires CacheInv(w.server, w.devices[d])
    ensures d in Final(w, steps).devices
    ensures CacheInv(Final(w, steps).server, Final(w, steps).devices[d])
    decreases steps
  {
    if steps != [] {
      StepKeepsCacheInv(w, steps[0], d);
      RunKeepsCacheInv(Apply(w, steps[0]), steps[1..], d);
    }
  }

  /******* The theorem *******/

  // No row lies at or before Go's zero time, where no pull looks.
  ghost predicate AfterZeroTime(rows: Tables) {
    forall k :: k in rows ==> rows[k].updatedAt > 0
  }

  // The rows of a user that are not tombstoned, as cache rows.
  ghost function LiveImage(rows: Tables, user: UserId): Envelopes {
    map k | k in rows && rows[k].owner == user && rows[k].deletedAt.None? :: Mirror(user, k, rows[k])
  }

  function SnapshotOf(phase: Phase): Tables
    requires phase.CursorStored? || phase.Deleting?
  {
    phase.snap
  }

  // Whenever a flush is about to report `failed: false`, the cache is the image of the
  // user's live rows at the moment that flush's pull read them, apart from records with
  // a delete queued here; and it still is, of the current rows, wherever no commit has
  // come in since.
  lemma {:induction false} CacheRefinesServer(w: World, steps: seq<Step>, d: nat, f: nat)
    requires Initial(w) && AfterZeroTime(w.server) && d in w.devices
    requires Legal(w, steps) && DisciplinedRun(w, steps, d)
    requires Enabled(Final(w, steps), Step(d, FinishFlush(f)))
    ensures var now, dev := Final(w, steps).server, Final(w, steps).devices[d];
      var snap := SnapshotOf(dev.flights[f].phase);
      && dev.envelopes - dev.deletes.Keys == LiveImage(snap, dev.user) - dev.deletes.Keys
      && forall k :: k !in dev.deletes ==>
           || Agrees(dev.user, k, Visible(now, dev.user, k), Lookup(dev.envelopes, k))
           || (Visible(now, dev.user, k).Some? && now[k].updatedAt > dev.cursor)
  {
    assert CacheInv(w.server, w.devices[d]);
    RunKeepsCacheInv(w, steps, d);
    var now, dev := Final(w, steps).server, Final(w, steps).devices[d];
    var snap := SnapshotOf(dev.flights[f].phase);
    assert FlightInv(now, dev, dev.flights[f].phase);
    var left, right := dev.envelopes - dev.deletes.Keys, LiveImage(snap, dev.user) - dev.deletes.Keys;
    forall k ensures Lookup(left, k) == Lookup(right, k) {
      if k !in dev.deletes {
        assert Agrees(dev.user, k, Visible(snap, dev.user, k), Lookup(dev.envelopes, k));
      }
    }
    SameLookupsSameMap(left, right);
    forall k | k !in dev.deletes
      ensures Agrees(dev.user, k, Visible(now, dev.user, k), Lookup(dev.envelopes, k)) ||
              (Visible(now, dev.user, k).Some? && now[k].updatedAt > dev.cursor)
    {
      assert Supersedes(Visible(snap, dev.user, k), Visible(now, dev.user, k), dev.cursor);
    }
  }
}
