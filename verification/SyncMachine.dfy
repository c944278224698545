/**
 The sync protocol as a state machine: any number of devices of any users against one
 server.  A flush is a flight that moves through its awaits one step at a time, so that
 other flights, other devices, lost messages and crashes fall between any two of them.
 */
module SyncMachine {
  import opened Records
  import opened SyncStore
  import opened SyncStoreLaws
  import opened DeltaPull
  import opened SyncHandler
  import opened ClientCache

  const BATCH_LIMIT := 500
  const PAGE_LIMIT := 500

  /******* State *******/

  datatype Phase =
    | Drained                                          // batch read, nothing sent
    | Asked(since: Instant)                            // cursor read, request on its way
    | Pushed(since: Instant)                           // push transaction committed
    | Merging(since: Instant, snap: Tables, page: seq<WireChange>, next: Instant, merged: nat)
    | CursorStored(snap: Tables)                       // page merged, cursor written
    | Deleting(snap: Tables, queue: map<Key, Instant>) // batch removed from the outbox

  datatype Flight = Flight(batch: seq<Entry>, phase: Phase)

  // A device's durable tables, and the flights its running page has started.
  // A missing cursor is the zero time.
  datatype Device = Device(user: UserId, outbox: map<nat, Push>, nextSeq: nat, cursor: Instant,
                           deletes: map<Key, Instant>, envelopes: Envelopes, flights: map<nat, Flight>)

  // `network` holds every request ever sent: it may still arrive, late or again, after
  // the flight that sent it has failed or its device has crashed.
  datatype World = World(server: Tables, devices: map<nat, Device>, network: set<Op>)

  datatype Action =
    | Enqueue(p: Push)
    | QueueDelete(key: Key, ts: Instant, flagOnly: bool)
    | StartFlush(f: nat)
    | ReadCursor(f: nat)
    | ServerPush(f: nat)
    | ServerPull(f: nat, answer: seq<Scanned>)
    | MergeNext(f: nat)
    | PutCursor(f: nat)
    | RemoveBatch(f: nat)
    | SendDelete(f: nat, key: Key, now: Instant)
    | FinishFlush(f: nat)                              // returns failed: false
    | FailFlush(f: nat)                                // the catch block: failed: true
    | Crash

  datatype Step =
    | Step(d: nat, action: Action)
    | StrayArrival(request: Op)

  /******* Steps *******/

  function Pushes(batch: seq<Entry>): (r: seq<Push>)
    ensures |r| == |batch| && forall i :: 0 <= i < |r| ==> r[i] == batch[i].push
  {
    seq(|batch|, i requires 0 <= i < |batch| => batch[i].push)
  }

  function SeqNos(batch: seq<Entry>): (r: seq<nat>)
    ensures |r| == |batch| && forall i :: 0 <= i < |r| ==> r[i] == batch[i].seqNo
  {
    seq(|batch|, i requires 0 <= i < |batch| => batch[i].seqNo)
  }

  function Page(user: UserId, rows: Tables, since: Instant, answer: seq<Scanned>): (page: seq<WireChange>)
    requires Truthful(rows, user, since, answer)
    ensures |page| == |answer|
    ensures forall i :: 0 <= i < |page| ==>
      page[i].key == answer[i].key && page[i] == ToWire(user, ChangeOf(answer[i].key, rows[answer[i].key]))
  {
    seq(|answer|, i requires 0 <= i < |answer| => ToWire(user, ChangeOf(answer[i].key, rows[answer[i].key])))
  }

  ghost predicate ActionEnabled(server: Tables, dev: Device, a: Action) {
    match a
    case Enqueue(_) => true
    case QueueDelete(_, _, _) => true
    case StartFlush(f) => f !in dev.flights
    case ReadCursor(f) => f in dev.flights && dev.flights[f].phase.Drained?
    case ServerPush(f) =>
      && f in dev.flights && dev.flights[f].phase.Asked?
      && PushAll(server, dev.user, Pushes(dev.flights[f].batch)).Ok?
    case ServerPull(f, answer) =>
      && f in dev.flights && dev.flights[f].phase.Pushed?
      && IsAnswer(AS_WRITTEN, server, dev.user, dev.flights[f].phase.since, PAGE_LIMIT, answer)
    case MergeNext(f) =>
      && f in dev.flights && dev.flights[f].phase.Merging?
      && dev.flights[f].phase.merged < |dev.flights[f].phase.page|
    // An empty page arrives as null: the loop over it throws, so only FailFlush is left.
    case PutCursor(f) =>
      && f in dev.flights && dev.flights[f].phase.Merging?
      && dev.flights[f].phase.page != []
      && dev.flights[f].phase.merged == |dev.flights[f].phase.page|
    case RemoveBatch(f) => f in dev.flights && dev.flights[f].phase.CursorStored? && dev.flights[f].batch != []
    case SendDelete(f, key, _) =>
      f in dev.flights && dev.flights[f].phase.Deleting? && key in dev.flights[f].phase.queue
    case FinishFlush(f) =>
      && f in dev.flights
      && (dev.flights[f].phase.Deleting? || (dev.flights[f].phase.CursorStored? && dev.flights[f].batch == []))
    case FailFlush(f) => f in dev.flights
    case Crash => true
  }

  function Moved(dev: Device, f: nat, phase: Phase): Device
    requires f in dev.flights
  {
    dev.(flights := dev.flights[f := dev.flights[f].(phase := phase)])
  }

  ghost function ServerAfter(server: Tables, dev: Device, a: Action): Tables
    requires ActionEnabled(server, dev, a)
  {
    match a
    case ServerPush(f) => AfterPush(server, dev.user, Pushes(dev.flights[f].batch))
    case SendDelete(f, key, now) => HandleDelete(server, dev.user, key, dev.flights[f].phase.queue[key], now).0
    case _ => server
  }

  ghost function DeviceAfter(server: Tables, dev: Device, a: Action): Device
    requires ActionEnabled(server, dev, a)
  {
    match a
    case Enqueue(p) => dev.(outbox := dev.outbox[dev.nextSeq := p], nextSeq := dev.nextSeq + 1)
    case QueueDelete(key, ts, flagOnly) =>
      dev.(deletes := dev.deletes[key := ts],
           envelopes := if !flagOnly then dev.envelopes - {key}
                        else if key in dev.envelopes then dev.envelopes[key := dev.envelopes[key].(deleted := true)]
                        else dev.envelopes)
    case StartFlush(f) =>
      dev.(flights := dev.flights[f := Flight(ClientCache.Drained(dev.outbox, dev.nextSeq, BATCH_LIMIT), Phase.Drained)])
    case ReadCursor(f) => Moved(dev, f, Asked(dev.cursor))
    case ServerPush(f) => Moved(dev, f, Pushed(dev.flights[f].phase.since))
    case ServerPull(f, answer) =>
      var since := dev.flights[f].phase.since;
      Moved(dev, f, Merging(since, server, Page(dev.user, server, since, answer), NextSince(since, answer), 0))
    case MergeNext(f) =>
      var p := dev.flights[f].phase;
      Moved(dev, f, p.(merged := p.merged + 1)).(envelopes := Merge(dev.envelopes, p.page[p.merged]))
    case PutCursor(f) =>
      var p := dev.flights[f].phase;
      Moved(dev, f, CursorStored(p.snap)).(cursor := p.next)
    case RemoveBatch(f) =>
      Moved(dev, f, Deleting(dev.flights[f].phase.snap, dev.deletes))
        .(outbox := WithoutSeqs(dev.outbox, SeqNos(dev.flights[f].batch)))
    case SendDelete(f, key, now) =>
      // clearDelete runs only when the fetch returns.
      if FetchReturns(HandleDelete(server, dev.user, key, dev.flights[f].phase.queue[key], now).1)
      then dev.(deletes := dev.deletes - {key})
      else dev
    case FinishFlush(f) => dev.(flights := dev.flights - {f})
    case FailFlush(f) => dev.(flights := dev.flights - {f})
    case Crash => dev.(flights := map[])
  }

  // The requests this action puts on the network.
  ghost function Sent(dev: Device, a: Action): set<Op> {
    match a
    case ReadCursor(f) => if f in dev.flights then {PushBatch(dev.user, Pushes(dev.flights[f].batch))} else {}
    case RemoveBatch(_) => set k | k in dev.deletes :: Op.Delete(dev.user, k, dev.deletes[k])
    case _ => {}
  }

  ghost predicate Enabled(w: World, s: Step) {
    match s
    case Step(d, a) => d in w.devices && ActionEnabled(w.server, w.devices[d], a)
    case StrayArrival(request) => request in w.network
  }

  ghost function Apply(w: World, s: Step): World
    requires Enabled(w, s)
  {
    match s
    case Step(d, a) =>
      var dev := w.devices[d];
      World(ServerAfter(w.server, dev, a), w.devices[d := DeviceAfter(w.server, dev, a)], w.network + Sent(dev, a))
    case StrayArrival(request) => w.(server := Serve(w.server, request))
  }

  ghost predicate Legal(w: World, steps: seq<Step>)
    decreases steps
  {
    steps == [] || (Enabled(w, steps[0]) && Legal(Apply(w, steps[0]), steps[1..]))
  }

  ghost function Final(w: World, steps: seq<Step>): World
    requires Legal(w, steps)
    decreases steps
  {
    if steps == [] then w else Final(Apply(w, steps[0]), steps[1..])
  }

  // Fresh devices against any server.
  ghost predicate Initial(w: World) {
    forall d :: d in w.devices ==>
      var dev := w.devices[d];
      dev.outbox == map[] && dev.cursor == 0 && dev.deletes == map[] && dev.envelopes == map[] && dev.flights == map[]
  }

  /******* The server only moves forward *******/

  lemma EvolvesTransitive(a: Tables, b: Tables, c: Tables)
    requires Evolves(a, b) && Evolves(b, c)
    ensures Evolves(a, c)
  {
  }

  lemma ServerStepEvolves(server: Tables, dev: Device, a: Action)
    requires ActionEnabled(server, dev, a)
    ensures Evolves(server, ServerAfter(server, dev, a))
  {
    if a.ServerPush? {
      ServeEvolves(server, PushBatch(dev.user, Pushes(dev.flights[a.f].batch)));
    }
  }

  lemma ApplyEvolves(w: World, s: Step)
    requires Enabled(w, s)
    ensures Evolves(w.server, Apply(w, s).server)
  {
    match s
    case Step(d, a) => ServerStepEvolves(w.server, w.devices[d], a);
    case StrayArrival(request) => ServeEvolves(w.server, request);
  }

  lemma {:induction false} ServerEvolves(w: World, steps: seq<Step>)
    requires Legal(w, steps)
    ensures Evolves(w.server, Final(w, steps).server)
    decreases steps
  {
    if steps != [] {
      var next := Apply(w, steps[0]);
      ApplyEvolves(w, steps[0]);
      ServerEvolves(next, steps[1..]);
      EvolvesTransitive(w.server, next.server, Final(w, steps).server);
    }
  }

  /******* The joint invariant *******/

  predicate Committed(phase: Phase) {
    !phase.Drained? && !phase.Asked?
  }

  ghost predicate BatchHeld(server: Tables, batch: seq<Entry>) {
    forall e :: e in batch ==> Held(server, e.push)
  }

  // A batch entry is the outbox row of its number for as long as that row is there.
  ghost predicate BatchKnown(dev: Device, batch: seq<Entry>) {
    forall e :: e in batch ==>
      e.seqNo < dev.nextSeq && (e.seqNo in dev.outbox ==> dev.outbox[e.seqNo] == e.push)
  }

  ghost predicate DeviceInv(server: Tables, dev: Device) {
    && (forall s :: s in dev.outbox ==> s < dev.nextSeq)
    && forall f :: f in dev.flights ==>
         && BatchKnown(dev, dev.flights[f].batch)
         && (Committed(dev.flights[f].phase) ==> BatchHeld(server, dev.flights[f].batch))
  }

  ghost predicate Inv(w: World) {
    forall d :: d in w.devices ==> DeviceInv(w.server, w.devices[d])
  }

  lemma HeldForever(before: Tables, after: Tables, batch: seq<Entry>)
    requires Evolves(before, after) && BatchHeld(before, batch)
    ensures BatchHeld(after, batch)
  {
  }

  lemma OthersKeepInv(before: Tables, after: Tables, dev: Device)
    requires DeviceInv(before, dev) && Evolves(before, after)
    ensures DeviceInv(after, dev)
  {
  }

  lemma StartKeepsInv(server: Tables, dev: Device, f: nat)
    requires DeviceInv(server, dev) && f !in dev.flights
    ensures DeviceInv(server, DeviceAfter(server, dev, StartFlush(f)))
  {
  }

  lemma PushKeepsInv(server: Tables, dev: Device, f: nat)
    requires DeviceInv(server, dev) && ActionEnabled(server, dev, ServerPush(f))
    ensures DeviceInv(ServerAfter(server, dev, ServerPush(f)), DeviceAfter(server, dev, ServerPush(f)))
  {
    var batch := dev.flights[f].batch;
    var after := ServerAfter(server, dev, ServerPush(f));
    ServerStepEvolves(server, dev, ServerPush(f));
    CommittedIsHeld(server, dev.user, Pushes(batch));
    forall e | e in batch ensures Held(after, e.push) {
      var i :| 0 <= i < |batch| && batch[i] == e;
      assert Pushes(batch)[i] in Pushes(batch);
    }
    OthersKeepInv(server, after, dev);
    var dev' := DeviceAfter(server, dev, ServerPush(f));
    forall g | g in dev'.flights
      ensures BatchKnown(dev', dev'.flights[g].batch)
    {
      assert dev'.flights[g].batch == dev.flights[g].batch;
    }
  }

  lemma OwnStepKeepsInv(server: Tables, dev: Device, a: Action)
    requires DeviceInv(server, dev) && ActionEnabled(server, dev, a)
    ensures DeviceInv(ServerAfter(server, dev, a), DeviceAfter(server, dev, a))
  {
    var server', dev' := ServerAfter(server, dev, a), DeviceAfter(server, dev, a);
    if a.StartFlush? {
      StartKeepsInv(server, dev, a.f);
    } else if a.ServerPush? {
      PushKeepsInv(server, dev, a.f);
    } else {
      ServerStepEvolves(server, dev, a);
      forall g | g in dev'.flights
        ensures BatchKnown(dev', dev'.flights[g].batch)
        ensures Committed(dev'.flights[g].phase) ==> BatchHeld(server', dev'.flights[g].batch)
      {
        assert dev'.flights[g].batch == dev.flights[g].batch;
        assert BatchKnown(dev, dev.flights[g].batch);
      }
    }
  }

  lemma StepKeepsInv(w: World, s: Step)
    requires Inv(w) && Enabled(w, s)
    ensures Inv(Apply(w, s))
  {
    var w' := Apply(w, s);
    ApplyEvolves(w, s);
    if s.Step? {
      OwnStepKeepsInv(w.server, w.devices[s.d], s.action);
    }
    forall d | d in w'.devices && (s.Step? ==> d != s.d) ensures DeviceInv(w'.server, w'.devices[d]) {
      OthersKeepInv(w.server, w'.server, w.devices[d]);
    }
  }

  lemma {:induction false} RunKeepsInv(w: World, steps: seq<Step>)
    requires Inv(w) && Legal(w, steps)
    ensures Inv(Final(w, steps))
    decreases steps
  {
    if steps != [] {
      StepKeepsInv(w, steps[0]);
      RunKeepsInv(Apply(w, steps[0]), steps[1..]);
    }
  }

  /******* No write is lost *******/

  // Still queued on the device, or held by the server.
  ghost predicate Safe(server: Tables, dev: Device, p: Push) {
    Held(server, p) || exists s :: s in dev.outbox && dev.outbox[s] == p
  }

  lemma FlushedRowIsHeld(server: Tables, dev: Device, batch: seq<Entry>, s: nat)
    requires BatchKnown(dev, batch) && BatchHeld(server, batch)
    requires s in dev.outbox && s in SeqNos(batch)
    ensures Held(server, dev.outbox[s])
  {
  }

  lemma RemoveKeepsSafe(server: Tables, dev: Device, f: nat, p: Push)
    requires DeviceInv(server, dev) && Safe(server, dev, p) && ActionEnabled(server, dev, RemoveBatch(f))
    ensures Safe(server, DeviceAfter(server, dev, RemoveBatch(f)), p)
  {
    var batch := dev.flights[f].batch;
    var after := DeviceAfter(server, dev, RemoveBatch(f));
    if !Held(server, p) {
      var s :| s in dev.outbox && dev.outbox[s] == p;
      if s in SeqNos(batch) {
        FlushedRowIsHeld(server, dev, batch, s);
        assert false;
      }
      assert s in after.outbox && after.outbox[s] == p;
    }
  }

  lemma OwnStepKeepsSafe(server: Tables, dev: Device, a: Action, p: Push)
    requires DeviceInv(server, dev) && Safe(server, dev, p) && ActionEnabled(server, dev, a)
    ensures Safe(ServerAfter(server, dev, a), DeviceAfter(server, dev, a), p)
  {
    ServerStepEvolves(server, dev, a);
    var dev' := DeviceAfter(server, dev, a);
    if a.RemoveBatch? {
      RemoveKeepsSafe(server, dev, a.f, p);
    } else if !Held(server, p) {
      var s :| s in dev.outbox && dev.outbox[s] == p;
      assert s in dev'.outbox && dev'.outbox[s] == p;
    }
  }

  lemma {:induction false} RunKeepsSafe(w: World, steps: seq<Step>, d: nat, p: Push)
    requires Inv(w) && Legal(w, steps) && d in w.devices && Safe(w.server, w.devices[d], p)
    ensures d in Final(w, steps).devices
    ensures Safe(Final(w, steps).server, Final(w, steps).devices[d], p)
    decreases steps
  {
    if steps != [] {
      var s := steps[0];
      StepKeepsInv(w, s);
      ApplyEvolves(w, s);
      if s.Step? && s.d == d {
        OwnStepKeepsSafe(w.server, w.devices[d], s.action, p);
      }
      RunKeepsSafe(Apply(w, s), steps[1..], d, p);
    }
  }

  lemma EnqueueMakesSafe(w: World, s: Step)
    requires Enabled(w, s) && s.Step? && s.action.Enqueue?
    ensures Safe(Apply(w, s).server, Apply(w, s).devices[s.d], s.action.p)
  {
    var dev, dev' := w.devices[s.d], Apply(w, s).devices[s.d];
    assert dev.nextSeq in dev'.outbox && dev'.outbox[dev.nextSeq] == s.action.p;
  }

  lemma {:induction false} NoWriteIsLostFrom(w: World, steps: seq<Step>, i: nat)
    requires Inv(w) && Legal(w, steps)
    requires i < |steps| && steps[i].Step? && steps[i].action.Enqueue?
    ensures steps[i].d in Final(w, steps).devices
    ensures Safe(Final(w, steps).server, Final(w, steps).devices[steps[i].d], steps[i].action.p)
    decreases steps
  {
    StepKeepsInv(w, steps[0]);
    if i == 0 {
      EnqueueMakesSafe(w, steps[0]);
      RunKeepsSafe(Apply(w, steps[0]), steps[1..], steps[0].d, steps[0].action.p);
    } else {
      NoWriteIsLostFrom(Apply(w, steps[0]), steps[1..], i - 1);
    }
  }

  // In every reachable state every envelope ever enqueued is still in its device's
  // outbox, or the server holds its row at that ts or later.
  lemma NoWriteIsLost(w: World, steps: seq<Step>)
    requires Initial(w) && Legal(w, steps)
    ensures forall i :: 0 <= i < |steps| && steps[i].Step? && steps[i].action.Enqueue? ==>
      && steps[i].d in Final(w, steps).devices
      && Safe(Final(w, steps).server, Final(w, steps).devices[steps[i].d], steps[i].action.p)
  {
    forall i | 0 <= i < |steps| && steps[i].Step? && steps[i].action.Enqueue?
      ensures steps[i].d in Final(w, steps).devices
      ensures Safe(Final(w, steps).server, Final(w, steps).devices[steps[i].d], steps[i].action.p)
    {
      NoWriteIsLostFrom(w, steps, i);
    }
  }

  /******* The row that holds a write is its own user's *******/

  ghost predicate OpAtHome(op: Op, home: RecordId -> UserId) {
    op.PushBatch? ==> forall p :: p in op.pushes ==> home(p.key.id) == op.user
  }

  ghost predicate DeviceAtHome(dev: Device, home: RecordId -> UserId) {
    && (forall s :: s in dev.outbox ==> home(dev.outbox[s].key.id) == dev.user)
    && forall f, e :: f in dev.flights && e in dev.flights[f].batch ==> home(e.push.key.id) == dev.user
  }

  // Record ids are not shared between users, in the tables, the queues and on the network.
  ghost predicate WorldAtHome(w: World, home: RecordId -> UserId) {
    && AtHome(w.server, home)
    && (forall d :: d in w.devices ==> DeviceAtHome(w.devices[d], home))
    && forall op :: op in w.network ==> OpAtHome(op, home)
  }

  // Nor in what is enqueued.
  ghost predicate EnqueuesAtHome(w: World, steps: seq<Step>, home: RecordId -> UserId) {
    forall s :: s in steps && s.Step? && s.action.Enqueue? && s.d in w.devices ==>
      home(s.action.p.key.id) == w.devices[s.d].user
  }

  lemma {:induction false} PushAllKeepsHome(rows: Tables, user: UserId, pushes: seq<Push>, home: RecordId -> UserId)
    requires AtHome(rows, home) && forall p :: p in pushes ==> home(p.key.id) == user
    ensures AtHome(AfterPush(rows, user, pushes), home)
    decreases pushes
  {
    if pushes != [] {
      assert pushes[0] in pushes;
      var next := PushOne(rows, user, pushes[0]);
      if next.Ok? {
        PushAllKeepsHome(next.value, user, pushes[1..], home);
      }
    }
  }

  lemma ServeKeepsHome(rows: Tables, op: Op, home: RecordId -> UserId)
    requires AtHome(rows, home) && OpAtHome(op, home)
    ensures AtHome(Serve(rows, op), home)
  {
    if op.PushBatch? {
      PushAllKeepsHome(rows, op.user, op.pushes, home);
    }
  }

  lemma BatchAtHome(dev: Device, f: nat, home: RecordId -> UserId)
    requires DeviceAtHome(dev, home) && f in dev.flights
    ensures OpAtHome(PushBatch(dev.user, Pushes(dev.flights[f].batch)), home)
  {
    var batch := dev.flights[f].batch;
    forall p | p in Pushes(batch) ensures home(p.key.id) == dev.user {
      var i :| 0 <= i < |batch| && Pushes(batch)[i] == p;
      assert batch[i] in batch;
    }
  }

  lemma OwnStepKeepsHome(server: Tables, dev: Device, a: Action, home: RecordId -> UserId)
    requires ActionEnabled(server, dev, a) && AtHome(server, home) && DeviceAtHome(dev, home)
    requires a.Enqueue? ==> home(a.p.key.id) == dev.user
    ensures AtHome(ServerAfter(server, dev, a), home)
    ensures DeviceAtHome(DeviceAfter(server, dev, a), home) && DeviceAfter(server, dev, a).user == dev.user
    ensures forall op :: op in Sent(dev, a) ==> OpAtHome(op, home)
  {
    if a.ServerPush? {
      BatchAtHome(dev, a.f, home);
      ServeKeepsHome(server, PushBatch(dev.user, Pushes(dev.flights[a.f].batch)), home);
    }
    if a.ReadCursor? {
      BatchAtHome(dev, a.f, home);
    }
    var dev' := DeviceAfter(server, dev, a);
    forall f, e | f in dev'.flights && e in dev'.flights[f].batch ensures home(e.push.key.id) == dev.user {
      if a.StartFlush? && f == a.f {
        var i :| 0 <= i < |dev'.flights[f].batch| && dev'.flights[f].batch[i] == e;
      } else {
        assert f in dev.flights && dev'.flights[f].batch == dev.flights[f].batch;
      }
    }
  }

  lemma StepKeepsHome(w: World, s: Step, home: RecordId -> UserId)
    requires Enabled(w, s) && WorldAtHome(w, home) && EnqueuesAtHome(w, [s], home)
    ensures WorldAtHome(Apply(w, s), home)
    ensures forall d :: d in w.devices <==> d in Apply(w, s).devices
    ensures forall d :: d in w.devices ==> Apply(w, s).devices[d].user == w.devices[d].user
  {
    match s
    case Step(d, a) =>
      assert s in [s];
      OwnStepKeepsHome(w.server, w.devices[d], a, home);
    case StrayArrival(request) => ServeKeepsHome(w.server, request, home);
  }

  lemma {:induction false} RunKeepsHome(w: World, steps: seq<Step>, home: RecordId -> UserId)
    requires Legal(w, steps) && WorldAtHome(w, home) && EnqueuesAtHome(w, steps, home)
    ensures WorldAtHome(Final(w, steps), home)
    ensures forall d :: d in w.devices <==> d in Final(w, steps).devices
    ensures forall d :: d in w.devices ==> Final(w, steps).devices[d].user == w.devices[d].user
    decreases steps
  {
    if steps != [] {
      assert steps[0] in steps;
      StepKeepsHome(w, steps[0], home);
      RunKeepsHome(Apply(w, steps[0]), steps[1..], home);
    }
  }

  // Where ids are not shared, an envelope that has left its outbox is held by a row of
  // the user who wrote it.
  lemma HeldByItsOwner(w: World, steps: seq<Step>, home: RecordId -> UserId, i: nat)
    requires Initial(w) && Legal(w, steps) && WorldAtHome(w, home) && EnqueuesAtHome(w, steps, home)
    requires i < |steps| && steps[i].Step? && steps[i].action.Enqueue?
    ensures var p, end := steps[i].action.p, Final(w, steps);
      && steps[i].d in end.devices
      && ((exists s :: s in end.devices[steps[i].d].outbox && end.devices[steps[i].d].outbox[s] == p)
          || (Held(end.server, p) && end.server[p.key].owner == end.devices[steps[i].d].user))
  {
    NoWriteIsLost(w, steps);
    RunKeepsHome(w, steps, home);
    assert steps[i] in steps;
  }

  /******* Replays inside a run *******/

  // Once a flight's batch has committed, sending it again at any later point of any
  // run leaves the tables as they are.
  lemma CommittedBatchReplaysHarmlessly(w: World, steps: seq<Step>, d: nat, f: nat)
    requires Inv(w) && Legal(w, steps)
    requires d in w.devices && f in w.devices[d].flights && Committed(w.devices[d].flights[f].phase)
    ensures var batch := Pushes(w.devices[d].flights[f].batch);
            AfterPush(Final(w, steps).server, w.devices[d].user, batch) == Final(w, steps).server
  {
    var batch := w.devices[d].flights[f].batch;
    ServerEvolves(w, steps);
    HeldForever(w.server, Final(w, steps).server, batch);
    forall p | p in Pushes(batch) ensures Held(Final(w, steps).server, p) {
      var i :| 0 <= i < |batch| && Pushes(batch)[i] == p;
      assert batch[i] in batch;
    }
    HeldIsNoOp(Final(w, steps).server, w.devices[d].user, Pushes(batch));
  }

  /******* Queued deletes *******/

  lemma OwnStepKeepsDeletes(server: Tables, dev: Device, a: Action)
    requires ActionEnabled(server, dev, a)
    ensures dev.deletes.Keys <= DeviceAfter(server, dev, a).deletes.Keys
  {
    if a.SendDelete? {
      DeleteReplies(server, dev.user, a.key, dev.flights[a.f].phase.queue[a.key], a.now);
    }
  }

  // A delete, once queued, is queued for ever: no reply of the endpoint clears it.
  lemma {:induction false} DeletesStayQueued(w: World, steps: seq<Step>, d: nat)
    requires Legal(w, steps) && d in w.devices
    ensures d in Final(w, steps).devices
    ensures w.devices[d].deletes.Keys <= Final(w, steps).devices[d].deletes.Keys
    decreases steps
  {
    if steps != [] {
      var s := steps[0];
      if s.Step? {
        OwnStepKeepsDeletes(w.server, w.devices[s.d], s.action);
      }
      DeletesStayQueued(Apply(w, s), steps[1..], d);
    }
  }
}
