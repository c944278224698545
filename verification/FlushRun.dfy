/**
 The machine can do what one call of flush does: its steps, taken without interference,
 reach the end of the flush with the tables the call promises.
 */
module FlushRun {
  import opened SyncStore
  import opened DeltaPull
  import opened ClientCache
  import opened SyncMachine

  lemma {:induction false} RunAppend(w: World, first: seq<Step>, second: seq<Step>)
    requires Legal(w, first) && Legal(Final(w, first), second)
    ensures Legal(w, first + second) && Final(w, first + second) == Final(Final(w, first), second)
    decreases first
  {
    if first == [] {
      assert first + second == second;
    } else {
      assert (first + second)[1..] == first[1..] + second;
      RunAppend(Apply(w, first[0]), first[1..], second);
    }
  }

  lemma OneMore(w: World, steps: seq<Step>, s: Step)
    requires Legal(w, steps) && Enabled(Final(w, steps), s)
    ensures Legal(w, steps + [s]) && Final(w, steps + [s]) == Apply(Final(w, steps), s)
  {
    var mid := Final(w, steps);
    assert [s][1..] == [];
    assert Legal(Apply(mid, s), []);
    assert Legal(mid, [s]) && Final(mid, [s]) == Apply(mid, s);
    RunAppend(w, steps, [s]);
  }

  predicate OwnSteps(steps: seq<Step>, d: nat) {
    forall s :: s in steps ==> s.Step? && s.d == d
  }

  lemma {:induction false} OwnStepsLeaveOthers(w: World, steps: seq<Step>, d: nat)
    requires Legal(w, steps) && OwnSteps(steps, d)
    ensures Final(w, steps).devices.Keys == w.devices.Keys
    ensures forall e :: e in w.devices && e != d ==> Final(w, steps).devices[e] == w.devices[e]
    decreases steps
  {
    if steps != [] {
      assert steps[0] in steps;
      OwnStepsLeaveOthers(Apply(w, steps[0]), steps[1..], d);
    }
  }

  // The device after n more changes of the page have been merged.
  function Merged(dev: Device, f: nat, n: nat): Device
    requires f in dev.flights && dev.flights[f].phase.Merging?
    requires dev.flights[f].phase.merged == 0 && n <= |dev.flights[f].phase.page|
  {
    var p := dev.flights[f].phase;
    Moved(dev, f, p.(merged := n)).(envelopes := MergeAll(dev.envelopes, p.page[..n]))
  }

  lemma {:induction false} MergeLoop(w: World, d: nat, f: nat, n: nat) returns (steps: seq<Step>)
    requires d in w.devices && f in w.devices[d].flights && w.devices[d].flights[f].phase.Merging?
    requires w.devices[d].flights[f].phase.merged == 0 && n <= |w.devices[d].flights[f].phase.page|
    ensures Legal(w, steps) && OwnSteps(steps, d)
    ensures Final(w, steps) == w.(devices := w.devices[d := Merged(w.devices[d], f, n)])
  {
    var dev := w.devices[d];
    var page := dev.flights[f].phase.page;
    if n == 0 {
      steps := [];
      assert Merged(dev, f, 0) == dev by {
        assert dev.flights[f := dev.flights[f]] == dev.flights;
      }
      assert w.devices[d := dev] == w.devices;
    } else {
      var init := MergeLoop(w, d, f, n - 1);
      var s := Step(d, MergeNext(f));
      OneMore(w, init, s);
      steps := init + [s];
      assert page[..n][..n - 1] == page[..n - 1];
      var before, after := Merged(dev, f, n - 1), Merged(dev, f, n);
      assert DeviceAfter(w.server, before, MergeNext(f)).flights == after.flights;
      assert DeviceAfter(w.server, before, MergeNext(f)) == after;
      assert Final(w, steps).devices == w.devices[d := after];
    }
  }

  // Drain, read the cursor, push.
  lemma ReachPushed(w: World, d: nat, f: nat) returns (steps: seq<Step>)
    requires d in w.devices && f !in w.devices[d].flights
    requires var dev := w.devices[d];
      PushAll(w.server, dev.user, Pushes(ClientCache.Drained(dev.outbox, dev.nextSeq, BATCH_LIMIT))).Ok?
    ensures Legal(w, steps) && OwnSteps(steps, d)
    ensures var dev := w.devices[d];
      var batch := ClientCache.Drained(dev.outbox, dev.nextSeq, BATCH_LIMIT);
      && Final(w, steps).server == AfterPush(w.server, dev.user, Pushes(batch))
      && d in Final(w, steps).devices
      && Final(w, steps).devices[d] == dev.(flights := dev.flights[f := Flight(batch, Pushed(dev.cursor))])
  {
    var one, two, three := Step(d, StartFlush(f)), Step(d, ReadCursor(f)), Step(d, ServerPush(f));
    OneMore(w, [], one);
    OneMore(w, [] + [one], two);
    OneMore(w, [] + [one] + [two], three);
    steps := [] + [one] + [two] + [three];
    assert Final(w, steps).devices[d].flights ==
      w.devices[d].flights[f := Flight(ClientCache.Drained(w.devices[d].outbox, w.devices[d].nextSeq, BATCH_LIMIT),
                                       Pushed(w.devices[d].cursor))];
  }

  // And pull.
  lemma {:induction false} ReachMerging(w: World, d: nat, f: nat, answer: seq<Scanned>) returns (steps: seq<Step>)
    requires d in w.devices && f !in w.devices[d].flights
    requires var dev := w.devices[d];
      var batch := ClientCache.Drained(dev.outbox, dev.nextSeq, BATCH_LIMIT);
      && PushAll(w.server, dev.user, Pushes(batch)).Ok?
      && IsAnswer(AS_WRITTEN, AfterPush(w.server, dev.user, Pushes(batch)), dev.user, dev.cursor, PAGE_LIMIT, answer)
    ensures Legal(w, steps) && OwnSteps(steps, d)
    ensures var dev := w.devices[d];
      var batch := ClientCache.Drained(dev.outbox, dev.nextSeq, BATCH_LIMIT);
      var read := AfterPush(w.server, dev.user, Pushes(batch));
      && Final(w, steps).server == read
      && d in Final(w, steps).devices
      && Final(w, steps).devices[d] == dev.(flights := dev.flights[f := Flight(batch,
           Merging(dev.cursor, read, Page(dev.user, read, dev.cursor, answer), NextSince(dev.cursor, answer), 0))])
  {
    steps := ReachPushed(w, d, f);
    OneMore(w, steps, Step(d, ServerPull(f, answer)));
    steps := steps + [Step(d, ServerPull(f, answer))];
  }

  // The device once the page is merged, the cursor stored and the batch removed.
  function Landed(dev: Device, f: nat): Device
    requires f in dev.flights && dev.flights[f].phase.Merging?
  {
    var p, batch := dev.flights[f].phase, dev.flights[f].batch;
    var stored := Moved(dev, f, CursorStored(p.snap)).(cursor := p.next, envelopes := MergeAll(dev.envelopes, p.page));
    if batch == [] then stored
    else Moved(stored, f, Deleting(p.snap, dev.deletes)).(outbox := WithoutSeqs(dev.outbox, SeqNos(batch)))
  }

  lemma LandedFields(dev: Device, f: nat)
    requires f in dev.flights && dev.flights[f].phase.Merging?
    ensures var end, p, batch := Landed(dev, f), dev.flights[f].phase, dev.flights[f].batch;
      && end.envelopes == MergeAll(dev.envelopes, p.page) && end.cursor == p.next
      && end.outbox == (if batch == [] then dev.outbox else WithoutSeqs(dev.outbox, SeqNos(batch)))
      && end.user == dev.user && end.nextSeq == dev.nextSeq && end.deletes == dev.deletes
      && end.flights - {f} == dev.flights - {f}
  {
  }

  // Merge the page, store the cursor, remove the batch.
  lemma {:induction false} ReachLanded(w: World, d: nat, f: nat) returns (steps: seq<Step>)
    requires d in w.devices && f in w.devices[d].flights && w.devices[d].flights[f].phase.Merging?
    requires w.devices[d].flights[f].phase.merged == 0 && w.devices[d].flights[f].phase.page != []
    ensures Legal(w, steps) && OwnSteps(steps, d) && Enabled(Final(w, steps), Step(d, FinishFlush(f)))
    ensures Final(w, steps).server == w.server && Final(w, steps).devices[d] == Landed(w.devices[d], f)
  {
    var dev := w.devices[d];
    var p, batch := dev.flights[f].phase, dev.flights[f].batch;
    steps := MergeLoop(w, d, f, |p.page|);
    assert p.page[..|p.page|] == p.page;
    OneMore(w, steps, Step(d, PutCursor(f)));
    steps := steps + [Step(d, PutCursor(f))];
    var stored := Moved(dev, f, CursorStored(p.snap)).(cursor := p.next, envelopes := MergeAll(dev.envelopes, p.page));
    assert Final(w, steps).devices[d].flights == stored.flights;
    assert Final(w, steps).devices[d] == stored;
    if batch != [] {
      OneMore(w, steps, Step(d, RemoveBatch(f)));
      steps := steps + [Step(d, RemoveBatch(f))];
    }
  }

  // From any state of any machine: a flush whose push is accepted and whose page is not
  // empty can run to the point of reporting success, with the page merged, the cursor
  // stored and exactly the batch gone from the outbox.
  lemma {:induction false} FlushCanFinish(w: World, d: nat, f: nat, answer: seq<Scanned>) returns (steps: seq<Step>)
    requires d in w.devices && f !in w.devices[d].flights && answer != []
    requires var dev := w.devices[d];
      var batch := ClientCache.Drained(dev.outbox, dev.nextSeq, BATCH_LIMIT);
      && PushAll(w.server, dev.user, Pushes(batch)).Ok?
      && IsAnswer(AS_WRITTEN, AfterPush(w.server, dev.user, Pushes(batch)), dev.user, dev.cursor, PAGE_LIMIT, answer)
    ensures Legal(w, steps) && OwnSteps(steps, d) && Enabled(Final(w, steps), Step(d, FinishFlush(f)))
    ensures var dev, end := w.devices[d], Final(w, steps).devices[d];
      var batch := ClientCache.Drained(dev.outbox, dev.nextSeq, BATCH_LIMIT);
      var read := AfterPush(w.server, dev.user, Pushes(batch));
      && Final(w, steps).server == read
      && end.envelopes == MergeAll(dev.envelopes, Page(dev.user, read, dev.cursor, answer))
      && end.cursor == NextSince(dev.cursor, answer)
      && end.outbox == (if batch == [] then dev.outbox else WithoutSeqs(dev.outbox, SeqNos(batch)))
      && end.user == dev.user && end.nextSeq == dev.nextSeq && end.deletes == dev.deletes
      && end.flights - {f} == dev.flights
  {
    steps := ReachMerging(w, d, f, answer);
    var merging := Final(w, steps);
    var landing := ReachLanded(merging, d, f);
    LandedFields(merging.devices[d], f);
    assert merging.devices[d].flights - {f} == w.devices[d].flights;
    RunAppend(w, steps, landing);
    steps := steps + landing;
  }
}
