/**
 The device's tables: the envelope cache with its merge rule, the durable outbox, and
 the queue of deletes kept under string keys in the meta table.
 */
module ClientCache {
  import opened Wrappers
  import opened Records
  import opened SyncHandler
  import Aad

  // A cached ciphertext row; ts is the whole second the server reported.
  datatype CacheRow = CacheRow(blob: string, aad: string, ts: int, deleted: bool)

  type Envelopes = map<Key, CacheRow>

  /******* Merge *******/

  function Merge(cache: Envelopes, c: WireChange): Envelopes {
    match c
    case WireTombstone(key, _) => cache - {key}
    case WireEnvelope(key, ciphertext, aad, ts) =>
      if key in cache && cache[key].ts >= ts then cache
      else cache[key := CacheRow(ciphertext, aad, ts, false)]
  }

  function MergeAll(cache: Envelopes, page: seq<WireChange>): Envelopes {
    if page == [] then cache else Merge(MergeAll(cache, page[..|page| - 1]), page[|page| - 1])
  }

  // The working rows that no tombstone of the page names.
  function Surviving<V>(working: map<Key, V>, page: seq<WireChange>): map<Key, V> {
    map k | k in working && (forall c :: c in page && c.WireTombstone? ==> c.key != k) :: working[k]
  }

  function Lookup<V>(m: map<Key, V>, k: Key): Option<V> {
    if k in m then Some(m[k]) else None
  }

  ghost predicate OneChangePerKey(page: seq<WireChange>) {
    forall i, j :: 0 <= i < j < |page| ==> page[i].key != page[j].key
  }

  // The page touches a key through its one change there, and no other key.
  lemma {:induction false} MergeAllAt(cache: Envelopes, page: seq<WireChange>, k: Key)
    requires OneChangePerKey(page)
    ensures (forall i :: 0 <= i < |page| ==> page[i].key != k) ==> Lookup(MergeAll(cache, page), k) == Lookup(cache, k)
    ensures forall i :: 0 <= i < |page| && page[i].key == k ==>
      Lookup(MergeAll(cache, page), k) == Lookup(Merge(cache, page[i]), k)
  {
    if page != [] {
      MergeAllAt(cache, page[..|page| - 1], k);
    }
  }

  lemma SameLookupsSameMap<V>(a: map<Key, V>, b: map<Key, V>)
    requires forall k :: Lookup(a, k) == Lookup(b, k)
    ensures a == b
  {
    forall k ensures (k in a <==> k in b) && (k in a ==> a[k] == b[k]) {
      assert Lookup(a, k) == Lookup(b, k);
    }
  }

  // A page may be merged in any order.
  lemma PageOrderIsIrrelevant(cache: Envelopes, page: seq<WireChange>, shuffled: seq<WireChange>)
    requires OneChangePerKey(page) && OneChangePerKey(shuffled)
    requires multiset(page) == multiset(shuffled)
    ensures MergeAll(cache, page) == MergeAll(cache, shuffled)
  {
    forall k ensures Lookup(MergeAll(cache, page), k) == Lookup(MergeAll(cache, shuffled), k) {
      MergeAllAt(cache, page, k);
      MergeAllAt(cache, shuffled, k);
      if i :| 0 <= i < |page| && page[i].key == k {
        assert page[i] in multiset(shuffled);
        var j :| 0 <= j < |shuffled| && shuffled[j] == page[i];
      } else {
        forall j | 0 <= j < |shuffled| ensures shuffled[j].key != k {
          assert shuffled[j] in multiset(page);
        }
      }
    }
    SameLookupsSameMap(MergeAll(cache, page), MergeAll(cache, shuffled));
  }

  // Merging the same page again, in any order, changes nothing.
  lemma PageRepeatIsIrrelevant(cache: Envelopes, page: seq<WireChange>, shuffled: seq<WireChange>)
    requires OneChangePerKey(page) && OneChangePerKey(shuffled)
    requires multiset(page) == multiset(shuffled)
    ensures MergeAll(MergeAll(cache, page), shuffled) == MergeAll(cache, page)
  {
    var once := MergeAll(cache, page);
    forall k ensures Lookup(MergeAll(once, shuffled), k) == Lookup(once, k) {
      MergeAllAt(cache, page, k);
      MergeAllAt(once, shuffled, k);
      if j :| 0 <= j < |shuffled| && shuffled[j].key == k {
        assert shuffled[j] in multiset(page);
        var i :| 0 <= i < |page| && page[i] == shuffled[j];
      }
    }
    SameLookupsSameMap(MergeAll(once, shuffled), once);
  }

  /******* Outbox *******/

  // `orderBy('seq').limit(limit)` over the sequence numbers from lo up to hi.
  function Oldest(outbox: map<nat, Push>, lo: nat, hi: nat, limit: nat): (batch: seq<nat>)
    requires lo <= hi
    ensures |batch| <= limit
    ensures forall i :: 0 <= i < |batch| ==> lo <= batch[i] < hi && batch[i] in outbox
    ensures forall i, j :: 0 <= i < j < |batch| ==> batch[i] < batch[j]
    decreases hi - lo
  {
    if lo == hi || limit == 0 then []
    else if lo in outbox then [lo] + Oldest(outbox, lo + 1, hi, limit - 1)
    else Oldest(outbox, lo + 1, hi, limit)
  }

  // A queued number is left for later only by a full batch of smaller ones.
  lemma {:induction false} OldestSkipsNothing(outbox: map<nat, Push>, lo: nat, hi: nat, limit: nat, s: nat)
    requires lo <= s < hi && s in outbox && s !in Oldest(outbox, lo, hi, limit)
    ensures |Oldest(outbox, lo, hi, limit)| == limit
    ensures forall i :: 0 <= i < limit ==> Oldest(outbox, lo, hi, limit)[i] < s
    decreases hi - lo
  {
    if limit > 0 {
      if lo in outbox {
        OldestSkipsNothing(outbox, lo + 1, hi, limit - 1, s);
      } else {
        OldestSkipsNothing(outbox, lo + 1, hi, limit, s);
      }
    }
  }

  // An outbox row: its sequence number and its envelope.
  datatype Entry = Entry(seqNo: nat, push: Push)

  // What drain(limit) returns when hi is beyond every sequence number in use.
  function Drained(outbox: map<nat, Push>, hi: nat, limit: nat): (batch: seq<Entry>)
    ensures |batch| == |Oldest(outbox, 0, hi, limit)|
    ensures forall i :: 0 <= i < |batch| ==>
      batch[i].seqNo == Oldest(outbox, 0, hi, limit)[i] &&
      batch[i].seqNo in outbox && batch[i].push == outbox[batch[i].seqNo]
  {
    var seqs := Oldest(outbox, 0, hi, limit);
    seq(|seqs|, i requires 0 <= i < |seqs| => Entry(seqs[i], outbox[seqs[i]]))
  }

  function WithoutSeqs(outbox: map<nat, Push>, seqs: seq<nat>): map<nat, Push> {
    map s | s in outbox && s !in seqs :: outbox[s]
  }

  /******* The meta table's string keys *******/

  function TypeKey(typeName: string, id: string): string {
    typeName + ":" + id
  }

  const DELETE_PREFIX := "delete:"

  function DeleteKey(typeName: string, id: string): string {
    DELETE_PREFIX + TypeKey(typeName, id)
  }

  // String.prototype.split(':').
  function Split(s: string): (parts: seq<string>)
    ensures |parts| >= 1
    decreases s
  {
    if s == "" then [""]
    else if s[0] == ':' then [""] + Split(s[1..])
    else
      var rest := Split(s[1..]);
      [[s[0]] + rest[0]] + rest[1..]
  }

  // `const [, type, recordId] = key.split(':')`, with the empty string for a missing part.
  function ParseDeleteKey(key: string): (string, string) {
    var parts := Split(key);
    (if |parts| > 1 then parts[1] else "", if |parts| > 2 then parts[2] else "")
  }

  datatype Meta = Meta(key: string, value: string)

  datatype PendingDelete = PendingDelete(typeName: string, id: string, ts: string)

  // The queued deletes among the metas, one each and in their order.
  function Queued(metas: seq<Meta>): seq<PendingDelete> {
    if metas == [] then []
    else
      var last := metas[|metas| - 1];
      Queued(metas[..|metas| - 1]) + Listed(last)
  }

  // The pending delete that one meta row stands for, if any.
  function Listed(m: Meta): seq<PendingDelete> {
    if DELETE_PREFIX <= m.key
    then [PendingDelete(ParseDeleteKey(m.key).0, ParseDeleteKey(m.key).1, m.value)] else []
  }

  method PendingDeletes(metas: seq<Meta>) returns (out: seq<PendingDelete>)
    ensures out == Queued(metas)
  {
    out := [];
    for i := 0 to |metas|
      invariant out == Queued(metas[..i])
    {
      var m := metas[i];
      assert metas[..i + 1][..i] == metas[..i];
      if DELETE_PREFIX <= m.key {
        var (typeName, id) := ParseDeleteKey(m.key);
        out := out + [PendingDelete(typeName, id, m.value)];
      }
    }
    assert metas[..|metas|] == metas;
  }

  // A queued delete as enqueueDelete writes it, and as it should be read back.
  function MetaOf(q: (Key, string)): Meta { Meta(DeleteKey(KindName(q.0.kind), q.0.id), q.1) }

  function AsPending(q: (Key, string)): PendingDelete { PendingDelete(KindName(q.0.kind), q.0.id, q.1) }

  function Mapped<A, B>(f: A -> B, xs: seq<A>): (r: seq<B>)
    ensures |r| == |xs| && forall i :: 0 <= i < |r| ==> r[i] == f(xs[i])
  {
    seq(|xs|, i requires 0 <= i < |xs| => f(xs[i]))
  }

  predicate ColonFree(s: string) { ':' !in s }

  lemma {:induction false} SplitAtColon(a: string, rest: string)
    requires ColonFree(a)
    ensures Split(a + ":" + rest) == [a] + Split(rest)
    decreases a
  {
    var s := a + ":" + rest;
    if a == "" {
      assert s[1..] == rest;
    } else {
      assert s[1..] == a[1..] + ":" + rest;
      SplitAtColon(a[1..], rest);
      assert [a[0]] + a[1..] == a;
    }
  }

  lemma {:induction false} SplitFirst(s: string)
    ensures ColonFree(Split(s)[0])
    ensures Split(s)[0] == s <==> ColonFree(s)
    decreases s
  {
    if s != "" {
      SplitFirst(s[1..]);
      assert s == [s[0]] + s[1..];
      if s[0] != ':' && Split(s)[0] == s {
        assert Split(s)[0][1..] == Split(s[1..])[0];
      }
    }
  }

  // A queued delete is read back as it was written exactly when its id has no colon.
  lemma DeleteKeyRoundTripIff(kind: Kind, id: string)
    ensures ParseDeleteKey(DeleteKey(KindName(kind), id)) == (KindName(kind), id) <==> ColonFree(id)
  {
    KindNamesAreColonFree(kind);
    var key := DeleteKey(KindName(kind), id);
    assert key == "delete" + ":" + (KindName(kind) + ":" + id);
    SplitAtColon("delete", KindName(kind) + ":" + id);
    SplitAtColon(KindName(kind), id);
    assert Split(key) == ["delete", KindName(kind)] + Split(id);
    SplitFirst(id);
  }

  lemma {:induction false} ListedIff(q: (Key, string))
    ensures |Listed(MetaOf(q))| == 1
    ensures Listed(MetaOf(q)) == [AsPending(q)] <==> ColonFree(q.0.id)
  {
    DeleteKeyRoundTripIff(q.0.kind, q.0.id);
    assert DELETE_PREFIX <= MetaOf(q).key;
  }

  lemma SameAppends<T>(a: seq<T>, x: seq<T>, b: seq<T>, y: seq<T>)
    requires |x| == |y|
    ensures a + x == b + y <==> a == b && x == y
  {
    if a + x == b + y {
      assert a == (a + x)[..|a|] && b == (b + y)[..|b|];
      assert x == (a + x)[|a|..] && y == (b + y)[|b|..];
    }
  }

  lemma MappedStep<A, B>(f: A -> B, xs: seq<A>)
    requires xs != []
    ensures Mapped(f, xs) == Mapped(f, xs[..|xs| - 1]) + [f(xs[|xs| - 1])]
  {
  }

  predicate AllColonFree(queue: seq<(Key, string)>) {
    forall i :: 0 <= i < |queue| ==> ColonFree(queue[i].0.id)
  }

  // A whole queue is listed once each, in order and as written, exactly when no id has a
  // colon.
  lemma {:induction false} QueueRoundTripIff(queue: seq<(Key, string)>)
    ensures Queued(Mapped(MetaOf, queue)) == Mapped(AsPending, queue) <==> AllColonFree(queue)
  {
    if queue != [] {
      QueueRoundTripIff(queue[..|queue| - 1]);
      LastOfQueue(queue);
      AllColonFreeStep(queue);
    }
  }

  lemma AllColonFreeStep(queue: seq<(Key, string)>)
    requires queue != []
    ensures AllColonFree(queue) <==> AllColonFree(queue[..|queue| - 1]) && ColonFree(queue[|queue| - 1].0.id)
  {
    assert queue == queue[..|queue| - 1] + [queue[|queue| - 1]];
  }

  lemma {:induction false} LastOfQueue(queue: seq<(Key, string)>)
    requires queue != []
    ensures var init := queue[..|queue| - 1];
      Queued(Mapped(MetaOf, queue)) == Mapped(AsPending, queue)
      <==> Queued(Mapped(MetaOf, init)) == Mapped(AsPending, init) && ColonFree(queue[|queue| - 1].0.id)
  {
    var init, last := queue[..|queue| - 1], queue[|queue| - 1];
    MappedStep(MetaOf, queue);
    MappedStep(AsPending, queue);
    QueuedStep(Mapped(MetaOf, init), MetaOf(last));
    ListedIff(last);
    SameAppends(Queued(Mapped(MetaOf, init)), Listed(MetaOf(last)), Mapped(AsPending, init), [AsPending(last)]);
  }

  lemma QueuedStep(metas: seq<Meta>, m: Meta)
    ensures Queued(metas + [m]) == Queued(metas) + Listed(m)
  {
    assert (metas + [m])[..|metas|] == metas;
  }

  lemma KindNamesAreColonFree(kind: Kind)
    ensures ColonFree(KindName(kind))
  {
  }

  // The cache's string keys name one (type, id) pair each.
  lemma TypeKeyIsInjective(kind: Kind, id: string, kind': Kind, id': string)
    requires TypeKey(KindName(kind), id) == TypeKey(KindName(kind'), id')
    ensures kind == kind' && id == id'
  {
    KindNamesAreColonFree(kind);
    KindNamesAreColonFree(kind');
    SplitAtColon(KindName(kind), id);
    SplitAtColon(KindName(kind'), id');
    var a, b := Split(TypeKey(KindName(kind), id)), Split(TypeKey(KindName(kind'), id'));
    assert a[0] == KindName(kind) && b[0] == KindName(kind');
    Aad.KindNamesDiffer(kind, kind');
    var n := |KindName(kind)| + 1;
    assert TypeKey(KindName(kind), id)[n..] == id && TypeKey(KindName(kind'), id')[n..] == id';
  }

  /******* The device's database *******/

  class DeviceCache {
    var envelopes: Envelopes
    var working: map<Key, Bytes>
    var outbox: map<nat, Push>
    var nextSeq: nat
    var cursor: Instant          // 0 when the meta table has none
    var deletes: map<Key, Instant>

    // Sequence numbers are never reused.
    ghost predicate Valid()
      reads this
    {
      forall s :: s in outbox ==> s < nextSeq
    }

    method Enqueue(p: Push)
      requires Valid()
      modifies this`outbox, this`nextSeq
      ensures Valid()
      ensures old(nextSeq) !in old(outbox)
      ensures outbox == old(outbox)[old(nextSeq) := p] && nextSeq == old(nextSeq) + 1
    {
      outbox := outbox[nextSeq := p];
      nextSeq := nextSeq + 1;
    }

    // The oldest rows in FIFO order, and nothing is skipped.
    method Drain(limit: nat) returns (batch: seq<Entry>)
      requires Valid()
      ensures |batch| <= limit
      ensures forall i :: 0 <= i < |batch| ==> batch[i].seqNo in outbox && batch[i].push == outbox[batch[i].seqNo]
      ensures forall i, j :: 0 <= i < j < |batch| ==> batch[i].seqNo < batch[j].seqNo
      ensures forall s :: s in outbox && (forall i :: 0 <= i < |batch| ==> batch[i].seqNo != s) ==>
        |batch| == limit && forall i :: 0 <= i < |batch| ==> batch[i].seqNo < s
    {
      batch := Drained(outbox, nextSeq, limit);
      forall s | s in outbox && (forall i :: 0 <= i < |batch| ==> batch[i].seqNo != s)
        ensures |batch| == limit && forall i :: 0 <= i < |batch| ==> batch[i].seqNo < s
      {
        var seqs := Oldest(outbox, 0, nextSeq, limit);
        assert forall i :: 0 <= i < |seqs| ==> batch[i].seqNo == seqs[i];
        OldestSkipsNothing(outbox, 0, nextSeq, limit, s);
      }
    }

    method RemoveFlushed(seqs: seq<nat>)
      requires Valid()
      modifies this`outbox
      ensures Valid()
      ensures forall s :: s in outbox <==> s in old(outbox) && s !in seqs
      ensures forall s :: s in outbox ==> outbox[s] == old(outbox)[s]
    {
      outbox := WithoutSeqs(outbox, seqs);
    }

    method EnqueueDelete(key: Key, ts: Instant)
      modifies this`deletes, this`envelopes
      ensures deletes == old(deletes)[key := ts]
      ensures envelopes == if key in old(envelopes)
                           then old(envelopes)[key := old(envelopes)[key].(deleted := true)]
                           else old(envelopes)
    {
      deletes := deletes[key := ts];
      if key in envelopes {
        envelopes := envelopes[key := envelopes[key].(deleted := true)];
      }
    }

    method MergeChange(c: WireChange)
      modifies this`envelopes, this`working
      ensures envelopes == Merge(old(envelopes), c)
      ensures working == if c.WireTombstone? then old(working) - {c.key} else old(working)
    {
      if c.WireTombstone? {
        envelopes := envelopes - {c.key};
        working := working - {c.key};
        return;
      }
      if c.key in envelopes && envelopes[c.key].ts >= c.ts {
        return;
      }
      envelopes := envelopes[c.key := CacheRow(c.ciphertext, c.aad, c.ts, false)];
    }

    // The merge loop of flush and pull.
    method MergePage(page: seq<WireChange>)
      modifies this`envelopes, this`working
      ensures envelopes == MergeAll(old(envelopes), page)
      ensures working == Surviving(old(working), page)
    {
      for i := 0 to |page|
        invariant envelopes == MergeAll(old(envelopes), page[..i])
        invariant working == Surviving(old(working), page[..i])
      {
        assert page[..i + 1][..i] == page[..i];
        assert page[..i + 1] == page[..i] + [page[i]];
        MergeChange(page[i]);
      }
      assert page[..|page|] == page;
    }
  }
}
