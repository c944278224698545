/**
 The paged delta pull.  The query sorts by its third column, the blob; the comment
 above it promises (updated_at, id).  The laws below take the order as a parameter,
 so they speak of both.
 */
module DeltaPull {
  import opened Wrappers
  import opened Records
  import opened Sorting
  import opened SyncStore

  /******* Orders *******/

  // Byte-wise comparison, for bytea.
  predicate BytesLess(a: Bytes, b: Bytes)
    decreases a
  {
    b != [] && (a == [] || a[0] < b[0] || (a[0] == b[0] && BytesLess(a[1..], b[1..])))
  }

  type Order = (Scanned, Scanned) -> bool

  // `order by 3 asc, 1 asc`: the third column is the blob.
  const AS_WRITTEN: Order := (a: Scanned, b: Scanned) =>
    BytesLess(a.blob, b.blob) || (a.blob == b.blob && TextLess(a.key.id, b.key.id))

  // The order the comment above the query promises.
  const AS_DOCUMENTED: Order := (a: Scanned, b: Scanned) =>
    a.updatedAt < b.updatedAt || (a.updatedAt == b.updatedAt && TextLess(a.key.id, b.key.id))

  /******* One page *******/

  function EffectiveLimit(limit: int): (r: nat)
    ensures 1 <= r <= 1000
    ensures r == limit <==> 1 <= limit <= 1000
    ensures r != limit ==> r == 500
  {
    if limit <= 0 || limit > 1000 then 500 else limit
  }

  function ScanOf(rows: Tables, key: Key): Scanned
    requires key in rows
  {
    Scanned(key, rows[key].blob, rows[key].updatedAt, rows[key].deletedAt)
  }

  function MatchSet(rows: Tables, user: UserId, since: Instant): set<Key> {
    set k | k in rows && Matches(rows, user, since, k)
  }

  function Keys(answer: seq<Scanned>): set<Key> {
    set i | 0 <= i < |answer| :: answer[i].key
  }

  // What the query may answer: sorted rows, each once, and whatever is left out
  // sorts after a full page.
  ghost predicate IsAnswer(order: Order, rows: Tables, user: UserId, since: Instant, limit: int, answer: seq<Scanned>) {
    && Truthful(rows, user, since, answer)
    && (forall i, j :: 0 <= i < j < |answer| ==> answer[i].key != answer[j].key && !order(answer[j], answer[i]))
    && |answer| <= EffectiveLimit(limit)
    && forall k :: k in MatchSet(rows, user, since) && k !in Keys(answer) ==>
         |answer| == EffectiveLimit(limit) && forall i :: 0 <= i < |answer| ==> !order(ScanOf(rows, k), answer[i])
  }

  // The cursor for the next pull: unchanged when the reply names none.
  function NextSince(since: Instant, answer: seq<Scanned>): Instant {
    if MaxTs(answer) == 0 then since else MaxTs(answer)
  }

  // Every row the page left out is strictly newer than everything on it.
  ghost predicate CleanBreak(rows: Tables, user: UserId, since: Instant, answer: seq<Scanned>) {
    forall k :: k in MatchSet(rows, user, since) && k !in Keys(answer) ==>
      rows[k].updatedAt > NextSince(since, answer)
  }

  // No row left out shares its updated_at with the newest row on the page.
  ghost predicate NoTieStraddles(rows: Tables, user: UserId, since: Instant, answer: seq<Scanned>) {
    forall k :: k in MatchSet(rows, user, since) && k !in Keys(answer) ==>
      rows[k].updatedAt != NextSince(since, answer)
  }

  lemma NextSinceBounds(rows: Tables, user: UserId, since: Instant, answer: seq<Scanned>)
    requires 0 <= since && Truthful(rows, user, since, answer)
    ensures since <= NextSince(since, answer)
    ensures answer != [] ==> since < NextSince(since, answer)
    ensures forall k :: k in Keys(answer) ==> k in rows && rows[k].updatedAt <= NextSince(since, answer)
  {
  }

  // In the documented order only ties can be lost at a page break.
  lemma DocumentedBreakIsCleanIff(rows: Tables, user: UserId, since: Instant, limit: int, answer: seq<Scanned>)
    requires 0 <= since && IsAnswer(AS_DOCUMENTED, rows, user, since, limit, answer)
    ensures CleanBreak(rows, user, since, answer) <==> NoTieStraddles(rows, user, since, answer)
  {
  }

  /******* Chains of pages *******/

  // Pulls against an unchanging store, each resuming after the previous page.
  ghost predicate Chain(order: Order, rows: Tables, user: UserId, since: Instant, limit: int, pages: seq<seq<Scanned>>)
    decreases pages
  {
    pages == [] ||
    (IsAnswer(order, rows, user, since, limit, pages[0]) &&
     Chain(order, rows, user, NextSince(since, pages[0]), limit, pages[1..]))
  }

  ghost predicate CleanChain(rows: Tables, user: UserId, since: Instant, pages: seq<seq<Scanned>>)
    decreases pages
  {
    pages == [] ||
    (CleanBreak(rows, user, since, pages[0]) && CleanChain(rows, user, NextSince(since, pages[0]), pages[1..]))
  }

  ghost predicate TieFreeChain(rows: Tables, user: UserId, since: Instant, pages: seq<seq<Scanned>>)
    decreases pages
  {
    pages == [] ||
    (NoTieStraddles(rows, user, since, pages[0]) && TieFreeChain(rows, user, NextSince(since, pages[0]), pages[1..]))
  }

  function Reported(pages: seq<seq<Scanned>>): set<Key>
    decreases pages
  {
    if pages == [] then {} else Keys(pages[0]) + Reported(pages[1..])
  }

  lemma {:induction false} ChainReportsOnlyNewer(order: Order, rows: Tables, user: UserId, since: Instant, limit: int,
                                                 pages: seq<seq<Scanned>>)
    requires 0 <= since && Chain(order, rows, user, since, limit, pages)
    ensures Reported(pages) <= MatchSet(rows, user, since)
    decreases pages
  {
    if pages != [] {
      NextSinceBounds(rows, user, since, pages[0]);
      ChainReportsOnlyNewer(order, rows, user, NextSince(since, pages[0]), limit, pages[1..]);
    }
  }

  // In any order, a chain that ends on a short page reports every newer row exactly
  // when no page break drops one.
  lemma {:induction false} ChainIsCompleteIff(order: Order, rows: Tables, user: UserId, since: Instant, limit: int,
                                              pages: seq<seq<Scanned>>)
    requires 0 <= since && Chain(order, rows, user, since, limit, pages)
    requires pages != [] && |pages[|pages| - 1]| < EffectiveLimit(limit)
    ensures Reported(pages) == MatchSet(rows, user, since) <==> CleanChain(rows, user, since, pages)
    decreases pages
  {
    var next := NextSince(since, pages[0]);
    NextSinceBounds(rows, user, since, pages[0]);
    if |pages| == 1 {
      assert pages[1..] == [];
      assert Reported(pages) == Keys(pages[0]);
    } else {
      assert pages[1..][|pages[1..]| - 1] == pages[|pages| - 1];
      ChainIsCompleteIff(order, rows, user, next, limit, pages[1..]);
      ChainReportsOnlyNewer(order, rows, user, next, limit, pages[1..]);
      assert Keys(pages[0]) !! MatchSet(rows, user, next);
      assert Keys(pages[0]) <= MatchSet(rows, user, since);
      assert MatchSet(rows, user, next) <= MatchSet(rows, user, since);
      if CleanBreak(rows, user, since, pages[0]) {
        assert MatchSet(rows, user, since) == Keys(pages[0]) + MatchSet(rows, user, next);
      } else {
        var lost :| lost in MatchSet(rows, user, since) && lost !in Keys(pages[0]) && rows[lost].updatedAt <= next;
        assert lost !in Reported(pages);
      }
    }
  }

  lemma {:induction false} DocumentedChainIsCleanIff(rows: Tables, user: UserId, since: Instant, limit: int,
                                                     pages: seq<seq<Scanned>>)
    requires 0 <= since && Chain(AS_DOCUMENTED, rows, user, since, limit, pages)
    ensures CleanChain(rows, user, since, pages) <==> TieFreeChain(rows, user, since, pages)
    decreases pages
  {
    if pages != [] {
      NextSinceBounds(rows, user, since, pages[0]);
      DocumentedBreakIsCleanIff(rows, user, since, limit, pages[0]);
      DocumentedChainIsCleanIff(rows, user, NextSince(since, pages[0]), limit, pages[1..]);
    }
  }

  lemma {:induction false} DocumentedChainIsCompleteIff(rows: Tables, user: UserId, since: Instant, limit: int, pages: seq<seq<Scanned>>)
    requires 0 <= since && Chain(AS_DOCUMENTED, rows, user, since, limit, pages)
    requires pages != [] && |pages[|pages| - 1]| < EffectiveLimit(limit)
    ensures Reported(pages) == MatchSet(rows, user, since) <==> TieFreeChain(rows, user, since, pages)
  {
    ChainIsCompleteIff(AS_DOCUMENTED, rows, user, since, limit, pages);
    DocumentedChainIsCleanIff(rows, user, since, limit, pages);
  }

  // No row is reported twice, whatever the order.
  lemma {:induction false} ChainReportsOnce(order: Order, rows: Tables, user: UserId, since: Instant, limit: int,
                                            pages: seq<seq<Scanned>>, i: nat, j: nat)
    requires 0 <= since && Chain(order, rows, user, since, limit, pages)
    requires i < j < |pages|
    ensures Keys(pages[i]) !! Keys(pages[j])
    decreases pages
  {
    var next := NextSince(since, pages[0]);
    NextSinceBounds(rows, user, since, pages[0]);
    if i == 0 {
      ChainReportsOnlyNewer(order, rows, user, next, limit, pages[1..]);
      PageIsReported(pages[1..], j - 1);
      assert Keys(pages[j]) <= MatchSet(rows, user, next);
    } else {
      ChainReportsOnce(order, rows, user, next, limit, pages[1..], i - 1, j - 1);
    }
  }

  lemma {:induction false} PageIsReported(pages: seq<seq<Scanned>>, i: nat)
    requires i < |pages|
    ensures Keys(pages[i]) <= Reported(pages)
    decreases pages
  {
    if i > 0 {
      PageIsReported(pages[1..], i - 1);
    }
  }

  // A chain of non-empty pages cannot be longer than the number of rows to report.
  lemma {:induction false} ChainTerminates(order: Order, rows: Tables, user: UserId, since: Instant, limit: int,
                                           pages: seq<seq<Scanned>>)
    requires 0 <= since && Chain(order, rows, user, since, limit, pages)
    requires forall i :: 0 <= i < |pages| ==> pages[i] != []
    ensures |pages| <= |MatchSet(rows, user, since)|
    decreases pages
  {
    if pages != [] {
      var next := NextSince(since, pages[0]);
      NextSinceBounds(rows, user, since, pages[0]);
      ChainTerminates(order, rows, user, next, limit, pages[1..]);
      var first := pages[0][0].key;
      assert first in Keys(pages[0]);
      SubsetSize(MatchSet(rows, user, next) + {first}, MatchSet(rows, user, since));
    }
  }

  lemma {:induction false} SubsetSize<T>(small: set<T>, large: set<T>)
    requires small <= large
    ensures |small| <= |large|
    decreases small
  {
    if small != {} {
      var x :| x in small;
      SubsetSize(small - {x}, large - {x});
    }
  }

  lemma FittingPageIsWhole(order: Order, rows: Tables, user: UserId, since: Instant, limit: int, answer: seq<Scanned>)
    requires IsAnswer(order, rows, user, since, limit, answer)
    requires |MatchSet(rows, user, since)| <= EffectiveLimit(limit)
    ensures Keys(answer) == MatchSet(rows, user, since)
  {
    DistinctKeys(answer);
    if k :| k in MatchSet(rows, user, since) && k !in Keys(answer) {
      SubsetSize(Keys(answer) + {k}, MatchSet(rows, user, since));
      assert false;
    }
  }

  // When everything newer fits the page, one pull in any order is enough and the
  // next one has nothing to say.
  lemma OnePageSuffices(order: Order, rows: Tables, user: UserId, since: Instant, limit: int,
                        answer: seq<Scanned>, again: seq<Scanned>)
    requires 0 <= since && IsAnswer(order, rows, user, since, limit, answer)
    requires |MatchSet(rows, user, since)| <= EffectiveLimit(limit)
    requires IsAnswer(order, rows, user, NextSince(since, answer), limit, again)
    ensures Keys(answer) == MatchSet(rows, user, since)
    ensures again == []
  {
    NextSinceBounds(rows, user, since, answer);
    FittingPageIsWhole(order, rows, user, since, limit, answer);
    if again != [] {
      FirstRowMatches(rows, user, NextSince(since, answer), again);
      assert false;
    }
  }

  lemma FirstRowMatches(rows: Tables, user: UserId, since: Instant, answer: seq<Scanned>)
    requires Truthful(rows, user, since, answer) && answer != []
    ensures MatchSet(rows, user, since) != {}
  {
    assert answer[0].key in MatchSet(rows, user, since);
  }

  lemma KeysStep(answer: seq<Scanned>)
    requires answer != []
    ensures Keys(answer) == Keys(answer[..|answer| - 1]) + {answer[|answer| - 1].key}
  {
  }

  lemma {:induction false} DistinctKeys(answer: seq<Scanned>)
    requires forall i, j :: 0 <= i < j < |answer| ==> answer[i].key != answer[j].key
    ensures |Keys(answer)| == |answer|
  {
    if answer != [] {
      DistinctKeys(answer[..|answer| - 1]);
      KeysStep(answer);
      assert answer[|answer| - 1].key !in Keys(answer[..|answer| - 1]);
    }
  }

  // As written, a truncated page can put a newer row first and lose an older one.
  lemma AsWrittenLosesARow() returns (rows: Tables, page: seq<Scanned>, lost: Key)
    ensures IsAnswer(AS_WRITTEN, rows, "u", 0, 1, page)
    ensures NoTieStraddles(rows, "u", 0, page)
    ensures lost in MatchSet(rows, "u", 0) && lost !in Keys(page)
    ensures lost !in MatchSet(rows, "u", NextSince(0, page))
  {
    var newer := Key(Accounts, "a");
    lost := Key(Accounts, "b");
    rows := map[newer := Row("u", [1], 20, None), lost := Row("u", [2], 10, None)];
    page := [ScanOf(rows, newer)];
    assert MatchSet(rows, "u", 0) == {newer, lost};
    assert page[0].key in Keys(page);
    assert Keys(page) == {newer};
    assert page[..0] == [];
    assert MaxTs(page) == 20;
    assert !AS_WRITTEN(ScanOf(rows, lost), page[0]);
  }
}
