/** POST /api/records/sync: validate everything, push, pull, reply. */
module SyncEndpoint {
  import opened Wrappers
  import opened Records
  import opened SyncStore
  import opened DeltaPull
  import opened EnvelopeCodec
  import opened SyncHandler
  import SyncMachine
  import SyncStoreLaws

  const MAX_BATCH := 500
  const PAGE_LIMIT := 500

  datatype Reply = Reply(changes: seq<WireChange>, nextCursor: Option<Instant>)

  // The zero time when the body names no cursor; None when it is malformed.
  function ParseSince(since: Option<string>, parse: TimeParser): Option<Instant> {
    if since.None? || since.value == "" then Some(0) else parse(since.value)
  }

  // Every item converted, or None when one of them is refused.
  function AllOf(convert: string -> Option<Push>, raws: seq<string>): (r: Option<seq<Push>>)
    ensures r.Some? <==> forall i :: 0 <= i < |raws| ==> convert(raws[i]).Some?
    ensures r.Some? ==> |r.value| == |raws|
    ensures r.Some? ==> forall i :: 0 <= i < |raws| ==> convert(raws[i]) == Some(r.value[i])
  {
    if forall i :: 0 <= i < |raws| ==> convert(raws[i]).Some?
    then Some(seq(|raws|, i requires 0 <= i < |raws| => convert(raws[i]).value))
    else None
  }

  // The validation loop; it stops at the first refused push.
  method ConvertLoop(convert: string -> Option<Push>, raws: seq<string>) returns (r: Option<seq<Push>>)
    ensures r == AllOf(convert, raws)
  {
    var pushes: seq<Push> := [];
    for i := 0 to |raws|
      invariant |pushes| == i
      invariant forall j :: 0 <= j < i ==> convert(raws[j]) == Some(pushes[j])
    {
      var p := convert(raws[i]);
      if p.None? {
        assert AllOf(convert, raws).None?;
        return None;
      }
      pushes := pushes + [p.value];
    }
    assert AllOf(convert, raws).value == pushes;
    r := Some(pushes);
  }

  function ConvertAll(user: UserId, raws: seq<string>, parse: TimeParser, now: Instant): Option<seq<Push>> {
    AllOf((raw: string) => Convert(user, raw, parse, now), raws)
  }

  // What the tables hold when the pull reads them.
  function AfterBody(rows: Tables, user: UserId, raws: seq<string>, parse: TimeParser, now: Instant): Tables {
    match ConvertAll(user, raws, parse, now)
    case None => rows
    case Some(pushes) => AfterPush(rows, user, pushes)
  }

  // What the two database calls meet.  A failing push may still have committed, when it
  // is the commit's acknowledgement that was lost.
  datatype Fault = NoFault | PushFails(committed: bool) | PullFails

  // The body is refused before the database is asked anything.
  predicate Refused(user: UserId, since: Option<string>, raws: seq<string>, parse: TimeParser, now: Instant) {
    ParseSince(since, parse).None? || |raws| > MAX_BATCH || ConvertAll(user, raws, parse, now).None?
  }

  // The push transaction commits.
  predicate Commits(rows: Tables, user: UserId, raws: seq<string>, parse: TimeParser, now: Instant, fault: Fault)
    requires ConvertAll(user, raws, parse, now).Some?
  {
    PushAll(rows, user, ConvertAll(user, raws, parse, now).value).Ok? && fault != PushFails(false)
  }

  // `answer` is what the database answers to the pull's query.  A batch is never applied
  // in part: it is in the tables, whole, exactly when the body was accepted and the push
  // committed.  A 400 leaves the tables as they were; a 500 does so unless it is the
  // pull, or the commit's acknowledgement, that failed.
  method HandleSync(store: Store, user: UserId, since: Option<string>, raws: seq<string>,
                    parse: TimeParser, now: Instant, answer: seq<Scanned>, fault: Fault)
    returns (r: Result<Reply, int>)
    requires fault.NoFault? && ParseSince(since, parse).Some? ==>
      IsAnswer(AS_WRITTEN, AfterBody(store.rows, user, raws, parse, now), user, ParseSince(since, parse).value,
               PAGE_LIMIT, answer)
    modifies store
    ensures r == Err(400) <==> Refused(user, since, raws, parse, now)
    ensures r.Err? ==> r.error in {400, 500}
    ensures !Refused(user, since, raws, parse, now) ==>
      (r.Ok? <==> fault.NoFault? && Commits(old(store.rows), user, raws, parse, now, fault))
    ensures store.rows ==
      if !Refused(user, since, raws, parse, now) && Commits(old(store.rows), user, raws, parse, now, fault)
      then AfterBody(old(store.rows), user, raws, parse, now) else old(store.rows)
    ensures r.Ok? ==>
      && Truthful(store.rows, user, ParseSince(since, parse).value, answer)
      && r.value.changes == SyncMachine.Page(user, store.rows, ParseSince(since, parse).value, answer)
    // the cursor the client stores next is the one the page chain resumes from
    ensures r.Ok? ==>
      r.value.nextCursor == if MaxTs(answer) == 0 then None else Some(NextSince(ParseSince(since, parse).value, answer))
  {
    var cursor := ParseSince(since, parse);
    if cursor.None? || |raws| > MAX_BATCH {
      return Err(400);
    }
    var pushes := ConvertLoop((raw: string) => Convert(user, raw, parse, now), raws);
    if pushes.None? {
      return Err(400);
    }
    if fault == PushFails(false) {
      return Err(500);
    }
    var pushed := store.PushEnvelopes(user, pushes.value);
    if pushed.Err? || fault.PushFails? || fault.PullFails? {
      return Err(500);
    }
    var changes, maxTs := store.PullChanges(user, cursor.value, answer);
    var reply, next := BuildReply(user, changes, maxTs);
    assert reply == SyncMachine.Page(user, store.rows, cursor.value, answer);
    r := Ok(Reply(reply, next));
  }

  // Whatever the client makes of an error, sending the same body again is safe: once the
  // batch has committed it changes nothing, however much was served in between.
  lemma RetryAfterErrorIsSafe(rows: Tables, user: UserId, raws: seq<string>, parse: TimeParser, now: Instant,
                              later: Instant, between: seq<SyncStoreLaws.Op>)
    requires ConvertAll(user, raws, parse, now).Some? && ConvertAll(user, raws, parse, later).Some?
    requires PushAll(rows, user, ConvertAll(user, raws, parse, now).value).Ok?
    ensures var reached := SyncStoreLaws.Run(AfterBody(rows, user, raws, parse, now), between);
      AfterBody(reached, user, raws, parse, later) == reached
  {
    var pushes := ConvertAll(user, raws, parse, now).value;
    SameConversion(user, raws, parse, now, later);
    SyncStoreLaws.ReplayedBatchChangesNothing(rows, user, pushes, between);
  }

  // The clock only decides whether a push is refused, not what it becomes.
  lemma SameConversion(user: UserId, raws: seq<string>, parse: TimeParser, now: Instant, later: Instant)
    requires ConvertAll(user, raws, parse, now).Some? && ConvertAll(user, raws, parse, later).Some?
    ensures ConvertAll(user, raws, parse, now) == ConvertAll(user, raws, parse, later)
  {
    var one, two := ConvertAll(user, raws, parse, now).value, ConvertAll(user, raws, parse, later).value;
    forall i | 0 <= i < |raws| ensures one[i] == two[i] {
      assert Convert(user, raws[i], parse, now) == Some(one[i]) && Convert(user, raws[i], parse, later) == Some(two[i]);
    }
    assert one == two;
  }
}
