/**
 The vault's optimistic concurrency: any number of PUT handlers of one user, interleaved
 at SQL-statement granularity.  A statement may fail, and a failing one may still have
 committed.
 */
module VaultMachine {
  import opened Wrappers
  import opened Records

  datatype VaultRow = VaultRow(version: int, blob: Bytes)

  datatype Reply = Accepted(version: int) | Conflict(current: Option<int>) | InternalError

  // Where a handler is: before its update, its select, its insert, or answered.
  datatype Phase = Updating | Selecting | Inserting | Answered(reply: Reply)

  // The version named in If-Match, the new blob, and the progress.
  datatype Handler = Handler(expected: int, blob: Bytes, phase: Phase)

  // A write that reached the table, in commit order.
  datatype Write = Write(handler: nat, expected: int, blob: Bytes)

  datatype State = State(row: Option<VaultRow>, handlers: map<nat, Handler>, log: seq<Write>)

  const EMPTY := State(None, map[], [])

  datatype Step =
    | Arrive(h: nat, expected: int, blob: Bytes)
    | Update(h: nat)
    | UpdateFails(h: nat, committed: bool)
    | Select(h: nat)
    | SelectFails(h: nat)
    | Insert(h: nat)
    | InsertFails(h: nat, committed: bool)

  predicate At(s: State, h: nat, phase: Phase) {
    h in s.handlers && s.handlers[h].phase == phase
  }

  predicate Enabled(s: State, step: Step) {
    match step
    // a malformed or negative If-Match is refused before any statement
    case Arrive(h, expected, blob) => h !in s.handlers && 0 <= expected && blob != []
    case Update(h) => At(s, h, Updating)
    case UpdateFails(h, _) => At(s, h, Updating)
    case Select(h) => At(s, h, Selecting)
    case SelectFails(h) => At(s, h, Selecting)
    case Insert(h) => At(s, h, Inserting)
    case InsertFails(h, _) => At(s, h, Inserting)
  }

  function Goes(s: State, h: nat, phase: Phase): State
    requires h in s.handlers
  {
    s.(handlers := s.handlers[h := s.handlers[h].(phase := phase)])
  }

  // `update ... set blob_version = blob_version + 1 where blob_version = $2`.
  function Updated(s: State, h: nat): State
    requires h in s.handlers
  {
    var me := s.handlers[h];
    if s.row.Some? && s.row.value.version == me.expected
    then s.(row := Some(VaultRow(s.row.value.version + 1, me.blob)), log := s.log + [Write(h, me.expected, me.blob)])
    else s
  }

  // `insert ... values ($1, $2, 1)`, refused by the primary key when a row is there.
  function Inserted(s: State, h: nat): State
    requires h in s.handlers
  {
    var me := s.handlers[h];
    if s.row.None?
    then s.(row := Some(VaultRow(1, me.blob)), log := s.log + [Write(h, me.expected, me.blob)])
    else s
  }

  // What follows a select that returned no row, or an error: both read the same.
  function AfterNoRow(s: State, h: nat): State
    requires h in s.handlers
  {
    Goes(s, h, if s.handlers[h].expected != 0 then Answered(Conflict(None)) else Inserting)
  }

  function Next(s: State, step: Step): State
    requires Enabled(s, step)
  {
    match step
    case Arrive(h, expected, blob) => s.(handlers := s.handlers[h := Handler(expected, blob, Updating)])
    case Update(h) =>
      var t := Updated(s, h);
      Goes(t, h, if t != s then Answered(Accepted(s.handlers[h].expected + 1)) else Selecting)
    case UpdateFails(h, committed) => Goes(if committed then Updated(s, h) else s, h, Answered(InternalError))
    case Select(h) =>
      if s.row.Some? then Goes(s, h, Answered(Conflict(Some(s.row.value.version)))) else AfterNoRow(s, h)
    case SelectFails(h) => AfterNoRow(s, h)
    case Insert(h) =>
      var t := Inserted(s, h);
      Goes(t, h, Answered(if t != s then Accepted(1) else InternalError))
    case InsertFails(h, committed) => Goes(if committed then Inserted(s, h) else s, h, Answered(InternalError))
  }

  predicate Legal(s: State, steps: seq<Step>)
    decreases steps
  {
    steps == [] || (Enabled(s, steps[0]) && Legal(Next(s, steps[0]), steps[1..]))
  }

  function Run(s: State, steps: seq<Step>): State
    requires Legal(s, steps)
    decreases steps
  {
    if steps == [] then s else Run(Next(s, steps[0]), steps[1..])
  }

  /******* The invariant *******/

  // The table is the log: one version per write, and the last write's blob.
  predicate RowMatchesLog(s: State) {
    if s.log == [] then s.row.None?
    else s.row == Some(VaultRow(|s.log|, s.log[|s.log| - 1].blob))
  }

  // Every write replaced exactly the version it named.
  predicate EachReplacedItsVersion(s: State) {
    forall i :: 0 <= i < |s.log| ==> s.log[i].expected == i
  }

  // The i-th write belongs to a handler that has answered.
  predicate Owned(s: State, i: nat)
    requires i < |s.log|
  {
    && s.log[i].handler in s.handlers
    && var me := s.handlers[s.log[i].handler];
       me.expected == s.log[i].expected && me.blob == s.log[i].blob &&
       (me.phase == Answered(Accepted(i + 1)) || me.phase == Answered(InternalError))
  }

  // Every write is owned, and no handler writes twice.
  predicate WritesAreOwned(s: State) {
    && (forall i :: 0 <= i < |s.log| ==> Owned(s, i))
    && forall i, j :: 0 <= i < j < |s.log| ==> s.log[i].handler != s.log[j].handler
  }

  // A handler that was told a version wrote it.
  predicate Truthful(s: State, h: nat)
    requires h in s.handlers
  {
    var me := s.handlers[h];
    && (me.phase.Inserting? ==> me.expected == 0)
    && (me.phase.Answered? && me.phase.reply.Accepted? ==>
          var v := me.phase.reply.version;
          1 <= v <= |s.log| && s.log[v - 1] == Write(h, me.expected, me.blob) && v == me.expected + 1)
  }

  predicate RepliesAreTrue(s: State) {
    forall h :: h in s.handlers ==> Truthful(s, h)
  }

  predicate Inv(s: State) {
    RowMatchesLog(s) && EachReplacedItsVersion(s) && WritesAreOwned(s) && RepliesAreTrue(s)
  }

  // A handler that has not answered has not written.
  lemma UnansweredHasNotWritten(s: State, h: nat, i: nat)
    requires WritesAreOwned(s) && h in s.handlers && !s.handlers[h].phase.Answered? && i < |s.log|
    ensures s.log[i].handler != h
  {
    assert Owned(s, i);
  }

  // Answering without a write.
  lemma AnswerKeepsInv(s: State, h: nat, phase: Phase)
    requires Inv(s) && h in s.handlers && !s.handlers[h].phase.Answered?
    requires phase.Answered? ==> !phase.reply.Accepted?
    requires phase.Inserting? ==> s.handlers[h].expected == 0
    ensures Inv(Goes(s, h, phase))
  {
    var t := Goes(s, h, phase);
    forall i | 0 <= i < |t.log| ensures Owned(t, i) {
      UnansweredHasNotWritten(s, h, i);
      assert Owned(s, i);
    }
    forall g | g in t.handlers ensures Truthful(t, g) {
      assert Truthful(s, g);
    }
  }

  // Writing the next version and answering.
  lemma WriteKeepsInv(s: State, t: State, h: nat, phase: Phase)
    requires Inv(s) && h in s.handlers && !s.handlers[h].phase.Answered?
    requires s.handlers[h].expected == |s.log|
    requires t == s.(row := Some(VaultRow(|s.log| + 1, s.handlers[h].blob)),
                     log := s.log + [Write(h, |s.log|, s.handlers[h].blob)])
    requires phase == Answered(Accepted(|s.log| + 1)) || phase == Answered(InternalError)
    ensures Inv(Goes(t, h, phase))
  {
    var u := Goes(t, h, phase);
    WriteKeepsOwners(s, u, h, phase);
    forall g | g in u.handlers ensures Truthful(u, g) {
      assert Truthful(s, g);
    }
    assert RowMatchesLog(u) && EachReplacedItsVersion(u);
  }

  lemma WriteKeepsOwners(s: State, u: State, h: nat, phase: Phase)
    requires WritesAreOwned(s) && h in s.handlers && !s.handlers[h].phase.Answered?
    requires u.handlers == s.handlers[h := s.handlers[h].(phase := phase)]
    requires u.log == s.log + [Write(h, s.handlers[h].expected, s.handlers[h].blob)]
    requires phase == Answered(Accepted(|s.log| + 1)) || phase == Answered(InternalError)
    ensures WritesAreOwned(u)
  {
    forall i | 0 <= i < |u.log| ensures Owned(u, i) {
      if i < |s.log| {
        UnansweredHasNotWritten(s, h, i);
        assert Owned(s, i);
      }
    }
    forall i, j | 0 <= i < j < |u.log| ensures u.log[i].handler != u.log[j].handler {
      if j == |s.log| {
        UnansweredHasNotWritten(s, h, i);
      }
    }
  }

  lemma StepKeepsInv(s: State, step: Step)
    requires Inv(s) && Enabled(s, step)
    ensures Inv(Next(s, step))
  {
    match step
    case Arrive(h, _, _) =>
      var t := Next(s, step);
      forall i | 0 <= i < |t.log| ensures Owned(t, i) {
        assert Owned(s, i);
      }
      forall g | g in t.handlers ensures Truthful(t, g) {
        assert g != h ==> Truthful(s, g);
      }
    case Update(h) =>
      var t := Updated(s, h);
      if t != s {
        WriteKeepsInv(s, t, h, Answered(Accepted(s.handlers[h].expected + 1)));
      } else {
        AnswerKeepsInv(s, h, Selecting);
      }
    case UpdateFails(h, committed) =>
      var t := if committed then Updated(s, h) else s;
      if t != s {
        WriteKeepsInv(s, t, h, Answered(InternalError));
      } else {
        AnswerKeepsInv(s, h, Answered(InternalError));
      }
    case Select(h) => AnswerKeepsInv(s, h, Next(s, step).handlers[h].phase);
    case SelectFails(h) => AnswerKeepsInv(s, h, Next(s, step).handlers[h].phase);
    case Insert(h) =>
      var t := Inserted(s, h);
      if t != s {
        WriteKeepsInv(s, t, h, Answered(Accepted(1)));
      } else {
        AnswerKeepsInv(s, h, Answered(InternalError));
      }
    case InsertFails(h, committed) =>
      var t := if committed then Inserted(s, h) else s;
      if t != s {
        WriteKeepsInv(s, t, h, Answered(InternalError));
      } else {
        AnswerKeepsInv(s, h, Answered(InternalError));
      }
  }

  lemma {:induction false} RunKeepsInv(s: State, steps: seq<Step>)
    requires Inv(s) && Legal(s, steps)
    ensures Inv(Run(s, steps))
    decreases steps
  {
    if steps != [] {
      StepKeepsInv(s, steps[0]);
      RunKeepsInv(Next(s, steps[0]), steps[1..]);
    }
  }

  /******* No lost updates *******/

  // Under any interleaving, racing creates included: the stored version counts the
  // committed writes, the i-th of them named version i, and the blob is the last one's.
  lemma NoLostUpdates(steps: seq<Step>)
    requires Legal(EMPTY, steps)
    ensures var s := Run(EMPTY, steps);
      && (s.row.None? <==> s.log == [])
      && (s.row.Some? ==> s.row.value == VaultRow(|s.log|, s.log[|s.log| - 1].blob))
      && forall i :: 0 <= i < |s.log| ==> s.log[i].expected == i
  {
    RunKeepsInv(EMPTY, steps);
  }

  // A 200 names a version that this handler's own blob became, and no two handlers are
  // told the same version, so of several that name one version at most one is accepted.
  lemma AcceptedWritesAreDistinct(steps: seq<Step>, g: nat, h: nat)
    requires Legal(EMPTY, steps)
    requires g in Run(EMPTY, steps).handlers && h in Run(EMPTY, steps).handlers && g != h
    requires Run(EMPTY, steps).handlers[g].phase.Answered? && Run(EMPTY, steps).handlers[g].phase.reply.Accepted?
    requires Run(EMPTY, steps).handlers[h].phase.Answered? && Run(EMPTY, steps).handlers[h].phase.reply.Accepted?
    ensures var s := Run(EMPTY, steps);
      var v := s.handlers[g].phase.reply.version;
      && v != s.handlers[h].phase.reply.version
      && s.handlers[g].expected != s.handlers[h].expected
      && v == s.handlers[g].expected + 1
      && 1 <= v <= |s.log| && s.log[v - 1].blob == s.handlers[g].blob
  {
    RunKeepsInv(EMPTY, steps);
    assert Truthful(Run(EMPTY, steps), g) && Truthful(Run(EMPTY, steps), h);
  }

  /******* Counting the accepted PUTs *******/

  // The handlers that were answered 200 with a version up to n.
  function AcceptedUpTo(s: State, n: nat): set<nat> {
    set h | h in s.handlers && s.handlers[h].phase.Answered? && s.handlers[h].phase.reply.Accepted?
            && s.handlers[h].phase.reply.version <= n
  }

  // The accepted PUTs.
  function AcceptedSet(s: State): set<nat> {
    set h | h in s.handlers && s.handlers[h].phase.Answered? && s.handlers[h].phase.reply.Accepted?
  }

  predicate WriteAnswered(s: State, i: nat)
    requires i < |s.log|
  {
    s.log[i].handler in s.handlers && s.handlers[s.log[i].handler].phase == Answered(Accepted(i + 1))
  }

  predicate EveryWriteAnswered(s: State) {
    forall i :: 0 <= i < |s.log| ==> WriteAnswered(s, i)
  }

  // Each version is told to its own writer or to nobody.
  lemma AcceptedUpToStep(s: State, n: nat)
    requires Inv(s) && n < |s.log|
    ensures s.log[n].handler !in AcceptedUpTo(s, n)
    ensures AcceptedUpTo(s, n + 1) ==
      if WriteAnswered(s, n) then AcceptedUpTo(s, n) + {s.log[n].handler} else AcceptedUpTo(s, n)
  {
    var before, now, writer := AcceptedUpTo(s, n), AcceptedUpTo(s, n + 1), s.log[n].handler;
    assert Owned(s, n);
    forall h | h in now && h !in before ensures h == writer && WriteAnswered(s, n) {
      assert Truthful(s, h);
    }
    assert before <= now;
    assert WriteAnswered(s, n) ==> writer in now;
  }

  lemma {:induction false} AcceptedUpToCounts(s: State, n: nat)
    requires Inv(s) && n <= |s.log|
    ensures |AcceptedUpTo(s, n)| <= n
    ensures |AcceptedUpTo(s, n)| == n <==> forall i :: 0 <= i < n ==> WriteAnswered(s, i)
  {
    if n == 0 {
      forall h | h in s.handlers ensures h !in AcceptedUpTo(s, 0) {
        assert Truthful(s, h);
      }
      assert AcceptedUpTo(s, 0) == {};
    } else {
      AcceptedUpToCounts(s, n - 1);
      AcceptedUpToStep(s, n - 1);
    }
  }

  // Under any interleaving there are no more accepted PUTs than versions, and as many
  // exactly when every committed write was acknowledged.
  lemma VersionCountsAcceptedPuts(steps: seq<Step>)
    requires Legal(EMPTY, steps)
    ensures var s := Run(EMPTY, steps);
      var version := if s.row.Some? then s.row.value.version else 0;
      && |AcceptedSet(s)| <= version
      && (|AcceptedSet(s)| == version <==> EveryWriteAnswered(s))
  {
    RunKeepsInv(EMPTY, steps);
    var s := Run(EMPTY, steps);
    AcceptedUpToCounts(s, |s.log|);
    forall h ensures h in AcceptedSet(s) <==> h in AcceptedUpTo(s, |s.log|) {
      if h in AcceptedSet(s) {
        assert Truthful(s, h);
      }
    }
    assert AcceptedSet(s) == AcceptedUpTo(s, |s.log|);
  }

  predicate NoLostAcknowledgement(steps: seq<Step>) {
    forall step :: step in steps && (step.UpdateFails? || step.InsertFails?) ==> !step.committed
  }

  lemma StepAnswersWrites(s: State, step: Step)
    requires Inv(s) && Enabled(s, step) && EveryWriteAnswered(s)
    requires (step.UpdateFails? || step.InsertFails?) ==> !step.committed
    ensures EveryWriteAnswered(Next(s, step))
  {
    var t := Next(s, step);
    forall i | 0 <= i < |t.log| ensures WriteAnswered(t, i) {
      if i < |s.log| {
        assert WriteAnswered(s, i) && t.log[i] == s.log[i];
        if !step.Arrive? {
          UnansweredHasNotWritten(s, step.h, i);
        }
      }
    }
  }

  lemma {:induction false} WritesGetAnswered(s: State, steps: seq<Step>)
    requires Inv(s) && Legal(s, steps) && EveryWriteAnswered(s) && NoLostAcknowledgement(steps)
    ensures EveryWriteAnswered(Run(s, steps))
    decreases steps
  {
    if steps != [] {
      assert steps[0] in steps;
      StepKeepsInv(s, steps[0]);
      StepAnswersWrites(s, steps[0]);
      WritesGetAnswered(Next(s, steps[0]), steps[1..]);
    }
  }

  // In particular the version is the number of accepted PUTs on every run on which no
  // failing statement has committed.
  lemma VersionIsAcceptedPuts(steps: seq<Step>)
    requires Legal(EMPTY, steps) && NoLostAcknowledgement(steps)
    ensures var s := Run(EMPTY, steps);
      |AcceptedSet(s)| == if s.row.Some? then s.row.value.version else 0
  {
    RunKeepsInv(EMPTY, steps);
    WritesGetAnswered(EMPTY, steps);
    VersionCountsAcceptedPuts(steps);
  }
}
