/**
 The migration runner: an ordered, checksum-guarded loop that runs each new file in its
 own transaction.  A run may fail or crash at any file, before or after its commit; the
 advisory lock makes runs follow one another.
 */
module Migrations {
  import opened Sorting

  // SHA-256 in hex is a parameter.
  type Checksum = string -> string

  // What one run meets at one file.
  datatype Fault =
    | NoFault
    | BeforeCommit   // unreadable file, failing query or script: rolled back
    | AfterCommit    // crash, or the commit's acknowledgement lost

  // One run's view of the files, by position in the sorted names: their texts and the
  // faults to come.
  datatype Boot = Boot(texts: seq<string>, faults: seq<Fault>)

  datatype Executed = Executed(name: string, text: string)

  // The ledger, and the scripts whose effect is in the schema, in execution order.
  datatype Db = Db(ledger: map<string, string>, executed: seq<Executed>)

  const EMPTY := Db(map[], [])

  /******* The directory *******/

  datatype DirEntry = DirEntry(name: string, isDir: bool)

  const SUFFIX := ".sql"

  predicate IsScript(e: DirEntry) {
    !e.isDir && |e.name| >= |SUFFIX| && e.name[|e.name| - |SUFFIX|..] == SUFFIX
  }

  // The scripts' names in the order the directory lists them.
  function Listed(entries: seq<DirEntry>): seq<string> {
    if entries == [] then []
    else
      var last := entries[|entries| - 1];
      Listed(entries[..|entries| - 1]) + (if IsScript(last) then [last.name] else [])
  }

  // sort.Strings.
  function ScriptNames(entries: seq<DirEntry>): seq<string> {
    Sort(TEXT_ORDER, Listed(entries))
  }

  predicate DistinctEntries(entries: seq<DirEntry>) {
    forall i, j :: 0 <= i < j < |entries| ==> entries[i].name != entries[j].name
  }

  lemma {:induction false} ListedHolds(entries: seq<DirEntry>)
    ensures forall n :: n in Listed(entries) <==> exists e :: e in entries && IsScript(e) && e.name == n
    ensures DistinctEntries(entries) ==> NoDuplicates(Listed(entries))
  {
    if entries != [] {
      var init, last := entries[..|entries| - 1], entries[|entries| - 1];
      ListedHolds(init);
      assert entries == init + [last];
      if DistinctEntries(entries) && IsScript(last) {
        forall n | n in Listed(init) ensures n != last.name {
          var e :| e in init && IsScript(e) && e.name == n;
          var i :| 0 <= i < |init| && init[i] == e;
          assert entries[i].name != entries[|entries| - 1].name;
        }
        var before := Listed(init);
        assert NoDuplicates(before) && last.name !in before;
        assert forall i :: 0 <= i < |before| ==> before[i] in before;
        assert Listed(entries) == before + [last.name];
      }
    }
  }

  // The names run through are the directory's .sql files, each once, in ascending order.
  lemma ScriptNamesAscend(entries: seq<DirEntry>)
    requires DistinctEntries(entries)
    ensures var names := ScriptNames(entries);
      && (forall n :: n in names <==> exists e :: e in entries && IsScript(e) && e.name == n)
      && Distinct(names)
      && forall i, j :: 0 <= i < j < |names| ==> TextLess(names[i], names[j])
  {
    var listed, names := Listed(entries), ScriptNames(entries);
    ListedHolds(entries);
    TextOrderIsPreorder();
    SortSorts(TEXT_ORDER, listed, set n | n in listed);
    SortKeepsDistinct(TEXT_ORDER, listed);
    assert forall n :: n in names <==> n in multiset(names);
    assert forall n :: n in listed <==> n in multiset(listed);
    forall i, j | 0 <= i < j < |names| ensures TextLess(names[i], names[j]) {
      TextOrderIsTotal(names[i], names[j]);
    }
  }

  // Go's ReadDir loop.
  method CollectScripts(entries: seq<DirEntry>) returns (names: seq<string>)
    ensures names == ScriptNames(entries)
  {
    names := [];
    for i := 0 to |entries|
      invariant names == Listed(entries[..i])
    {
      var e := entries[i];
      assert entries[..i + 1][..i] == entries[..i];
      if !e.isDir && |e.name| >= |SUFFIX| && e.name[|e.name| - |SUFFIX|..] == SUFFIX {
        names := names + [e.name];
      }
    }
    assert entries[..|entries|] == entries;
    names := Sort(TEXT_ORDER, names);
  }

  /******* One run *******/

  function Applied(sum: Checksum, db: Db, name: string, text: string): Db {
    Db(db.ledger[name := sum(text)], db.executed + [Executed(name, text)])
  }

  predicate Fits(names: seq<string>, boot: Boot) {
    |boot.texts| == |names| && |boot.faults| == |names|
  }

  // The loop from file i on: the database it leaves, and whether it returned nil.
  function RunFrom(sum: Checksum, names: seq<string>, boot: Boot, db: Db, i: nat): (Db, bool)
    requires Fits(names, boot) && i <= |names|
    decreases |names| - i
  {
    if i == |names| then (db, true)
    else if boot.faults[i].BeforeCommit? then (db, false)
    else if names[i] in db.ledger then
      if db.ledger[names[i]] != sum(boot.texts[i]) || boot.faults[i].AfterCommit? then (db, false)
      else RunFrom(sum, names, boot, db, i + 1)
    else
      var next := Applied(sum, db, names[i], boot.texts[i]);
      if boot.faults[i].AfterCommit? then (next, false) else RunFrom(sum, names, boot, next, i + 1)
  }

  class Database {
    var ledger: map<string, string>
    var executed: seq<Executed>

    method Migrate(sum: Checksum, entries: seq<DirEntry>, boot: Boot) returns (ok: bool)
      requires Fits(ScriptNames(entries), boot)
      modifies this
      ensures (Db(ledger, executed), ok) == RunFrom(sum, ScriptNames(entries), boot, old(Db(ledger, executed)), 0)
    {
      var names := CollectScripts(entries);
      ok := Apply(sum, names, boot);
    }

    method Apply(sum: Checksum, names: seq<string>, boot: Boot) returns (ok: bool)
      requires Fits(names, boot)
      modifies this
      ensures (Db(ledger, executed), ok) == RunFrom(sum, names, boot, old(Db(ledger, executed)), 0)
    {
      for i := 0 to |names|
        invariant RunFrom(sum, names, boot, Db(ledger, executed), i) ==
                  RunFrom(sum, names, boot, old(Db(ledger, executed)), 0)
      {
        var name := names[i];
        if boot.faults[i].BeforeCommit? {
          return false;
        }
        var checksum := sum(boot.texts[i]);
        if name in ledger {
          if ledger[name] != checksum {
            return false;
          }
        } else {
          executed := executed + [Executed(name, boot.texts[i])];
          ledger := ledger[name := checksum];
        }
        if boot.faults[i].AfterCommit? {
          return false;
        }
      }
      ok := true;
    }
  }

  /******* Sequences of boots *******/

  function RunAll(sum: Checksum, names: seq<string>, boots: seq<Boot>): Db
    requires forall b :: b in boots ==> Fits(names, b)
  {
    if boots == [] then EMPTY
    else
      var n := |boots| - 1;
      RunFrom(sum, names, boots[n], RunAll(sum, names, boots[..n]), 0).0
  }

  predicate Distinct(names: seq<string>) {
    forall i, j :: 0 <= i < j < |names| ==> names[i] != names[j]
  }

  // The executed scripts are the first names in order, each once, and the ledger holds
  // exactly their checksums.
  ghost predicate IsPrefix(sum: Checksum, names: seq<string>, db: Db) {
    && |db.executed| <= |names|
    && (forall i :: 0 <= i < |db.executed| ==>
          && db.executed[i].name == names[i]
          && names[i] in db.ledger && db.ledger[names[i]] == sum(db.executed[i].text))
    && forall i :: |db.executed| <= i < |names| ==> names[i] !in db.ledger
  }

  // A file that was applied still has the checksum it was applied with.
  predicate Unmodified(sum: Checksum, boot: Boot, db: Db, i: nat)
    requires i < |db.executed| && i < |boot.texts|
  {
    sum(boot.texts[i]) == sum(db.executed[i].text)
  }

  predicate NoFaults(boot: Boot) {
    forall i :: 0 <= i < |boot.faults| ==> boot.faults[i].NoFault?
  }

  // One file, told by position instead of by a ledger lookup.
  lemma AtFile(sum: Checksum, names: seq<string>, boot: Boot, db: Db, i: nat)
    requires Distinct(names) && IsPrefix(sum, names, db) && Fits(names, boot)
    requires i <= |db.executed| && i < |names|
    ensures i < |db.executed| ==>
      RunFrom(sum, names, boot, db, i) == (if boot.faults[i].NoFault? && Unmodified(sum, boot, db, i)
                                           then RunFrom(sum, names, boot, db, i + 1) else (db, false))
    ensures i == |db.executed| ==>
      var next := Applied(sum, db, names[i], boot.texts[i]);
      && IsPrefix(sum, names, next)
      && RunFrom(sum, names, boot, db, i) ==
         if boot.faults[i].NoFault? then RunFrom(sum, names, boot, next, i + 1)
         else if boot.faults[i].AfterCommit? then (next, false) else (db, false)
  {
  }

  lemma {:induction false} RunKeepsPrefix(sum: Checksum, names: seq<string>, boot: Boot, db: Db, i: nat)
    requires Distinct(names) && IsPrefix(sum, names, db) && Fits(names, boot) && i <= |db.executed|
    ensures IsPrefix(sum, names, RunFrom(sum, names, boot, db, i).0)
    ensures db.executed <= RunFrom(sum, names, boot, db, i).0.executed
    decreases |names| - i
  {
    if i < |names| {
      AtFile(sum, names, boot, db, i);
      if boot.faults[i].NoFault? {
        if i == |db.executed| {
          RunKeepsPrefix(sum, names, boot, Applied(sum, db, names[i], boot.texts[i]), i + 1);
        } else if Unmodified(sum, boot, db, i) {
          RunKeepsPrefix(sum, names, boot, db, i + 1);
        }
      }
    }
  }

  // A run from file i succeeds unless it meets a fault or an edited file; success means
  // every file is applied, with the text the run saw wherever it was new.
  lemma {:induction false} RunSucceedsIff(sum: Checksum, names: seq<string>, boot: Boot, db: Db, i: nat)
    requires Distinct(names) && IsPrefix(sum, names, db) && Fits(names, boot) && i <= |db.executed|
    ensures RunFrom(sum, names, boot, db, i).1
            <==> (forall j :: i <= j < |names| ==> boot.faults[j].NoFault?) &&
                 (forall j :: i <= j < |db.executed| ==> Unmodified(sum, boot, db, j))
    ensures RunFrom(sum, names, boot, db, i).1 ==> |RunFrom(sum, names, boot, db, i).0.executed| == |names|
    decreases |names| - i
  {
    if i < |names| {
      AtFile(sum, names, boot, db, i);
      if boot.faults[i].NoFault? {
        if i == |db.executed| {
          var next := Applied(sum, db, names[i], boot.texts[i]);
          RunSucceedsIff(sum, names, boot, next, i + 1);
        } else if Unmodified(sum, boot, db, i) {
          RunSucceedsIff(sum, names, boot, db, i + 1);
        }
      }
    }
  }

  lemma {:induction false} EditStopsRun(sum: Checksum, names: seq<string>, boot: Boot, db: Db, i: nat, edited: nat)
    requires Distinct(names) && IsPrefix(sum, names, db) && Fits(names, boot)
    requires i <= edited < |db.executed| && !Unmodified(sum, boot, db, edited)
    ensures RunFrom(sum, names, boot, db, i) == (db, false)
    decreases |names| - i
  {
    AtFile(sum, names, boot, db, i);
    if boot.faults[i].NoFault? && Unmodified(sum, boot, db, i) {
      EditStopsRun(sum, names, boot, db, i + 1, edited);
    }
  }

  lemma {:induction false} RunsKeepPrefix(sum: Checksum, names: seq<string>, boots: seq<Boot>)
    requires Distinct(names) && forall b :: b in boots ==> Fits(names, b)
    ensures IsPrefix(sum, names, RunAll(sum, names, boots))
  {
    if boots != [] {
      var n := |boots| - 1;
      RunsKeepPrefix(sum, names, boots[..n]);
      RunKeepsPrefix(sum, names, boots[n], RunAll(sum, names, boots[..n]), 0);
    }
  }

  // Over any sequence of boots on one directory, each failing or crashing anywhere and
  // each finding any texts under the same names: the executed scripts are a prefix of the
  // sorted names, each once, so whatever has run ran in ascending order, and a script
  // that has not run comes after all that have.
  lemma {:induction false} ExecutedIsAlwaysAPrefix(sum: Checksum, entries: seq<DirEntry>, boots: seq<Boot>)
    requires DistinctEntries(entries) && forall b :: b in boots ==> Fits(ScriptNames(entries), b)
    ensures var db := RunAll(sum, ScriptNames(entries), boots);
      && IsPrefix(sum, ScriptNames(entries), db)
      && (forall i, j :: 0 <= i < j < |db.executed| ==> TextLess(db.executed[i].name, db.executed[j].name))
      && forall i, e :: 0 <= i < |db.executed| && e in entries && IsScript(e) && e.name !in db.ledger ==>
           TextLess(db.executed[i].name, e.name)
  {
    var names, db := ScriptNames(entries), RunAll(sum, ScriptNames(entries), boots);
    ScriptNamesAscend(entries);
    RunsKeepPrefix(sum, names, boots);
    forall i, e | 0 <= i < |db.executed| && e in entries && IsScript(e) && e.name !in db.ledger
      ensures TextLess(db.executed[i].name, e.name)
    {
      assert e.name in names;
      var j :| 0 <= j < |names| && names[j] == e.name;
      assert i < j;
    }
  }

  lemma EachScriptRunsOnce(sum: Checksum, names: seq<string>, boots: seq<Boot>, i: nat, j: nat)
    requires Distinct(names) && forall b :: b in boots ==> Fits(names, b)
    requires i < j < |RunAll(sum, names, boots).executed|
    ensures RunAll(sum, names, boots).executed[i].name != RunAll(sum, names, boots).executed[j].name
  {
    RunsKeepPrefix(sum, names, boots);
  }

  // After any history: the next run succeeds exactly when it meets no fault and every
  // applied file still has its checksum; success means every file is applied.
  lemma NextRunSucceedsIff(sum: Checksum, names: seq<string>, boots: seq<Boot>, boot: Boot)
    requires Distinct(names) && Fits(names, boot) && forall b :: b in boots ==> Fits(names, b)
    ensures var db := RunAll(sum, names, boots);
      var (after, ok) := RunFrom(sum, names, boot, db, 0);
      && |db.executed| <= |names|
      && (ok <==> NoFaults(boot) && forall j :: 0 <= j < |db.executed| ==> Unmodified(sum, boot, db, j))
      && (ok ==> |after.executed| == |names|)
      && db.executed <= after.executed
  {
    RunsKeepPrefix(sum, names, boots);
    RunKeepsPrefix(sum, names, boot, RunAll(sum, names, boots), 0);
    RunSucceedsIff(sum, names, boot, RunAll(sum, names, boots), 0);
  }

  // Editing an applied file, by anything that changes its checksum, makes every run fail
  // without executing anything new.
  lemma EditedFileStopsEveryRun(sum: Checksum, names: seq<string>, boots: seq<Boot>, boot: Boot, edited: nat)
    requires Distinct(names) && Fits(names, boot) && forall b :: b in boots ==> Fits(names, b)
    requires edited < |RunAll(sum, names, boots).executed| && edited < |names|
    requires !Unmodified(sum, boot, RunAll(sum, names, boots), edited)
    ensures RunFrom(sum, names, boot, RunAll(sum, names, boots), 0) == (RunAll(sum, names, boots), false)
  {
    RunsKeepPrefix(sum, names, boots);
    EditStopsRun(sum, names, boot, RunAll(sum, names, boots), 0, edited);
  }

  // Once a run has succeeded, a further one on the same files changes nothing, with or
  // without faults.
  lemma FurtherRunChangesNothing(sum: Checksum, names: seq<string>, boots: seq<Boot>, boot: Boot, again: Boot)
    requires Distinct(names) && Fits(names, boot) && Fits(names, again) && forall b :: b in boots ==> Fits(names, b)
    requires RunFrom(sum, names, boot, RunAll(sum, names, boots), 0).1
    requires again.texts == boot.texts
    ensures var after := RunFrom(sum, names, boot, RunAll(sum, names, boots), 0).0;
      RunFrom(sum, names, again, after, 0) == (after, NoFaults(again))
  {
    var db := RunAll(sum, names, boots);
    RunsKeepPrefix(sum, names, boots);
    RunKeepsPrefix(sum, names, boot, db, 0);
    CurrentAfterSuccess(sum, names, boot, db, 0);
    var after := RunFrom(sum, names, boot, db, 0).0;
    forall j | 0 <= j < |names| ensures Unmodified(sum, again, after, j) {
      assert Unmodified(sum, boot, after, j);
    }
    FullRunIsStable(sum, names, again, after, 0);
    RunSucceedsIff(sum, names, again, after, 0);
  }

  lemma {:induction false} FullRunIsStable(sum: Checksum, names: seq<string>, boot: Boot, db: Db, i: nat)
    requires Distinct(names) && IsPrefix(sum, names, db) && Fits(names, boot)
    requires i <= |db.executed| == |names|
    ensures RunFrom(sum, names, boot, db, i).0 == db
    decreases |names| - i
  {
    if i < |names| {
      AtFile(sum, names, boot, db, i);
      FullRunIsStable(sum, names, boot, db, i + 1);
    }
  }

  // What a successful run leaves executed has the checksums of the files it saw.
  lemma {:induction false} CurrentAfterSuccess(sum: Checksum, names: seq<string>, boot: Boot, db: Db, i: nat)
    requires Distinct(names) && IsPrefix(sum, names, db) && Fits(names, boot) && i <= |db.executed|
    requires forall j :: 0 <= j < i ==> Unmodified(sum, boot, db, j)
    requires RunFrom(sum, names, boot, db, i).1
    ensures var after := RunFrom(sum, names, boot, db, i).0;
      |after.executed| == |names| && forall j :: 0 <= j < |names| ==> Unmodified(sum, boot, after, j)
    decreases |names| - i
  {
    if i < |names| {
      AtFile(sum, names, boot, db, i);
      if i < |db.executed| {
        CurrentAfterSuccess(sum, names, boot, db, i + 1);
      } else {
        var next := Applied(sum, db, names[i], boot.texts[i]);
        forall j | 0 <= j < i + 1 ensures Unmodified(sum, boot, next, j) {
          assert j < i ==> next.executed[j] == db.executed[j] && Unmodified(sum, boot, db, j);
        }
        CurrentAfterSuccess(sum, names, boot, next, i + 1);
      }
    }
  }
}
