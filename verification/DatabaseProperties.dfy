/** What the history database keeps over every run: which result codes commit, atomicity,
    referential integrity, exact removal and the round trip of a record. */
module DatabaseProperties {
  import opened Options
  import opened Database

  // ----- the accumulator of result codes -----------------------------------------------

  /** `results |= code; FIX_RESULTS( results )` over the first n codes. */
  function Accumulated(outcome: Outcome, n: nat): Code {
    if n == 0 then SQLITE_OK else FixResults(Accumulated(outcome, n - 1) | outcome(n - 1))
  }

  /** The decision depends on the codes alone. */
  lemma {:induction false} ResultsAreAccumulated(statements: seq<Statement>, n: nat, outcome: Outcome, done: Code, start: Connection)
    requires n <= |statements|
    ensures After(statements, n, outcome, done, start).results == Accumulated(outcome, n)
  {
    hide Perform;
    if n > 0 {
      ResultsAreAccumulated(statements, n - 1, outcome, done, start);
    }
  }

  /** A code with a bit that 101 does not have. */
  predicate Loud(code: Code) {
    code & !SQLITE_DONE != 0
  }

  /** The codes `sqlite3_step` answers to an INSERT or a DELETE: an error of 1 to 28, or DONE. */
  predicate StepCode(code: Code) {
    1 <= code <= 28 || code == SQLITE_DONE
  }

  lemma BitsJoin(results: Code, code: Code)
    ensures Loud(results | code) <==> Loud(results) || Loud(code)
    ensures Loud(FixResults(results | code)) <==> Loud(results) || Loud(code)
  {
  }

  lemma QuietErrors(code: Code)
    requires code <= 28
    ensures !Loud(code) <==> code in {0, 1, 4, 5}
  {
  }

  /** A loud code is never lost. */
  lemma {:induction false} LoudStays(outcome: Outcome, n: nat)
    ensures Loud(Accumulated(outcome, n)) <==> exists i :: 0 <= i < n && Loud(outcome(i))
  {
    hide Loud, FixResults;
    QuietErrors(SQLITE_OK);
    if n > 0 {
      LoudStays(outcome, n - 1);
      BitsJoin(Accumulated(outcome, n - 1), outcome(n - 1));
      if Loud(outcome(n - 1)) {
        assert 0 <= n - 1 < n;
      }
    }
  }

  lemma QuietJoin(results: Code, code: Code)
    requires results in {0, 1, 4, 5} && code in {1, 4, 5, 101}
    ensures code == SQLITE_DONE ==> FixResults(results | code) == SQLITE_OK
    ensures code != SQLITE_DONE ==> FixResults(results | code) in {1, 4, 5}
  {
  }

  lemma {:induction false} QuietRange(outcome: Outcome, n: nat)
    requires forall i :: 0 <= i < n ==> outcome(i) in {1, 4, 5, 101}
    ensures Accumulated(outcome, n) in {0, 1, 4, 5}
    ensures n > 0 ==> (Accumulated(outcome, n) == SQLITE_OK <==> outcome(n - 1) == SQLITE_DONE)
  {
    if n > 0 {
      QuietRange(outcome, n - 1);
      QuietJoin(Accumulated(outcome, n - 1), outcome(n - 1));
    }
  }

  /** Exactly when a transaction of `sqlite3_step` calls commits: no code is loud and the last
      one is DONE. The codes 1, 4 and 5 before it are absorbed. */
  lemma StepsCommitExactly(outcome: Outcome, n: nat)
    requires n > 0 && forall i :: 0 <= i < n ==> StepCode(outcome(i))
    ensures Accumulated(outcome, n) == SQLITE_OK
       <==> outcome(n - 1) == SQLITE_DONE && forall i :: 0 <= i < n ==> outcome(i) in {1, 4, 5, 101}
  {
    hide Loud, Accumulated;
    LoudStays(outcome, n);
    QuietErrors(SQLITE_OK);
    if j :| 0 <= j < n && outcome(j) !in {1, 4, 5, 101} {
      QuietErrors(outcome(j));
      assert Loud(Accumulated(outcome, n));
    } else {
      QuietRange(outcome, n);
    }
  }

  lemma SmallJoin(results: Code, code: Code)
    requires results < 32 && code <= 28
    ensures results | code < 32
    ensures FixResults(results | code) == SQLITE_OK <==> results == code == SQLITE_OK
    ensures FixResults(results | code) == results | code
  {
  }

  /** `sqlite3_exec` answers 0 to 28: nothing is absorbed. */
  lemma {:induction false} ExecsCommitExactly(outcome: Outcome, n: nat)
    requires forall i :: 0 <= i < n ==> outcome(i) <= 28
    ensures Accumulated(outcome, n) < 32
    ensures Accumulated(outcome, n) == SQLITE_OK <==> forall i :: 0 <= i < n ==> outcome(i) == SQLITE_OK
  {
    if n > 0 {
      ExecsCommitExactly(outcome, n - 1);
      SmallJoin(Accumulated(outcome, n - 1), outcome(n - 1));
    }
  }

  // ----- atomicity ---------------------------------------------------------------------

  function Length(op: Operation, start: Connection, outcome: Outcome): nat {
    |op.Statements(start, outcome(0))|
  }

  /** Every code of the transaction is one its kind of call can answer. */
  predicate Possible(op: Operation, start: Connection, outcome: Outcome) {
    forall i :: 0 <= i < Length(op, start, outcome) ==>
      if op.ClearAllTransfers? then outcome(i) <= 28 else StepCode(outcome(i))
  }

  /** No step fails with a code that a later DONE can absorb. */
  predicate NothingAbsorbed(op: Operation, start: Connection, outcome: Outcome) {
    forall i :: 0 <= i < Length(op, start, outcome) ==> outcome(i) == op.Done() || Loud(outcome(i))
  }

  predicate AllDone(op: Operation, start: Connection, outcome: Outcome) {
    forall i :: 0 <= i < Length(op, start, outcome) ==> outcome(i) == op.Done()
  }

  /** An operation either takes full effect and reports success, or leaves every table as it
      was and reports failure. */
  lemma Atomicity(op: Operation, start: Connection, outcome: Outcome)
    requires Possible(op, start, outcome) && NothingAbsorbed(op, start, outcome)
    ensures Commits(op, start, outcome) <==> AllDone(op, start, outcome)
    ensures !AllDone(op, start, outcome) ==> Executed(op, start, outcome).tables == start.tables
  {
    hide Perform, StepOnce;
    var n := Length(op, start, outcome);
    ResultsAreAccumulated(op.Statements(start, outcome(0)), n, outcome, op.Done(), start);
    if op.ClearAllTransfers? {
      ExecsCommitExactly(outcome, n);
    } else {
      StepsCommitExactly(outcome, n);
      forall i | 0 <= i < n
        ensures outcome(i) in {1, 4, 5, 101} <==> outcome(i) == SQLITE_DONE
      {
        assert Loud(outcome(i)) ==> outcome(i) !in {1, 4, 5, 101};
      }
    }
  }

  // ----- integrity ---------------------------------------------------------------------

  /** Transfer ids increase from row to row and were handed out by the sequence. */
  predicate Keyed(t: Tables) {
    && (forall i, j :: 0 <= i < j < |t.transfers| ==> t.transfers[i].id < t.transfers[j].id)
    && (forall row :: row in t.transfers ==> row.id <= t.transferSeq)
  }

  /** Every path row belongs to an existing transfer. */
  predicate Referential(t: Tables) {
    forall row :: row in t.paths ==> row.transferId in Ids(t.transfers)
  }

  lemma {:induction false} DeleteKeepsOrder(rows: seq<Transfer>, filter: Filter)
    requires forall i, j :: 0 <= i < j < |rows| ==> rows[i].id < rows[j].id
    ensures forall i, j :: 0 <= i < j < |Delete(rows, filter)| ==>
      Delete(rows, filter)[i].id < Delete(rows, filter)[j].id
  {
    if rows != [] {
      var rest := Delete(rows[1..], filter);
      DeleteKeepsOrder(rows[1..], filter);
      assert forall i :: 0 <= i < |rest| ==> rest[i] in rows[1..];
    }
  }

  lemma PerformKeepsKeys(statement: Statement, c: Connection)
    requires Keyed(c.tables)
    ensures Keyed(Perform(statement, c).tables)
  {
    if statement.DeleteTransfers? {
      DeleteKeepsOrder(c.tables.transfers, statement.filter);
    }
  }

  lemma {:induction false} RunKeepsKeys(statements: seq<Statement>, n: nat, outcome: Outcome, done: Code, start: Connection)
    requires n <= |statements| && Keyed(start.tables)
    ensures Keyed(After(statements, n, outcome, done, start).connection.tables)
  {
    hide Perform, Keyed;
    if n > 0 {
      RunKeepsKeys(statements, n - 1, outcome, done, start);
      PerformKeepsKeys(statements[n - 1], After(statements, n - 1, outcome, done, start).connection);
    }
  }

  /** Ids stay unique whatever the steps answer. */
  lemma OperationKeepsKeys(op: Operation, start: Connection, outcome: Outcome)
    requires Keyed(start.tables)
    ensures Keyed(Executed(op, start, outcome).tables)
  {
    hide Perform, StepOnce, Keyed;
    RunKeepsKeys(op.Statements(start, outcome(0)), Length(op, start, outcome), outcome, op.Done(), start);
  }

  predicate HasPaths(t: Tables, targetId: string) {
    exists row :: row in t.paths && row.transferId in Ids(Select(t.transfers, OfTarget(targetId)))
  }

  /** A step failed on which the references of a later step depend. */
  predicate Orphaning(op: Operation, start: Connection, outcome: Outcome) {
    match op
    case AddTransfer(_) => outcome(0) != SQLITE_DONE && start.lastRowid !in Ids(start.tables.transfers)
    case ClearAllTransfersForRemote(targetId) => outcome(0) != SQLITE_DONE && HasPaths(start.tables, targetId)
    case RemoveTarget(targetId) => outcome(1) != SQLITE_DONE && HasPaths(start.tables, targetId)
    case RemoveAllTargets => outcome(1) != SQLITE_DONE && start.tables.paths != []
    case _ => false
  }

  /** The codes with which an operation commits: the last is DONE and those before it are DONE
      or absorbed; `sqlite3_exec` must answer 0 throughout. */
  predicate CommittingCodes(op: Operation, start: Connection, outcome: Outcome) {
    var n := Length(op, start, outcome);
    if op.ClearAllTransfers? then forall i :: 0 <= i < n ==> outcome(i) == SQLITE_OK
    else outcome(n - 1) == SQLITE_DONE && forall i :: 0 <= i < n ==> outcome(i) in {1, 4, 5, 101}
  }

  lemma CommitCodes(op: Operation, start: Connection, outcome: Outcome)
    requires Possible(op, start, outcome)
    ensures Commits(op, start, outcome) <==> CommittingCodes(op, start, outcome)
  {
    hide Perform, StepOnce;
    var n := Length(op, start, outcome);
    ResultsAreAccumulated(op.Statements(start, outcome(0)), n, outcome, op.Done(), start);
    if op.ClearAllTransfers? {
      ExecsCommitExactly(outcome, n);
    } else {
      StepsCommitExactly(outcome, n);
    }
  }

  /** The path rows of a transaction that adds a transfer, after n steps. */
  lemma {:induction false} AddedPaths(record: Transfer, n: nat, outcome: Outcome, start: Connection)
    requires 1 <= n <= 1 + |record.elements|
    ensures
      var statements := AddTransfer(record).Statements(start, outcome(0));
      var first := After(statements, 1, outcome, SQLITE_DONE, start).connection;
      var t := After(statements, n, outcome, SQLITE_DONE, start).connection.tables;
      && t.transfers == first.tables.transfers && t.targets == start.tables.targets
      && start.tables.paths <= t.paths
      && (forall i :: |start.tables.paths| <= i < |t.paths| ==> t.paths[i].transferId == first.lastRowid)
      && (|start.tables.paths| < |t.paths| <==> exists i :: 1 <= i < n && outcome(i) == SQLITE_DONE)
  {
    if n > 1 {
      AddedPaths(record, n - 1, outcome, start);
    }
  }

  lemma AddKeepsReferences(record: Transfer, start: Connection, outcome: Outcome)
    requires Keyed(start.tables) && Referential(start.tables)
    requires Possible(AddTransfer(record), start, outcome)
    ensures Referential(Executed(AddTransfer(record), start, outcome).tables)
       <==> !(Commits(AddTransfer(record), start, outcome) && Orphaning(AddTransfer(record), start, outcome))
  {
    var op, n := AddTransfer(record), 1 + |record.elements|;
    CommitCodes(op, start, outcome);
    AddedPaths(record, n, outcome, start);
    AddedPaths(record, 1, outcome, start);
    var first := After(op.Statements(start, outcome(0)), 1, outcome, SQLITE_DONE, start).connection;
    assert first == if outcome(0) == SQLITE_DONE then Perform(InsertTransfer(record), start) else start;
    if Commits(op, start, outcome) {
      var t := Transaction(op, start, outcome).connection.tables;
      assert forall row :: row in start.tables.transfers ==> row in first.tables.transfers;
      assert Ids(start.tables.transfers) <= Ids(first.tables.transfers);
      if outcome(0) == SQLITE_DONE {
        var row := record.(id := first.lastRowid, elements := []);
        assert first.tables.transfers[|start.tables.transfers|] == row;
        assert row in first.tables.transfers;
      } else {
        assert 1 <= n - 1 < n && outcome(n - 1) == SQLITE_DONE;
        assert t.paths[|start.tables.paths|].transferId == start.lastRowid;
      }
    }
  }

  lemma ThreeSteps(statements: seq<Statement>, outcome: Outcome, done: Code, start: Connection)
    requires 2 <= |statements| <= 3
    ensures
      var c1 := if outcome(0) == done then Perform(statements[0], start) else start;
      var c2 := if outcome(1) == done then Perform(statements[1], c1) else c1;
      var c3 := if |statements| == 3 && outcome(2) == done then Perform(statements[2], c2) else c2;
      After(statements, |statements|, outcome, done, start).connection == c3
  {
    hide Perform, FixResults;
    var r0 := After(statements, 0, outcome, done, start);
    var r1 := After(statements, 1, outcome, done, start);
    assert r1 == StepOnce(statements[0], outcome(0), done, r0);
    var r2 := After(statements, 2, outcome, done, start);
    assert r2 == StepOnce(statements[1], outcome(1), done, r1);
  }

  /** With unique ids, the ids of the deleted rows and those of the kept ones are apart. */
  lemma DeletedIds(t: Tables, filter: Filter)
    requires Keyed(t)
    ensures Ids(Delete(t.transfers, filter)) == Ids(t.transfers) - Ids(Select(t.transfers, filter))
  {
    forall r1, r2 | r1 in t.transfers && r2 in t.transfers && r1.id == r2.id
      ensures r1 == r2
    {
      var i :| 0 <= i < |t.transfers| && t.transfers[i] == r1;
      var j :| 0 <= j < |t.transfers| && t.transfers[j] == r2;
      assert i == j;
    }
  }

  /** Deleting transfers keeps the references if their paths go too, and otherwise exactly
      when they have none. */
  lemma DeletionReferences(t: Tables, filter: Filter)
    requires Keyed(t) && Referential(t)
    ensures
      var ids, kept := Ids(Select(t.transfers, filter)), Delete(t.transfers, filter);
      && Referential(t.(paths := PathsOutside(t.paths, ids)))
      && Referential(t.(transfers := kept, paths := PathsOutside(t.paths, ids)))
      && (Referential(t.(transfers := kept)) <==> forall row :: row in t.paths ==> row.transferId !in ids)
  {
    DeletedIds(t, filter);
  }

  lemma SelectedId(t: Tables, id: int)
    requires Referential(t)
    ensures PathsOutside(t.paths, {id}) == PathsOutside(t.paths, Ids(Select(t.transfers, WithId(id))))
  {
    SameOutside(t.paths, {id}, Ids(Select(t.transfers, WithId(id))));
  }

  lemma {:induction false} SameOutside(paths: seq<PathRow>, a: set<int>, b: set<int>)
    requires forall row :: row in paths ==> (row.transferId in a <==> row.transferId in b)
    ensures PathsOutside(paths, a) == PathsOutside(paths, b)
  {
    if paths != [] {
      SameOutside(paths[1..], a, b);
    }
  }

  lemma {:induction false} DeleteEverything(rows: seq<Transfer>)
    ensures Delete(rows, ALL) == []
  {
    if rows != [] {
      DeleteEverything(rows[1..]);
    }
  }

  lemma NoTransfers(t: Tables)
    ensures Delete(t.transfers, ALL) == []
    ensures Referential(t.(transfers := [])) <==> t.paths == []
  {
    DeleteEverything(t.transfers);
    if t.paths != [] {
      assert t.paths[0] in t.paths;
    }
  }

  /** The tables after a transaction of deletions, step by step. */
  function Removed(op: Operation, t: Tables, outcome: Outcome): Tables
    requires !op.AddTransfer? && !op.UpdateTarget?
  {
    match op
    case ClearAllTransfers =>
      var t1 := if outcome(0) == SQLITE_OK then t.(transfers := Delete(t.transfers, ALL)) else t;
      if outcome(1) == SQLITE_OK then t1.(paths := []) else t1
    case ClearAllTransfersForRemote(targetId) =>
      var ids := Ids(Select(t.transfers, OfTarget(targetId)));
      var t1 := if outcome(0) == SQLITE_DONE then t.(paths := PathsOutside(t.paths, ids)) else t;
      if outcome(1) == SQLITE_DONE then t1.(transfers := Delete(t.transfers, OfTarget(targetId))) else t1
    case DeleteTransfer(id) =>
      var t1 := if outcome(0) == SQLITE_DONE then t.(transfers := Delete(t.transfers, WithId(id))) else t;
      if outcome(1) == SQLITE_DONE then t1.(paths := PathsOutside(t.paths, {id})) else t1
    case RemoveTarget(targetId) =>
      var ids := Ids(Select(t.transfers, OfTarget(targetId)));
      var t1 := if outcome(0) == SQLITE_DONE then t.(targets := WithoutTarget(t.targets, targetId)) else t;
      var t2 := if outcome(1) == SQLITE_DONE then t1.(paths := PathsOutside(t.paths, ids)) else t1;
      if outcome(2) == SQLITE_DONE then t2.(transfers := Delete(t.transfers, OfTarget(targetId))) else t2
    case RemoveAllTargets =>
      var t1 := if outcome(0) == SQLITE_DONE then t.(targets := []) else t;
      var t2 := if outcome(1) == SQLITE_DONE then t1.(paths := []) else t1;
      if outcome(2) == SQLITE_DONE then t2.(transfers := Delete(t.transfers, ALL)) else t2
  }

  lemma RemovedTables(op: Operation, start: Connection, outcome: Outcome)
    requires !op.AddTransfer? && !op.UpdateTarget?
    ensures Transaction(op, start, outcome).connection.tables == Removed(op, start.tables, outcome)
  {
    hide After, StepOnce, Select, Delete, PathsOutside, Ids;
    ThreeSteps(op.Statements(start, outcome(0)), outcome, op.Done(), start);
  }

  lemma RemovalKeepsReferences(op: Operation, start: Connection, outcome: Outcome)
    requires !op.AddTransfer? && !op.UpdateTarget? && Keyed(start.tables) && Referential(start.tables)
    requires Possible(op, start, outcome)
    ensures Referential(Executed(op, start, outcome).tables)
       <==> !(Commits(op, start, outcome) && Orphaning(op, start, outcome))
  {
    hide Perform, StepOnce, After, Keyed, Select, Delete, PathsOutside;
    CommitCodes(op, start, outcome);
    RemovedTables(op, start, outcome);
    var t := start.tables;
    match op {
      case ClearAllTransfers =>
        NoTransfers(t);
        NoTransfers(t.(paths := []));
      case ClearAllTransfersForRemote(targetId) =>
        DeletionReferences(t, OfTarget(targetId));
      case DeleteTransfer(id) =>
        DeletionReferences(t, WithId(id));
        SelectedId(t, id);
      case RemoveTarget(targetId) =>
        DeletionReferences(t, OfTarget(targetId));
      case RemoveAllTargets =>
        NoTransfers(t);
        NoTransfers(t.(paths := []));
    }
  }

  /** Exactly when a transaction breaks referential integrity: its codes commit it although a
      step failed on which the references of a later step depend. */
  lemma ReferencesKeptExactly(op: Operation, start: Connection, outcome: Outcome)
    requires Keyed(start.tables) && Referential(start.tables)
    requires Possible(op, start, outcome)
    ensures Referential(Executed(op, start, outcome).tables)
       <==> !(CommittingCodes(op, start, outcome) && Orphaning(op, start, outcome))
  {
    hide CommittingCodes;
    CommitCodes(op, start, outcome);
    if op.AddTransfer? {
      AddKeepsReferences(op.record, start, outcome);
    } else if op.UpdateTarget? {
      var statements := op.Statements(start, outcome(0));
      assert After(statements, 1, outcome, op.Done(), start)
          == StepOnce(statements[0], outcome(0), op.Done(), After(statements, 0, outcome, op.Done(), start));
    } else {
      RemovalKeepsReferences(op, start, outcome);
    }
  }

  // ----- runs --------------------------------------------------------------------------

  datatype Call = Call(op: Operation, outcome: Outcome)

  function Replay(calls: seq<Call>, start: Connection): Connection {
    if calls == [] then start
    else Replay(calls[1..], Executed(calls[0].op, start, calls[0].outcome))
  }

  /** No call of the run has a failure that a later step absorbs. */
  predicate LoudRun(calls: seq<Call>, start: Connection) {
    calls == [] ||
    (&& Possible(calls[0].op, start, calls[0].outcome)
     && NothingAbsorbed(calls[0].op, start, calls[0].outcome)
     && LoudRun(calls[1..], Executed(calls[0].op, start, calls[0].outcome)))
  }

  /** Over every run whose failures are loud, ids stay unique and no path row is orphaned. */
  lemma {:induction false} IntegrityOverRuns(calls: seq<Call>, start: Connection)
    requires Keyed(start.tables) && Referential(start.tables)
    requires LoudRun(calls, start)
    ensures Keyed(Replay(calls, start).tables) && Referential(Replay(calls, start).tables)
  {
    hide Keyed, Referential, Executed, Commits;
    if calls != [] {
      var op, outcome := calls[0].op, calls[0].outcome;
      OperationKeepsKeys(op, start, outcome);
      ReferencesKeptExactly(op, start, outcome);
      Atomicity(op, start, outcome);
      IntegrityOverRuns(calls[1..], Executed(op, start, outcome));
    }
  }

  /** A failure with code 1 is absorbed: adding one file commits a path row without a transfer. */
  lemma AbsorbedFailureOrphans(record: Transfer)
    requires |record.elements| == 1
    ensures
      var start := Connection(Tables([], [], [], 0, 0), 0);
      var outcome: Outcome := n => if n == 0 then SQLITE_ERROR else SQLITE_DONE;
      && Commits(AddTransfer(record), start, outcome)
      && !Referential(Executed(AddTransfer(record), start, outcome).tables)
  {
    var start := Connection(Tables([], [], [], 0, 0), 0);
    var outcome: Outcome := n => if n == 0 then SQLITE_ERROR else SQLITE_DONE;
    CommitCodes(AddTransfer(record), start, outcome);
    ReferencesKeptExactly(AddTransfer(record), start, outcome);
  }

  // ----- queries -----------------------------------------------------------------------

  predicate Descending(rows: seq<Transfer>) {
    forall i, j :: 0 <= i < j < |rows| ==> rows[i].transferTimestamp >= rows[j].transferTimestamp
  }

  lemma {:induction false} InsertPermutes(row: Transfer, rows: seq<Transfer>)
    ensures multiset(Insert(row, rows)) == multiset{row} + multiset(rows)
  {
    if rows != [] && rows[0].transferTimestamp > row.transferTimestamp {
      InsertPermutes(row, rows[1..]);
      assert rows == [rows[0]] + rows[1..];
    }
  }

  lemma {:induction false} InsertKeepsOrder(row: Transfer, rows: seq<Transfer>)
    requires Descending(rows)
    ensures Descending(Insert(row, rows))
    ensures forall x :: x in Insert(row, rows) ==> x == row || x in rows
  {
    if rows != [] && rows[0].transferTimestamp > row.transferTimestamp {
      var rest := Insert(row, rows[1..]);
      InsertKeepsOrder(row, rows[1..]);
      assert forall i :: 0 <= i < |rest| ==> rest[i] in rest;
    }
  }

  /** `ORDER BY ... DESC` is a descending permutation. */
  lemma {:induction false} OrderedIsSorted(rows: seq<Transfer>)
    ensures Descending(Ordered(rows))
    ensures multiset(Ordered(rows)) == multiset(rows)
  {
    if rows != [] {
      OrderedIsSorted(rows[1..]);
      InsertPermutes(rows[0], Ordered(rows[1..]));
      InsertKeepsOrder(rows[0], Ordered(rows[1..]));
      assert rows == [rows[0]] + rows[1..];
    }
  }

  lemma OrderedMembers(rows: seq<Transfer>)
    ensures forall row :: row in Ordered(rows) <==> row in rows
  {
    OrderedIsSorted(rows);
    assert forall row :: row in rows <==> row in multiset(rows);
    assert forall row :: row in Ordered(rows) <==> row in multiset(Ordered(rows));
  }

  // ----- removal is exact --------------------------------------------------------------

  lemma {:induction false} SelectAfterDelete(rows: seq<Transfer>, deleted: Filter, kept: Filter)
    requires forall row :: row in rows && kept.Matches(row) ==> !deleted.Matches(row)
    ensures Select(Delete(rows, deleted), kept) == Select(rows, kept)
  {
    if rows != [] {
      SelectAfterDelete(rows[1..], deleted, kept);
      if !deleted.Matches(rows[0]) {
        assert Delete(rows, deleted)[1..] == Delete(rows[1..], deleted);
      }
    }
  }

  lemma {:induction false} PathsAfterDelete(paths: seq<PathRow>, deleted: set<int>, id: int)
    requires id !in deleted
    ensures PathsOf(PathsOutside(paths, deleted), {id}) == PathsOf(paths, {id})
  {
    if paths != [] {
      PathsAfterDelete(paths[1..], deleted, id);
      if paths[0].transferId !in deleted {
        assert PathsOutside(paths, deleted)[1..] == PathsOutside(paths[1..], deleted);
      }
    }
  }

  /** Queries that cannot see the deleted transfers read the same records, paths included,
      whether or not the paths of the deleted ones went too. */
  lemma UnseenDeletion(t: Tables, after: Tables, deleted: Filter, filter: Filter, queryPaths: bool)
    requires Keyed(t)
    requires after.transfers == Delete(t.transfers, deleted)
    requires after.paths == t.paths || after.paths == PathsOutside(t.paths, Ids(Select(t.transfers, deleted)))
    requires forall row :: row in t.transfers && filter.Matches(row) ==> !deleted.Matches(row)
    ensures Query(after, filter, queryPaths) == Query(t, filter, queryPaths)
  {
    hide Keyed, PathsOutside;
    SelectAfterDelete(t.transfers, deleted, filter);
    DeletedIds(t, deleted);
    var rows := Ordered(Select(t.transfers, filter));
    OrderedMembers(Select(t.transfers, filter));
    forall i | 0 <= i < |rows|
      ensures ReadRow(rows[i], after, queryPaths) == ReadRow(rows[i], t, queryPaths)
    {
      assert rows[i] in rows && rows[i] in after.transfers;
      PathsAfterDelete(t.paths, Ids(Select(t.transfers, deleted)), rows[i].id);
    }
  }

  lemma NothingOfTarget(t: Tables, targetId: string, queryPaths: bool)
    requires forall row :: row in t.transfers ==> row.targetId != targetId
    ensures Query(t, OfTarget(targetId), queryPaths) == []
  {
    var rows := Select(t.transfers, OfTarget(targetId));
    assert forall i :: 0 <= i < |rows| ==> rows[i] in rows;
  }

  /** A committed per-target removal deletes that target's history: it has no records left, and
      every query for another target reads the same records and paths as before. Its path rows
      and its own row go unless their step failed and was absorbed. */
  lemma RemovalIsExact(op: Operation, targetId: string, start: Connection, outcome: Outcome)
    requires op == RemoveTarget(targetId) || op == ClearAllTransfersForRemote(targetId)
    requires Keyed(start.tables) && Possible(op, start, outcome) && Commits(op, start, outcome)
    ensures
      var t, after := start.tables, Executed(op, start, outcome).tables;
      var ids, ofPaths := Ids(Select(t.transfers, OfTarget(targetId))), if op.RemoveTarget? then 1 else 0;
      && (forall q :: Query(after, OfTarget(targetId), q) == [])
      && (forall filter: Filter, q: bool | filter.target.Some? && filter.target.value != targetId ::
            Query(after, filter, q) == Query(t, filter, q))
      && (forall row :: row in after.paths <==>
            row in t.paths && (row.transferId in ids ==> outcome(ofPaths) != SQLITE_DONE))
      && after.targets ==
           if op.RemoveTarget? && outcome(0) == SQLITE_DONE then WithoutTarget(t.targets, targetId) else t.targets
  {
    hide Perform, StepOnce, After, Keyed, Query;
    CommitCodes(op, start, outcome);
    RemovedTables(op, start, outcome);
    var t, after := start.tables, Executed(op, start, outcome).tables;
    forall q {
      NothingOfTarget(after, targetId, q);
    }
    forall filter: Filter, q: bool | filter.target.Some? && filter.target.value != targetId
      ensures Query(after, filter, q) == Query(t, filter, q)
    {
      UnseenDeletion(t, after, OfTarget(targetId), filter, q);
    }
  }

  /** Updating a target leaves exactly one row of it, the new one, and all other rows. */
  lemma TargetReplaced(target: TargetInfo, start: Connection, outcome: Outcome)
    requires Possible(UpdateTarget(target), start, outcome) && Commits(UpdateTarget(target), start, outcome)
    ensures
      var t, after := start.tables.targets, Executed(UpdateTarget(target), start, outcome).tables.targets;
      && after != [] && after[|after| - 1].info == target
      && (forall row :: row in after[..|after| - 1] <==> row in t && row.info.targetId != target.targetId)
      && Executed(UpdateTarget(target), start, outcome).lastRowid == after[|after| - 1].rowid
  {
    var op := UpdateTarget(target);
    var statements := op.Statements(start, outcome(0));
    CommitCodes(op, start, outcome);
    assert After(statements, 1, outcome, op.Done(), start)
        == StepOnce(statements[0], outcome(0), op.Done(), After(statements, 0, outcome, op.Done(), start));
    var kept := WithoutTarget(start.tables.targets, target.targetId);
    var after := Executed(op, start, outcome).tables.targets;
    assert after[..|after| - 1] == kept;
  }

  // ----- round trip --------------------------------------------------------------------

  lemma {:induction false} AddedRows(record: Transfer, n: nat, outcome: Outcome, start: Connection)
    requires 1 <= n <= 1 + |record.elements|
    requires forall i :: 0 <= i < n ==> outcome(i) == SQLITE_DONE
    ensures
      var id, seq0 := start.tables.transferSeq + 1, start.tables.pathSeq;
      var t := After(AddTransfer(record).Statements(start, outcome(0)), n, outcome, SQLITE_DONE, start).connection.tables;
      && t.transfers == start.tables.transfers + [record.(id := id, elements := [])]
      && t.pathSeq == seq0 + n - 1
      && t.paths == start.tables.paths +
           seq(n - 1, i requires 0 <= i < n - 1 => PathRow(id, record.elements[i].(id := seq0 + 1 + i)))
  {
    var statements := AddTransfer(record).Statements(start, outcome(0));
    if n > 1 {
      AddedRows(record, n - 1, outcome, start);
      assert statements[n - 1] == InsertPath(start.tables.transferSeq + 1, record.elements[n - 2]);
    } else {
      assert After(statements, 0, outcome, SQLITE_DONE, start).connection == start;
    }
  }

  lemma {:induction false} SelectAppended(rows: seq<Transfer>, last: Transfer, filter: Filter)
    requires filter.Matches(last) && forall row :: row in rows ==> !filter.Matches(row)
    ensures Select(rows + [last], filter) == [last]
  {
    if rows != [] {
      assert (rows + [last])[1..] == rows[1..] + [last];
      SelectAppended(rows[1..], last, filter);
    }
  }

  lemma {:induction false} AllPathsOf(paths: seq<PathRow>, id: int)
    requires forall i :: 0 <= i < |paths| ==> paths[i].transferId == id
    ensures PathsOf(paths, {id}) == paths
  {
    if paths != [] {
      AllPathsOf(paths[1..], id);
    }
  }

  lemma {:induction false} PathsAppended(earlier: seq<PathRow>, added: seq<PathRow>, id: int)
    requires forall i :: 0 <= i < |earlier| ==> earlier[i].transferId != id
    requires forall i :: 0 <= i < |added| ==> added[i].transferId == id
    ensures PathsOf(earlier + added, {id}) == added
  {
    if earlier == [] {
      assert earlier + added == added;
      AllPathsOf(added, id);
    } else {
      assert (earlier + added)[1..] == earlier[1..] + added;
      PathsAppended(earlier[1..], added, id);
    }
  }

  /** A number outside 0 .. last stands for last. */
  function InRange(value: int, last: int): int {
    if 0 <= value <= last then value else last
  }

  /** The record with its seven transfer types, four states and three element types in range. */
  function Corrected(record: Transfer): Transfer {
    record.(
      transferType := InRange(record.transferType, 6),
      status := InRange(record.status, 3),
      elements := seq(|record.elements|, i requires 0 <= i < |record.elements| =>
        record.elements[i].(elementType := InRange(record.elements[i].elementType, 2))))
  }

  /** Two records that differ at most in the row ids the database chose. */
  predicate SameButIds(a: Transfer, b: Transfer) {
    && a == b.(id := a.id, elements := a.elements)
    && |a.elements| == |b.elements|
    && forall i :: 0 <= i < |a.elements| ==> a.elements[i] == b.elements[i].(id := a.elements[i].id)
  }

  lemma NewPathsOnly(start: Tables, id: int, added: seq<PathRow>)
    requires Keyed(start) && Referential(start) && id == start.transferSeq + 1
    requires forall i :: 0 <= i < |added| ==> added[i].transferId == id
    ensures PathsOf(start.paths + added, {id}) == added
  {
    forall i | 0 <= i < |start.paths|
      ensures start.paths[i].transferId != id
    {
      assert start.paths[i] in start.paths;
    }
    PathsAppended(start.paths, added, id);
  }

  lemma ReadAdded(record: Transfer, start: Tables, t: Tables, added: seq<PathRow>)
    requires Keyed(start) && Referential(start)
    requires t.transfers == start.transfers + [record.(id := start.transferSeq + 1, elements := [])]
    requires t.paths == start.paths + added && |added| == |record.elements|
    requires forall i :: 0 <= i < |added| ==>
      added[i] == PathRow(start.transferSeq + 1, record.elements[i].(id := added[i].element.id))
    ensures
      var id := start.transferSeq + 1;
      var found := Query(t, Filter(Some(record.targetId), Some(id), None), true);
      |found| == 1 && found[0].id == id && SameButIds(found[0], Corrected(record))
  {
    var id := start.transferSeq + 1;
    var row := record.(id := id, elements := []);
    SelectAppended(start.transfers, row, Filter(Some(record.targetId), Some(id), None));
    assert Ordered([row]) == [row] by { assert Ordered([]) == []; }
    NewPathsOnly(start, id, added);
  }

  /** Reading a transfer back by its id and target gives the record that was added, with its
      elements in the order in which they were added and its enumerations in range. */
  lemma AddThenGet(record: Transfer, start: Connection, outcome: Outcome)
    requires Keyed(start.tables) && Referential(start.tables)
    requires AllDone(AddTransfer(record), start, outcome)
    ensures Commits(AddTransfer(record), start, outcome)
    ensures
      var id := start.tables.transferSeq + 1;
      var found := Query(Executed(AddTransfer(record), start, outcome).tables, Filter(Some(record.targetId), Some(id), None), true);
      |found| == 1 && found[0].id == id && SameButIds(found[0], Corrected(record))
  {
    hide Perform, StepOnce, After, Keyed, Referential, Corrected, SameButIds, Query;
    var op, n := AddTransfer(record), 1 + |record.elements|;
    CommitCodes(op, start, outcome);
    AddedRows(record, n, outcome, start);
    var t := Executed(op, start, outcome).tables;
    var added := t.paths[|start.tables.paths|..];
    assert t.paths == start.tables.paths + added;
    ReadAdded(record, start.tables, t, added);
  }
}
