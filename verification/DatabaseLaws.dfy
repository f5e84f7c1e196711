/** What each operation of the history database leaves of the rows it is not about. */
module DatabaseLaws {
  import opened Database
  import opened DatabaseProperties

  /** Two tables that read alike through a filter. */
  lemma SameQuery(t: Tables, after: Tables, filter: Filter, queryPaths: bool)
    requires Select(after.transfers, filter) == Select(t.transfers, filter)
    requires forall row :: row in Select(t.transfers, filter) ==>
      PathsOf(after.paths, {row.id}) == PathsOf(t.paths, {row.id})
    ensures Query(after, filter, queryPaths) == Query(t, filter, queryPaths)
  {
    hide PathsOf, Select, Ordered;
    var rows := Ordered(Select(t.transfers, filter));
    OrderedMembers(Select(t.transfers, filter));
    forall i | 0 <= i < |rows|
      ensures ReadRow(rows[i], after, queryPaths) == ReadRow(rows[i], t, queryPaths)
    {
      assert rows[i] in rows;
    }
  }

  predicate Misses(rows: seq<Transfer>, filter: Filter, id: int) {
    forall row :: row in rows && filter.Matches(row) ==> row.id != id
  }

  /** A committed deletion takes the path rows of that id and no others, and the record with that
      id unless that step failed and was absorbed. Every query that does not match the record
      reads the same as before. */
  lemma DeletionIsExact(id: int, start: Connection, outcome: Outcome)
    requires Possible(DeleteTransfer(id), start, outcome) && Commits(DeleteTransfer(id), start, outcome)
    ensures
      var t, after := start.tables, Executed(DeleteTransfer(id), start, outcome).tables;
      && (forall row :: row in after.paths <==> row in t.paths && row.transferId != id)
      && (forall row :: row in after.transfers <==> row in t.transfers && (row.id == id ==> outcome(0) != SQLITE_DONE))
      && after.targets == t.targets && after.transferSeq == t.transferSeq && after.pathSeq == t.pathSeq
      && (forall filter, q: bool | Misses(t.transfers, filter, id) :: Query(after, filter, q) == Query(t, filter, q))
  {
    hide Perform, StepOnce, After, Query, Select, Delete, PathsOf, PathsOutside;
    var op := DeleteTransfer(id);
    CommitCodes(op, start, outcome);
    RemovedTables(op, start, outcome);
    var t, after := start.tables, Executed(op, start, outcome).tables;
    forall filter, q: bool | Misses(t.transfers, filter, id)
      ensures Query(after, filter, q) == Query(t, filter, q)
    {
      SelectAfterDelete(t.transfers, WithId(id), filter);
      forall row | row in Select(t.transfers, filter)
        ensures PathsOf(after.paths, {row.id}) == PathsOf(t.paths, {row.id})
      {
        PathsAfterDelete(t.paths, {id}, row.id);
      }
      SameQuery(t, after, filter, q);
    }
  }

  /** Committed, the clearing of the whole history leaves no record and no path row, and the
      targets as they were. */
  lemma ClearingIsExact(start: Connection, outcome: Outcome)
    requires Possible(ClearAllTransfers, start, outcome) && Commits(ClearAllTransfers, start, outcome)
    ensures Executed(ClearAllTransfers, start, outcome).tables == start.tables.(transfers := [], paths := [])
  {
    hide Perform, StepOnce, After;
    CommitCodes(ClearAllTransfers, start, outcome);
    RemovedTables(ClearAllTransfers, start, outcome);
    DeleteEverything(start.tables.transfers);
  }

  /** Committed, the removal of all targets leaves no record; the targets and the path rows go
      unless their step failed and was absorbed. */
  lemma RemovalOfAllIsExact(start: Connection, outcome: Outcome)
    requires Possible(RemoveAllTargets, start, outcome) && Commits(RemoveAllTargets, start, outcome)
    ensures Executed(RemoveAllTargets, start, outcome).tables == start.tables.(
      transfers := [],
      paths := if outcome(1) == SQLITE_DONE then [] else start.tables.paths,
      targets := if outcome(0) == SQLITE_DONE then [] else start.tables.targets)
  {
    hide Perform, StepOnce, After;
    CommitCodes(RemoveAllTargets, start, outcome);
    RemovedTables(RemoveAllTargets, start, outcome);
    DeleteEverything(start.tables.transfers);
  }

  /** A target that is updated leaves the history alone. */
  lemma UpdateTouchesTargets(target: TargetInfo, start: Connection, outcome: Outcome)
    ensures
      var after := Executed(UpdateTarget(target), start, outcome).tables;
      after == start.tables.(targets := after.targets)
  {
    var op := UpdateTarget(target);
    var statements := op.Statements(start, outcome(0));
    assert After(statements, 1, outcome, op.Done(), start)
        == StepOnce(statements[0], outcome(0), op.Done(), After(statements, 0, outcome, op.Done(), start));
  }

  lemma {:induction false} PathsBefore(earlier: seq<PathRow>, added: seq<PathRow>, id: int)
    requires forall i :: 0 <= i < |added| ==> added[i].transferId != id
    ensures PathsOf(earlier + added, {id}) == PathsOf(earlier, {id})
  {
    if earlier != [] {
      assert (earlier + added)[1..] == earlier[1..] + added;
      PathsBefore(earlier[1..], added, id);
    } else if added != [] {
      assert earlier + added == added;
      PathsBefore([], added[1..], id);
      assert [] + added[1..] == added[1..];
    }
  }

  lemma {:induction false} SelectBefore(rows: seq<Transfer>, last: Transfer, filter: Filter)
    requires !filter.Matches(last)
    ensures Select(rows + [last], filter) == Select(rows, filter)
  {
    if rows != [] {
      assert (rows + [last])[1..] == rows[1..] + [last];
      SelectBefore(rows[1..], last, filter);
    }
  }

  /** A committed addition keeps all rows and appends: the record under the next id if its step
      was done, and path rows that all belong to it, or to the last row id of the connection if
      the failure of that step was absorbed. */
  lemma AdditionAppends(record: Transfer, start: Connection, outcome: Outcome)
    requires Possible(AddTransfer(record), start, outcome) && Commits(AddTransfer(record), start, outcome)
    ensures
      var t, after := start.tables, Executed(AddTransfer(record), start, outcome).tables;
      var added := outcome(0) == SQLITE_DONE;
      && after.transfers == t.transfers + (if added then [record.(id := t.transferSeq + 1, elements := [])] else [])
      && t.paths <= after.paths && after.targets == t.targets
      && forall i :: |t.paths| <= i < |after.paths| ==>
           after.paths[i].transferId == if added then t.transferSeq + 1 else start.lastRowid
  {
    var op, n := AddTransfer(record), 1 + |record.elements|;
    AddedPaths(record, n, outcome, start);
    var first := After(op.Statements(start, outcome(0)), 1, outcome, SQLITE_DONE, start).connection;
    assert first == if outcome(0) == SQLITE_DONE then Perform(InsertTransfer(record), start) else start;
  }

  /** Queries that do not match an added record read the same as before. */
  lemma AdditionUnseen(record: Transfer, start: Connection, outcome: Outcome, filter: Filter, queryPaths: bool)
    requires Keyed(start.tables)
    requires Possible(AddTransfer(record), start, outcome) && Commits(AddTransfer(record), start, outcome)
    requires outcome(0) == SQLITE_DONE && !filter.Matches(record.(id := start.tables.transferSeq + 1, elements := []))
    ensures Query(Executed(AddTransfer(record), start, outcome).tables, filter, queryPaths)
         == Query(start.tables, filter, queryPaths)
  {
    hide Executed, Commits, Possible, Query, PathsOf, Select;
    AdditionAppends(record, start, outcome);
    var t, after := start.tables, Executed(AddTransfer(record), start, outcome).tables;
    SelectBefore(t.transfers, record.(id := t.transferSeq + 1, elements := []), filter);
    var added := after.paths[|t.paths|..];
    assert after.paths == t.paths + added;
    forall row | row in Select(t.transfers, filter)
      ensures PathsOf(after.paths, {row.id}) == PathsOf(t.paths, {row.id})
    {
      PathsBefore(t.paths, added, row.id);
    }
    SameQuery(t, after, filter, queryPaths);
  }
}
