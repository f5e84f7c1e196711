/** The history database (`DatabaseManager`): three tables, transactions, and the bit-level
    accumulation of SQLite result codes that decides between COMMIT and ROLLBACK. */
module Database {
  import opened Options
  import opened TimeBuckets

  type Code = bv32
  const SQLITE_OK: Code := 0
  const SQLITE_ERROR: Code := 1
  const SQLITE_DONE: Code := 101

  const TRANSFER_TYPE_UNKNOWN := 6
  const STATUS_UNKNOWN := 3
  const FILE := 0
  const FOLDER := 1
  const ELEMENT_TYPE_UNKNOWN := 2

  datatype TransferElement = TransferElement(
    id: int, elementName: string, elementType: int, relativePath: string, absolutePath: string)

  /** A history record; rows of the `transfers` table are records without elements. */
  datatype Transfer = Transfer(
    id: int, targetId: string, singleElementName: string, transferType: int, transferTimestamp: int,
    fileCount: int, folderCount: int, totalSizeBytes: int, outgoing: bool, status: int,
    elements: seq<TransferElement>)

  datatype PathRow = PathRow(transferId: int, element: TransferElement)

  datatype TargetInfo = TargetInfo(targetId: string, fullName: string, hostname: string, ip: string, os: string)

  /** The row ids of `targets` are the database's own; a new row gets the next after the largest. */
  datatype TargetRow = TargetRow(rowid: int, info: TargetInfo)

  /** The tables in row order. `AUTOINCREMENT` keeps the largest ids ever used. */
  datatype Tables = Tables(
    transfers: seq<Transfer>, paths: seq<PathRow>, targets: seq<TargetRow>,
    transferSeq: int, pathSeq: int)

  /** The rows a WHERE clause selects. */
  datatype Filter = Filter(target: Option<string>, id: Option<int>, time: Option<Condition>) {
    predicate Matches(row: Transfer) {
      && (target.Some? ==> row.targetId == target.value)
      && (id.Some? ==> row.id == id.value)
      && (time.Some? ==> time.value.Holds(row.transferTimestamp))
    }
  }

  const ALL := Filter(None, None, None)

  function OfTarget(targetId: string): Filter {
    Filter(Some(targetId), None, None)
  }

  function WithId(id: int): Filter {
    Filter(None, Some(id), None)
  }

  function Select(rows: seq<Transfer>, filter: Filter): (result: seq<Transfer>)
    ensures forall row :: row in result <==> row in rows && filter.Matches(row)
  {
    if rows == [] then []
    else if filter.Matches(rows[0]) then [rows[0]] + Select(rows[1..], filter)
    else Select(rows[1..], filter)
  }

  function Delete(rows: seq<Transfer>, filter: Filter): (result: seq<Transfer>)
    ensures forall row :: row in result <==> row in rows && !filter.Matches(row)
  {
    if rows == [] then []
    else if filter.Matches(rows[0]) then Delete(rows[1..], filter)
    else [rows[0]] + Delete(rows[1..], filter)
  }

  function Ids(rows: seq<Transfer>): set<int> {
    set row | row in rows :: row.id
  }

  function PathsOf(rows: seq<PathRow>, ids: set<int>): (result: seq<PathRow>)
    ensures forall row :: row in result <==> row in rows && row.transferId in ids
  {
    if rows == [] then []
    else if rows[0].transferId in ids then [rows[0]] + PathsOf(rows[1..], ids)
    else PathsOf(rows[1..], ids)
  }

  function PathsOutside(rows: seq<PathRow>, ids: set<int>): (result: seq<PathRow>)
    ensures forall row :: row in result <==> row in rows && row.transferId !in ids
  {
    if rows == [] then []
    else if rows[0].transferId in ids then PathsOutside(rows[1..], ids)
    else [rows[0]] + PathsOutside(rows[1..], ids)
  }

  function WithoutTarget(rows: seq<TargetRow>, targetId: string): (kept: seq<TargetRow>)
    ensures forall row :: row in kept <==> row in rows && row.info.targetId != targetId
  {
    if rows == [] then []
    else if rows[0].info.targetId == targetId then WithoutTarget(rows[1..], targetId)
    else [rows[0]] + WithoutTarget(rows[1..], targetId)
  }

  // ----- statements --------------------------------------------------------------------

  datatype Statement =
    | InsertTransfer(record: Transfer)
    | InsertPath(transferId: int, element: TransferElement)
    | DeleteTransfers(filter: Filter)
    | DeletePathsOfTransfer(id: int)
    | DeletePathsOfTarget(targetId: string)
    | DeleteAllPaths
    | ReplaceTarget(target: TargetInfo)
    | DeleteTarget(targetId: string)
    | DeleteAllTargets

  /** A connection remembers the row id of its last successful insertion into any table. */
  datatype Connection = Connection(tables: Tables, lastRowid: int)

  /** The effect of a statement that succeeds. */
  function Perform(statement: Statement, c: Connection): Connection {
    var t := c.tables;
    match statement
    case InsertTransfer(record) =>
      var id := t.transferSeq + 1;
      Connection(t.(transfers := t.transfers + [record.(id := id, elements := [])], transferSeq := id), id)
    case InsertPath(transferId, element) =>
      var id := t.pathSeq + 1;
      Connection(t.(paths := t.paths + [PathRow(transferId, element.(id := id))], pathSeq := id), id)
    case DeleteTransfers(filter) =>
      c.(tables := t.(transfers := Delete(t.transfers, filter)))
    case DeletePathsOfTransfer(id) =>
      c.(tables := t.(paths := PathsOutside(t.paths, {id})))
    case DeletePathsOfTarget(targetId) =>
      c.(tables := t.(paths := PathsOutside(t.paths, Ids(Select(t.transfers, OfTarget(targetId))))))
    case DeleteAllPaths =>
      c.(tables := t.(paths := []))
    case ReplaceTarget(target) =>
      var id := if t.targets == [] then 1 else t.targets[|t.targets| - 1].rowid + 1;
      Connection(t.(targets := WithoutTarget(t.targets, target.targetId) + [TargetRow(id, target)]), id)
    case DeleteTarget(targetId) =>
      c.(tables := t.(targets := WithoutTarget(t.targets, targetId)))
    case DeleteAllTargets =>
      c.(tables := t.(targets := []))
  }

  /** `FIX_RESULTS`: 101 counts as no error. */
  function FixResults(results: Code): Code {
    if results == SQLITE_DONE then SQLITE_OK else results
  }

  /** The outcome of the environment for the n-th statement of a transaction. */
  type Outcome = nat -> Code

  /** A transaction under way. */
  datatype Run = Run(connection: Connection, results: Code)

  /** One statement: it takes effect if its code is `done`, and its code joins the others. */
  function StepOnce(statement: Statement, code: Code, done: Code, run: Run): Run {
    Run(
      if code == done then Perform(statement, run.connection) else run.connection,
      FixResults(run.results | code))
  }

  function After(statements: seq<Statement>, n: nat, outcome: Outcome, done: Code, start: Connection): Run
    requires n <= |statements|
  {
    if n == 0 then Run(start, SQLITE_OK)
    else StepOnce(statements[n - 1], outcome(n - 1), done, After(statements, n - 1, outcome, done, start))
  }

  // ----- operations --------------------------------------------------------------------

  datatype Operation =
    | AddTransfer(record: Transfer)
    | ClearAllTransfers
    | ClearAllTransfersForRemote(targetId: string)
    | DeleteTransfer(id: int)
    | UpdateTarget(target: TargetInfo)
    | RemoveTarget(targetId: string)
    | RemoveAllTargets
  {
    /** The code that means success: `sqlite3_exec` answers 0, `sqlite3_step` 101. */
    function Done(): Code {
      if ClearAllTransfers? then SQLITE_OK else SQLITE_DONE
    }

    /** The statements of the transaction. The paths of a new transfer refer to whatever row
        id the connection reports after the first statement. */
    function Statements(start: Connection, first: Code): seq<Statement> {
      match this
      case AddTransfer(record) =>
        var transferId := StepOnce(InsertTransfer(record), first, SQLITE_DONE, Run(start, SQLITE_OK)).connection.lastRowid;
        [InsertTransfer(record)] + PathInsertions(transferId, record.elements)
      case ClearAllTransfers => [DeleteTransfers(ALL), DeleteAllPaths]
      case ClearAllTransfersForRemote(targetId) =>
        [DeletePathsOfTarget(targetId), DeleteTransfers(OfTarget(targetId))]
      case DeleteTransfer(id) => [DeleteTransfers(WithId(id)), DeletePathsOfTransfer(id)]
      case UpdateTarget(target) => [ReplaceTarget(target)]
      case RemoveTarget(targetId) =>
        [DeleteTarget(targetId), DeletePathsOfTarget(targetId), DeleteTransfers(OfTarget(targetId))]
      case RemoveAllTargets => [DeleteAllTargets, DeleteAllPaths, DeleteTransfers(ALL)]
    }
  }

  function PathInsertions(transferId: int, elements: seq<TransferElement>): seq<Statement> {
    seq(|elements|, i requires 0 <= i < |elements| => InsertPath(transferId, elements[i]))
  }

  /** The whole transaction, before its end is decided. */
  function Transaction(op: Operation, start: Connection, outcome: Outcome): Run {
    var statements := op.Statements(start, outcome(0));
    After(statements, |statements|, outcome, op.Done(), start)
  }

  predicate Commits(op: Operation, start: Connection, outcome: Outcome) {
    Transaction(op, start, outcome).results == SQLITE_OK
  }

  /** What an operation leaves behind: a rollback restores the tables. */
  function Executed(op: Operation, start: Connection, outcome: Outcome): Connection {
    var run := Transaction(op, start, outcome);
    if run.results == SQLITE_OK then run.connection else run.connection.(tables := start.tables)
  }

  // ----- queries -----------------------------------------------------------------------

  /** `fixEnum`: values outside the enumeration become its last member. */
  function FixEnum(value: int, unknown: int): int {
    if value < 0 || value > unknown then unknown else value
  }

  function Insert(row: Transfer, rows: seq<Transfer>): seq<Transfer> {
    if rows == [] || rows[0].transferTimestamp <= row.transferTimestamp then [row] + rows
    else [rows[0]] + Insert(row, rows[1..])
  }

  /** `ORDER BY transfer_timestamp DESC`. */
  function Ordered(rows: seq<Transfer>): seq<Transfer> {
    if rows == [] then [] else Insert(rows[0], Ordered(rows[1..]))
  }

  function ReadElements(rows: seq<PathRow>): (elements: seq<TransferElement>)
    ensures |elements| == |rows|
    ensures forall i :: 0 <= i < |rows| ==>
      elements[i] == rows[i].element.(elementType := FixEnum(rows[i].element.elementType, ELEMENT_TYPE_UNKNOWN))
  {
    seq(|rows|, i requires 0 <= i < |rows| =>
      rows[i].element.(elementType := FixEnum(rows[i].element.elementType, ELEMENT_TYPE_UNKNOWN)))
  }

  function ReadRow(row: Transfer, tables: Tables, queryPaths: bool): Transfer {
    row.(
      transferType := FixEnum(row.transferType, TRANSFER_TYPE_UNKNOWN),
      status := FixEnum(row.status, STATUS_UNKNOWN),
      elements := if queryPaths then ReadElements(PathsOf(tables.paths, {row.id})) else [])
  }

  function ReadRows(rows: seq<Transfer>, tables: Tables, queryPaths: bool): seq<Transfer> {
    seq(|rows|, i requires 0 <= i < |rows| => ReadRow(rows[i], tables, queryPaths))
  }

  function Query(tables: Tables, filter: Filter, queryPaths: bool): seq<Transfer> {
    ReadRows(Ordered(Select(tables.transfers, filter)), tables, queryPaths)
  }

  // ----- the class ---------------------------------------------------------------------

  class DatabaseManager {
    var connection: Connection
    var snapshot: Tables
    var isOpen: bool

    constructor (connection: Connection, isOpen: bool)
      ensures this.connection == connection && this.isOpen == isOpen
    {
      this.connection := connection;
      this.snapshot := connection.tables;
      this.isOpen := isOpen;
    }

    method BeginTransaction()
      modifies this`snapshot
      ensures snapshot == connection.tables
    {
      snapshot := connection.tables;
    }

    method EndTransaction(results: Code) returns (ok: bool)
      modifies this`connection
      ensures ok == (results == SQLITE_OK)
      ensures connection == if ok then old(connection) else old(connection).(tables := snapshot)
    {
      if results == SQLITE_OK {
        return true;
      } else {
        connection := connection.(tables := snapshot);
        return false;
      }
    }

    /** `sqlite3_step` or `sqlite3_exec`: the environment chooses the code. */
    method Step(statement: Statement, code: Code, done: Code) returns (result: Code)
      modifies this`connection
      ensures result == code
      ensures connection == if code == done then Perform(statement, old(connection)) else old(connection)
    {
      if code == done {
        connection := Perform(statement, connection);
      }
      result := code;
    }

    /** `results |= sqlite3_step( ... ); FIX_RESULTS( results );` as step n of a transaction. */
    method Accumulate(statement: Statement, code: Code, done: Code, results: Code,
                      ghost statements: seq<Statement>, ghost n: nat, ghost outcome: Outcome, ghost start: Connection)
      returns (updated: Code)
      requires n < |statements| && statements[n] == statement && outcome(n) == code
      requires Run(connection, results) == After(statements, n, outcome, done, start)
      modifies this`connection
      ensures Run(connection, updated) == After(statements, n + 1, outcome, done, start)
    {
      hide Perform, FixResults;
      var result := Step(statement, code, done);
      updated := FixResults(results | result);
    }

    method AddTransfer(record: Transfer, outcome: Outcome) returns (ok: bool)
      modifies this
      ensures isOpen == old(isOpen)
      ensures !isOpen ==> !ok && connection == old(connection)
      ensures isOpen ==> ok == Commits(Operation.AddTransfer(record), old(connection), outcome)
      ensures isOpen ==> connection == Executed(Operation.AddTransfer(record), old(connection), outcome)
    {
      hide Perform, FixResults, StepOnce;
      ghost var start := connection;
      if !isOpen {
        return false;
      }
      ghost var statements := Operation.AddTransfer(record).Statements(start, outcome(0));
      var results: Code := 0;
      BeginTransaction();
      results := Accumulate(InsertTransfer(record), outcome(0), SQLITE_DONE, results, statements, 0, outcome, start);
      var transferId := connection.lastRowid;
      for i := 0 to |record.elements|
        invariant isOpen == old(isOpen) && snapshot == start.tables
        invariant Run(connection, results) == After(statements, i + 1, outcome, SQLITE_DONE, start)
      {
        results := Accumulate(InsertPath(transferId, record.elements[i]), outcome(i + 1), SQLITE_DONE, results, statements, i + 1, outcome, start);
      }
      ok := EndTransaction(results);
    }

    method ClearAllTransfers(outcome: Outcome) returns (ok: bool)
      modifies this
      ensures isOpen == old(isOpen)
      ensures !isOpen ==> !ok && connection == old(connection)
      ensures isOpen ==> ok == Commits(Operation.ClearAllTransfers, old(connection), outcome)
      ensures isOpen ==> connection == Executed(Operation.ClearAllTransfers, old(connection), outcome)
    {
      hide Perform, FixResults, StepOnce;
      ghost var start := connection;
      if !isOpen {
        return false;
      }
      var results: Code := 0;
      BeginTransaction();
      ghost var statements := Operation.ClearAllTransfers.Statements(start, outcome(0));
      results := Accumulate(DeleteTransfers(ALL), outcome(0), SQLITE_OK, results, statements, 0, outcome, start);
      results := Accumulate(DeleteAllPaths, outcome(1), SQLITE_OK, results, statements, 1, outcome, start);
      ok := EndTransaction(results);
    }

    method ClearAllTransfersForRemote(remoteId: string, outcome: Outcome) returns (ok: bool)
      modifies this
      ensures isOpen == old(isOpen)
      ensures !isOpen ==> !ok && connection == old(connection)
      ensures isOpen ==> ok == Commits(Operation.ClearAllTransfersForRemote(remoteId), old(connection), outcome)
      ensures isOpen ==> connection == Executed(Operation.ClearAllTransfersForRemote(remoteId), old(connection), outcome)
    {
      hide Perform, FixResults, StepOnce;
      ghost var start := connection;
      if !isOpen {
        return false;
      }
      var results: Code := 0;
      BeginTransaction();
      ghost var statements := Operation.ClearAllTransfersForRemote(remoteId).Statements(start, outcome(0));
      results := Accumulate(DeletePathsOfTarget(remoteId), outcome(0), SQLITE_DONE, results, statements, 0, outcome, start);
      results := Accumulate(DeleteTransfers(OfTarget(remoteId)), outcome(1), SQLITE_DONE, results, statements, 1, outcome, start);
      ok := EndTransaction(results);
    }

    method DeleteTransfer(id: int, outcome: Outcome) returns (ok: bool)
      modifies this
      ensures isOpen == old(isOpen)
      ensures !isOpen ==> !ok && connection == old(connection)
      ensures isOpen ==> ok == Commits(Operation.DeleteTransfer(id), old(connection), outcome)
      ensures isOpen ==> connection == Executed(Operation.DeleteTransfer(id), old(connection), outcome)
    {
      hide Perform, FixResults, StepOnce;
      ghost var start := connection;
      if !isOpen {
        return false;
      }
      var results: Code := 0;
      BeginTransaction();
      ghost var statements := Operation.DeleteTransfer(id).Statements(start, outcome(0));
      results := Accumulate(DeleteTransfers(WithId(id)), outcome(0), SQLITE_DONE, results, statements, 0, outcome, start);
      results := Accumulate(DeletePathsOfTransfer(id), outcome(1), SQLITE_DONE, results, statements, 1, outcome, start);
      ok := EndTransaction(results);
    }

    method UpdateTarget(target: TargetInfo, outcome: Outcome) returns (ok: bool)
      modifies this
      ensures isOpen == old(isOpen)
      ensures !isOpen ==> !ok && connection == old(connection)
      ensures isOpen ==> ok == Commits(Operation.UpdateTarget(target), old(connection), outcome)
      ensures isOpen ==> connection == Executed(Operation.UpdateTarget(target), old(connection), outcome)
    {
      hide Perform, FixResults, StepOnce;
      ghost var start := connection;
      if !isOpen {
        return false;
      }
      var results: Code := 0;
      BeginTransaction();
      ghost var statements := Operation.UpdateTarget(target).Statements(start, outcome(0));
      results := Accumulate(ReplaceTarget(target), outcome(0), SQLITE_DONE, results, statements, 0, outcome, start);
      ok := EndTransaction(results);
    }

    /** The removals do not look at `isOpen`. */
    method RemoveTarget(targetId: string, outcome: Outcome) returns (ok: bool)
      modifies this
      ensures isOpen == old(isOpen)
      ensures ok == Commits(Operation.RemoveTarget(targetId), old(connection), outcome)
      ensures connection == Executed(Operation.RemoveTarget(targetId), old(connection), outcome)
    {
      hide Perform, FixResults, StepOnce;
      ghost var start := connection;
      var results: Code := 0;
      BeginTransaction();
      ghost var statements := Operation.RemoveTarget(targetId).Statements(start, outcome(0));
      results := Accumulate(DeleteTarget(targetId), outcome(0), SQLITE_DONE, results, statements, 0, outcome, start);
      results := Accumulate(DeletePathsOfTarget(targetId), outcome(1), SQLITE_DONE, results, statements, 1, outcome, start);
      results := Accumulate(DeleteTransfers(OfTarget(targetId)), outcome(2), SQLITE_DONE, results, statements, 2, outcome, start);
      ok := EndTransaction(results);
    }

    method RemoveAllTargets(outcome: Outcome) returns (ok: bool)
      modifies this
      ensures isOpen == old(isOpen)
      ensures ok == Commits(Operation.RemoveAllTargets, old(connection), outcome)
      ensures connection == Executed(Operation.RemoveAllTargets, old(connection), outcome)
    {
      hide Perform, FixResults, StepOnce;
      ghost var start := connection;
      var results: Code := 0;
      BeginTransaction();
      ghost var statements := Operation.RemoveAllTargets.Statements(start, outcome(0));
      results := Accumulate(DeleteAllTargets, outcome(0), SQLITE_DONE, results, statements, 0, outcome, start);
      results := Accumulate(DeleteAllPaths, outcome(1), SQLITE_DONE, results, statements, 1, outcome, start);
      results := Accumulate(DeleteTransfers(ALL), outcome(2), SQLITE_DONE, results, statements, 2, outcome, start);
      ok := EndTransaction(results);
    }

    method QueryTransferPaths(record: Transfer) returns (filled: Transfer)
      ensures filled == record.(elements := record.elements + ReadElements(PathsOf(connection.tables.paths, {record.id})))
    {
      filled := record;
      var rows := PathsOf(connection.tables.paths, {record.id});
      for i := 0 to |rows|
        invariant filled == record.(elements := record.elements + ReadElements(rows[..i]))
      {
        var element := rows[i].element;
        element := element.(elementType := FixEnum(element.elementType, ELEMENT_TYPE_UNKNOWN));
        filled := filled.(elements := filled.elements + [element]);
      }
      assert rows[..|rows|] == rows;
    }

    method QueryTransfers(queryPaths: bool, targetId: string, filter: Filter) returns (records: seq<Transfer>)
      ensures records ==
        if isOpen then Query(connection.tables, filter.(target := Some(targetId)), queryPaths) else []
    {
      if !isOpen {
        return [];
      }
      records := [];
      var rows := Ordered(Select(connection.tables.transfers, filter.(target := Some(targetId))));
      for i := 0 to |rows|
        invariant records == ReadRows(rows[..i], connection.tables, queryPaths)
      {
        var record := rows[i].(elements := []);
        record := record.(
          transferType := FixEnum(record.transferType, TRANSFER_TYPE_UNKNOWN),
          status := FixEnum(record.status, STATUS_UNKNOWN));
        if queryPaths {
          record := QueryTransferPaths(record);
        }
        assert record == ReadRow(rows[i], connection.tables, queryPaths);
        assert rows[..i + 1] == rows[..i] + [rows[i]];
        records := records + [record];
      }
      assert rows[..|rows|] == rows;
    }

    /** `None` stands for the placeholder record with id -1. */
    method GetTransfer(id: int, targetId: string, queryPaths: bool) returns (found: Option<Transfer>)
      ensures
        var result := if isOpen then Query(connection.tables, Filter(Some(targetId), Some(id), None), queryPaths) else [];
        found == if result == [] then None else Some(result[0])
    {
      var result := QueryTransfers(queryPaths, targetId, WithId(id));
      if result == [] {
        return None;
      }
      found := Some(result[0]);
    }
  }
}
