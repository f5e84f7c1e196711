/** What the history page shows, and exactly when it is what the database holds. */
module HistoryProperties {
  import opened TimeBuckets
  import opened Database
  import opened DatabaseProperties
  import opened TransferHistory

  // ----- one group after an update -----------------------------------------------------

  predicate StrictlyDescending(rows: seq<Transfer>) {
    forall i, j :: 0 <= i < j < |rows| ==> rows[i].transferTimestamp > rows[j].transferTimestamp
  }

  /** Rows of the two lists have the same id exactly when they have the same timestamp. */
  predicate Agree(a: seq<Transfer>, b: seq<Transfer>) {
    forall i, j :: 0 <= i < |a| && 0 <= j < |b| ==>
      (a[i].id == b[j].id <==> a[i].transferTimestamp == b[j].transferTimestamp)
  }

  function OlderThan(rows: seq<Transfer>, timestamp: int): (older: seq<Transfer>)
    ensures forall row :: row in older <==> row in rows && row.transferTimestamp < timestamp
  {
    if rows == [] then []
    else if rows[0].transferTimestamp < timestamp then [rows[0]] + OlderThan(rows[1..], timestamp)
    else OlderThan(rows[1..], timestamp)
  }

  lemma {:induction false} AllOlder(rows: seq<Transfer>, timestamp: int)
    requires forall i :: 0 <= i < |rows| ==> rows[i].transferTimestamp < timestamp
    ensures OlderThan(rows, timestamp) == rows
  {
    if rows != [] {
      AllOlder(rows[1..], timestamp);
    }
  }

  /** With distinct timestamps, exactly the shown entries older than the oldest record stay. */
  lemma {:induction false} StaleEntries(records: seq<Transfer>, shown: seq<Transfer>)
    requires records != [] && StrictlyDescending(records) && StrictlyDescending(shown) && Agree(records, shown)
    ensures Stale(records, shown) == OlderThan(shown, records[|records| - 1].transferTimestamp)
    decreases |records| + |shown|
  {
    var last := records[|records| - 1].transferTimestamp;
    if shown == [] {
    } else if shown[0].id == records[0].id {
      if |records| == 1 {
        AllOlder(shown[1..], last);
      } else {
        StaleEntries(records[1..], shown[1..]);
      }
    } else if shown[0].transferTimestamp <= records[0].transferTimestamp {
      if |records| == 1 {
        AllOlder(shown, last);
      } else {
        StaleEntries(records[1..], shown);
      }
    } else {
      StaleEntries(records, shown[1..]);
    }
  }

  /** Deleting the oldest record of a group leaves it on the page. */
  lemma DeletedOldestStays(newer: Transfer, oldest: Transfer)
    requires newer.id != oldest.id && newer.transferTimestamp > oldest.transferTimestamp
    ensures Displayed([newer], [newer, oldest]) == [newer, oldest]
  {
    assert Stale([newer], [newer, oldest]) == Stale([], [oldest]);
  }

  /** With equal timestamps, deleting one record shows the other twice. */
  lemma EqualTimestampsDuplicate(first: Transfer, second: Transfer)
    requires first.id != second.id && first.transferTimestamp == second.transferTimestamp
    ensures Displayed([second], [first, second]) == [second, first, second]
  {
    assert Stale([second], [first, second]) == Stale([], [first, second]);
  }

  /** The ids of `shown` appear among those of `records`, in the same order. */
  predicate Survive(shown: seq<Transfer>, records: seq<Transfer>) {
    shown == [] ||
    (records != [] &&
      if shown[0].id == records[0].id then Survive(shown[1..], records[1..]) else Survive(shown, records[1..]))
  }

  lemma {:induction false} FirstSurvives(shown: seq<Transfer>, records: seq<Transfer>)
    requires Survive(shown, records) && shown != []
    ensures exists i :: 0 <= i < |records| && records[i].id == shown[0].id
  {
    if shown[0].id != records[0].id {
      FirstSurvives(shown, records[1..]);
      var i :| 0 <= i < |records[1..]| && records[1..][i].id == shown[0].id;
      assert records[i + 1].id == shown[0].id;
    } else {
      assert records[0].id == shown[0].id;
    }
  }

  /** If nothing shown was deleted, the group shows exactly its records, ties or not. */
  lemma {:induction false} NothingDeleted(records: seq<Transfer>, shown: seq<Transfer>)
    requires Descending(records) && Survive(shown, records)
    requires forall i, j :: 0 <= i < |records| && 0 <= j < |shown| && records[i].id == shown[j].id ==>
      records[i].transferTimestamp == shown[j].transferTimestamp
    ensures Displayed(records, shown) == records
    decreases |records|
  {
    if records != [] && shown != [] {
      if shown[0].id == records[0].id {
        NothingDeleted(records[1..], shown[1..]);
      } else {
        FirstSurvives(shown, records);
        NothingDeleted(records[1..], shown);
      }
    }
  }

  function At(rows: seq<Transfer>, timestamp: int): (at: seq<Transfer>)
    ensures forall row :: row in at <==> row in rows && row.transferTimestamp == timestamp
  {
    if rows == [] then []
    else if rows[0].transferTimestamp == timestamp then [rows[0]] + At(rows[1..], timestamp)
    else At(rows[1..], timestamp)
  }

  lemma {:induction false} AllAt(rows: seq<Transfer>, timestamp: int)
    requires forall i :: 0 <= i < |rows| ==> rows[i].transferTimestamp == timestamp
    ensures At(rows, timestamp) == rows
  {
    if rows != [] {
      AllAt(rows[1..], timestamp);
    }
  }

  /** Nothing shown is older than the oldest record, and what is shown of the same second
      survives. */
  predicate Reached(records: seq<Transfer>, shown: seq<Transfer>)
    requires records != []
  {
    var last := records[|records| - 1].transferTimestamp;
    && (forall i :: 0 <= i < |shown| ==> shown[i].transferTimestamp >= last)
    && Survive(At(shown, last), At(records, last))
  }

  /** A transfer never changes its time. */
  predicate SameTimes(a: seq<Transfer>, b: seq<Transfer>) {
    forall i, j :: 0 <= i < |a| && 0 <= j < |b| && a[i].id == b[j].id ==> a[i].transferTimestamp == b[j].transferTimestamp
  }

  lemma SurviveOne(shown: seq<Transfer>, record: Transfer)
    requires shown != []
    ensures Survive(shown, [record]) <==> |shown| == 1 && shown[0].id == record.id
  {
    assert [record][1..] == [];
  }

  lemma LastRecord(record: Transfer, shown: seq<Transfer>)
    requires Descending(shown) && SameTimes([record], shown) && shown != []
    requires shown[0].transferTimestamp <= record.transferTimestamp
    ensures Reached([record], shown) <==> |shown| == 1 && shown[0].id == record.id
  {
    hide Survive;
    var last := record.transferTimestamp;
    AllAt([record], last);
    SurviveOne(shown, record);
    if forall i :: 0 <= i < |shown| ==> shown[i].transferTimestamp >= last {
      AllAt(shown, last);
    } else if |shown| == 1 {
      assert shown[0].transferTimestamp < last;
      assert [record][0].id != shown[0].id;
    }
  }

  lemma NextRecord(records: seq<Transfer>, shown: seq<Transfer>)
    requires |records| > 1 && Descending(records) && Descending(shown) && SameTimes(records, shown) && shown != []
    requires shown[0].transferTimestamp <= records[0].transferTimestamp
    ensures Reached(records, shown) <==>
      Reached(records[1..], if shown[0].id == records[0].id then shown[1..] else shown)
  {
    var last := records[|records| - 1].transferTimestamp;
    assert records[1..][|records| - 2].transferTimestamp == last;
    if shown[0].id == records[0].id {
      var rest := shown[1..];
      assert forall i :: 0 <= i < |rest| ==> rest[i] == shown[i + 1];
      assert (forall i :: 0 <= i < |shown| ==> shown[i].transferTimestamp >= last) <==>
        forall i :: 0 <= i < |rest| ==> rest[i].transferTimestamp >= last;
    }
  }

  lemma NewerShown(records: seq<Transfer>, shown: seq<Transfer>)
    requires records != [] && Descending(records) && shown != []
    requires shown[0].transferTimestamp > records[0].transferTimestamp
    ensures Reached(records, shown) <==> Reached(records, shown[1..])
  {
    var last, rest := records[|records| - 1].transferTimestamp, shown[1..];
    assert forall i :: 0 <= i < |rest| ==> rest[i] == shown[i + 1];
    assert (forall i :: 0 <= i < |shown| ==> shown[i].transferTimestamp >= last) <==>
      forall i :: 0 <= i < |rest| ==> rest[i].transferTimestamp >= last;
  }

  lemma {:induction false} StaleExactly(records: seq<Transfer>, shown: seq<Transfer>)
    requires records != [] && Descending(records) && Descending(shown) && SameTimes(records, shown)
    ensures Stale(records, shown) == [] <==> Reached(records, shown)
    decreases |records| + |shown|
  {
    hide Reached;
    if shown == [] {
      NothingShown(records);
    } else if shown[0].id == records[0].id || shown[0].transferTimestamp <= records[0].transferTimestamp {
      if |records| == 1 {
        assert records == [records[0]];
        LastRecord(records[0], shown);
      } else {
        NextRecord(records, shown);
        StaleExactly(records[1..], if shown[0].id == records[0].id then shown[1..] else shown);
      }
    } else {
      NewerShown(records, shown);
      StaleExactly(records, shown[1..]);
    }
  }

  lemma NothingShown(records: seq<Transfer>)
    requires records != []
    ensures Reached(records, [])
  {
  }

  /** Exactly when a group shows its records after an update, whether or not transfers share a
      second: there are none, or no row shown before is older than the oldest record and those
      of its second were not deleted or reordered. */
  lemma ShowsRecordsExactly(records: seq<Transfer>, shown: seq<Transfer>)
    requires Descending(records) && Descending(shown) && SameTimes(records, shown)
    ensures Displayed(records, shown) == records <==> records == [] || Reached(records, shown)
  {
    hide Reached;
    if records != [] {
      StaleExactly(records, shown);
      assert Displayed(records, shown)[|records|..] == Stale(records, shown);
    }
  }

  // ----- the ten queries together ------------------------------------------------------

  /** The rows behind the records of group i. */
  function GroupRows(tables: Tables, targetId: string, i: nat, time: int, tz: int): seq<Transfer>
    requires i < |TIME_SPECS|
  {
    Ordered(Select(tables.transfers, GroupFilter(targetId, TIME_SPECS[i], time, tz)))
  }

  /** The rows of the first n groups, from the top of the page down. */
  function RowsOfGroups(tables: Tables, targetId: string, n: nat, time: int, tz: int): seq<Transfer>
    requires n <= |TIME_SPECS|
  {
    if n == 0 then []
    else RowsOfGroups(tables, targetId, n - 1, time, tz) + GroupRows(tables, targetId, n - 1, time, tz)
  }

  lemma {:induction false} SelectCount(rows: seq<Transfer>, filter: Filter, row: Transfer)
    ensures multiset(Select(rows, filter))[row] == if filter.Matches(row) then multiset(rows)[row] else 0
  {
    if rows != [] {
      SelectCount(rows[1..], filter, row);
      assert rows == [rows[0]] + rows[1..];
    }
  }

  lemma GroupMatches(targetId: string, i: nat, time: int, tz: int, row: Transfer)
    requires i < |TIME_SPECS|
    ensures GroupFilter(targetId, TIME_SPECS[i], time, tz).Matches(row)
       <==> row.targetId == targetId && BucketOf(time, row.transferTimestamp, tz).Index() == i
  {
    hide ConditionOf, BoundariesOf, BucketOf;
    ConditionMeansBucket(TIME_SPECS[i], time, row.transferTimestamp, tz);
  }

  lemma GroupCount(tables: Tables, targetId: string, i: nat, time: int, tz: int, row: Transfer)
    requires i < |TIME_SPECS|
    ensures multiset(GroupRows(tables, targetId, i, time, tz))[row] ==
      if row.targetId == targetId && BucketOf(time, row.transferTimestamp, tz).Index() == i
      then multiset(tables.transfers)[row] else 0
  {
    hide ConditionOf, BoundariesOf, BucketOf, Ordered;
    var filter := GroupFilter(targetId, TIME_SPECS[i], time, tz);
    OrderedIsSorted(Select(tables.transfers, filter));
    SelectCount(tables.transfers, filter, row);
    GroupMatches(targetId, i, time, tz, row);
  }

  /** A row of the target appears in the first n groups as often as it is stored if its bucket
      is among them, and not at all otherwise. */
  lemma {:induction false} RowsOfGroupsCount(tables: Tables, targetId: string, n: nat, time: int, tz: int, row: Transfer)
    requires n <= |TIME_SPECS|
    ensures multiset(RowsOfGroups(tables, targetId, n, time, tz))[row] ==
      if row.targetId == targetId && BucketOf(time, row.transferTimestamp, tz).Index() < n
      then multiset(tables.transfers)[row] else 0
  {
    hide GroupRows, BucketOf;
    if n > 0 {
      RowsOfGroupsCount(tables, targetId, n - 1, time, tz, row);
      GroupCount(tables, targetId, n - 1, time, tz, row);
    }
  }

  lemma HigherGroupIsNewer(tables: Tables, targetId: string, n: nat, time: int, tz: int, upper: Transfer, lower: Transfer)
    requires n < |TIME_SPECS|
    requires upper in RowsOfGroups(tables, targetId, n, time, tz) && lower in GroupRows(tables, targetId, n, time, tz)
    ensures upper.transferTimestamp >= lower.transferTimestamp
  {
    hide BucketOf, RowsOfGroups, GroupRows;
    assert upper in multiset(RowsOfGroups(tables, targetId, n, time, tz));
    assert lower in multiset(GroupRows(tables, targetId, n, time, tz));
    RowsOfGroupsCount(tables, targetId, n, time, tz, upper);
    GroupCount(tables, targetId, n, time, tz, lower);
    if upper.transferTimestamp < lower.transferTimestamp {
      BucketsMonotone(time, upper.transferTimestamp, lower.transferTimestamp, tz);
    }
  }

  lemma DescendingJoin(a: seq<Transfer>, b: seq<Transfer>)
    requires Descending(a) && Descending(b)
    requires forall x, y :: x in a && y in b ==> x.transferTimestamp >= y.transferTimestamp
    ensures Descending(a + b)
  {
  }

  lemma {:induction false} RowsOfGroupsDescend(tables: Tables, targetId: string, n: nat, time: int, tz: int)
    requires n <= |TIME_SPECS|
    ensures Descending(RowsOfGroups(tables, targetId, n, time, tz))
  {
    hide Ordered, Descending;
    if n > 0 {
      var above := RowsOfGroups(tables, targetId, n - 1, time, tz);
      var group := GroupRows(tables, targetId, n - 1, time, tz);
      RowsOfGroupsDescend(tables, targetId, n - 1, time, tz);
      OrderedIsSorted(Select(tables.transfers, GroupFilter(targetId, TIME_SPECS[n - 1], time, tz)));
      forall x, y | x in above && y in group
        ensures x.transferTimestamp >= y.transferTimestamp
      {
        HigherGroupIsNewer(tables, targetId, n - 1, time, tz, x, y);
      }
      DescendingJoin(above, group);
    } else {
      DescendingNothing();
    }
  }

  lemma DescendingNothing()
    ensures Descending([])
  {
  }

  predicate DistinctTimes(rows: seq<Transfer>) {
    forall a, b :: a in rows && b in rows && a.transferTimestamp == b.transferTimestamp ==> a == b
  }

  lemma SameMembers(a: seq<Transfer>, b: seq<Transfer>)
    requires multiset(a) == multiset(b)
    ensures forall x :: x in a <==> x in b
  {
    assert forall x :: x in a <==> x in multiset(a);
    assert forall x :: x in b <==> x in multiset(b);
  }

  lemma SameLength(a: seq<Transfer>, b: seq<Transfer>)
    requires multiset(a) == multiset(b)
    ensures |a| == |b|
  {
    assert |multiset(a)| == |a| && |multiset(b)| == |b|;
  }

  lemma SameHead(a: seq<Transfer>, b: seq<Transfer>)
    requires a != [] && b != [] && a[0] in b && b[0] in a
    requires Descending(a) && Descending(b) && DistinctTimes(a)
    ensures a[0] == b[0]
  {
  }

  lemma Tail(a: seq<Transfer>)
    requires a != []
    ensures multiset(a[1..]) == multiset(a) - multiset{a[0]}
    ensures Descending(a) ==> Descending(a[1..])
    ensures DistinctTimes(a) ==> DistinctTimes(a[1..])
  {
    assert a == [a[0]] + a[1..];
  }

  lemma {:induction false} SortedOneWay(a: seq<Transfer>, b: seq<Transfer>)
    requires |a| == |b| && multiset(a) == multiset(b)
    requires Descending(a) && Descending(b) && DistinctTimes(a)
    ensures a == b
  {
    hide Descending, DistinctTimes;
    if a != [] {
      SameMembers(a, b);
      SameHead(a, b);
      Tail(a);
      Tail(b);
      SortedOneWay(a[1..], b[1..]);
      assert a == [a[0]] + a[1..] && b == [b[0]] + b[1..];
    }
  }

  /** The ten queries, read from the top of the page down, are a descending permutation of the
      one unfiltered query, and the same sequence when timestamps are distinct. */
  lemma TenQueriesAreOne(tables: Tables, targetId: string, time: int, tz: int)
    ensures
      var all := RowsOfGroups(tables, targetId, |TIME_SPECS|, time, tz);
      var one := Ordered(Select(tables.transfers, OfTarget(targetId)));
      && Descending(all) && multiset(all) == multiset(one)
      && (DistinctTimes(one) ==> all == one)
  {
    hide BucketOf, Ordered, RowsOfGroups, Select, Descending, DistinctTimes;
    var all := RowsOfGroups(tables, targetId, |TIME_SPECS|, time, tz);
    var rows := Select(tables.transfers, OfTarget(targetId));
    RowsOfGroupsDescend(tables, targetId, |TIME_SPECS|, time, tz);
    OrderedIsSorted(rows);
    forall row
      ensures multiset(all)[row] == multiset(rows)[row]
    {
      RowsOfGroupsCount(tables, targetId, |TIME_SPECS|, time, tz, row);
      SelectCount(tables.transfers, OfTarget(targetId), row);
    }
    if DistinctTimes(Ordered(rows)) {
      SameLength(Ordered(rows), all);
      SortedOneWay(Ordered(rows), all);
    }
  }

  function Join(groups: seq<seq<Transfer>>, n: nat): seq<Transfer>
    requires n <= |groups|
  {
    if n == 0 then [] else Join(groups, n - 1) + groups[n - 1]
  }

  lemma {:induction false} JoinedRecords(groups: seq<seq<Transfer>>, tables: Tables, targetId: string, n: nat, time: int, tz: int)
    requires n <= |groups| == |TIME_SPECS|
    requires forall i :: 0 <= i < |groups| ==> groups[i] == Displayed(GroupRecords(tables, targetId, i, time, tz), [])
    ensures Join(groups, n) == ReadRows(RowsOfGroups(tables, targetId, n, time, tz), tables, false)
  {
    hide Ordered, ReadRow, GroupFilter, Select;
    if n > 0 {
      JoinedRecords(groups, tables, targetId, n - 1, time, tz);
      assert groups[n - 1] == ReadRows(GroupRows(tables, targetId, n - 1, time, tz), tables, false);
    }
  }

  /** All rows of a page, from the top down. */
  function RowsShown(groups: seq<Group>): (shown: seq<seq<Transfer>>)
    ensures |shown| == |groups| && forall i :: 0 <= i < |groups| ==> shown[i] == Data(groups[i].elements)
  {
    seq(|groups|, i requires 0 <= i < |groups| => Data(groups[i].elements))
  }

  lemma JoinedHistory(shown: seq<seq<Transfer>>, tables: Tables, targetId: string, time: int, tz: int)
    requires |shown| == |TIME_SPECS|
    requires forall i :: 0 <= i < |shown| ==> shown[i] == Displayed(GroupRecords(tables, targetId, i, time, tz), [])
    ensures
      var rows := RowsOfGroups(tables, targetId, |TIME_SPECS|, time, tz);
      var one := Ordered(Select(tables.transfers, OfTarget(targetId)));
      && Join(shown, |shown|) == ReadRows(rows, tables, false)
      && Descending(rows) && multiset(rows) == multiset(one)
    ensures DistinctTimes(Select(tables.transfers, OfTarget(targetId))) ==>
      Join(shown, |shown|) == Query(tables, OfTarget(targetId), false)
  {
    hide Ordered, RowsOfGroups, Displayed, GroupRecords;
    JoinedRecords(shown, tables, targetId, |shown|, time, tz);
    TenQueriesAreOne(tables, targetId, time, tz);
    OrderedMembers(Select(tables.transfers, OfTarget(targetId)));
  }

  lemma NothingBefore(groups: seq<Group>)
    requires forall i :: 0 <= i < |groups| ==> groups[i].elements == []
    ensures forall i :: 0 <= i < |groups| ==> Data(groups[i].elements) == []
  {
  }

  /** A new page, refreshed once within one second, shows from the top down exactly the stored
      history of its target: the unfiltered query if the target's timestamps are distinct, and
      a descending permutation of its rows in any case. */
  method FreshPageShowsHistory(targetId: string, db: DatabaseManager, time: int, now: nat -> int, tz: int)
    returns (page: ScrolledTransferHistory)
    requires forall i :: 0 <= i < |TIME_SPECS| ==> EffectiveTime(time, now(i)) == EffectiveTime(time, now(0))
    ensures page.Valid() && page.targetId == targetId && page.pendingGroup.elements == []
    ensures db.isOpen ==>
      var tables := db.connection.tables;
      var rows := RowsOfGroups(tables, targetId, |TIME_SPECS|, EffectiveTime(time, now(0)), tz);
      && Join(RowsShown(page.timeGroups), |TIME_SPECS|) == ReadRows(rows, tables, false)
      && Descending(rows) && multiset(rows) == multiset(Ordered(Select(tables.transfers, OfTarget(targetId))))
      && (DistinctTimes(Select(tables.transfers, OfTarget(targetId))) ==>
            Join(RowsShown(page.timeGroups), |TIME_SPECS|) == Query(tables, OfTarget(targetId), false))
  {
    hide Data, Displayed, Join, ReadRows, RowsOfGroups, Descending, Ordered, Select, Query, DistinctTimes, GroupRecords;
    page := new ScrolledTransferHistory(targetId);
    NothingBefore(page.timeGroups);
    page.UpdateTimeGroups(db, time, now, tz);
    if db.isOpen {
      JoinedHistory(RowsShown(page.timeGroups), db.connection.tables, targetId, EffectiveTime(time, now(0)), tz);
    }
  }
}
