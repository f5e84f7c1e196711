/** The history page (`ScrolledTransferHistory`), without drawing: the ten time groups that are
    reconciled in place with the database, the list of pending transfers, and the registry of
    all widgets on the page. */
module TransferHistory {
  import opened Calendar
  import opened Options
  import opened TimeBuckets
  import opened Database

  /** A row on the page: the widget that shows it and what it shows. */
  datatype Row<+T> = Row(widget: nat, data: T)

  type Element = Row<Transfer>
  type PendingElement = Row<PendingData>

  datatype Group = Group(header: nat, currentIds: seq<int>, elements: seq<Element>) {
    /** Slot by slot, the ids are those of the elements. */
    predicate Lockstep() {
      && |currentIds| == |elements|
      && forall i :: 0 <= i < |elements| ==> currentIds[i] == elements[i].data.id
    }
  }

  /** What a pending row shows; `details` stands for the fields that never change. */
  datatype PendingData = PendingData(transferId: int, opState: int, sentBytes: int, details: string)

  datatype PendingGroup = PendingGroup(header: nat, currentIds: seq<int>, elements: seq<PendingElement>) {
    predicate Lockstep() {
      && |currentIds| == |elements|
      && forall i :: 0 <= i < |elements| ==> currentIds[i] == elements[i].data.transferId
    }

    predicate Unique() {
      forall i, j :: 0 <= i < j < |currentIds| ==> currentIds[i] != currentIds[j]
    }
  }

  datatype ThreadEvent = AddOrUpdate(op: PendingData) | Remove(transferId: int)

  /** An update in the same state only moves the progress; a new state replaces the data. */
  function Revised(shown: PendingData, op: PendingData): PendingData {
    if op.opState == shown.opState then shown.(sentBytes := op.sentBytes) else op
  }

  /** What an event makes of the pending rows, keyed by transfer id. */
  function Stepped(rows: map<int, PendingData>, event: ThreadEvent): map<int, PendingData> {
    match event
    case AddOrUpdate(op) =>
      rows[op.transferId := if op.transferId in rows then Revised(rows[op.transferId], op) else op]
    case Remove(transferId) => rows - {transferId}
  }

  function PendingAfter(events: seq<ThreadEvent>): map<int, PendingData> {
    if events == [] then map[] else Stepped(PendingAfter(events[..|events| - 1]), events[|events| - 1])
  }

  /** The last event about a transfer. */
  function LastAbout(events: seq<ThreadEvent>, id: int): Option<ThreadEvent> {
    if events == [] then None
    else
      var last := events[|events| - 1];
      if (match last case AddOrUpdate(op) => op.transferId == id case Remove(transferId) => transferId == id) then Some(last)
      else LastAbout(events[..|events| - 1], id)
  }

  /** The details of the last event about a transfer that was not a mere update in the same state. */
  function ShownDetails(events: seq<ThreadEvent>, id: int): string {
    if events == [] then ""
    else
      var before, last := events[..|events| - 1], events[|events| - 1];
      match last
      case Remove(_) => ShownDetails(before, id)
      case AddOrUpdate(op) =>
        var earlier := LastAbout(before, id);
        if op.transferId != id then ShownDetails(before, id)
        else if earlier.Some? && earlier.value.AddOrUpdate? && earlier.value.op.opState == op.opState then ShownDetails(before, id)
        else op.details
  }

  /** Over every run of events a transfer is shown exactly if the last event about it added or
      updated it, and then in the state and with the progress of that event and with the details of
      the event that brought it into that state. */
  lemma {:induction false} LatestShown(events: seq<ThreadEvent>, id: int)
    ensures
      var rows, last := PendingAfter(events), LastAbout(events, id);
      && (id in rows <==> last.Some? && last.value.AddOrUpdate?)
      && (id in rows ==>
           rows[id] == PendingData(id, last.value.op.opState, last.value.op.sentBytes, ShownDetails(events, id)))
  {
    if events != [] {
      LatestShown(events[..|events| - 1], id);
    }
  }

  /** The pending rows as a map keyed by transfer id. */
  ghost function PendingMap(group: PendingGroup): map<int, PendingData>
    requires group.Lockstep() && group.Unique()
  {
    map i | 0 <= i < |group.currentIds| :: group.currentIds[i] := group.elements[i].data
  }

  lemma PendingEntries(group: PendingGroup)
    requires group.Lockstep() && group.Unique()
    ensures forall id :: id in PendingMap(group) <==> id in group.currentIds
    ensures forall i :: 0 <= i < |group.currentIds| ==> PendingMap(group)[group.currentIds[i]] == group.elements[i].data
  {
    forall i | 0 <= i < |group.currentIds|
      ensures group.currentIds[i] in PendingMap(group)
    {
    }
  }

  /** Two pending maps are equal if they have the same ids and agree at every slot of one. */
  lemma SamePending(group: PendingGroup, m: map<int, PendingData>)
    requires group.Lockstep() && group.Unique()
    requires forall id :: id in m <==> id in group.currentIds
    requires forall i :: 0 <= i < |group.currentIds| ==> m[group.currentIds[i]] == group.elements[i].data
    ensures PendingMap(group) == m
  {
    PendingEntries(group);
    forall id | id in m
      ensures PendingMap(group)[id] == m[id]
    {
      var i :| 0 <= i < |group.currentIds| && group.currentIds[i] == id;
    }
    assert PendingMap(group).Keys == m.Keys;
  }

  lemma PendingRevised(before: PendingGroup, after: PendingGroup, i: nat, op: PendingData)
    requires before.Lockstep() && before.Unique() && after.Lockstep() && after.Unique()
    requires after.currentIds == before.currentIds
    requires i < |before.currentIds| && before.currentIds[i] == op.transferId
    requires forall k :: 0 <= k < |after.elements| ==>
      var e := before.elements[k];
      after.elements[k] == if e.data.transferId == op.transferId then e.(data := Revised(e.data, op)) else e
    ensures op.transferId in PendingMap(before)
    ensures PendingMap(after) == PendingMap(before)[op.transferId := Revised(PendingMap(before)[op.transferId], op)]
  {
    hide PendingMap;
    PendingEntries(before);
    SamePending(after, PendingMap(before)[op.transferId := Revised(PendingMap(before)[op.transferId], op)]);
  }

  lemma PendingPushed(before: PendingGroup, after: PendingGroup, op: PendingData)
    requires before.Lockstep() && before.Unique() && after.Lockstep() && after.Unique()
    requires op.transferId !in before.currentIds
    requires after.currentIds == [op.transferId] + before.currentIds
    requires |after.elements| > 0 && after.elements[0].data == op && after.elements[1..] == before.elements
    ensures op.transferId !in PendingMap(before)
    ensures PendingMap(after) == PendingMap(before)[op.transferId := op]
  {
    hide PendingMap;
    PendingEntries(before);
    assert forall i :: 0 < i < |after.currentIds| ==>
      after.currentIds[i] == before.currentIds[i - 1] && after.elements[i] == before.elements[i - 1];
    SamePending(after, PendingMap(before)[op.transferId := op]);
  }

  lemma PendingErased(before: PendingGroup, after: PendingGroup, k: nat)
    requires before.Lockstep() && before.Unique() && after.Lockstep() && after.Unique()
    requires k < |before.currentIds|
    requires after.currentIds == Erase(before.currentIds, k) && after.elements == Erase(before.elements, k)
    ensures PendingMap(after) == PendingMap(before) - {before.currentIds[k]}
  {
    hide PendingMap;
    PendingEntries(before);
    var m := PendingMap(before) - {before.currentIds[k]};
    forall j | 0 <= j < |after.currentIds|
      ensures after.currentIds[j] in m && m[after.currentIds[j]] == after.elements[j].data
    {
      var i := if j < k then j else j + 1;
      assert after.currentIds[j] == before.currentIds[i] && after.elements[j] == before.elements[i];
    }
    forall id | id in m
      ensures id in after.currentIds
    {
      var i :| 0 <= i < |before.currentIds| && before.currentIds[i] == id;
      assert after.currentIds[if i < k then i else i - 1] == id;
    }
    SamePending(after, m);
  }

  lemma PendingRemoved(before: PendingGroup, after: PendingGroup, id: int)
    requires before.Lockstep() && before.Unique() && after.Lockstep() && after.Unique()
    requires id !in before.currentIds ==> after == before
    requires forall k :: 0 <= k < |before.currentIds| && before.currentIds[k] == id ==>
      after.currentIds == Erase(before.currentIds, k) && after.elements == Erase(before.elements, k)
    ensures PendingMap(after) == PendingMap(before) - {id}
  {
    if id in before.currentIds {
      var k :| 0 <= k < |before.currentIds| && before.currentIds[k] == id;
      PendingErased(before, after, k);
    } else {
      PendingEntries(before);
    }
  }

  lemma OnlyOnce(ids: seq<int>, k: nat)
    requires k < |ids| && forall i, j :: 0 <= i < j < |ids| ==> ids[i] != ids[j]
    ensures ids[k] !in Erase(ids, k) && |Erase(ids, k)| == |ids| - 1
  {
  }

  lemma ErasedInLockstep(group: PendingGroup, k: nat)
    requires group.Lockstep() && group.Unique() && k < |group.elements|
    ensures |group.currentIds| == |group.elements|
    ensures
      var erased := group.(elements := Erase(group.elements, k), currentIds := Erase(group.currentIds, k));
      erased.Lockstep() && erased.Unique()
  {
  }

  // ----- what a reconciliation leaves on the page --------------------------------------

  function Data(elements: seq<Element>): (data: seq<Transfer>)
    ensures |data| == |elements|
  {
    seq(|elements|, i requires 0 <= i < |elements| => elements[i].data)
  }

  function WidgetsInOrder<T>(rows: seq<Row<T>>): (widgets: seq<nat>)
    ensures |widgets| == |rows|
    ensures forall i :: 0 <= i < |rows| ==> widgets[i] == rows[i].widget
  {
    seq(|rows|, i requires 0 <= i < |rows| => rows[i].widget)
  }

  function Widgets<T>(rows: seq<Row<T>>): multiset<nat> {
    multiset(WidgetsInOrder(rows))
  }

  /** The elements with one erased, inserted or replaced. */
  function Erase<T>(s: seq<T>, k: int): seq<T>
    requires 0 <= k < |s|
  {
    s[..k] + s[k + 1..]
  }

  function InsertAt<T>(s: seq<T>, k: int, x: T): seq<T>
    requires 0 <= k <= |s|
  {
    s[..k] + [x] + s[k..]
  }

  lemma WidgetsJoin<T>(a: seq<Row<T>>, b: seq<Row<T>>)
    ensures Widgets(a + b) == Widgets(a) + Widgets(b)
  {
    assert WidgetsInOrder(a + b) == WidgetsInOrder(a) + WidgetsInOrder(b);
  }

  lemma WidgetsOfOne<T>(row: Row<T>)
    ensures Widgets([row]) == multiset{row.widget}
  {
    assert WidgetsInOrder([row]) == [row.widget];
  }

  lemma WidgetsErased<T>(s: seq<Row<T>>, k: int)
    requires 0 <= k < |s|
    ensures Widgets(s) == Widgets(Erase(s, k)) + multiset{s[k].widget}
  {
    WidgetsJoin(s[..k], s[k + 1..]);
    WidgetsOfOne(s[k]);
    WidgetsJoin(s[..k], [s[k]]);
    WidgetsJoin(s[..k] + [s[k]], s[k + 1..]);
    assert s == s[..k] + [s[k]] + s[k + 1..];
  }

  lemma WidgetsInserted<T>(s: seq<Row<T>>, k: int, row: Row<T>)
    requires 0 <= k <= |s|
    ensures Widgets(InsertAt(s, k, row)) == Widgets(s) + multiset{row.widget}
  {
    WidgetsErased(InsertAt(s, k, row), k);
    assert Erase(InsertAt(s, k, row), k) == s;
  }

  lemma WidgetsSame<T>(a: seq<Row<T>>, b: seq<Row<T>>)
    requires |a| == |b| && forall i :: 0 <= i < |a| ==> a[i].widget == b[i].widget
    ensures Widgets(a) == Widgets(b)
  {
    assert WidgetsInOrder(a) == WidgetsInOrder(b);
  }

  /** The elements after stepping through non-empty records: a shown element with the record's
      id is updated, one that is not newer makes room for a new element, a newer one goes. What
      is left when the records run out stays. New widgets are numbered from `next`. */
  function Reconciled(records: seq<Transfer>, shown: seq<Element>, next: nat): seq<Element>
    decreases |records| + |shown|
  {
    if records == [] then shown
    else if shown == [] then [Row(next, records[0])] + Reconciled(records[1..], [], next + 1)
    else if shown[0].data.id == records[0].id then
      [Row(shown[0].widget, records[0])] + Reconciled(records[1..], shown[1..], next)
    else if shown[0].data.transferTimestamp <= records[0].transferTimestamp then
      [Row(next, records[0])] + Reconciled(records[1..], shown, next + 1)
    else Reconciled(records, shown[1..], next)
  }

  /** The elements of a group after an update: no records clear it. */
  function Updated(records: seq<Transfer>, shown: seq<Element>, next: nat): seq<Element> {
    if records == [] then [] else Reconciled(records, shown, next)
  }

  /** The shown entries that a reconciliation does not reach. */
  function Stale(records: seq<Transfer>, shown: seq<Transfer>): seq<Transfer>
    decreases |records| + |shown|
  {
    if records == [] || shown == [] then shown
    else if shown[0].id == records[0].id then Stale(records[1..], shown[1..])
    else if shown[0].transferTimestamp <= records[0].transferTimestamp then Stale(records[1..], shown)
    else Stale(records, shown[1..])
  }

  /** What a group shows after an update. */
  function Displayed(records: seq<Transfer>, shown: seq<Transfer>): seq<Transfer> {
    if records == [] then [] else records + Stale(records, shown)
  }

  lemma DataCons(e: Element, rest: seq<Element>)
    ensures Data([e] + rest) == [e.data] + Data(rest)
  {
  }

  lemma DataTail(rows: seq<Element>)
    requires rows != []
    ensures Data(rows)[0] == rows[0].data && Data(rows)[1..] == Data(rows[1..])
  {
  }

  lemma {:induction false} ReconciledData(records: seq<Transfer>, shown: seq<Element>, next: nat)
    ensures Data(Reconciled(records, shown, next)) == records + Stale(records, Data(shown))
    decreases |records| + |shown|
  {
    hide Data;
    if records == [] {
    } else if shown == [] {
      ReconciledData(records[1..], [], next + 1);
      DataCons(Row(next, records[0]), Reconciled(records[1..], [], next + 1));
      assert Data(shown) == [];
    } else {
      DataTail(shown);
      if shown[0].data.id == records[0].id {
        ReconciledData(records[1..], shown[1..], next);
        DataCons(Row(shown[0].widget, records[0]), Reconciled(records[1..], shown[1..], next));
      } else if shown[0].data.transferTimestamp <= records[0].transferTimestamp {
        ReconciledData(records[1..], shown, next + 1);
        DataCons(Row(next, records[0]), Reconciled(records[1..], shown, next + 1));
      } else {
        ReconciledData(records, shown[1..], next);
      }
    }
  }

  lemma UpdatedData(records: seq<Transfer>, shown: seq<Element>, next: nat)
    ensures Data(Updated(records, shown, next)) == Displayed(records, Data(shown))
  {
    ReconciledData(records, shown, next);
    assert Data([]) == [];
  }

  /** The records a group asks for. */
  function GroupFilter(targetId: string, spec: TimeSpec, time: int, tz: int): Filter {
    Filter(Some(targetId), None, Some(ConditionOf(BoundariesOf(LocalDay(time, tz)), spec, tz)))
  }

  /** The clock reading a condition is computed from; 0 asks for a fresh one. */
  function EffectiveTime(time: int, now: int): int {
    if time == 0 then now else time
  }

  function GroupRecords(tables: Tables, targetId: string, i: nat, time: int, tz: int): seq<Transfer>
    requires i < |TIME_SPECS|
  {
    Query(tables, GroupFilter(targetId, TIME_SPECS[i], time, tz), false)
  }

  /** What the database answers for group i; a closed one answers nothing. */
  function Fetched(isOpen: bool, tables: Tables, targetId: string, i: nat, time: int, tz: int): seq<Transfer>
    requires i < |TIME_SPECS|
  {
    if isOpen then GroupRecords(tables, targetId, i, time, tz) else []
  }

  function GroupWidgets(groups: seq<Group>): multiset<nat> {
    if groups == [] then multiset{}
    else multiset{groups[0].header} + Widgets(groups[0].elements) + GroupWidgets(groups[1..])
  }

  lemma {:induction false} GroupWidgetsJoin(a: seq<Group>, b: seq<Group>)
    ensures GroupWidgets(a + b) == GroupWidgets(a) + GroupWidgets(b)
  {
    hide Widgets;
    if a == [] {
      assert a + b == b;
    } else {
      assert (a + b)[1..] == a[1..] + b;
      GroupWidgetsJoin(a[1..], b);
    }
  }

  lemma EmptyRegistry(header: nat)
    ensures multiset([header]) == multiset{header} + Widgets<PendingData>([]) + GroupWidgets([])
    ensures EachOnce([header], header + 1)
  {
    assert WidgetsInOrder<PendingData>([]) == [];
  }

  ghost predicate NoRows(groups: seq<Group>) {
    forall i :: 0 <= i < |groups| ==> groups[i].elements == [] && groups[i].currentIds == []
  }

  lemma NoRowsInLockstep(groups: seq<Group>)
    requires NoRows(groups)
    ensures forall i :: 0 <= i < |groups| ==> groups[i].Lockstep() && groups[i].elements == []
  {
  }

  lemma EmptyGroup(group: Group)
    requires group.elements == []
    ensures GroupWidgets([group]) == multiset{group.header}
  {
    assert [group][1..] == [] && WidgetsInOrder(group.elements) == [];
  }

  /** The widgets of all groups, without the rows of group i. */
  function Around(groups: seq<Group>, i: nat): multiset<nat>
    requires i < |groups|
  {
    GroupWidgets(groups[..i]) + multiset{groups[i].header} + GroupWidgets(groups[i + 1..])
  }

  lemma AroundGroup(groups: seq<Group>, i: nat)
    requires i < |groups|
    ensures GroupWidgets(groups) == Around(groups, i) + Widgets(groups[i].elements)
  {
    hide Widgets;
    assert groups == groups[..i] + groups[i..];
    GroupWidgetsJoin(groups[..i], groups[i..]);
  }

  lemma AroundReplaced(groups: seq<Group>, i: nat, g: Group)
    requires i < |groups| && g.header == groups[i].header
    ensures Around(groups[i := g], i) == Around(groups, i)
  {
    assert groups[i := g][..i] == groups[..i] && groups[i := g][i + 1..] == groups[i + 1..];
  }

  /** The registry holds the given other widgets and those of the elements, each once, and
      only widgets that were already numbered. */
  ghost predicate Registered<T>(items: seq<nat>, next: nat, others: multiset<nat>, elements: seq<Row<T>>) {
    && multiset(items) == others + Widgets(elements)
    && EachOnce(items, next)
  }

  ghost predicate EachOnce(items: seq<nat>, next: nat) {
    forall w :: multiset(items)[w] <= (if w < next then 1 else 0)
  }

  lemma RegistryInserted<T>(items: seq<nat>, next: nat, others: multiset<nat>, elements: seq<Row<T>>, k: int, e: Row<T>)
    requires 0 <= k <= |elements| && e.widget == next
    requires Registered(items, next, others, elements)
    ensures Registered(items + [next], next + 1, others, InsertAt(elements, k, e))
  {
    WidgetsInserted(elements, k, e);
    assert multiset(items + [next]) == multiset(items) + multiset{next};
  }

  lemma RegistryErased<T>(before: seq<nat>, after: seq<nat>, next: nat, others: multiset<nat>, elements: seq<Row<T>>, k: int)
    requires 0 <= k < |elements|
    requires Registered(before, next, others, elements)
    requires multiset(after) == multiset(before) - multiset{elements[k].widget}
    ensures Registered(after, next, others, Erase(elements, k))
  {
    WidgetsErased(elements, k);
  }

  lemma RegistrySame<T>(items: seq<nat>, next: nat, others: multiset<nat>, a: seq<Row<T>>, b: seq<Row<T>>)
    requires |a| == |b| && forall i :: 0 <= i < |a| ==> a[i].widget == b[i].widget
    requires Registered(items, next, others, a)
    ensures Registered(items, next, others, b)
  {
    WidgetsSame(a, b);
  }

  // ----- the page ----------------------------------------------------------------------

  class ScrolledTransferHistory {
    const targetId: string
    var pendingGroup: PendingGroup
    var timeGroups: seq<Group>
    var historyItems: seq<nat>
    var nextWidget: nat

    /** All headers and all rows on the page. */
    function PageWidgets(): multiset<nat>
      reads this
    {
      multiset{pendingGroup.header} + Widgets(pendingGroup.elements) + GroupWidgets(timeGroups)
    }

    /** The lists are in lockstep, pending ids are unique, and exactly the widgets on the page
        are registered, each once. */
    ghost predicate Valid()
      reads this
    {
      && |timeGroups| == |TIME_SPECS|
      && (forall i :: 0 <= i < |timeGroups| ==> timeGroups[i].Lockstep())
      && pendingGroup.Lockstep() && pendingGroup.Unique()
      && AllRegistered()
    }

    ghost predicate AllRegistered()
      reads this
    {
      multiset(historyItems) == PageWidgets() && EachOnce(historyItems, nextWidget)
    }

    /** The group's rows after an update: its bucket's query merged into what was shown. */
    ghost predicate Refreshed(shown: seq<Group>, isOpen: bool, tables: Tables, time: int, now: nat -> int, tz: int)
      reads this
    {
      && |timeGroups| == |shown| <= |TIME_SPECS|
      && forall i :: 0 <= i < |timeGroups| ==>
           Data(timeGroups[i].elements) ==
           Displayed(Fetched(isOpen, tables, targetId, i, EffectiveTime(time, now(i)), tz), Data(shown[i].elements))
    }

    /** An empty page: the header of the pending transfers and one for each bucket. */
    constructor (targetId: string)
      ensures Valid() && this.targetId == targetId
      ensures pendingGroup.elements == [] && forall i :: 0 <= i < |timeGroups| ==> timeGroups[i].elements == []
    {
      this.targetId := targetId;
      pendingGroup, timeGroups, historyItems, nextWidget := PendingGroup(0, [], []), [], [], 1;
      new;
      hide GroupWidgets, Widgets, EachOnce, AllRegistered, PageWidgets, NoRows;
      RegisterHistoryItem(pendingGroup.header);
      EmptyPage();
      for i := 0 to |TIME_SPECS|
        invariant pendingGroup == PendingGroup(0, [], []) && AllRegistered()
        invariant |timeGroups| == i && NoRows(timeGroups)
      {
        AddGroup();
      }
      NoRowsInLockstep(timeGroups);
    }

    lemma EmptyPage()
      requires pendingGroup == PendingGroup(0, [], []) && timeGroups == [] && historyItems == [0] && nextWidget == 1
      ensures AllRegistered()
    {
      hide GroupWidgets, Widgets, EachOnce;
      EmptyRegistry(0);
    }

    /** The group of one bucket, without rows. */
    method AddGroup()
      requires AllRegistered() && NoRows(timeGroups)
      modifies this`timeGroups, this`historyItems, this`nextWidget
      ensures AllRegistered() && NoRows(timeGroups) && |timeGroups| == old(|timeGroups|) + 1
    {
      hide GroupWidgets, Widgets;
      var group := Group(nextWidget, [], []);
      GroupWidgetsJoin(timeGroups, [group]);
      EmptyGroup(group);
      nextWidget := nextWidget + 1;
      timeGroups := timeGroups + [group];
      RegisterHistoryItem(group.header);
    }

    method RegisterHistoryItem(item: nat)
      modifies this`historyItems
      ensures historyItems == old(historyItems) + [item]
    {
      historyItems := historyItems + [item];
    }

    /** Removes the first registration of the item. */
    method UnregisterHistoryItem(item: nat)
      modifies this`historyItems
      ensures multiset(historyItems) == multiset(old(historyItems)) - multiset{item}
    {
      var i := 0;
      while i < |historyItems|
        invariant 0 <= i <= |historyItems| && historyItems == old(historyItems)
        invariant item !in historyItems[..i]
      {
        if historyItems[i] == item {
          assert historyItems == historyItems[..i] + [item] + historyItems[i + 1..];
          historyItems := historyItems[..i] + historyItems[i + 1..];
          return;
        }
        i := i + 1;
      }
      assert historyItems[..i] == historyItems;
      assert item !in multiset(historyItems);
    }

    /** Shows a new element at position k. */
    method InsertElement(group: Group, k: int, record: Transfer, ghost others: multiset<nat>) returns (g: Group)
      requires group.Lockstep() && 0 <= k <= |group.elements|
      requires Registered(historyItems, nextWidget, others, group.elements)
      modifies this`historyItems, this`nextWidget
      ensures nextWidget == old(nextWidget) + 1
      ensures g.Lockstep() && g.header == group.header
      ensures Registered(historyItems, nextWidget, others, g.elements)
      ensures g.elements == InsertAt(group.elements, k, Row(old(nextWidget), record))
    {
      hide Registered, Widgets;
      var element := Row(nextWidget, record);
      RegistryInserted(historyItems, nextWidget, others, group.elements, k, element);
      nextWidget := nextWidget + 1;
      g := group.(
        elements := InsertAt(group.elements, k, element),
        currentIds := InsertAt(group.currentIds, k, record.id));
      RegisterHistoryItem(element.widget);
    }

    method EraseElement(group: Group, k: int, ghost others: multiset<nat>) returns (g: Group)
      requires group.Lockstep() && 0 <= k < |group.elements|
      requires Registered(historyItems, nextWidget, others, group.elements)
      modifies this`historyItems
      ensures g.Lockstep() && g.header == group.header
      ensures Registered(historyItems, nextWidget, others, g.elements)
      ensures g.elements == Erase(group.elements, k)
    {
      hide Registered, Widgets;
      UnregisterHistoryItem(group.elements[k].widget);
      RegistryErased(old(historyItems), historyItems, nextWidget, others, group.elements, k);
      g := group.(elements := Erase(group.elements, k), currentIds := Erase(group.currentIds, k));
    }

    method ClearGroup(group: Group, ghost others: multiset<nat>) returns (g: Group)
      requires group.Lockstep() && Registered(historyItems, nextWidget, others, group.elements)
      modifies this`historyItems
      ensures g.Lockstep() && g.header == group.header && g.elements == []
      ensures Registered(historyItems, nextWidget, others, g.elements)
    {
      hide Registered, Widgets;
      g := group;
      var lookupIdx: int := 0;
      while lookupIdx < |g.currentIds|
        invariant lookupIdx == 0 && g.Lockstep() && g.header == group.header
        invariant Registered(historyItems, nextWidget, others, g.elements)
        decreases |g.currentIds|
      {
        g := EraseElement(g, lookupIdx, others);
        lookupIdx := lookupIdx - 1;
        lookupIdx := lookupIdx + 1;
      }
    }

    /** Steps through the shown elements until the record has its place at `start`. */
    method PlaceRecord(group: Group, start: nat, record: Transfer, ghost rest: seq<Transfer>, ghost others: multiset<nat>)
      returns (g: Group, lookupIdx: int)
      requires group.Lockstep() && start <= |group.elements|
      requires Registered(historyItems, nextWidget, others, group.elements)
      modifies this`historyItems, this`nextWidget
      ensures g.Lockstep() && g.header == group.header && old(nextWidget) <= nextWidget
      ensures Registered(historyItems, nextWidget, others, g.elements)
      ensures lookupIdx == start + 1 <= |g.elements| && g.elements[..start] == group.elements[..start]
      ensures [g.elements[start]] + Reconciled(rest, g.elements[start + 1..], nextWidget)
           == Reconciled([record] + rest, group.elements[start..], old(nextWidget))
    {
      hide Registered, Widgets;
      g, lookupIdx := group, start;
      assert ([record] + rest)[1..] == rest;
      var processed := false;
      while lookupIdx < |g.currentIds|
        invariant lookupIdx == start <= |g.elements| && !processed
        invariant g.Lockstep() && g.header == group.header && nextWidget == old(nextWidget)
        invariant Registered(historyItems, nextWidget, others, g.elements)
        invariant g.elements[..start] == group.elements[..start]
        invariant Reconciled([record] + rest, g.elements[start..], nextWidget)
               == Reconciled([record] + rest, group.elements[start..], old(nextWidget))
        decreases |g.currentIds|
      {
        ghost var tail := g.elements[start..];
        if g.currentIds[lookupIdx] == record.id {
          // Just update.
          var updated := g.elements[lookupIdx].(data := record);
          RegistrySame(historyItems, nextWidget, others, g.elements, g.elements[lookupIdx := updated]);
          g := g.(elements := g.elements[lookupIdx := updated]);
          assert g.elements[start + 1..] == tail[1..];
          lookupIdx := lookupIdx + 1;
          processed := true;
          break;
        }
        if g.elements[lookupIdx].data.transferTimestamp <= record.transferTimestamp {
          // The new record belongs here.
          g := InsertElement(g, lookupIdx, record, others);
          assert g.elements[start + 1..] == tail;
          lookupIdx := lookupIdx + 1;
          processed := true;
          break;
        } else {
          // The current element was removed.
          g := EraseElement(g, lookupIdx, others);
          assert g.elements[start..] == tail[1..];
          lookupIdx := lookupIdx - 1;
        }
        lookupIdx := lookupIdx + 1;
      }
      if !processed {
        g := InsertElement(g, |g.elements|, record, others);
        assert g.elements[start + 1..] == [];
        lookupIdx := lookupIdx + 1;
      }
    }

    /** Brings one group up to date with its records, in place. */
    method UpdateGroup(i: nat, records: seq<Transfer>)
      requires Valid() && i < |timeGroups|
      modifies this`timeGroups, this`historyItems, this`nextWidget
      ensures Valid() && old(nextWidget) <= nextWidget
      ensures |timeGroups| == old(|timeGroups|)
      ensures forall k :: 0 <= k < |timeGroups| && k != i ==> timeGroups[k] == old(timeGroups[k])
      ensures timeGroups[i].elements == Updated(records, old(timeGroups[i].elements), old(nextWidget))
    {
      hide Reconciled, Widgets, GroupWidgets, Around, EachOnce;
      var group := timeGroups[i];
      ghost var others := multiset{pendingGroup.header} + Widgets(pendingGroup.elements) + Around(timeGroups, i);
      AroundGroup(timeGroups, i);
      if |records| == 0 {
        group := ClearGroup(group, others);
      } else {
        group := ReconcileGroup(group, records, others);
      }
      AroundReplaced(timeGroups, i, group);
      timeGroups := timeGroups[i := group];
      AroundGroup(timeGroups, i);
    }

    method ReconcileGroup(group: Group, records: seq<Transfer>, ghost others: multiset<nat>) returns (g: Group)
      requires group.Lockstep() && Registered(historyItems, nextWidget, others, group.elements)
      modifies this`historyItems, this`nextWidget
      ensures g.Lockstep() && g.header == group.header && old(nextWidget) <= nextWidget
      ensures Registered(historyItems, nextWidget, others, g.elements)
      ensures g.elements == Reconciled(records, group.elements, old(nextWidget))
    {
      hide Registered, Widgets;
      g := group;
      var lookupIdx: int := 0;
      for j := 0 to |records|
        invariant lookupIdx == j <= |g.elements|
        invariant g.Lockstep() && g.header == group.header && old(nextWidget) <= nextWidget
        invariant Registered(historyItems, nextWidget, others, g.elements)
        invariant g.elements[..j] + Reconciled(records[j..], g.elements[j..], nextWidget)
               == Reconciled(records, group.elements, old(nextWidget))
      {
        ghost var before, next := g.elements, nextWidget;
        g, lookupIdx := PlaceRecord(g, j, records[j], records[j + 1..], others);
        assert records[j..] == [records[j]] + records[j + 1..];
        assert g.elements[..j + 1] == before[..j] + [g.elements[j]];
        assert g.elements[..j + 1] + Reconciled(records[j + 1..], g.elements[j + 1..], nextWidget)
            == before[..j] + Reconciled(records[j..], before[j..], next);
      }
      assert records[|records|..] == [] && g.elements[..|records|] + g.elements[|records|..] == g.elements;
    }

    method RefreshGroup(i: nat, db: DatabaseManager, time: int, now: int, tz: int)
      requires Valid() && i < |timeGroups|
      modifies this`timeGroups, this`historyItems, this`nextWidget
      ensures Valid() && |timeGroups| == old(|timeGroups|)
      ensures forall k :: 0 <= k < |timeGroups| && k != i ==> timeGroups[k] == old(timeGroups[k])
      ensures Data(timeGroups[i].elements) == Displayed(
        Fetched(db.isOpen, db.connection.tables, targetId, i, EffectiveTime(time, now), tz),
        Data(old(timeGroups[i].elements)))
    {
      hide AllRegistered, Displayed, Updated, Query, ConditionOf, BoundariesOf, BucketOf;
      ghost var shown, next := timeGroups[i].elements, nextWidget;
      var conditions := GetSpecSQLCondition(TIME_SPECS[i], time, now, tz);
      var records := db.QueryTransfers(false, targetId, Filter(None, None, Some(conditions)));
      UpdateGroup(i, records);
      UpdatedData(records, shown, next);
    }

    /** Refreshes all ten groups from the database. `now(i)` is the clock read for group i if
        the first reading was 0. */
    method UpdateTimeGroups(db: DatabaseManager, time: int, now: nat -> int, tz: int)
      requires Valid()
      modifies this`timeGroups, this`historyItems, this`nextWidget
      ensures Valid()
      ensures Refreshed(old(timeGroups), db.isOpen, db.connection.tables, time, now, tz)
    {
      hide AllRegistered, Displayed, Fetched, Data;
      for i := 0 to |timeGroups|
        invariant Valid()
        invariant forall k :: i <= k < |timeGroups| ==> timeGroups[k] == old(timeGroups[k])
        invariant forall k :: 0 <= k < i ==>
          Data(timeGroups[k].elements) == Displayed(
            Fetched(db.isOpen, db.connection.tables, targetId, k, EffectiveTime(time, now(k)), tz),
            Data(old(timeGroups[k].elements)))
      {
        RefreshGroup(i, db, time, now(i), tz);
      }
    }

    /** The registry, seen from the pending rows. */
    lemma PendingRegistered()
      ensures AllRegistered() <==>
        Registered(historyItems, nextWidget, multiset{pendingGroup.header} + GroupWidgets(timeGroups), pendingGroup.elements)
    {
      hide GroupWidgets, Widgets, EachOnce;
    }

    method AddPendingTransfer(transfer: PendingData, db: DatabaseManager, time: int, now: nat -> int, tz: int)
      requires Valid() && transfer.transferId !in pendingGroup.currentIds
      modifies this
      ensures Valid()
      ensures pendingGroup.header == old(pendingGroup.header)
      ensures pendingGroup.currentIds == [transfer.transferId] + old(pendingGroup.currentIds)
      ensures pendingGroup.elements == [Row(old(nextWidget), transfer)] + old(pendingGroup.elements)
      ensures Refreshed(old(timeGroups), db.isOpen, db.connection.tables, time, now, tz)
    {
      hide GroupWidgets, Registered, AllRegistered, Refreshed;
      var element := Row(nextWidget, transfer);
      ghost var others := multiset{pendingGroup.header} + GroupWidgets(timeGroups);
      PendingRegistered();
      RegistryInserted(historyItems, nextWidget, others, pendingGroup.elements, 0, element);
      assert InsertAt(pendingGroup.elements, 0, element) == [element] + pendingGroup.elements;
      nextWidget := nextWidget + 1;
      pendingGroup := pendingGroup.(
        elements := [element] + pendingGroup.elements,
        currentIds := [transfer.transferId] + pendingGroup.currentIds);
      RegisterHistoryItem(element.widget);
      PendingRegistered();
      UpdateTimeGroups(db, time, now, tz);
    }

    method UpdatePendingTransfer(transfer: PendingData)
      requires Valid()
      modifies this`pendingGroup
      ensures Valid()
      ensures pendingGroup.currentIds == old(pendingGroup.currentIds)
      ensures forall i :: 0 <= i < |pendingGroup.elements| ==>
        var e := old(pendingGroup.elements[i]);
        pendingGroup.elements[i] ==
        if e.data.transferId == transfer.transferId then e.(data := Revised(e.data, transfer)) else e
    {
      for i := 0 to |pendingGroup.currentIds|
        invariant pendingGroup.header == old(pendingGroup.header) && pendingGroup.Lockstep()
        invariant pendingGroup.currentIds == old(pendingGroup.currentIds)
        invariant Widgets(pendingGroup.elements) == Widgets(old(pendingGroup.elements))
        invariant forall k :: 0 <= k < |pendingGroup.elements| ==>
          var e := old(pendingGroup.elements[k]);
          pendingGroup.elements[k] ==
          if k < i && e.data.transferId == transfer.transferId then e.(data := Revised(e.data, transfer)) else e
      {
        if pendingGroup.currentIds[i] == transfer.transferId {
          var e := pendingGroup.elements[i];
          var elements := pendingGroup.elements[i := e.(data := Revised(e.data, transfer))];
          WidgetsSame(pendingGroup.elements, elements);
          pendingGroup := pendingGroup.(elements := elements);
        }
      }
    }

    method ErasePending(i: nat)
      requires Valid() && i < |pendingGroup.elements|
      modifies this`pendingGroup, this`historyItems
      ensures Valid() && pendingGroup.header == old(pendingGroup.header)
      ensures pendingGroup.elements == Erase(old(pendingGroup.elements), i)
      ensures pendingGroup.currentIds == Erase(old(pendingGroup.currentIds), i)
    {
      hide GroupWidgets, Registered, AllRegistered, PendingGroup.Lockstep, PendingGroup.Unique, Group.Lockstep, Erase;
      ErasedInLockstep(pendingGroup, i);
      PendingRegistered();
      ghost var others := multiset{pendingGroup.header} + GroupWidgets(timeGroups);
      UnregisterHistoryItem(pendingGroup.elements[i].widget);
      RegistryErased(old(historyItems), historyItems, nextWidget, others, pendingGroup.elements, i);
      pendingGroup := pendingGroup.(
        elements := Erase(pendingGroup.elements, i),
        currentIds := Erase(pendingGroup.currentIds, i));
      PendingRegistered();
    }

    /** The loop steps on after erasing; with unique ids it skips nothing of that id. */
    method EraseTransfer(transferId: int)
      requires Valid()
      modifies this`pendingGroup, this`historyItems
      ensures Valid()
      ensures transferId !in old(pendingGroup.currentIds) ==> pendingGroup == old(pendingGroup)
      ensures forall k :: 0 <= k < |old(pendingGroup.currentIds)| && old(pendingGroup.currentIds)[k] == transferId ==>
        && pendingGroup.currentIds == Erase(old(pendingGroup.currentIds), k)
        && pendingGroup.elements == Erase(old(pendingGroup.elements), k)
    {
      hide Valid, Erase;
      ghost var ids, erased := pendingGroup.currentIds, -1;
      PendingFacts();
      var i := 0;
      while i < |pendingGroup.currentIds|
        invariant 0 <= i && Valid()
        invariant -1 <= erased < |ids|
        invariant erased == -1 ==> i <= |ids| && pendingGroup == old(pendingGroup) && transferId !in ids[..i]
        invariant erased >= 0 ==>
          && ids[erased] == transferId
          && pendingGroup.currentIds == Erase(ids, erased)
          && pendingGroup.elements == Erase(old(pendingGroup.elements), erased)
          && transferId !in pendingGroup.currentIds
        decreases |pendingGroup.currentIds| - i
      {
        if pendingGroup.currentIds[i] == transferId {
          erased := i;
          OnlyOnce(ids, i);
          PendingFacts();
          ErasePending(i);
        }
        i := i + 1;
      }
    }

    lemma PendingFacts()
      requires Valid()
      ensures |pendingGroup.currentIds| == |pendingGroup.elements|
      ensures forall i, j :: 0 <= i < j < |pendingGroup.currentIds| ==> pendingGroup.currentIds[i] != pendingGroup.currentIds[j]
    {
      hide AllRegistered, Group.Lockstep;
    }

    method DeletePendingTransfer(transferId: int, db: DatabaseManager, time: int, now: nat -> int, tz: int)
      requires Valid()
      modifies this
      ensures Valid()
      ensures transferId !in old(pendingGroup.currentIds) ==> pendingGroup == old(pendingGroup)
      ensures forall k :: 0 <= k < |old(pendingGroup.currentIds)| && old(pendingGroup.currentIds)[k] == transferId ==>
        && pendingGroup.currentIds == Erase(old(pendingGroup.currentIds), k)
        && pendingGroup.elements == Erase(old(pendingGroup.elements), k)
      ensures Refreshed(old(timeGroups), db.isOpen, db.connection.tables, time, now, tz)
    {
      hide AllRegistered, Refreshed, Erase;
      EraseTransfer(transferId);
      UpdateTimeGroups(db, time, now, tz);
    }

    /** The pending list behaves as a map keyed by transfer id; unless a known transfer is only
        updated, the time groups are refreshed. */
    method OnThreadEvent(event: ThreadEvent, db: DatabaseManager, time: int, now: nat -> int, tz: int)
      requires Valid()
      modifies this
      ensures Valid()
      ensures PendingMap(pendingGroup) == Stepped(old(PendingMap(pendingGroup)), event)
      ensures
        if event.AddOrUpdate? && event.op.transferId in old(pendingGroup.currentIds) then timeGroups == old(timeGroups)
        else Refreshed(old(timeGroups), db.isOpen, db.connection.tables, time, now, tz)
    {
      hide AllRegistered, PendingMap, Refreshed;
      ghost var before := pendingGroup;
      match event {
        case AddOrUpdate(op) =>
          var processed := false;
          for i := 0 to |pendingGroup.currentIds|
            invariant !processed && op.transferId !in pendingGroup.currentIds[..i]
            invariant pendingGroup == before && Valid()
          {
            if op.transferId == pendingGroup.currentIds[i] {
              UpdatePendingTransfer(op);
              PendingRevised(before, pendingGroup, i, op);
              return;
            }
          }
          AddPendingTransfer(op, db, time, now, tz);
          assert pendingGroup.elements[1..] == before.elements;
          PendingPushed(before, pendingGroup, op);
        case Remove(transferId) =>
          DeletePendingTransfer(transferId, db, time, now, tz);
          PendingRemoved(before, pendingGroup, transferId);
      }
    }
  }
}
