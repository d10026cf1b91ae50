/**
 The task event table and the two queries the retry-chain walk asks it. `argMax` over equal
 timestamps and `any` keep the first event here; the database does not say which one it keeps.
 */
module TaskHistory {
  import opened Wrappers

  type TaskId = string

  /** The columns merged by the newest value that is not empty, besides name and parent. */
  datatype Column =
    | Queue | Worker | Args | Kwargs | Result | Exception | Traceback | RootId | GroupId | ChordId | BrokerType

  /** The columns merged by the newest event, whatever they hold. */
  datatype Latest = Latest(eventId: string, state: string, eventType: string, runtime: real)

  /** Columns that are not in the map are empty. */
  datatype Event = Event(taskId: TaskId, name: string, parent: Option<TaskId>, ts: int, latest: Latest, retries: nat,
                         agent: string, columns: map<Column, string>)

  /** One task, merged from its events. */
  datatype Row = Row(taskId: TaskId, name: string, parent: Option<TaskId>, ts: int, latest: Latest, retries: nat,
                     agent: string, columns: map<Column, string>)

  type History = seq<Event>

  function Select(events: seq<Event>, keep: Event -> bool): (out: seq<Event>)
    ensures forall e :: e in out <==> e in events && keep(e)
  {
    if events == [] then []
    else
      var rest := Select(events[1..], keep);
      assert events == [events[0]] + events[1..];
      if keep(events[0]) then [events[0]] + rest else rest
  }

  lemma {:induction false} SelectTwice(events: seq<Event>, f: Event -> bool, g: Event -> bool, h: Event -> bool)
    requires forall e :: e in events ==> (h(e) <==> f(e) && g(e))
    ensures Select(Select(events, f), g) == Select(events, h)
  {
    if events != [] {
      assert events == [events[0]] + events[1..];
      assert events[0] in events;
      SelectTwice(events[1..], f, g, h);
      if f(events[0]) {
        var rest := Select(events[1..], f);
        assert ([events[0]] + rest)[1..] == rest;
      }
    }
  }

  /** `argMaxIf(field, ts, _)`: the field of the newest event that has it. */
  function Newest<T>(events: seq<Event>, field: Event -> Option<T>): (r: Option<(int, T)>)
    ensures r.None? <==> forall e :: e in events ==> field(e).None?
    ensures r.Some? ==> exists e :: e in events && field(e) == Some(r.value.1) && e.ts == r.value.0
    ensures r.Some? ==> forall e :: e in events && field(e).Some? ==> e.ts <= r.value.0
  {
    if events == [] then None
    else
      var init, e := events[..|events| - 1], events[|events| - 1];
      assert events == init + [e];
      match (Newest(init, field), field(e))
      case (best, None) => best
      case (None, Some(v)) => Some((e.ts, v))
      case (Some(best), Some(v)) => if e.ts > best.0 then Some((e.ts, v)) else Some(best)
  }

  function NameField(e: Event): Option<string> {
    if e.name != "" then Some(e.name) else None
  }

  function ParentField(e: Event): Option<TaskId> {
    if e.parent.Some? && e.parent.value != "" then e.parent else None
  }

  function LatestField(e: Event): Option<Latest> {
    Some(e.latest)
  }

  function ColumnField(c: Column): Event -> Option<string> {
    (e: Event) => if c in e.columns && e.columns[c] != "" then Some(e.columns[c]) else None
  }

  function MergedName(events: seq<Event>): string {
    match Newest(events, NameField) case Some(n) => n.1 case None => ""
  }

  function MergedParent(events: seq<Event>): Option<TaskId> {
    match Newest(events, ParentField) case Some(p) => Some(p.1) case None => None
  }

  function MergedColumn(events: seq<Event>, c: Column): Option<string> {
    match Newest(events, ColumnField(c)) case Some(v) => Some(v.1) case None => None
  }

  function MergedColumns(events: seq<Event>): (columns: map<Column, string>)
    ensures forall c :: c in columns <==> MergedColumn(events, c).Some?
    ensures forall c :: c in columns ==> MergedColumn(events, c) == Some(columns[c])
  {
    map c: Column | MergedColumn(events, c).Some? :: MergedColumn(events, c).value
  }

  function MaxRetries(events: seq<Event>): (n: nat)
    ensures forall e :: e in events ==> e.retries <= n
    ensures events != [] ==> exists e :: e in events && e.retries == n
  {
    if events == [] then 0
    else
      var rest := MaxRetries(events[1..]);
      assert events == [events[0]] + events[1..];
      if events[0].retries > rest then events[0].retries else rest
  }

  function Merge(id: TaskId, events: seq<Event>): (row: Row)
    requires events != []
    ensures row.taskId == id && row.name == MergedName(events) && row.parent == MergedParent(events)
  {
    assert events[0] in events;
    var newest := Newest(events, LatestField).value;
    Row(id, MergedName(events), MergedParent(events), newest.0, newest.1, MaxRetries(events), events[0].agent,
        MergedColumns(events))
  }

  function EventsOf(events: seq<Event>, id: TaskId): (out: seq<Event>)
    ensures forall e :: e in out <==> e in events && e.taskId == id
  {
    Select(events, (e: Event) => e.taskId == id)
  }

  /** `get_task_latest`: the merged row of one task, from all its events. */
  function TaskLatest(history: History, id: TaskId): (row: Option<Row>)
    ensures row.Some? ==> row.value.taskId == id
    ensures row.Some? <==> exists e :: e in history && e.taskId == id
  {
    var events := EventsOf(history, id);
    assert events != [] ==> events[0] in events;
    if events == [] then None else Some(Merge(id, events))
  }

  // ----- Children -----

  function IdSet(rows: seq<Row>): set<TaskId> {
    set r | r in rows :: r.taskId
  }

  predicate DistinctIds(rows: seq<Row>) {
    forall j, k :: 0 <= j < k < |rows| ==> rows[j].taskId != rows[k].taskId
  }

  lemma ConsIds(row: Row, rows: seq<Row>)
    ensures IdSet([row] + rows) == {row.taskId} + IdSet(rows)
    ensures DistinctIds([row] + rows) <==> DistinctIds(rows) && row.taskId !in IdSet(rows)
  {
    var all := [row] + rows;
    forall id | id in {row.taskId} + IdSet(rows)
      ensures id in IdSet(all)
    {
      if id == row.taskId {
        assert all[0] in all;
      } else {
        var k :| 0 <= k < |rows| && rows[k].taskId == id;
        assert all[k + 1] in all;
      }
    }
    if DistinctIds(all) {
      forall j, k | 0 <= j < k < |rows|
        ensures rows[j].taskId != rows[k].taskId
      {
        assert all[j + 1].taskId != all[k + 1].taskId;
      }
      forall k | 0 <= k < |rows|
        ensures rows[k].taskId != row.taskId
      {
        assert all[0].taskId != all[k + 1].taskId;
      }
    }
  }

  predicate SortedByTime(rows: seq<Row>) {
    forall j, k :: 0 <= j < k < |rows| ==> rows[j].ts <= rows[k].ts
  }

  /** One row for each task of `events`; the order a `GROUP BY` gives them does not matter. */
  function GroupRows(all: seq<Event>, events: seq<Event>): (rows: seq<Row>)
    requires forall e :: e in events ==> e in all
    ensures forall r :: r in rows ==> EventsOf(all, r.taskId) != [] && r == Merge(r.taskId, EventsOf(all, r.taskId))
    ensures forall e :: e in events ==> e.taskId in IdSet(rows)
    ensures DistinctIds(rows)
  {
    if events == [] then []
    else
      var e := events[0];
      assert events == [e] + events[1..];
      var rest := GroupRows(all, events[1..]);
      if e.taskId in IdSet(rest) then rest
      else
        assert e in EventsOf(all, e.taskId);
        var row := Merge(e.taskId, EventsOf(all, e.taskId));
        ConsIds(row, rest);
        [row] + rest
  }

  function Named(rows: seq<Row>, name: string): (out: seq<Row>)
    ensures forall r :: r in out <==> r in rows && r.name == name
    ensures DistinctIds(rows) ==> DistinctIds(out)
  {
    if rows == [] then []
    else
      var rest := Named(rows[1..], name);
      assert rows == [rows[0]] + rows[1..];
      ConsIds(rows[0], rows[1..]);
      ConsIds(rows[0], rest);
      if rows[0].name == name then [rows[0]] + rest else rest
  }

  function InsertByTime(row: Row, rows: seq<Row>): (out: seq<Row>)
    ensures forall r :: r in out <==> r == row || r in rows
  {
    if rows == [] || row.ts <= rows[0].ts then [row] + rows
    else
      assert rows == [rows[0]] + rows[1..];
      [rows[0]] + InsertByTime(row, rows[1..])
  }

  lemma {:induction false} InsertKeepsOrder(row: Row, rows: seq<Row>)
    requires SortedByTime(rows)
    ensures SortedByTime(InsertByTime(row, rows))
  {
    if rows != [] && row.ts > rows[0].ts {
      InsertKeepsOrder(row, rows[1..]);
      var rest := InsertByTime(row, rows[1..]);
      assert forall r :: r in rest ==> rows[0].ts <= r.ts;
    }
  }

  lemma {:induction false} InsertKeepsIds(row: Row, rows: seq<Row>)
    ensures IdSet(InsertByTime(row, rows)) == {row.taskId} + IdSet(rows)
    ensures DistinctIds(InsertByTime(row, rows)) <==> DistinctIds(rows) && row.taskId !in IdSet(rows)
  {
    hide IdSet, DistinctIds;
    ConsIds(row, rows);
    if rows != [] && row.ts > rows[0].ts {
      InsertKeepsIds(row, rows[1..]);
      assert rows == [rows[0]] + rows[1..];
      ConsIds(rows[0], rows[1..]);
      ConsIds(rows[0], InsertByTime(row, rows[1..]));
    }
  }

  function SortByTime(rows: seq<Row>): (out: seq<Row>)
    ensures forall r :: r in out <==> r in rows
  {
    if rows == [] then []
    else
      assert rows == [rows[0]] + rows[1..];
      InsertByTime(rows[0], SortByTime(rows[1..]))
  }

  lemma {:induction false} SortFacts(rows: seq<Row>)
    ensures SortedByTime(SortByTime(rows))
    ensures IdSet(SortByTime(rows)) == IdSet(rows)
    ensures DistinctIds(SortByTime(rows)) <==> DistinctIds(rows)
  {
    if rows != [] {
      SortFacts(rows[1..]);
      assert rows == [rows[0]] + rows[1..];
      ConsIds(rows[0], rows[1..]);
      InsertKeepsOrder(rows[0], SortByTime(rows[1..]));
      InsertKeepsIds(rows[0], SortByTime(rows[1..]));
    }
  }

  function LinkedTo(history: History, parents: seq<TaskId>): (out: seq<Event>)
    ensures forall e :: e in out <==> e in history && e.parent.Some? && e.parent.value in parents
  {
    Select(history, (e: Event) => e.parent.Some? && e.parent.value in parents)
  }

  /**
   `get_children_by_parent_ids`: only the events that name one of the parents are merged, and
   the name is compared after the merge.
   */
  function ChildRows(history: History, parents: seq<TaskId>, name: string): seq<Row> {
    var events := LinkedTo(history, parents);
    SortByTime(Named(GroupRows(events, events), name))
  }

  lemma ChildRowsShape(history: History, parents: seq<TaskId>, name: string)
    ensures DistinctIds(ChildRows(history, parents, name)) && SortedByTime(ChildRows(history, parents, name))
    ensures forall r :: r in ChildRows(history, parents, name) ==> r.name == name
  {
    var events := LinkedTo(history, parents);
    SortFacts(Named(GroupRows(events, events), name));
  }

  /** A child's row is merged from its events that name one of the parents. */
  lemma ChildMerged(history: History, parents: seq<TaskId>, name: string, r: Row)
    requires r in ChildRows(history, parents, name)
    ensures var mine := EventsOf(LinkedTo(history, parents), r.taskId);
            mine != [] && r == Merge(r.taskId, mine)
  {
    hide Merge;
  }

  /** Which tasks are found: those with an event naming a parent, whose such events give the name. */
  lemma ChildIds(history: History, parents: seq<TaskId>, name: string, id: TaskId)
    ensures id in IdSet(ChildRows(history, parents, name))
            <==> EventsOf(LinkedTo(history, parents), id) != []
                 && MergedName(EventsOf(LinkedTo(history, parents), id)) == name
  {
    var events := LinkedTo(history, parents);
    var rows := GroupRows(events, events);
    var mine := EventsOf(events, id);
    if mine != [] {
      assert mine[0] in mine;
      assert id in IdSet(rows);
      var r :| r in rows && r.taskId == id;
      if MergedName(mine) == name {
        assert r in ChildRows(history, parents, name);
      }
    }
  }
}
