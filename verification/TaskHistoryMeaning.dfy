/** What the rows of the two queries hold, column by column, in terms of the events alone. */
module TaskHistoryMeaning {
  import opened Wrappers
  import opened TaskHistory

  /** Of the events that `which` picks, the one at `k` is newest; of equally new ones it is the first. */
  ghost function IsNewest(history: History, which: Event -> bool, k: int): (newest: bool)
    ensures newest ==> 0 <= k < |history| && which(history[k])
  {
    && 0 <= k < |history| && which(history[k])
    && forall j :: 0 <= j < |history| && j != k && which(history[j]) ==>
         history[j].ts < history[k].ts || (history[j].ts == history[k].ts && k < j)
  }

  ghost predicate NoneOf(history: History, which: Event -> bool) {
    forall j :: 0 <= j < |history| ==> !which(history[j])
  }

  ghost function IsFirst(history: History, which: Event -> bool, k: int): (first: bool)
    ensures first ==> 0 <= k < |history| && which(history[k])
  {
    0 <= k < |history| && which(history[k]) && forall j :: 0 <= j < k ==> !which(history[j])
  }

  function HasName(which: Event -> bool): Event -> bool {
    (e: Event) => which(e) && e.name != ""
  }

  function HasParent(which: Event -> bool): Event -> bool {
    (e: Event) => which(e) && e.parent != None && e.parent != Some("")
  }

  function HasColumn(which: Event -> bool, c: Column): Event -> bool {
    (e: Event) => which(e) && c in e.columns && e.columns[c] != ""
  }

  /**
   The row of the events that `which` picks: name, parent and every other column of this kind from the
   newest event that does not leave it empty, and empty if all do; state and time from the newest
   event; the largest number of retries; the agent of the first event.
   */
  ghost predicate IsMerged(history: History, which: Event -> bool, row: Row) {
    && (if NoneOf(history, HasName(which)) then row.name == ""
        else exists k :: IsNewest(history, HasName(which), k) && row.name == history[k].name)
    && (if NoneOf(history, HasParent(which)) then row.parent == None
        else exists k :: IsNewest(history, HasParent(which), k) && row.parent == history[k].parent)
    && (exists k :: IsNewest(history, which, k) && row.ts == history[k].ts && row.latest == history[k].latest)
    && (exists k :: 0 <= k < |history| && which(history[k]) && row.retries == history[k].retries)
    && (forall k :: 0 <= k < |history| && which(history[k]) ==> history[k].retries <= row.retries)
    && (exists k :: IsFirst(history, which, k) && row.agent == history[k].agent)
    && forall c :: ColumnIs(history, which, c, row.columns)
  }

  ghost predicate ColumnIs(history: History, which: Event -> bool, c: Column, columns: map<Column, string>) {
    if NoneOf(history, HasColumn(which, c)) then c !in columns
    else c in columns && exists k :: IsNewest(history, HasColumn(which, c), k) && columns[c] == history[k].columns[c]
  }

  // ----- The description leaves one row -----

  lemma NewestUnique(history: History, which: Event -> bool, j: int, k: int)
    requires IsNewest(history, which, j) && IsNewest(history, which, k)
    ensures j == k
  {
  }

  lemma FirstUnique(history: History, which: Event -> bool, j: int, k: int)
    requires IsFirst(history, which, j) && IsFirst(history, which, k)
    ensures j == k
  {
  }

  lemma MergedUniquely(history: History, which: Event -> bool, a: Row, b: Row)
    requires a.taskId == b.taskId && IsMerged(history, which, a) && IsMerged(history, which, b)
    ensures a == b
  {
    hide IsNewest, IsFirst, NoneOf, ColumnIs;
    forall w: Event -> bool, j: int, k: int | IsNewest(history, w, j) && IsNewest(history, w, k)
      ensures j == k
    {
      NewestUnique(history, w, j, k);
    }
    var j :| IsFirst(history, which, j) && a.agent == history[j].agent;
    var k :| IsFirst(history, which, k) && b.agent == history[k].agent;
    FirstUnique(history, which, j, k);
    ColumnsUnique(history, which, a.columns, b.columns);
  }

  lemma ColumnsUnique(history: History, which: Event -> bool, a: map<Column, string>, b: map<Column, string>)
    requires forall c :: ColumnIs(history, which, c, a) && ColumnIs(history, which, c, b)
    ensures a == b
  {
    hide IsNewest, NoneOf;
    forall c
      ensures c in a <==> c in b
      ensures c in a ==> a[c] == b[c]
    {
      assert ColumnIs(history, which, c, a) && ColumnIs(history, which, c, b);
      if c in a {
        var j :| IsNewest(history, HasColumn(which, c), j) && a[c] == history[j].columns[c];
        var k :| IsNewest(history, HasColumn(which, c), k) && b[c] == history[k].columns[c];
        NewestUnique(history, HasColumn(which, c), j, k);
      }
    }
  }

  // ----- The merge meets it -----

  lemma {:induction false} SelectSnoc(events: seq<Event>, last: Event, keep: Event -> bool)
    ensures Select(events + [last], keep) == Select(events, keep) + if keep(last) then [last] else []
  {
    if events == [] {
      assert events + [last] == [last] && [last][1..] == [];
    } else {
      assert (events + [last])[1..] == events[1..] + [last];
      SelectSnoc(events[1..], last, keep);
    }
  }

  /** `argMaxIf` over the selected events is the newest of the history that is selected and has the field. */
  lemma {:induction false} NewestIsNewest<T>(history: History, keep: Event -> bool, field: Event -> Option<T>,
                                             which: Event -> bool)
    requires forall e :: which(e) <==> keep(e) && field(e).Some?
    ensures var r := Newest(Select(history, keep), field);
            if NoneOf(history, which) then r == None
            else exists k :: IsNewest(history, which, k) && r == Some((history[k].ts, field(history[k]).value))
  {
    if history == [] {
      assert Select(history, keep) == [];
    } else {
      var init, e := history[..|history| - 1], history[|history| - 1];
      assert history == init + [e];
      NewestIsNewest(init, keep, field, which);
      SelectSnoc(init, e, keep);
      NewestStep(init, e, Select(init, keep), keep, field, which);
    }
  }

  lemma NewestSnoc<T>(events: seq<Event>, e: Event, field: Event -> Option<T>)
    ensures Newest(events + [e], field)
            == match (Newest(events, field), field(e))
               case (best, None) => best
               case (None, Some(v)) => Some((e.ts, v))
               case (Some(best), Some(v)) => if e.ts > best.0 then Some((e.ts, v)) else Some(best)
  {
    assert (events + [e])[..|events|] == events;
  }

  lemma NewestStays(init: History, e: Event, which: Event -> bool, k: int)
    requires IsNewest(init, which, k) && (which(e) ==> e.ts <= init[k].ts)
    ensures IsNewest(init + [e], which, k) && (init + [e])[k] == init[k]
  {
    var history := init + [e];
    assert history[|init|] == e && forall j :: 0 <= j < |init| ==> history[j] == init[j];
  }

  lemma NewestMoves(init: History, e: Event, which: Event -> bool)
    requires which(e) && (NoneOf(init, which) || exists k :: IsNewest(init, which, k) && e.ts > init[k].ts)
    ensures IsNewest(init + [e], which, |init|) && (init + [e])[|init|] == e
  {
    var history := init + [e];
    assert history[|init|] == e && forall j :: 0 <= j < |init| ==> history[j] == init[j];
  }

  lemma NoneSnoc(init: History, e: Event, which: Event -> bool)
    ensures NoneOf(init + [e], which) <==> NoneOf(init, which) && !which(e)
  {
    var history := init + [e];
    assert history[|init|] == e && forall j :: 0 <= j < |init| ==> history[j] == init[j];
  }

  lemma NewestStep<T>(init: History, e: Event, selected: seq<Event>, keep: Event -> bool, field: Event -> Option<T>,
                      which: Event -> bool)
    requires forall x :: which(x) <==> keep(x) && field(x).Some?
    requires var r := Newest(selected, field);
             if NoneOf(init, which) then r == None
             else exists k :: IsNewest(init, which, k) && r == Some((init[k].ts, field(init[k]).value))
    ensures var r := Newest(selected + if keep(e) then [e] else [], field);
            var history := init + [e];
            if NoneOf(history, which) then r == None
            else exists k :: IsNewest(history, which, k) && r == Some((history[k].ts, field(history[k]).value))
  {
    hide Newest, IsNewest, NoneOf;
    NewestSnoc(selected, e, field);
    assert selected + [] == selected;
    NoneSnoc(init, e, which);
    if NoneOf(init, which) {
      if which(e) {
        NewestMoves(init, e, which);
      }
    } else {
      var k :| IsNewest(init, which, k) && Newest(selected, field) == Some((init[k].ts, field(init[k]).value));
      if which(e) && e.ts > init[k].ts {
        NewestMoves(init, e, which);
      } else {
        NewestStays(init, e, which, k);
      }
    }
  }

  lemma {:induction false} FirstSelected(history: History, keep: Event -> bool)
    requires Select(history, keep) != []
    ensures exists k :: IsFirst(history, keep, k) && history[k] == Select(history, keep)[0]
  {
    if keep(history[0]) {
      assert IsFirst(history, keep, 0);
    } else {
      var rest := history[1..];
      FirstSelected(rest, keep);
      var k :| IsFirst(rest, keep, k) && rest[k] == Select(rest, keep)[0];
      assert history[k + 1] == rest[k];
      assert forall j :: 0 < j < |history| ==> history[j] == rest[j - 1];
      assert IsFirst(history, keep, k + 1);
    }
  }

  lemma MergeRetries(history: History, keep: Event -> bool, id: TaskId)
    requires Select(history, keep) != []
    ensures var n := Merge(id, Select(history, keep)).retries;
            && (exists k :: 0 <= k < |history| && keep(history[k]) && history[k].retries == n)
            && forall k :: 0 <= k < |history| && keep(history[k]) ==> history[k].retries <= n
  {
    var events := Select(history, keep);
    var e :| e in events && e.retries == MaxRetries(events);
    var k :| 0 <= k < |history| && history[k] == e;
    forall k | 0 <= k < |history| && keep(history[k])
      ensures history[k] in events
    {
    }
  }

  lemma MergeColumn(history: History, keep: Event -> bool, id: TaskId, c: Column)
    requires Select(history, keep) != []
    ensures ColumnIs(history, keep, c, Merge(id, Select(history, keep)).columns)
  {
    hide IsNewest, NoneOf, Newest, Select;
    NewestIsNewest(history, keep, ColumnField(c), HasColumn(keep, c));
  }

  /** The merged row of the selected events is what the description says. */
  lemma MergeMeans(history: History, keep: Event -> bool, id: TaskId)
    requires Select(history, keep) != []
    ensures IsMerged(history, keep, Merge(id, Select(history, keep)))
  {
    hide IsNewest, NoneOf, Newest, Select, ColumnIs, IsFirst, Merge;
    var row := Merge(id, Select(history, keep));
    MergeName(history, keep, id);
    MergeParent(history, keep, id);
    MergeNewest(history, keep, id);
    MergeRetries(history, keep, id);
    MergeAgent(history, keep, id);
    forall c
      ensures ColumnIs(history, keep, c, row.columns)
    {
      MergeColumn(history, keep, id, c);
    }
  }

  lemma MergeName(history: History, keep: Event -> bool, id: TaskId)
    requires Select(history, keep) != []
    ensures var row := Merge(id, Select(history, keep));
            if NoneOf(history, HasName(keep)) then row.name == ""
            else exists k :: IsNewest(history, HasName(keep), k) && row.name == history[k].name
  {
    hide IsNewest, NoneOf, Newest, Select;
    NewestIsNewest(history, keep, NameField, HasName(keep));
  }

  lemma MergeParent(history: History, keep: Event -> bool, id: TaskId)
    requires Select(history, keep) != []
    ensures var row := Merge(id, Select(history, keep));
            if NoneOf(history, HasParent(keep)) then row.parent == None
            else exists k :: IsNewest(history, HasParent(keep), k) && row.parent == history[k].parent
  {
    hide IsNewest, NoneOf, Newest, Select;
    NewestIsNewest(history, keep, ParentField, HasParent(keep));
  }

  lemma MergeNewest(history: History, keep: Event -> bool, id: TaskId)
    requires Select(history, keep) != []
    ensures var row := Merge(id, Select(history, keep));
            exists k :: IsNewest(history, keep, k) && row.ts == history[k].ts && row.latest == history[k].latest
  {
    hide IsNewest, Newest;
    var events := Select(history, keep);
    assert events[0] in events && events[0] in history && keep(events[0]);
    NewestIsNewest(history, keep, LatestField, keep);
  }

  lemma MergeAgent(history: History, keep: Event -> bool, id: TaskId)
    requires Select(history, keep) != []
    ensures exists k :: IsFirst(history, keep, k) && Merge(id, Select(history, keep)).agent == history[k].agent
  {
    hide IsFirst;
    FirstSelected(history, keep);
  }

  // ----- The rows of the two queries -----

  /** The row of a task is that of all its events. */
  lemma TaskLatestMeans(history: History, id: TaskId)
    ensures TaskLatest(history, id).Some? ==>
              IsMerged(history, (e: Event) => e.taskId == id, TaskLatest(history, id).value)
  {
    hide IsMerged, Merge;
    if TaskLatest(history, id).Some? {
      MergeMeans(history, (e: Event) => e.taskId == id, id);
    }
  }

  /** The row of a child is that of its events that name one of the parents. */
  lemma ChildRowMeans(history: History, parents: seq<TaskId>, name: string, r: Row)
    requires r in ChildRows(history, parents, name)
    ensures IsMerged(history, (e: Event) => e.parent.Some? && e.parent.value in parents && e.taskId == r.taskId, r)
  {
    hide IsMerged, Merge, ChildRows;
    ChildMerged(history, parents, name, r);
    var links := (e: Event) => e.parent.Some? && e.parent.value in parents;
    var own := (e: Event) => e.taskId == r.taskId;
    var both := (e: Event) => e.parent.Some? && e.parent.value in parents && e.taskId == r.taskId;
    SelectTwice(history, links, own, both);
    MergeMeans(history, both, r.taskId);
  }

  /** A later blank leaves the exception of an earlier event in place. */
  lemma BlankLeavesException(history: History, id: TaskId, text: string)
    requires |history| == 2 && history[0].taskId == id && history[1].taskId == id && history[0].ts < history[1].ts
    requires history[0].columns == map[Exception := text] && text != "" && history[1].columns == map[Exception := ""]
    ensures TaskLatest(history, id).Some? && TaskLatest(history, id).value.columns == map[Exception := text]
  {
    hide TaskLatest;
    assert history[0] in history;
    TaskExists(history, id);
    TaskLatestMeans(history, id);
    var columns := TaskLatest(history, id).value.columns;
    var which := (e: Event) => e.taskId == id;
    forall c
      ensures c in columns <==> c == Exception
      ensures c in columns ==> columns[c] == text
    {
      assert ColumnIs(history, which, c, columns);
      if c == Exception {
        assert HasColumn(which, c)(history[0]);
        var k :| IsNewest(history, HasColumn(which, c), k) && columns[c] == history[k].columns[c];
        assert k == 0;
      }
    }
  }

  lemma TaskExists(history: History, id: TaskId)
    requires exists e :: e in history && e.taskId == id
    ensures TaskLatest(history, id).Some?
  {
  }
}
