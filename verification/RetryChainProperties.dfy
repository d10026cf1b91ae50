/** What the retry chain of a task is: on any history, and on the histories retries really make. */
module RetryChainProperties {
  import opened Wrappers
  import opened TaskHistory
  import opened RetryChain

  // ----- Any history, cycles and self-parents included -----

  lemma DistinctAppend(a: seq<Row>, b: seq<Row>)
    requires DistinctIds(a) && DistinctIds(b) && IdSet(a) !! IdSet(b)
    ensures DistinctIds(a + b)
  {
    forall j, k | 0 <= j < k < |a + b|
      ensures (a + b)[j].taskId != (a + b)[k].taskId
    {
      if j < |a| <= k {
        assert a[j] in a && b[k - |a|] in b;
        assert a[j].taskId in IdSet(a) && b[k - |a|].taskId in IdSet(b);
      }
    }
  }

  lemma ReverseKeeps(rows: seq<Row>)
    ensures IdSet(Reverse(rows)) == IdSet(rows)
    ensures DistinctIds(rows) ==> DistinctIds(Reverse(rows))
    ensures forall r :: r in Reverse(rows) <==> r in rows
  {
    forall r | r in rows
      ensures r in Reverse(rows)
    {
      var k :| 0 <= k < |rows| && rows[k] == r;
      assert Reverse(rows)[|rows| - 1 - k] == r;
    }
  }

  ghost predicate AllNamed(rows: seq<Row>, name: string) {
    forall r :: r in rows ==> r.name == name
  }

  /** Each row is the merged row of its task and the parent of the one before it. */
  ghost predicate IsParentPath(history: History, row: Row, up: seq<Row>) {
    forall k :: 0 <= k < |up| ==>
      Below(row, up, k).parent == Some(up[k].taskId) && TaskLatest(history, up[k].taskId) == Some(up[k])
  }

  /** The row before place `k` of a path that starts above `row`. */
  ghost function Below(row: Row, up: seq<Row>, k: nat): Row
    requires k <= |up|
  {
    if k == 0 then row else up[k - 1]
  }

  lemma {:induction false} UpFacts(history: History, name: string, row: Row, visited: set<TaskId>, depth: nat)
    ensures var up := Up(history, name, row, visited, depth);
            && |up| <= depth && DistinctIds(up) && IdSet(up) !! visited
            && AllNamed(up, name) && IsParentPath(history, row, up)
    decreases depth
  {
    hide TaskLatest, IdSet, DistinctIds;
    var up := Up(history, name, row, visited, depth);
    if up == [] {
      NoIds();
      assert DistinctIds(up) by { ConsIdsEmpty(); }
    } else {
      var p, rest := up[0], up[1..];
      UpFacts(history, name, p, visited + {p.taskId}, depth - 1);
      assert up == [p] + rest;
      ConsIds(p, rest);
      forall k | 0 <= k < |up|
        ensures Below(row, up, k).parent == Some(up[k].taskId)
        ensures TaskLatest(history, up[k].taskId) == Some(up[k])
      {
        if k > 0 {
          assert up[k] == rest[k - 1] && Below(row, up, k) == Below(p, rest, k - 1);
        }
      }
    }
  }

  lemma ConsIdsEmpty()
    ensures DistinctIds([])
  {
  }

  lemma {:induction false} FreshDistinct(rows: seq<Row>, visited: set<TaskId>)
    ensures DistinctIds(Fresh(rows, visited)) && IdSet(Fresh(rows, visited)) !! visited
  {
    if rows != [] {
      FreshDistinct(rows[1..], visited);
      FreshDistinct(rows[1..], visited + {rows[0].taskId});
      ConsIds(rows[0], Fresh(rows[1..], visited + {rows[0].taskId}));
    }
  }

  lemma {:induction false} DownFacts(history: History, name: string, parents: seq<TaskId>, visited: set<TaskId>, depth: nat)
    ensures var down := Down(history, name, parents, visited, depth);
            DistinctIds(down) && IdSet(down) !! visited && AllNamed(down, name)
    decreases depth
  {
    hide ChildRows, IdSet, DistinctIds;
    var unseen := Fresh(ChildRows(history, parents, name), visited);
    if depth == 0 || unseen == [] {
      NoIds();
      ConsIdsEmpty();
    } else {
      var deeper := Down(history, name, Ids(unseen), visited + IdSet(unseen), depth - 1);
      DownFacts(history, name, Ids(unseen), visited + IdSet(unseen), depth - 1);
      FreshDistinct(ChildRows(history, parents, name), visited);
      ChildRowsShape(history, parents, name);
      DistinctAppend(unseen, deeper);
      IdSetAppend(unseen, deeper);
    }
  }

  /** Whatever the links are, no task appears twice, all share the queried task's name, and it is among them. */
  lemma AnyHistory(history: History, id: TaskId)
    ensures Chain(history, id) == [] <==> TaskLatest(history, id).None?
    ensures TaskLatest(history, id).Some? ==>
              && DistinctIds(Chain(history, id))
              && AllNamed(Chain(history, id), TaskLatest(history, id).value.name)
              && TaskLatest(history, id).value in Chain(history, id)
              && |Ancestors(history, TaskLatest(history, id).value)| <= MAX_DEPTH
  {
    hide TaskLatest, Up, Down, IdSet;
    if TaskLatest(history, id).Some? {
      var row := TaskLatest(history, id).value;
      var up, down := Ancestors(history, row), Descendants(history, row);
      UpFacts(history, row.name, row, {row.taskId}, MAX_DEPTH);
      DownFacts(history, row.name, [row.taskId], {row.taskId} + IdSet(up), MAX_DEPTH);
      ReverseKeeps(up);
      IdSetOne(row);
      DistinctAppend(Reverse(up), [row]);
      IdSetAppend(Reverse(up), [row]);
      DistinctAppend(Reverse(up) + [row], down);
      assert Chain(history, id)[|up|] == row;
    }
  }

  // ----- Histories in which a task has one parent and one name -----

  ghost function ParentOf(history: History, id: TaskId): Option<TaskId> {
    MergedParent(EventsOf(history, id))
  }

  ghost function NameOf(history: History, id: TaskId): string {
    MergedName(EventsOf(history, id))
  }

  ghost function Tasks(history: History): set<TaskId> {
    set e | e in history :: e.taskId
  }

  /** Task ids are not empty, and all events of a task that name a parent name the same one. */
  ghost predicate OneParent(history: History) {
    forall e :: e in history ==>
      e.taskId != "" && (ParentField(e).Some? ==> ParentOf(history, e.taskId) == ParentField(e))
  }

  /** The events that name a task's parent give the same task name as all its events together. */
  ghost predicate LinksNamed(history: History) {
    forall e :: e in history && ParentField(e).Some? ==>
      MergedName(EventsOf(LinkedTo(history, [e.parent.value]), e.taskId)) == NameOf(history, e.taskId)
  }

  /**
   The events that name a recorded parent give the parent's name exactly if all events of the task
   together do.
   */
  ghost predicate LinksAgree(history: History) {
    forall e :: e in history && ParentField(e).Some? && e.parent.value in Tasks(history) ==>
      (MergedName(EventsOf(LinkedTo(history, [e.parent.value]), e.taskId)) == NameOf(history, e.parent.value)
       <==> NameOf(history, e.taskId) == NameOf(history, e.parent.value))
  }

  /** Parents come before their children in some order. */
  ghost predicate Acyclic(history: History, rank: TaskId -> nat) {
    forall t :: t in Tasks(history) && ParentOf(history, t).Some? ==>
      rank(ParentOf(history, t).value) < rank(t)
  }

  /** The events of a task that name one of `parents` are those that name its one parent. */
  lemma SameLinks(history: History, parents: seq<TaskId>, p: TaskId, id: TaskId)
    requires OneParent(history) && ParentOf(history, id) == Some(p) && p in parents && "" !in parents
    ensures EventsOf(LinkedTo(history, parents), id) == EventsOf(LinkedTo(history, [p]), id)
  {
    var g := (e: Event) => e.taskId == id;
    var f1 := (e: Event) => e.parent.Some? && e.parent.value in parents;
    var f2 := (e: Event) => e.parent.Some? && e.parent.value in [p];
    var h := (e: Event) => e.parent.Some? && e.parent.value in parents && e.taskId == id;
    forall e | e in history
      ensures h(e) <==> f2(e) && g(e)
    {
      if e.taskId == id && e.parent.Some? && e.parent.value != "" {
        assert ParentField(e) == e.parent;
      }
    }
    SelectTwice(history, f1, g, h);
    SelectTwice(history, f2, g, h);
  }

  lemma ParentNotBlank(events: seq<Event>)
    ensures MergedParent(events).Some? ==>
              exists e :: e in events && ParentField(e) == MergedParent(events)
  {
  }

  /** Under these conditions the children query finds exactly the same-named tasks with such a parent. */
  lemma ChildrenExact(history: History, parents: seq<TaskId>, name: string, id: TaskId)
    requires OneParent(history) && LinksNamed(history) && "" !in parents
    ensures id in IdSet(ChildRows(history, parents, name))
            <==> ParentOf(history, id).Some? && ParentOf(history, id).value in parents && NameOf(history, id) == name
  {
    hide ChildRows, IdSet, MergedName, MergedParent;
    ChildIds(history, parents, name, id);
    var links := EventsOf(LinkedTo(history, parents), id);
    if ParentOf(history, id).Some? && ParentOf(history, id).value in parents {
      ParentNotBlank(EventsOf(history, id));
      var e :| e in EventsOf(history, id) && ParentField(e) == ParentOf(history, id);
      assert e in links;
    }
    if links != [] {
      var e := links[0];
      assert e in links;
      assert ParentField(e) == e.parent;
      SameLinks(history, parents, e.parent.value, id);
    }
  }

  /** The tasks are recorded and have this name. */
  ghost predicate AreNamed(history: History, ids: seq<TaskId>, name: string) {
    forall t :: t in ids ==> t in Tasks(history) && NameOf(history, t) == name
  }

  /** Asked for the parents' own name, the query finds their children of that name already if links agree. */
  lemma NamesakesExact(history: History, parents: seq<TaskId>, name: string, id: TaskId)
    requires OneParent(history) && LinksAgree(history) && "" !in parents && AreNamed(history, parents, name)
    ensures id in IdSet(ChildRows(history, parents, name))
            <==> ParentOf(history, id).Some? && ParentOf(history, id).value in parents && NameOf(history, id) == name
  {
    hide ChildRows, IdSet, MergedName, MergedParent;
    ChildIds(history, parents, name, id);
    var links := EventsOf(LinkedTo(history, parents), id);
    if ParentOf(history, id).Some? && ParentOf(history, id).value in parents {
      ParentNotBlank(EventsOf(history, id));
      var e :| e in EventsOf(history, id) && ParentField(e) == ParentOf(history, id);
      assert e in links;
    }
    if links != [] {
      var e := links[0];
      assert e in links;
      assert ParentField(e) == e.parent;
      SameLinks(history, parents, e.parent.value, id);
    }
  }

  /** The children query of every parent finds exactly its children of each name. */
  ghost predicate FindsAllChildren(history: History) {
    forall p, name, id | p != "" ::
      id in IdSet(ChildRows(history, [p], name)) <==> ParentOf(history, id) == Some(p) && NameOf(history, id) == name
  }

  /** It does so exactly if the events that name parents give the names too. */
  lemma FindsAllExactlyIfLinksNamed(history: History)
    requires OneParent(history)
    ensures FindsAllChildren(history) <==> LinksNamed(history)
  {
    hide ChildRows, IdSet, MergedName, MergedParent;
    if LinksNamed(history) {
      forall p, name, id | p != ""
        ensures id in IdSet(ChildRows(history, [p], name))
                <==> ParentOf(history, id) == Some(p) && NameOf(history, id) == name
      {
        ChildrenExact(history, [p], name, id);
      }
    }
    if FindsAllChildren(history) {
      forall e | e in history && ParentField(e).Some?
        ensures MergedName(EventsOf(LinkedTo(history, [e.parent.value]), e.taskId)) == NameOf(history, e.taskId)
      {
        var p, name := e.parent.value, NameOf(history, e.taskId);
        assert ParentOf(history, e.taskId) == Some(p) && p != "";
        ChildIds(history, [p], name, e.taskId);
      }
    }
  }

  /** The same-named tasks whose same-named parent path meets `id` after exactly `k` links. */
  ghost function Generation(history: History, name: string, id: TaskId, k: nat): set<TaskId> {
    if k == 0 then {id}
    else
      set t | t in Tasks(history)
              && ParentOf(history, t).Some? && ParentOf(history, t).value in Generation(history, name, id, k - 1)
              && NameOf(history, t) == name
  }

  lemma {:induction false} GenerationsRise(history: History, name: string, id: TaskId, k: nat, rank: TaskId -> nat)
    requires Acyclic(history, rank)
    ensures forall t :: t in Generation(history, name, id, k) ==> rank(t) >= rank(id) + k
  {
    hide ParentOf, NameOf;
    if k > 0 {
      GenerationsRise(history, name, id, k - 1, rank);
    }
  }

  lemma {:induction false} GenerationsDisjoint(history: History, name: string, id: TaskId, j: nat, k: nat, rank: TaskId -> nat)
    requires Acyclic(history, rank) && j < k
    ensures Generation(history, name, id, j) !! Generation(history, name, id, k)
    decreases j
  {
    hide ParentOf, NameOf, Acyclic;
    if j == 0 {
      GenerationsRise(history, name, id, k, rank);
    } else {
      GenerationsDisjoint(history, name, id, j - 1, k - 1, rank);
    }
  }

  lemma {:induction false} GenerationsEnd(history: History, name: string, id: TaskId, j: nat, k: nat)
    requires j <= k && Generation(history, name, id, j) == {}
    ensures Generation(history, name, id, k) == {}
    decreases k
  {
    hide ParentOf, NameOf;
    if j < k {
      GenerationsEnd(history, name, id, j, k - 1);
    }
  }

  ghost function Flatten(levels: seq<seq<Row>>): seq<Row> {
    if levels == [] then [] else levels[0] + Flatten(levels[1..])
  }

  /** Level after level holds the generations from `first` on, each once and oldest event first. */
  ghost predicate AreGenerations(levels: seq<seq<Row>>, history: History, name: string, id: TaskId, first: nat) {
    forall j :: 0 <= j < |levels| ==>
      && IdSet(levels[j]) == Generation(history, name, id, first + j)
      && DistinctIds(levels[j]) && SortedByTime(levels[j])
  }

  lemma NoLevels(history: History, name: string, id: TaskId, first: nat)
    ensures AreGenerations([], history, name, id, first)
  {
  }

  lemma ConsLevel(level: seq<Row>, levels: seq<seq<Row>>, history: History, name: string, id: TaskId, first: nat)
    requires IdSet(level) == Generation(history, name, id, first) && DistinctIds(level) && SortedByTime(level)
    requires AreGenerations(levels, history, name, id, first + 1)
    ensures AreGenerations([level] + levels, history, name, id, first)
  {
    hide Generation, IdSet, DistinctIds, SortedByTime;
    var all := [level] + levels;
    forall j | 0 <= j < |all|
      ensures IdSet(all[j]) == Generation(history, name, id, first + j)
      ensures DistinctIds(all[j]) && SortedByTime(all[j])
    {
      if j > 0 {
        assert all[j] == levels[j - 1];
      }
    }
  }

  lemma {:induction false} FreshAll(rows: seq<Row>, visited: set<TaskId>)
    requires DistinctIds(rows) && IdSet(rows) !! visited
    ensures Fresh(rows, visited) == rows
  {
    if rows != [] {
      assert rows == [rows[0]] + rows[1..];
      ConsIds(rows[0], rows[1..]);
      FreshAll(rows[1..], visited + {rows[0].taskId});
    }
  }

  lemma IdsSet(rows: seq<Row>)
    ensures (set t | t in Ids(rows)) == IdSet(rows)
  {
    forall t | t in IdSet(rows)
      ensures t in Ids(rows)
    {
      var k :| 0 <= k < |rows| && rows[k].taskId == t;
      assert Ids(rows)[k] == t;
    }
  }

  /** The children of a whole generation are the next generation. */
  lemma NextGeneration(history: History, name: string, id: TaskId, parents: seq<TaskId>, k: nat)
    requires OneParent(history) && LinksAgree(history)
    requires "" !in parents && AreNamed(history, parents, name)
    requires (set t | t in parents) == Generation(history, name, id, k)
    ensures IdSet(ChildRows(history, parents, name)) == Generation(history, name, id, k + 1)
    ensures "" !in Generation(history, name, id, k + 1)
  {
    hide ChildRows, IdSet, LinksAgree, AreNamed, MergedParent, MergedName;
    forall t
      ensures t in IdSet(ChildRows(history, parents, name)) <==> t in Generation(history, name, id, k + 1)
    {
      NamesakesExact(history, parents, name, t);
      if ParentOf(history, t).Some? {
        ParentNotBlank(EventsOf(history, t));
        assert t in Tasks(history);
      }
    }
  }

  lemma OneStepDown(history: History, name: string, parents: seq<TaskId>, visited: set<TaskId>, depth: nat)
    ensures var children := Fresh(ChildRows(history, parents, name), visited);
            Down(history, name, parents, visited, depth)
            == if depth == 0 || children == [] then []
               else children + Down(history, name, Ids(children), visited + IdSet(children), depth - 1)
  {
    hide ChildRows;
  }

  lemma NextParents(history: History, name: string, id: TaskId, level: seq<Row>, k: nat)
    requires k > 0 && IdSet(level) == Generation(history, name, id, k) && "" !in Generation(history, name, id, k)
    ensures "" !in Ids(level) && (set t | t in Ids(level)) == Generation(history, name, id, k)
    ensures AreNamed(history, Ids(level), name)
  {
    hide Generation, IdSet, ParentOf, NameOf, Tasks;
    IdsSet(level);
    forall t | t in Ids(level)
      ensures t in Tasks(history) && NameOf(history, t) == name
    {
      assert t in (set x | x in Ids(level));
      InGeneration(history, name, id, k, t);
    }
  }

  lemma InGeneration(history: History, name: string, id: TaskId, k: nat, t: TaskId)
    requires k > 0
    ensures t in Generation(history, name, id, k)
            <==> && t in Tasks(history) && NameOf(history, t) == name
                 && ParentOf(history, t).Some? && ParentOf(history, t).value in Generation(history, name, id, k - 1)
  {
    hide ParentOf, NameOf;
  }

  lemma NothingFlat()
    ensures Flatten([]) == []
  {
  }

  lemma FlattenCons(level: seq<Row>, levels: seq<seq<Row>>)
    ensures Flatten([level] + levels) == level + Flatten(levels)
  {
    assert ([level] + levels)[1..] == levels;
  }

  lemma VisitedApart(history: History, name: string, id: TaskId, visited: set<TaskId>, found: set<TaskId>, k: nat,
                     rank: TaskId -> nat)
    requires Acyclic(history, rank)
    requires found == Generation(history, name, id, k + 1)
    requires forall m :: m > k ==> visited !! Generation(history, name, id, m)
    ensures forall m :: m > k + 1 ==> visited + found !! Generation(history, name, id, m)
  {
    hide Acyclic, Generation;
    forall m | m > k + 1
      ensures visited + found !! Generation(history, name, id, m)
    {
      GenerationsDisjoint(history, name, id, k + 1, m, rank);
    }
  }

  lemma {:induction false} DownLevels(history: History, name: string, id: TaskId, parents: seq<TaskId>,
                                      visited: set<TaskId>, depth: nat, k: nat, rank: TaskId -> nat)
    returns (levels: seq<seq<Row>>)
    requires OneParent(history) && LinksAgree(history) && Acyclic(history, rank)
    requires "" !in parents && AreNamed(history, parents, name) && (set t | t in parents) == Generation(history, name, id, k)
    requires forall m :: m > k ==> visited !! Generation(history, name, id, m)
    ensures Down(history, name, parents, visited, depth) == Flatten(levels)
    ensures |levels| <= depth && AreGenerations(levels, history, name, id, k + 1)
    ensures |levels| < depth ==> Generation(history, name, id, k + 1 + |levels|) == {}
    decreases depth
  {
    hide ChildRows, OneParent, LinksAgree, AreNamed, Acyclic, Generation, IdSet, AreGenerations, DistinctIds, SortedByTime,
      Down, Fresh, Flatten, Ids;
    var children := ChildRows(history, parents, name);
    NextGeneration(history, name, id, parents, k);
    ChildRowsShape(history, parents, name);
    FreshAll(children, visited);
    OneStepDown(history, name, parents, visited, depth);
    if depth == 0 || children == [] {
      levels := [];
      NoIds();
      NothingFlat();
      NoLevels(history, name, id, k + 1);
    } else {
      var visited' := visited + IdSet(children);
      VisitedApart(history, name, id, visited, IdSet(children), k, rank);
      NextParents(history, name, id, children, k + 1);
      var deeper := DownLevels(history, name, id, Ids(children), visited', depth - 1, k + 1, rank);
      levels := [children] + deeper;
      FlattenCons(children, deeper);
      ConsLevel(children, deeper, history, name, id, k + 1);
    }
  }

  lemma LatestRow(history: History, id: TaskId)
    ensures TaskLatest(history, id).None? <==> id !in Tasks(history)
    ensures TaskLatest(history, id).Some? ==>
              TaskLatest(history, id).value.parent == ParentOf(history, id)
              && TaskLatest(history, id).value.name == NameOf(history, id)
  {
    var events := EventsOf(history, id);
    if events != [] {
      assert events[0] in events;
    }
  }

  /** No same-named parent of `row` is recorded. */
  ghost predicate IsTop(history: History, name: string, row: Row) {
    row.parent.None? || row.parent.value !in Tasks(history) || NameOf(history, row.parent.value) != name
  }

  ghost function TopOf(row: Row, up: seq<Row>): Row {
    if up == [] then row else up[|up| - 1]
  }

  /** Without cycles the walk up only stops at the top, or at its depth limit. */
  lemma {:induction false} UpStops(history: History, name: string, row: Row, visited: set<TaskId>, depth: nat,
                                   rank: TaskId -> nat)
    requires Acyclic(history, rank) && TaskLatest(history, row.taskId) == Some(row)
    requires forall v :: v in visited ==> rank(v) >= rank(row.taskId)
    ensures var up := Up(history, name, row, visited, depth);
            |up| == depth || IsTop(history, name, TopOf(row, up))
    decreases depth
  {
    hide TaskLatest, MergedName, MergedParent, EventsOf, Tasks;
    LatestRow(history, row.taskId);
    if depth > 0 && row.parent.Some? {
      var p := row.parent.value;
      LatestRow(history, p);
      ParentNotBlank(EventsOf(history, row.taskId));
      assert rank(p) < rank(row.taskId);
      var up := Up(history, name, row, visited, depth);
      if up != [] {
        UpStops(history, name, up[0], visited + {p}, depth - 1, rank);
      }
    }
  }

  lemma {:induction false} AncestorsRankLower(history: History, row: Row, up: seq<Row>, rank: TaskId -> nat)
    requires Acyclic(history, rank) && IsParentPath(history, row, up)
    requires TaskLatest(history, row.taskId) == Some(row)
    ensures forall t :: t in IdSet(up) ==> rank(t) < rank(row.taskId)
    decreases |up|
  {
    hide TaskLatest, ParentOf, NameOf;
    if up != [] {
      var p, rest := up[0], up[1..];
      assert up == [p] + rest;
      LatestRow(history, row.taskId);
      forall k | 0 <= k < |rest|
        ensures Below(p, rest, k).parent == Some(rest[k].taskId)
        ensures TaskLatest(history, rest[k].taskId) == Some(rest[k])
      {
        assert rest[k] == up[k + 1] && Below(p, rest, k) == Below(row, up, k + 1);
      }
      assert rank(p.taskId) < rank(row.taskId) by {
        assert Below(row, up, 0) == row && row.parent == Some(up[0].taskId);
      }
      AncestorsRankLower(history, p, rest, rank);
      ConsIds(p, rest);
      forall t | t in IdSet(up)
        ensures rank(t) < rank(row.taskId)
      {
        assert t == p.taskId || t in IdSet(rest);
      }
    }
  }

  /** The rows before the queried task: its unbroken same-named parent path, up to fifty links. */
  lemma AncestorsComplete(history: History, row: Row, rank: TaskId -> nat)
    requires Acyclic(history, rank) && TaskLatest(history, row.taskId) == Some(row)
    ensures var up := Ancestors(history, row);
            && IsParentPath(history, row, up) && AllNamed(up, row.name) && |up| <= MAX_DEPTH
            && (|up| == MAX_DEPTH || IsTop(history, row.name, TopOf(row, up)))
            && forall t :: t in IdSet(up) ==> rank(t) < rank(row.taskId)
  {
    hide TaskLatest, Up, IsParentPath, IsTop, Acyclic;
    UpFacts(history, row.name, row, {row.taskId}, MAX_DEPTH);
    UpStops(history, row.name, row, {row.taskId}, MAX_DEPTH, rank);
    AncestorsRankLower(history, row, Ancestors(history, row), rank);
  }

  /** `t` belongs to one of the generations from `lo` up to, but not including, `hi`. */
  ghost predicate InGenerations(history: History, name: string, id: TaskId, lo: nat, hi: nat, t: TaskId) {
    exists k :: lo <= k < hi && t in Generation(history, name, id, k)
  }

  lemma SplitGenerations(history: History, name: string, id: TaskId, lo: nat, hi: nat, t: TaskId)
    requires lo < hi
    ensures InGenerations(history, name, id, lo, hi, t)
            <==> t in Generation(history, name, id, lo) || InGenerations(history, name, id, lo + 1, hi, t)
  {
  }

  lemma {:induction false} FlattenIds(levels: seq<seq<Row>>, history: History, name: string, id: TaskId, first: nat)
    requires AreGenerations(levels, history, name, id, first)
    ensures forall t :: t in IdSet(Flatten(levels)) <==> InGenerations(history, name, id, first, first + |levels|, t)
  {
    hide Generation, IdSet, DistinctIds, SortedByTime;
    if levels == [] {
      NoIds();
    } else {
      var rest := levels[1..];
      forall j | 0 <= j < |rest|
        ensures IdSet(rest[j]) == Generation(history, name, id, first + 1 + j)
        ensures DistinctIds(rest[j]) && SortedByTime(rest[j])
      {
        assert rest[j] == levels[j + 1];
      }
      FlattenIds(rest, history, name, id, first + 1);
      IdSetAppend(levels[0], Flatten(rest));
      forall t
        ensures t in IdSet(Flatten(levels)) <==> InGenerations(history, name, id, first, first + |levels|, t)
      {
        SplitGenerations(history, name, id, first, first + |levels|, t);
      }
    }
  }

  // ----- What the rows of descendants hold -----

  /** The events of a task that name its parent. */
  ghost function LinkEvents(history: History, id: TaskId): seq<Event> {
    match ParentOf(history, id)
    case None => []
    case Some(p) => EventsOf(LinkedTo(history, [p]), id)
  }

  /** The row is merged from the events that name the task's parent, not from all its events. */
  ghost predicate IsLinkRow(history: History, r: Row) {
    var links := LinkEvents(history, r.taskId);
    links != [] && r == Merge(r.taskId, links)
  }

  lemma ChildIsLinkRow(history: History, parents: seq<TaskId>, name: string, r: Row)
    requires OneParent(history) && "" !in parents && r in ChildRows(history, parents, name)
    ensures IsLinkRow(history, r) && r.taskId != ""
  {
    hide MergedName, MergedParent, Merge;
    ChildMerged(history, parents, name, r);
    var links := EventsOf(LinkedTo(history, parents), r.taskId);
    var e := links[0];
    assert e in links;
    assert ParentField(e) == e.parent;
    SameLinks(history, parents, e.parent.value, r.taskId);
  }

  lemma {:induction false} DownLinkRows(history: History, name: string, parents: seq<TaskId>, visited: set<TaskId>,
                                        depth: nat)
    requires OneParent(history) && "" !in parents
    ensures forall r :: r in Down(history, name, parents, visited, depth) ==> IsLinkRow(history, r)
    decreases depth
  {
    hide ChildRows, IsLinkRow, OneParent;
    var unseen := Fresh(ChildRows(history, parents, name), visited);
    if depth > 0 && unseen != [] {
      forall r | r in unseen
        ensures IsLinkRow(history, r) && r.taskId != ""
      {
        ChildIsLinkRow(history, parents, name, r);
      }
      NoBlankIds(unseen);
      DownLinkRows(history, name, Ids(unseen), visited + IdSet(unseen), depth - 1);
    }
  }

  lemma NoBlankIds(rows: seq<Row>)
    requires forall r :: r in rows ==> r.taskId != ""
    ensures "" !in Ids(rows)
  {
    forall k | 0 <= k < |rows|
      ensures Ids(rows)[k] != ""
    {
      assert rows[k] in rows;
    }
  }

  /**
   The rows after the queried task: its same-named descendants through same-named tasks, down to
   generation fifty, generation after generation, each task once. Each row is merged from the events
   that name its parent only.
   */
  lemma DescendantsComplete(history: History, row: Row, rank: TaskId -> nat) returns (levels: seq<seq<Row>>)
    requires OneParent(history) && LinksAgree(history) && Acyclic(history, rank)
    requires TaskLatest(history, row.taskId) == Some(row)
    ensures Descendants(history, row) == Flatten(levels)
    ensures |levels| <= MAX_DEPTH && AreGenerations(levels, history, row.name, row.taskId, 1)
    ensures |levels| < MAX_DEPTH ==> Generation(history, row.name, row.taskId, 1 + |levels|) == {}
    ensures forall t :: t in IdSet(Descendants(history, row))
                        <==> InGenerations(history, row.name, row.taskId, 1, MAX_DEPTH + 1, t)
    ensures forall r :: r in Descendants(history, row) ==> IsLinkRow(history, r)
  {
    hide IsLinkRow, TaskLatest, Up, Down, Acyclic, IdSet, LinksAgree, Generation, AreGenerations, ParentOf, NameOf;
    var id, name := row.taskId, row.name;
    var visited := {id} + IdSet(Ancestors(history, row));
    AncestorsComplete(history, row, rank);
    forall m | m > 0
      ensures visited !! Generation(history, name, id, m)
    {
      GenerationsRise(history, name, id, m, rank);
    }
    LatestRow(history, id);
    TaskIdNotBlank(history, id);
    DownLinkRows(history, name, [id], visited, MAX_DEPTH);
    GenerationZero(history, name, id);
    levels := DownLevels(history, name, id, [id], visited, MAX_DEPTH, 0, rank);
    FlattenIds(levels, history, name, id, 1);
    LateGenerations(history, name, id, 1, 1 + |levels|, MAX_DEPTH + 1);
  }

  lemma TaskIdNotBlank(history: History, id: TaskId)
    requires OneParent(history) && id in Tasks(history)
    ensures id != ""
  {
  }

  lemma GenerationZero(history: History, name: string, id: TaskId)
    ensures Generation(history, name, id, 0) == {id} == (set t | t in [id])
  {
  }

  lemma LateGenerations(history: History, name: string, id: TaskId, lo: nat, mid: nat, hi: nat)
    requires lo <= mid <= hi && (mid < hi ==> Generation(history, name, id, mid) == {})
    ensures forall t :: InGenerations(history, name, id, lo, mid, t) <==> InGenerations(history, name, id, lo, hi, t)
  {
    hide Generation;
    forall k | mid <= k < hi
      ensures Generation(history, name, id, k) == {}
    {
      GenerationsEnd(history, name, id, mid, k);
    }
  }

  // ----- A history whose link carries no name -----

  /** An event with a state and all other columns empty. */
  function Plain(taskId: TaskId, name: string, parent: Option<TaskId>, ts: int, state: string): Event {
    Event(taskId, name, parent, ts, Latest("", state, "", 0.0), 0, "", map[])
  }

  function UnnamedLink(): History {
    [Plain("a", "job", None, 0, "RETRY"), Plain("b", "", Some("a"), 1, "PENDING"), Plain("b", "job", None, 2, "SUCCESS")]
  }

  lemma SelectOne(events: seq<Event>, keep: Event -> bool)
    requires events != []
    ensures Select(events, keep) == (if keep(events[0]) then [events[0]] else []) + Select(events[1..], keep)
  {
  }

  lemma SelectNone(keep: Event -> bool)
    ensures Select([], keep) == []
  {
  }

  lemma SelectThree(x: Event, y: Event, z: Event, keep: Event -> bool)
    ensures Select([x, y, z], keep) == (if keep(x) then [x] else []) + (if keep(y) then [y] else [])
                                       + (if keep(z) then [z] else [])
  {
    hide Select;
    SelectNone(keep);
    SelectOne([x, y, z], keep);
    assert [x, y, z][1..] == [y, z];
    SelectOne([y, z], keep);
    assert [y, z][1..] == [z];
    SelectOne([z], keep);
    assert [z][1..] == [];
  }

  lemma OfThree(x: Event, y: Event, z: Event, keep: Event -> bool)
    ensures keep(x) && !keep(y) && !keep(z) ==> Select([x, y, z], keep) == [x]
    ensures !keep(x) && keep(y) && !keep(z) ==> Select([x, y, z], keep) == [y]
    ensures !keep(x) && keep(y) && keep(z) ==> Select([x, y, z], keep) == [y, z]
  {
    hide Select;
    SelectThree(x, y, z, keep);
  }

  lemma OfOne(x: Event, keep: Event -> bool)
    ensures keep(x) ==> Select([x], keep) == [x]
  {
    assert [x][1..] == [];
  }

  lemma NewestOne<T>(e: Event, field: Event -> Option<T>)
    ensures Newest([e], field) == if field(e).Some? then Some((e.ts, field(e).value)) else None
  {
    assert [e][..0] == [];
  }

  lemma NewestTwo<T>(d: Event, e: Event, field: Event -> Option<T>)
    ensures Newest([d, e], field)
            == match (Newest([d], field), field(e))
               case (best, None) => best
               case (None, Some(v)) => Some((e.ts, v))
               case (Some(best), Some(v)) => if e.ts > best.0 then Some((e.ts, v)) else Some(best)
  {
    assert [d, e][..1] == [d];
  }

  lemma UnnamedLinkRows()
    ensures var a := TaskLatest(UnnamedLink(), "a");
            a.Some? && a.value.taskId == "a" && a.value.name == "job" && a.value.parent == None
    ensures var b := TaskLatest(UnnamedLink(), "b");
            b.Some? && b.value.taskId == "b" && b.value.name == "job" && b.value.parent == Some("a")
  {
    hide Select, Newest;
    var h := UnnamedLink();
    SelectThree(h[0], h[1], h[2], (e: Event) => e.taskId == "a");
    SelectThree(h[0], h[1], h[2], (e: Event) => e.taskId == "b");
    assert h == [h[0], h[1], h[2]];
    assert EventsOf(h, "a") == [h[0]];
    assert EventsOf(h, "b") == [h[1], h[2]];
    NewestOne(h[0], NameField);
    NewestOne(h[0], ParentField);
    NewestOne(h[1], NameField);
    NewestOne(h[1], ParentField);
    NewestTwo(h[1], h[2], NameField);
    NewestTwo(h[1], h[2], ParentField);
  }

  lemma UnnamedLinkChildren()
    ensures ChildRows(UnnamedLink(), ["a"], "job") == []
    ensures ChildRows(UnnamedLink(), ["b"], "job") == []
  {
    hide Select, Newest, ChildRows;
    var h := UnnamedLink();
    SelectThree(h[0], h[1], h[2], (e: Event) => e.parent.Some? && e.parent.value in ["a"]);
    SelectThree(h[0], h[1], h[2], (e: Event) => e.parent.Some? && e.parent.value in ["b"]);
    assert h == [h[0], h[1], h[2]];
    assert LinkedTo(h, ["a"]) == [h[1]];
    assert LinkedTo(h, ["b"]) == [];
    forall p, id | p in {"a", "b"}
      ensures id !in IdSet(ChildRows(h, [p], "job"))
    {
      ChildIds(h, [p], "job", id);
      var mine := EventsOf(LinkedTo(h, [p]), id);
      assert forall e :: e in mine ==> NameField(e).None?;
    }
    NoRows(ChildRows(h, ["a"], "job"));
    NoRows(ChildRows(h, ["b"], "job"));
  }

  lemma NoRows(rows: seq<Row>)
    requires forall id :: id !in IdSet(rows)
    ensures rows == []
  {
    if rows != [] {
      FirstId(rows);
    }
  }

  lemma FirstId(rows: seq<Row>)
    requires rows != []
    ensures rows[0].taskId in IdSet(rows)
  {
    assert rows[0] in rows;
  }

  lemma NoChildren(history: History, name: string, parents: seq<TaskId>, visited: set<TaskId>, depth: nat)
    requires ChildRows(history, parents, name) == []
    ensures Down(history, name, parents, visited, depth) == []
  {
  }

  lemma OneStepUp(history: History, name: string, row: Row, visited: set<TaskId>, depth: nat)
    requires depth > 0
    ensures match NextUp(history, name, row, visited)
            case None => Up(history, name, row, visited, depth) == []
            case Some(p) => Up(history, name, row, visited, depth)
                            == [p] + Up(history, name, p, visited + {p.taskId}, depth - 1)
  {
  }

  lemma UnnamedLinkFromB()
    ensures Ids(Chain(UnnamedLink(), "b")) == ["a", "b"]
  {
    hide TaskLatest, ChildRows, Up, Down, UnnamedLink;
    var h := UnnamedLink();
    UnnamedLinkRows();
    UnnamedLinkChildren();
    var a, b := TaskLatest(h, "a").value, TaskLatest(h, "b").value;
    OneStepUp(h, "job", b, {"b"}, MAX_DEPTH);
    OneStepUp(h, "job", a, {"b"} + {"a"}, MAX_DEPTH - 1);
    assert Ancestors(h, b) == [a];
    NoChildren(h, "job", ["b"], {"b"} + IdSet(Ancestors(h, b)), MAX_DEPTH);
    assert Reverse([a]) + [b] + [] == [a, b];
    assert Chain(h, "b") == [a, b];
  }

  lemma UnnamedLinkFromA()
    ensures Ids(Chain(UnnamedLink(), "a")) == ["a"]
  {
    hide TaskLatest, ChildRows, Up, Down, UnnamedLink;
    var h := UnnamedLink();
    UnnamedLinkRows();
    UnnamedLinkChildren();
    var a := TaskLatest(h, "a").value;
    OneStepUp(h, "job", a, {"a"}, MAX_DEPTH);
    assert Ancestors(h, a) == [];
    NoChildren(h, "job", ["a"], {"a"} + IdSet(Ancestors(h, a)), MAX_DEPTH);
    assert Reverse([]) + [a] + [] == [a];
    assert Chain(h, "a") == [a];
  }

  /**
   The event that names the parent of `b` has no task name; a later event has it. Walking up from
   `b` finds `a`, but walking down from `a` misses `b`.
   */
  lemma UnnamedLinkIsMissed()
    ensures Ids(Chain(UnnamedLink(), "b")) == ["a", "b"]
    ensures Ids(Chain(UnnamedLink(), "a")) == ["a"]
  {
    hide Chain;
    UnnamedLinkFromB();
    UnnamedLinkFromA();
  }
}
