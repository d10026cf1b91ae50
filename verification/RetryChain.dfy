/** The retry chain of a task: up the parent links, then down level by level. */
module RetryChain {
  import opened Wrappers
  import opened TaskHistory

  const MAX_DEPTH: nat := 50

  // ----- The walk as functions -----

  /** The same-named parent of `row`, unless it is already in the chain. */
  function NextUp(history: History, name: string, row: Row, visited: set<TaskId>): (up: Option<Row>)
    ensures up.Some? ==> row.parent == Some(up.value.taskId) && up.value.taskId !in visited && up.value.name == name
  {
    if row.parent == None || row.parent.value == "" || row.parent.value in visited then None
    else
      var p := TaskLatest(history, row.parent.value);
      if p.Some? && p.value.name == name then p else None
  }

  /** At most `depth` ancestors of `row`, nearest first. */
  function Up(history: History, name: string, row: Row, visited: set<TaskId>, depth: nat): seq<Row>
    decreases depth
  {
    var up := NextUp(history, name, row, visited);
    if depth == 0 || up.None? then []
    else [up.value] + Up(history, name, up.value, visited + {up.value.taskId}, depth - 1)
  }

  /** The rows whose task is not in the chain yet. */
  function Fresh(rows: seq<Row>, visited: set<TaskId>): (unseen: seq<Row>)
    ensures forall r :: r in unseen ==> r in rows && r.taskId !in visited
  {
    if rows == [] then []
    else if rows[0].taskId in visited then Fresh(rows[1..], visited)
    else [rows[0]] + Fresh(rows[1..], visited + {rows[0].taskId})
  }

  function Ids(rows: seq<Row>): (ids: seq<TaskId>)
    ensures |ids| == |rows| && forall k :: 0 <= k < |rows| ==> ids[k] == rows[k].taskId
  {
    seq(|rows|, k requires 0 <= k < |rows| => rows[k].taskId)
  }

  /** At most `depth` levels below `parents`, nearest first. */
  function Down(history: History, name: string, parents: seq<TaskId>, visited: set<TaskId>, depth: nat): seq<Row>
    decreases depth
  {
    var unseen := Fresh(ChildRows(history, parents, name), visited);
    if depth == 0 || unseen == [] then []
    else unseen + Down(history, name, Ids(unseen), visited + IdSet(unseen), depth - 1)
  }

  function Reverse(rows: seq<Row>): (out: seq<Row>)
    ensures |out| == |rows|
    ensures forall k :: 0 <= k < |rows| ==> out[k] == rows[|rows| - 1 - k]
  {
    seq(|rows|, k requires 0 <= k < |rows| => rows[|rows| - 1 - k])
  }

  function Ancestors(history: History, row: Row): seq<Row> {
    Up(history, row.name, row, {row.taskId}, MAX_DEPTH)
  }

  function Descendants(history: History, row: Row): seq<Row> {
    Down(history, row.name, [row.taskId], {row.taskId} + IdSet(Ancestors(history, row)), MAX_DEPTH)
  }

  function Chain(history: History, id: TaskId): seq<Row> {
    match TaskLatest(history, id)
    case None => []
    case Some(row) => Reverse(Ancestors(history, row)) + [row] + Descendants(history, row)
  }

  // ----- The walk as it is run -----

  lemma ReverseSnoc(rows: seq<Row>, last: Row)
    ensures Reverse(rows + [last]) == [last] + Reverse(rows)
    ensures Reverse([last] + rows) == Reverse(rows) + [last]
  {
  }

  lemma IdSetAppend(a: seq<Row>, b: seq<Row>)
    ensures IdSet(a + b) == IdSet(a) + IdSet(b)
  {
    forall id | id in IdSet(a) + IdSet(b)
      ensures id in IdSet(a + b)
    {
      if id in IdSet(a) {
        var r :| r in a && r.taskId == id;
        assert r in a + b;
      } else {
        var r :| r in b && r.taskId == id;
        assert r in a + b;
      }
    }
  }

  /** `get_retry_chain`. */
  method GetRetryChain(history: History, taskId: TaskId) returns (chain: seq<Row>)
    ensures chain == Chain(history, taskId)
  {
    hide TaskLatest, Up, Down;
    var latest := TaskLatest(history, taskId);
    if latest.None? {
      return [];
    }
    var row := latest.value;
    var current, ancestors, visited := WalkUp(history, row, MAX_DEPTH);
    ReverseSnoc(ancestors, current);
    ReverseSnoc(Ancestors(history, row), row);
    ancestors := Reverse(ancestors);
    var leafId := if ancestors == [] then current.taskId else ancestors[|ancestors| - 1].taskId;
    chain := [current] + ancestors;
    assert chain == Reverse(Ancestors(history, row)) + [row];
    assert leafId == chain[|chain| - 1].taskId == row.taskId;
    var below := WalkDown(history, row.name, leafId, visited, MAX_DEPTH);
    chain := chain + below;
  }

  /** The first loop: the root of the chain, and the rows passed on the way up to it. */
  method WalkUp(history: History, row: Row, maxDepth: nat)
    returns (current: Row, ancestors: seq<Row>, visited: set<TaskId>)
    ensures ancestors + [current] == [row] + Up(history, row.name, row, {row.taskId}, maxDepth)
    ensures visited == {row.taskId} + IdSet(Up(history, row.name, row, {row.taskId}, maxDepth))
  {
    hide NextUp, TaskLatest, IdSet;
    var name := row.name;
    current, ancestors, visited := row, [], {row.taskId};
    IdSetOne(row);
    ghost var up := Up(history, name, row, visited, maxDepth);
    for k := 0 to maxDepth
      invariant visited == IdSet(ancestors + [current])
      invariant [row] + up == ancestors + [current] + Up(history, name, current, visited, maxDepth - k)
    {
      var parent := NextUp(history, name, current, visited);
      if parent.None? {
        break;
      }
      IdSetAppend(ancestors + [current], [parent.value]);
      IdSetOne(parent.value);
      visited := visited + {parent.value.taskId};
      ghost var above := Up(history, name, parent.value, visited, maxDepth - k - 1);
      assert ancestors + [current] + ([parent.value] + above) == ancestors + [current] + [parent.value] + above;
      ancestors := ancestors + [current];
      current := parent.value;
    }
    IdSetAppend([row], up);
    IdSetOne(row);
  }

  lemma NoIds()
    ensures IdSet([]) == {}
  {
  }

  lemma IdSetOne(row: Row)
    ensures IdSet([row]) == {row.taskId}
    ensures [] + [row] == [row]
  {
    assert [row][0] in [row];
  }

  /** The second loop: every level below the leaf. */
  method WalkDown(history: History, name: string, leafId: TaskId, visited: set<TaskId>, maxDepth: nat)
    returns (below: seq<Row>)
    ensures below == Down(history, name, [leafId], visited, maxDepth)
  {
    hide ChildRows, Fresh, IdSet;
    below := [];
    var levelParents, seen := [leafId], visited;
    for k := 0 to maxDepth
      invariant Down(history, name, [leafId], visited, maxDepth)
                == below + Down(history, name, levelParents, seen, maxDepth - k)
    {
      var children := ChildRows(history, levelParents, name);
      var unseen;
      unseen, seen := TakeFresh(children, seen);
      if unseen == [] {
        break;
      }
      ghost var deeper := Down(history, name, Ids(unseen), seen, maxDepth - k - 1);
      assert below + (unseen + deeper) == below + unseen + deeper;
      levelParents := Ids(unseen);
      below := below + unseen;
    }
  }

  lemma FreshFrom(children: seq<Row>, k: nat, visited: set<TaskId>)
    requires k < |children|
    ensures var c, later := children[k], children[k + 1..];
            Fresh(children[k..], visited)
            == if c.taskId in visited then Fresh(later, visited) else [c] + Fresh(later, visited + {c.taskId})
  {
    assert children[k..][1..] == children[k + 1..];
  }

  lemma FreshNone(visited: set<TaskId>)
    ensures Fresh([], visited) == []
  {
  }

  /** The filter that inserts each row's task id into `visited` and keeps the rows it was new for. */
  method TakeFresh(children: seq<Row>, visited: set<TaskId>) returns (unseen: seq<Row>, visited': set<TaskId>)
    ensures unseen == Fresh(children, visited)
    ensures visited' == visited + IdSet(unseen)
  {
    hide IdSet, Fresh;
    unseen, visited' := [], visited;
    NoIds();
    assert children[0..] == children;
    for k := 0 to |children|
      invariant Fresh(children, visited) == unseen + Fresh(children[k..], visited')
      invariant visited' == visited + IdSet(unseen)
    {
      var c := children[k];
      FreshFrom(children, k, visited');
      if c.taskId !in visited' {
        IdSetAppend(unseen, [c]);
        IdSetOne(c);
        ghost var later := Fresh(children[k + 1..], visited' + {c.taskId});
        assert unseen + ([c] + later) == unseen + [c] + later;
        unseen := unseen + [c];
        visited' := visited' + {c.taskId};
      }
    }
    FreshNone(visited');
  }
}
