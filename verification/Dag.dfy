/** The workflow graph drawn from the tasks of one root. */
module Dag {
  import opened Wrappers

  /** Task, group and chord identifiers, numbered in the byte order of their text. */
  type Id = nat

  datatype Node = Node(taskId: Id, group: Option<Id>, parent: Option<Id>, chord: Option<Id>)

  datatype EdgeType = Chain | Group | Chord

  datatype Edge = Edge(source: Id, target: Id, kind: EdgeType)

  datatype WorkflowDag = WorkflowDag(root: Option<Id>, nodes: seq<Node>, edges: seq<Edge>)

  function TaskIds(tasks: seq<Node>): (ids: set<Id>)
    ensures forall t :: t in tasks ==> t.taskId in ids
  {
    set t | t in tasks :: t.taskId
  }

  ghost predicate DistinctTasks(tasks: seq<Node>) {
    forall j, k :: 0 <= j < k < |tasks| ==> tasks[j].taskId != tasks[k].taskId
  }

  function Ends(edges: seq<Edge>): (ids: set<Id>)
    ensures forall e :: e in edges ==> e.source in ids && e.target in ids
  {
    (set e | e in edges :: e.source) + (set e | e in edges :: e.target)
  }

  lemma EndsSnoc(edges: seq<Edge>, e: Edge)
    ensures Ends(edges + [e]) == Ends(edges) + {e.source, e.target}
  {
    forall id | id in Ends(edges) + {e.source, e.target}
      ensures id in Ends(edges + [e])
    {
      if x :| x in edges && (x.source == id || x.target == id) {
        assert x in edges + [e];
      } else {
        assert e in edges + [e];
      }
    }
  }

  // ----- Parent links -----

  function ParentEdges(tasks: seq<Node>, ids: set<Id>): seq<Edge> {
    if tasks == [] then []
    else
      var init, t := ParentEdges(tasks[..|tasks| - 1], ids), tasks[|tasks| - 1];
      if t.parent.Some? && t.parent.value in ids then init + [Edge(t.parent.value, t.taskId, Chain)] else init
  }

  // ----- Groups and chords -----

  /** The tasks listed under a key, in the order of the input. */
  function Members(tasks: seq<Node>, key: Node -> Option<Id>, id: Id): seq<Id> {
    if tasks == [] then []
    else
      var init, t := Members(tasks[..|tasks| - 1], key, id), tasks[|tasks| - 1];
      if key(t) == Some(id) then init + [t.taskId] else init
  }

  function GroupOf(t: Node): Option<Id> { t.group }

  function ChordOf(t: Node): Option<Id> { t.chord }

  function KeysOf(tasks: seq<Node>, key: Node -> Option<Id>): set<Id> {
    set t | t in tasks && key(t).Some? :: key(t).value
  }

  /** The index from key to members that the source fills task by task. */
  method Index(tasks: seq<Node>, key: Node -> Option<Id>) returns (index: map<Id, seq<Id>>)
    ensures index.Keys == KeysOf(tasks, key)
    ensures forall id :: id in index ==> index[id] == Members(tasks, key, id)
  {
    index := map[];
    for k := 0 to |tasks|
      invariant index.Keys == KeysOf(tasks[..k], key)
      invariant forall id :: id in index ==> index[id] == Members(tasks[..k], key, id)
      invariant forall id :: id !in index ==> Members(tasks[..k], key, id) == []
    {
      var t := tasks[k];
      assert tasks[..k + 1] == tasks[..k] + [t];
      assert tasks[..k + 1][..k] == tasks[..k];
      if key(t).Some? {
        var id := key(t).value;
        index := index[id := (if id in index then index[id] else []) + [t.taskId]];
      }
    }
    assert tasks[..|tasks|] == tasks;
  }

  function PairsFrom(first: Id, others: seq<Id>): (edges: seq<Edge>)
    ensures |edges| == |others|
    ensures forall k :: 0 <= k < |others| ==> edges[k] == Edge(first, others[k], Group)
  {
    seq(|others|, k requires 0 <= k < |others| => Edge(first, others[k], Group))
  }

  /** One edge for each pair of members, from the earlier to the later. */
  function PairEdges(members: seq<Id>): seq<Edge> {
    if members == [] then [] else PairsFrom(members[0], members[1..]) + PairEdges(members[1..])
  }

  /** The task a chord leads to: the one with the chord's id, or an ungrouped one of the chord; the first in the input. */
  function Callback(tasks: seq<Node>, chord: Id): Option<Id> {
    if tasks == [] then None
    else if tasks[0].taskId == chord || (tasks[0].group.None? && tasks[0].chord == Some(chord)) then Some(tasks[0].taskId)
    else Callback(tasks[1..], chord)
  }

  function EdgesTo(members: seq<Id>, callback: Id): seq<Edge> {
    if members == [] then []
    else
      var init, m := EdgesTo(members[..|members| - 1], callback), members[|members| - 1];
      if m != callback then init + [Edge(m, callback, Chord)] else init
  }

  function ChordEdges(tasks: seq<Node>, chord: Id): seq<Edge> {
    match Callback(tasks, chord)
    case None => []
    case Some(callback) => EdgesTo(Members(tasks, ChordOf, chord), callback)
  }

  /** The edges that start at one of `sources`, in order. */
  function From(edges: seq<Edge>, sources: seq<Id>): seq<Edge> {
    if edges == [] then []
    else
      var init, e := From(edges[..|edges| - 1], sources), edges[|edges| - 1];
      if e.source in sources then init + [e] else init
  }

  // ----- The fallback chain -----

  function Unconnected(tasks: seq<Node>, connected: set<Id>): seq<Id> {
    if tasks == [] then []
    else
      var init, t := Unconnected(tasks[..|tasks| - 1], connected), tasks[|tasks| - 1];
      if t.taskId !in connected && t.group.None? then init + [t.taskId] else init
  }

  function InsertId(id: Id, ids: seq<Id>): (out: seq<Id>)
    ensures forall x :: x in out <==> x == id || x in ids
    ensures |out| == |ids| + 1
  {
    if ids == [] || id <= ids[0] then [id] + ids
    else
      assert ids == [ids[0]] + ids[1..];
      [ids[0]] + InsertId(id, ids[1..])
  }

  function SortIds(ids: seq<Id>): (out: seq<Id>)
    ensures forall x :: x in out <==> x in ids
    ensures |out| == |ids|
  {
    if ids == [] then []
    else
      assert ids == [ids[0]] + ids[1..];
      InsertId(ids[0], SortIds(ids[1..]))
  }

  /** Each id leads to the next. */
  function PathEdges(ids: seq<Id>): (edges: seq<Edge>)
    ensures |edges| == if |ids| == 0 then 0 else |ids| - 1
    ensures forall k :: 0 <= k < |edges| ==> edges[k] == Edge(ids[k], ids[k + 1], Chain)
  {
    seq(if |ids| == 0 then 0 else |ids| - 1, k requires 0 <= k < |ids| - 1 => Edge(ids[k], ids[k + 1], Chain))
  }

  // ----- Construction -----

  /** The edges in the four phases that draw them. */
  datatype Phases = Phases(parents: seq<Edge>, groups: seq<Edge>, chords: seq<Edge>, fallback: seq<Edge>)

  ghost function AllEdges(p: Phases): seq<Edge> {
    p.parents + p.groups + p.chords + p.fallback
  }

  /**
   What each phase draws. Groups and chords come in any order, but the edges of each of them are
   together and in order.
   */
  ghost predicate Draws(tasks: seq<Node>, p: Phases) {
    && p.parents == ParentEdges(tasks, TaskIds(tasks))
    && (forall g :: From(p.groups, Members(tasks, GroupOf, g)) == PairEdges(Members(tasks, GroupOf, g)))
    && (forall e :: e in p.groups ==> exists g :: e in PairEdges(Members(tasks, GroupOf, g)))
    && (forall c :: From(p.chords, Members(tasks, ChordOf, c)) == ChordEdges(tasks, c))
    && (forall e :: e in p.chords ==> exists c :: e in ChordEdges(tasks, c))
    && p.fallback == PathEdges(SortIds(Unconnected(tasks, Ends(p.parents + p.groups + p.chords))))
  }

  lemma {:induction false} FromAppend(a: seq<Edge>, b: seq<Edge>, sources: seq<Id>)
    ensures From(a + b, sources) == From(a, sources) + From(b, sources)
    decreases |b|
  {
    if b == [] {
      assert a + b == a;
    } else {
      assert (a + b)[..|a + b| - 1] == a + b[..|b| - 1];
      FromAppend(a, b[..|b| - 1], sources);
    }
  }

  lemma {:induction false} FromAllOrNone(edges: seq<Edge>, sources: seq<Id>)
    ensures (forall e :: e in edges ==> e.source in sources) ==> From(edges, sources) == edges
    ensures (forall e :: e in edges ==> e.source !in sources) ==> From(edges, sources) == []
    decreases |edges|
  {
    if edges != [] {
      assert edges == edges[..|edges| - 1] + [edges[|edges| - 1]];
      FromAllOrNone(edges[..|edges| - 1], sources);
    }
  }

  lemma {:induction false} MemberTask(tasks: seq<Node>, key: Node -> Option<Id>, id: Id, m: Id)
    ensures m in Members(tasks, key, id) <==> exists t :: t in tasks && key(t) == Some(id) && t.taskId == m
  {
    if tasks != [] {
      assert tasks == tasks[..|tasks| - 1] + [tasks[|tasks| - 1]];
      MemberTask(tasks[..|tasks| - 1], key, id, m);
    }
  }

  /** A task is listed under one key only. */
  lemma MembersDisjoint(tasks: seq<Node>, key: Node -> Option<Id>, g: Id, h: Id, m: Id)
    requires DistinctTasks(tasks) && g != h && m in Members(tasks, key, g)
    ensures m !in Members(tasks, key, h)
  {
    MemberTask(tasks, key, g, m);
    MemberTask(tasks, key, h, m);
    forall t, u | t in tasks && u in tasks && t.taskId == u.taskId
      ensures t == u
    {
      SameTask(tasks, t, u);
    }
  }

  lemma SameTask(tasks: seq<Node>, t: Node, u: Node)
    requires DistinctTasks(tasks) && t in tasks && u in tasks && t.taskId == u.taskId
    ensures t == u
  {
  }

  lemma {:induction false} PairEdgesEnds(members: seq<Id>)
    ensures forall e :: e in PairEdges(members) ==> e.kind == Group && e.source in members && e.target in members
  {
    if members != [] {
      PairEdgesEnds(members[1..]);
      assert members == [members[0]] + members[1..];
    }
  }

  lemma {:induction false} EdgesToEnds(members: seq<Id>, callback: Id)
    ensures forall e :: e in EdgesTo(members, callback) ==>
              e.kind == Chord && e.source in members && e.target == callback && e.source != callback
  {
    if members != [] {
      EdgesToEnds(members[..|members| - 1], callback);
      assert members == members[..|members| - 1] + [members[|members| - 1]];
    }
  }
}
