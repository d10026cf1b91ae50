/** What the edges of a workflow graph are. */
module DagProperties {
  import opened Wrappers
  import opened Dag

  lemma {:induction false} ParentEdge(tasks: seq<Node>, ids: set<Id>, e: Edge)
    ensures e in ParentEdges(tasks, ids)
            <==> e.kind == Chain && e.source in ids
                 && exists t :: t in tasks && t.taskId == e.target && t.parent == Some(e.source)
  {
    if tasks != [] {
      assert tasks == tasks[..|tasks| - 1] + [tasks[|tasks| - 1]];
      ParentEdge(tasks[..|tasks| - 1], ids, e);
    }
  }

  lemma {:induction false} CallbackTask(tasks: seq<Node>, chord: Id)
    ensures Callback(tasks, chord).Some? ==> exists t :: t in tasks && t.taskId == Callback(tasks, chord).value
  {
    if tasks != [] {
      CallbackTask(tasks[1..], chord);
      assert tasks == [tasks[0]] + tasks[1..];
      assert tasks[0] in tasks;
    }
  }

  lemma MembersAreTasks(tasks: seq<Node>, key: Node -> Option<Id>, id: Id)
    ensures forall m :: m in Members(tasks, key, id) ==> m in TaskIds(tasks)
  {
    forall m | m in Members(tasks, key, id)
      ensures m in TaskIds(tasks)
    {
      MemberTask(tasks, key, id, m);
    }
  }

  lemma {:induction false} UnconnectedTask(tasks: seq<Node>, connected: set<Id>, id: Id)
    ensures id in Unconnected(tasks, connected)
            <==> id !in connected && exists t :: t in tasks && t.taskId == id && t.group.None?
  {
    if tasks != [] {
      assert tasks == tasks[..|tasks| - 1] + [tasks[|tasks| - 1]];
      UnconnectedTask(tasks[..|tasks| - 1], connected, id);
    }
  }

  /** Every edge joins two tasks of the input. */
  lemma EdgesJoinTasks(tasks: seq<Node>, p: Phases)
    requires Draws(tasks, p)
    ensures Ends(AllEdges(p)) <= TaskIds(tasks)
  {
    hide Members, PairEdges, From, ChordEdges, Ends;
    var ids := TaskIds(tasks);
    forall e | e in AllEdges(p)
      ensures e.source in ids && e.target in ids
    {
      EdgeJoinsTasks(tasks, p, e);
    }
    EndsWithin(AllEdges(p), ids);
  }

  lemma EndsWithin(edges: seq<Edge>, ids: set<Id>)
    requires forall e :: e in edges ==> e.source in ids && e.target in ids
    ensures Ends(edges) <= ids
  {
  }

  lemma EdgeJoinsTasks(tasks: seq<Node>, p: Phases, e: Edge)
    requires Draws(tasks, p) && e in AllEdges(p)
    ensures e.source in TaskIds(tasks) && e.target in TaskIds(tasks)
  {
    hide Members, PairEdges, From, Ends, EdgesTo, Callback;
    var ids := TaskIds(tasks);
    if e in p.parents {
      ParentEdge(tasks, ids, e);
    } else if e in p.groups {
      var g :| e in PairEdges(Members(tasks, GroupOf, g));
      PairEdgesEnds(Members(tasks, GroupOf, g));
      MembersAreTasks(tasks, GroupOf, g);
    } else if e in p.chords {
      var c :| e in ChordEdges(tasks, c);
      CallbackTask(tasks, c);
      EdgesToEnds(Members(tasks, ChordOf, c), Callback(tasks, c).value);
      MembersAreTasks(tasks, ChordOf, c);
    } else {
      var connected := Ends(p.parents + p.groups + p.chords);
      var path := SortIds(Unconnected(tasks, connected));
      var k :| 0 <= k < |p.fallback| && p.fallback[k] == e;
      assert e.source == path[k] && e.target == path[k + 1];
      assert path[k] in path && path[k + 1] in path;
      UnconnectedTask(tasks, connected, path[k]);
      UnconnectedTask(tasks, connected, path[k + 1]);
    }
  }

  // ----- Groups -----

  lemma {:induction false} PairCount(members: seq<Id>)
    ensures 2 * |PairEdges(members)| == |members| * (|members| - 1)
  {
    if members != [] {
      PairCount(members[1..]);
      var n := |members|;
      assert 2 * |PairEdges(members)| == 2 * (n - 1) + (n - 1) * (n - 2);
    }
  }

  /** How often an edge is drawn. */
  function Times(edges: seq<Edge>, e: Edge): nat {
    if edges == [] then 0 else Times(edges[..|edges| - 1], e) + if edges[|edges| - 1] == e then 1 else 0
  }

  lemma {:induction false} TimesAppend(a: seq<Edge>, b: seq<Edge>, e: Edge)
    ensures Times(a + b, e) == Times(a, e) + Times(b, e)
    decreases |b|
  {
    if b == [] {
      assert a + b == a;
    } else {
      assert (a + b)[..|a + b| - 1] == a + b[..|b| - 1];
      TimesAppend(a, b[..|b| - 1], e);
    }
  }

  lemma {:induction false} TimesAbsent(edges: seq<Edge>, e: Edge)
    requires e !in edges
    ensures Times(edges, e) == 0
  {
    if edges != [] {
      TimesAbsent(edges[..|edges| - 1], e);
    }
  }

  lemma {:induction false} FromTimes(edges: seq<Edge>, sources: seq<Id>, e: Edge)
    requires e.source in sources
    ensures Times(From(edges, sources), e) == Times(edges, e)
  {
    if edges != [] {
      var init, last := edges[..|edges| - 1], edges[|edges| - 1];
      FromTimes(init, sources, e);
      TimesAppend(From(init, sources), [last], e);
      TimesOne(last, e);
    }
  }

  lemma TimesOne(last: Edge, e: Edge)
    ensures Times([last], e) == if last == e then 1 else 0
  {
    assert [last][..0] == [];
  }

  ghost predicate DistinctIds(ids: seq<Id>) {
    forall j, k :: 0 <= j < k < |ids| ==> ids[j] != ids[k]
  }

  lemma {:induction false} MembersDistinct(tasks: seq<Node>, key: Node -> Option<Id>, id: Id)
    requires DistinctTasks(tasks)
    ensures DistinctIds(Members(tasks, key, id))
  {
    if tasks != [] {
      var init, t := tasks[..|tasks| - 1], tasks[|tasks| - 1];
      MembersDistinct(init, key, id);
      MemberTask(init, key, id, t.taskId);
      assert t.taskId !in Members(init, key, id);
    }
  }

  lemma {:induction false} PairsFromTimes(first: Id, others: seq<Id>, e: Edge)
    requires DistinctIds(others)
    ensures Times(PairsFrom(first, others), e)
            == if e.kind == Group && e.source == first && e.target in others then 1 else 0
    decreases |others|
  {
    hide Times, PairsFrom;
    if others == [] {
      NoPairs(first, e);
    } else {
      var init, last := others[..|others| - 1], others[|others| - 1];
      PairsFromTimes(first, init, e);
      LastPair(first, others);
      TimesAppend(PairsFrom(first, init), [Edge(first, last, Group)], e);
      TimesOne(Edge(first, last, Group), e);
      assert last !in init && others == init + [last];
    }
  }

  lemma NoPairs(first: Id, e: Edge)
    ensures Times(PairsFrom(first, []), e) == 0
  {
  }

  lemma LastPair(first: Id, others: seq<Id>)
    requires others != []
    ensures PairsFrom(first, others)
            == PairsFrom(first, others[..|others| - 1]) + [Edge(first, others[|others| - 1], Group)]
  {
  }

  /** Of two members of a group, the earlier has exactly one edge to the later, and none comes back. */
  lemma {:induction false} PairOnce(members: seq<Id>, j: nat, k: nat)
    requires DistinctIds(members) && j < k < |members|
    ensures Times(PairEdges(members), Edge(members[j], members[k], Group)) == 1
    ensures Times(PairEdges(members), Edge(members[k], members[j], Group)) == 0
    decreases |members|
  {
    hide Times, PairsFrom;
    var first, rest := members[0], members[1..];
    assert forall i :: 0 <= i < |rest| ==> rest[i] == members[i + 1];
    assert DistinctIds(rest) && first !in rest;
    var there, back := Edge(members[j], members[k], Group), Edge(members[k], members[j], Group);
    TimesAppend(PairsFrom(first, rest), PairEdges(rest), there);
    TimesAppend(PairsFrom(first, rest), PairEdges(rest), back);
    PairsFromTimes(first, rest, there);
    PairsFromTimes(first, rest, back);
    if j == 0 {
      assert rest[k - 1] == members[k];
      PairEdgesEnds(rest);
      TimesAbsent(PairEdges(rest), there);
      TimesAbsent(PairEdges(rest), back);
    } else {
      PairOnce(rest, j - 1, k - 1);
      assert rest[j - 1] == members[j] && rest[k - 1] == members[k];
    }
  }

  lemma {:induction false} ChainsOnly(tasks: seq<Node>, ids: set<Id>)
    ensures forall e :: e in ParentEdges(tasks, ids) ==> e.kind == Chain
  {
    forall e | e in ParentEdges(tasks, ids)
      ensures e.kind == Chain
    {
      ParentEdge(tasks, ids, e);
    }
  }

  lemma ChordsOnly(tasks: seq<Node>, p: Phases)
    requires Draws(tasks, p)
    ensures forall e :: e in p.chords ==> e.kind == Chord
  {
    forall e | e in p.chords
      ensures e.kind == Chord
    {
      var c :| e in ChordEdges(tasks, c);
      EdgesToEnds(Members(tasks, ChordOf, c), Callback(tasks, c).value);
    }
  }

  /** Each group of n tasks has n(n-1)/2 edges, one for each unordered pair of its tasks. */
  lemma GroupIsComplete(tasks: seq<Node>, p: Phases, g: Id, j: nat, k: nat)
    requires DistinctTasks(tasks) && Draws(tasks, p) && j < k < |Members(tasks, GroupOf, g)|
    ensures var members := Members(tasks, GroupOf, g);
            && 2 * |From(p.groups, members)| == |members| * (|members| - 1)
            && Times(AllEdges(p), Edge(members[j], members[k], Group)) == 1
            && Times(AllEdges(p), Edge(members[k], members[j], Group)) == 0
  {
    hide Members, PairEdges, From, Ends, ChordEdges, Times, Unconnected, SortIds;
    var members := Members(tasks, GroupOf, g);
    MembersDistinct(tasks, GroupOf, g);
    PairCount(members);
    PairOnce(members, j, k);
    OnlyGroupEdges(tasks, p, Edge(members[j], members[k], Group), members);
    OnlyGroupEdges(tasks, p, Edge(members[k], members[j], Group), members);
  }

  lemma OnlyGroupEdges(tasks: seq<Node>, p: Phases, e: Edge, members: seq<Id>)
    requires Draws(tasks, p) && e.kind == Group && e.source in members
    ensures Times(AllEdges(p), e) == Times(From(p.groups, members), e)
  {
    hide Members, PairEdges, From, Ends, ChordEdges, Times, Unconnected, SortIds, ParentEdges;
    ChainsOnly(tasks, TaskIds(tasks));
    ChordsOnly(tasks, p);
    TimesAppend(p.parents + p.groups + p.chords, p.fallback, e);
    TimesAppend(p.parents + p.groups, p.chords, e);
    TimesAppend(p.parents, p.groups, e);
    TimesAbsent(p.parents, e);
    TimesAbsent(p.chords, e);
    TimesAbsent(p.fallback, e);
    FromTimes(p.groups, members, e);
  }

  // ----- The fallback chain -----

  ghost predicate Ascending(ids: seq<Id>) {
    forall j, k :: 0 <= j < k < |ids| ==> ids[j] < ids[k]
  }

  lemma AscendingCons(id: Id, ids: seq<Id>)
    requires Ascending(ids) && forall x :: x in ids ==> id < x
    ensures Ascending([id] + ids)
  {
    forall j, k | 0 <= j < k < |ids| + 1
      ensures ([id] + ids)[j] < ([id] + ids)[k]
    {
      assert ids[k - 1] in ids;
    }
  }

  lemma {:induction false} InsertAscending(id: Id, ids: seq<Id>)
    requires Ascending(ids) && id !in ids
    ensures Ascending(InsertId(id, ids))
  {
    if ids == [] {
      AscendingCons(id, ids);
    } else if id < ids[0] {
      AscendingCons(id, ids);
    } else {
      assert ids == [ids[0]] + ids[1..];
      InsertAscending(id, ids[1..]);
      AscendingCons(ids[0], InsertId(id, ids[1..]));
    }
  }

  lemma {:induction false} SortAscending(ids: seq<Id>)
    requires DistinctIds(ids)
    ensures Ascending(SortIds(ids))
  {
    if ids != [] {
      assert ids == [ids[0]] + ids[1..];
      SortAscending(ids[1..]);
      InsertAscending(ids[0], SortIds(ids[1..]));
    }
  }

  lemma {:induction false} UnconnectedDistinct(tasks: seq<Node>, connected: set<Id>)
    requires DistinctTasks(tasks)
    ensures DistinctIds(Unconnected(tasks, connected))
  {
    if tasks != [] {
      var init, t := tasks[..|tasks| - 1], tasks[|tasks| - 1];
      UnconnectedDistinct(init, connected);
      UnconnectedTask(init, connected, t.taskId);
      assert t.taskId !in Unconnected(init, connected);
    }
  }

  /**
   The fallback edges are one path, upwards in the order of ids, through exactly the ungrouped tasks
   that no edge of the other phases touches.
   */
  lemma FallbackIsOnePath(tasks: seq<Node>, p: Phases) returns (path: seq<Id>)
    requires DistinctTasks(tasks) && Draws(tasks, p)
    ensures p.fallback == PathEdges(path) && Ascending(path)
    ensures forall id :: id in path
              <==> id !in Ends(p.parents + p.groups + p.chords)
                   && exists t :: t in tasks && t.taskId == id && t.group.None?
  {
    hide Members, PairEdges, From, ChordEdges, Unconnected, Ends, SortIds;
    var connected := Ends(p.parents + p.groups + p.chords);
    path := SortIds(Unconnected(tasks, connected));
    UnconnectedDistinct(tasks, connected);
    SortAscending(Unconnected(tasks, connected));
    forall id
      ensures id in path <==> id !in connected && exists t :: t in tasks && t.taskId == id && t.group.None?
    {
      UnconnectedTask(tasks, connected, id);
    }
  }
}
