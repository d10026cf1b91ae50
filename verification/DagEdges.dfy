/** Exactly which edges a workflow graph has, in terms of the tasks alone, each drawn once. */
module DagEdges {
  import opened Wrappers
  import opened Dag
  import opened DagProperties

  // ----- Chords -----

  /** The task that a chord leads to may be named by the chord, or be a task of it without a group. */
  ghost predicate LeadsTo(t: Node, chord: Id) {
    t.taskId == chord || (t.group == None && t.chord == Some(chord))
  }

  /** Some task m has a chord, and t is the first task of the input that the chord may lead to. */
  ghost predicate IsChordEdge(tasks: seq<Node>, m: Id, t: Id) {
    m != t && exists i, j, c ::
      && 0 <= i < |tasks| && tasks[i].taskId == m && tasks[i].chord == Some(c)
      && IsFirst(tasks, j, c) && tasks[j].taskId == t
  }

  ghost function IsFirst(tasks: seq<Node>, j: int, chord: Id): (first: bool)
    ensures first ==> 0 <= j < |tasks|
  {
    0 <= j < |tasks| && LeadsTo(tasks[j], chord) && forall l :: 0 <= l < j ==> !LeadsTo(tasks[l], chord)
  }

  lemma {:induction false} CallbackIsFirst(tasks: seq<Node>, chord: Id)
    ensures match Callback(tasks, chord)
            case None => forall j :: 0 <= j < |tasks| ==> !LeadsTo(tasks[j], chord)
            case Some(t) => exists j :: IsFirst(tasks, j, chord) && tasks[j].taskId == t
  {
    if tasks != [] {
      if LeadsTo(tasks[0], chord) {
        assert IsFirst(tasks, 0, chord);
      } else {
        var rest := tasks[1..];
        CallbackIsFirst(rest, chord);
        assert forall j :: 0 < j < |tasks| ==> tasks[j] == rest[j - 1];
        if Callback(rest, chord).Some? {
          var j :| IsFirst(rest, j, chord) && rest[j].taskId == Callback(rest, chord).value;
          assert IsFirst(tasks, j + 1, chord);
        }
      }
    }
  }

  lemma FirstUnique(tasks: seq<Node>, j: int, k: int, chord: Id)
    requires IsFirst(tasks, j, chord) && IsFirst(tasks, k, chord)
    ensures j == k
  {
  }

  lemma {:induction false} EdgesToTimes(members: seq<Id>, callback: Id, e: Edge)
    requires DistinctIds(members)
    ensures Times(EdgesTo(members, callback), e)
            == if e.kind == Chord && e.target == callback && e.source in members && e.source != callback then 1 else 0
  {
    if members != [] {
      var init, m := members[..|members| - 1], members[|members| - 1];
      assert members == init + [m] && m !in init;
      EdgesToTimes(init, callback, e);
      TimesAppend(EdgesTo(init, callback), [Edge(m, callback, Chord)], e);
      TimesOne(Edge(m, callback, Chord), e);
    }
  }

  /** How often the edges of one chord hold an edge. */
  lemma ChordTimes(tasks: seq<Node>, chord: Id, e: Edge)
    requires DistinctTasks(tasks)
    ensures Times(ChordEdges(tasks, chord), e)
            == if e.kind == Chord && Callback(tasks, chord) == Some(e.target) && e.source != e.target
                  && e.source in Members(tasks, ChordOf, chord) then 1 else 0
  {
    hide Members, EdgesTo, Callback, Times;
    MembersDistinct(tasks, ChordOf, chord);
    NoTimes(e);
    if Callback(tasks, chord).Some? {
      EdgesToTimes(Members(tasks, ChordOf, chord), Callback(tasks, chord).value, e);
    }
  }

  lemma NoTimes(e: Edge)
    ensures Times([], e) == 0
  {
  }

  lemma {:induction false} TimesPresent(edges: seq<Edge>, e: Edge)
    ensures Times(edges, e) > 0 <==> e in edges
  {
    if edges != [] {
      assert edges == edges[..|edges| - 1] + [edges[|edges| - 1]];
      TimesPresent(edges[..|edges| - 1], e);
    }
  }

  /** The edges of the other phases are of other kinds. */
  lemma ChordTimesInAll(tasks: seq<Node>, p: Phases, e: Edge)
    requires Draws(tasks, p) && e.kind == Chord
    ensures Times(AllEdges(p), e) == Times(p.chords, e)
  {
    hide Members, PairEdges, From, Ends, ChordEdges, Times, Unconnected, SortIds, ParentEdges;
    ChainsOnly(tasks, TaskIds(tasks));
    GroupsOnly(tasks, p);
    TimesAppend(p.parents + p.groups + p.chords, p.fallback, e);
    TimesAppend(p.parents + p.groups, p.chords, e);
    TimesAppend(p.parents, p.groups, e);
    TimesAbsent(p.parents, e);
    TimesAbsent(p.groups, e);
    TimesAbsent(p.fallback, e);
  }

  lemma GroupsOnly(tasks: seq<Node>, p: Phases)
    requires Draws(tasks, p)
    ensures forall e :: e in p.groups ==> e.kind == Group
  {
    forall e | e in p.groups
      ensures e.kind == Group
    {
      var g :| e in PairEdges(Members(tasks, GroupOf, g));
      PairEdgesEnds(Members(tasks, GroupOf, g));
    }
  }

  /**
   The chord edges lead from every task of a chord to the first task of the input that the chord may lead
   to, itself excepted, once each; there are no others.
   */
  lemma ChordEdgesExactly(tasks: seq<Node>, p: Phases, m: Id, t: Id)
    requires DistinctTasks(tasks) && Draws(tasks, p)
    ensures Times(AllEdges(p), Edge(m, t, Chord)) == if IsChordEdge(tasks, m, t) then 1 else 0
    ensures Edge(m, t, Chord) in AllEdges(p) <==> IsChordEdge(tasks, m, t)
  {
    hide Members, From, ChordEdges, Times, Draws, AllEdges, IsChordEdge;
    var e := Edge(m, t, Chord);
    ChordTimesInAll(tasks, p, e);
    TimesPresent(AllEdges(p), e);
    TimesPresent(p.chords, e);
    if e in p.chords {
      ChordEdgeOnly(tasks, p, m, t);
    }
    if IsChordEdge(tasks, m, t) {
      ChordEdgeDrawn(tasks, p, m, t);
    }
  }

  lemma ChordEdgeDrawn(tasks: seq<Node>, p: Phases, m: Id, t: Id)
    requires DistinctTasks(tasks) && Draws(tasks, p) && IsChordEdge(tasks, m, t)
    ensures Times(p.chords, Edge(m, t, Chord)) == 1
  {
    hide Members, PairEdges, From, ChordEdges, Times, Callback, Ends, Unconnected, SortIds, ParentEdges;
    var e := Edge(m, t, Chord);
    var i, j, c :| 0 <= i < |tasks| && tasks[i].taskId == m && tasks[i].chord == Some(c)
                   && IsFirst(tasks, j, c) && tasks[j].taskId == t;
    assert ChordOf(tasks[i]) == Some(c) && tasks[i] in tasks;
    MemberTask(tasks, ChordOf, c, m);
    CallbackIsFirst(tasks, c);
    assert Callback(tasks, c) == Some(t) by {
      assert LeadsTo(tasks[j], c);
      var k :| IsFirst(tasks, k, c) && Some(tasks[k].taskId) == Callback(tasks, c);
      FirstUnique(tasks, j, k, c);
    }
    ChordTimes(tasks, c, e);
    FromTimes(p.chords, Members(tasks, ChordOf, c), e);
  }

  lemma ChordEdgeOnly(tasks: seq<Node>, p: Phases, m: Id, t: Id)
    requires DistinctTasks(tasks) && Draws(tasks, p) && Edge(m, t, Chord) in p.chords
    ensures IsChordEdge(tasks, m, t)
  {
    hide Members, PairEdges, From, ChordEdges, Times, Callback, Ends, Unconnected, SortIds, ParentEdges;
    var e := Edge(m, t, Chord);
    var c: Id :| e in ChordEdges(tasks, c);
    TimesPresent(ChordEdges(tasks, c), e);
    ChordTimes(tasks, c, e);
    CallbackIsFirst(tasks, c);
    MemberTask(tasks, ChordOf, c, m);
    var u :| u in tasks && ChordOf(u) == Some(c) && u.taskId == m;
    var i :| 0 <= i < |tasks| && tasks[i] == u;
    var j :| IsFirst(tasks, j, c) && tasks[j].taskId == t;
  }

  // ----- Groups -----

  /** Two tasks of one group, the first of them earlier in the input. */
  ghost predicate IsGroupEdge(tasks: seq<Node>, a: Id, b: Id) {
    exists i, j :: 0 <= i < j < |tasks| && tasks[i].taskId == a && tasks[j].taskId == b
                   && tasks[i].group.Some? && tasks[i].group == tasks[j].group
  }

  ghost predicate InOrder(ids: seq<Id>, a: Id, b: Id) {
    exists j, k :: 0 <= j < k < |ids| && ids[j] == a && ids[k] == b
  }

  ghost predicate TasksInOrder(tasks: seq<Node>, key: Node -> Option<Id>, id: Id, a: Id, b: Id) {
    exists j, k :: 0 <= j < k < |tasks| && tasks[j].taskId == a && tasks[k].taskId == b
                   && key(tasks[j]) == Some(id) && key(tasks[k]) == Some(id)
  }

  lemma InOrderSnoc(ids: seq<Id>, last: Id, a: Id, b: Id)
    ensures InOrder(ids + [last], a, b) <==> InOrder(ids, a, b) || (b == last && a in ids)
  {
    var all := ids + [last];
    if InOrder(ids, a, b) {
      var j, k :| 0 <= j < k < |ids| && ids[j] == a && ids[k] == b;
      assert all[j] == a && all[k] == b;
    } else if b == last && a in ids {
      var j :| 0 <= j < |ids| && ids[j] == a;
      assert all[j] == a && all[|ids|] == b;
    }
  }

  lemma InOrderCons(first: Id, ids: seq<Id>, a: Id, b: Id)
    ensures InOrder([first] + ids, a, b) <==> InOrder(ids, a, b) || (a == first && b in ids)
  {
    var all := [first] + ids;
    if InOrder(ids, a, b) {
      var j, k :| 0 <= j < k < |ids| && ids[j] == a && ids[k] == b;
      assert all[j + 1] == a && all[k + 1] == b;
    } else if a == first && b in ids {
      var k :| 0 <= k < |ids| && ids[k] == b;
      assert all[0] == a && all[k + 1] == b;
    }
  }

  lemma TasksInOrderSnoc(tasks: seq<Node>, last: Node, key: Node -> Option<Id>, id: Id, a: Id, b: Id)
    ensures TasksInOrder(tasks + [last], key, id, a, b)
            <==> TasksInOrder(tasks, key, id, a, b)
                 || (b == last.taskId && key(last) == Some(id)
                     && exists t :: t in tasks && key(t) == Some(id) && t.taskId == a)
  {
    var all := tasks + [last];
    if TasksInOrder(tasks, key, id, a, b) {
      var j, k :| 0 <= j < k < |tasks| && tasks[j].taskId == a && tasks[k].taskId == b
                  && key(tasks[j]) == Some(id) && key(tasks[k]) == Some(id);
      assert all[j] == tasks[j] && all[k] == tasks[k];
    } else if b == last.taskId && key(last) == Some(id) {
      if t :| t in tasks && key(t) == Some(id) && t.taskId == a {
        var j :| 0 <= j < |tasks| && tasks[j] == t;
        assert all[j] == t && all[|tasks|] == last;
      }
    }
  }

  /** Members are listed in the order of the input. */
  lemma {:induction false} MembersInOrder(tasks: seq<Node>, key: Node -> Option<Id>, id: Id, a: Id, b: Id)
    ensures InOrder(Members(tasks, key, id), a, b) <==> TasksInOrder(tasks, key, id, a, b)
  {
    hide InOrder, TasksInOrder;
    if tasks == [] {
      NothingInOrder(key, id, a, b);
    } else {
      var init, t := tasks[..|tasks| - 1], tasks[|tasks| - 1];
      assert tasks == init + [t];
      MembersInOrder(init, key, id, a, b);
      MemberTask(init, key, id, a);
      TasksInOrderSnoc(init, t, key, id, a, b);
      if key(t) == Some(id) {
        InOrderSnoc(Members(init, key, id), t.taskId, a, b);
      }
    }
  }

  lemma NothingInOrder(key: Node -> Option<Id>, id: Id, a: Id, b: Id)
    ensures !InOrder([], a, b) && !TasksInOrder([], key, id, a, b)
  {
  }

  lemma {:induction false} PairTimes(members: seq<Id>, e: Edge)
    requires DistinctIds(members)
    ensures Times(PairEdges(members), e) == if e.kind == Group && InOrder(members, e.source, e.target) then 1 else 0
  {
    hide Times, PairsFrom, InOrder;
    if members == [] {
      NoTimes(e);
      NothingInOrder(GroupOf, 0, e.source, e.target);
    } else {
      var first, rest := members[0], members[1..];
      assert members == [first] + rest;
      assert DistinctIds(rest) && first !in rest;
      PairTimes(rest, e);
      PairsFromTimes(first, rest, e);
      TimesAppend(PairsFrom(first, rest), PairEdges(rest), e);
      InOrderCons(first, rest, e.source, e.target);
      OrderedAreIn(rest, e.source, e.target);
    }
  }

  lemma OrderedAreIn(ids: seq<Id>, a: Id, b: Id)
    ensures InOrder(ids, a, b) ==> a in ids && b in ids
  {
  }

  lemma GroupTimesInAll(tasks: seq<Node>, p: Phases, e: Edge)
    requires Draws(tasks, p) && e.kind == Group
    ensures Times(AllEdges(p), e) == Times(p.groups, e)
  {
    hide Members, PairEdges, From, Ends, ChordEdges, Times, Unconnected, SortIds, ParentEdges;
    ChainsOnly(tasks, TaskIds(tasks));
    ChordsOnly(tasks, p);
    TimesAppend(p.parents + p.groups + p.chords, p.fallback, e);
    TimesAppend(p.parents + p.groups, p.chords, e);
    TimesAppend(p.parents, p.groups, e);
    TimesAbsent(p.parents, e);
    TimesAbsent(p.chords, e);
    TimesAbsent(p.fallback, e);
  }

  /**
   The group edges lead from every task of a group to every later one of the same group, once each; there
   are no others.
   */
  lemma GroupEdgesExactly(tasks: seq<Node>, p: Phases, a: Id, b: Id)
    requires DistinctTasks(tasks) && Draws(tasks, p)
    ensures Times(AllEdges(p), Edge(a, b, Group)) == if IsGroupEdge(tasks, a, b) then 1 else 0
    ensures Edge(a, b, Group) in AllEdges(p) <==> IsGroupEdge(tasks, a, b)
  {
    hide Members, From, Times, AllEdges, IsGroupEdge, InOrder, PairEdges, ChordEdges, Ends, Unconnected, SortIds, ParentEdges,
      DistinctTasks;
    var e := Edge(a, b, Group);
    GroupTimesInAll(tasks, p, e);
    TimesPresent(AllEdges(p), e);
    TimesPresent(p.groups, e);
    if e in p.groups {
      var g: Id :| e in PairEdges(Members(tasks, GroupOf, g));
      TimesPresent(PairEdges(Members(tasks, GroupOf, g)), e);
      GroupHas(tasks, g, a, b);
      GroupPair(tasks, g, a, b);
      FromTimes(p.groups, Members(tasks, GroupOf, g), e);
    } else if IsGroupEdge(tasks, a, b) {
      var g := GroupOfPair(tasks, a, b);
      GroupHas(tasks, g, a, b);
      FromTimes(p.groups, Members(tasks, GroupOf, g), e);
    }
  }

  /** How often the edges of one group hold an edge. */
  lemma GroupHas(tasks: seq<Node>, g: Id, a: Id, b: Id)
    requires DistinctTasks(tasks)
    ensures var members := Members(tasks, GroupOf, g);
            && Times(PairEdges(members), Edge(a, b, Group)) == (if TasksInOrder(tasks, GroupOf, g, a, b) then 1 else 0)
            && (TasksInOrder(tasks, GroupOf, g, a, b) ==> a in members)
  {
    hide Members, Times, PairEdges, InOrder, TasksInOrder;
    var members := Members(tasks, GroupOf, g);
    MembersDistinct(tasks, GroupOf, g);
    PairTimes(members, Edge(a, b, Group));
    MembersInOrder(tasks, GroupOf, g, a, b);
    OrderedAreIn(members, a, b);
  }

  lemma GroupPair(tasks: seq<Node>, g: Id, a: Id, b: Id)
    requires TasksInOrder(tasks, GroupOf, g, a, b)
    ensures IsGroupEdge(tasks, a, b)
  {
    var j, k :| 0 <= j < k < |tasks| && tasks[j].taskId == a && tasks[k].taskId == b
                && GroupOf(tasks[j]) == Some(g) && GroupOf(tasks[k]) == Some(g);
  }

  lemma GroupOfPair(tasks: seq<Node>, a: Id, b: Id) returns (g: Id)
    requires IsGroupEdge(tasks, a, b)
    ensures TasksInOrder(tasks, GroupOf, g, a, b)
  {
    var i, j :| 0 <= i < j < |tasks| && tasks[i].taskId == a && tasks[j].taskId == b
                && tasks[i].group.Some? && tasks[i].group == tasks[j].group;
    g := tasks[i].group.value;
    assert GroupOf(tasks[i]) == Some(g) && GroupOf(tasks[j]) == Some(g);
  }

  // ----- Chains -----

  lemma {:induction false} ParentTimes(tasks: seq<Node>, ids: set<Id>, e: Edge)
    requires DistinctTasks(tasks)
    ensures Times(ParentEdges(tasks, ids), e) <= 1
  {
    if tasks != [] {
      var init, t := tasks[..|tasks| - 1], tasks[|tasks| - 1];
      assert tasks == init + [t];
      ParentTimes(init, ids, e);
      ParentEdge(init, ids, e);
      TimesPresent(ParentEdges(init, ids), e);
      if t.parent.Some? && t.parent.value in ids {
        var last := Edge(t.parent.value, t.taskId, Chain);
        TimesAppend(ParentEdges(init, ids), [last], e);
        TimesOne(last, e);
      }
    }
  }

  /** The parent of the task `b` is the task `a` of the input. */
  ghost predicate IsParentEdge(tasks: seq<Node>, a: Id, b: Id) {
    && (exists t :: t in tasks && t.taskId == a)
    && exists t :: t in tasks && t.taskId == b && t.parent == Some(a)
  }

  /** A task without a group that no parent link, group or chord touches. */
  ghost predicate IsLoose(tasks: seq<Node>, id: Id) {
    && (exists t :: t in tasks && t.taskId == id && t.group == None)
    && forall x :: !IsParentEdge(tasks, id, x) && !IsParentEdge(tasks, x, id)
                   && !IsGroupEdge(tasks, id, x) && !IsGroupEdge(tasks, x, id)
                   && !IsChordEdge(tasks, id, x) && !IsChordEdge(tasks, x, id)
  }

  lemma ParentsExactly(tasks: seq<Node>, p: Phases, a: Id, b: Id)
    requires Draws(tasks, p)
    ensures Edge(a, b, Chain) in p.parents <==> IsParentEdge(tasks, a, b)
  {
    hide Members, PairEdges, From, ChordEdges, Ends, Unconnected, SortIds, ParentEdges;
    ParentEdge(tasks, TaskIds(tasks), Edge(a, b, Chain));
  }

  /** What the first three phases touch. */
  lemma TouchedExactly(tasks: seq<Node>, p: Phases, id: Id)
    requires DistinctTasks(tasks) && Draws(tasks, p)
    ensures id in Ends(p.parents + p.groups + p.chords)
            <==> exists x :: IsParentEdge(tasks, id, x) || IsParentEdge(tasks, x, id)
                             || IsGroupEdge(tasks, id, x) || IsGroupEdge(tasks, x, id)
                             || IsChordEdge(tasks, id, x) || IsChordEdge(tasks, x, id)
  {
    hide IsParentEdge, IsGroupEdge, IsChordEdge, Draws, DistinctTasks;
    var edges := p.parents + p.groups + p.chords;
    forall a, b
      ensures Edge(a, b, Chain) in edges <==> IsParentEdge(tasks, a, b)
      ensures Edge(a, b, Group) in edges <==> IsGroupEdge(tasks, a, b)
      ensures Edge(a, b, Chord) in edges <==> IsChordEdge(tasks, a, b)
    {
      KindsApart(tasks, p, a, b);
      ParentsExactly(tasks, p, a, b);
      GroupEdgesExactly(tasks, p, a, b);
      ChordEdgesExactly(tasks, p, a, b);
    }
    TouchedByEdges(tasks, edges, id);
  }

  lemma TouchedByEdges(tasks: seq<Node>, edges: seq<Edge>, id: Id)
    requires forall a, b :: Edge(a, b, Chain) in edges <==> IsParentEdge(tasks, a, b)
    requires forall a, b :: Edge(a, b, Group) in edges <==> IsGroupEdge(tasks, a, b)
    requires forall a, b :: Edge(a, b, Chord) in edges <==> IsChordEdge(tasks, a, b)
    ensures id in Ends(edges)
            <==> exists x :: IsParentEdge(tasks, id, x) || IsParentEdge(tasks, x, id)
                             || IsGroupEdge(tasks, id, x) || IsGroupEdge(tasks, x, id)
                             || IsChordEdge(tasks, id, x) || IsChordEdge(tasks, x, id)
  {
    hide IsParentEdge, IsGroupEdge, IsChordEdge;
    if e :| e in edges && (e.source == id || e.target == id) {
      var x := if e.source == id then e.target else e.source;
      assert e.kind == Chain || e.kind == Group || e.kind == Chord;
      assert e == Edge(e.source, e.target, e.kind);
      assert e.kind == Chain ==> Edge(e.source, e.target, Chain) in edges;
      assert e.kind == Group ==> Edge(e.source, e.target, Group) in edges;
      assert e.kind == Chord ==> Edge(e.source, e.target, Chord) in edges;
      assert IsParentEdge(tasks, id, x) || IsParentEdge(tasks, x, id) || IsGroupEdge(tasks, id, x)
             || IsGroupEdge(tasks, x, id) || IsChordEdge(tasks, id, x) || IsChordEdge(tasks, x, id);
    }
    if x :| IsParentEdge(tasks, id, x) || IsParentEdge(tasks, x, id) || IsGroupEdge(tasks, id, x)
            || IsGroupEdge(tasks, x, id) || IsChordEdge(tasks, id, x) || IsChordEdge(tasks, x, id) {
      assert exists e :: e in edges && (e.source == id || e.target == id) by {
        assert Edge(id, x, Chain) in edges || Edge(x, id, Chain) in edges || Edge(id, x, Group) in edges
               || Edge(x, id, Group) in edges || Edge(id, x, Chord) in edges || Edge(x, id, Chord) in edges;
      }
    }
  }

  /** The phases before the fallback hold the edges of groups and chords, and the parent links. */
  lemma KindsApart(tasks: seq<Node>, p: Phases, a: Id, b: Id)
    requires Draws(tasks, p)
    ensures var edges := p.parents + p.groups + p.chords;
            && (Edge(a, b, Chain) in edges <==> Edge(a, b, Chain) in p.parents)
            && (Edge(a, b, Group) in edges <==> Edge(a, b, Group) in AllEdges(p))
            && (Edge(a, b, Chord) in edges <==> Edge(a, b, Chord) in AllEdges(p))
  {
    hide Members, PairEdges, From, ChordEdges, Ends, Unconnected, SortIds, ParentEdges;
    ChainsOnly(tasks, TaskIds(tasks));
    GroupsOnly(tasks, p);
    ChordsOnly(tasks, p);
  }

  /**
   The chain edges are the parent links within the input, once each, and one path upwards through the
   loose tasks.
   */
  lemma ChainEdgesExactly(tasks: seq<Node>, p: Phases) returns (path: seq<Id>)
    requires DistinctTasks(tasks) && Draws(tasks, p)
    ensures Ascending(path) && forall id :: id in path <==> IsLoose(tasks, id)
    ensures forall a, b :: Edge(a, b, Chain) in AllEdges(p)
                           <==> IsParentEdge(tasks, a, b) || exists k :: 0 < k < |path| && path[k - 1] == a && path[k] == b
    ensures forall e: Edge :: e.kind == Chain ==> Times(AllEdges(p), e) <= 1
  {
    hide DistinctTasks, IsParentEdge, IsGroupEdge, IsChordEdge, Draws, Times, AllEdges, Ascending, Ends;
    path := FallbackIsOnePath(tasks, p);
    forall id
      ensures id in path <==> IsLoose(tasks, id)
    {
      TouchedExactly(tasks, p, id);
    }
    forall a, b
      ensures Edge(a, b, Chain) in AllEdges(p)
              <==> IsParentEdge(tasks, a, b) || exists k :: 0 < k < |path| && path[k - 1] == a && path[k] == b
    {
      ChainsInAll(tasks, p, a, b);
      ParentsExactly(tasks, p, a, b);
      PathEdge(path, a, b);
    }
    forall e: Edge | e.kind == Chain
      ensures Times(AllEdges(p), e) <= 1
    {
      ChainOnce(tasks, p, path, e);
    }
  }

  lemma ChainsInAll(tasks: seq<Node>, p: Phases, a: Id, b: Id)
    requires Draws(tasks, p)
    ensures Edge(a, b, Chain) in AllEdges(p) <==> Edge(a, b, Chain) in p.parents || Edge(a, b, Chain) in p.fallback
  {
    hide Members, PairEdges, From, ChordEdges, Ends, Unconnected, SortIds, ParentEdges;
    GroupsOnly(tasks, p);
    ChordsOnly(tasks, p);
  }

  lemma PathEdge(path: seq<Id>, a: Id, b: Id)
    ensures Edge(a, b, Chain) in PathEdges(path) <==> exists k :: 0 < k < |path| && path[k - 1] == a && path[k] == b
  {
    var edges := PathEdges(path);
    if k :| 0 < k < |path| && path[k - 1] == a && path[k] == b {
      assert edges[k - 1] == Edge(a, b, Chain);
    }
    if Edge(a, b, Chain) in edges {
      var k :| 0 <= k < |edges| && edges[k] == Edge(a, b, Chain);
      assert path[k + 1 - 1] == a && path[k + 1] == b;
    }
  }

  lemma {:induction false} PathTimes(path: seq<Id>, e: Edge)
    requires Ascending(path)
    ensures Times(PathEdges(path), e) <= 1
  {
    hide Times, PathEdges;
    if |path| <= 1 {
      ShortPath(path, e);
    } else {
      var init, last := path[..|path| - 1], Edge(path[|path| - 2], path[|path| - 1], Chain);
      PathTimes(init, e);
      PathSnoc(path);
      TimesAppend(PathEdges(init), [last], e);
      TimesOne(last, e);
      TimesPresent(PathEdges(init), e);
      if e == last {
        PathEdge(init, e.source, e.target);
      }
    }
  }

  lemma ShortPath(path: seq<Id>, e: Edge)
    requires |path| <= 1
    ensures Times(PathEdges(path), e) == 0
  {
  }

  lemma PathSnoc(path: seq<Id>)
    requires |path| > 1
    ensures PathEdges(path)
            == PathEdges(path[..|path| - 1]) + [Edge(path[|path| - 2], path[|path| - 1], Chain)]
  {
  }

  /** A task of the path has no parent link, so no edge is drawn in both phases. */
  lemma ChainOnce(tasks: seq<Node>, p: Phases, path: seq<Id>, e: Edge)
    requires DistinctTasks(tasks) && Draws(tasks, p) && e.kind == Chain
    requires p.fallback == PathEdges(path) && Ascending(path) && forall id :: id in path ==> IsLoose(tasks, id)
    ensures Times(AllEdges(p), e) <= 1
  {
    hide Members, PairEdges, From, ChordEdges, Ends, Times, Unconnected, SortIds, ParentEdges, IsParentEdge, IsGroupEdge,
      IsChordEdge, DistinctTasks, PathEdges, Ascending;
    GroupsOnly(tasks, p);
    ChordsOnly(tasks, p);
    TimesAppend(p.parents + p.groups + p.chords, p.fallback, e);
    TimesAppend(p.parents + p.groups, p.chords, e);
    TimesAppend(p.parents, p.groups, e);
    TimesAbsent(p.groups, e);
    TimesAbsent(p.chords, e);
    ParentTimes(tasks, TaskIds(tasks), e);
    PathTimes(path, e);
    TimesPresent(p.parents, e);
    TimesPresent(p.fallback, e);
    if e in p.fallback {
      PathEdge(path, e.source, e.target);
      ParentsExactly(tasks, p, e.source, e.target);
      assert IsLoose(tasks, e.source);
    }
  }
}
