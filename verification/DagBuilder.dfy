/** `build_dag`, phase by phase. */
module DagBuilder {
  import opened Wrappers
  import opened Dag

  lemma EndsAppend(a: seq<Edge>, b: seq<Edge>)
    ensures Ends(a + b) == Ends(a) + Ends(b)
  {
    forall id | id in Ends(a) + Ends(b)
      ensures id in Ends(a + b)
    {
      if x :| x in a && (x.source == id || x.target == id) {
        assert x in a + b;
      } else {
        var x :| x in b && (x.source == id || x.target == id);
        assert x in a + b;
      }
    }
  }

  method BuildDag(tasks: seq<Node>) returns (dag: WorkflowDag, ghost phases: Phases)
    requires DistinctTasks(tasks)
    ensures dag.nodes == tasks
    ensures dag.root == if tasks == [] then None else Some(tasks[0].taskId)
    ensures dag.edges == AllEdges(phases) && Draws(tasks, phases)
  {
    if tasks == [] {
      NothingDrawn();
      return WorkflowDag(None, [], []), Phases([], [], [], []);
    }
    hide Ends, TaskIds, Unconnected, From, Members, PairEdges, ChordEdges;
    var parents, connected := DrawParents(tasks);
    var groups, grouped := DrawGroups(tasks);
    var chords, chorded := DrawChords(tasks);
    EndsAppend(parents, groups);
    EndsAppend(parents + groups, chords);
    connected := connected + grouped + chorded;
    var unconnected := SortIds(Unconnected(tasks, connected));
    var fallback := DrawPath(unconnected);
    phases := Phases(parents, groups, chords, fallback);
    dag := WorkflowDag(Some(tasks[0].taskId), tasks, parents + groups + chords + fallback);
  }

  lemma NothingDrawn()
    ensures Draws([], Phases([], [], [], []))
  {
    assert PathEdges([]) == [];
  }

  /** Phase 1: an edge from each task's parent, if that is a task of the graph. */
  method DrawParents(tasks: seq<Node>) returns (edges: seq<Edge>, connected: set<Id>)
    ensures edges == ParentEdges(tasks, TaskIds(tasks)) && connected == Ends(edges)
  {
    edges, connected := [], {};
    var ids := TaskIds(tasks);
    for k := 0 to |tasks|
      invariant edges == ParentEdges(tasks[..k], ids) && connected == Ends(edges)
    {
      var t := tasks[k];
      assert tasks[..k + 1][..k] == tasks[..k];
      if t.parent.Some? && t.parent.value in ids {
        EndsSnoc(edges, Edge(t.parent.value, t.taskId, Chain));
        edges := edges + [Edge(t.parent.value, t.taskId, Chain)];
        connected := connected + {t.taskId};
        connected := connected + {t.parent.value};
      }
    }
    assert tasks[..|tasks|] == tasks;
  }

  /** The inner loop over a group: the pairs of member `i` and a later one. */
  method DrawPairsFrom(members: seq<Id>, i: nat) returns (edges: seq<Edge>, connected: set<Id>)
    requires i < |members|
    ensures edges == PairsFrom(members[i], members[i + 1..]) && connected == Ends(edges)
  {
    edges, connected := [], {};
    ghost var all := PairsFrom(members[i], members[i + 1..]);
    for j := i + 1 to |members|
      invariant edges == all[..j - i - 1] && connected == Ends(edges)
    {
      var e := Edge(members[i], members[j], Group);
      EndsSnoc(edges, e);
      edges := edges + [e];
      connected := connected + {members[i]};
      connected := connected + {members[j]};
    }
  }

  /** The outer loop over the members of one group. */
  method DrawPairs(members: seq<Id>) returns (edges: seq<Edge>, connected: set<Id>)
    ensures edges == PairEdges(members) && connected == Ends(edges)
  {
    hide Ends, PairsFrom;
    edges, connected := [], {};
    NoEnds();
    assert members[0..] == members;
    for i := 0 to |members|
      invariant PairEdges(members) == edges + PairEdges(members[i..])
      invariant connected == Ends(edges)
    {
      var more, ends := DrawPairsFrom(members, i);
      assert members[i..][0] == members[i] && members[i..][1..] == members[i + 1..];
      assert edges + (more + PairEdges(members[i + 1..])) == edges + more + PairEdges(members[i + 1..]);
      EndsAppend(edges, more);
      edges := edges + more;
      connected := connected + ends;
    }
  }

  /** The edges of one key are all the edges that start at its members, and the other keys keep theirs. */
  lemma AddKey(tasks: seq<Node>, key: Node -> Option<Id>, edges: seq<Edge>, added: seq<Edge>, id: Id, other: Id)
    requires DistinctTasks(tasks)
    requires forall e :: e in added ==> e.source in Members(tasks, key, id)
    ensures From(edges + added, Members(tasks, key, other))
            == From(edges, Members(tasks, key, other)) + if other == id then added else []
  {
    FromAppend(edges, added, Members(tasks, key, other));
    FromAllOrNone(added, Members(tasks, key, other));
    if other != id {
      forall e | e in added
        ensures e.source !in Members(tasks, key, other)
      {
        MembersDisjoint(tasks, key, id, other, e.source);
      }
    }
  }

  lemma {:induction false} NoKeyNoMembers(tasks: seq<Node>, key: Node -> Option<Id>, id: Id)
    requires id !in KeysOf(tasks, key)
    ensures Members(tasks, key, id) == []
  {
    if tasks != [] {
      assert tasks == tasks[..|tasks| - 1] + [tasks[|tasks| - 1]];
      NoKeyNoMembers(tasks[..|tasks| - 1], key, id);
    }
  }

  /** Phase 2: the groups, in whatever order the map gives them. */
  method DrawGroups(tasks: seq<Node>) returns (edges: seq<Edge>, connected: set<Id>)
    requires DistinctTasks(tasks)
    ensures forall g :: From(edges, Members(tasks, GroupOf, g)) == PairEdges(Members(tasks, GroupOf, g))
    ensures forall e :: e in edges ==> exists g :: e in PairEdges(Members(tasks, GroupOf, g))
    ensures connected == Ends(edges)
  {
    hide From, Members, PairEdges, Ends, KeysOf;
    var groups := Index(tasks, GroupOf);
    edges, connected := [], {};
    NoEnds();
    var left := groups.Keys;
    forall g
      ensures From(edges, Members(tasks, GroupOf, g)) == []
    {
      FromAllOrNone([], Members(tasks, GroupOf, g));
    }
    while left != {}
      invariant left <= groups.Keys
      invariant forall g :: g in groups.Keys - left ==>
                  From(edges, Members(tasks, GroupOf, g)) == PairEdges(Members(tasks, GroupOf, g))
      invariant forall g :: g !in groups.Keys - left ==> From(edges, Members(tasks, GroupOf, g)) == []
      invariant forall e :: e in edges ==> exists g :: e in PairEdges(Members(tasks, GroupOf, g))
      invariant connected == Ends(edges)
      decreases left
    {
      var g :| g in left;
      var pairs, ends := DrawPairs(groups[g]);
      PairEdgesEnds(groups[g]);
      forall other
        ensures From(edges + pairs, Members(tasks, GroupOf, other))
                == From(edges, Members(tasks, GroupOf, other)) + if other == g then pairs else []
      {
        AddKey(tasks, GroupOf, edges, pairs, g, other);
      }
      EndsAppend(edges, pairs);
      edges := edges + pairs;
      connected := connected + ends;
      left := left - {g};
    }
    forall g | g !in groups.Keys
      ensures PairEdges(Members(tasks, GroupOf, g)) == []
    {
      NoKeyNoMembers(tasks, GroupOf, g);
      NoPairs();
    }
  }

  lemma NoEnds()
    ensures Ends([]) == {}
  {
  }

  lemma NoPairs()
    ensures PairEdges([]) == []
  {
  }

  /** The loop over the members of one chord. */
  method DrawChord(members: seq<Id>, callback: Id) returns (edges: seq<Edge>, connected: set<Id>)
    ensures edges == EdgesTo(members, callback) && connected == Ends(edges)
  {
    edges, connected := [], {};
    for k := 0 to |members|
      invariant edges == EdgesTo(members[..k], callback) && connected == Ends(edges)
    {
      assert members[..k + 1][..k] == members[..k];
      if members[k] != callback {
        EndsSnoc(edges, Edge(members[k], callback, Chord));
        edges := edges + [Edge(members[k], callback, Chord)];
        connected := connected + {members[k]};
        connected := connected + {callback};
      }
    }
    assert members[..|members|] == members;
  }

  /** Phase 3: the chords, in whatever order the map gives them. */
  method DrawChords(tasks: seq<Node>) returns (edges: seq<Edge>, connected: set<Id>)
    requires DistinctTasks(tasks)
    ensures forall c :: From(edges, Members(tasks, ChordOf, c)) == ChordEdges(tasks, c)
    ensures forall e :: e in edges ==> exists c :: e in ChordEdges(tasks, c)
    ensures connected == Ends(edges)
  {
    hide From, Members, Ends, KeysOf, EdgesTo, Callback;
    var chords := Index(tasks, ChordOf);
    edges, connected := [], {};
    NoEnds();
    var left := chords.Keys;
    forall c
      ensures From(edges, Members(tasks, ChordOf, c)) == []
    {
      FromAllOrNone([], Members(tasks, ChordOf, c));
    }
    while left != {}
      invariant left <= chords.Keys
      invariant forall c :: c in chords.Keys - left ==> From(edges, Members(tasks, ChordOf, c)) == ChordEdges(tasks, c)
      invariant forall c :: c !in chords.Keys - left ==> From(edges, Members(tasks, ChordOf, c)) == []
      invariant forall e :: e in edges ==> exists c :: e in ChordEdges(tasks, c)
      invariant connected == Ends(edges)
      decreases left
    {
      var c :| c in left;
      var callback := Callback(tasks, c);
      var drawn, ends := [], {};
      if callback.Some? {
        drawn, ends := DrawChord(chords[c], callback.value);
        EdgesToEnds(chords[c], callback.value);
      }
      assert drawn == ChordEdges(tasks, c);
      forall other
        ensures From(edges + drawn, Members(tasks, ChordOf, other))
                == From(edges, Members(tasks, ChordOf, other)) + if other == c then drawn else []
      {
        AddKey(tasks, ChordOf, edges, drawn, c, other);
      }
      EndsAppend(edges, drawn);
      edges := edges + drawn;
      connected := connected + ends;
      left := left - {c};
    }
    forall c | c !in chords.Keys
      ensures ChordEdges(tasks, c) == []
    {
      NoKeyNoMembers(tasks, ChordOf, c);
      NoChord(tasks, c);
    }
  }

  lemma NoChord(tasks: seq<Node>, c: Id)
    requires Members(tasks, ChordOf, c) == []
    ensures ChordEdges(tasks, c) == []
  {
  }

  /** Phase 4: the windows of two over the sorted leftovers. */
  method DrawPath(ids: seq<Id>) returns (edges: seq<Edge>)
    ensures edges == PathEdges(ids)
  {
    edges := [];
    var k := 0;
    while k + 1 < |ids|
      invariant k <= |ids| && (ids != [] ==> k < |ids|)
      invariant edges == PathEdges(ids)[..k]
    {
      edges := edges + [Edge(ids[k], ids[k + 1], Chain)];
      k := k + 1;
    }
  }
}
