/** On which histories the retry chain of every task has all its descendants. */
module RetryChainComplete {
  import opened Wrappers
  import opened TaskHistory
  import opened RetryChain
  import opened RetryChainProperties

  /** The rows after the task are its same-named descendants down to generation fifty, and no others. */
  ghost predicate ChainComplete(history: History, row: Row) {
    forall t :: t in IdSet(Descendants(history, row)) <==> InGenerations(history, row.name, row.taskId, 1, MAX_DEPTH + 1, t)
  }

  ghost predicate ChainsComplete(history: History) {
    forall row: Row | TaskLatest(history, row.taskId) == Some(row) :: ChainComplete(history, row)
  }

  // ----- Where a row of the walk down comes from -----

  /** Its event names one of the parents, so its one parent is among them. */
  lemma ChildHasParent(history: History, parents: seq<TaskId>, name: string, id: TaskId)
    requires OneParent(history) && "" !in parents && id in IdSet(ChildRows(history, parents, name))
    ensures ParentOf(history, id).Some? && ParentOf(history, id).value in parents && id != ""
  {
    hide ChildRows, MergedName, MergedParent;
    ChildIds(history, parents, name, id);
    var links := EventsOf(LinkedTo(history, parents), id);
    var e := links[0];
    assert e in links && ParentField(e) == e.parent;
  }

  lemma FreshParents(history: History, parents: seq<TaskId>, name: string, visited: set<TaskId>)
    requires OneParent(history) && "" !in parents
    ensures var unseen := Fresh(ChildRows(history, parents, name), visited);
            "" !in Ids(unseen) && (forall t :: t in Ids(unseen) ==> t in IdSet(unseen) && t !in visited)
  {
    hide ChildRows, OneParent, ParentOf;
    var unseen := Fresh(ChildRows(history, parents, name), visited);
    forall k | 0 <= k < |unseen|
      ensures unseen[k].taskId != "" && unseen[k].taskId in IdSet(unseen) && unseen[k].taskId !in visited
    {
      assert unseen[k] in unseen;
      ChildHasParent(history, parents, name, unseen[k].taskId);
    }
  }

  /** A row found below is a child of the parents, or its parent was not visited before. */
  lemma {:induction false} DownOrigin(history: History, name: string, parents: seq<TaskId>, visited: set<TaskId>,
                                      depth: nat, id: TaskId)
    requires OneParent(history) && "" !in parents && id in IdSet(Down(history, name, parents, visited, depth))
    ensures id in IdSet(ChildRows(history, parents, name))
            || (ParentOf(history, id).Some? && ParentOf(history, id).value !in visited)
    decreases depth
  {
    hide ChildRows, OneParent, ParentOf, IdSet, Down, Fresh;
    OneStepDown(history, name, parents, visited, depth);
    var unseen := Fresh(ChildRows(history, parents, name), visited);
    NoIds();
    if depth > 0 && unseen != [] {
      var parents', visited' := Ids(unseen), visited + IdSet(unseen);
      IdSetAppend(unseen, Down(history, name, parents', visited', depth - 1));
      FreshParents(history, parents, name, visited);
      if id in IdSet(unseen) {
        UnseenAreRows(ChildRows(history, parents, name), visited, id);
      } else {
        DownOrigin(history, name, parents', visited', depth - 1, id);
        if id in IdSet(ChildRows(history, parents', name)) {
          ChildHasParent(history, parents', name, id);
        }
      }
    }
  }

  lemma UnseenAreRows(rows: seq<Row>, visited: set<TaskId>, id: TaskId)
    requires id in IdSet(Fresh(rows, visited))
    ensures id in IdSet(rows)
  {
  }

  lemma {:induction false} FreshHas(rows: seq<Row>, visited: set<TaskId>, id: TaskId)
    requires id in IdSet(rows) && id !in visited
    ensures id in IdSet(Fresh(rows, visited))
  {
    hide IdSet;
    if rows == [] {
      NoIds();
    } else {
      var first, rest := rows[0], rows[1..];
      assert rows == [first] + rest;
      ConsIds(first, rest);
      if first.taskId in visited {
        FreshHas(rest, visited, id);
      } else {
        ConsIds(first, Fresh(rest, visited + {first.taskId}));
        if id != first.taskId {
          FreshHas(rest, visited + {first.taskId}, id);
        }
      }
    }
  }

  lemma FirstLevel(history: History, name: string, parents: seq<TaskId>, visited: set<TaskId>, depth: nat, id: TaskId)
    requires depth > 0 && id in IdSet(ChildRows(history, parents, name)) && id !in visited
    ensures id in IdSet(Down(history, name, parents, visited, depth))
  {
    hide ChildRows, IdSet, Down, Fresh;
    OneStepDown(history, name, parents, visited, depth);
    var unseen := Fresh(ChildRows(history, parents, name), visited);
    FreshHas(ChildRows(history, parents, name), visited, id);
    NoIds();
    IdSetAppend(unseen, Down(history, name, Ids(unseen), visited + IdSet(unseen), depth - 1));
  }

  // ----- Complete chains have links that agree -----

  /** The direct children in a complete chain are those the children query finds. */
  lemma CompleteChildren(history: History, row: Row, id: TaskId, rank: TaskId -> nat)
    requires OneParent(history) && Acyclic(history, rank)
    requires TaskLatest(history, row.taskId) == Some(row) && ChainComplete(history, row)
    requires id in Tasks(history) && ParentOf(history, id) == Some(row.taskId)
    ensures id in IdSet(ChildRows(history, [row.taskId], row.name)) <==> NameOf(history, id) == row.name
  {
    hide TaskLatest, ChildRows, IdSet, Down, Up, Acyclic, OneParent, ParentOf, NameOf, Generation, IsParentPath, IsTop, Tasks;
    var p, name := row.taskId, row.name;
    var visited := {p} + IdSet(Ancestors(history, row));
    AncestorsComplete(history, row, rank);
    LatestRow(history, p);
    TaskIdNotBlank(history, p);
    ParentRanksLower(history, id, rank);
    assert Descendants(history, row) == Down(history, name, [p], visited, MAX_DEPTH);
    assert id in IdSet(Descendants(history, row)) <==> InGenerations(history, name, p, 1, MAX_DEPTH + 1, id);
    if id in IdSet(ChildRows(history, [p], name)) {
      FirstLevel(history, name, [p], visited, MAX_DEPTH, id);
      var k :| 1 <= k < MAX_DEPTH + 1 && id in Generation(history, name, p, k);
      InGeneration(history, name, p, k, id);
    } else if NameOf(history, id) == name {
      GenerationZero(history, name, p);
      InGeneration(history, name, p, 1, id);
      assert InGenerations(history, name, p, 1, MAX_DEPTH + 1, id);
      DownOrigin(history, name, [p], visited, MAX_DEPTH, id);
    }
  }

  lemma ParentRanksLower(history: History, id: TaskId, rank: TaskId -> nat)
    requires Acyclic(history, rank) && id in Tasks(history) && ParentOf(history, id).Some?
    ensures rank(ParentOf(history, id).value) < rank(id)
  {
  }

  lemma CompleteChainsAgree(history: History, rank: TaskId -> nat)
    requires OneParent(history) && Acyclic(history, rank) && ChainsComplete(history)
    ensures LinksAgree(history)
  {
    hide TaskLatest, ChildRows, IdSet, Acyclic, ChainComplete, MergedName, MergedParent;
    forall e | e in history && ParentField(e).Some? && e.parent.value in Tasks(history)
      ensures MergedName(EventsOf(LinkedTo(history, [e.parent.value]), e.taskId)) == NameOf(history, e.parent.value)
              <==> NameOf(history, e.taskId) == NameOf(history, e.parent.value)
    {
      var p := e.parent.value;
      LatestRow(history, p);
      var row := TaskLatest(history, p).value;
      assert row.taskId == p by { LatestId(history, p); }
      assert e in EventsOf(LinkedTo(history, [p]), e.taskId);
      ChildIds(history, [p], row.name, e.taskId);
      CompleteChildren(history, row, e.taskId, rank);
    }
  }

  lemma LatestId(history: History, id: TaskId)
    ensures TaskLatest(history, id).Some? ==> TaskLatest(history, id).value.taskId == id
  {
  }

  /** Every task's chain has exactly its descendants if and only if the links agree with their tasks on names. */
  lemma ChainsCompleteExactly(history: History, rank: TaskId -> nat)
    requires OneParent(history) && Acyclic(history, rank)
    ensures ChainsComplete(history) <==> LinksAgree(history)
  {
    hide TaskLatest, OneParent, Acyclic, LinksAgree, Descendants, IdSet, InGenerations;
    if ChainsComplete(history) {
      CompleteChainsAgree(history, rank);
    }
    if LinksAgree(history) {
      forall row: Row | TaskLatest(history, row.taskId) == Some(row)
        ensures ChainComplete(history, row)
      {
        var levels := DescendantsComplete(history, row, rank);
      }
    }
  }

  /** Links that carry the names agree with them. */
  lemma NamedLinksAgree(history: History)
    requires OneParent(history) && LinksNamed(history)
    ensures LinksAgree(history)
  {
    hide MergedName, MergedParent;
  }

  // ----- Links without a name that do no harm -----

  /** The unnamed link leads to a task of another name, which no chain asks for. */
  function UnnamedElsewhere(): History {
    [Plain("a", "job", None, 0, "RETRY"), Plain("b", "", Some("a"), 1, "PENDING"), Plain("b", "other", None, 2, "SUCCESS")]
  }

  lemma UnnamedElsewhereEvents()
    ensures var h := UnnamedElsewhere();
            && EventsOf(h, "a") == [h[0]] && EventsOf(h, "b") == [h[1], h[2]]
            && EventsOf(LinkedTo(h, ["a"]), "b") == [h[1]]
  {
    hide Select;
    var h := UnnamedElsewhere();
    assert h == [h[0], h[1], h[2]];
    OfThree(h[0], h[1], h[2], (e: Event) => e.taskId == "a");
    OfThree(h[0], h[1], h[2], (e: Event) => e.taskId == "b");
    OfThree(h[0], h[1], h[2], (e: Event) => e.parent.Some? && e.parent.value in ["a"]);
    assert LinkedTo(h, ["a"]) == [h[1]];
    OfOne(h[1], (e: Event) => e.taskId == "b");
  }

  lemma UnnamedElsewhereMerged()
    ensures var h := UnnamedElsewhere();
            && ParentOf(h, "a") == None && NameOf(h, "a") == "job"
            && ParentOf(h, "b") == Some("a") && NameOf(h, "b") == "other"
            && MergedName(EventsOf(LinkedTo(h, ["a"]), "b")) == ""
  {
    hide Select, Newest;
    var h := UnnamedElsewhere();
    UnnamedElsewhereEvents();
    NewestOne(h[0], NameField);
    NewestOne(h[0], ParentField);
    NewestOne(h[1], NameField);
    NewestOne(h[1], ParentField);
    NewestTwo(h[1], h[2], NameField);
    NewestTwo(h[1], h[2], ParentField);
  }

  lemma UnnamedElsewhereLinks(rank: TaskId -> nat)
    requires rank("a") < rank("b")
    ensures var h := UnnamedElsewhere();
            OneParent(h) && !LinksNamed(h) && LinksAgree(h) && Acyclic(h, rank)
  {
    hide Select, Newest, ParentOf, NameOf, MergedName, EventsOf, LinkedTo;
    var h := UnnamedElsewhere();
    UnnamedElsewhereMerged();
    assert forall e :: e in h <==> e == h[0] || e == h[1] || e == h[2];
    assert h[0] in h && h[1] in h;
    assert Tasks(h) == {"a", "b"};
  }

  /** The links carry no names, and all chains are complete. */
  lemma UnnamedElsewhereIsComplete()
    ensures OneParent(UnnamedElsewhere()) && !LinksNamed(UnnamedElsewhere()) && ChainsComplete(UnnamedElsewhere())
  {
    hide OneParent, LinksNamed, LinksAgree, Acyclic, ChainsComplete, UnnamedElsewhere;
    var rank := (t: TaskId) => if t == "b" then 1 else 0;
    UnnamedElsewhereLinks(rank);
    ChainsCompleteExactly(UnnamedElsewhere(), rank);
  }
}
