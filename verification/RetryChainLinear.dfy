/**
 The retry chains of linear histories: which list each attempt gives, and when all give the same.
 */
module RetryChainLinear {
  import opened Wrappers
  import opened TaskHistory
  import opened RetryChain
  import opened RetryChainProperties

  // ----- A linear chain of attempts -----

  /** `attempts`, root first, are all the same-named tasks around them, each the parent of the next. */
  ghost predicate IsLinear(history: History, name: string, attempts: seq<TaskId>) {
    && (forall k :: 0 <= k < |attempts| ==>
          attempts[k] in Tasks(history) && NameOf(history, attempts[k]) == name)
    && (forall k :: 0 < k < |attempts| ==> ParentOf(history, attempts[k]) == Some(attempts[k - 1]))
    && (forall t, k | t in Tasks(history) && 0 <= k < |attempts| && NameOf(history, t) == name
                      && ParentOf(history, t) == Some(attempts[k]) ::
          k + 1 < |attempts| && t == attempts[k + 1])
    && (attempts != [] && ParentOf(history, attempts[0]).Some? ==>
          var p := ParentOf(history, attempts[0]).value;
          p !in Tasks(history) || NameOf(history, p) != name)
  }

  lemma {:induction false} LinearGenerations(history: History, name: string, attempts: seq<TaskId>, q: nat, k: nat)
    requires IsLinear(history, name, attempts) && q < |attempts|
    ensures Generation(history, name, attempts[q], k)
            == if q + k < |attempts| then {attempts[q + k]} else {}
  {
    hide ParentOf, NameOf;
    if k > 0 {
      LinearGenerations(history, name, attempts, q, k - 1);
      if q + k < |attempts| {
        assert ParentOf(history, attempts[q + k]) == Some(attempts[q + k - 1]);
      }
    }
  }

  lemma {:induction false} LinearUp(history: History, name: string, attempts: seq<TaskId>, q: nat, row: Row, up: seq<Row>)
    requires IsLinear(history, name, attempts) && q < |attempts| <= MAX_DEPTH + 1
    requires TaskLatest(history, attempts[q]) == Some(row)
    requires IsParentPath(history, row, up) && AllNamed(up, name)
    requires |up| == MAX_DEPTH || IsTop(history, name, TopOf(row, up))
    ensures |up| == q && forall k :: 0 <= k < q ==> up[k].taskId == attempts[q - 1 - k]
  {
    hide TaskLatest, ParentOf, NameOf;
    var n := 0;
    LatestRow(history, attempts[q]);
    while n < |up| && n < q
      invariant n <= |up| && n <= q
      invariant forall k :: 0 <= k < n ==> up[k].taskId == attempts[q - 1 - k]
    {
      var below := Below(row, up, n);
      assert below.taskId == attempts[q - n];
      LatestRow(history, below.taskId);
      assert TaskLatest(history, up[n].taskId) == Some(up[n]);
      assert below.parent == Some(up[n].taskId);
      assert ParentOf(history, attempts[q - n]) == Some(attempts[q - n - 1]);
      n := n + 1;
    }
    var top := Below(row, up, n);
    LatestRow(history, top.taskId);
    assert top.taskId == attempts[q - n];
    assert n < |up| ==> up[n] in up && top.parent == Some(up[n].taskId);
    if n < |up| {
      LatestRow(history, up[n].taskId);
    } else if n < q {
      LinearLink(history, name, attempts, q - n);
    }
  }

  lemma TwoRows(rows: seq<Row>)
    requires |rows| > 1 && DistinctIds(rows)
    ensures rows[0].taskId in IdSet(rows) && rows[1].taskId in IdSet(rows) && rows[0].taskId != rows[1].taskId
  {
    assert rows[0] in rows && rows[1] in rows;
  }

  lemma OneRow(rows: seq<Row>, id: TaskId)
    requires rows != [] && DistinctIds(rows) && IdSet(rows) <= {id}
    ensures |rows| == 1 && rows[0].taskId == id
  {
    assert forall k :: 0 <= k < |rows| ==> rows[k] in rows && rows[k].taskId in IdSet(rows);
    if |rows| > 1 {
      TwoRows(rows);
    }
  }

  lemma IdsOfOneMore(level: seq<Row>, rows: seq<Row>)
    requires |level| == 1
    ensures Ids(level + rows) == [level[0].taskId] + Ids(rows)
  {
  }

  lemma {:induction false} LinearDown(history: History, name: string, attempts: seq<TaskId>, q: nat,
                                      levels: seq<seq<Row>>, first: nat)
    requires IsLinear(history, name, attempts) && q < |attempts| <= q + first + |levels|
    requires AreGenerations(levels, history, name, attempts[q], first)
    ensures Ids(Flatten(levels)) == if q + first < |attempts| then attempts[q + first..] else []
    decreases |levels|
  {
    hide Generation, SortedByTime, IsLinear, Flatten, Ids, DistinctIds;
    if levels == [] {
      NothingFlat();
    } else {
      var level, rest := levels[0], levels[1..];
      assert levels == [level] + rest;
      FlattenCons(level, rest);
      forall j | 0 <= j < |rest|
        ensures IdSet(rest[j]) == Generation(history, name, attempts[q], first + 1 + j)
        ensures DistinctIds(rest[j]) && SortedByTime(rest[j])
      {
        assert rest[j] == levels[j + 1];
      }
      LinearDown(history, name, attempts, q, rest, first + 1);
      LinearGenerations(history, name, attempts, q, first);
      if level == [] {
        NoIds();
        assert [] + Flatten(rest) == Flatten(rest);
      } else {
        FirstId(level);
        OneRow(level, attempts[q + first]);
        IdsOfOneMore(level, Flatten(rest));
      }
    }
  }

  /** The row the walk down gives an attempt: merged from the events that name its parent. */
  ghost function LinkRow(history: History, id: TaskId): Row
    requires LinkEvents(history, id) != []
  {
    Merge(id, LinkEvents(history, id))
  }

  lemma LinearLinks(history: History, name: string, attempts: seq<TaskId>, k: nat)
    requires IsLinear(history, name, attempts) && 0 < k < |attempts|
    ensures LinkEvents(history, attempts[k]) != []
  {
    hide LinkedTo;
    LinearLink(history, name, attempts, k);
    ParentNotBlank(EventsOf(history, attempts[k]));
    var e :| e in EventsOf(history, attempts[k]) && ParentField(e) == Some(attempts[k - 1]);
    assert e in LinkedTo(history, [attempts[k - 1]]);
    assert e in LinkEvents(history, attempts[k]);
  }

  /**
   Whichever attempt of a linear chain is queried, the answer lists the whole chain from root to last.
   The attempts up to the queried one are merged from all their events, the later ones from their
   linking events only.
   */
  lemma LinearChain(history: History, name: string, attempts: seq<TaskId>, q: nat, rank: TaskId -> nat)
    requires OneParent(history) && LinksAgree(history) && Acyclic(history, rank)
    requires IsLinear(history, name, attempts) && q < |attempts| <= MAX_DEPTH + 1
    ensures Ids(Chain(history, attempts[q])) == attempts
    ensures forall k :: 0 <= k <= q ==> TaskLatest(history, attempts[k]) == Some(Chain(history, attempts[q])[k])
    ensures forall k :: q < k < |attempts| ==> IsLinkRow(history, Chain(history, attempts[q])[k])
  {
    hide TaskLatest, Up, Down, Generation, IsLinear, OneParent, LinksAgree, Acyclic, IsParentPath, IsTop, AreGenerations,
      Flatten, Ids, IdSet, IsLinkRow, Descendants, Ancestors;
    LinearMember(history, name, attempts, q);
    LatestRow(history, attempts[q]);
    var row := TaskLatest(history, attempts[q]).value;
    var up := Ancestors(history, row);
    AncestorsComplete(history, row, rank);
    LinearUp(history, name, attempts, q, row, up);
    PathRows(history, row, up);
    var down := LinearDescendants(history, name, attempts, q, row, rank);
    assert Chain(history, attempts[q]) == Reverse(up) + [row] + down;
    JoinedChain(attempts, q, up, row, down);
    RowsOfChain(history, attempts, q, up, row, down);
  }

  lemma LinearDescendants(history: History, name: string, attempts: seq<TaskId>, q: nat, row: Row, rank: TaskId -> nat)
    returns (down: seq<Row>)
    requires OneParent(history) && LinksAgree(history) && Acyclic(history, rank)
    requires IsLinear(history, name, attempts) && q < |attempts| <= MAX_DEPTH + 1
    requires TaskLatest(history, attempts[q]) == Some(row) && row.name == name
    ensures down == Descendants(history, row) && Ids(down) == attempts[q + 1..]
    ensures forall r :: r in down ==> IsLinkRow(history, r)
  {
    hide TaskLatest, Generation, IsLinear, OneParent, LinksAgree, Acyclic, AreGenerations, Flatten, Ids, IdSet, IsLinkRow,
      Descendants;
    var levels := DescendantsComplete(history, row, rank);
    down := Descendants(history, row);
    if |levels| < MAX_DEPTH {
      LinearGenerations(history, name, attempts, q, 1 + |levels|);
    }
    LinearDown(history, name, attempts, q, levels, 1);
  }

  lemma PathRows(history: History, row: Row, up: seq<Row>)
    requires IsParentPath(history, row, up)
    ensures forall k :: 0 <= k < |up| ==> TaskLatest(history, up[k].taskId) == Some(up[k])
  {
  }

  lemma JoinedChain(attempts: seq<TaskId>, q: nat, up: seq<Row>, row: Row, down: seq<Row>)
    requires q < |attempts| && row.taskId == attempts[q]
    requires |up| == q && forall k :: 0 <= k < q ==> up[k].taskId == attempts[q - 1 - k]
    requires Ids(down) == attempts[q + 1..]
    ensures Ids(Reverse(up) + [row] + down) == attempts
  {
    var ids := Ids(Reverse(up) + [row] + down);
    assert |Ids(down)| == |attempts| - q - 1;
    forall k | 0 <= k < |attempts|
      ensures ids[k] == attempts[k]
    {
      if k < q {
        assert ids[k] == up[q - 1 - k].taskId;
      } else if k > q {
        assert ids[k] == Ids(down)[k - q - 1];
      }
    }
  }

  lemma RowsOfChain(history: History, attempts: seq<TaskId>, q: nat, up: seq<Row>, row: Row, down: seq<Row>)
    requires q < |attempts| && TaskLatest(history, attempts[q]) == Some(row)
    requires |up| == q && forall k :: 0 <= k < q ==> up[k].taskId == attempts[q - 1 - k]
    requires forall k :: 0 <= k < q ==> TaskLatest(history, up[k].taskId) == Some(up[k])
    requires forall r :: r in down ==> IsLinkRow(history, r)
    ensures var chain := Reverse(up) + [row] + down;
            && (forall k :: 0 <= k <= q ==> TaskLatest(history, attempts[k]) == Some(chain[k]))
            && (forall k :: q < k < |chain| ==> IsLinkRow(history, chain[k]))
  {
    hide TaskLatest, IsLinkRow;
    var chain := Reverse(up) + [row] + down;
    forall k | 0 <= k < q
      ensures TaskLatest(history, attempts[k]) == Some(chain[k])
    {
      assert chain[k] == up[q - 1 - k];
    }
    forall k | q < k < |chain|
      ensures IsLinkRow(history, chain[k])
    {
      assert chain[k] == down[k - q - 1] && down[k - q - 1] in down;
    }
  }

  lemma LinearLink(history: History, name: string, attempts: seq<TaskId>, k: nat)
    requires IsLinear(history, name, attempts) && 0 < k < |attempts|
    ensures ParentOf(history, attempts[k]) == Some(attempts[k - 1])
  {
  }

  lemma LinearMember(history: History, name: string, attempts: seq<TaskId>, q: nat)
    requires IsLinear(history, name, attempts) && q < |attempts|
    ensures attempts[q] in Tasks(history) && NameOf(history, attempts[q]) == name
  {
  }

  // ----- When all attempts give one list -----

  /** Whichever attempt is queried, the answer is the same list of rows. */
  ghost predicate ChainsAgree(history: History, attempts: seq<TaskId>) {
    forall q, q' :: 0 <= q < |attempts| && 0 <= q' < |attempts| ==>
      Chain(history, attempts[q]) == Chain(history, attempts[q'])
  }

  /** Every column comes out the same from the events that name the task's parent as from all its events. */
  ghost predicate LinksCarryRow(history: History, id: TaskId) {
    var links, all := LinkEvents(history, id), EventsOf(history, id);
    && links != [] && all != []
    && Newest(links, LatestField) == Newest(all, LatestField)
    && MaxRetries(links) == MaxRetries(all)
    && links[0].agent == all[0].agent
    && forall c :: MergedColumn(links, c) == MergedColumn(all, c)
  }

  lemma SameColumnsExactly(a: seq<Event>, b: seq<Event>)
    ensures MergedColumns(a) == MergedColumns(b) <==> forall c :: MergedColumn(a, c) == MergedColumn(b, c)
  {
    hide MergedColumn;
    var x, y := MergedColumns(a), MergedColumns(b);
    if x == y {
      forall c
        ensures MergedColumn(a, c) == MergedColumn(b, c)
      {
        assert c in x <==> c in y;
      }
    }
    if forall c :: MergedColumn(a, c) == MergedColumn(b, c) {
      assert forall c :: c in x <==> c in y;
    }
  }

  /** The two rows of an attempt are equal exactly if its linking events carry every column. */
  lemma SameRowExactly(history: History, name: string, attempts: seq<TaskId>, k: nat)
    requires OneParent(history) && LinksAgree(history)
    requires IsLinear(history, name, attempts) && 0 < k < |attempts|
    ensures LinkEvents(history, attempts[k]) != []
    ensures TaskLatest(history, attempts[k]) == Some(LinkRow(history, attempts[k]))
            <==> LinksCarryRow(history, attempts[k])
  {
    hide Newest, LinkedTo, IsLinear, OneParent, LinksAgree, MergedColumn, MergedColumns, MaxRetries, MergedName, MergedParent;
    var id := attempts[k];
    LinearLinks(history, name, attempts, k);
    LinearLink(history, name, attempts, k);
    LinearMember(history, name, attempts, k);
    LinearMember(history, name, attempts, k - 1);
    LatestRow(history, id);
    LinkMerges(history, id, attempts[k - 1]);
    var links, all := LinkEvents(history, id), EventsOf(history, id);
    NewestExists(links);
    NewestExists(all);
    SameColumnsExactly(links, all);
  }

  lemma NewestExists(events: seq<Event>)
    requires events != []
    ensures Newest(events, LatestField).Some?
  {
    assert events[0] in events;
  }

  /** The linking events give the same name and parent as all events. */
  lemma LinkMerges(history: History, id: TaskId, p: TaskId)
    requires OneParent(history) && LinksAgree(history) && ParentOf(history, id) == Some(p)
    requires p in Tasks(history) && NameOf(history, id) == NameOf(history, p)
    requires LinkEvents(history, id) != []
    ensures MergedName(LinkEvents(history, id)) == NameOf(history, id)
    ensures MergedParent(LinkEvents(history, id)) == Some(p)
  {
    hide MergedName;
    var links := LinkEvents(history, id);
    ParentNotBlank(EventsOf(history, id));
    var e := links[0];
    assert e in links && e in history && e.taskId == id;
    assert ParentField(e) == Some(p);
    forall x | x in links
      ensures ParentField(x) == Some(p)
    {
      assert x.parent == Some(p);
    }
  }

  lemma LinkRowIs(history: History, r: Row)
    requires IsLinkRow(history, r)
    ensures LinkEvents(history, r.taskId) != [] && r == LinkRow(history, r.taskId)
  {
  }

  /**
   On a linear chain all attempts give the same list exactly if the linking events of every attempt
   but the first carry every column.
   */
  lemma LinearChainsAgreeExactly(history: History, name: string, attempts: seq<TaskId>, rank: TaskId -> nat)
    requires OneParent(history) && LinksAgree(history) && Acyclic(history, rank)
    requires IsLinear(history, name, attempts) && |attempts| <= MAX_DEPTH + 1
    ensures ChainsAgree(history, attempts) <==> forall k :: 0 < k < |attempts| ==> LinksCarryRow(history, attempts[k])
  {
    hide TaskLatest, Chain, IsLinkRow, LinkRow, LinksCarryRow, IsLinear, OneParent, LinksAgree, Acyclic, Ids;
    forall q | 0 <= q < |attempts|
      ensures |Chain(history, attempts[q])| == |attempts|
      ensures forall k :: 0 <= k < |attempts| ==> IsRowAt(history, attempts, q, k)
    {
      LinearChain(history, name, attempts, q, rank);
      RowsAt(history, attempts, q);
    }
    forall k | 0 < k < |attempts|
      ensures LinkEvents(history, attempts[k]) != []
      ensures TaskLatest(history, attempts[k]) == Some(LinkRow(history, attempts[k]))
              <==> LinksCarryRow(history, attempts[k])
    {
      SameRowExactly(history, name, attempts, k);
    }
    if ChainsAgree(history, attempts) {
      forall k | 0 < k < |attempts|
        ensures LinksCarryRow(history, attempts[k])
      {
        assert IsRowAt(history, attempts, 0, k) && IsRowAt(history, attempts, k, k);
      }
    }
    if forall k :: 0 < k < |attempts| ==> LinksCarryRow(history, attempts[k]) {
      forall q, q' | 0 <= q < |attempts| && 0 <= q' < |attempts|
        ensures Chain(history, attempts[q]) == Chain(history, attempts[q'])
      {
        forall k | 0 <= k < |attempts|
          ensures Chain(history, attempts[q])[k] == Chain(history, attempts[q'])[k]
        {
          assert IsRowAt(history, attempts, q, k) && IsRowAt(history, attempts, q', k);
        }
      }
    }
  }

  /** What place k of the answer for attempt q holds. */
  ghost predicate IsRowAt(history: History, attempts: seq<TaskId>, q: nat, k: nat)
    requires q < |attempts| && k < |attempts| && k < |Chain(history, attempts[q])|
  {
    var r := Chain(history, attempts[q])[k];
    if k <= q then TaskLatest(history, attempts[k]) == Some(r)
    else LinkEvents(history, attempts[k]) != [] && r == LinkRow(history, attempts[k])
  }

  lemma RowsAt(history: History, attempts: seq<TaskId>, q: nat)
    requires q < |attempts| && Ids(Chain(history, attempts[q])) == attempts
    requires forall k :: 0 <= k <= q ==> TaskLatest(history, attempts[k]) == Some(Chain(history, attempts[q])[k])
    requires forall k :: q < k < |attempts| ==> IsLinkRow(history, Chain(history, attempts[q])[k])
    ensures |Chain(history, attempts[q])| == |attempts|
    ensures forall k :: 0 <= k < |attempts| ==> IsRowAt(history, attempts, q, k)
  {
    hide TaskLatest, Chain, IsLinkRow, LinkRow;
    var chain := Chain(history, attempts[q]);
    forall k | q < k < |attempts|
      ensures LinkEvents(history, attempts[k]) != [] && chain[k] == LinkRow(history, attempts[k])
    {
      assert Ids(chain)[k] == chain[k].taskId;
      LinkRowIs(history, chain[k]);
    }
  }

  // ----- When every event names the parent -----

  /** If every event of every attempt names its parent, all attempts give one list. */
  lemma EveryEventLinks(history: History, name: string, attempts: seq<TaskId>, rank: TaskId -> nat)
    requires OneParent(history) && LinksAgree(history) && Acyclic(history, rank)
    requires IsLinear(history, name, attempts) && |attempts| <= MAX_DEPTH + 1
    requires forall e, k :: e in history && 0 < k < |attempts| && e.taskId == attempts[k] ==> e.parent == Some(attempts[k - 1])
    ensures ChainsAgree(history, attempts)
  {
    hide IsLinear, OneParent, LinksAgree, Acyclic, ChainsAgree, Newest, MaxRetries;
    forall k | 0 < k < |attempts|
      ensures LinksCarryRow(history, attempts[k])
    {
      var p, id := attempts[k - 1], attempts[k];
      LinearLink(history, name, attempts, k);
      LinearLinks(history, name, attempts, k);
      var links := (e: Event) => e.parent.Some? && e.parent.value in [p];
      SelectTwice(history, links, (e: Event) => e.taskId == id, (e: Event) => e.taskId == id);
      assert LinkEvents(history, id) == EventsOf(history, id);
    }
    LinearChainsAgreeExactly(history, name, attempts, rank);
  }

  // ----- Two chains whose attempts give different lists -----

  /** A task and its retry, one of whose two events names its parent. */
  ghost predicate IsOneRetry(h: History) {
    && |h| == 3 && h[0].taskId == "a" && h[1].taskId == "b" && h[2].taskId == "b"
    && h[0].name == "job" && h[1].name == "job" && h[2].name == "job"
    && h[0].parent == None && h[1].parent == Some("a") && h[2].parent == None
  }

  lemma OneRetryEvents(h: History)
    requires IsOneRetry(h)
    ensures h == [h[0], h[1], h[2]]
    ensures EventsOf(h, "a") == [h[0]] && EventsOf(h, "b") == [h[1], h[2]]
    ensures EventsOf(LinkedTo(h, ["a"]), "b") == [h[1]]
  {
    hide Select;
    assert h == [h[0], h[1], h[2]];
    OfThree(h[0], h[1], h[2], (e: Event) => e.taskId == "a");
    OfThree(h[0], h[1], h[2], (e: Event) => e.taskId == "b");
    OneRetryLink(h);
    OfOne(h[1], (e: Event) => e.taskId == "b");
  }

  lemma OneRetryLink(h: History)
    requires IsOneRetry(h)
    ensures LinkedTo(h, ["a"]) == [h[1]]
  {
    hide Select;
    assert h == [h[0], h[1], h[2]];
    OfThree(h[0], h[1], h[2], (e: Event) => e.parent.Some? && e.parent.value in ["a"]);
  }

  lemma OneRetryMerged(h: History)
    requires IsOneRetry(h)
    ensures ParentOf(h, "a") == None && NameOf(h, "a") == "job"
    ensures ParentOf(h, "b") == Some("a") && NameOf(h, "b") == "job"
    ensures LinkEvents(h, "b") == [h[1]]
    ensures MergedName(EventsOf(LinkedTo(h, ["a"]), "b")) == "job"
  {
    hide Select, Newest;
    OneRetryEvents(h);
    NewestOne(h[0], NameField);
    NewestOne(h[0], ParentField);
    NewestOne(h[1], NameField);
    NewestOne(h[1], ParentField);
    NewestTwo(h[1], h[2], NameField);
    NewestTwo(h[1], h[2], ParentField);
  }

  lemma OneRetryLinks(h: History, rank: TaskId -> nat)
    requires IsOneRetry(h) && rank("a") < rank("b")
    ensures Tasks(h) == {"a", "b"}
    ensures OneParent(h) && LinksAgree(h) && Acyclic(h, rank)
  {
    hide Select, Newest, ParentOf, NameOf, MergedName, EventsOf, LinkedTo;
    OneRetryMerged(h);
    assert h == [h[0], h[1], h[2]];
    assert forall e :: e in h <==> e == h[0] || e == h[1] || e == h[2];
    assert h[0] in h && h[1] in h;
  }

  lemma OneRetryIsLinear(h: History)
    requires IsOneRetry(h)
    ensures IsLinear(h, "job", ["a", "b"])
  {
    hide Select, Newest, ParentOf, NameOf, MergedName, EventsOf, LinkedTo, Tasks, IsOneRetry;
    OneRetryMerged(h);
    OneRetryLinks(h, (t: TaskId) => if t == "b" then 1 else 0);
  }

  /** The two attempts give one list exactly if the linking event carries every column. */
  lemma OneRetryAgreesExactly(h: History)
    requires IsOneRetry(h)
    ensures OneParent(h) && LinksAgree(h) && IsLinear(h, "job", ["a", "b"])
    ensures ChainsAgree(h, ["a", "b"]) <==> LinksCarryRow(h, "b")
  {
    hide OneParent, LinksAgree, Acyclic, IsLinear, ChainsAgree, LinksCarryRow, IsOneRetry;
    var attempts := ["a", "b"];
    var rank := (t: TaskId) => if t == "b" then 1 else 0;
    OneRetryLinks(h, rank);
    OneRetryIsLinear(h);
    LinearChainsAgreeExactly(h, "job", attempts, rank);
    assert attempts[1] == "b";
  }

  function LateState(): History {
    [Plain("a", "job", None, 0, "RETRY"), Plain("b", "job", Some("a"), 1, "RECEIVED"), Plain("b", "job", None, 2, "SUCCESS")]
  }

  /**
   A retry whose later events do not name its parent again: queried from the retry, its row is the
   finished one; queried from the first attempt, it is the one received.
   */
  lemma LateStateIsMissed()
    ensures var h := LateState();
            OneParent(h) && LinksAgree(h) && IsLinear(h, "job", ["a", "b"]) && !ChainsAgree(h, ["a", "b"])
  {
    hide OneParent, LinksAgree, IsLinear, ChainsAgree, Newest, Select;
    var h := LateState();
    OneRetryAgreesExactly(h);
    OneRetryEvents(h);
    OneRetryMerged(h);
    NewestOne(h[1], LatestField);
    NewestTwo(h[1], h[2], LatestField);
  }

  /** The newest event of the retry names its parent; an earlier one, which does not, has the exception. */
  function EarlyException(): History {
    [Plain("a", "job", None, 0, "RETRY"), Plain("b", "job", Some("a"), 2, "RECEIVED"),
     Plain("b", "job", None, 1, "RETRY").(columns := map[Exception := "boom"])]
  }

  lemma EarlyExceptionMerged()
    ensures var h := EarlyException();
            && Newest([h[1]], LatestField) == Newest([h[1], h[2]], LatestField)
            && MergedColumn([h[1]], Exception) != MergedColumn([h[1], h[2]], Exception)
  {
    hide Newest;
    var h := EarlyException();
    NewestOne(h[1], LatestField);
    NewestTwo(h[1], h[2], LatestField);
    NewestOne(h[1], ColumnField(Exception));
    NewestTwo(h[1], h[2], ColumnField(Exception));
  }

  lemma EarlyExceptionIsOneRetry()
    ensures IsOneRetry(EarlyException())
  {
  }

  /** Queried from the first attempt, the retry's row has no exception. */
  lemma EarlyExceptionIsMissed()
    ensures var h := EarlyException();
            && OneParent(h) && LinksAgree(h) && IsLinear(h, "job", ["a", "b"]) && !ChainsAgree(h, ["a", "b"])
            && Newest(LinkEvents(h, "b"), LatestField) == Newest(EventsOf(h, "b"), LatestField)
  {
    hide OneParent, LinksAgree, IsLinear, ChainsAgree, Newest, Select, MergedColumn, IsOneRetry, EarlyException, MergedName,
      ParentOf;
    var h := EarlyException();
    EarlyExceptionIsOneRetry();
    OneRetryAgreesExactly(h);
    OneRetryEvents(h);
    OneRetryMerged(h);
    EarlyExceptionMerged();
  }
}
