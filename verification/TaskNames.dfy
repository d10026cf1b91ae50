/**
 Naming the task events that come without a name (crates/api/src/broker_conn/pipeline.rs): from
 another event of the batch, or from the cache that earlier batches left. The empty string is no name.
 */
module TaskNames {
  type TaskId = string

  /** `data` stands for the fields that naming does not touch. */
  datatype TaskEvent = TaskEvent(taskId: TaskId, taskName: string, data: int)

  /** The first name that the events give a task; empty if none does. */
  function FirstName(events: seq<TaskEvent>, id: TaskId): string {
    if events == [] then ""
    else
      var before, e := FirstName(events[..|events| - 1], id), events[|events| - 1];
      if before != "" || e.taskId != id then before else e.taskName
  }

  /** The name an event of the task gets: the batch's own, or else the cached one. */
  function NameFor(events: seq<TaskEvent>, cache: map<TaskId, string>, id: TaskId): string {
    if FirstName(events, id) != "" then FirstName(events, id)
    else if id in cache then cache[id]
    else ""
  }

  function Named(events: seq<TaskEvent>, cache: map<TaskId, string>, e: TaskEvent): TaskEvent {
    if e.taskName != "" then e else e.(taskName := NameFor(events, cache, e.taskId))
  }

  function Backfilled(events: seq<TaskEvent>, cache: map<TaskId, string>): (named: seq<TaskEvent>)
    ensures |named| == |events|
    ensures forall k :: 0 <= k < |events| ==> named[k] == Named(events, cache, events[k])
  {
    seq(|events|, k requires 0 <= k < |events| => Named(events, cache, events[k]))
  }

  /** The names a batch gives its tasks. */
  ghost predicate NamesOf(events: seq<TaskEvent>, known: map<TaskId, string>) {
    forall id :: (id in known <==> FirstName(events, id) != "") && (id in known ==> known[id] == FirstName(events, id))
  }

  /** What a batch leaves in the cache. */
  function CacheAfter(events: seq<TaskEvent>, cache: map<TaskId, string>): (after: map<TaskId, string>)
    ensures forall id :: id in after <==> id in cache || FirstName(events, id) != ""
    ensures forall id :: id in after ==> after[id] == if FirstName(events, id) != "" then FirstName(events, id) else cache[id]
  {
    if events == [] then cache
    else
      var before, e := CacheAfter(events[..|events| - 1], cache), events[|events| - 1];
      if e.taskName != "" && FirstName(events[..|events| - 1], e.taskId) == "" then before[e.taskId := e.taskName]
      else before
  }

  lemma FirstNameOneMore(events: seq<TaskEvent>, k: nat, id: TaskId)
    requires k < |events|
    ensures FirstName(events[..k + 1], id)
            == if FirstName(events[..k], id) != "" || events[k].taskId != id then FirstName(events[..k], id)
               else events[k].taskName
  {
    assert events[..k + 1][..k] == events[..k];
  }

  method KnownNames(events: seq<TaskEvent>) returns (known: map<TaskId, string>)
    ensures NamesOf(events, known)
  {
    known := map[];
    for k := 0 to |events|
      invariant NamesOf(events[..k], known)
    {
      forall id
        ensures FirstName(events[..k + 1], id)
                == if FirstName(events[..k], id) != "" || events[k].taskId != id then FirstName(events[..k], id)
                   else events[k].taskName
      {
        FirstNameOneMore(events, k, id);
      }
      var e := events[k];
      if e.taskName != "" {
        if e.taskId !in known {
          known := known[e.taskId := e.taskName];
        }
      }
    }
    assert events[..|events|] == events;
  }

  /** The names of the batch, and cached names, among them those of all nameless events. */
  ghost predicate Known(events: seq<TaskEvent>, names: map<TaskId, string>, cache: map<TaskId, string>,
                        known: map<TaskId, string>) {
    && (forall id :: id in known ==> id in names || id in cache)
    && (forall id :: id in known ==> known[id] == if id in names then names[id] else cache[id])
    && (forall id :: id in names ==> id in known)
    && forall e :: e in events && e.taskName == "" && e.taskId in cache ==> e.taskId in known
  }

  lemma KnownNamesEvent(events: seq<TaskEvent>, names: map<TaskId, string>, cache: map<TaskId, string>,
                        known: map<TaskId, string>, e: TaskEvent)
    requires NamesOf(events, names) && Known(events, names, cache, known) && e in events
    ensures Named(events, cache, e)
            == if e.taskName == "" && e.taskId in known then e.(taskName := known[e.taskId]) else e
  {
    hide FirstName;
  }

  lemma KnownIsCached(events: seq<TaskEvent>, names: map<TaskId, string>, answers: map<TaskId, string>,
                      cache: map<TaskId, string>, known: map<TaskId, string>)
    requires NamesOf(events, names) && Known(events, names, answers, known) && (answers == cache || answers == map[])
    ensures cache + known == CacheAfter(events, cache)
  {
    hide FirstName;
  }

  /** The cached names of the nameless tasks of a batch, added to the names the batch gives. */
  method AddCached(events: seq<TaskEvent>, names: map<TaskId, string>, cache: map<TaskId, string>)
    returns (known: map<TaskId, string>)
    requires NamesOf(events, names)
    ensures Known(events, names, cache, known)
  {
    known := names;
    for k := 0 to |events|
      invariant forall id :: id in known ==> id in names || id in cache
      invariant forall id :: id in known ==> known[id] == if id in names then names[id] else cache[id]
      invariant forall id :: id in names ==> id in known
      invariant forall e :: e in events[..k] && e.taskName == "" && e.taskId in cache ==> e.taskId in known
    {
      assert events[..k + 1] == events[..k] + [events[k]];
      var e := events[k];
      if e.taskName == "" && e.taskId !in names && e.taskId in cache {
        known := known[e.taskId := cache[e.taskId]];
      }
    }
    assert events[..|events|] == events;
  }

  /** Writes known names into the nameless events. */
  method FillIn(events: array<TaskEvent>, known: map<TaskId, string>)
    modifies events
    ensures forall k :: 0 <= k < events.Length ==>
              var e := old(events[k]);
              events[k] == if e.taskName == "" && e.taskId in known then e.(taskName := known[e.taskId]) else e
  {
    for k := 0 to events.Length
      invariant forall j :: k <= j < events.Length ==> events[j] == old(events[j])
      invariant forall j :: 0 <= j < k ==>
                  var e := old(events[j]);
                  events[j] == if e.taskName == "" && e.taskId in known then e.(taskName := known[e.taskId]) else e
    {
      var e := events[k];
      if e.taskName == "" {
        if e.taskId in known {
          events[k] := e.(taskName := known[e.taskId]);
        }
      }
    }
  }

  /**
   Names the events of a batch in place. `readable` and `writable` say whether the cache answers;
   without an answer the batch names itself only, and the cache stays as it is.
   */
  method BackfillTaskNames(events: array<TaskEvent>, cache: map<TaskId, string>, readable: bool, writable: bool)
    returns (after: map<TaskId, string>)
    modifies events
    ensures events[..] == Backfilled(old(events[..]), if readable then cache else map[])
    ensures after == if writable then CacheAfter(old(events[..]), cache) else cache
  {
    hide FirstName, Backfilled, Named, NamesOf, Known, CacheAfter;
    ghost var batch := events[..];
    var names := KnownNames(events[..]);
    var answers := if readable then cache else map[];
    var known := AddCached(events[..], names, answers);
    FillIn(events, known);
    forall k | 0 <= k < |batch|
      ensures events[k] == Named(batch, answers, batch[k])
    {
      KnownNamesEvent(batch, names, answers, known, batch[k]);
    }
    after := cache;
    if writable {
      after := cache + known;
      KnownIsCached(batch, names, answers, cache, known);
    }
  }

  // ----- What naming keeps -----

  /** The first name stands at some event, behind nameless events of the task only. */
  lemma {:induction false} FirstNameIsFirst(events: seq<TaskEvent>, id: TaskId)
    ensures FirstName(events, id) == "" ==> forall k :: 0 <= k < |events| && events[k].taskId == id ==> events[k].taskName == ""
    ensures FirstName(events, id) != "" ==>
              exists k :: 0 <= k < |events| && events[k].taskId == id && events[k].taskName == FirstName(events, id)
                          && forall j :: 0 <= j < k && events[j].taskId == id ==> events[j].taskName == ""
  {
    if events != [] {
      var init := events[..|events| - 1];
      FirstNameIsFirst(init, id);
      if FirstName(init, id) != "" {
        var k :| 0 <= k < |init| && init[k].taskId == id && init[k].taskName == FirstName(init, id)
                 && forall j :: 0 <= j < k && init[j].taskId == id ==> init[j].taskName == "";
        assert events[k] == init[k];
        assert forall j :: 0 <= j < k ==> events[j] == init[j];
      }
    }
  }

  /** An event that naming leaves nameless stays so: its task has no name in the batch or the cache. */
  lemma NamelessExactly(events: seq<TaskEvent>, cache: map<TaskId, string>, k: nat)
    requires k < |events|
    ensures Backfilled(events, cache)[k].taskName == ""
            <==> (forall j :: 0 <= j < |events| && events[j].taskId == events[k].taskId ==> events[j].taskName == "")
                 && (events[k].taskId in cache ==> cache[events[k].taskId] == "")
  {
    FirstNameIsFirst(events, events[k].taskId);
  }

  /** Naming again changes nothing. */
  lemma NamingIsIdempotent(events: seq<TaskEvent>, cache: map<TaskId, string>)
    ensures Backfilled(Backfilled(events, cache), cache) == Backfilled(events, cache)
  {
    hide FirstName, Backfilled;
    var named := Backfilled(events, cache);
    forall k | 0 <= k < |named| && named[k].taskName == ""
      ensures NameFor(named, cache, named[k].taskId) == ""
    {
      var id := named[k].taskId;
      FirstNameIsFirst(events, id);
      FirstNameIsFirst(named, id);
      assert FirstName(events, id) == "" && (id in cache ==> cache[id] == "");
      forall j | 0 <= j < |named| && named[j].taskId == id
        ensures named[j].taskName == ""
      {
        assert named[j] == Named(events, cache, events[j]);
      }
    }
    assert forall k :: 0 <= k < |named| ==> Backfilled(named, cache)[k] == named[k];
  }

  // ----- Runs of batches -----

  /** The cache behind a run of batches, all of them written. */
  function CacheOf(batches: seq<seq<TaskEvent>>): map<TaskId, string> {
    if batches == [] then map[]
    else CacheAfter(batches[|batches| - 1], CacheOf(batches[..|batches| - 1]))
  }

  /** The first name in the last batch that names the task; empty if none does. */
  function LastNaming(batches: seq<seq<TaskEvent>>, id: TaskId): string {
    if batches == [] then ""
    else
      var name := FirstName(batches[|batches| - 1], id);
      if name != "" then name else LastNaming(batches[..|batches| - 1], id)
  }

  lemma {:induction false} CacheHoldsLastNaming(batches: seq<seq<TaskEvent>>, id: TaskId)
    ensures id in CacheOf(batches) <==> LastNaming(batches, id) != ""
    ensures id in CacheOf(batches) ==> CacheOf(batches)[id] == LastNaming(batches, id)
  {
    hide FirstName, CacheAfter;
    if batches != [] {
      CacheHoldsLastNaming(batches[..|batches| - 1], id);
    }
  }

  lemma {:induction false} NamedOnce(batches: seq<seq<TaskEvent>>, id: TaskId, j: nat)
    requires j < |batches| && FirstName(batches[j], id) != ""
    ensures LastNaming(batches, id) != ""
  {
    if j < |batches| - 1 {
      NamedOnce(batches[..|batches| - 1], id, j);
    }
  }

  /**
   In a run of batches with a cache that answers, a nameless event gets the first name of its task in
   the last batch, up to its own, that names the task; once a task has been named, none of its later
   events stays nameless.
   */
  lemma NamesStick(batches: seq<seq<TaskEvent>>, batch: seq<TaskEvent>, e: TaskEvent)
    requires e in batch
    ensures Named(batch, CacheOf(batches), e).taskName
            == if e.taskName != "" then e.taskName else LastNaming(batches + [batch], e.taskId)
    ensures (exists j :: 0 <= j < |batches| && FirstName(batches[j], e.taskId) != "") ==>
              Named(batch, CacheOf(batches), e).taskName != ""
  {
    hide FirstName;
    CacheHoldsLastNaming(batches, e.taskId);
    assert (batches + [batch])[..|batches|] == batches;
    if j :| 0 <= j < |batches| && FirstName(batches[j], e.taskId) != "" {
      NamedOnce(batches, e.taskId, j);
    }
  }
}
