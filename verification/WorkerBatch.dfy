/**
 Deduplicating a batch of worker events before it is stored (crates/api/src/broker_conn/pipeline.rs):
 the latest event of each worker, and every change between online and offline.
 */
module WorkerBatch {
  type WorkerId = string

  datatype WorkerEvent = WorkerEvent(workerId: WorkerId, eventType: string, timestamp: int)

  predicate IsTransition(e: WorkerEvent) {
    e.eventType == "worker-online" || e.eventType == "worker-offline"
  }

  /** events[k] is the first event of its worker with the largest timestamp. */
  ghost function IsLatest(events: seq<WorkerEvent>, k: int): (latest: bool)
    ensures latest ==> 0 <= k < |events|
  {
    && 0 <= k < |events|
    && forall j :: 0 <= j < |events| && events[j].workerId == events[k].workerId ==>
         && events[j].timestamp <= events[k].timestamp
         && (j < k ==> events[j].timestamp < events[k].timestamp)
  }

  /** One event for each worker of the batch, its latest. */
  ghost predicate Deduplicated(events: seq<WorkerEvent>, latest: map<WorkerId, WorkerEvent>) {
    && (forall e :: e in events ==> e.workerId in latest)
    && forall w :: w in latest ==>
         latest[w].workerId == w && exists k :: IsLatest(events, k) && events[k] == latest[w]
  }

  /** A worker comes or goes; a heartbeat is neither. */
  const COMES_OR_GOES: set<string> := {"worker-online", "worker-offline"}

  function Transitions(events: seq<WorkerEvent>): (kept: seq<WorkerEvent>)
    ensures forall e :: e in kept <==> e in events && e.eventType in COMES_OR_GOES
    ensures |kept| <= |events|
  {
    if events == [] then []
    else
      var e := events[|events| - 1];
      assert events == events[..|events| - 1] + [e];
      Transitions(events[..|events| - 1]) + if IsTransition(e) then [e] else []
  }

  lemma NoTransitions()
    ensures Transitions([]) == []
  {
  }

  lemma OneMore(events: seq<WorkerEvent>, e: WorkerEvent)
    ensures Transitions(events + [e]) == Transitions(events) + if IsTransition(e) then [e] else []
  {
    assert (events + [e])[..|events|] == events;
  }

  /**
   The transitions of a batch are those of its parts, one after the other. Down to single events this fixes which
   events are kept, how often and in which order.
   */
  lemma {:induction false} TransitionsInOrder(a: seq<WorkerEvent>, b: seq<WorkerEvent>)
    ensures Transitions(a + b) == Transitions(a) + Transitions(b)
    ensures |b| == 1 ==> Transitions(b) == if IsTransition(b[0]) then b else []
    decreases |b|
  {
    hide Transitions, IsTransition;
    if b == [] {
      assert a + b == a;
      NoTransitions();
    } else {
      var before, e := b[..|b| - 1], b[|b| - 1];
      var kept := if IsTransition(e) then [e] else [];
      assert a + b == (a + before) + [e] && b == before + [e];
      OneMore(a + before, e);
      OneMore(before, e);
      TransitionsInOrder(a, before);
      assert Transitions(b) == Transitions(before) + kept;
      assert Transitions(a + b) == (Transitions(a) + Transitions(before)) + kept;
      if |b| == 1 {
        assert before == [] && b == [e];
        NoTransitions();
      }
    }
  }

  /** Another event takes over exactly if it is newer than the worker's latest one so far. */
  lemma LatestWithOneMore(events: seq<WorkerEvent>, k: int, e: WorkerEvent)
    requires IsLatest(events, k)
    ensures e.workerId != events[k].workerId || e.timestamp <= events[k].timestamp ==> IsLatest(events + [e], k)
    ensures e.workerId == events[k].workerId && e.timestamp > events[k].timestamp ==> IsLatest(events + [e], |events|)
  {
  }

  lemma FirstOfWorker(events: seq<WorkerEvent>, e: WorkerEvent)
    requires forall x :: x in events ==> x.workerId != e.workerId
    ensures IsLatest(events + [e], |events|)
  {
    forall j | 0 <= j < |events|
      ensures (events + [e])[j].workerId != e.workerId
    {
      assert events[j] in events;
    }
  }

  lemma DeduplicatedWithOneMore(events: seq<WorkerEvent>, latest: map<WorkerId, WorkerEvent>, e: WorkerEvent)
    requires Deduplicated(events, latest)
    ensures var keep := e.workerId in latest && e.timestamp <= latest[e.workerId].timestamp;
            Deduplicated(events + [e], if keep then latest else latest[e.workerId := e])
  {
    hide IsLatest;
    var keep := e.workerId in latest && e.timestamp <= latest[e.workerId].timestamp;
    var more := if keep then latest else latest[e.workerId := e];
    forall w | w in more
      ensures more[w].workerId == w && exists k :: IsLatest(events + [e], k) && (events + [e])[k] == more[w]
    {
      if w in latest {
        var k :| IsLatest(events, k) && events[k] == latest[w];
        LatestWithOneMore(events, k, e);
        assert (events + [e])[k] == events[k] && (events + [e])[|events|] == e;
      } else {
        FirstOfWorker(events, e);
        assert (events + [e])[|events|] == e;
      }
    }
  }

  lemma NothingYet()
    ensures Deduplicated([], map[])
  {
  }

  method Deduplicate(events: seq<WorkerEvent>)
    returns (latestPerWorker: map<WorkerId, WorkerEvent>, transitions: seq<WorkerEvent>)
    ensures Deduplicated(events, latestPerWorker)
    ensures transitions == Transitions(events)
  {
    hide Deduplicated, IsTransition;
    latestPerWorker, transitions := map[], [];
    NothingYet();
    for i := 0 to |events|
      invariant Deduplicated(events[..i], latestPerWorker)
      invariant transitions == Transitions(events[..i])
    {
      var event := events[i];
      assert events[..i + 1] == events[..i] + [event];
      assert events[..i + 1][..i] == events[..i];
      DeduplicatedWithOneMore(events[..i], latestPerWorker, event);
      if IsTransition(event) {
        transitions := transitions + [event];
      }
      if event.workerId in latestPerWorker {
        if event.timestamp > latestPerWorker[event.workerId].timestamp {
          latestPerWorker := latestPerWorker[event.workerId := event];
        }
      } else {
        latestPerWorker := latestPerWorker[event.workerId := event];
      }
    }
    assert events[..|events|] == events;
  }

  /** There is one way only to deduplicate a batch. */
  lemma DeduplicatedUniquely(events: seq<WorkerEvent>, a: map<WorkerId, WorkerEvent>, b: map<WorkerId, WorkerEvent>)
    requires Deduplicated(events, a) && Deduplicated(events, b)
    ensures a == b
  {
    forall w | w in a
      ensures w in b && a[w] == b[w]
    {
      var j :| IsLatest(events, j) && events[j] == a[w];
      var k :| IsLatest(events, k) && events[k] == b[w];
      assert j == k;
    }
    forall w | w in b
      ensures w in a
    {
      var k :| IsLatest(events, k) && events[k] == b[w];
    }
  }
}
