/**
 Event ingestion: counters, one retry, a bounded buffer of batches for each kind of event, and the
 replay of that buffer. A buffer is listed oldest batch first: pushes append, pops take a prefix.
 */
module Pipeline {
  type Row = nat
  type Batch = seq<Row>

  datatype Kind = Tasks | Workers

  const MAX_RETRY_QUEUE_LEN: nat := 2_000
  const RETRY_DRAIN_PER_CYCLE: nat := 100

  /** A batch some call holds: received and not settled yet, or popped and not replayed yet. */
  datatype Ingest = Ingest(kind: Kind, rows: Batch)
  datatype Drain = Drain(kind: Kind, batches: seq<Batch>)

  /** The counters and buffers, the calls in progress, and where every row received has gone. */
  datatype State = State(
    received: nat, inserted: nat, dropped: nat,
    tasks: seq<Batch>, workers: seq<Batch>,
    ingesting: seq<Ingest>, draining: seq<Drain>,
    receivedRows: multiset<Row>, storedRows: multiset<Row>, droppedRows: multiset<Row>, trimmedRows: multiset<Row>)

  function BufferOf(s: State, kind: Kind): seq<Batch> {
    if kind == Tasks then s.tasks else s.workers
  }

  function WithBuffer(s: State, kind: Kind, buffer: seq<Batch>): State {
    if kind == Tasks then s.(tasks := buffer) else s.(workers := buffer)
  }

  function RowsOf(batches: seq<Batch>): multiset<Row> {
    if batches == [] then multiset{} else multiset(batches[0]) + RowsOf(batches[1..])
  }

  // ----- The buffer -----

  /** A push appends, then the oldest batches beyond the limit are cut off. */
  function Trim(buffer: seq<Batch>): seq<Batch> {
    if |buffer| > MAX_RETRY_QUEUE_LEN then buffer[|buffer| - MAX_RETRY_QUEUE_LEN..] else buffer
  }

  function Trimmed(buffer: seq<Batch>): seq<Batch> {
    if |buffer| > MAX_RETRY_QUEUE_LEN then buffer[..|buffer| - MAX_RETRY_QUEUE_LEN] else []
  }

  function PopCount(buffer: seq<Batch>): (n: nat)
    ensures n <= |buffer|
  {
    if |buffer| < RETRY_DRAIN_PER_CYCLE then |buffer| else RETRY_DRAIN_PER_CYCLE
  }

  // ----- Ingestion -----

  /** How an ingested batch ends: stored at the first or second try, buffered, or dropped with the buffer gone. */
  datatype Outcome = Inserted | Buffered | BufferUnreachable

  function Receive(s: State, kind: Kind, rows: Batch): State {
    s.(received := s.received + |rows|, receivedRows := s.receivedRows + multiset(rows),
       ingesting := s.ingesting + [Ingest(kind, rows)])
  }

  function Settle(s: State, k: nat, outcome: Outcome): State
    requires k < |s.ingesting|
  {
    var i := s.ingesting[k];
    var s := s.(ingesting := s.ingesting[..k] + s.ingesting[k + 1..]);
    match outcome
    case Inserted => s.(inserted := s.inserted + |i.rows|, storedRows := s.storedRows + multiset(i.rows))
    case Buffered =>
      var pushed := BufferOf(s, i.kind) + [i.rows];
      WithBuffer(s.(trimmedRows := s.trimmedRows + RowsOf(Trimmed(pushed))), i.kind, Trim(pushed))
    case BufferUnreachable => s.(dropped := s.dropped + |i.rows|, droppedRows := s.droppedRows + multiset(i.rows))
  }

  // ----- Replay -----

  function Pop(s: State, kind: Kind): State {
    var buffer := BufferOf(s, kind);
    var n := PopCount(buffer);
    WithBuffer(s.(draining := s.draining + [Drain(kind, buffer[..n])]), kind, buffer[n..])
  }

  /** How the text of a batch reads back: as rows, as some list whose length is counted, or not at all. */
  datatype Reading = Typed | Counted | Garbage

  /** What reading the popped batches leaves: the good ones, the rows given up, and how many were counted dropped. */
  datatype Read = Read(good: seq<Batch>, lost: multiset<Row>, counted: nat)

  function ReadBatches(batches: seq<Batch>, readings: seq<Reading>): Read
    requires |readings| == |batches|
    decreases |batches|
  {
    if batches == [] then Read([], multiset{}, 0)
    else
      var n := |batches| - 1;
      var init, last := ReadBatches(batches[..n], readings[..n]), batches[n];
      match readings[n]
      case Typed => init.(good := init.good + [last])
      case Counted => init.(lost := init.lost + multiset(last), counted := init.counted + |last|)
      case Garbage => init.(lost := init.lost + multiset(last), counted := init.counted + 1)
  }

  function Replay(s: State, k: nat, readings: seq<Reading>, insertOk: bool): State
    requires k < |s.draining| && |readings| == |s.draining[k].batches|
  {
    var d := s.draining[k];
    var read := ReadBatches(d.batches, readings);
    var s := s.(draining := s.draining[..k] + s.draining[k + 1..],
                dropped := s.dropped + read.counted, droppedRows := s.droppedRows + read.lost);
    var rows := RowsOf(read.good);
    if |rows| == 0 then s
    else if insertOk then s.(inserted := s.inserted + |rows|, storedRows := s.storedRows + rows)
    else WithBuffer(s, d.kind, BufferOf(s, d.kind) + read.good)
  }

  // ----- The calls as they are run, one at a time -----

  lemma {:induction false} RowsOfSnoc(batches: seq<Batch>, last: Batch)
    ensures RowsOf(batches + [last]) == RowsOf(batches) + multiset(last)
  {
    if batches == [] {
      assert batches + [last] == [last] && [last][1..] == [];
    } else {
      assert (batches + [last])[1..] == batches[1..] + [last];
      RowsOfSnoc(batches[1..], last);
    }
  }

  lemma Alone<T>(x: T)
    ensures [] + [x] == [x] && [x][..0] + [x][1..] == []
  {
  }

  /** Batches that are popped and replayed before anything else happens. */
  lemma DrainAlone(s: State, kind: Kind, readings: seq<Reading>, insertOk: bool)
    requires s.draining == [] && |readings| == PopCount(BufferOf(s, kind))
    ensures var buffer := BufferOf(s, kind);
            var read := ReadBatches(buffer[..|readings|], readings);
            var r := WithBuffer(s, kind, buffer[|readings|..])
                     .(dropped := s.dropped + read.counted, droppedRows := s.droppedRows + read.lost);
            var rows := RowsOf(read.good);
            Replay(Pop(s, kind), 0, readings, insertOk)
            == if |rows| == 0 then r
               else if insertOk then r.(inserted := s.inserted + |rows|, storedRows := s.storedRows + rows)
               else WithBuffer(r, kind, buffer[|readings|..] + read.good)
  {
    hide RowsOf, ReadBatches;
    Alone(Drain(kind, BufferOf(s, kind)[..|readings|]));
  }

  /** What `buffer_for_retry` leaves: the batch at the end of a buffer cut to its limit, or counted as dropped. */
  ghost function AfterPush(s: State, kind: Kind, rows: Batch, pushOk: bool): State {
    if pushOk then
      var pushed := BufferOf(s, kind) + [rows];
      WithBuffer(s.(trimmedRows := s.trimmedRows + RowsOf(Trimmed(pushed))), kind, Trim(pushed))
    else s.(dropped := s.dropped + |rows|, droppedRows := s.droppedRows + multiset(rows))
  }

  /** A batch that is settled before anything else happens. */
  lemma IngestAlone(s: State, kind: Kind, rows: Batch)
    requires s.ingesting == []
    ensures var r := s.(received := s.received + |rows|, receivedRows := s.receivedRows + multiset(rows));
            && Settle(Receive(s, kind, rows), 0, Inserted)
               == r.(inserted := s.inserted + |rows|, storedRows := s.storedRows + multiset(rows))
            && Settle(Receive(s, kind, rows), 0, Buffered) == AfterPush(r, kind, rows, true)
            && Settle(Receive(s, kind, rows), 0, BufferUnreachable) == AfterPush(r, kind, rows, false)
  {
    hide Trim, Trimmed, RowsOf;
    Alone(Ingest(kind, rows));
  }

  class EventPipeline {
    var received: nat
    var inserted: nat
    var dropped: nat
    var tasks: seq<Batch>
    var workers: seq<Batch>
    ghost var receivedRows: multiset<Row>
    ghost var storedRows: multiset<Row>
    ghost var droppedRows: multiset<Row>
    ghost var trimmedRows: multiset<Row>

    /** The state between two calls. */
    ghost function Current(): State
      reads this
    {
      State(received, inserted, dropped, tasks, workers, [], [], receivedRows, storedRows, droppedRows, trimmedRows)
    }

    /** `ingest_raw_task_events` and its worker twin, on normalised rows; the flags say which calls succeed. */
    method IngestRows(kind: Kind, rows: Batch, firstOk: bool, secondOk: bool, pushOk: bool)
      modifies this
      ensures var outcome := if firstOk || secondOk then Inserted else if pushOk then Buffered else BufferUnreachable;
              Current() == if rows == [] then old(Current()) else Settle(Receive(old(Current()), kind, rows), 0, outcome)
    {
      hide Trim, Trimmed, RowsOf, Settle, Receive, AfterPush;
      if rows == [] {
        return;
      }
      IngestAlone(Current(), kind, rows);
      received := received + |rows|;
      receivedRows := receivedRows + multiset(rows);
      var stored := InsertWithRetry(kind, rows, firstOk, secondOk, pushOk);
      if stored {
        inserted := inserted + |rows|;
      }
    }

    /** `insert_with_retry`. */
    method InsertWithRetry(kind: Kind, rows: Batch, firstOk: bool, secondOk: bool, pushOk: bool) returns (ok: bool)
      modifies this`storedRows, this`dropped, this`droppedRows, this`tasks, this`workers, this`trimmedRows
      ensures ok == (firstOk || secondOk)
      ensures Current() == if ok then old(Current()).(storedRows := old(storedRows) + multiset(rows))
                           else AfterPush(old(Current()), kind, rows, pushOk)
    {
      hide AfterPush;
      if firstOk {
        storedRows := storedRows + multiset(rows);
        return true;
      }
      if !secondOk {
        BufferForRetry(kind, rows, pushOk);
        return false;
      }
      storedRows := storedRows + multiset(rows);
      return true;
    }

    /** `buffer_for_retry`. */
    method BufferForRetry(kind: Kind, rows: Batch, pushOk: bool)
      modifies this`dropped, this`droppedRows, this`tasks, this`workers, this`trimmedRows
      ensures Current() == AfterPush(old(Current()), kind, rows, pushOk)
    {
      hide Trim, Trimmed, RowsOf;
      if pushOk {
        var pushed := (if kind == Tasks then tasks else workers) + [rows];
        trimmedRows := trimmedRows + RowsOf(Trimmed(pushed));
        if kind == Tasks {
          tasks := Trim(pushed);
        } else {
          workers := Trim(pushed);
        }
      } else {
        dropped := dropped + |rows|;
        droppedRows := droppedRows + multiset(rows);
      }
    }

    /** `drain_retry_queue`; `readings` says how each batch popped reads back. */
    method DrainRetryQueue(kind: Kind, readings: seq<Reading>, insertOk: bool)
      requires |readings| == PopCount(if kind == Tasks then tasks else workers)
      modifies this
      ensures Current() == Replay(Pop(old(Current()), kind), 0, readings, insertOk)
    {
      hide RowsOf, Replay, Pop, ReadBatches;
      DrainAlone(Current(), kind, readings, insertOk);
      var buffer := if kind == Tasks then tasks else workers;
      var jsons := buffer[..PopCount(buffer)];
      SetBuffer(kind, buffer[PopCount(buffer)..]);
      var goodJsons, allRows := ReadAll(jsons, readings);
      ghost var rows := multiset(allRows);
      if allRows == [] {
        return;
      }
      if insertOk {
        storedRows := storedRows + rows;
        inserted := inserted + |allRows|;
      } else {
        SetBuffer(kind, (if kind == Tasks then tasks else workers) + goodJsons);
      }
    }

    method SetBuffer(kind: Kind, buffer: seq<Batch>)
      modifies this`tasks, this`workers
      ensures Current() == WithBuffer(old(Current()), kind, buffer)
    {
      if kind == Tasks {
        tasks := buffer;
      } else {
        workers := buffer;
      }
    }

    /** The loop that reads the popped batches and counts those it gives up. */
    method ReadAll(jsons: seq<Batch>, readings: seq<Reading>) returns (goodJsons: seq<Batch>, allRows: seq<Row>)
      requires |readings| == |jsons|
      modifies this`dropped, this`droppedRows
      ensures var read := ReadBatches(jsons, readings);
              && goodJsons == read.good && multiset(allRows) == RowsOf(read.good) && |allRows| == |RowsOf(read.good)|
              && dropped == old(dropped) + read.counted && droppedRows == old(droppedRows) + read.lost
    {
      goodJsons, allRows := [], [];
      for k := 0 to |jsons|
        invariant var read := ReadBatches(jsons[..k], readings[..k]);
                  && goodJsons == read.good && multiset(allRows) == RowsOf(read.good)
                  && dropped == old(dropped) + read.counted && droppedRows == old(droppedRows) + read.lost
      {
        assert jsons[..k + 1][..k] == jsons[..k] && readings[..k + 1][..k] == readings[..k];
        var json := jsons[k];
        match readings[k]
        case Typed =>
          RowsOfSnoc(goodJsons, json);
          allRows := allRows + json;
          goodJsons := goodJsons + [json];
        case Counted =>
          dropped := dropped + |json|;
          droppedRows := droppedRows + multiset(json);
        case Garbage =>
          dropped := dropped + 1;
          droppedRows := droppedRows + multiset(json);
      }
      assert jsons[..|jsons|] == jsons && readings[..|jsons|] == readings;
      assert |multiset(allRows)| == |allRows|;
    }
  }
}
