/** Conservation of events over every interleaving of ingestion and replay. */
module PipelineRuns {
  import opened Pipeline

  datatype Step =
    | Receives(kind: Kind, rows: Batch)
    | Settles(k: nat, outcome: Outcome)
    | Pops(kind: Kind)
    | Replays(k: nat, readings: seq<Reading>, insertOk: bool)

  ghost predicate Enabled(s: State, step: Step) {
    match step
    case Receives(_, rows) => rows != []
    case Settles(k, _) => k < |s.ingesting|
    case Pops(_) => true
    case Replays(k, readings, _) => k < |s.draining| && |readings| == |s.draining[k].batches|
  }

  ghost function Apply(s: State, step: Step): State
    requires Enabled(s, step)
  {
    match step
    case Receives(kind, rows) => Receive(s, kind, rows)
    case Settles(k, outcome) => Settle(s, k, outcome)
    case Pops(kind) => Pop(s, kind)
    case Replays(k, readings, insertOk) => Replay(s, k, readings, insertOk)
  }

  ghost predicate IsRun(states: seq<State>, steps: seq<Step>) {
    && |states| == |steps| + 1
    && states[0] == State(0, 0, 0, [], [], [], [], multiset{}, multiset{}, multiset{}, multiset{})
    && forall k :: 0 <= k < |steps| ==> Enabled(states[k], steps[k]) && states[k + 1] == Apply(states[k], steps[k])
  }

  // ----- Where rows are -----

  ghost function IngestRows(ingesting: seq<Ingest>): multiset<Row> {
    if ingesting == [] then multiset{} else multiset(ingesting[0].rows) + IngestRows(ingesting[1..])
  }

  ghost function DrainRows(draining: seq<Drain>): multiset<Row> {
    if draining == [] then multiset{} else RowsOf(draining[0].batches) + DrainRows(draining[1..])
  }

  /** Rows waiting in a buffer or held by a call in progress. */
  ghost function Waiting(s: State): multiset<Row> {
    RowsOf(s.tasks) + RowsOf(s.workers) + IngestRows(s.ingesting) + DrainRows(s.draining)
  }

  /** Every row received is stored, given up, cut off a full buffer, or still waiting, each time it was received. */
  ghost predicate RowsConserved(s: State) {
    s.receivedRows == s.storedRows + s.droppedRows + s.trimmedRows + Waiting(s)
  }

  /** The counters of received and inserted rows are exact. */
  ghost predicate CountersExact(s: State) {
    s.received == |s.receivedRows| && s.inserted == |s.storedRows|
  }

  lemma {:induction false} RowsOfAppend(a: seq<Batch>, b: seq<Batch>)
    ensures RowsOf(a + b) == RowsOf(a) + RowsOf(b)
  {
    if a == [] {
      assert a + b == b;
    } else {
      assert (a + b)[1..] == a[1..] + b;
      RowsOfAppend(a[1..], b);
    }
  }

  lemma RowsOfOne(batch: Batch)
    ensures RowsOf([batch]) == multiset(batch)
  {
    assert [batch][1..] == [];
  }

  lemma {:induction false} IngestRemove(ingesting: seq<Ingest>, k: nat)
    requires k < |ingesting|
    ensures IngestRows(ingesting)
            == IngestRows(ingesting[..k] + ingesting[k + 1..]) + multiset(ingesting[k].rows)
    decreases k
  {
    if k == 0 {
      assert ingesting[..0] + ingesting[1..] == ingesting[1..];
    } else {
      var rest := ingesting[1..];
      IngestRemove(rest, k - 1);
      var without := ingesting[..k] + ingesting[k + 1..];
      assert without[0] == ingesting[0] && without[1..] == rest[..k - 1] + rest[k..];
    }
  }

  lemma {:induction false} DrainRemove(draining: seq<Drain>, k: nat)
    requires k < |draining|
    ensures DrainRows(draining) == DrainRows(draining[..k] + draining[k + 1..]) + RowsOf(draining[k].batches)
    decreases k
  {
    if k == 0 {
      assert draining[..0] + draining[1..] == draining[1..];
    } else {
      var rest := draining[1..];
      DrainRemove(rest, k - 1);
      var without := draining[..k] + draining[k + 1..];
      assert without[0] == draining[0] && without[1..] == rest[..k - 1] + rest[k..];
    }
  }

  lemma AddIngest(ingesting: seq<Ingest>, i: Ingest)
    ensures IngestRows(ingesting + [i]) == IngestRows(ingesting) + multiset(i.rows)
  {
    var all := ingesting + [i];
    IngestRemove(all, |ingesting|);
    assert all[..|ingesting|] + all[|ingesting| + 1..] == ingesting;
  }

  lemma AddDrain(draining: seq<Drain>, d: Drain)
    ensures DrainRows(draining + [d]) == DrainRows(draining) + RowsOf(d.batches)
  {
    var all := draining + [d];
    DrainRemove(all, |draining|);
    assert all[..|draining|] + all[|draining| + 1..] == draining;
  }

  /** Reading the popped batches splits their rows into good ones and lost ones. */
  lemma {:induction false} ReadSplits(batches: seq<Batch>, readings: seq<Reading>)
    requires |readings| == |batches|
    ensures var read := ReadBatches(batches, readings);
            RowsOf(batches) == RowsOf(read.good) + read.lost
    decreases |batches|
  {
    if batches != [] {
      var n := |batches| - 1;
      ReadSplits(batches[..n], readings[..n]);
      assert batches == batches[..n] + [batches[n]];
      RowsOfSnoc(batches[..n], batches[n]);
      RowsOfSnoc(ReadBatches(batches[..n], readings[..n]).good, batches[n]);
    }
  }

  /** Unreadable batches count as one event each. */
  ghost function GarbageRows(batches: seq<Batch>, readings: seq<Reading>): int
    requires |readings| == |batches|
    decreases |batches|
  {
    if batches == [] then 0
    else
      var n := |batches| - 1;
      GarbageRows(batches[..n], readings[..n]) + if readings[n] == Garbage then |batches[n]| - 1 else 0
  }

  lemma {:induction false} ReadCounts(batches: seq<Batch>, readings: seq<Reading>)
    requires |readings| == |batches|
    ensures var read := ReadBatches(batches, readings);
            |read.lost| == read.counted + GarbageRows(batches, readings)
    decreases |batches|
  {
    if batches != [] {
      var n := |batches| - 1;
      ReadCounts(batches[..n], readings[..n]);
      assert |multiset(batches[n])| == |batches[n]|;
    }
  }

  // ----- Conservation -----

  lemma BufferStep(s: State, kind: Kind, buffer: seq<Batch>)
    ensures RowsOf(WithBuffer(s, kind, buffer).tasks) + RowsOf(WithBuffer(s, kind, buffer).workers)
            + RowsOf(BufferOf(s, kind))
            == RowsOf(s.tasks) + RowsOf(s.workers) + RowsOf(buffer)
  {
  }

  lemma SettleConserves(s: State, k: nat, outcome: Outcome)
    requires k < |s.ingesting| && RowsConserved(s)
    ensures RowsConserved(Settle(s, k, outcome))
  {
    hide RowsOf, IngestRows, DrainRows, Trim, Trimmed;
    IngestRemove(s.ingesting, k);
    var i := s.ingesting[k];
    var pushed := BufferOf(s, i.kind) + [i.rows];
    RowsOfAppend(BufferOf(s, i.kind), [i.rows]);
    RowsOfOne(i.rows);
    TrimSplits(pushed);
    var taken := s.(ingesting := s.ingesting[..k] + s.ingesting[k + 1..]);
    BufferStep(taken.(trimmedRows := s.trimmedRows + RowsOf(Trimmed(pushed))), i.kind, Trim(pushed));
    var s' := Settle(s, k, outcome);
    if outcome == Buffered {
      assert s'.receivedRows == s.receivedRows && s'.ingesting == taken.ingesting && s'.draining == s.draining;
      Exchange(RowsOf(s'.tasks) + RowsOf(s'.workers), RowsOf(s.tasks) + RowsOf(s.workers),
               RowsOf(BufferOf(s, i.kind)), RowsOf(Trimmed(pushed)), RowsOf(Trim(pushed)), multiset(i.rows));
      Assemble(s.storedRows + s.droppedRows + s.trimmedRows, RowsOf(s.tasks) + RowsOf(s.workers),
               RowsOf(s'.tasks) + RowsOf(s'.workers), RowsOf(Trimmed(pushed)), multiset(i.rows),
               IngestRows(s'.ingesting), DrainRows(s.draining));
    }
  }

  lemma Assemble(settled: multiset<Row>, before: multiset<Row>, after: multiset<Row>, cut: multiset<Row>,
                 rows: multiset<Row>, ingesting: multiset<Row>, draining: multiset<Row>)
    requires after + cut == before + rows
    ensures settled + (before + (ingesting + rows) + draining) == settled + cut + (after + ingesting + draining)
  {
    forall x: Row
      ensures (settled + (before + (ingesting + rows) + draining))[x]
              == (settled + cut + (after + ingesting + draining))[x]
    {
      assert (after + cut)[x] == (before + rows)[x];
    }
  }

  lemma Exchange(after: multiset<Row>, before: multiset<Row>, buffer: multiset<Row>, cut: multiset<Row>,
                 kept: multiset<Row>, rows: multiset<Row>)
    requires after + buffer == before + kept && cut + kept == buffer + rows
    ensures after + cut == before + rows
  {
    forall x: Row
      ensures (after + cut)[x] == (before + rows)[x]
    {
      assert (after + buffer)[x] == (before + kept)[x] && (cut + kept)[x] == (buffer + rows)[x];
    }
  }

  lemma TrimSplits(buffer: seq<Batch>)
    ensures RowsOf(buffer) == RowsOf(Trimmed(buffer)) + RowsOf(Trim(buffer))
  {
    hide RowsOf;
    assert buffer == Trimmed(buffer) + Trim(buffer);
    RowsOfAppend(Trimmed(buffer), Trim(buffer));
  }

  lemma PopConserves(s: State, kind: Kind)
    requires RowsConserved(s)
    ensures RowsConserved(Pop(s, kind))
  {
    hide RowsOf, IngestRows, DrainRows;
    var buffer := BufferOf(s, kind);
    var n := PopCount(buffer);
    assert buffer == buffer[..n] + buffer[n..];
    RowsOfAppend(buffer[..n], buffer[n..]);
    AddDrain(s.draining, Drain(kind, buffer[..n]));
    BufferStep(s, kind, buffer[n..]);
  }

  lemma ReplayConserves(s: State, k: nat, readings: seq<Reading>, insertOk: bool)
    requires k < |s.draining| && |readings| == |s.draining[k].batches| && RowsConserved(s)
    ensures RowsConserved(Replay(s, k, readings, insertOk))
  {
    hide RowsOf, IngestRows, DrainRows, ReadBatches;
    var d := s.draining[k];
    var read := ReadBatches(d.batches, readings);
    DrainRemove(s.draining, k);
    ReadSplits(d.batches, readings);
    RowsOfAppend(BufferOf(s, d.kind), read.good);
    BufferStep(s, d.kind, BufferOf(s, d.kind) + read.good);
    if |RowsOf(read.good)| == 0 {
      assert RowsOf(read.good) == multiset{};
    }
  }

  lemma ReceiveConserves(s: State, kind: Kind, rows: Batch)
    requires RowsConserved(s)
    ensures RowsConserved(Receive(s, kind, rows))
  {
    hide RowsOf, IngestRows, DrainRows;
    AddIngest(s.ingesting, Ingest(kind, rows));
  }

  lemma CountersStep(s: State, step: Step)
    requires CountersExact(s) && Enabled(s, step)
    ensures CountersExact(Apply(s, step))
  {
    hide RowsOf, Trim, Trimmed, ReadBatches;
    match step
    case Receives(_, rows) => assert |multiset(rows)| == |rows|;
    case Settles(k, _) => assert |multiset(s.ingesting[k].rows)| == |s.ingesting[k].rows|;
    case _ =>
  }

  /** Over every run no row is lost from sight and none is counted stored twice. */
  lemma {:induction false} EveryRowIsSomewhere(states: seq<State>, steps: seq<Step>, k: nat)
    requires IsRun(states, steps) && k <= |steps|
    ensures RowsConserved(states[k]) && CountersExact(states[k])
  {
    hide RowsConserved, Settle, Replay, Pop, Receive;
    if k == 0 {
      NothingReceived(states[0]);
    } else {
      EveryRowIsSomewhere(states, steps, k - 1);
      CountersStep(states[k - 1], steps[k - 1]);
      match steps[k - 1]
      case Receives(kind, rows) => ReceiveConserves(states[k - 1], kind, rows);
      case Settles(j, outcome) => SettleConserves(states[k - 1], j, outcome);
      case Pops(kind) => PopConserves(states[k - 1], kind);
      case Replays(j, readings, insertOk) => ReplayConserves(states[k - 1], j, readings, insertOk);
    }
  }

  lemma NothingReceived(s: State)
    requires s == State(0, 0, 0, [], [], [], [], multiset{}, multiset{}, multiset{}, multiset{})
    ensures RowsConserved(s) && CountersExact(s)
  {
  }

  // ----- How far the counters are off -----

  /** Rows a step hides from the counters: those a full buffer cuts off, and of unreadable batches all but one each. */
  ghost function Uncounted(s: State, step: Step): int
    requires Enabled(s, step)
  {
    match step
    case Settles(k, Buffered) => |RowsOf(Trimmed(BufferOf(s, s.ingesting[k].kind) + [s.ingesting[k].rows]))|
    case Replays(k, readings, _) => GarbageRows(s.draining[k].batches, readings)
    case _ => 0
  }

  ghost function Imbalance(s: State): int {
    s.received - (s.inserted + s.dropped + |Waiting(s)|)
  }

  /** In every run a step shifts the balance of the counters by exactly the rows it leaves uncounted. */
  lemma BalanceShifts(states: seq<State>, steps: seq<Step>, k: nat)
    requires IsRun(states, steps) && k < |steps|
    ensures Imbalance(states[k + 1]) == Imbalance(states[k]) + Uncounted(states[k], steps[k])
  {
    hide RowsOf, Waiting, Trimmed, Trim, GarbageRows;
    EveryRowIsSomewhere(states, steps, k);
    EveryRowIsSomewhere(states, steps, k + 1);
    DroppedStep(states[k], steps[k]);
    CardinalityOfParts(states[k]);
    CardinalityOfParts(states[k + 1]);
  }

  ghost function UncountedSoFar(states: seq<State>, steps: seq<Step>, k: nat): int
    requires IsRun(states, steps) && k <= |steps|
  {
    if k == 0 then 0 else UncountedSoFar(states, steps, k - 1) + Uncounted(states[k - 1], steps[k - 1])
  }

  /** So at any time the counters are off by exactly the rows left uncounted until then. */
  lemma {:induction false} CountersAreOffBy(states: seq<State>, steps: seq<Step>, k: nat)
    requires IsRun(states, steps) && k <= |steps|
    ensures states[k].received
            == states[k].inserted + states[k].dropped + |Waiting(states[k])| + UncountedSoFar(states, steps, k)
  {
    hide IsRun, Waiting, Uncounted;
    if k == 0 {
      StartIsBalanced(states, steps);
    } else {
      CountersAreOffBy(states, steps, k - 1);
      BalanceShifts(states, steps, k - 1);
    }
  }

  lemma StartIsBalanced(states: seq<State>, steps: seq<Step>)
    requires IsRun(states, steps)
    ensures states[0].received == 0 == states[0].inserted + states[0].dropped + |Waiting(states[0])|
  {
    NothingWaiting(states[0]);
  }

  lemma CardinalityOfParts(s: State)
    requires RowsConserved(s)
    ensures |s.receivedRows| == |s.storedRows| + |s.droppedRows| + |s.trimmedRows| + |Waiting(s)|
  {
    hide Waiting;
  }

  /** How a step moves the rows given up and cut off against the counter of dropped ones. */
  lemma DroppedStep(s: State, step: Step)
    requires Enabled(s, step)
    ensures var s' := Apply(s, step);
            |s'.droppedRows| + |s'.trimmedRows| - s'.dropped
            == |s.droppedRows| + |s.trimmedRows| - s.dropped + Uncounted(s, step)
  {
    hide RowsOf, Trimmed, Trim, ReadBatches, GarbageRows;
    match step
    case Settles(k, _) => assert |multiset(s.ingesting[k].rows)| == |s.ingesting[k].rows|;
    case Replays(k, readings, _) => ReadCounts(s.draining[k].batches, readings);
    case _ =>
  }

  lemma NothingWaiting(s: State)
    requires s.tasks == [] && s.workers == [] && s.ingesting == [] && s.draining == []
    ensures |Waiting(s)| == 0
  {
  }

  /** What a pop takes of the batches that stand behind the first `n` of the buffer. */
  function TakenBehind(taken: seq<Batch>, n: nat): seq<Batch> {
    if |taken| > n then taken[n..] else []
  }

  /**
   Batches that could not be replayed go behind all others. The next pop takes some of them exactly
   if the buffer held fewer batches than a pop takes, and begins with them exactly if it held none.
   */
  lemma RequeuedGoLast(s: State, k: nat, readings: seq<Reading>)
    requires k < |s.draining| && |readings| == |s.draining[k].batches|
    requires |RowsOf(ReadBatches(s.draining[k].batches, readings).good)| > 0
    ensures var d := s.draining[k];
            var buffer, requeued := BufferOf(s, d.kind), ReadBatches(d.batches, readings).good;
            var s' := Replay(s, k, readings, false);
            var taken := Pop(s', d.kind).draining[|s'.draining|].batches;
            && BufferOf(s', d.kind) == buffer + requeued
            && taken != [] && TakenBehind(taken, |buffer|) <= requeued
            && taken == (if |buffer| < RETRY_DRAIN_PER_CYCLE then buffer + TakenBehind(taken, |buffer|)
                         else buffer[..RETRY_DRAIN_PER_CYCLE])
            && (TakenBehind(taken, |buffer|) != [] <==> |buffer| < RETRY_DRAIN_PER_CYCLE)
            && (TakenBehind(taken, |buffer|) == taken <==> buffer == [])
  {
    hide RowsOf, ReadBatches;
    var d := s.draining[k];
    var s' := Replay(s, k, readings, false);
    NoRowsNoBatches(ReadBatches(d.batches, readings).good);
    PopFrom(BufferOf(s, d.kind), ReadBatches(d.batches, readings).good);
  }

  lemma NoRowsNoBatches(batches: seq<Batch>)
    requires |RowsOf(batches)| > 0
    ensures batches != []
  {
  }

  lemma PopFrom(buffer: seq<Batch>, requeued: seq<Batch>)
    requires requeued != []
    ensures var taken := (buffer + requeued)[..PopCount(buffer + requeued)];
            && taken != [] && TakenBehind(taken, |buffer|) <= requeued
            && taken == (if |buffer| < RETRY_DRAIN_PER_CYCLE then buffer + TakenBehind(taken, |buffer|)
                         else buffer[..RETRY_DRAIN_PER_CYCLE])
            && (TakenBehind(taken, |buffer|) != [] <==> |buffer| < RETRY_DRAIN_PER_CYCLE)
            && (TakenBehind(taken, |buffer|) == taken <==> buffer == [])
  {
    var taken := (buffer + requeued)[..PopCount(buffer + requeued)];
    if |buffer| < RETRY_DRAIN_PER_CYCLE {
      PrefixOfSum(buffer, requeued, |taken|);
    } else {
      assert taken == buffer[..RETRY_DRAIN_PER_CYCLE];
    }
  }

  lemma PrefixOfSum(a: seq<Batch>, b: seq<Batch>, n: nat)
    requires |a| <= n <= |a + b|
    ensures var taken := (a + b)[..n];
            taken == a + taken[|a|..] && taken[|a|..] == b[..n - |a|]
  {
    var taken := (a + b)[..n];
    assert forall j :: 0 <= j < |a| ==> taken[j] == a[j];
    assert forall j :: 0 <= j < n - |a| ==> taken[|a|..][j] == b[j];
  }

  lemma OneGood(batch: Batch)
    requires batch != []
    ensures ReadBatches([batch], [Typed]).good == [batch] && |RowsOf([batch])| > 0
  {
    assert [batch][..0] == [] && [Typed][..0] == [];
    assert RowsOf([batch]) == multiset(batch);
    assert batch[0] in multiset(batch);
  }

  /** One batch came in while another was popped and could not be stored: it is popped first the next time. */
  lemma NewBatchOvertakes(s: State, popped: Batch, later: Batch)
    requires s.tasks == [later] && s.draining == [Drain(Tasks, [popped])] && popped != []
    ensures var s' := Replay(s, 0, [Typed], false);
            Pop(s', Tasks).draining[|s'.draining|].batches == [later, popped]
  {
    hide ReadBatches, RowsOf, Replay;
    OneGood(popped);
    RequeuedGoLast(s, 0, [Typed]);
    assert [later] + [popped] == [later, popped];
    var s' := Replay(s, 0, [Typed], false);
    assert s'.tasks == [later, popped];
    assert [later, popped][..2] == [later, popped];
  }
}
