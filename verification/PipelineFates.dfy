/** What becomes of the rows of a batch, by which calls succeed and how a buffered batch reads back. */
module PipelineFates {
  import opened Pipeline
  import opened PipelineRuns

  // ----- Reading popped batches -----

  /** The batches that read back as rows, in order. */
  ghost function TypedBatches(batches: seq<Batch>, readings: seq<Reading>): seq<Batch>
    requires |readings| == |batches|
  {
    if batches == [] then []
    else (if readings[0] == Typed then [batches[0]] else []) + TypedBatches(batches[1..], readings[1..])
  }

  /** The batches that do not, in order. */
  ghost function OtherBatches(batches: seq<Batch>, readings: seq<Reading>): seq<Batch>
    requires |readings| == |batches|
  {
    if batches == [] then []
    else (if readings[0] == Typed then [] else [batches[0]]) + OtherBatches(batches[1..], readings[1..])
  }

  /** A list of unknown rows counts with its length, anything else as one. */
  ghost function CountedDropped(batches: seq<Batch>, readings: seq<Reading>): nat
    requires |readings| == |batches|
  {
    if batches == [] then 0
    else
      (if readings[0] == Typed then 0 else if readings[0] == Counted then |batches[0]| else 1)
      + CountedDropped(batches[1..], readings[1..])
  }

  lemma {:induction false} ReadingsSnoc(batches: seq<Batch>, readings: seq<Reading>, b: Batch, r: Reading)
    requires |readings| == |batches|
    ensures TypedBatches(batches + [b], readings + [r])
            == TypedBatches(batches, readings) + if r == Typed then [b] else []
    ensures OtherBatches(batches + [b], readings + [r])
            == OtherBatches(batches, readings) + if r == Typed then [] else [b]
    ensures CountedDropped(batches + [b], readings + [r])
            == CountedDropped(batches, readings) + if r == Typed then 0 else if r == Counted then |b| else 1
  {
    if batches == [] {
      assert batches + [b] == [b] && readings + [r] == [r] && [b][1..] == [] && [r][1..] == [];
    } else {
      assert (batches + [b])[1..] == batches[1..] + [b] && (readings + [r])[1..] == readings[1..] + [r];
      ReadingsSnoc(batches[1..], readings[1..], b, r);
    }
  }

  /** Exactly the batches that read back as rows are good; the rows of all others are given up. */
  lemma {:induction false} ReadExactly(batches: seq<Batch>, readings: seq<Reading>)
    requires |readings| == |batches|
    ensures var read := ReadBatches(batches, readings);
            && read.good == TypedBatches(batches, readings)
            && read.lost == RowsOf(OtherBatches(batches, readings))
            && read.counted == CountedDropped(batches, readings)
    decreases |batches|
  {
    hide TypedBatches, OtherBatches, CountedDropped, RowsOf;
    if batches == [] {
      NothingRead();
    } else {
      var n := |batches| - 1;
      var init, last := batches[..n], batches[n];
      assert batches == init + [last] && readings == readings[..n] + [readings[n]];
      ReadExactly(init, readings[..n]);
      ReadingsSnoc(init, readings[..n], last, readings[n]);
      RowsOfSnoc(OtherBatches(init, readings[..n]), last);
      assert TypedBatches(init, readings[..n]) + [] == TypedBatches(init, readings[..n]);
      assert OtherBatches(init, readings[..n]) + [] == OtherBatches(init, readings[..n]);
    }
  }

  lemma NothingRead()
    ensures TypedBatches([], []) == [] && RowsOf(OtherBatches([], [])) == multiset{} && CountedDropped([], []) == 0
  {
  }

  // ----- The fates -----

  /** The rows a step stores: those of an insert that succeeded. */
  ghost function StoredBy(s: State, step: Step): multiset<Row>
    requires Enabled(s, step)
  {
    match step
    case Settles(k, Inserted) => multiset(s.ingesting[k].rows)
    case Replays(k, readings, true) => RowsOf(TypedBatches(s.draining[k].batches, readings))
    case _ => multiset{}
  }

  /** The rows a step gives up: those that the buffer could not be given, and those that do not read back. */
  ghost function DroppedBy(s: State, step: Step): multiset<Row>
    requires Enabled(s, step)
  {
    match step
    case Settles(k, BufferUnreachable) => multiset(s.ingesting[k].rows)
    case Replays(k, readings, _) => RowsOf(OtherBatches(s.draining[k].batches, readings))
    case _ => multiset{}
  }

  /** What a step counts as dropped; it counts as inserted what it stores. */
  ghost function CountedBy(s: State, step: Step): nat
    requires Enabled(s, step)
  {
    match step
    case Settles(k, BufferUnreachable) => |s.ingesting[k].rows|
    case Replays(k, readings, _) => CountedDropped(s.draining[k].batches, readings)
    case _ => 0
  }

  /** What a step leaves in the buffer of its kind: a push goes last, a failed replay behind it, a pop takes the front. */
  ghost predicate Buffers(s: State, step: Step, s': State)
    requires Enabled(s, step)
  {
    match step
    case Receives(_, _) => s'.tasks == s.tasks && s'.workers == s.workers
    case Settles(k, outcome) =>
      var kind := s.ingesting[k].kind;
      var pushed := BufferOf(s, kind) + if outcome == Buffered then [s.ingesting[k].rows] else [];
      && BufferOf(s', Other(kind)) == BufferOf(s, Other(kind))
      && IsNewestPart(BufferOf(s', kind), pushed, outcome)
    case Pops(kind) =>
      && BufferOf(s', Other(kind)) == BufferOf(s, Other(kind))
      && s'.draining != [] && s'.draining[|s'.draining| - 1].batches + BufferOf(s', kind) == BufferOf(s, kind)
    case Replays(k, readings, insertOk) =>
      var kind := s.draining[k].kind;
      var typed := TypedBatches(s.draining[k].batches, readings);
      && BufferOf(s', Other(kind)) == BufferOf(s, Other(kind))
      && BufferOf(s', kind) == BufferOf(s, kind) + if !insertOk && RowsOf(typed) != multiset{} then typed else []
  }

  function Other(kind: Kind): Kind {
    if kind == Tasks then Workers else Tasks
  }

  /** All of `pushed`, or after a push its last two thousand. */
  ghost predicate IsNewestPart(buffer: seq<Batch>, pushed: seq<Batch>, outcome: Outcome) {
    buffer == if outcome == Buffered && |pushed| > 2000 then pushed[|pushed| - 2000..] else pushed
  }

  ghost predicate Fates(s: State, step: Step, s': State)
    requires Enabled(s, step)
  {
    && s'.storedRows == s.storedRows + StoredBy(s, step)
    && s'.droppedRows == s.droppedRows + DroppedBy(s, step)
    && s'.inserted == s.inserted + |StoredBy(s, step)|
    && s'.dropped == s.dropped + CountedBy(s, step)
    && Buffers(s, step, s')
  }

  lemma ReceiveFates(s: State, step: Step)
    requires Enabled(s, step) && step.Receives?
    ensures Fates(s, step, Apply(s, step))
  {
  }

  /** A push keeps the newest two thousand batches; what it cuts off are the others. */
  lemma TrimExactly(pushed: seq<Batch>)
    ensures IsNewestPart(Trim(pushed), pushed, Buffered) && Trimmed(pushed) + Trim(pushed) == pushed
  {
  }

  lemma SettleFates(s: State, step: Step)
    requires Enabled(s, step) && step.Settles?
    ensures Fates(s, step, Apply(s, step))
  {
    hide RowsOf, Trim, Trimmed;
    var i := s.ingesting[step.k];
    var buffer := BufferOf(s, i.kind);
    if step.outcome == Buffered {
      TrimExactly(buffer + [i.rows]);
    } else {
      assert buffer + [] == buffer;
    }
  }

  lemma PopFates(s: State, step: Step)
    requires Enabled(s, step) && step.Pops?
    ensures Fates(s, step, Apply(s, step))
  {
    var buffer := BufferOf(s, step.kind);
    assert buffer[..PopCount(buffer)] + buffer[PopCount(buffer)..] == buffer;
  }

  lemma ReplayFates(s: State, step: Step)
    requires Enabled(s, step) && step.Replays?
    ensures Fates(s, step, Apply(s, step))
  {
    hide TypedBatches, OtherBatches, CountedDropped, RowsOf, ReadBatches;
    var d := s.draining[step.k];
    ReadExactly(d.batches, step.readings);
    var buffer := BufferOf(s, d.kind);
    assert buffer + [] == buffer;
    NoRowsNoSize(RowsOf(TypedBatches(d.batches, step.readings)));
  }

  /** In every step: what is stored, given up and counted, and what the buffers hold behind it. */
  lemma StepFates(s: State, step: Step)
    requires Enabled(s, step)
    ensures Fates(s, step, Apply(s, step))
  {
    hide Fates, Apply;
    match step
    case Receives(_, _) => ReceiveFates(s, step);
    case Settles(_, _) => SettleFates(s, step);
    case Pops(_) => PopFates(s, step);
    case Replays(_, _, _) => ReplayFates(s, step);
  }

  lemma NoRowsNoSize(rows: multiset<Row>)
    ensures |rows| == 0 <==> rows == multiset{}
  {
  }
}
