/** In which runs the counters of ingestion account for every row. */
module PipelineBalance {
  import opened Pipeline
  import opened PipelineRuns

  // ----- No batch is empty -----

  ghost predicate NonEmpty(batches: seq<Batch>) {
    forall k :: 0 <= k < |batches| ==> batches[k] != []
  }

  ghost predicate NoneEmpty(s: State) {
    && (forall i :: i in s.ingesting ==> i.rows != [])
    && (forall d :: d in s.draining ==> NonEmpty(d.batches))
    && NonEmpty(s.tasks) && NonEmpty(s.workers)
  }

  lemma {:induction false} GoodNonEmpty(batches: seq<Batch>, readings: seq<Reading>)
    requires |readings| == |batches| && NonEmpty(batches)
    ensures NonEmpty(ReadBatches(batches, readings).good)
    decreases |batches|
  {
    if batches != [] {
      var n := |batches| - 1;
      GoodNonEmpty(batches[..n], readings[..n]);
    }
  }

  lemma PushedNonEmpty(buffer: seq<Batch>, rows: Batch)
    requires NonEmpty(buffer) && rows != []
    ensures NonEmpty(Trim(buffer + [rows]))
  {
    assert NonEmpty(buffer + [rows]);
  }

  lemma PopNonEmpty(buffer: seq<Batch>)
    requires NonEmpty(buffer)
    ensures NonEmpty(buffer[..PopCount(buffer)]) && NonEmpty(buffer[PopCount(buffer)..])
  {
  }

  lemma StepKeepsNoneEmpty(s: State, step: Step)
    requires NoneEmpty(s) && Enabled(s, step)
    ensures NoneEmpty(Apply(s, step))
  {
    hide RowsOf, ReadBatches, Trim, Trimmed;
    match step
    case Receives(_, _) =>
    case Settles(k, _) =>
      assert s.ingesting[k] in s.ingesting;
      PushedNonEmpty(BufferOf(s, s.ingesting[k].kind), s.ingesting[k].rows);
    case Pops(kind) => PopNonEmpty(BufferOf(s, kind));
    case Replays(k, readings, _) =>
      assert s.draining[k] in s.draining;
      GoodNonEmpty(s.draining[k].batches, readings);
  }

  lemma {:induction false} RunKeepsNoneEmpty(states: seq<State>, steps: seq<Step>, k: nat)
    requires IsRun(states, steps) && k <= |steps|
    ensures NoneEmpty(states[k])
  {
    hide NoneEmpty, Apply;
    if k == 0 {
      StartHasNone(states[0]);
    } else {
      RunKeepsNoneEmpty(states, steps, k - 1);
      StepKeepsNoneEmpty(states[k - 1], steps[k - 1]);
    }
  }

  lemma StartHasNone(s: State)
    requires s == State(0, 0, 0, [], [], [], [], multiset{}, multiset{}, multiset{}, multiset{})
    ensures NoneEmpty(s)
  {
  }

  // ----- Steps that count every row -----

  /** A buffer with room loses nothing to a push; a full one loses rows, since no buffered batch is empty. */
  lemma PushKeepsAllExactlyWithRoom(buffer: seq<Batch>, rows: Batch)
    requires NonEmpty(buffer)
    ensures |RowsOf(Trimmed(buffer + [rows]))| == 0 <==> |buffer| < MAX_RETRY_QUEUE_LEN
  {
    var pushed := buffer + [rows];
    var cut := Trimmed(pushed);
    if cut != [] {
      assert cut[0] == buffer[0];
      assert |multiset(cut[0])| == |cut[0]|;
    }
  }

  /** A batch that cannot be read back counts as one event: right for batches of one row only. */
  ghost predicate GarbageIsSingle(batches: seq<Batch>, readings: seq<Reading>)
    requires |readings| == |batches|
  {
    forall j :: 0 <= j < |batches| && readings[j] == Garbage ==> |batches[j]| == 1
  }

  lemma {:induction false} GarbageExactly(batches: seq<Batch>, readings: seq<Reading>)
    requires |readings| == |batches| && NonEmpty(batches)
    ensures GarbageRows(batches, readings) >= 0
    ensures GarbageRows(batches, readings) == 0 <==> GarbageIsSingle(batches, readings)
    decreases |batches|
  {
    if batches != [] {
      var n := |batches| - 1;
      GarbageExactly(batches[..n], readings[..n]);
    }
  }

  /** The buffer has room for the push; unreadable batches have one row; other steps count all their rows. */
  ghost predicate CountsAll(s: State, step: Step)
    requires Enabled(s, step)
  {
    match step
    case Settles(k, Buffered) => |BufferOf(s, s.ingesting[k].kind)| < MAX_RETRY_QUEUE_LEN
    case Replays(k, readings, _) => GarbageIsSingle(s.draining[k].batches, readings)
    case _ => true
  }

  lemma CountsAllExactly(s: State, step: Step)
    requires NoneEmpty(s) && Enabled(s, step)
    ensures Uncounted(s, step) >= 0
    ensures Uncounted(s, step) == 0 <==> CountsAll(s, step)
  {
    hide RowsOf, Trimmed, GarbageRows, GarbageIsSingle;
    match step
    case Settles(k, Buffered) =>
      PushKeepsAllExactlyWithRoom(BufferOf(s, s.ingesting[k].kind), s.ingesting[k].rows);
    case Replays(k, readings, _) =>
      assert s.draining[k] in s.draining;
      GarbageExactly(s.draining[k].batches, readings);
    case _ =>
  }

  lemma {:induction false} UncountedExactly(states: seq<State>, steps: seq<Step>, k: nat)
    requires IsRun(states, steps) && k <= |steps|
    ensures UncountedSoFar(states, steps, k) >= 0
    ensures UncountedSoFar(states, steps, k) == 0 <==> forall j :: 0 <= j < k ==> CountsAll(states[j], steps[j])
  {
    hide NoneEmpty, Apply, Uncounted, CountsAll;
    if k > 0 {
      UncountedExactly(states, steps, k - 1);
      RunKeepsNoneEmpty(states, steps, k - 1);
      CountsAllExactly(states[k - 1], steps[k - 1]);
    }
  }

  // ----- The balance of the counters -----

  ghost predicate Balanced(s: State) {
    s.received == s.inserted + s.dropped + |Waiting(s)|
  }

  /**
   In every run the counters balance after k steps exactly if each of these steps counts all its rows:
   the buffer had room for every push, and every unreadable batch had one row.
   */
  lemma BalancedExactly(states: seq<State>, steps: seq<Step>, k: nat)
    requires IsRun(states, steps) && k <= |steps|
    ensures Balanced(states[k]) <==> forall j :: 0 <= j < k ==> CountsAll(states[j], steps[j])
  {
    hide IsRun, Waiting, Uncounted, CountsAll;
    CountersAreOffBy(states, steps, k);
    UncountedExactly(states, steps, k);
  }

  const START := State(0, 0, 0, [], [], [], [], multiset{}, multiset{}, multiset{}, multiset{})
  const PAIR: Batch := [1, 2]

  /** A batch of two rows that is buffered and cannot be read back. */
  function UnreadablePair(): seq<Step> {
    [Receives(Tasks, PAIR), Settles(0, Buffered), Pops(Tasks), Replays(0, [Garbage], true)]
  }

  lemma PairBuffered()
    ensures var s := Settle(Receive(START, Tasks, PAIR), 0, Buffered);
            s.tasks == [PAIR] && s.workers == [] && s.ingesting == [] && s.draining == []
            && s.received == 2 && s.inserted == 0 && s.dropped == 0
  {
    hide RowsOf;
    IngestAlone(START, Tasks, PAIR);
    assert [] + [PAIR] == [PAIR];
  }

  lemma PairPopped(s: State)
    requires s.tasks == [PAIR] && s.draining == []
    ensures Pop(s, Tasks) == s.(tasks := [], draining := [Drain(Tasks, [PAIR])])
  {
    assert [PAIR][..1] == [PAIR] && [PAIR][1..] == [];
  }

  lemma PairUnreadable(s: State)
    requires s.draining == [Drain(Tasks, [PAIR])]
    ensures var s' := Replay(s, 0, [Garbage], true);
            s'.received == s.received && s'.inserted == s.inserted && s'.dropped == s.dropped + 1
  {
    assert [PAIR][..0] == [];
    assert ReadBatches([PAIR], [Garbage]).good == [];
  }

  /** Two rows received, one counted dropped, none waiting. */
  lemma UnreadablePairIsMiscounted() returns (states: seq<State>)
    ensures IsRun(states, UnreadablePair())
    ensures states[4].received == 2 && states[4].dropped == 1 && states[4].inserted == 0
    ensures !Balanced(states[4])
  {
    hide Waiting, Settle, Receive, Pop, Replay, RowsOf;
    var steps := UnreadablePair();
    PairBuffered();
    var s1 := Receive(START, Tasks, PAIR);
    PairReceived();
    var s2 := Settle(s1, 0, Buffered);
    PairPopped(s2);
    var s3 := Pop(s2, Tasks);
    PairUnreadable(s3);
    states := [START, s1, s2, s3, Replay(s3, 0, [Garbage], true)];
    PairMiscounted(s3);
    assert !CountsAll(states[3], steps[3]);
    BalancedExactly(states, steps, 4);
  }

  lemma PairMiscounted(s: State)
    requires s.draining == [Drain(Tasks, [PAIR])]
    ensures !CountsAll(s, Replays(0, [Garbage], true))
  {
    assert [PAIR][0] == PAIR && [Garbage][0] == Garbage;
  }

  lemma PairReceived()
    ensures |Receive(START, Tasks, PAIR).ingesting| == 1
  {
  }
}
