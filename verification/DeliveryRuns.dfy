/** What the delivery of alerts keeps over every interleaving of passes and drains. */
module DeliveryRuns {
  import opened Wrappers
  import opened Deliveries

  datatype Step =
    | Fires(h: HistoryId, incident: Incident, results: seq<SendResult>, recorded: bool)
    | Schedules(now: Seconds)
    | Pops(now: Seconds)
    | Processes(answer: Answer)

  /** A pass schedules what it has before it fires again; a drain handles what it took before it pops again. */
  ghost predicate Enabled(s: State, step: Step) {
    match step
    case Fires(h, i, results, _) => h !in s.incidents && s.pending == [] && |results| == |i.channels|
    case Schedules(_) => s.pending != [] && s.pending[0].history in s.incidents
    case Pops(_) => s.drained == []
    case Processes(_) => s.drained != []
  }

  ghost function Apply(s: State, step: Step): State
    requires Enabled(s, step)
  {
    match step
    case Fires(h, i, results, recorded) => Fire(s, h, i, results, recorded)
    case Schedules(now) => ScheduleNext(s, now)
    case Pops(now) => Pop(s, now)
    case Processes(a) => ProcessNext(s, a)
  }

  /** The state after the steps, if each of them could be taken. */
  ghost function Run(steps: seq<Step>): Option<State> {
    if steps == [] then Some(State(map[], [], [], [], []))
    else
      match Run(steps[..|steps| - 1])
      case None => None
      case Some(s) => if Enabled(s, steps[|steps| - 1]) then Some(Apply(s, steps[|steps| - 1])) else None
  }

  // ----- Counting, for the entries that satisfy `f` -----

  type Which = (HistoryId, Channel) -> bool

  ghost function Only(h: HistoryId, c: Channel): Which {
    (h', c') => h' == h && c' == c
  }

  /** Sends a job still stands for, its own included. */
  ghost function Left(job: Job, f: Which): nat {
    if f(job.history, job.channel) && job.attempt <= MAX_DELIVERY_ATTEMPTS
    then MAX_DELIVERY_ATTEMPTS + 1 - job.attempt else 0
  }

  ghost function QueueLoad(queue: seq<Entry>, f: Which): nat {
    if queue == [] then 0 else Left(queue[0].job, f) + QueueLoad(queue[1..], f)
  }

  ghost function DrainLoad(jobs: seq<Job>, f: Which): nat {
    if jobs == [] then 0 else Left(jobs[0], f) + DrainLoad(jobs[1..], f)
  }

  ghost function PendingLoad(pending: seq<Failed>, f: Which): nat {
    if pending == [] then 0
    else (if f(pending[0].history, pending[0].channel) then 2 else 0) + PendingLoad(pending[1..], f)
  }

  ghost function Sends(log: seq<Send>, f: Which): nat {
    if log == [] then 0
    else Sends(log[..|log| - 1], f) + if f(log[|log| - 1].history, log[|log| - 1].channel) then 1 else 0
  }

  ghost function RetryableFailures(log: seq<Send>, f: Which): nat {
    if log == [] then 0
    else
      var last := log[|log| - 1];
      RetryableFailures(log[..|log| - 1], f)
      + if f(last.history, last.channel) && IsRetryable(last.result) then 1 else 0
  }

  ghost function Entries(channels: seq<Channel>, c: Channel): nat {
    if channels == [] then 0
    else Entries(channels[..|channels| - 1], c) + if channels[|channels| - 1] == c then 1 else 0
  }

  /** How often an incident lists a channel entry. */
  ghost function Times(s: State, h: HistoryId, c: Channel): nat {
    if h in s.incidents then Entries(s.incidents[h].channels, c) else 0
  }

  lemma {:induction false} InsertLoad(queue: seq<Entry>, e: Entry, f: Which)
    ensures QueueLoad(Insert(queue, e), f) == QueueLoad(queue, f) + Left(e.job, f)
  {
    if queue == [] || e.at < queue[0].at {
      assert ([e] + queue)[1..] == queue;
    } else {
      InsertLoad(queue[1..], e, f);
    }
  }

  lemma {:induction false} WithoutLoad(queue: seq<Entry>, job: Job, f: Which)
    ensures QueueLoad(Without(queue, job), f) <= QueueLoad(queue, f)
  {
    if queue != [] {
      WithoutLoad(queue[1..], job, f);
    }
  }

  /** Scheduling after a failed attempt adds at most the sends that remain after that attempt. */
  lemma ScheduleLoad(queue: seq<Entry>, job: Job, r: SendResult, now: Seconds, f: Which)
    requires 1 <= job.attempt <= MAX_DELIVERY_ATTEMPTS
    ensures QueueLoad(Schedule(queue, job, r, now), f)
            <= QueueLoad(queue, f) + if f(job.history, job.channel) then MAX_DELIVERY_ATTEMPTS - job.attempt else 0
  {
    var e := Entry(job.(attempt := job.attempt + 1), now + BackoffSecs(job.attempt, r.retryAfter));
    WithoutLoad(queue, e.job, f);
    InsertLoad(Without(queue, e.job), e, f);
  }

  lemma {:induction false} PopLoad(queue: seq<Entry>, n: nat, f: Which)
    requires n <= |queue|
    ensures DrainLoad(Jobs(queue[..n]), f) + QueueLoad(queue[n..], f) == QueueLoad(queue, f)
    decreases n
  {
    if n > 0 {
      PopLoad(queue[1..], n - 1, f);
      assert queue[..n][1..] == queue[1..][..n - 1];
      assert queue[n..] == queue[1..][n - 1..];
      assert Jobs(queue[..n])[1..] == Jobs(queue[1..][..n - 1]);
    }
  }

  lemma {:induction false} SendsAppend(a: seq<Send>, b: seq<Send>, f: Which)
    ensures Sends(a + b, f) == Sends(a, f) + Sends(b, f)
    ensures RetryableFailures(a + b, f) == RetryableFailures(a, f) + RetryableFailures(b, f)
    decreases |b|
  {
    if b == [] {
      assert a + b == a;
    } else {
      assert (a + b)[..|a + b| - 1] == a + b[..|b| - 1];
      SendsAppend(a, b[..|b| - 1], f);
    }
  }

  lemma SendsOne(send: Send, f: Which)
    ensures Sends([send], f) == if f(send.history, send.channel) then 1 else 0
    ensures RetryableFailures([send], f) == if f(send.history, send.channel) && IsRetryable(send.result) then 1 else 0
  {
    assert [send][..0] == [];
  }

  lemma {:induction false} FailuresAtMostSends(log: seq<Send>, f: Which)
    ensures RetryableFailures(log, f) <= Sends(log, f)
  {
    if log != [] {
      FailuresAtMostSends(log[..|log| - 1], f);
    }
  }

  lemma {:induction false} PendingSnoc(pending: seq<Failed>, p: Failed, f: Which)
    ensures PendingLoad(pending + [p], f) == PendingLoad(pending, f) + if f(p.history, p.channel) then 2 else 0
  {
    if pending == [] {
      assert pending + [p] == [p] && [p][1..] == [];
    } else {
      assert (pending + [p])[1..] == pending[1..] + [p];
      PendingSnoc(pending[1..], p, f);
    }
  }

  /** The first sends of an incident: one for each entry, and at most two more sends for each that failed. */
  lemma {:induction false} FirstSendsLoad(h: HistoryId, channels: seq<Channel>, results: seq<SendResult>,
                                          h': HistoryId, c: Channel)
    requires |channels| == |results|
    ensures var sends := FirstSends(h, channels, results);
            && Sends(sends, Only(h', c)) == (if h' == h then Entries(channels, c) else 0)
            && PendingLoad(Failures(sends), Only(h', c)) <= 2 * Sends(sends, Only(h', c))
    decreases |channels|
  {
    var f := Only(h', c);
    var sends := FirstSends(h, channels, results);
    if channels != [] {
      var n := |channels| - 1;
      FirstSendsLoad(h, channels[..n], results[..n], h', c);
      var init := FirstSends(h, channels[..n], results[..n]);
      assert sends[..n] == init;
      if !sends[n].result.success {
        PendingSnoc(Failures(init), Failed(h, channels[n], results[n]), f);
      }
    }
  }

  // ----- The invariant -----

  /** A job carries attempt 2 or 3, and each attempt before it was a failure worth a retry. */
  ghost predicate GoodJob(s: State, job: Job) {
    && 2 <= job.attempt <= MAX_DELIVERY_ATTEMPTS
    && job.history in s.incidents
    && job.tenant == s.incidents[job.history].tenant && job.alert == s.incidents[job.history].alert
    && RetryableFailures(s.log, Only(job.history, job.channel)) >= job.attempt - 1
  }

  ghost predicate GoodPending(s: State, p: Failed) {
    && p.history in s.incidents
    && (IsRetryable(p.result) ==> RetryableFailures(s.log, Only(p.history, p.channel)) >= 1)
  }

  ghost predicate DistinctJobs(queue: seq<Entry>) {
    forall j, k :: 0 <= j < k < |queue| ==> queue[j].job != queue[k].job
  }

  ghost predicate InBudget(s: State, h: HistoryId, c: Channel) {
    var f := Only(h, c);
    Sends(s.log, f) + QueueLoad(s.queue, f) + DrainLoad(s.drained, f) + PendingLoad(s.pending, f)
    <= MAX_DELIVERY_ATTEMPTS * Times(s, h, c)
  }

  ghost predicate Inv(s: State) {
    && (forall e :: e in s.queue ==> GoodJob(s, e.job))
    && (forall job :: job in s.drained ==> GoodJob(s, job))
    && (forall p :: p in s.pending ==> GoodPending(s, p))
    && DistinctJobs(s.queue)
    && (forall h, c :: InBudget(s, h, c))
  }

  lemma {:induction false} WithoutMembers(queue: seq<Entry>, job: Job)
    ensures forall e :: e in Without(queue, job) ==> e in queue && e.job != job
    ensures DistinctJobs(queue) ==> DistinctJobs(Without(queue, job))
  {
    if queue != [] {
      WithoutMembers(queue[1..], job);
      assert queue == [queue[0]] + queue[1..];
      if DistinctJobs(queue) {
        assert forall e :: e in queue[1..] ==> e.job != queue[0].job;
        assert DistinctJobs(queue[1..]);
      }
    }
  }

  lemma {:induction false} InsertMembers(queue: seq<Entry>, e: Entry)
    ensures forall x :: x in Insert(queue, e) <==> x == e || x in queue
    ensures DistinctJobs(queue) && (forall x :: x in queue ==> x.job != e.job) ==> DistinctJobs(Insert(queue, e))
  {
    if queue != [] && e.at >= queue[0].at {
      InsertMembers(queue[1..], e);
      assert queue == [queue[0]] + queue[1..];
      if DistinctJobs(queue) && (forall x :: x in queue ==> x.job != e.job) {
        assert DistinctJobs(queue[1..]);
        assert forall x :: x in queue[1..] ==> x.job != queue[0].job;
      }
    }
  }

  lemma ScheduleMembers(queue: seq<Entry>, job: Job, r: SendResult, now: Seconds)
    requires DistinctJobs(queue)
    ensures DistinctJobs(Schedule(queue, job, r, now))
    ensures forall e :: e in Schedule(queue, job, r, now) ==>
              e in queue || (e.job == job.(attempt := job.attempt + 1) && IsRetryable(r) && job.attempt < MAX_DELIVERY_ATTEMPTS)
  {
    var e := Entry(job.(attempt := job.attempt + 1), now + BackoffSecs(job.attempt, r.retryAfter));
    WithoutMembers(queue, e.job);
    InsertMembers(Without(queue, e.job), e);
  }

  lemma {:induction false} FailureMembers(sends: seq<Send>)
    ensures forall p :: p in Failures(sends) ==> Send(p.history, p.channel, p.result) in sends
  {
    if sends != [] {
      FailureMembers(sends[..|sends| - 1]);
      assert sends == sends[..|sends| - 1] + [sends[|sends| - 1]];
    }
  }

  lemma {:induction false} FailureCounts(log: seq<Send>, send: Send)
    requires send in log && IsRetryable(send.result)
    ensures RetryableFailures(log, Only(send.history, send.channel)) >= 1
  {
    if log[|log| - 1] != send {
      assert log == log[..|log| - 1] + [log[|log| - 1]];
      FailureCounts(log[..|log| - 1], send);
    }
  }

  lemma FirePreserves(s: State, h: HistoryId, i: Incident, results: seq<SendResult>, recorded: bool)
    requires Inv(s) && h !in s.incidents && s.pending == [] && |results| == |i.channels|
    ensures Inv(Fire(s, h, i, results, recorded))
  {
    hide Sends, RetryableFailures, QueueLoad, DrainLoad, PendingLoad, Failures, FirstSends, Entries, Only, DistinctJobs;
    var s' := Fire(s, h, i, results, recorded);
    var sends := FirstSends(h, i.channels, results);
    forall h', c
      ensures InBudget(s', h', c)
      ensures RetryableFailures(s'.log, Only(h', c)) >= RetryableFailures(s.log, Only(h', c))
    {
      assert InBudget(s, h', c);
      SendsAppend(s.log, sends, Only(h', c));
      FirstSendsLoad(h, i.channels, results, h', c);
      NoPending(Only(h', c));
    }
    FailureMembers(sends);
    FirstSendsHistory(h, i.channels, results);
    forall p | p in s'.pending
      ensures GoodPending(s', p)
    {
      if IsRetryable(p.result) {
        FailureCounts(s'.log, Send(p.history, p.channel, p.result));
      }
    }
  }

  lemma NoPending(f: Which)
    ensures PendingLoad([], f) == 0
  {
  }

  lemma FirstSendsHistory(h: HistoryId, channels: seq<Channel>, results: seq<SendResult>)
    requires |channels| == |results|
    ensures forall send :: send in FirstSends(h, channels, results) ==> send.history == h
  {
  }

  lemma SchedulePreserves(s: State, now: Seconds)
    requires Inv(s) && s.pending != [] && s.pending[0].history in s.incidents
    ensures Inv(ScheduleNext(s, now))
  {
    hide Sends, RetryableFailures, QueueLoad, DrainLoad, Schedule, Entries, DistinctJobs;
    var s' := ScheduleNext(s, now);
    var p := s.pending[0];
    var job := Job(s.incidents[p.history].tenant, p.history, 1, p.channel, s.incidents[p.history].alert);
    ScheduleMembers(s.queue, job, p.result, now);
    assert GoodPending(s, p);
    forall e | e in s'.queue
      ensures GoodJob(s', e.job)
    {
      if e in s.queue {
        assert GoodJob(s, e.job);
      }
    }
    forall p | p in s'.pending
      ensures GoodPending(s', p)
    {
      assert p in s.pending;
    }
    forall h, c
      ensures InBudget(s', h, c)
    {
      assert InBudget(s, h, c);
      ScheduleLoad(s.queue, job, p.result, now, Only(h, c));
    }
  }

  lemma PopPreserves(s: State, now: Seconds)
    requires Inv(s) && s.drained == []
    ensures Inv(Pop(s, now))
  {
    hide Sends, RetryableFailures, QueueLoad, PendingLoad, DueCount, Entries;
    var s' := Pop(s, now);
    var n := DueCount(s.queue, now, RETRY_DRAIN_BATCH);
    forall job | job in s'.drained
      ensures GoodJob(s', job)
    {
      var k :| 0 <= k < n && s.queue[k].job == job;
      assert s.queue[k] in s.queue;
    }
    forall h, c
      ensures InBudget(s', h, c)
    {
      assert InBudget(s, h, c);
      PopLoad(s.queue, n, Only(h, c));
    }
  }

  lemma ProcessPreserves(s: State, a: Answer)
    requires Inv(s) && s.drained != []
    ensures Inv(ProcessNext(s, a))
  {
    hide Sends, RetryableFailures, QueueLoad, PendingLoad, Schedule, Entries, DistinctJobs;
    var s' := ProcessNext(s, a);
    var job := s.drained[0];
    assert GoodJob(s, job);
    var send := Send(job.history, job.channel, a.result);
    ScheduleMembers(s.queue, job, a.result, a.now);
    forall h, c
      ensures InBudget(s', h, c)
      ensures RetryableFailures(s'.log, Only(h, c)) >= RetryableFailures(s.log, Only(h, c))
    {
      var f := Only(h, c);
      assert InBudget(s, h, c);
      SendsAppend(s.log, [send], f);
      SendsOne(send, f);
      ScheduleLoad(s.queue, job, a.result, a.now, f);
    }
    SendsAppend(s.log, [send], Only(job.history, job.channel));
    SendsOne(send, Only(job.history, job.channel));
    forall e | e in s'.queue
      ensures GoodJob(s', e.job)
    {
      if e in s.queue {
        assert GoodJob(s, e.job);
      }
    }
    forall j | j in s'.drained
      ensures GoodJob(s', j)
    {
      assert j in s.drained;
    }
  }

  lemma {:induction false} RunKeeps(steps: seq<Step>)
    requires Run(steps).Some?
    ensures Inv(Run(steps).value)
  {
    if steps != [] {
      RunKeeps(steps[..|steps| - 1]);
      var s := Run(steps[..|steps| - 1]).value;
      match steps[|steps| - 1]
      case Fires(h, i, results, recorded) => FirePreserves(s, h, i, results, recorded);
      case Schedules(now) => SchedulePreserves(s, now);
      case Pops(now) => PopPreserves(s, now);
      case Processes(a) => ProcessPreserves(s, a);
    }
  }

  // ----- The laws -----

  /** In every run an incident is sent to a channel at most three times for each time the rule lists it. */
  lemma SendsAreBounded(steps: seq<Step>, h: HistoryId, c: Channel)
    requires Run(steps).Some?
    ensures var s := Run(steps).value;
            Sends(s.log, Only(h, c)) <= MAX_DELIVERY_ATTEMPTS * Times(s, h, c)
  {
    RunKeeps(steps);
    assert InBudget(Run(steps).value, h, c);
  }

  predicate IsFor(job: Job, h: HistoryId, c: Channel) {
    job.history == h && job.channel == c
  }

  lemma {:induction false} QueueHas(queue: seq<Entry>, j: nat, f: Which)
    requires j < |queue|
    ensures QueueLoad(queue, f) >= Left(queue[j].job, f)
  {
    if j > 0 {
      QueueHas(queue[1..], j - 1, f);
    }
  }

  lemma {:induction false} QueueHasTwo(queue: seq<Entry>, j: nat, k: nat, f: Which)
    requires j < k < |queue|
    ensures QueueLoad(queue, f) >= Left(queue[j].job, f) + Left(queue[k].job, f)
  {
    if j == 0 {
      QueueHas(queue[1..], k - 1, f);
    } else {
      QueueHasTwo(queue[1..], j - 1, k - 1, f);
    }
  }

  lemma {:induction false} DrainHas(jobs: seq<Job>, j: nat, f: Which)
    requires j < |jobs|
    ensures DrainLoad(jobs, f) >= Left(jobs[j], f)
  {
    if j > 0 {
      DrainHas(jobs[1..], j - 1, f);
    }
  }

  /**
   In every run a channel listed once has at most one queued job of an incident, none while another is
   being drained, and that job carries attempt 2 or 3; every send so far was a failure worth a retry,
   and there were as many as attempts before the job's.
   */
  lemma OneQueuedJob(steps: seq<Step>, h: HistoryId, c: Channel, j: nat)
    requires Run(steps).Some? && Times(Run(steps).value, h, c) == 1
    requires j < |Run(steps).value.queue| && IsFor(Run(steps).value.queue[j].job, h, c)
    ensures var s := Run(steps).value;
            var attempt := s.queue[j].job.attempt;
            && 2 <= attempt <= MAX_DELIVERY_ATTEMPTS
            && Sends(s.log, Only(h, c)) == RetryableFailures(s.log, Only(h, c)) == attempt - 1
            && (forall k :: 0 <= k < |s.queue| && IsFor(s.queue[k].job, h, c) ==> k == j)
            && (forall k :: 0 <= k < |s.drained| ==> !IsFor(s.drained[k], h, c))
  {
    hide Run, Sends, RetryableFailures, QueueLoad, DrainLoad, PendingLoad, Times;
    RunKeeps(steps);
    var s := Run(steps).value;
    var f := Only(h, c);
    assert InBudget(s, h, c);
    assert s.queue[j] in s.queue && GoodJob(s, s.queue[j].job);
    FailuresAtMostSends(s.log, f);
    QueueHas(s.queue, j, f);
    forall k | 0 <= k < |s.queue| && IsFor(s.queue[k].job, h, c)
      ensures k == j
    {
      assert s.queue[k] in s.queue && GoodJob(s, s.queue[k].job);
      if k < j {
        QueueHasTwo(s.queue, k, j, f);
      } else if j < k {
        QueueHasTwo(s.queue, j, k, f);
      }
    }
    forall k | 0 <= k < |s.drained|
      ensures !IsFor(s.drained[k], h, c)
    {
      assert s.drained[k] in s.drained && GoodJob(s, s.drained[k]);
      DrainHas(s.drained, k, f);
    }
  }

  ghost function AllEntries(): Which {
    (h, c) => true
  }

  /** Every job the drain handles leaves fewer attempts in the queue and in its hands, whatever it meets. */
  lemma DrainShrinks(steps: seq<Step>, a: Answer)
    requires Run(steps).Some? && Run(steps).value.drained != []
    ensures var s := Run(steps).value;
            var s' := ProcessNext(s, a);
            QueueLoad(s'.queue, AllEntries()) + DrainLoad(s'.drained, AllEntries())
            < QueueLoad(s.queue, AllEntries()) + DrainLoad(s.drained, AllEntries())
  {
    hide Run, QueueLoad, Schedule;
    RunKeeps(steps);
    var s := Run(steps).value;
    var job := s.drained[0];
    assert GoodJob(s, job);
    ScheduleLoad(s.queue, job, a.result, a.now, AllEntries());
  }

  /** The drain neither looks at incidents nor at what a pass has still to schedule. */
  lemma {:induction false} DrainIgnoresPass(s: State, answers: seq<Answer>, incidents: map<HistoryId, Incident>,
                                            pending: seq<Failed>)
    requires |answers| <= |s.drained|
    ensures ProcessAll(s.(incidents := incidents, pending := pending), answers)
            == ProcessAll(s, answers).(incidents := incidents, pending := pending)
    decreases |answers|
  {
    if answers != [] {
      DrainIgnoresPass(s, answers[..|answers| - 1], incidents, pending);
    }
  }
}
