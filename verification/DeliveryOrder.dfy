/** When a job is queued and when it is taken: the order of the queue, and what a drain finds due. */
module DeliveryOrder {
  import opened Wrappers
  import opened Deliveries
  import opened DeliveryRuns

  /** Earliest first. */
  ghost predicate Ordered(queue: seq<Entry>) {
    forall j, k :: 0 <= j < k < |queue| ==> queue[j].at <= queue[k].at
  }

  // ----- The sorted set -----

  lemma {:induction false} InsertOrdered(queue: seq<Entry>, e: Entry)
    requires Ordered(queue)
    ensures Ordered(Insert(queue, e))
  {
    if queue == [] || e.at < queue[0].at {
      assert forall k :: 0 < k <= |queue| ==> ([e] + queue)[k] == queue[k - 1];
    } else {
      assert queue == [queue[0]] + queue[1..];
      InsertOrdered(queue[1..], e);
      InsertMembers(queue[1..], e);
      var rest := Insert(queue[1..], e);
      forall k | 0 <= k < |rest|
        ensures queue[0].at <= rest[k].at
      {
        assert rest[k] in rest;
      }
      assert forall k :: 0 < k <= |rest| ==> ([queue[0]] + rest)[k] == rest[k - 1];
    }
  }

  lemma {:induction false} WithoutOrdered(queue: seq<Entry>, job: Job)
    requires Ordered(queue)
    ensures Ordered(Without(queue, job))
  {
    if queue != [] {
      assert queue == [queue[0]] + queue[1..];
      WithoutOrdered(queue[1..], job);
      WithoutExactly(queue[1..], job);
      var rest := Without(queue[1..], job);
      forall k | 0 <= k < |rest|
        ensures queue[0].at <= rest[k].at
      {
        assert rest[k] in rest;
        var j :| 0 <= j < |queue[1..]| && queue[1..][j] == rest[k];
      }
      assert forall k :: 0 < k <= |rest| ==> ([queue[0]] + rest)[k] == rest[k - 1];
    }
  }

  lemma {:induction false} WithoutExactly(queue: seq<Entry>, job: Job)
    ensures forall e :: e in Without(queue, job) <==> e in queue && e.job != job
  {
    if queue != [] {
      assert queue == [queue[0]] + queue[1..];
      WithoutExactly(queue[1..], job);
    }
  }

  // ----- Scheduling -----

  /** A failure is worth a retry without a status, for too many requests, and in the classes from 500 on. */
  lemma RetryableByClass(r: SendResult)
    ensures IsRetryable(r)
            <==> !r.success && (r.status == None || r.status == Some(429) || r.status.value / 100 >= 5)
  {
  }

  /** The base of the wait behind a failed attempt: a minute, five, and then fifteen. */
  const BASE_WAITS: seq<Seconds> := [60.0, 300.0, 900.0]

  predicate IsLongEnough(wait: Seconds, base: Seconds, retryAfter: Option<real>) {
    wait >= base && (retryAfter.Some? ==> wait >= retryAfter.value || wait >= 3600.0)
  }

  /** The wait is the shortest that reaches the base and what the provider asked for, the latter up to an hour. */
  lemma BackoffIsLeast(attempt: nat, retryAfter: Option<real>)
    requires attempt > 0
    ensures var base := BASE_WAITS[if attempt < 3 then attempt - 1 else 2];
            var wait := BackoffSecs(attempt, retryAfter);
            IsLongEnough(wait, base, retryAfter) && forall w :: IsLongEnough(w, base, retryAfter) ==> w >= wait
  {
  }

  /**
   A failed attempt but the last, worth a retry, is queued for the end of its wait if the queue has room,
   in place of the same job; every other entry stays. Otherwise nothing changes.
   */
  lemma ScheduleExactly(queue: seq<Entry>, job: Job, r: SendResult, now: Seconds)
    ensures var next := job.(attempt := job.attempt + 1);
            var queue' := Schedule(queue, job, r, now);
            if IsRetryable(r) && next.attempt <= MAX_DELIVERY_ATTEMPTS && |queue| < MAX_DELIVERY_RETRY_LEN then
              forall e :: e in queue' <==> if e.job == next then e.at == now + BackoffSecs(job.attempt, r.retryAfter)
                                           else e in queue
            else queue' == queue
    ensures Ordered(queue) ==> Ordered(Schedule(queue, job, r, now))
  {
    hide Without, Insert;
    var e := Entry(job.(attempt := job.attempt + 1), now + BackoffSecs(job.attempt, r.retryAfter));
    WithoutExactly(queue, e.job);
    InsertMembers(Without(queue, e.job), e);
    if Ordered(queue) {
      WithoutOrdered(queue, e.job);
      InsertOrdered(Without(queue, e.job), e);
    }
  }

  /** The failures of several sends are those of its parts; a successful send has none. */
  lemma {:induction false} FailuresInOrder(a: seq<Send>, b: seq<Send>)
    ensures Failures(a + b) == Failures(a) + Failures(b)
    ensures |b| == 1 ==>
              Failures(b) == if b[0].result.success then [] else [Failed(b[0].history, b[0].channel, b[0].result)]
    decreases |b|
  {
    if b == [] {
      assert a + b == a;
    } else {
      assert (a + b)[..|a + b| - 1] == a + b[..|b| - 1];
      FailuresInOrder(a, b[..|b| - 1]);
    }
  }

  // ----- Runs -----

  /** In every run the queue is in the order of time. */
  lemma {:induction false} RunOrdered(steps: seq<Step>)
    requires Run(steps).Some?
    ensures Ordered(Run(steps).value.queue)
  {
    hide Schedule, Ordered, DueCount, Fire;
    if steps == [] {
      EmptyOrdered();
    } else {
      RunOrdered(steps[..|steps| - 1]);
      StepOrdered(Run(steps[..|steps| - 1]).value, steps[|steps| - 1]);
    }
  }

  lemma EmptyOrdered()
    ensures Ordered([])
  {
  }

  lemma StepOrdered(s: State, step: Step)
    requires Enabled(s, step) && Ordered(s.queue)
    ensures Ordered(Apply(s, step).queue)
  {
    hide Schedule, DueCount, Failures;
    match step
    case Fires(_, _, _, _) =>
    case Schedules(now) =>
      var f := s.pending[0];
      var i := s.incidents[f.history];
      ScheduleExactly(s.queue, Job(i.tenant, f.history, 1, f.channel, i.alert), f.result, now);
    case Pops(_) =>
    case Processes(a) => ScheduleExactly(s.queue, s.drained[0], a.result, a.now);
  }

  /**
   What a drain takes in any run: entries that are due, all that are due unless it takes as many as it
   may, none later than one left behind; what it leaves is the rest.
   */
  lemma DrainTakesDue(steps: seq<Step>, now: Seconds) returns (taken: seq<Entry>)
    requires Run(steps).Some?
    ensures var s := Run(steps).value;
            var s' := Pop(s, now);
            && s.queue == taken + s'.queue && |taken| <= RETRY_DRAIN_BATCH
            && |s'.drained| == |taken| && (forall k :: 0 <= k < |taken| ==> s'.drained[k] == taken[k].job)
            && (forall e :: e in taken ==> e.at <= now)
            && (forall e :: e in s.queue && e.at <= now ==> e in taken || |taken| == RETRY_DRAIN_BATCH)
            && (forall t, e :: t in taken && e in s'.queue ==> t.at <= e.at)
  {
    hide Run;
    RunOrdered(steps);
    var queue := Run(steps).value.queue;
    var n := DueCount(queue, now, RETRY_DRAIN_BATCH);
    taken := queue[..n];
    assert queue == taken + queue[n..];
    forall e | e in queue && e.at <= now
      ensures e in taken || n == RETRY_DRAIN_BATCH
    {
      var k :| 0 <= k < |queue| && queue[k] == e;
      assert k < n ==> taken[k] == e;
    }
    forall t, e | t in taken && e in queue[n..]
      ensures t.at <= e.at
    {
      var j :| 0 <= j < n && queue[j] == t;
      var k :| n <= k < |queue| && queue[k] == e;
    }
  }

  // ----- What is sent -----

  /** Sends made: one for each channel entry of a fired incident, and one for each drained job whose tenant exists. */
  ghost function SendsMade(steps: seq<Step>): nat {
    if steps == [] then 0
    else
      SendsMade(steps[..|steps| - 1]) +
      match steps[|steps| - 1]
      case Fires(_, incident, _, _) => |incident.channels|
      case Processes(answer) => if answer.tenantFound then 1 else 0
      case _ => 0
  }

  /** In every run the log has exactly these sends. */
  lemma {:induction false} NoSendIsSkipped(steps: seq<Step>)
    requires Run(steps).Some?
    ensures |Run(steps).value.log| == SendsMade(steps)
  {
    hide Schedule, DueCount, Failures;
    if steps != [] {
      NoSendIsSkipped(steps[..|steps| - 1]);
    }
  }

  lemma {:induction false} FailuresMembers(sends: seq<Send>, p: Failed)
    ensures p in Failures(sends)
            <==> exists k :: 0 <= k < |sends| && !sends[k].result.success
                             && p == Failed(sends[k].history, sends[k].channel, sends[k].result)
  {
    if sends != [] {
      FailuresMembers(sends[..|sends| - 1], p);
    }
  }

  /** A fired incident is sent to every entry, and what failed waits for its retry if the incident is recorded. */
  lemma FireExactly(s: State, h: HistoryId, i: Incident, results: seq<SendResult>, recorded: bool)
    requires |results| == |i.channels|
    ensures var s' := Fire(s, h, i, results, recorded);
            && |s'.log| == |s.log| + |i.channels| && s.log <= s'.log
            && (forall k :: 0 <= k < |i.channels| ==> s'.log[|s.log| + k] == Send(h, i.channels[k], results[k]))
            && (forall p :: p in s'.pending
                            <==> recorded && exists k :: 0 <= k < |i.channels| && !results[k].success
                                                         && p == Failed(h, i.channels[k], results[k]))
  {
    hide Failures;
    var sends := FirstSends(h, i.channels, results);
    forall p
      ensures p in Failures(sends)
              <==> exists k :: 0 <= k < |i.channels| && !results[k].success && p == Failed(h, i.channels[k], results[k])
    {
      FailuresMembers(sends, p);
    }
  }
}
