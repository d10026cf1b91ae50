/**
 Delivery of alerts and the queue of retries. The queue is a sorted set keyed by the whole text of a
 job: adding a job that is already there only moves it.
 */
module Deliveries {
  import opened Wrappers

  type HistoryId = nat
  type Channel = nat

  /** Seconds; a clock reading or a score of the sorted set. */
  type Seconds = real

  const MAX_DELIVERY_ATTEMPTS: nat := 3
  const RETRY_DRAIN_BATCH: nat := 50
  const MAX_DELIVERY_RETRY_LEN: nat := 10_000

  datatype SendResult = SendResult(success: bool, status: Option<nat>, retryAfter: Option<real>)

  /** The alert of an incident and the channel entries that accept it, repeated entries included. */
  datatype Incident = Incident(tenant: nat, alert: nat, channels: seq<Channel>)

  datatype Job = Job(tenant: nat, history: HistoryId, attempt: nat, channel: Channel, alert: nat)

  datatype Entry = Entry(job: Job, at: Seconds)

  /** A send, as it happened. */
  datatype Send = Send(history: HistoryId, channel: Channel, result: SendResult)

  /** A failed first send waiting for its retry to be scheduled. */
  datatype Failed = Failed(history: HistoryId, channel: Channel, result: SendResult)

  datatype State = State(
    incidents: map<HistoryId, Incident>,
    pending: seq<Failed>,
    queue: seq<Entry>,
    drained: seq<Job>,
    log: seq<Send>)

  // ----- Policy -----

  /** Network errors, rate limits and server errors are worth a retry; other client errors are not. */
  predicate IsRetryable(r: SendResult) {
    !r.success && match r.status case None => true case Some(s) => s == 429 || s >= 500
  }

  function BackoffSecs(attempt: nat, retryAfter: Option<real>): Seconds {
    var base := if attempt == 1 then 60.0 else if attempt == 2 then 300.0 else 900.0;
    match retryAfter
    case Some(ra) => if ra > base then (if ra < 3600.0 then ra else 3600.0) else base
    case None => base
  }

  /** The wait is never shorter than the fixed one or than what the provider asked for, up to an hour. */
  lemma BackoffHonoursProvider(attempt: nat, retryAfter: Option<real>)
    ensures BackoffSecs(attempt, None) <= BackoffSecs(attempt, retryAfter) <= 3600.0
    ensures retryAfter.Some? && retryAfter.value <= 3600.0 ==> BackoffSecs(attempt, retryAfter) >= retryAfter.value
  {
  }

  // ----- The sorted set -----

  function Without(queue: seq<Entry>, job: Job): seq<Entry> {
    if queue == [] then []
    else if queue[0].job == job then Without(queue[1..], job)
    else [queue[0]] + Without(queue[1..], job)
  }

  function Insert(queue: seq<Entry>, e: Entry): seq<Entry> {
    if queue == [] || e.at < queue[0].at then [e] + queue
    else [queue[0]] + Insert(queue[1..], e)
  }

  function ZAdd(queue: seq<Entry>, e: Entry): seq<Entry> {
    Insert(Without(queue, e.job), e)
  }

  /** How many of the first entries are due, up to `limit`. */
  function DueCount(queue: seq<Entry>, now: Seconds, limit: nat): (n: nat)
    ensures n <= |queue| && n <= limit
    ensures forall k :: 0 <= k < n ==> queue[k].at <= now
    ensures n < |queue| && n < limit ==> queue[n].at > now
  {
    if queue == [] || limit == 0 || queue[0].at > now then 0 else 1 + DueCount(queue[1..], now, limit - 1)
  }

  function Jobs(queue: seq<Entry>): (jobs: seq<Job>)
    ensures |jobs| == |queue| && forall k :: 0 <= k < |queue| ==> jobs[k] == queue[k].job
  {
    seq(|queue|, k requires 0 <= k < |queue| => queue[k].job)
  }

  // ----- Steps -----

  /** `maybe_schedule_retry` after the failure of `attempt`; a full queue drops the job. */
  function Schedule(queue: seq<Entry>, job: Job, r: SendResult, now: Seconds): seq<Entry> {
    if !IsRetryable(r) || job.attempt >= MAX_DELIVERY_ATTEMPTS || |queue| >= MAX_DELIVERY_RETRY_LEN then queue
    else ZAdd(queue, Entry(job.(attempt := job.attempt + 1), now + BackoffSecs(job.attempt, r.retryAfter)))
  }

  function FirstSends(h: HistoryId, channels: seq<Channel>, results: seq<SendResult>): (sends: seq<Send>)
    requires |channels| == |results|
    ensures |sends| == |channels|
    ensures forall k :: 0 <= k < |channels| ==> sends[k] == Send(h, channels[k], results[k])
  {
    seq(|channels|, k requires 0 <= k < |channels| => Send(h, channels[k], results[k]))
  }

  function Failures(sends: seq<Send>): seq<Failed> {
    if sends == [] then []
    else
      var init, last := Failures(sends[..|sends| - 1]), sends[|sends| - 1];
      if last.result.success then init else init + [Failed(last.history, last.channel, last.result)]
  }

  /** The alert pass sends to each entry once; only a recorded incident has a row to retry against. */
  function Fire(s: State, h: HistoryId, i: Incident, results: seq<SendResult>, recorded: bool): State
    requires |results| == |i.channels|
  {
    var sends := FirstSends(h, i.channels, results);
    s.(incidents := s.incidents[h := i], log := s.log + sends, pending := if recorded then Failures(sends) else [])
  }

  /** The pass schedules the retry of the next failed send. */
  function ScheduleNext(s: State, now: Seconds): State
    requires s.pending != [] && s.pending[0].history in s.incidents
  {
    var f := s.pending[0];
    var i := s.incidents[f.history];
    s.(pending := s.pending[1..],
       queue := Schedule(s.queue, Job(i.tenant, f.history, 1, f.channel, i.alert), f.result, now))
  }

  /** The drain takes the due jobs out of the queue. */
  function Pop(s: State, now: Seconds): State {
    var n := DueCount(s.queue, now, RETRY_DRAIN_BATCH);
    s.(queue := s.queue[n..], drained := Jobs(s.queue[..n]))
  }

  /** What the drain meets at one job. */
  datatype Answer = Answer(tenantFound: bool, result: SendResult, now: Seconds)

  /** The drain handles the next job it took: it sends, and schedules again after a failure. */
  function ProcessNext(s: State, a: Answer): State
    requires s.drained != []
  {
    var job := s.drained[0];
    var s := s.(drained := s.drained[1..]);
    if !a.tenantFound then s
    else
      var s := s.(log := s.log + [Send(job.history, job.channel, a.result)]);
      if a.result.success then s else s.(queue := Schedule(s.queue, job, a.result, a.now))
  }

  function ProcessAll(s: State, answers: seq<Answer>): State
    requires |answers| <= |s.drained|
    decreases |answers|
  {
    if answers == [] then s
    else
      var s' := ProcessAll(s, answers[..|answers| - 1]);
      if s'.drained == [] then s' else ProcessNext(s', answers[|answers| - 1])
  }

  lemma {:induction false} ProcessAllDrained(s: State, answers: seq<Answer>)
    requires |answers| <= |s.drained|
    ensures ProcessAll(s, answers).drained == s.drained[|answers|..]
    decreases |answers|
  {
    if answers != [] {
      ProcessAllDrained(s, answers[..|answers| - 1]);
    }
  }

  // ----- The drain as it is run -----

  class DeliveryQueue {
    var queue: seq<Entry>
    ghost var log: seq<Send>

    /** `maybe_schedule_retry`. */
    method MaybeScheduleRetry(job: Job, result: SendResult, now: Seconds)
      modifies this`queue
      ensures queue == Schedule(old(queue), job, result, now)
    {
      if !IsRetryable(result) || job.attempt >= MAX_DELIVERY_ATTEMPTS {
        return;
      }
      var at := now + BackoffSecs(job.attempt, result.retryAfter);
      if |queue| < MAX_DELIVERY_RETRY_LEN {
        queue := ZAdd(queue, Entry(job.(attempt := job.attempt + 1), at));
      }
    }

    /** `drain_delivery_retries`; `answers` says what each of the jobs taken would meet. */
    method Drain(now: Seconds, answers: seq<Answer>)
      requires |answers| == RETRY_DRAIN_BATCH
      modifies this
      ensures var s := Pop(State(map[], [], old(queue), [], old(log)), now);
              var s' := ProcessAll(s, answers[..|s.drained|]);
              queue == s'.queue && log == s'.log && s'.drained == []
    {
      ghost var s := Pop(State(map[], [], queue, [], log), now);
      var n := DueCount(queue, now, RETRY_DRAIN_BATCH);
      var due := Jobs(queue[..n]);
      queue := queue[n..];
      for k := 0 to |due|
        invariant ProcessAll(s, answers[..k]) == State(map[], [], queue, due[k..], log)
      {
        assert answers[..k + 1][..k] == answers[..k];
        var job, answer := due[k], answers[k];
        if !answer.tenantFound {
          continue;
        }
        log := log + [Send(job.history, job.channel, answer.result)];
        if !answer.result.success {
          MaybeScheduleRetry(job, answer.result, answer.now);
        }
      }
    }
  }
}
