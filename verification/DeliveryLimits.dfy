/** For which rules an incident is sent to a channel at most three times. */
module DeliveryLimits {
  import opened Wrappers
  import opened Deliveries
  import opened DeliveryRuns

  const UP: SendResult := SendResult(true, Some(200), None)
  const DOWN: SendResult := SendResult(false, None, None)

  // ----- A run in which one channel never answers -----

  function Answers(channels: seq<Channel>, c: Channel): (results: seq<SendResult>)
    ensures |results| == |channels|
    ensures forall k :: 0 <= k < |channels| ==> results[k] == if channels[k] == c then DOWN else UP
  {
    seq(|channels|, k requires 0 <= k < |channels| => if channels[k] == c then DOWN else UP)
  }

  function Waiting(c: Channel, n: nat): (pending: seq<Failed>)
    ensures |pending| == n && forall k :: 0 <= k < n ==> pending[k] == Failed(0, c, DOWN)
  {
    seq(n, k => Failed(0, c, DOWN))
  }

  function Second(c: Channel): Job {
    Job(0, 0, 2, c, 0)
  }

  lemma {:induction false} FailuresOfOne(channels: seq<Channel>, c: Channel)
    ensures Failures(FirstSends(0, channels, Answers(channels, c))) == Waiting(c, Entries(channels, c))
    decreases |channels|
  {
    if channels != [] {
      var init := channels[..|channels| - 1];
      FailuresOfOne(init, c);
      var sends := FirstSends(0, channels, Answers(channels, c));
      assert Answers(channels, c)[..|init|] == Answers(init, c);
      assert sends[..|init|] == FirstSends(0, init, Answers(init, c));
    }
  }

  lemma ScheduledAgain(s: State, c: Channel, n: nat)
    requires n > 0 && s.pending == Waiting(c, n) && 0 in s.incidents
    requires s.incidents[0].tenant == s.incidents[0].alert == 0
    requires s.queue == [] || s.queue == [Entry(Second(c), 60.0)]
    ensures ScheduleNext(s, 0.0) == s.(pending := Waiting(c, n - 1), queue := [Entry(Second(c), 60.0)])
  {
    assert s.pending[1..] == Waiting(c, n - 1);
    assert [Entry(Second(c), 60.0)][1..] == [];
    assert Without([Entry(Second(c), 60.0)], Second(c)) == [];
    assert Schedule(s.queue, Job(0, 0, 1, c, 0), DOWN, 0.0) == ZAdd(s.queue, Entry(Second(c), 60.0));
  }

  /** The pass schedules a retry for every failed entry; all of them become one job. */
  lemma {:induction false} AllScheduled(steps: seq<Step>, s: State, c: Channel, n: nat) returns (more: seq<Step>)
    requires Run(steps) == Some(s) && s.pending == Waiting(c, n) && 0 in s.incidents
    requires s.incidents[0].tenant == s.incidents[0].alert == 0
    requires (s.queue == [] && n > 0) || s.queue == [Entry(Second(c), 60.0)]
    ensures Run(more) == Some(s.(pending := [], queue := [Entry(Second(c), 60.0)]))
    decreases n
  {
    hide Run, ScheduleNext, Schedule;
    if n == 0 {
      more := steps;
    } else {
      ScheduledAgain(s, c, n);
      Then(steps, s, Schedules(0.0));
      var next := s.(pending := Waiting(c, n - 1), queue := [Entry(Second(c), 60.0)]);
      more := AllScheduled(steps + [Schedules(0.0)], next, c, n - 1);
    }
  }

  lemma Then(steps: seq<Step>, s: State, step: Step)
    requires Run(steps) == Some(s) && Enabled(s, step)
    ensures Run(steps + [step]) == Some(Apply(s, step))
  {
    assert (steps + [step])[..|steps|] == steps;
  }

  lemma PopOne(s: State, e: Entry, now: Seconds)
    requires s.queue == [e] && e.at <= now
    ensures Pop(s, now) == s.(queue := [], drained := [e.job])
  {
    assert s.queue[1..] == [] && s.queue[..1] == [e];
    assert DueCount([], now, RETRY_DRAIN_BATCH - 1) == 0;
    assert Jobs([e]) == [e.job];
  }

  /** One drain: the job is due, its send fails, and the next attempt, if there is one, is scheduled. */
  lemma DrainOne(steps: seq<Step>, s: State, e: Entry) returns (more: seq<Step>, after: State)
    requires Run(steps) == Some(s) && s.queue == [e] && s.drained == [] && 2 <= e.job.attempt <= 3
    ensures Run(more) == Some(after) && after.drained == [] && after.incidents == s.incidents
    ensures after.log == s.log + [Send(e.job.history, e.job.channel, DOWN)]
    ensures e.job.attempt == 2 ==> after.queue == [Entry(e.job.(attempt := 3), e.at + 300.0)]
  {
    hide Run, Pop;
    PopOne(s, e, e.at);
    Then(steps, s, Pops(e.at));
    var popped := s.(queue := [], drained := [e.job]);
    Then(steps + [Pops(e.at)], popped, Processes(Answer(true, DOWN, e.at)));
    more := steps + [Pops(e.at)] + [Processes(Answer(true, DOWN, e.at))];
    after := ProcessNext(popped, Answer(true, DOWN, e.at));
    assert [e.job][1..] == [];
  }

  /** An incident that lists a dead channel n > 0 times is sent to it n times by the pass and twice by drains. */
  lemma DeadChannel(channels: seq<Channel>, c: Channel) returns (steps: seq<Step>, s: State)
    requires Entries(channels, c) > 0
    ensures Run(steps) == Some(s) && 0 in s.incidents && s.incidents[0].channels == channels
    ensures Sends(s.log, Only(0, c)) == Entries(channels, c) + 2
  {
    hide Run, FirstSends, Failures, Entries, Sends;
    var n, f := Entries(channels, c), Only(0, c);
    var start := State(map[], [], [], [], []);
    var incident, results := Incident(0, 0, channels), Answers(channels, c);
    Started();
    Then([], start, Fires(0, incident, results, true));
    var fired := Fire(start, 0, incident, results, true);
    FailuresOfOne(channels, c);
    FirstSendsLoad(0, channels, results, 0, c);
    assert fired.log == FirstSends(0, channels, results);
    steps := AllScheduled([] + [Fires(0, incident, results, true)], fired, c, n);
    var scheduled := fired.(pending := [], queue := [Entry(Second(c), 60.0)]);
    steps, s := DrainOne(steps, scheduled, Entry(Second(c), 60.0));
    var retry := Send(0, c, DOWN);
    SendsOne(retry, f);
    SendsAppend(scheduled.log, [retry], f);
    ghost var log := s.log;
    steps, s := DrainOne(steps, s, s.queue[0]);
    SendsAppend(log, [retry], f);
  }

  lemma Started()
    ensures Run([]) == Some(State(map[], [], [], [], []))
  {
  }

  // ----- The limit -----

  /** In no run is an incident with these channel entries sent to `c` more than three times. */
  ghost predicate AtMostThreeSends(channels: seq<Channel>, c: Channel) {
    forall steps, h |
      Run(steps).Some? && h in Run(steps).value.incidents && Run(steps).value.incidents[h].channels == channels ::
      Sends(Run(steps).value.log, Only(h, c)) <= MAX_DELIVERY_ATTEMPTS
  }

  /** Three sends are the limit exactly for rules that list the channel at most once. */
  lemma AtMostThreeExactlyWithoutRepeats(channels: seq<Channel>, c: Channel)
    ensures AtMostThreeSends(channels, c) <==> Entries(channels, c) <= 1
  {
    hide Run, Sends, Entries;
    if Entries(channels, c) <= 1 {
      forall steps, h |
        Run(steps).Some? && h in Run(steps).value.incidents && Run(steps).value.incidents[h].channels == channels
        ensures Sends(Run(steps).value.log, Only(h, c)) <= MAX_DELIVERY_ATTEMPTS
      {
        SendsAreBounded(steps, h, c);
      }
    } else {
      var steps, s := DeadChannel(channels, c);
      assert Run(steps).Some? && Sends(Run(steps).value.log, Only(0, c)) > MAX_DELIVERY_ATTEMPTS;
    }
  }
}
