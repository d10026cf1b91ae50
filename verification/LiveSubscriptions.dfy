/** What a dashboard is subscribed to, and which events it therefore takes, in terms of the steps alone. */
module LiveSubscriptions {
  import opened LiveBatch
  import opened LiveBatchRuns

  // ----- Subscriptions -----

  ghost predicate SubscribesTo(step: Step, t: Topic) {
    step.Asked? && step.command.Subscribe? && t in step.command.topics
  }

  ghost predicate UnsubscribesFrom(step: Step, t: Topic) {
    step.Asked? && step.command.Unsubscribe? && t in step.command.topics
  }

  ghost predicate IsDefault(t: Topic) {
    t == AllTasks || t == AllWorkers || t == Alerts || t == MetricsSummary
  }

  /**
   The last command that names the topic is a subscription, or none names it and it is one of those a
   dashboard starts with.
   */
  ghost predicate Asks(steps: seq<Step>, t: Topic) {
    || (exists k :: 0 <= k < |steps| && SubscribesTo(steps[k], t)
                    && forall j :: k < j < |steps| ==> !UnsubscribesFrom(steps[j], t))
    || (IsDefault(t) && forall j :: 0 <= j < |steps| ==> !UnsubscribesFrom(steps[j], t))
  }

  lemma AsksOn(steps: seq<Step>, last: Step, t: Topic)
    requires SubscribesTo(last, t) || (Asks(steps, t) && !UnsubscribesFrom(last, t))
    ensures Asks(steps + [last], t)
  {
    hide SubscribesTo, UnsubscribesFrom;
    var all := steps + [last];
    assert all[|steps|] == last && forall k :: 0 <= k < |steps| ==> all[k] == steps[k];
    if SubscribesTo(last, t) {
      assert SubscribesTo(all[|steps|], t);
    } else if k :| 0 <= k < |steps| && SubscribesTo(steps[k], t)
                   && forall j :: k < j < |steps| ==> !UnsubscribesFrom(steps[j], t) {
      assert SubscribesTo(all[k], t);
    }
  }

  lemma AskedBefore(steps: seq<Step>, last: Step, t: Topic)
    requires Asks(steps + [last], t) && !SubscribesTo(last, t)
    ensures Asks(steps, t) && !UnsubscribesFrom(last, t)
  {
    hide SubscribesTo, UnsubscribesFrom;
    var all := steps + [last];
    assert all[|steps|] == last && forall k :: 0 <= k < |steps| ==> all[k] == steps[k];
    if k :| 0 <= k < |all| && SubscribesTo(all[k], t) && forall j :: k < j < |all| ==> !UnsubscribesFrom(all[j], t) {
      assert k < |steps| && SubscribesTo(steps[k], t);
      forall j | k < j < |steps|
        ensures !UnsubscribesFrom(steps[j], t)
      {
        assert !UnsubscribesFrom(all[j], t);
      }
    } else {
      forall j | 0 <= j < |steps|
        ensures !UnsubscribesFrom(steps[j], t)
      {
        assert !UnsubscribesFrom(all[j], t);
      }
    }
  }

  lemma AsksSnoc(steps: seq<Step>, last: Step, t: Topic)
    ensures Asks(steps + [last], t) <==> SubscribesTo(last, t) || (Asks(steps, t) && !UnsubscribesFrom(last, t))
  {
    hide Asks, SubscribesTo, UnsubscribesFrom;
    if SubscribesTo(last, t) || (Asks(steps, t) && !UnsubscribesFrom(last, t)) {
      AsksOn(steps, last, t);
    } else if Asks(steps + [last], t) {
      AskedBefore(steps, last, t);
    }
  }

  lemma StepSubscriptions(s: Socket, tenant: int, step: Step, t: Topic)
    requires Next(s, tenant, step).open
    ensures s.open
    ensures t in Next(s, tenant, step).subscriptions
            <==> SubscribesTo(step, t) || (t in s.subscriptions && !UnsubscribesFrom(step, t))
  {
    hide Wants;
  }

  /** On an open socket, a topic is subscribed exactly if the steps so far ask for it. */
  lemma {:induction false} SubscribedExactly(room: nat, tenant: int, steps: seq<Step>, t: Topic)
    requires Run(Start(room), tenant, steps).open
    ensures t in Run(Start(room), tenant, steps).subscriptions <==> Asks(steps, t)
  {
    hide Next, Asks;
    if steps == [] {
      AsksAtStart(t);
    } else {
      var init, last := steps[..|steps| - 1], steps[|steps| - 1];
      assert steps == init + [last];
      StepSubscriptions(Run(Start(room), tenant, init), tenant, last, t);
      SubscribedExactly(room, tenant, init, t);
      AsksSnoc(init, last, t);
    }
  }

  lemma AsksAtStart(t: Topic)
    ensures Asks([], t) <==> IsDefault(t)
  {
  }

  // ----- Events -----

  /** Which events a topic is about. */
  ghost predicate IsAbout(t: Topic, p: Payload) {
    match t
    case AllTasks => p.TaskUpdate?
    case Queue(queue) => p.TaskUpdate? && p.queue == queue
    case Task(id) => p.TaskUpdate? && p.taskId == id
    case TaskType(name) => p.TaskUpdate? && p.taskName == name
    case AllWorkers => p.WorkerUpdate?
    case Worker(id) => p.WorkerUpdate? && p.workerId == id
    case Beat => p.BeatUpdate?
    case Alerts => p.AlertFired? || p.AlertResolved?
    case MetricsSummary => p.MetricsReport?
  }

  lemma WantsExactly(subscriptions: set<Topic>, p: Payload)
    ensures Wants(subscriptions, p) <==> exists t :: t in subscriptions && IsAbout(t, p)
  {
    forall t
      ensures t in TopicsOf(p) <==> IsAbout(t, p)
    {
    }
  }

  /** The event is of the own tenant, and the steps before it ask for a topic that is about it. */
  ghost predicate IsWanted(steps: seq<Step>, tenant: int, k: nat)
    requires k < |steps|
  {
    steps[k].Received? && steps[k].tenant == tenant && exists t :: Asks(steps[..k], t) && IsAbout(t, steps[k].payload)
  }

  /** The wanted events among the first `n` steps, in order. */
  ghost function Wanted(steps: seq<Step>, tenant: int, n: nat): seq<Payload>
    requires n <= |steps|
  {
    if n == 0 then []
    else Wanted(steps, tenant, n - 1) + if IsWanted(steps, tenant, n - 1) then [steps[n - 1].payload] else []
  }

  lemma {:induction false} OpenBefore(room: nat, tenant: int, steps: seq<Step>, n: nat)
    requires n <= |steps| && Run(Start(room), tenant, steps).open
    ensures Run(Start(room), tenant, steps[..n]).open
    decreases |steps|
  {
    hide Next;
    if n == |steps| {
      assert steps[..n] == steps;
    } else {
      var init, last := steps[..|steps| - 1], steps[|steps| - 1];
      StepSubscriptions(Run(Start(room), tenant, init), tenant, last, AllTasks);
      OpenBefore(room, tenant, init, n);
      assert init[..n] == steps[..n];
    }
  }

  lemma AcceptedExactly(room: nat, tenant: int, steps: seq<Step>, k: nat)
    requires k < |steps| && Run(Start(room), tenant, steps[..k]).open
    ensures Accepts(Run(Start(room), tenant, steps[..k]), tenant, steps[k]) <==> IsWanted(steps, tenant, k)
  {
    hide Run, Asks, IsAbout, Wants;
    var s := Run(Start(room), tenant, steps[..k]);
    forall t
      ensures t in s.subscriptions <==> Asks(steps[..k], t)
    {
      SubscribedExactly(room, tenant, steps[..k], t);
    }
    if steps[k].Received? {
      WantsExactly(s.subscriptions, steps[k].payload);
    }
  }

  /** While the socket is open, what it takes is exactly the wanted events, each once and in order. */
  lemma {:induction false} TakenExactly(room: nat, tenant: int, steps: seq<Step>, n: nat)
    requires n <= |steps| && (n > 0 ==> Run(Start(room), tenant, steps[..n - 1]).open)
    ensures Taken(Start(room), tenant, steps[..n]) == Wanted(steps, tenant, n)
    decreases n
  {
    hide Next, Run, Accepts, IsWanted;
    if n > 0 {
      assert steps[..n][..n - 1] == steps[..n - 1];
      if n > 1 {
        OpenBefore(room, tenant, steps[..n - 1], n - 2);
        assert steps[..n - 1][..n - 2] == steps[..n - 2];
      }
      TakenExactly(room, tenant, steps, n - 1);
      AcceptedExactly(room, tenant, steps, n - 1);
    }
  }

  /** An own event that comes while the socket is open and asks for it is taken. */
  lemma EveryWantedEventIsTaken(room: nat, tenant: int, steps: seq<Step>, k: nat)
    requires k < |steps| && Run(Start(room), tenant, steps[..k]).open && IsWanted(steps, tenant, k)
    ensures steps[k].payload in Taken(Start(room), tenant, steps)
  {
    hide Run, IsWanted, Taken;
    TakenExactly(room, tenant, steps, k + 1);
    TakenGrows(room, tenant, steps, k + 1);
    WantedLast(steps, tenant, k);
  }

  lemma WantedLast(steps: seq<Step>, tenant: int, k: nat)
    requires k < |steps| && IsWanted(steps, tenant, k)
    ensures steps[k].payload in Wanted(steps, tenant, k + 1)
  {
  }

  lemma {:induction false} TakenGrows(room: nat, tenant: int, steps: seq<Step>, n: nat)
    requires n <= |steps|
    ensures Taken(Start(room), tenant, steps[..n]) <= Taken(Start(room), tenant, steps)
    decreases |steps|
  {
    hide Run, Accepts;
    if n == |steps| {
      assert steps[..n] == steps;
    } else {
      var init := steps[..|steps| - 1];
      TakenGrows(room, tenant, init, n);
      assert init[..n] == steps[..n];
    }
  }
}
