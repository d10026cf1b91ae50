/** What a dashboard has been sent, over any run of events, commands and flushes. */
module LiveBatchRuns {
  import opened LiveBatch

  // ----- Runs -----

  function Run(s: Socket, tenant: int, steps: seq<Step>): Socket {
    if steps == [] then s else Next(Run(s, tenant, steps[..|steps| - 1]), tenant, steps[|steps| - 1])
  }

  /** The payloads that the socket accepts in a run, in order. */
  function Taken(s: Socket, tenant: int, steps: seq<Step>): seq<Payload> {
    if steps == [] then []
    else
      var init, step := steps[..|steps| - 1], steps[|steps| - 1];
      var before := Run(s, tenant, init);
      Taken(s, tenant, init) + if before.open && Accepts(before, tenant, step) then [step.payload] else []
  }

  function Tasks(payloads: seq<Payload>): seq<Payload> {
    if payloads == [] then []
    else
      var p := payloads[|payloads| - 1];
      Tasks(payloads[..|payloads| - 1]) + if p.TaskUpdate? then [p] else []
  }

  function Others(payloads: seq<Payload>): seq<Payload> {
    if payloads == [] then []
    else
      var p := payloads[|payloads| - 1];
      Others(payloads[..|payloads| - 1]) + if p.TaskUpdate? then [] else [p]
  }

  // ----- What was sent -----

  /** How many task events the batches stand for. */
  function Counted(sent: seq<Message>): nat {
    if sent == [] then 0
    else
      var m := sent[|sent| - 1];
      Counted(sent[..|sent| - 1]) + if m.TaskBatch? then m.count else 0
  }

  function SinglesIn(sent: seq<Message>): seq<Payload> {
    if sent == [] then []
    else
      var m := sent[|sent| - 1];
      SinglesIn(sent[..|sent| - 1]) + if m.Single? then [m.payload] else []
  }

  /**
   The batches take the task events one after the other: a batch of n stands for the next n of them
   and shows the last five of those.
   */
  ghost predicate BatchesShow(sent: seq<Message>, tasks: seq<Payload>) {
    sent == [] ||
    var before, m := sent[..|sent| - 1], sent[|sent| - 1];
    && BatchesShow(before, tasks)
    && Counted(sent) <= |tasks|
    && (m.TaskBatch? ==> m.count > 0 && m.latest == LastFive(tasks[Counted(before)..Counted(sent)]))
  }

  lemma SentOne(sent: seq<Message>, m: Message)
    ensures Counted(sent + [m]) == Counted(sent) + if m.TaskBatch? then m.count else 0
    ensures SinglesIn(sent + [m]) == SinglesIn(sent) + if m.Single? then [m.payload] else []
  {
    assert (sent + [m])[..|sent|] == sent;
  }

  lemma ShowsOne(sent: seq<Message>, m: Message, tasks: seq<Payload>)
    requires BatchesShow(sent, tasks) && Counted(sent) <= |tasks|
    requires m.TaskBatch? ==>
               0 < m.count <= |tasks| - Counted(sent)
               && m.latest == LastFive(tasks[Counted(sent)..Counted(sent) + m.count])
    ensures BatchesShow(sent + [m], tasks)
  {
    hide Counted, LastFive;
    SentOne(sent, m);
    var whole := sent + [m];
    assert whole[..|whole| - 1] == sent && whole[|whole| - 1] == m;
    ShowsLast(whole, tasks);
  }

  lemma ShowsLast(sent: seq<Message>, tasks: seq<Payload>)
    requires sent != [] && BatchesShow(sent[..|sent| - 1], tasks) && Counted(sent) <= |tasks|
    requires var m := sent[|sent| - 1];
             m.TaskBatch? ==>
               m.count > 0 && m.latest == LastFive(tasks[Counted(sent[..|sent| - 1])..Counted(sent)])
    ensures BatchesShow(sent, tasks)
  {
  }

  lemma {:induction false} SentSingles(sent: seq<Message>, payloads: seq<Payload>, tasks: seq<Payload>)
    requires BatchesShow(sent, tasks) && Counted(sent) <= |tasks|
    ensures Counted(sent + Singles(payloads)) == Counted(sent)
    ensures SinglesIn(sent + Singles(payloads)) == SinglesIn(sent) + payloads
    ensures BatchesShow(sent + Singles(payloads), tasks)
  {
    hide BatchesShow, Counted, SinglesIn;
    if payloads == [] {
      assert sent + Singles(payloads) == sent;
    } else {
      var init, p := payloads[..|payloads| - 1], payloads[|payloads| - 1];
      SentSingles(sent, init, tasks);
      SentOne(sent + Singles(init), Single(p));
      ShowsOne(sent + Singles(init), Single(p), tasks);
      assert sent + Singles(payloads) == sent + Singles(init) + [Single(p)];
      assert SinglesIn(sent) + init + [p] == SinglesIn(sent) + payloads;
    }
  }

  lemma {:induction false} ShowsMore(sent: seq<Message>, tasks: seq<Payload>, more: seq<Payload>)
    requires BatchesShow(sent, tasks)
    ensures BatchesShow(sent, tasks + more)
  {
    if sent != [] {
      var before := sent[..|sent| - 1];
      ShowsMore(before, tasks, more);
      assert Counted(before) <= Counted(sent);
      assert (tasks + more)[Counted(before)..Counted(sent)] == tasks[Counted(before)..Counted(sent)];
    }
  }

  // ----- The invariant -----

  /** On an open socket all that was accepted is sent or pending; a closed one was sent a part, in order. */
  ghost predicate Delivers(s: Socket, tasks: seq<Payload>, others: seq<Payload>) {
    && Counted(s.sent) <= |tasks|
    && BatchesShow(s.sent, tasks)
    && SinglesIn(s.sent) <= others
    && (s.open ==>
          && Counted(s.sent) + s.taskCount == |tasks|
          && s.taskLatest == LastFive(tasks[|tasks| - s.taskCount..])
          && SinglesIn(s.sent) + s.otherBatch == others)
  }

  lemma CollectDelivers(s: Socket, p: Payload, tasks: seq<Payload>, others: seq<Payload>)
    requires s.open && Delivers(s, tasks, others)
    ensures Delivers(Collect(s, p), if p.TaskUpdate? then tasks + [p] else tasks,
                     if p.TaskUpdate? then others else others + [p])
  {
    hide Counted, SinglesIn, BatchesShow;
    if p.TaskUpdate? {
      ShowsMore(s.sent, tasks, [p]);
      LastFiveWithOneMore(tasks[|tasks| - s.taskCount..], p);
      assert (tasks + [p])[|tasks| - s.taskCount..] == tasks[|tasks| - s.taskCount..] + [p];
    }
  }

  lemma LastFiveWithOneMore(chunk: seq<Payload>, p: Payload)
    ensures var latest := LastFive(chunk);
            LastFive(chunk + [p]) == (if |latest| >= LATEST_CAP then latest[1..] else latest) + [p]
  {
  }

  lemma SendDelivers(s: Socket, m: Message, tasks: seq<Payload>, others: seq<Payload>)
    requires Delivers(s, tasks, others) && (m.Subscribed? || m.Pong?)
    ensures Delivers(SendOne(s, m), tasks, others)
  {
    SentOne(s.sent, m);
    ShowsOne(s.sent, m, tasks);
  }

  lemma OthersDeliver(s: Socket, tasks: seq<Payload>, others: seq<Payload>)
    requires s.open && Delivers(s, tasks, others)
    ensures Delivers(SendOthers(s), tasks, others)
  {
    hide Counted, SinglesIn, BatchesShow, LastFive;
    var n := if |s.otherBatch| <= s.room then |s.otherBatch| else s.room;
    SentSingles(s.sent, s.otherBatch[..n], tasks);
    assert s.otherBatch[..|s.otherBatch|] == s.otherBatch;
    assert others == SinglesIn(s.sent) + s.otherBatch[..n] + s.otherBatch[n..];
  }

  lemma FlushDelivers(s: Socket, tasks: seq<Payload>, others: seq<Payload>)
    requires s.open && Delivers(s, tasks, others)
    ensures Delivers(Flush(s), tasks, others)
    ensures Flush(s).open ==> Flush(s).taskCount == 0 && Flush(s).otherBatch == []
  {
    hide Counted, SinglesIn, BatchesShow, LastFive;
    OthersDeliver(s, tasks, others);
    var t := SendOthers(s);
    if t.open && t.taskCount > 0 {
      var batch := TaskBatch(t.taskCount, t.taskLatest);
      assert tasks[Counted(t.sent)..|tasks|] == tasks[|tasks| - t.taskCount..];
      SentOne(t.sent, batch);
      ShowsOne(t.sent, batch, tasks);
      NothingLeft(tasks);
    }
  }

  lemma NothingLeft(tasks: seq<Payload>)
    ensures LastFive(tasks[|tasks|..]) == []
  {
  }

  lemma TakenOne(taken: seq<Payload>, p: Payload)
    ensures Tasks(taken + [p]) == if p.TaskUpdate? then Tasks(taken) + [p] else Tasks(taken)
    ensures Others(taken + [p]) == if p.TaskUpdate? then Others(taken) else Others(taken) + [p]
  {
    assert (taken + [p])[..|taken|] == taken;
  }

  lemma StepDelivers(s: Socket, tenant: int, step: Step, taken: seq<Payload>)
    requires Delivers(s, Tasks(taken), Others(taken))
    ensures var more := if s.open && Accepts(s, tenant, step) then taken + [step.payload] else taken;
            Delivers(Next(s, tenant, step), Tasks(more), Others(more))
  {
    hide Delivers, Tasks, Others, Flush, Wants;
    var tasks, others := Tasks(taken), Others(taken);
    if s.open {
      match step
      case Asked(Subscribe(topics)) =>
        NewSubscriptions(s, s.subscriptions + (set t | t in topics), tasks, others);
        SendDelivers(s.(subscriptions := s.subscriptions + (set t | t in topics)), Subscribed(topics), tasks, others);
      case Asked(Unsubscribe(topics)) =>
        NewSubscriptions(s, s.subscriptions - (set t | t in topics), tasks, others);
      case Asked(Ping) => SendDelivers(s, Pong, tasks, others);
      case Hangup => CloseDelivers(s, tasks, others);
      case Received(_, p) =>
        if Accepts(s, tenant, step) {
          TakenOne(taken, p);
          CollectDelivers(s, p, tasks, others);
        }
      case Lagged =>
      case Tick => FlushDelivers(s, tasks, others);
    }
  }

  lemma NewSubscriptions(s: Socket, topics: set<Topic>, tasks: seq<Payload>, others: seq<Payload>)
    requires Delivers(s, tasks, others)
    ensures Delivers(s.(subscriptions := topics), tasks, others)
  {
  }

  lemma CloseDelivers(s: Socket, tasks: seq<Payload>, others: seq<Payload>)
    requires Delivers(s, tasks, others)
    ensures Delivers(s.(open := false), tasks, others)
  {
  }

  /**
   Over any run: the counts sent and the count pending add up to the task events accepted, each batch
   shows the last five of its events, and other events are sent once each, in order.
   */
  lemma {:induction false} RunDelivers(room: nat, tenant: int, steps: seq<Step>)
    ensures var taken := Taken(Start(room), tenant, steps);
            Delivers(Run(Start(room), tenant, steps), Tasks(taken), Others(taken))
  {
    hide Delivers, Next, Accepts;
    if steps == [] {
      NothingTaken(room);
    } else {
      var init, step := steps[..|steps| - 1], steps[|steps| - 1];
      RunDelivers(room, tenant, init);
      var taken := Taken(Start(room), tenant, init);
      StepDelivers(Run(Start(room), tenant, init), tenant, step, taken);
      assert taken + [] == taken;
    }
  }

  lemma NothingTaken(room: nat)
    ensures Delivers(Start(room), Tasks([]), Others([]))
  {
  }

  /** Behind a flush that leaves the socket open, nothing is pending. */
  lemma FlushLeavesNothing(room: nat, tenant: int, steps: seq<Step>)
    requires Run(Start(room), tenant, steps + [Tick]).open
    ensures var s, taken := Run(Start(room), tenant, steps + [Tick]), Taken(Start(room), tenant, steps + [Tick]);
            Counted(s.sent) == |Tasks(taken)| && SinglesIn(s.sent) == Others(taken)
  {
    hide Tasks, Others, Counted, SinglesIn, Flush, BatchesShow;
    var all := steps + [Tick];
    assert all[..|all| - 1] == steps;
    RunDelivers(room, tenant, steps);
    RunDelivers(room, tenant, all);
    var taken := Taken(Start(room), tenant, steps);
    var s := Run(Start(room), tenant, steps);
    assert s.open;
    FlushDelivers(s, Tasks(taken), Others(taken));
  }

  /** A socket closes only when the client hangs up or a send fails for want of room. */
  lemma {:induction false} ClosesOnlyWithReason(room: nat, tenant: int, steps: seq<Step>)
    ensures var s := Run(Start(room), tenant, steps);
            |s.sent| + s.room == room && (!s.open ==> Hangup in steps || s.room == 0)
  {
    if steps != [] {
      var init, step := steps[..|steps| - 1], steps[|steps| - 1];
      assert steps == init + [step];
      ClosesOnlyWithReason(room, tenant, init);
    }
  }

  /** A hangup closes the socket for good, and a closed socket sends nothing more. */
  lemma {:induction false} StaysClosed(s: Socket, tenant: int, steps: seq<Step>, n: nat)
    requires n <= |steps| && (!Run(s, tenant, steps[..n]).open || (n > 0 && steps[n - 1] == Hangup))
    ensures !Run(s, tenant, steps).open
    ensures !Run(s, tenant, steps[..n]).open ==> Run(s, tenant, steps) == Run(s, tenant, steps[..n])
    decreases |steps|
  {
    hide Flush, Wants;
    if n == |steps| {
      assert steps[..n] == steps;
    } else {
      var init := steps[..|steps| - 1];
      assert init[..n] == steps[..n];
      StaysClosed(s, tenant, init, n);
    }
  }

  /** Other events first and then the batch, as many as there is room for; the socket closes if that is not all. */
  lemma FlushSendsInOrder(s: Socket)
    requires s.open
    ensures var all := Singles(s.otherBatch) + if s.taskCount > 0 then [TaskBatch(s.taskCount, s.taskLatest)] else [];
            && Flush(s).sent == s.sent + all[..if |all| < s.room then |all| else s.room]
            && (Flush(s).open <==> |all| <= s.room)
  {
    var singles := Singles(s.otherBatch);
    var batch := if s.taskCount > 0 then [TaskBatch(s.taskCount, s.taskLatest)] else [];
    if |singles| <= s.room {
      assert (singles + batch)[..|singles|] == singles;
      assert (singles + batch)[..|singles + batch|] == singles + batch;
      assert s.sent + singles + batch == s.sent + (singles + batch);
    } else {
      assert (singles + batch)[..s.room] == Singles(s.otherBatch[..s.room]);
    }
  }

  /** The answers to commands among the messages. */
  ghost function Replies(sent: seq<Message>): seq<Message> {
    if sent == [] then []
    else
      var m := sent[|sent| - 1];
      Replies(sent[..|sent| - 1]) + if m.Subscribed? || m.Pong? then [m] else []
  }

  /** A subscription is confirmed with its topics, a ping answered. */
  ghost function Owed(steps: seq<Step>): seq<Message> {
    if steps == [] then []
    else
      Owed(steps[..|steps| - 1]) +
      match steps[|steps| - 1]
      case Asked(Subscribe(topics)) => [Subscribed(topics)]
      case Asked(Ping) => [Pong]
      case _ => []
  }

  lemma RepliesOne(sent: seq<Message>, m: Message)
    ensures Replies(sent + [m]) == Replies(sent) + if m.Subscribed? || m.Pong? then [m] else []
  {
    assert (sent + [m])[..|sent|] == sent;
  }

  lemma {:induction false} NoReplies(sent: seq<Message>, more: seq<Message>)
    requires forall m :: m in more ==> !m.Subscribed? && !m.Pong?
    ensures Replies(sent + more) == Replies(sent)
    decreases |more|
  {
    if more == [] {
      assert sent + more == sent;
    } else {
      var init, last := more[..|more| - 1], more[|more| - 1];
      assert more == init + [last] && sent + more == sent + init + [last];
      NoReplies(sent, init);
      RepliesOne(sent + init, last);
    }
  }

  lemma FlushReplies(s: Socket)
    requires s.open
    ensures Replies(Flush(s).sent) == Replies(s.sent)
  {
    hide Flush;
    FlushSendsInOrder(s);
    var all := Singles(s.otherBatch) + if s.taskCount > 0 then [TaskBatch(s.taskCount, s.taskLatest)] else [];
    NoReplies(s.sent, all[..if |all| < s.room then |all| else s.room]);
  }

  /** On an open socket every command that is owed an answer has had it, in order. */
  lemma {:induction false} EveryCommandIsAnswered(room: nat, tenant: int, steps: seq<Step>)
    requires Run(Start(room), tenant, steps).open
    ensures Replies(Run(Start(room), tenant, steps).sent) == Owed(steps)
  {
    hide Flush, Wants, Collect, Replies;
    if steps == [] {
      NoReplies([], []);
      assert Replies([]) == [] by { NothingReplied(); }
    } else {
      var init, last := steps[..|steps| - 1], steps[|steps| - 1];
      EveryCommandIsAnswered(room, tenant, init);
      var s := Run(Start(room), tenant, init);
      StepReplies(s, tenant, last);
      assert Owed(init) + [] == Owed(init);
    }
  }

  lemma NothingReplied()
    ensures Replies([]) == []
  {
  }

  lemma StepReplies(s: Socket, tenant: int, step: Step)
    requires Next(s, tenant, step).open
    ensures s.open
    ensures Replies(Next(s, tenant, step).sent)
            == Replies(s.sent) + match step
                                 case Asked(Subscribe(topics)) => [Subscribed(topics)]
                                 case Asked(Ping) => [Pong]
                                 case _ => []
  {
    hide Flush, Wants, Replies;
    assert s.open;
    assert Replies(s.sent) + [] == Replies(s.sent);
    match step
    case Asked(Subscribe(topics)) => RepliesOne(s.sent, Subscribed(topics));
    case Asked(Ping) => RepliesOne(s.sent, Pong);
    case Tick => FlushReplies(s);
    case _ =>
  }

  // ----- Who is sent what -----

  /** Only events of the own tenant are accepted, and each of them was asked for when it came. */
  lemma {:induction false} OnlyOwnEvents(room: nat, tenant: int, steps: seq<Step>, p: Payload)
    requires p in Taken(Start(room), tenant, steps)
    ensures exists k :: 0 <= k < |steps| && steps[k] == Received(tenant, p)
                        && Wants(Run(Start(room), tenant, steps[..k]).subscriptions, p)
  {
    hide Wants, Next;
    var n := |steps| - 1;
    var init, step := steps[..n], steps[n];
    if p in Taken(Start(room), tenant, init) {
      OnlyOwnEvents(room, tenant, init, p);
      var k :| 0 <= k < |init| && init[k] == Received(tenant, p)
               && Wants(Run(Start(room), tenant, init[..k]).subscriptions, p);
      assert steps[k] == init[k] && steps[..k] == init[..k];
    } else {
      assert steps[n] == Received(tenant, p);
    }
  }
}
