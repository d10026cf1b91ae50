/**
 The live socket of a dashboard (crates/api/src/ws/handler.rs): task events are counted and sent as
 one batch a second, other events are sent one by one at the same moment.
 */
module LiveBatch {
  // ----- Events and topics -----

  datatype Topic =
    | AllTasks
    | Queue(queue: string)
    | Task(taskId: string)
    | TaskType(taskName: string)
    | AllWorkers
    | Worker(workerId: string)
    | Beat
    | Alerts
    | MetricsSummary

  /** `data` stands for the fields that play no part in routing. */
  datatype Payload =
    | TaskUpdate(taskId: string, taskName: string, queue: string, data: int)
    | WorkerUpdate(workerId: string, data: int)
    | BeatUpdate(data: int)
    | AlertFired(data: int)
    | AlertResolved(data: int)
    | MetricsReport(data: int)

  /** The topics that ask for an event. */
  function TopicsOf(payload: Payload): set<Topic> {
    match payload
    case TaskUpdate(id, name, queue, _) => {AllTasks, Queue(queue), Task(id), TaskType(name)}
    case WorkerUpdate(id, _) => {AllWorkers, Worker(id)}
    case BeatUpdate(_) => {Beat}
    case AlertFired(_) => {Alerts}
    case AlertResolved(_) => {Alerts}
    case MetricsReport(_) => {MetricsSummary}
  }

  predicate Wants(subscriptions: set<Topic>, payload: Payload) {
    exists t :: t in subscriptions && t in TopicsOf(payload)
  }

  method MatchesAnySubscription(payload: Payload, subscriptions: set<Topic>) returns (wanted: bool)
    ensures wanted == Wants(subscriptions, payload)
  {
    var left := subscriptions;
    while left != {}
      invariant left <= subscriptions
      invariant forall t :: t in subscriptions && t in TopicsOf(payload) ==> t in left
      decreases |left|
    {
      var topic :| topic in left;
      left := left - {topic};
      var matched :=
        match topic
        case AllTasks => payload.TaskUpdate?
        case Queue(q) => payload.TaskUpdate? && payload.queue == q
        case Task(id) => payload.TaskUpdate? && payload.taskId == id
        case TaskType(name) => payload.TaskUpdate? && payload.taskName == name
        case AllWorkers => payload.WorkerUpdate?
        case Worker(id) => payload.WorkerUpdate? && payload.workerId == id
        case Beat => payload.BeatUpdate?
        case Alerts => payload.AlertFired? || payload.AlertResolved?
        case MetricsSummary => payload.MetricsReport?;
      if matched {
        return true;
      }
    }
    return false;
  }

  // ----- The socket as a state -----

  datatype Message =
    | Subscribed(topics: seq<Topic>)
    | Pong
    | Single(payload: Payload)
    | TaskBatch(count: nat, latest: seq<Payload>)

  const LATEST_CAP := 5

  /** `room` is how many more messages the connection takes before a send fails. */
  datatype Socket = Socket(
    subscriptions: set<Topic>, taskCount: nat, taskLatest: seq<Payload>, otherBatch: seq<Payload>,
    sent: seq<Message>, room: nat, open: bool)

  datatype Command = Subscribe(topics: seq<Topic>) | Unsubscribe(topics: seq<Topic>) | Ping

  /**
   What the loop waits for. `Hangup` is the end of the client's stream or of the event channel, `Received`
   an event of any tenant, `Lagged` a gap in the events.
   */
  datatype Step =
    | Asked(command: Command)
    | Hangup
    | Received(tenant: int, payload: Payload)
    | Lagged
    | Tick

  function Start(room: nat): Socket {
    Socket({AllTasks, AllWorkers, Alerts, MetricsSummary}, 0, [], [], [], room, true)
  }

  function SendOne(s: Socket, m: Message): Socket {
    if s.room > 0 then s.(sent := s.sent + [m], room := s.room - 1) else s.(open := false)
  }

  function Singles(payloads: seq<Payload>): (messages: seq<Message>)
    ensures |messages| == |payloads|
    ensures forall i :: 0 <= i < |payloads| ==> messages[i] == Single(payloads[i])
  {
    seq(|payloads|, i requires 0 <= i < |payloads| => Single(payloads[i]))
  }

  function SendOthers(s: Socket): Socket {
    var n := |s.otherBatch|;
    if n <= s.room then s.(sent := s.sent + Singles(s.otherBatch), room := s.room - n, otherBatch := [])
    else s.(sent := s.sent + Singles(s.otherBatch[..s.room]), room := 0, otherBatch := [], open := false)
  }

  function Flush(s: Socket): Socket {
    var t := SendOthers(s);
    if t.open && t.taskCount > 0 then SendOne(t.(taskCount := 0, taskLatest := []), TaskBatch(t.taskCount, t.taskLatest))
    else t
  }

  /** The last payloads of a sequence, up to five. */
  function LastFive(payloads: seq<Payload>): seq<Payload> {
    if |payloads| <= LATEST_CAP then payloads else payloads[|payloads| - LATEST_CAP..]
  }

  function Collect(s: Socket, payload: Payload): Socket {
    if payload.TaskUpdate? then
      s.(taskCount := s.taskCount + 1,
         taskLatest := (if |s.taskLatest| >= LATEST_CAP then s.taskLatest[1..] else s.taskLatest) + [payload])
    else s.(otherBatch := s.otherBatch + [payload])
  }

  predicate Accepts(s: Socket, tenant: int, step: Step) {
    step.Received? && step.tenant == tenant && Wants(s.subscriptions, step.payload)
  }

  function Next(s: Socket, tenant: int, step: Step): Socket {
    if !s.open then s else
    match step
    case Asked(Subscribe(topics)) =>
      SendOne(s.(subscriptions := s.subscriptions + (set t | t in topics)), Subscribed(topics))
    case Asked(Unsubscribe(topics)) => s.(subscriptions := s.subscriptions - (set t | t in topics))
    case Asked(Ping) => SendOne(s, Pong)
    case Hangup => s.(open := false)
    case Received(_, payload) => if Accepts(s, tenant, step) then Collect(s, payload) else s
    case Lagged => s
    case Tick => if s.taskCount == 0 && s.otherBatch == [] then s else Flush(s)
  }

  // ----- The socket as an object -----

  class DashboardSocket {
    const tenantId: int
    var subscriptions: set<Topic>
    var taskCount: nat
    var taskLatest: seq<Payload>
    var otherBatch: seq<Payload>
    var sent: seq<Message>
    var room: nat
    var open: bool

    ghost function State(): Socket
      reads this
    {
      Socket(subscriptions, taskCount, taskLatest, otherBatch, sent, room, open)
    }

    constructor (tenantId: int, room: nat)
      ensures this.tenantId == tenantId && State() == Start(room)
    {
      this.tenantId := tenantId;
      subscriptions := {};
      taskCount, taskLatest, otherBatch := 0, [], [];
      sent := [];
      this.room, open := room, true;
      new;
      subscriptions := subscriptions + {AllTasks};
      subscriptions := subscriptions + {AllWorkers};
      subscriptions := subscriptions + {Alerts};
      subscriptions := subscriptions + {MetricsSummary};
      assert subscriptions == {AllTasks, AllWorkers, Alerts, MetricsSummary};
    }

    /** One round of the loop. */
    method Round(step: Step)
      requires open
      modifies this
      ensures State() == Next(old(State()), tenantId, step)
    {
      match step
      case Asked(command) => Obey(command);
      case Hangup => open := false;
      case Received(tenant, payload) =>
        if tenant == tenantId {
          var wanted := MatchesAnySubscription(payload, subscriptions);
          if wanted {
            Take(payload);
          }
        }
      case Lagged =>
      case Tick =>
        if !(taskCount == 0 && otherBatch == []) {
          SendBatches();
        }
    }

    method Obey(command: Command)
      requires open
      modifies this
      ensures State() == Next(old(State()), tenantId, Asked(command))
    {
      match command
      case Subscribe(topics) =>
        subscriptions := subscriptions + (set t | t in topics);
        Send(Subscribed(topics));
      case Unsubscribe(topics) =>
        ghost var before := subscriptions;
        for i := 0 to |topics|
          invariant subscriptions == before - (set t | t in topics[..i])
          invariant State() == old(State()).(subscriptions := subscriptions)
        {
          assert topics[..i + 1] == topics[..i] + [topics[i]];
          subscriptions := subscriptions - {topics[i]};
        }
        assert topics[..|topics|] == topics;
      case Ping => Send(Pong);
    }

    method Take(payload: Payload)
      modifies this
      ensures State() == Collect(old(State()), payload)
    {
      if payload.TaskUpdate? {
        taskCount := taskCount + 1;
        if |taskLatest| >= LATEST_CAP {
          taskLatest := taskLatest[1..];
        }
        taskLatest := taskLatest + [payload];
      } else {
        otherBatch := otherBatch + [payload];
      }
    }

    method Send(m: Message)
      modifies this
      ensures State() == SendOne(old(State()), m)
    {
      if room > 0 {
        sent := sent + [m];
        room := room - 1;
      } else {
        open := false;
      }
    }

    method SendBatches()
      requires open
      modifies this
      ensures State() == Flush(old(State()))
    {
      var payloads := otherBatch;
      otherBatch := [];
      ghost var before := State();
      for i := 0 to |payloads|
        invariant open && i <= before.room
        invariant State() == before.(sent := before.sent + Singles(payloads[..i]), room := before.room - i)
      {
        assert Singles(payloads[..i + 1]) == Singles(payloads[..i]) + [Single(payloads[i])];
        Send(Single(payloads[i]));
        if !open {
          return;
        }
      }
      assert payloads[..|payloads|] == payloads;
      if taskCount > 0 {
        var batch := TaskBatch(taskCount, taskLatest);
        taskCount := 0;
        taskLatest := [];
        Send(batch);
      }
    }
  }
}
