/**
 The task queries: one routine writes the text of the WHERE clause with a placeholder for each
 value, another binds the values, and the database pairs them by position alone. The text is kept
 as the tokens it is made of; `ReadQuery` is the database's reading of tokens and values.
 */
module TaskQuery {
  import opened Wrappers

  type Tenant = nat

  datatype Column = TenantId | Timestamp | EventType | State | TaskName | Queue | Worker | Exception | SearchText

  datatype Operator = Eq | Ne | Ge | Le | Lt | In

  datatype Token =
    | Where
    | And
    | Col(column: Column)
    | Op(op: Operator)
    | Hole
    | Text(text: string)
    | Open
    | Close
    | Comma
    | FromMillis        // fromUnixTimestamp64Milli(toInt64(_)), around the placeholder that follows
    | HoursAgo(n: nat)  // now() - toIntervalHour(n)
    | Position          // positionCaseInsensitive
    | IsPositive        // > 0
    | NewestFirst       // ORDER BY timestamp DESC
    | Limit

  datatype Value = Id(tenant: Tenant) | Int(i: int) | Str(s: string)

  datatype Filters = Filters(
    taskName: Option<string>,
    states: Option<seq<string>>,
    queue: Option<string>,
    workerId: Option<string>,
    search: Option<string>,
    errorsOnly: Option<bool>,
    sinceMs: Option<int>,
    untilMs: Option<int>,
    requireTaskName: Option<bool>)
  {
    /** An empty list of states is no filter. */
    function ActiveStates(): Option<seq<string>> {
      if states.Some? && states.value != [] then states else None
    }
  }

  const DEFAULT_WINDOW_HOURS: nat := 24
  const TASK_EVENT_TYPES: seq<string> :=
    ["task-succeeded", "task-failed", "task-started", "task-received", "task-sent", "task-retried", "task-revoked"]

  // ----- The builder -----

  /** Placeholders or texts between parentheses, with commas between them. */
  function Separated(items: seq<Token>): seq<Token> {
    if |items| == 0 then []
    else if |items| == 1 then items
    else Separated(items[..|items| - 1]) + [Comma, items[|items| - 1]]
  }

  function Holes(n: nat): (holes: seq<Token>)
    ensures |holes| == n && forall k :: 0 <= k < n ==> holes[k] == Hole
  {
    seq(n, _ => Hole)
  }

  function Texts(texts: seq<string>): (tokens: seq<Token>)
    ensures |tokens| == |texts| && forall k :: 0 <= k < |texts| ==> tokens[k] == Text(texts[k])
  {
    seq(|texts|, k requires 0 <= k < |texts| => Text(texts[k]))
  }

  /** ` AND event_type IN ('task-succeeded', …)`. */
  function ScopeTokens(): seq<Token> {
    [And, Col(EventType), Op(In), Open] + Separated(Texts(TASK_EVENT_TYPES)) + [Close]
  }

  function SinceTokens(f: Filters): seq<Token> {
    if f.sinceMs.Some? then [And, Col(Timestamp), Op(Ge), FromMillis, Hole]
    else [And, Col(Timestamp), Op(Ge), HoursAgo(DEFAULT_WINDOW_HOURS)]
  }

  function StatesTokens(f: Filters): seq<Token> {
    match f.ActiveStates()
    case None => []
    case Some(states) => [And, Col(State), Op(In), Open] + Separated(Holes(|states|)) + [Close]
  }

  function ContainsTokens(column: Column): seq<Token> {
    [And, Position, Open, Col(column), Comma, Hole, Close, IsPositive]
  }

  function UntilTokens(f: Filters): seq<Token> {
    if f.untilMs.Some? then [And, Col(Timestamp), Op(Le), FromMillis, Hole] else []
  }

  function NameTokens(f: Filters): seq<Token> {
    if f.taskName.Some? then ContainsTokens(TaskName) else []
  }

  function QueueTokens(f: Filters): seq<Token> {
    if f.queue.Some? then [And, Col(Queue), Op(Eq), Hole] else []
  }

  function WorkerTokens(f: Filters): seq<Token> {
    if f.workerId.Some? then [And, Col(Worker), Op(Eq), Hole] else []
  }

  function ErrorTokens(f: Filters): seq<Token> {
    if f.errorsOnly == Some(true) then [And, Col(Exception), Op(Ne), Text("")] else []
  }

  function NamedTokens(f: Filters): seq<Token> {
    if f.requireTaskName == Some(true) then [And, Col(TaskName), Op(Ne), Text("")] else []
  }

  function SearchTokens(f: Filters): seq<Token> {
    if f.search.Some? then ContainsTokens(SearchText) else []
  }

  /** The clause after the text `query`. */
  function WithWhere(query: seq<Token>, f: Filters): seq<Token> {
    query + [Where, Col(TenantId), Op(Eq), Hole] + SinceTokens(f) + UntilTokens(f) + ScopeTokens() + NameTokens(f)
    + StatesTokens(f) + QueueTokens(f) + WorkerTokens(f) + ErrorTokens(f) + NamedTokens(f) + SearchTokens(f)
  }

  lemma {:induction false} SeparatedSnoc(items: seq<Token>, last: Token)
    ensures Separated(items + [last]) == (if items == [] then [last] else Separated(items) + [Comma, last])
  {
    assert (items + [last])[..|items|] == items;
  }

  /** The loop that writes one placeholder for each state. */
  method AppendStates(query: seq<Token>, states: seq<string>) returns (out: seq<Token>)
    ensures out == query + ([And, Col(State), Op(In), Open] + Separated(Holes(|states|)) + [Close])
  {
    out := query + [And, Col(State), Op(In), Open];
    ghost var head := out;
    for i := 0 to |states|
      invariant out == head + Separated(Holes(i))
    {
      SeparatedSnoc(Holes(i), Hole);
      assert Holes(i + 1) == Holes(i) + [Hole];
      if i > 0 {
        out := out + [Comma];
      }
      out := out + [Hole];
    }
    out := out + [Close];
  }

  /** `append_task_where`. */
  method AppendTaskWhere(query: seq<Token>, f: Filters) returns (out: seq<Token>)
    ensures out == WithWhere(query, f)
  {
    hide ScopeTokens, ContainsTokens;
    out := query + [Where, Col(TenantId), Op(Eq), Hole];
    ghost var before := out;
    if f.sinceMs.Some? {
      out := out + [And, Col(Timestamp), Op(Ge), FromMillis, Hole];
    } else {
      out := out + [And, Col(Timestamp), Op(Ge), HoursAgo(DEFAULT_WINDOW_HOURS)];
    }
    assert out == before + SinceTokens(f);
    before := out;
    if f.untilMs.Some? {
      out := out + [And, Col(Timestamp), Op(Le), FromMillis, Hole];
    }
    assert out == before + UntilTokens(f);
    out := out + ScopeTokens();
    before := out;
    if f.taskName.Some? {
      out := out + ContainsTokens(TaskName);
    }
    assert out == before + NameTokens(f);
    before := out;
    var states := f.ActiveStates();
    if states.Some? {
      out := AppendStates(out, states.value);
    }
    assert out == before + StatesTokens(f);
    out := AppendEqualities(out, f);
  }

  /** The filters after the list of states. */
  method AppendEqualities(query: seq<Token>, f: Filters) returns (out: seq<Token>)
    ensures out == query + QueueTokens(f) + WorkerTokens(f) + ErrorTokens(f) + NamedTokens(f) + SearchTokens(f)
  {
    hide ContainsTokens;
    out := query;
    ghost var before := out;
    if f.queue.Some? {
      out := out + [And, Col(Queue), Op(Eq), Hole];
    }
    assert out == before + QueueTokens(f);
    before := out;
    if f.workerId.Some? {
      out := out + [And, Col(Worker), Op(Eq), Hole];
    }
    assert out == before + WorkerTokens(f);
    before := out;
    if f.errorsOnly == Some(true) {
      out := out + [And, Col(Exception), Op(Ne), Text("")];
    }
    assert out == before + ErrorTokens(f);
    before := out;
    if f.requireTaskName == Some(true) {
      out := out + [And, Col(TaskName), Op(Ne), Text("")];
    }
    assert out == before + NamedTokens(f);
    before := out;
    if f.search.Some? {
      out := out + ContainsTokens(SearchText);
    }
    assert out == before + SearchTokens(f);
  }

  // ----- The binder -----

  function StrValues(texts: seq<string>): (values: seq<Value>)
    ensures |values| == |texts| && forall k :: 0 <= k < |texts| ==> values[k] == Str(texts[k])
  {
    seq(|texts|, k requires 0 <= k < |texts| => Str(texts[k]))
  }

  function OptInt(v: Option<int>): seq<Value> {
    if v.Some? then [Int(v.value)] else []
  }

  function OptStr(v: Option<string>): seq<Value> {
    if v.Some? then [Str(v.value)] else []
  }

  function StateValues(f: Filters): seq<Value> {
    if f.ActiveStates().Some? then StrValues(f.ActiveStates().value) else []
  }

  /** The values bound after `bound`. */
  function WithValues(bound: seq<Value>, tenant: Tenant, f: Filters): seq<Value> {
    bound + [Id(tenant)] + OptInt(f.sinceMs) + OptInt(f.untilMs) + OptStr(f.taskName) + StateValues(f)
    + OptStr(f.queue) + OptStr(f.workerId) + OptStr(f.search)
  }

  /** The loop of `bind_task_filters` that binds the states. */
  method BindStates(bound: seq<Value>, f: Filters) returns (q: seq<Value>)
    ensures q == bound + StateValues(f)
  {
    q := bound;
    var states := f.ActiveStates();
    if states.Some? {
      for i := 0 to |states.value|
        invariant q == bound + StrValues(states.value)[..i]
      {
        q := q + [Str(states.value[i])];
      }
    }
  }

  /** `bind_task_filters`. */
  method BindTaskFilters(bound: seq<Value>, tenant: Tenant, f: Filters) returns (q: seq<Value>)
    ensures q == WithValues(bound, tenant, f)
  {
    hide StateValues;
    q := bound + [Id(tenant)];
    ghost var before := q;
    if f.sinceMs.Some? {
      q := q + [Int(f.sinceMs.value)];
    }
    assert q == before + OptInt(f.sinceMs);
    before := q;
    if f.untilMs.Some? {
      q := q + [Int(f.untilMs.value)];
    }
    assert q == before + OptInt(f.untilMs);
    before := q;
    if f.taskName.Some? {
      q := q + [Str(f.taskName.value)];
    }
    assert q == before + OptStr(f.taskName);
    before := q;
    q := BindStates(q, f);
    before := q;
    if f.queue.Some? {
      q := q + [Str(f.queue.value)];
    }
    assert q == before + OptStr(f.queue);
    before := q;
    if f.workerId.Some? {
      q := q + [Str(f.workerId.value)];
    }
    assert q == before + OptStr(f.workerId);
    before := q;
    if f.search.Some? {
      q := q + [Str(f.search.value)];
    }
    assert q == before + OptStr(f.search);
  }

  /** The query and the values of `query_task_events`: the clause, the cursor, the order and the limit. */
  method ListQuery(tenant: Tenant, limit: nat, f: Filters, cursorMs: Option<int>)
    returns (query: seq<Token>, values: seq<Value>)
    ensures query == ListTokens(f, cursorMs)
    ensures values == ListValues(tenant, limit, f, cursorMs)
  {
    query := AppendTaskWhere([], f);
    ghost var clause := query;
    if cursorMs.Some? {
      query := query + [And, Col(Timestamp), Op(Lt), FromMillis, Hole];
    }
    assert query == clause + CursorTokens(cursorMs);
    query := query + [NewestFirst, Limit, Hole];
    values := BindTaskFilters([], tenant, f);
    ghost var bound := values;
    if cursorMs.Some? {
      values := values + [Int(cursorMs.value)];
    }
    assert values == bound + OptInt(cursorMs);
    values := values + [Int(limit)];
  }

  function CursorTokens(cursorMs: Option<int>): seq<Token> {
    if cursorMs.Some? then [And, Col(Timestamp), Op(Lt), FromMillis, Hole] else []
  }

  function ListTokens(f: Filters, cursorMs: Option<int>): seq<Token> {
    WithWhere([], f) + CursorTokens(cursorMs) + [NewestFirst, Limit, Hole]
  }

  function ListValues(tenant: Tenant, limit: nat, f: Filters, cursorMs: Option<int>): seq<Value> {
    WithValues([], tenant, f) + OptInt(cursorMs) + [Int(limit)]
  }

  // ----- The reading of the database -----

  datatype Operand = Bound(v: Value) | Millis(ms: int) | Ago(hours: nat)

  datatype Condition =
    | Compare(column: Column, op: Operator, operand: Operand)
    | OneOf(column: Column, values: seq<Value>)
    | Contains(column: Column, text: string)

  /** A parsed part, and how many tokens and values it took. */
  datatype Taken<+T> = Taken(part: T, tokens: nat, values: nat)

  function ReadOperand(ts: seq<Token>, vs: seq<Value>): Option<Taken<Operand>> {
    if |ts| >= 2 && ts[0] == FromMillis && ts[1] == Hole && |vs| >= 1 && vs[0].Int? then
      Some(Taken(Millis(vs[0].i), 2, 1))
    else if |ts| >= 1 && ts[0] == Hole && |vs| >= 1 then Some(Taken(Bound(vs[0]), 1, 1))
    else if |ts| >= 1 && ts[0].Text? then Some(Taken(Bound(Str(ts[0].text)), 1, 0))
    else if |ts| >= 1 && ts[0].HoursAgo? then Some(Taken(Ago(ts[0].n), 1, 0))
    else None
  }

  /** The items of an `IN` list up to its closing parenthesis. */
  function ReadList(ts: seq<Token>, vs: seq<Value>): (r: Option<Taken<seq<Value>>>)
    ensures r.Some? ==> r.value.tokens <= |ts| && r.value.values <= |vs|
  {
    if |ts| < 2 || !(ts[1] == Comma || ts[1] == Close) then None
    else
      var item := if ts[0] == Hole && vs != [] then Some(vs[0])
                  else if ts[0].Text? then Some(Str(ts[0].text)) else None;
      var used := if ts[0] == Hole then 1 else 0;
      if item == None then None
      else if ts[1] == Close then Some(Taken([item.value], 2, used))
      else
        match ReadList(ts[2..], vs[used..])
        case None => None
        case Some(rest) => Some(Taken([item.value] + rest.part, 2 + rest.tokens, used + rest.values))
  }

  function ReadCondition(ts: seq<Token>, vs: seq<Value>): (r: Option<Taken<Condition>>)
    ensures r.Some? ==> 0 < r.value.tokens <= |ts| && r.value.values <= |vs|
  {
    if |ts| >= 3 && ts[0].Col? && ts[1] == Op(In) && ts[2] == Open then
      match ReadList(ts[3..], vs)
      case None => None
      case Some(list) => Some(Taken(OneOf(ts[0].column, list.part), 3 + list.tokens, list.values))
    else if |ts| >= 3 && ts[0].Col? && ts[1].Op? then
      match ReadOperand(ts[2..], vs)
      case None => None
      case Some(x) => Some(Taken(Compare(ts[0].column, ts[1].op, x.part), 2 + x.tokens, x.values))
    else if |ts| >= 7 && ts[0] == Position && ts[1] == Open && ts[2].Col? && ts[3..7] == [Comma, Hole, Close, IsPositive]
            && |vs| >= 1 && vs[0].Str? then
      Some(Taken(Contains(ts[2].column, vs[0].s), 7, 1))
    else None
  }

  /** `AND` conditions for as long as there are any. */
  function ReadConditions(ts: seq<Token>, vs: seq<Value>): (r: Option<Taken<seq<Condition>>>)
    ensures r.Some? ==> r.value.tokens <= |ts| && r.value.values <= |vs|
  {
    if ts == [] || ts[0] != And then Some(Taken([], 0, 0))
    else
      match ReadCondition(ts[1..], vs)
      case None => None
      case Some(c) =>
        match ReadConditions(ts[1 + c.tokens..], vs[c.values..])
        case None => None
        case Some(rest) =>
          Some(Taken([c.part] + rest.part, 1 + c.tokens + rest.tokens, c.values + rest.values))
  }

  datatype Query = Query(conditions: seq<Condition>, limit: Option<int>)

  /** A whole query: every placeholder has a value and no value is left over, or there is no reading. */
  function ReadQuery(ts: seq<Token>, vs: seq<Value>): Option<Query> {
    if ts == [] || ts[0] != Where then None
    else
      match ReadConditions([And] + ts[1..], vs)
      case None => None
      case Some(r) =>
        var tail, left := ts[r.tokens..], vs[r.values..];
        if tail == [] && left == [] then Some(Query(r.part, None))
        else if tail == [NewestFirst, Limit, Hole] && |left| == 1 && left[0].Int? then
          Some(Query(r.part, Some(left[0].i)))
        else None
  }

  // ----- What a clause and a filter mean -----

  datatype Row = Row(tenant: Tenant, taskId: string, taskName: string, queue: string, worker: string,
                     state: string, eventType: string, ts: int, args: string, kwargs: string,
                     result: string, exception: string)

  /** The clock of the database in milliseconds, and its case-insensitive substring search. */
  datatype Database = Database(now: int, contains: (string, string) -> bool)

  /** The columns a free-text search looks through, one blank between two. */
  function Searchable(row: Row): string {
    row.taskId + " " + row.taskName + " " + row.args + " " + row.kwargs + " " + row.result + " " + row.exception
  }

  function TextOf(row: Row, column: Column): string {
    match column
    case EventType => row.eventType
    case State => row.state
    case TaskName => row.taskName
    case Queue => row.queue
    case Worker => row.worker
    case Exception => row.exception
    case SearchText => Searchable(row)
    case _ => ""
  }

  predicate CompareTimes(op: Operator, a: int, b: int) {
    match op
    case Ge => a >= b
    case Le => a <= b
    case Lt => a < b
    case _ => false
  }

  predicate HoldsFor(c: Condition, row: Row, db: Database) {
    match c
    case Compare(Timestamp, op, Millis(ms)) => CompareTimes(op, row.ts, ms)
    case Compare(Timestamp, op, Ago(hours)) => CompareTimes(op, row.ts, db.now - hours * 3_600_000)
    case Compare(TenantId, Eq, Bound(Id(tenant))) => row.tenant == tenant
    case Compare(column, Eq, Bound(Str(s))) => column != Timestamp && column != TenantId && TextOf(row, column) == s
    case Compare(column, Ne, Bound(Str(s))) => column != Timestamp && column != TenantId && TextOf(row, column) != s
    case Compare(_, _, _) => false
    case OneOf(column, values) => Str(TextOf(row, column)) in values
    case Contains(column, text) => db.contains(TextOf(row, column), text)
  }

  predicate AllHold(cs: seq<Condition>, row: Row, db: Database) {
    forall c :: c in cs ==> HoldsFor(c, row, db)
  }

  /** The row is a task event of the tenant, in the time window, that meets every active filter. */
  predicate Meets(row: Row, tenant: Tenant, f: Filters, db: Database) {
    && row.tenant == tenant
    && row.eventType in TASK_EVENT_TYPES
    && row.ts >= (if f.sinceMs.Some? then f.sinceMs.value else db.now - 24 * 60 * 60 * 1000)
    && (f.untilMs.Some? ==> row.ts <= f.untilMs.value)
    && (f.taskName.Some? ==> db.contains(row.taskName, f.taskName.value))
    && (f.states.Some? && f.states.value != [] ==> row.state in f.states.value)
    && (f.queue.Some? ==> row.queue == f.queue.value)
    && (f.workerId.Some? ==> row.worker == f.workerId.value)
    && (f.errorsOnly == Some(true) ==> row.exception != "")
    && (f.requireTaskName == Some(true) ==> row.taskName != "")
    && (f.search.Some? ==> db.contains(Searchable(row), f.search.value))
  }
}
