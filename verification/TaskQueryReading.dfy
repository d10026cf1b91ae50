/** The builder and the binder agree: read by position, the query means what the filters say. */
module TaskQueryReading {
  import opened Wrappers
  import opened TaskQuery

  /** One condition: how it is written, the values it binds, and what the database reads. */
  datatype Piece = Piece(tokens: seq<Token>, values: seq<Value>, condition: Condition)

  /** Wherever the piece stands, the database reads its condition from it and takes nothing more. */
  ghost predicate ReadsAs(p: Piece) {
    forall ts: seq<Token>, vs: seq<Value> ::
      ReadCondition(p.tokens + ts, p.values + vs) == Some(Taken(p.condition, |p.tokens|, |p.values|))
  }

  ghost function Written(ps: seq<Piece>): seq<Token> {
    if ps == [] then [] else [And] + ps[0].tokens + Written(ps[1..])
  }

  ghost function BoundBy(ps: seq<Piece>): seq<Value> {
    if ps == [] then [] else ps[0].values + BoundBy(ps[1..])
  }

  ghost function Conditions(ps: seq<Piece>): (cs: seq<Condition>)
    ensures |cs| == |ps|
  {
    seq(|ps|, k requires 0 <= k < |ps| => ps[k].condition)
  }

  lemma Assoc<T>(a: seq<T>, b: seq<T>, c: seq<T>)
    ensures a + b + c == a + (b + c)
  {
  }

  lemma ReadOneMore(c: Condition, head: seq<Token>, values: seq<Value>, ts: seq<Token>, vs: seq<Value>,
                    rest: Taken<seq<Condition>>)
    requires ReadCondition(head + ts, values + vs) == Some(Taken(c, |head|, |values|))
    requires ReadConditions(ts, vs) == Some(rest)
    ensures ReadConditions([And] + head + ts, values + vs)
            == Some(Taken([c] + rest.part, 1 + |head| + rest.tokens, |values| + rest.values))
  {
    hide ReadCondition, ReadConditions;
    var all := [And] + head + ts;
    Behind([And], head, ts);
    Behind(values, vs, []);
    OneRound(all, values + vs, Taken(c, |head|, |values|), rest);
  }

  lemma Behind<T>(a: seq<T>, b: seq<T>, c: seq<T>)
    ensures (a + b + c)[|a|..] == b + c && (a + b + c)[|a| + |b|..] == c
    ensures (a + b)[|a|..] == b
  {
  }

  /** The reader of conditions takes `AND`, one condition, and the others. */
  lemma OneRound(ts: seq<Token>, vs: seq<Value>, first: Taken<Condition>, rest: Taken<seq<Condition>>)
    requires ts != [] && ts[0] == And && 1 + first.tokens <= |ts| && first.values <= |vs|
    requires ReadCondition(ts[1..], vs) == Some(first)
    requires ReadConditions(ts[1 + first.tokens..], vs[first.values..]) == Some(rest)
    ensures var r := ReadConditions(ts, vs);
            && r.Some? && r.value.part == [first.part] + rest.part
            && r.value.tokens == 1 + first.tokens + rest.tokens && r.value.values == first.values + rest.values
  {
    hide ReadCondition;
  }

  lemma NothingRead(ts: seq<Token>, vs: seq<Value>)
    requires ts == [] || ts[0] != And
    ensures ReadConditions(ts, vs) == Some(Taken([], 0, 0))
  {
  }

  lemma ReadsAt(p: Piece, ts: seq<Token>, vs: seq<Value>)
    requires ReadsAs(p)
    ensures ReadCondition(p.tokens + ts, p.values + vs) == Some(Taken(p.condition, |p.tokens|, |p.values|))
  {
  }

  lemma {:induction false} PiecesRead(ps: seq<Piece>, ts: seq<Token>, vs: seq<Value>)
    requires forall p :: p in ps ==> ReadsAs(p)
    requires ts == [] || ts[0] != And
    ensures ReadConditions(Written(ps) + ts, BoundBy(ps) + vs)
            == Some(Taken(Conditions(ps), |Written(ps)|, |BoundBy(ps)|))
  {
    hide ReadConditions, ReadsAs;
    if ps == [] {
      NothingRead(ts, vs);
      assert Written(ps) + ts == ts && BoundBy(ps) + vs == vs;
    } else {
      var p, rest := ps[0], ps[1..];
      PiecesRead(rest, ts, vs);
      ReadsAt(p, Written(rest) + ts, BoundBy(rest) + vs);
      ReadOneMore(p.condition, p.tokens, p.values, Written(rest) + ts, BoundBy(rest) + vs,
                  Taken(Conditions(rest), |Written(rest)|, |BoundBy(rest)|));
      Assoc([And] + p.tokens, Written(rest), ts);
      Assoc(p.values, BoundBy(rest), vs);
      assert Conditions(ps) == [p.condition] + Conditions(rest);
    }
  }

  lemma {:induction false} WrittenAppend(a: seq<Piece>, b: seq<Piece>)
    ensures Written(a + b) == Written(a) + Written(b)
    ensures BoundBy(a + b) == BoundBy(a) + BoundBy(b)
  {
    if a == [] {
      assert a + b == b;
    } else {
      assert (a + b)[1..] == a[1..] + b;
      WrittenAppend(a[1..], b);
    }
  }

  lemma WrittenOne(p: Piece)
    ensures Written([p]) == [And] + p.tokens && BoundBy([p]) == p.values
  {
    assert [p][1..] == [];
  }

  // ----- The pieces of a clause -----

  function CompareHole(column: Column, op: Operator, v: Value): Piece {
    Piece([Col(column), Op(op), Hole], [v], Compare(column, op, Bound(v)))
  }

  function CompareMillis(op: Operator, ms: int): Piece {
    Piece([Col(Timestamp), Op(op), FromMillis, Hole], [Int(ms)], Compare(Timestamp, op, Millis(ms)))
  }

  function NotBlank(column: Column): Piece {
    Piece([Col(column), Op(Ne), Text("")], [], Compare(column, Ne, Bound(Str(""))))
  }

  function ContainsPiece(column: Column, text: string): Piece {
    Piece([Position, Open, Col(column), Comma, Hole, Close, IsPositive], [Str(text)], Contains(column, text))
  }

  function SincePiece(f: Filters): Piece {
    if f.sinceMs.Some? then CompareMillis(Ge, f.sinceMs.value)
    else Piece([Col(Timestamp), Op(Ge), HoursAgo(DEFAULT_WINDOW_HOURS)], [],
               Compare(Timestamp, Ge, Ago(DEFAULT_WINDOW_HOURS)))
  }

  function ScopePiece(): Piece {
    Piece([Col(EventType), Op(In), Open] + Separated(Texts(TASK_EVENT_TYPES)) + [Close], [],
          OneOf(EventType, StrValues(TASK_EVENT_TYPES)))
  }

  function StatesPiece(states: seq<string>): Piece {
    Piece([Col(State), Op(In), Open] + Separated(Holes(|states|)) + [Close], StrValues(states),
          OneOf(State, StrValues(states)))
  }

  lemma SimplePiecesRead(column: Column, op: Operator, v: Value, ms: int, text: string, f: Filters)
    ensures op != In ==> ReadsAs(CompareHole(column, op, v)) && ReadsAs(CompareMillis(op, ms))
    ensures ReadsAs(NotBlank(column)) && ReadsAs(ContainsPiece(column, text)) && ReadsAs(SincePiece(f))
  {
    if op != In {
      ShortPieceReads(CompareHole(column, op, v));
      ShortPieceReads(CompareMillis(op, ms));
    }
    ShortPieceReads(NotBlank(column));
    ShortPieceReads(SincePiece(f));
    forall ts: seq<Token>, vs: seq<Value>
      ensures var p := ContainsPiece(column, text);
              ReadCondition(p.tokens + ts, p.values + vs) == Some(Taken(p.condition, |p.tokens|, |p.values|))
    {
      var all := ContainsPiece(column, text).tokens + ts;
      assert all[3..7] == [Comma, Hole, Close, IsPositive];
    }
  }

  /** A comparison: a column, an operator and an operand. */
  lemma ShortPieceReads(p: Piece)
    requires 3 <= |p.tokens| <= 4 && p.tokens[0].Col? && p.tokens[1].Op? && p.tokens[1].op != In
    requires p.condition.Compare? && p.condition.column == p.tokens[0].column && p.condition.op == p.tokens[1].op
    requires || (|p.tokens| == 4 && p.tokens[2] == FromMillis && p.tokens[3] == Hole && |p.values| == 1
                 && p.values[0].Int? && p.condition.operand == Millis(p.values[0].i))
             || (|p.tokens| == 3 && p.tokens[2] == Hole && |p.values| == 1 && p.condition.operand == Bound(p.values[0]))
             || (|p.tokens| == 3 && p.tokens[2].Text? && p.values == []
                 && p.condition.operand == Bound(Str(p.tokens[2].text)))
             || (|p.tokens| == 3 && p.tokens[2].HoursAgo? && p.values == []
                 && p.condition.operand == Ago(p.tokens[2].n))
    ensures ReadsAs(p)
  {
    forall ts: seq<Token>, vs: seq<Value>
      ensures ReadCondition(p.tokens + ts, p.values + vs) == Some(Taken(p.condition, |p.tokens|, |p.values|))
    {
      var all, bound := p.tokens + ts, p.values + vs;
      assert all[2..][0] == p.tokens[2];
      assert |p.tokens| == 4 ==> all[2..][1] == p.tokens[3];
      assert |p.values| == 1 ==> bound[0] == p.values[0];
    }
  }

  /** A placeholder with its value, or a text with none, at the head of a list. */
  ghost predicate IsItem(item: Token, values: seq<Value>, v: Value) {
    (item == Hole && values == [v]) || (item.Text? && values == [] && v == Str(item.text))
  }

  lemma LastItem(item: Token, values: seq<Value>, v: Value, ts: seq<Token>, vs: seq<Value>)
    requires IsItem(item, values, v)
    ensures ReadList([item] + [Close] + ts, values + vs) == Some(Taken([v], 2, |values|))
  {
    assert ([item] + [Close] + ts)[1] == Close;
  }

  lemma OneMoreItem(item: Token, values: seq<Value>, v: Value, ts: seq<Token>, vs: seq<Value>, rest: Taken<seq<Value>>)
    requires IsItem(item, values, v) && ReadList(ts, vs) == Some(rest)
    ensures ReadList([item, Comma] + ts, values + vs)
            == Some(Taken([v] + rest.part, 2 + rest.tokens, |values| + rest.values))
  {
    hide Separated, ReadList;
    var all, bound := [item, Comma] + ts, values + vs;
    assert all[0] == item && all[1] == Comma && all[2..] == ts;
    assert bound[|values|..] == vs && (item == Hole ==> bound[0] == v);
    ListRound(all, bound, v, rest);
  }

  /** The reader of lists takes an item, a comma, and the others. */
  lemma ListRound(ts: seq<Token>, vs: seq<Value>, v: Value, rest: Taken<seq<Value>>)
    requires |ts| >= 2 && ts[1] == Comma
    requires if ts[0] == Hole then vs != [] && vs[0] == v else ts[0].Text? && v == Str(ts[0].text)
    requires ReadList(ts[2..], if ts[0] == Hole then vs[1..] else vs) == Some(rest)
    ensures var used := if ts[0] == Hole then 1 else 0;
            ReadList(ts, vs) == Some(Taken([v] + rest.part, 2 + rest.tokens, used + rest.values))
  {
    assert vs[0..] == vs;
  }

  ghost function ListItems(texts: seq<string>, holes: bool): seq<Token> {
    if holes then Holes(|texts|) else Texts(texts)
  }

  ghost function ItemValues(texts: seq<string>, holes: bool): seq<Value> {
    if holes then StrValues(texts) else []
  }

  lemma HolesCons(n: nat)
    requires n > 0
    ensures Holes(n) == [Holes(n)[0]] + Holes(n - 1)
  {
  }

  lemma TextsCons(texts: seq<string>)
    requires texts != []
    ensures Texts(texts) == [Texts(texts)[0]] + Texts(texts[1..])
  {
  }

  lemma StrValuesCons(texts: seq<string>)
    requires texts != []
    ensures StrValues(texts) == [Str(texts[0])] + StrValues(texts[1..])
  {
  }

  lemma ItemsCons(texts: seq<string>, holes: bool)
    requires texts != []
    ensures ListItems(texts, holes) == [ListItems(texts, holes)[0]] + ListItems(texts[1..], holes)
    ensures ItemValues(texts, holes) == (if holes then [Str(texts[0])] else []) + ItemValues(texts[1..], holes)
    ensures StrValues(texts) == [Str(texts[0])] + StrValues(texts[1..])
  {
    hide Holes, Texts, StrValues;
    HolesCons(|texts|);
    TextsCons(texts);
    StrValuesCons(texts);
  }

  lemma OneText(texts: seq<string>, holes: bool)
    requires |texts| == 1
    ensures ListItems(texts, holes) == [ListItems(texts, holes)[0]]
    ensures ItemValues(texts, holes) == if holes then [Str(texts[0])] else []
    ensures StrValues(texts) == [Str(texts[0])]
  {
  }

  /** A list of placeholders reads as the values bound to it; a list of texts as those texts. */
  lemma {:induction false} ListReads(texts: seq<string>, holes: bool, ts: seq<Token>, vs: seq<Value>)
    requires texts != []
    ensures ReadList(Separated(ListItems(texts, holes)) + [Close] + ts, ItemValues(texts, holes) + vs)
            == Some(Taken(StrValues(texts), |Separated(ListItems(texts, holes))| + 1, |ItemValues(texts, holes)|))
    decreases |texts|
  {
    hide ReadList, Holes, Texts, StrValues;
    var items := ListItems(texts, holes);
    var first: seq<Value> := if holes then [Str(texts[0])] else [];
    if |texts| == 1 {
      OneText(texts, holes);
      LastItem(items[0], first, Str(texts[0]), ts, vs);
    } else {
      hide Separated, ListItems, ItemValues;
      var rest := texts[1..];
      var items', values' := ListItems(rest, holes), ItemValues(rest, holes);
      ListReads(rest, holes, ts, vs);
      OneMoreItem(items[0], first, Str(texts[0]), Separated(items') + [Close] + ts, values' + vs,
                  Taken(StrValues(rest), |Separated(items')| + 1, |values'|));
      ItemsCons(texts, holes);
      SeparatedCons(items[0], items');
      Assoc([items[0], Comma], Separated(items'), [Close]);
      Assoc([items[0], Comma], Separated(items') + [Close], ts);
      Assoc(first, values', vs);
    }
  }

  lemma {:induction false} SeparatedCons(first: Token, items: seq<Token>)
    requires items != []
    ensures Separated([first] + items) == [first, Comma] + Separated(items)
    decreases |items|
  {
    var last, init := items[|items| - 1], items[..|items| - 1];
    assert ([first] + items)[..|items|] == [first] + init;
    if |items| > 1 {
      SeparatedCons(first, init);
    }
  }

  lemma ListPiecesRead(states: seq<string>)
    ensures ReadsAs(ScopePiece())
    ensures states != [] ==> ReadsAs(StatesPiece(states))
  {
    hide ReadList, Separated, Holes, Texts;
    forall ts: seq<Token>, vs: seq<Value>
      ensures var p := ScopePiece();
              ReadCondition(p.tokens + ts, p.values + vs) == Some(Taken(p.condition, |p.tokens|, |p.values|))
    {
      var list := Separated(Texts(TASK_EVENT_TYPES)) + [Close] + ts;
      assert (ScopePiece().tokens + ts)[3..] == list;
      ListReads(TASK_EVENT_TYPES, false, ts, vs);
      assert [] + vs == vs;
    }
    if states != [] {
      forall ts: seq<Token>, vs: seq<Value>
        ensures var p := StatesPiece(states);
                ReadCondition(p.tokens + ts, p.values + vs) == Some(Taken(p.condition, |p.tokens|, |p.values|))
      {
        var list := Separated(Holes(|states|)) + [Close] + ts;
        assert (StatesPiece(states).tokens + ts)[3..] == list;
        ListReads(states, true, ts, vs);
      }
    }
  }

  // ----- The clause as pieces -----

  function UntilPieces(f: Filters): seq<Piece> {
    if f.untilMs.Some? then [CompareMillis(Le, f.untilMs.value)] else []
  }

  function NamePieces(f: Filters): seq<Piece> {
    if f.taskName.Some? then [ContainsPiece(TaskName, f.taskName.value)] else []
  }

  function StatesPieces(f: Filters): seq<Piece> {
    if f.ActiveStates().Some? then [StatesPiece(f.ActiveStates().value)] else []
  }

  function QueuePieces(f: Filters): seq<Piece> {
    if f.queue.Some? then [CompareHole(Queue, Eq, Str(f.queue.value))] else []
  }

  function WorkerPieces(f: Filters): seq<Piece> {
    if f.workerId.Some? then [CompareHole(Worker, Eq, Str(f.workerId.value))] else []
  }

  function ErrorPieces(f: Filters): seq<Piece> {
    if f.errorsOnly == Some(true) then [NotBlank(Exception)] else []
  }

  function NamedPieces(f: Filters): seq<Piece> {
    if f.requireTaskName == Some(true) then [NotBlank(TaskName)] else []
  }

  function SearchPieces(f: Filters): seq<Piece> {
    if f.search.Some? then [ContainsPiece(SearchText, f.search.value)] else []
  }

  function CursorPieces(cursorMs: Option<int>): seq<Piece> {
    if cursorMs.Some? then [CompareMillis(Lt, cursorMs.value)] else []
  }

  function Pieces(tenant: Tenant, f: Filters, cursorMs: Option<int>): seq<Piece> {
    [CompareHole(TenantId, Eq, Id(tenant))] + [SincePiece(f)] + UntilPieces(f) + [ScopePiece()] + NamePieces(f)
    + StatesPieces(f) + QueuePieces(f) + WorkerPieces(f) + ErrorPieces(f) + NamedPieces(f) + SearchPieces(f)
    + CursorPieces(cursorMs)
  }

  lemma FirstGroupsWritten(tenant: Tenant, f: Filters)
    ensures Written([CompareHole(TenantId, Eq, Id(tenant))]) == [And, Col(TenantId), Op(Eq), Hole]
    ensures BoundBy([CompareHole(TenantId, Eq, Id(tenant))]) == [Id(tenant)]
    ensures Written([SincePiece(f)]) == SinceTokens(f) && BoundBy([SincePiece(f)]) == OptInt(f.sinceMs)
    ensures Written(UntilPieces(f)) == UntilTokens(f) && BoundBy(UntilPieces(f)) == OptInt(f.untilMs)
    ensures Written([ScopePiece()]) == ScopeTokens() && BoundBy([ScopePiece()]) == []
    ensures Written(NamePieces(f)) == NameTokens(f) && BoundBy(NamePieces(f)) == OptStr(f.taskName)
  {
    hide Separated, Holes, Texts, StrValues;
    forall p: Piece
      ensures Written([p]) == [And] + p.tokens && BoundBy([p]) == p.values
    {
      WrittenOne(p);
    }
  }

  lemma MiddleGroupsWritten(f: Filters)
    ensures Written(StatesPieces(f)) == StatesTokens(f) && BoundBy(StatesPieces(f)) == StateValues(f)
    ensures Written(QueuePieces(f)) == QueueTokens(f) && BoundBy(QueuePieces(f)) == OptStr(f.queue)
    ensures Written(WorkerPieces(f)) == WorkerTokens(f) && BoundBy(WorkerPieces(f)) == OptStr(f.workerId)
  {
    hide Separated, Holes, Texts, StrValues;
    forall p: Piece
      ensures Written([p]) == [And] + p.tokens && BoundBy([p]) == p.values
    {
      WrittenOne(p);
    }
  }

  lemma LaterGroupsWritten(f: Filters, cursorMs: Option<int>)
    ensures Written(ErrorPieces(f)) == ErrorTokens(f) && BoundBy(ErrorPieces(f)) == []
    ensures Written(NamedPieces(f)) == NamedTokens(f) && BoundBy(NamedPieces(f)) == []
    ensures Written(SearchPieces(f)) == SearchTokens(f) && BoundBy(SearchPieces(f)) == OptStr(f.search)
    ensures Written(CursorPieces(cursorMs)) == CursorTokens(cursorMs)
    ensures BoundBy(CursorPieces(cursorMs)) == OptInt(cursorMs)
  {
    hide Separated, Holes, Texts, StrValues;
    forall p: Piece
      ensures Written([p]) == [And] + p.tokens && BoundBy([p]) == p.values
    {
      WrittenOne(p);
    }
  }

  /** The groups one after the other, tokens and values apart. */
  lemma PiecesWritten(tenant: Tenant, f: Filters, cursorMs: Option<int>)
    ensures Written(Pieces(tenant, f, cursorMs)) == ClauseAfter([And, Col(TenantId), Op(Eq), Hole], f, cursorMs)
    ensures BoundBy(Pieces(tenant, f, cursorMs)) == WithValues([], tenant, f) + OptInt(cursorMs)
  {
    hide Written, BoundBy, SincePiece, ScopePiece, SinceTokens, ScopeTokens, UntilTokens, NameTokens, StatesTokens,
         QueueTokens, WorkerTokens, ErrorTokens, NamedTokens, SearchTokens, CursorTokens, UntilPieces, NamePieces,
         StatesPieces, QueuePieces, WorkerPieces, ErrorPieces, NamedPieces, SearchPieces, CursorPieces,
         OptInt, OptStr, StateValues;
    FirstGroupsWritten(tenant, f);
    MiddleGroupsWritten(f);
    LaterGroupsWritten(f, cursorMs);
    assert [] + [Id(tenant)] == [Id(tenant)];
    var ps := [CompareHole(TenantId, Eq, Id(tenant))];
    WrittenAppend(ps, [SincePiece(f)]);
    ps := ps + [SincePiece(f)];
    WrittenAppend(ps, UntilPieces(f));
    ps := ps + UntilPieces(f);
    WrittenAppend(ps, [ScopePiece()]);
    assert BoundBy(ps) + [] == BoundBy(ps);
    ps := ps + [ScopePiece()];
    WrittenAppend(ps, NamePieces(f));
    ps := ps + NamePieces(f);
    WrittenAppend(ps, StatesPieces(f));
    ps := ps + StatesPieces(f);
    WrittenAppend(ps, QueuePieces(f));
    ps := ps + QueuePieces(f);
    WrittenAppend(ps, WorkerPieces(f));
    ps := ps + WorkerPieces(f);
    WrittenAppend(ps, ErrorPieces(f));
    assert BoundBy(ps) + [] == BoundBy(ps);
    ps := ps + ErrorPieces(f);
    WrittenAppend(ps, NamedPieces(f));
    assert BoundBy(ps) + [] == BoundBy(ps);
    ps := ps + NamedPieces(f);
    WrittenAppend(ps, SearchPieces(f));
    ps := ps + SearchPieces(f);
    WrittenAppend(ps, CursorPieces(cursorMs));
    ps := ps + CursorPieces(cursorMs);
  }

  /** The clause when its first condition is written as `head`. */
  function ClauseAfter(head: seq<Token>, f: Filters, cursorMs: Option<int>): seq<Token> {
    head + SinceTokens(f) + UntilTokens(f) + ScopeTokens() + NameTokens(f) + StatesTokens(f) + QueueTokens(f)
    + WorkerTokens(f) + ErrorTokens(f) + NamedTokens(f) + SearchTokens(f) + CursorTokens(cursorMs)
  }

  lemma ClauseSplits(head: seq<Token>, f: Filters, cursorMs: Option<int>)
    ensures ClauseAfter(head, f, cursorMs) == head + ClauseAfter([], f, cursorMs)
  {
    hide SinceTokens, ScopeTokens, UntilTokens, NameTokens, StatesTokens, QueueTokens, WorkerTokens, ErrorTokens,
         NamedTokens, SearchTokens, CursorTokens;
    var tail: seq<Token> := [];
    assert head + tail == head;
    Assoc(head, tail, SinceTokens(f));
    tail := tail + SinceTokens(f);
    Assoc(head, tail, UntilTokens(f));
    tail := tail + UntilTokens(f);
    Assoc(head, tail, ScopeTokens());
    tail := tail + ScopeTokens();
    Assoc(head, tail, NameTokens(f));
    tail := tail + NameTokens(f);
    Assoc(head, tail, StatesTokens(f));
    tail := tail + StatesTokens(f);
    Assoc(head, tail, QueueTokens(f));
    tail := tail + QueueTokens(f);
    Assoc(head, tail, WorkerTokens(f));
    tail := tail + WorkerTokens(f);
    Assoc(head, tail, ErrorTokens(f));
    tail := tail + ErrorTokens(f);
    Assoc(head, tail, NamedTokens(f));
    tail := tail + NamedTokens(f);
    Assoc(head, tail, SearchTokens(f));
    tail := tail + SearchTokens(f);
    Assoc(head, tail, CursorTokens(cursorMs));
    tail := tail + CursorTokens(cursorMs);
  }

  lemma AllPiecesRead(tenant: Tenant, f: Filters, cursorMs: Option<int>)
    ensures forall p :: p in Pieces(tenant, f, cursorMs) ==> ReadsAs(p)
  {
    hide ReadsAs;
    forall p | p in Pieces(tenant, f, cursorMs)
      ensures ReadsAs(p)
    {
      OnePieceReads(tenant, f, cursorMs, p);
    }
  }

  lemma OnePieceReads(tenant: Tenant, f: Filters, cursorMs: Option<int>, p: Piece)
    requires p in Pieces(tenant, f, cursorMs)
    ensures ReadsAs(p)
  {
    hide ReadsAs, ScopePiece, StatesPiece;
    forall column, v
      ensures ReadsAs(CompareHole(column, Eq, v))
    {
      SimplePiecesRead(column, Eq, v, 0, "", f);
    }
    forall op, ms | op != In
      ensures ReadsAs(CompareMillis(op, ms))
    {
      SimplePiecesRead(State, op, Int(0), ms, "", f);
    }
    forall column, text
      ensures ReadsAs(ContainsPiece(column, text)) && ReadsAs(NotBlank(column))
    {
      SimplePiecesRead(column, Eq, Int(0), 0, text, f);
    }
    forall column
      ensures ReadsAs(NotBlank(column))
    {
      SimplePiecesRead(column, Eq, Int(0), 0, "", f);
    }
    SimplePiecesRead(State, Eq, Int(0), 0, "", f);
    ListPiecesRead(if f.ActiveStates().Some? then f.ActiveStates().value else []);
  }

  const FIRST: seq<Token> := [Col(TenantId), Op(Eq), Hole]

  lemma WhereIsClause(f: Filters, cursorMs: Option<int>)
    ensures WithWhere([], f) + CursorTokens(cursorMs) == [Where] + FIRST + ClauseAfter([], f, cursorMs)
  {
    hide SinceTokens, ScopeTokens, UntilTokens, NameTokens, StatesTokens, QueueTokens, WorkerTokens, ErrorTokens,
         NamedTokens, SearchTokens, CursorTokens;
    assert [] + [Where, Col(TenantId), Op(Eq), Hole] == [Where] + FIRST;
    assert WithWhere([], f) + CursorTokens(cursorMs) == ClauseAfter([Where] + FIRST, f, cursorMs);
    ClauseSplits([Where] + FIRST, f, cursorMs);
  }

  lemma ClauseIsPieces(tenant: Tenant, f: Filters, cursorMs: Option<int>)
    ensures Written(Pieces(tenant, f, cursorMs)) == [And] + FIRST + ClauseAfter([], f, cursorMs)
  {
    hide ClauseAfter, Written, Pieces;
    PiecesWritten(tenant, f, cursorMs);
    ClauseSplits([And] + FIRST, f, cursorMs);
    assert [And] + FIRST == [And, Col(TenantId), Op(Eq), Hole];
  }

  lemma ReadsWhole(head: seq<Token>, tail: seq<Token>, bound: seq<Value>, left: seq<Value>, cs: seq<Condition>)
    requires (tail == [] && left == []) || (tail == [NewestFirst, Limit, Hole] && |left| == 1 && left[0].Int?)
    requires ReadConditions([And] + head + tail, bound + left) == Some(Taken(cs, |[And] + head|, |bound|))
    ensures ReadQuery([Where] + head + tail, bound + left)
            == Some(Query(cs, if tail == [] then None else Some(left[0].i)))
  {
    hide ReadConditions;
    var ts := [Where] + head + tail;
    assert [And] + ts[1..] == [And] + head + tail;
    assert ts[|[And] + head|..] == tail;
    assert (bound + left)[|bound|..] == left;
  }

  lemma ClauseReads(tenant: Tenant, f: Filters, cursorMs: Option<int>, tail: seq<Token>, left: seq<Value>)
    requires (tail == [] && left == []) || (tail == [NewestFirst, Limit, Hole] && |left| == 1 && left[0].Int?)
    ensures ReadQuery(WithWhere([], f) + CursorTokens(cursorMs) + tail, WithValues([], tenant, f) + OptInt(cursorMs) + left)
            == Some(Query(Conditions(Pieces(tenant, f, cursorMs)), if tail == [] then None else Some(left[0].i)))
  {
    hide ReadConditions, ReadQuery, Written, BoundBy, Pieces, WithWhere, WithValues, CursorTokens, OptInt, Conditions,
         ReadsAs, ClauseAfter, FIRST;
    var ps := Pieces(tenant, f, cursorMs);
    var rest := ClauseAfter([], f, cursorMs);
    WhereIsClause(f, cursorMs);
    ClauseIsPieces(tenant, f, cursorMs);
    PiecesWritten(tenant, f, cursorMs);
    AllPiecesRead(tenant, f, cursorMs);
    PiecesRead(ps, tail, left);
    Assoc([And], FIRST, rest);
    Assoc([Where], FIRST, rest);
    ReadsWhole(FIRST + rest, tail, BoundBy(ps), left, Conditions(ps));
  }

  // ----- The law -----

  ghost predicate CursorAllows(row: Row, cursorMs: Option<int>) {
    cursorMs.Some? ==> row.ts < cursorMs.value
  }

  ghost predicate PiecesHold(ps: seq<Piece>, row: Row, db: Database) {
    forall p :: p in ps ==> HoldsFor(p.condition, row, db)
  }

  lemma ConditionsHold(ps: seq<Piece>, row: Row, db: Database)
    ensures AllHold(Conditions(ps), row, db) <==> PiecesHold(ps, row, db)
  {
    hide HoldsFor;
    if AllHold(Conditions(ps), row, db) {
      forall p | p in ps
        ensures HoldsFor(p.condition, row, db)
      {
        var k :| 0 <= k < |ps| && ps[k] == p;
        assert Conditions(ps)[k] in Conditions(ps);
      }
    }
  }

  lemma PiecesHoldAppend(a: seq<Piece>, b: seq<Piece>, row: Row, db: Database)
    ensures PiecesHold(a + b, row, db) <==> PiecesHold(a, row, db) && PiecesHold(b, row, db)
  {
    hide HoldsFor;
  }

  lemma PiecesHoldOne(p: Piece, row: Row, db: Database)
    ensures PiecesHold([p], row, db) <==> HoldsFor(p.condition, row, db)
  {
    hide HoldsFor;
    assert p in [p];
  }

  lemma TextIn(texts: seq<string>, text: string)
    ensures Str(text) in StrValues(texts) <==> text in texts
  {
    if text in texts {
      var k :| 0 <= k < |texts| && texts[k] == text;
      assert StrValues(texts)[k] == Str(text);
    }
  }

  /** Each group holds exactly when its filter is absent or met. */
  lemma FirstGroupsHold(tenant: Tenant, f: Filters, row: Row, db: Database)
    ensures PiecesHold([CompareHole(TenantId, Eq, Id(tenant))], row, db) <==> row.tenant == tenant
    ensures PiecesHold([SincePiece(f)], row, db)
            <==> row.ts >= (if f.sinceMs.Some? then f.sinceMs.value else db.now - 24 * 60 * 60 * 1000)
    ensures PiecesHold(UntilPieces(f), row, db) <==> (f.untilMs.Some? ==> row.ts <= f.untilMs.value)
    ensures PiecesHold([ScopePiece()], row, db) <==> row.eventType in TASK_EVENT_TYPES
    ensures PiecesHold(NamePieces(f), row, db) <==> (f.taskName.Some? ==> db.contains(row.taskName, f.taskName.value))
  {
    hide PiecesHold, StrValues, Searchable;
    forall p: Piece
      ensures PiecesHold([p], row, db) <==> HoldsFor(p.condition, row, db)
    {
      PiecesHoldOne(p, row, db);
    }
    NoPiecesHold(row, db);
    TextIn(TASK_EVENT_TYPES, row.eventType);
  }

  lemma MiddleGroupsHold(f: Filters, row: Row, db: Database)
    ensures PiecesHold(StatesPieces(f), row, db)
            <==> (f.states.Some? && f.states.value != [] ==> row.state in f.states.value)
    ensures PiecesHold(QueuePieces(f), row, db) <==> (f.queue.Some? ==> row.queue == f.queue.value)
    ensures PiecesHold(WorkerPieces(f), row, db) <==> (f.workerId.Some? ==> row.worker == f.workerId.value)
  {
    hide PiecesHold, StrValues;
    forall p: Piece
      ensures PiecesHold([p], row, db) <==> HoldsFor(p.condition, row, db)
    {
      PiecesHoldOne(p, row, db);
    }
    NoPiecesHold(row, db);
    if f.ActiveStates().Some? {
      TextIn(f.ActiveStates().value, row.state);
    }
  }

  lemma LaterGroupsHold(f: Filters, cursorMs: Option<int>, row: Row, db: Database)
    ensures PiecesHold(ErrorPieces(f), row, db) <==> (f.errorsOnly == Some(true) ==> row.exception != "")
    ensures PiecesHold(NamedPieces(f), row, db) <==> (f.requireTaskName == Some(true) ==> row.taskName != "")
    ensures PiecesHold(SearchPieces(f), row, db)
            <==> (f.search.Some? ==> db.contains(Searchable(row), f.search.value))
    ensures PiecesHold(CursorPieces(cursorMs), row, db) <==> CursorAllows(row, cursorMs)
  {
    hide PiecesHold, StrValues, Searchable;
    forall p: Piece
      ensures PiecesHold([p], row, db) <==> HoldsFor(p.condition, row, db)
    {
      PiecesHoldOne(p, row, db);
    }
    NoPiecesHold(row, db);
  }

  lemma NoPiecesHold(row: Row, db: Database)
    ensures PiecesHold([], row, db)
  {
  }

  /** The conditions of the pieces are the filters. */
  lemma ConditionsMean(tenant: Tenant, f: Filters, cursorMs: Option<int>, row: Row, db: Database)
    ensures AllHold(Conditions(Pieces(tenant, f, cursorMs)), row, db)
            <==> Meets(row, tenant, f, db) && CursorAllows(row, cursorMs)
  {
    hide PiecesHold, HoldsFor, SincePiece, ScopePiece, UntilPieces, NamePieces, StatesPieces, QueuePieces, WorkerPieces,
         ErrorPieces, NamedPieces, SearchPieces, CursorPieces, AllHold, Conditions, CompareHole;
    ConditionsHold(Pieces(tenant, f, cursorMs), row, db);
    FirstGroupsHold(tenant, f, row, db);
    MiddleGroupsHold(f, row, db);
    LaterGroupsHold(f, cursorMs, row, db);
    var ps := [CompareHole(TenantId, Eq, Id(tenant))];
    PiecesHoldAppend(ps, [SincePiece(f)], row, db);
    ps := ps + [SincePiece(f)];
    PiecesHoldAppend(ps, UntilPieces(f), row, db);
    ps := ps + UntilPieces(f);
    PiecesHoldAppend(ps, [ScopePiece()], row, db);
    ps := ps + [ScopePiece()];
    PiecesHoldAppend(ps, NamePieces(f), row, db);
    ps := ps + NamePieces(f);
    PiecesHoldAppend(ps, StatesPieces(f), row, db);
    ps := ps + StatesPieces(f);
    PiecesHoldAppend(ps, QueuePieces(f), row, db);
    ps := ps + QueuePieces(f);
    PiecesHoldAppend(ps, WorkerPieces(f), row, db);
    ps := ps + WorkerPieces(f);
    PiecesHoldAppend(ps, ErrorPieces(f), row, db);
    ps := ps + ErrorPieces(f);
    PiecesHoldAppend(ps, NamedPieces(f), row, db);
    ps := ps + NamedPieces(f);
    PiecesHoldAppend(ps, SearchPieces(f), row, db);
    ps := ps + SearchPieces(f);
    PiecesHoldAppend(ps, CursorPieces(cursorMs), row, db);
    ps := ps + CursorPieces(cursorMs);
  }

  /**
   For every filter, cursor and limit, the list query and its values pair up with nothing missing or
   left over, and the rows it selects are exactly the tenant's task events that meet every active
   filter and are older than the cursor.
   */
  lemma ListQueryMeans(tenant: Tenant, limit: nat, f: Filters, cursorMs: Option<int>)
    ensures var q := ReadQuery(ListTokens(f, cursorMs), ListValues(tenant, limit, f, cursorMs));
            && q.Some? && q.value.limit == Some(limit)
            && forall row, db :: AllHold(q.value.conditions, row, db)
                                 <==> Meets(row, tenant, f, db) && CursorAllows(row, cursorMs)
  {
    ClauseReads(tenant, f, cursorMs, [NewestFirst, Limit, Hole], [Int(limit)]);
    forall row, db
      ensures AllHold(Conditions(Pieces(tenant, f, cursorMs)), row, db)
              <==> Meets(row, tenant, f, db) && CursorAllows(row, cursorMs)
    {
      ConditionsMean(tenant, f, cursorMs, row, db);
    }
  }

  /** The count query, which is the clause alone, counts the same rows without cursor or limit. */
  lemma CountQueryMeans(tenant: Tenant, f: Filters)
    ensures var q := ReadQuery(WithWhere([], f), WithValues([], tenant, f));
            && q.Some? && q.value.limit == None
            && forall row, db :: AllHold(q.value.conditions, row, db) <==> Meets(row, tenant, f, db)
  {
    ClauseReads(tenant, f, None, [], []);
    assert WithWhere([], f) + CursorTokens(None) + [] == WithWhere([], f);
    assert WithValues([], tenant, f) + OptInt(None) + [] == WithValues([], tenant, f);
    forall row, db
      ensures AllHold(Conditions(Pieces(tenant, f, None)), row, db) <==> Meets(row, tenant, f, db)
    {
      ConditionsMean(tenant, f, None, row, db);
    }
  }
}
