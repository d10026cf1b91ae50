/**
 Folding exception groups whose messages differ only by volatile values into one row for each
 fingerprint (apps/web/src/lib/fingerprint.ts). The fingerprint is any function of the message.
 */
module FailureGroups {
  datatype FailureRow = FailureRow(
    exception: string, count: int, firstSeen: int, lastSeen: int,
    taskNames: seq<string>, latestTaskId: string, latestTraceback: string)

  datatype Group = Group(
    key: string, count: int, firstSeen: int, lastSeen: int, taskNames: seq<string>, latestTaskId: string,
    example: string, traceback: string, samples: seq<string>, variants: nat)

  // ----- What a group says about its rows -----

  function CountOf(rows: seq<FailureRow>): int {
    if rows == [] then 0 else CountOf(rows[..|rows| - 1]) + rows[|rows| - 1].count
  }

  /** The rows with one fingerprint, in order. */
  function RowsOf(rows: seq<FailureRow>, fingerprint: string -> string, key: string): seq<FailureRow> {
    if rows == [] then []
    else
      var r := rows[|rows| - 1];
      RowsOf(rows[..|rows| - 1], fingerprint, key) + if fingerprint(r.exception) == key then [r] else []
  }

  ghost predicate IsEarliest(rows: seq<FailureRow>, t: int) {
    (exists r :: r in rows && r.firstSeen == t) && forall r :: r in rows ==> t <= r.firstSeen
  }

  /** rows[k] is the first row to reach the largest last time. */
  ghost function IsNewest(rows: seq<FailureRow>, k: int): (newest: bool)
    ensures newest ==> 0 <= k < |rows|
  {
    && 0 <= k < |rows|
    && forall j :: 0 <= j < |rows| ==>
         rows[j].lastSeen <= rows[k].lastSeen && (j < k ==> rows[j].lastSeen < rows[k].lastSeen)
  }

  ghost predicate NamesOf(rows: seq<FailureRow>, names: seq<string>) {
    forall n :: n in names <==> exists r :: r in rows && n in r.taskNames
  }

  /** The rows whose messages are listed as samples. */
  function SampleRows(rows: seq<FailureRow>): (samples: seq<FailureRow>)
    ensures |samples| == if |rows| < 3 then |rows| else 3
    ensures forall s :: s in samples ==> s in rows
    ensures rows != [] ==> forall r :: r in rows ==> r.lastSeen <= samples[0].lastSeen
  {
    if rows == [] then []
    else
      var before, r := rows[..|rows| - 1], rows[|rows| - 1];
      var samples := SampleRows(before);
      assert rows == before + [r];
      var more := if samples == [] || r.lastSeen > samples[0].lastSeen then [r] + samples else samples + [r];
      if |more| > 3 then more[..3] else more
  }

  function Messages(rows: seq<FailureRow>): (messages: seq<string>)
    ensures |messages| == |rows|
    ensures forall i :: 0 <= i < |rows| ==> messages[i] == rows[i].exception
  {
    seq(|rows|, i requires 0 <= i < |rows| => rows[i].exception)
  }

  ghost predicate Merges(g: Group, rows: seq<FailureRow>) {
    && g.count == CountOf(rows) && g.variants == |rows|
    && IsEarliest(rows, g.firstSeen)
    && (exists k :: IsNewest(rows, k) && g.lastSeen == rows[k].lastSeen && g.example == rows[k].exception
                    && g.latestTaskId == rows[k].latestTaskId && g.traceback == rows[k].latestTraceback)
    && NamesOf(rows, g.taskNames)
    && g.samples == Messages(SampleRows(rows))
  }

  // ----- Folding one row in -----

  function NewGroup(key: string, row: FailureRow): Group {
    Group(key, row.count, row.firstSeen, row.lastSeen, row.taskNames, row.latestTaskId, row.exception,
          row.latestTraceback, [row.exception], 1)
  }

  /** The update of a group by a further row, field by field. */
  method FoldRow(g: Group, row: FailureRow, ghost rows: seq<FailureRow>) returns (cur: Group)
    requires Merges(g, rows)
    ensures Merges(cur, rows + [row]) && cur.key == g.key
    ensures cur.count == g.count + row.count && cur.variants == g.variants + 1
  {
    hide Merges, IsEarliest, IsNewest, NamesOf, SampleRows, CountOf;
    cur := g;
    cur := cur.(count := cur.count + row.count);
    cur := cur.(variants := cur.variants + 1);
    cur := cur.(firstSeen := if row.firstSeen < cur.firstSeen then row.firstSeen else cur.firstSeen);
    if row.lastSeen > cur.lastSeen {
      cur := cur.(lastSeen := row.lastSeen);
      cur := cur.(latestTaskId := row.latestTaskId);
      cur := cur.(example := row.exception);
      cur := cur.(traceback := row.latestTraceback);
      cur := cur.(samples := [row.exception] + cur.samples);
    } else {
      cur := cur.(samples := cur.samples + [row.exception]);
    }
    if |cur.samples| > 3 {
      cur := cur.(samples := cur.samples[..3]);
    }
    var names := AddNames(cur.taskNames, row.taskNames);
    cur := cur.(taskNames := names);
    FoldedCounts(g, cur, rows, row);
    FoldedNewest(g, cur, rows, row);
    FoldedNames(g, cur, rows, row);
    FoldedSamples(g, cur, rows, row);
    MergesAll(cur, rows + [row]);
  }

  method AddNames(taskNames: seq<string>, more: seq<string>) returns (names: seq<string>)
    ensures taskNames <= names
    ensures forall n :: n in names <==> n in taskNames || n in more
    ensures forall j, k :: |taskNames| <= j < |names| && 0 <= k < j ==> names[k] != names[j]
  {
    names := taskNames;
    for i := 0 to |more|
      invariant taskNames <= names
      invariant forall n :: n in names <==> n in taskNames || n in more[..i]
      invariant forall j, k :: |taskNames| <= j < |names| && 0 <= k < j ==> names[k] != names[j]
    {
      assert more[..i + 1] == more[..i] + [more[i]];
      if more[i] !in names {
        names := names + [more[i]];
      }
    }
    assert more[..|more|] == more;
  }

  lemma MergesAll(g: Group, rows: seq<FailureRow>)
    requires g.count == CountOf(rows) && g.variants == |rows| && IsEarliest(rows, g.firstSeen)
    requires exists k :: IsNewest(rows, k) && g.lastSeen == rows[k].lastSeen && g.example == rows[k].exception
                         && g.latestTaskId == rows[k].latestTaskId && g.traceback == rows[k].latestTraceback
    requires NamesOf(rows, g.taskNames) && g.samples == Messages(SampleRows(rows))
    ensures Merges(g, rows)
  {
  }

  lemma FoldedCounts(g: Group, cur: Group, rows: seq<FailureRow>, row: FailureRow)
    requires Merges(g, rows)
    requires cur.count == g.count + row.count && cur.variants == g.variants + 1
    requires cur.firstSeen == if row.firstSeen < g.firstSeen then row.firstSeen else g.firstSeen
    ensures cur.count == CountOf(rows + [row]) && cur.variants == |rows + [row]|
    ensures IsEarliest(rows + [row], cur.firstSeen)
  {
    hide SampleRows, NamesOf, IsNewest;
    assert (rows + [row])[..|rows|] == rows;
    assert row in rows + [row];
    var r :| r in rows && r.firstSeen == g.firstSeen;
    assert r in rows + [row];
  }

  lemma FoldedNewest(g: Group, cur: Group, rows: seq<FailureRow>, row: FailureRow)
    requires Merges(g, rows)
    requires if row.lastSeen > g.lastSeen
             then cur.lastSeen == row.lastSeen && cur.example == row.exception
                  && cur.latestTaskId == row.latestTaskId && cur.traceback == row.latestTraceback
             else cur.lastSeen == g.lastSeen && cur.example == g.example
                  && cur.latestTaskId == g.latestTaskId && cur.traceback == g.traceback
    ensures exists k :: IsNewest(rows + [row], k) && cur.lastSeen == (rows + [row])[k].lastSeen
                        && cur.example == (rows + [row])[k].exception
                        && cur.latestTaskId == (rows + [row])[k].latestTaskId
                        && cur.traceback == (rows + [row])[k].latestTraceback
  {
    hide SampleRows, NamesOf, IsEarliest, CountOf;
    var k :| IsNewest(rows, k) && g.lastSeen == rows[k].lastSeen && g.example == rows[k].exception
             && g.latestTaskId == rows[k].latestTaskId && g.traceback == rows[k].latestTraceback;
    if row.lastSeen > g.lastSeen {
      assert IsNewest(rows + [row], |rows|);
    } else {
      assert IsNewest(rows + [row], k);
    }
  }

  lemma FoldedNames(g: Group, cur: Group, rows: seq<FailureRow>, row: FailureRow)
    requires Merges(g, rows)
    requires forall n :: n in cur.taskNames <==> n in g.taskNames || n in row.taskNames
    ensures NamesOf(rows + [row], cur.taskNames)
  {
    hide SampleRows, IsNewest, IsEarliest, CountOf;
    assert forall r :: r in rows + [row] <==> r in rows || r == row;
  }

  lemma FoldedSamples(g: Group, cur: Group, rows: seq<FailureRow>, row: FailureRow)
    requires Merges(g, rows)
    requires var more := if row.lastSeen > g.lastSeen then [row.exception] + g.samples else g.samples + [row.exception];
             cur.samples == if |more| > 3 then more[..3] else more
    ensures cur.samples == Messages(SampleRows(rows + [row]))
  {
    hide Merges, SampleRows;
    FrontIsNewest(g, rows);
    NextSamples(rows, row);
    var s := SampleRows(rows);
    SamplesOfGroup(g, rows);
  }

  lemma SamplesOfGroup(g: Group, rows: seq<FailureRow>)
    requires Merges(g, rows)
    ensures rows != [] && g.samples == Messages(SampleRows(rows))
  {
  }

  lemma FrontIsNewest(g: Group, rows: seq<FailureRow>)
    requires Merges(g, rows)
    ensures rows != [] && SampleRows(rows)[0].lastSeen == g.lastSeen
  {
    hide NamesOf, IsEarliest, CountOf, SampleRows;
    var k :| IsNewest(rows, k) && g.lastSeen == rows[k].lastSeen;
    assert rows[k] in rows && SampleRows(rows)[0] in rows;
  }

  lemma NextSamples(rows: seq<FailureRow>, row: FailureRow)
    requires rows != []
    ensures var s := SampleRows(rows);
            var more := if row.lastSeen > s[0].lastSeen then [row] + s else s + [row];
            SampleRows(rows + [row]) == if |more| > 3 then more[..3] else more
  {
    assert (rows + [row])[..|rows|] == rows;
  }
}
