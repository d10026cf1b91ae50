/**
 The task list, page by page. A page is asked for with the millisecond of the last row of the page
 before it; rows of one millisecond may come in any order, and in another order each time.
 */
module TaskPages {
  import opened Wrappers
  import opened Utf8
  import opened Decimal

  datatype Row = Row(eventId: string, ts: int)

  datatype Page = Page(data: seq<Row>, hasMore: bool, nextCursor: Option<seq<Byte>>)

  // ----- The handler -----

  function Distance(a: nat, b: nat): nat {
    if a < b then b - a else a - b
  }

  /** `limit.unwrap_or(50).clamp(1, 200)`: the allowed limit that is nearest to the one asked for. */
  function PageLimit(limit: Option<nat>): (n: nat)
    ensures 1 <= n <= 200
    ensures limit == None ==> n == 50
    ensures limit.Some? ==> forall m :: 1 <= m <= 200 ==> Distance(n, limit.value) <= Distance(m, limit.value)
  {
    match limit
    case None => 50
    case Some(n) => if n < 1 then 1 else if n > 200 then 200 else n
  }

  /** The cursor of a row: whole seconds and the milliseconds after them, as decimal text. */
  function CursorText(row: Row): seq<Byte> {
    ShowInt(row.ts / 1000 * 1000 + row.ts % 1000)
  }

  /** A missing or unreadable cursor asks for the first page. */
  function ParseCursor(cursor: Option<seq<Byte>>): Option<int> {
    match cursor
    case None => None
    case Some(text) => ParseI64(text)
  }

  function PageOf(rows: seq<Row>, limit: nat): Page
    requires limit > 0
  {
    if |rows| > limit then Page(rows[..limit], true, Some(CursorText(rows[limit - 1])))
    else Page(rows, false, None)
  }

  /** `paginate`, on the rows fetched with one row more than the limit. */
  method Paginate(fetched: seq<Row>, limit: nat) returns (page: Page)
    requires limit > 0
    ensures page == PageOf(fetched, limit)
    ensures page.data <= fetched && |page.data| <= limit && (page.hasMore <==> page.data != fetched)
    ensures page.hasMore ==> |page.data| == limit && page.nextCursor.Some?
    ensures page.hasMore && IsI64(page.data[limit - 1].ts) ==>
              ParseCursor(page.nextCursor) == Some(page.data[limit - 1].ts)
    ensures !page.hasMore ==> page.nextCursor == None
  {
    hide CursorText, ParseCursor;
    var rows := fetched;
    var hasMore := |rows| > limit;
    if hasMore {
      rows := rows[..limit];
    }
    var nextCursor := if hasMore && rows != [] then Some(CursorText(rows[|rows| - 1])) else None;
    page := Page(rows, hasMore, nextCursor);
    if hasMore && IsI64(rows[limit - 1].ts) {
      CursorRoundTrip(rows[limit - 1]);
    }
  }

  // ----- The query -----

  /** The rows of the snapshot older than the cursor. */
  function Eligible(snapshot: set<Row>, cursor: Option<int>): set<Row> {
    set r | r in snapshot && (cursor.None? || r.ts < cursor.value)
  }

  ghost predicate Distinct(rows: seq<Row>) {
    forall j, k :: 0 <= j < k < |rows| ==> rows[j] != rows[k]
  }

  ghost predicate NewestFirst(rows: seq<Row>) {
    forall j, k :: 0 <= j < k < |rows| ==> rows[j].ts >= rows[k].ts
  }

  /** `ORDER BY timestamp DESC LIMIT limit` over the eligible rows; ties in any order. */
  ghost predicate IsAnswer(snapshot: set<Row>, cursor: Option<int>, limit: nat, rows: seq<Row>) {
    var eligible := Eligible(snapshot, cursor);
    && Distinct(rows) && NewestFirst(rows)
    && (forall r :: r in rows ==> r in eligible)
    && |rows| == (if |eligible| < limit then |eligible| else limit)
    && (forall r, x :: r in eligible && r !in rows && x in rows ==> x.ts >= r.ts)
  }

  ghost predicate IsPage(snapshot: set<Row>, limit: nat, cursor: Option<seq<Byte>>, page: Page)
    requires limit > 0
  {
    exists rows :: IsAnswer(snapshot, ParseCursor(cursor), limit + 1, rows) && page == PageOf(rows, limit)
  }

  /** Pages fetched one after the other, each with the cursor of the one before. */
  ghost predicate IsRun(snapshot: set<Row>, limit: nat, cursor: Option<seq<Byte>>, pages: seq<Page>)
    requires limit > 0
    decreases |pages|
  {
    pages == [] ||
    (IsPage(snapshot, limit, cursor, pages[0])
     && (|pages| > 1 ==> pages[0].hasMore)
     && IsRun(snapshot, limit, pages[0].nextCursor, pages[1..]))
  }

  /** The run went on until a page had nothing after it. */
  ghost predicate IsFinished(pages: seq<Page>) {
    pages != [] && !pages[|pages| - 1].hasMore
  }

  ghost function AllRows(pages: seq<Page>): seq<Row> {
    if pages == [] then [] else pages[0].data + AllRows(pages[1..])
  }

  ghost predicate InRange(snapshot: set<Row>) {
    forall r :: r in snapshot ==> IsI64(r.ts)
  }

  // ----- One page -----

  function Last(page: Page): Row
    requires page.data != []
  {
    page.data[|page.data| - 1]
  }

  lemma CursorRoundTrip(row: Row)
    requires IsI64(row.ts)
    ensures ParseCursor(Some(CursorText(row))) == Some(row.ts)
  {
    ParseShow(row.ts);
  }

  lemma {:induction false} DistinctCardinality(rows: seq<Row>)
    requires Distinct(rows)
    ensures |set r | r in rows| == |rows|
  {
    if rows != [] {
      var init, last := rows[..|rows| - 1], rows[|rows| - 1];
      DistinctCardinality(init);
      assert rows == init + [last];
      assert (set r | r in rows) == (set r | r in init) + {last};
    }
  }

  /** A page without more holds all that is left; one with more is full, and nothing left is newer. */
  lemma PageFacts(snapshot: set<Row>, limit: nat, cursor: Option<seq<Byte>>, page: Page)
    requires limit > 0 && InRange(snapshot) && IsPage(snapshot, limit, cursor, page)
    ensures Distinct(page.data) && NewestFirst(page.data)
    ensures forall r :: r in page.data ==> r in Eligible(snapshot, ParseCursor(cursor))
    ensures !page.hasMore ==> (set r | r in page.data) == Eligible(snapshot, ParseCursor(cursor))
    ensures page.hasMore ==>
              && |page.data| == limit
              && ParseCursor(page.nextCursor) == Some(Last(page).ts)
              && (forall r :: r in Eligible(snapshot, ParseCursor(cursor)) && r !in page.data ==> r.ts <= Last(page).ts)
              && |Eligible(snapshot, ParseCursor(cursor))| > limit
  {
    hide Eligible, NewestFirst, ParseCursor, CursorText;
    var rows :| IsAnswer(snapshot, ParseCursor(cursor), limit + 1, rows) && page == PageOf(rows, limit);
    if page.hasMore {
      FullPage(snapshot, limit, ParseCursor(cursor), rows);
      assert rows[limit - 1] in rows;
      InEligible(snapshot, ParseCursor(cursor), rows[limit - 1]);
      CursorRoundTrip(rows[limit - 1]);
    } else {
      DistinctCardinality(rows);
      SubsetOfSameSize((set r | r in rows), Eligible(snapshot, ParseCursor(cursor)));
    }
  }

  lemma InEligible(snapshot: set<Row>, cursor: Option<int>, r: Row)
    requires r in Eligible(snapshot, cursor)
    ensures r in snapshot && (cursor.None? || r.ts < cursor.value)
  {
  }

  lemma FullPage(snapshot: set<Row>, limit: nat, cursor: Option<int>, rows: seq<Row>)
    requires 0 < limit < |rows| && IsAnswer(snapshot, cursor, limit + 1, rows)
    ensures Distinct(rows[..limit]) && NewestFirst(rows[..limit])
    ensures forall r :: r in rows[..limit] ==> r in Eligible(snapshot, cursor)
    ensures forall r :: r in Eligible(snapshot, cursor) && r !in rows[..limit] ==> r.ts <= rows[limit - 1].ts
    ensures |Eligible(snapshot, cursor)| > limit
  {
    hide Eligible;
    var last := rows[limit - 1];
    assert last in rows;
    assert forall k :: 0 <= k < limit ==> rows[k] in rows[..limit] by {
      assert forall k :: 0 <= k < limit ==> rows[..limit][k] == rows[k];
    }
    forall r | r in Eligible(snapshot, cursor) && r !in rows[..limit]
      ensures r.ts <= last.ts
    {
      if r in rows {
        var k :| 0 <= k < |rows| && rows[k] == r;
      }
    }
  }

  lemma SubsetOfSameSize(a: set<Row>, b: set<Row>)
    requires a <= b && |a| == |b|
    ensures a == b
  {
    if a != b {
      var x :| x in b && x !in a;
      SmallerSubset(a, b - {x});
    }
  }

  lemma {:induction false} SmallerSubset(a: set<Row>, b: set<Row>)
    requires a <= b
    ensures |a| <= |b|
    decreases |a|
  {
    if a != {} {
      var x :| x in a;
      SmallerSubset(a - {x}, b - {x});
    }
  }

  // ----- All pages -----

  /** What the pages after a page with more can show: rows older than its last row. */
  lemma LaterEligible(snapshot: set<Row>, limit: nat, cursor: Option<seq<Byte>>, page: Page)
    requires limit > 0 && InRange(snapshot) && IsPage(snapshot, limit, cursor, page) && page.hasMore
    ensures var now := Eligible(snapshot, ParseCursor(cursor));
            var later := Eligible(snapshot, ParseCursor(page.nextCursor));
            && later <= now
            && (forall r :: r in later <==> r in now && r.ts < Last(page).ts)
            && (forall r, x :: r in later && x in page.data ==> r.ts < x.ts)
            && |later| + limit <= |now|
  {
    hide IsPage, ParseCursor, Distinct, NewestFirst, Eligible;
    PageFacts(snapshot, limit, cursor, page);
    var now := Eligible(snapshot, ParseCursor(cursor));
    var later := Eligible(snapshot, ParseCursor(page.nextCursor));
    LastIsOldest(page);
    InEligible(snapshot, ParseCursor(cursor), Last(page));
    OlderEligible(snapshot, ParseCursor(cursor), Last(page).ts);
    DistinctCardinality(page.data);
    OlderAreFewer(now, later, set r | r in page.data);
  }

  lemma LastIsOldest(page: Page)
    requires page.data != [] && NewestFirst(page.data)
    ensures Last(page) in page.data && forall x :: x in page.data ==> x.ts >= Last(page).ts
  {
    forall x | x in page.data
      ensures x.ts >= Last(page).ts
    {
      var k :| 0 <= k < |page.data| && page.data[k] == x;
    }
  }

  lemma OlderEligible(snapshot: set<Row>, cursor: Option<int>, ts: int)
    requires cursor.Some? ==> ts < cursor.value
    ensures forall r :: r in Eligible(snapshot, Some(ts)) <==> r in Eligible(snapshot, cursor) && r.ts < ts
  {
  }

  lemma OlderAreFewer(now: set<Row>, later: set<Row>, shown: set<Row>)
    requires later <= now && shown <= now && later !! shown
    ensures |later| + |shown| <= |now|
  {
    SmallerSubset(later + shown, now);
  }

  lemma {:induction false} RunRows(snapshot: set<Row>, limit: nat, cursor: Option<seq<Byte>>, pages: seq<Page>)
    requires limit > 0 && InRange(snapshot) && IsRun(snapshot, limit, cursor, pages)
    ensures forall r :: r in AllRows(pages) ==> r in Eligible(snapshot, ParseCursor(cursor))
    ensures Distinct(AllRows(pages)) && NewestFirst(AllRows(pages))
    decreases |pages|
  {
    if pages != [] {
      var page, later := pages[0], AllRows(pages[1..]);
      PageFacts(snapshot, limit, cursor, page);
      if |pages| == 1 {
        assert pages[1..] == [];
        assert AllRows(pages) == page.data;
      } else {
        RunRows(snapshot, limit, page.nextCursor, pages[1..]);
        LaterEligible(snapshot, limit, cursor, page);
        JoinRows(page.data, later);
      }
    }
  }

  lemma JoinRows(a: seq<Row>, b: seq<Row>)
    requires Distinct(a) && NewestFirst(a) && Distinct(b) && NewestFirst(b)
    requires forall x, r :: x in a && r in b ==> r.ts < x.ts
    ensures Distinct(a + b) && NewestFirst(a + b)
  {
    forall j, k | 0 <= j < k < |a + b|
      ensures (a + b)[j] != (a + b)[k] && (a + b)[j].ts >= (a + b)[k].ts
    {
      if j < |a| <= k {
        assert a[j] in a && b[k - |a|] in b;
      }
    }
  }

  /** No row is returned twice, and the pages run from new to old, whatever the order of ties. */
  lemma NoRowTwice(snapshot: set<Row>, limit: nat, pages: seq<Page>)
    requires limit > 0 && InRange(snapshot) && IsRun(snapshot, limit, None, pages)
    ensures Distinct(AllRows(pages)) && NewestFirst(AllRows(pages))
    ensures forall r :: r in AllRows(pages) ==> r in snapshot
  {
    RunRows(snapshot, limit, None, pages);
  }

  /** Following the cursors ends: every page with more leaves fewer rows for the next. */
  lemma {:induction false} RunsEnd(snapshot: set<Row>, limit: nat, cursor: Option<seq<Byte>>, pages: seq<Page>)
    requires limit > 0 && InRange(snapshot) && IsRun(snapshot, limit, cursor, pages)
    ensures |pages| > 1 ==> (|pages| - 1) * limit < |Eligible(snapshot, ParseCursor(cursor))|
    decreases |pages|
  {
    hide IsPage, Eligible, ParseCursor;
    if |pages| > 1 {
      LaterEligible(snapshot, limit, cursor, pages[0]);
      RunsEnd(snapshot, limit, pages[0].nextCursor, pages[1..]);
      PageFacts(snapshot, limit, cursor, pages[0]);
      assert (|pages| - 1) * limit == (|pages| - 2) * limit + limit;
    }
  }

  /** No page ends between two rows of one millisecond. */
  ghost predicate NoTieSplit(snapshot: set<Row>, pages: seq<Page>) {
    forall k, r | 0 <= k < |pages| && pages[k].hasMore && pages[k].data != [] && r in snapshot
                  && r.ts == Last(pages[k]).ts :: r in pages[k].data
  }

  lemma {:induction false} FinishedRows(snapshot: set<Row>, limit: nat, cursor: Option<seq<Byte>>, pages: seq<Page>)
    requires limit > 0 && InRange(snapshot) && IsRun(snapshot, limit, cursor, pages) && IsFinished(pages)
    ensures (forall r :: r in Eligible(snapshot, ParseCursor(cursor)) ==> r in AllRows(pages))
            <==> NoTieSplit(snapshot, pages)
    decreases |pages|
  {
    hide IsPage, ParseCursor, NoTieSplit, NewestFirst, Distinct;
    var page, rest := pages[0], pages[1..];
    var now := Eligible(snapshot, ParseCursor(cursor));
    PageFacts(snapshot, limit, cursor, page);
    assert pages == [page] + rest;
    if |pages| == 1 {
      assert rest == [];
      assert AllRows(pages) == page.data;
      assert pages == [page];
      LastPageSplitsNone(snapshot, page);
    } else {
      var later := Eligible(snapshot, ParseCursor(page.nextCursor));
      LaterEligible(snapshot, limit, cursor, page);
      assert rest[|rest| - 1] == pages[|pages| - 1];
      FinishedRows(snapshot, limit, page.nextCursor, rest);
      RunRows(snapshot, limit, page.nextCursor, rest);
      SplitHead(snapshot, page, rest);
      assert Last(page) in page.data;
      forall r | r in snapshot && r.ts == Last(page).ts
        ensures r in now && r !in AllRows(rest)
      {
      }
    }
  }

  lemma LastPageSplitsNone(snapshot: set<Row>, page: Page)
    requires !page.hasMore
    ensures NoTieSplit(snapshot, [page])
  {
  }

  lemma SplitHead(snapshot: set<Row>, page: Page, rest: seq<Page>)
    requires page.hasMore && page.data != []
    ensures NoTieSplit(snapshot, [page] + rest)
            <==> NoTieSplit(snapshot, rest)
                 && forall r :: r in snapshot && r.ts == Last(page).ts ==> r in page.data
  {
    var pages := [page] + rest;
    assert pages[0] == page;
    assert forall k :: 0 <= k < |rest| ==> pages[k + 1] == rest[k];
  }

  /** A finished run shows every row exactly when no page boundary falls inside one millisecond. */
  lemma CompleteUnlessTieSplit(snapshot: set<Row>, limit: nat, pages: seq<Page>)
    requires limit > 0 && InRange(snapshot) && IsRun(snapshot, limit, None, pages) && IsFinished(pages)
    ensures (set r | r in AllRows(pages)) == snapshot <==> NoTieSplit(snapshot, pages)
  {
    FinishedRows(snapshot, limit, None, pages);
    RunRows(snapshot, limit, None, pages);
    assert Eligible(snapshot, None) == snapshot;
  }

  /** When milliseconds are distinct, the pages are exactly the snapshot, strictly newest first. */
  lemma DistinctTimesAreComplete(snapshot: set<Row>, limit: nat, pages: seq<Page>)
    requires limit > 0 && InRange(snapshot) && IsRun(snapshot, limit, None, pages) && IsFinished(pages)
    requires forall r, x :: r in snapshot && x in snapshot && r.ts == x.ts ==> r == x
    ensures (set r | r in AllRows(pages)) == snapshot
    ensures forall j, k :: 0 <= j < k < |AllRows(pages)| ==> AllRows(pages)[j].ts > AllRows(pages)[k].ts
  {
    var rows := AllRows(pages);
    RunRows(snapshot, limit, None, pages);
    forall k, r | 0 <= k < |pages| && pages[k].hasMore && pages[k].data != [] && r in snapshot
                  && r.ts == Last(pages[k]).ts
      ensures r in pages[k].data
    {
      PageRowsShown(pages, k, Last(pages[k]));
    }
    CompleteUnlessTieSplit(snapshot, limit, pages);
    forall j, k | 0 <= j < k < |rows|
      ensures rows[j].ts > rows[k].ts
    {
      assert rows[j] in rows && rows[k] in rows;
    }
  }

  lemma {:induction false} PageRowsShown(pages: seq<Page>, k: nat, r: Row)
    requires k < |pages| && r in pages[k].data
    ensures r in AllRows(pages)
  {
    if k > 0 {
      PageRowsShown(pages[1..], k - 1, r);
    }
  }

  /** Two rows of one millisecond and pages of one row: the second row is never shown. */
  lemma TieIsLost()
    ensures var a, b := Row("a", 5), Row("b", 5);
            var pages := [Page([a], true, Some(CursorText(a))), Page([], false, None)];
            IsRun({a, b}, 1, None, pages) && IsFinished(pages) && b !in AllRows(pages)
  {
    hide CursorText, ParseCursor, IsPage, Eligible, IsAnswer;
    var a, b := Row("a", 5), Row("b", 5);
    var cursor := Some(CursorText(a));
    var first, second := Page([a], true, cursor), Page([], false, None);
    FirstOfTie(a, b);
    NothingBehindTie(a, b);
    OnePageRun({a, b}, cursor, second);
    var pages := [first, second];
    assert pages[1..] == [second] && [second][1..] == [];
    assert AllRows([]) == [];
    assert AllRows([second]) == [] + [];
    assert AllRows(pages) == [a] + AllRows([second]);
  }

  lemma FirstOfTie(a: Row, b: Row)
    requires a != b && a.ts == b.ts
    ensures IsPage({a, b}, 1, None, Page([a], true, Some(CursorText(a))))
  {
    hide CursorText, ParseCursor, IsPage;
    NoCursor();
    assert Eligible({a, b}, None) == {a, b};
    assert IsAnswer({a, b}, None, 2, [a, b]);
    AnswerGivesPage({a, b}, 1, None, [a, b]);
    assert [a, b][..1] == [a];
  }

  lemma NothingBehindTie(a: Row, b: Row)
    requires a.ts == b.ts && IsI64(a.ts)
    ensures IsPage({a, b}, 1, Some(CursorText(a)), Page([], false, None))
  {
    hide CursorText, ParseCursor, IsPage;
    CursorRoundTrip(a);
    assert Eligible({a, b}, Some(a.ts)) == {};
    assert IsAnswer({a, b}, Some(a.ts), 2, []);
    AnswerGivesPage({a, b}, 1, Some(CursorText(a)), []);
  }

  lemma AnswerGivesPage(snapshot: set<Row>, limit: nat, cursor: Option<seq<Byte>>, rows: seq<Row>)
    requires limit > 0 && IsAnswer(snapshot, ParseCursor(cursor), limit + 1, rows)
    ensures IsPage(snapshot, limit, cursor, PageOf(rows, limit))
  {
  }

  lemma OnePageRun(snapshot: set<Row>, cursor: Option<seq<Byte>>, page: Page)
    requires IsPage(snapshot, 1, cursor, page)
    ensures IsRun(snapshot, 1, cursor, [page])
  {
    assert [page][1..] == [];
  }

  lemma NoCursor()
    ensures ParseCursor(None) == None
  {
  }
}
