/** For which rows and page sizes following the cursors shows every row. */
module TaskPagesComplete {
  import opened Wrappers
  import opened Utf8
  import opened TaskPages

  /** The rows of the snapshot from a time on. */
  function Since(snapshot: set<Row>, t: int): set<Row> {
    set r | r in snapshot && r.ts >= t
  }

  /** Every full page can end between two times: so many rows are as new as some time. */
  ghost predicate PagesEndBetweenTimes(snapshot: set<Row>, limit: nat) {
    forall m: nat | m > 0 && m * limit < |snapshot| :: exists t :: |Since(snapshot, t)| == m * limit
  }

  ghost predicate EveryRunShowsAll(snapshot: set<Row>, limit: nat)
    requires limit > 0
  {
    forall pages | IsRun(snapshot, limit, None, pages) && IsFinished(pages) ::
      (set r | r in AllRows(pages)) == snapshot
  }

  // ----- There is always a finished run -----

  lemma {:induction false} NewestRow(rows: set<Row>) returns (newest: Row)
    requires rows != {}
    ensures newest in rows && forall r :: r in rows ==> r.ts <= newest.ts
    decreases |rows|
  {
    newest :| newest in rows;
    if rows != {newest} {
      var other := NewestRow(rows - {newest});
      if other.ts > newest.ts {
        newest := other;
      }
    }
  }

  /** The first `limit` rows, newest first. */
  lemma {:induction false} TopRows(eligible: set<Row>, limit: nat) returns (rows: seq<Row>)
    ensures Distinct(rows) && NewestFirst(rows)
    ensures forall r :: r in rows ==> r in eligible
    ensures |rows| == (if |eligible| < limit then |eligible| else limit)
    ensures forall r, x :: r in eligible && r !in rows && x in rows ==> x.ts >= r.ts
    decreases limit
  {
    if limit == 0 || eligible == {} {
      rows := [];
    } else {
      var first := NewestRow(eligible);
      var rest := TopRows(eligible - {first}, limit - 1);
      rows := [first] + rest;
      TopCons(first, rest);
    }
  }

  lemma TopCons(first: Row, rest: seq<Row>)
    requires Distinct(rest) && NewestFirst(rest) && first !in rest && forall r :: r in rest ==> r.ts <= first.ts
    ensures Distinct([first] + rest) && NewestFirst([first] + rest)
  {
    var rows := [first] + rest;
    forall j, k | 0 <= j < k < |rows|
      ensures rows[j] != rows[k] && rows[j].ts >= rows[k].ts
    {
      assert rows[k] == rest[k - 1] && rest[k - 1] in rest;
    }
  }

  lemma SomePage(snapshot: set<Row>, limit: nat, cursor: Option<seq<Byte>>) returns (page: Page)
    requires limit > 0
    ensures IsPage(snapshot, limit, cursor, page)
  {
    var rows := TopRows(Eligible(snapshot, ParseCursor(cursor)), limit + 1);
    assert IsAnswer(snapshot, ParseCursor(cursor), limit + 1, rows);
    page := PageOf(rows, limit);
  }

  lemma {:induction false} SomeRun(snapshot: set<Row>, limit: nat, cursor: Option<seq<Byte>>) returns (pages: seq<Page>)
    requires limit > 0 && InRange(snapshot)
    ensures IsRun(snapshot, limit, cursor, pages) && IsFinished(pages)
    decreases |Eligible(snapshot, ParseCursor(cursor))|
  {
    hide IsPage, Eligible, ParseCursor;
    var page := SomePage(snapshot, limit, cursor);
    if page.hasMore {
      LaterEligible(snapshot, limit, cursor, page);
      var later := SomeRun(snapshot, limit, page.nextCursor);
      pages := [page] + later;
      assert pages[1..] == later;
    } else {
      pages := [page];
      assert pages[1..] == [];
    }
  }

  // ----- A page boundary and the times around it -----

  lemma MorePage(snapshot: set<Row>, limit: nat, cursor: Option<seq<Byte>>, page: Page)
    requires limit > 0 && InRange(snapshot) && IsPage(snapshot, limit, cursor, page)
    ensures page.hasMore <==> |Eligible(snapshot, ParseCursor(cursor))| > limit
  {
    hide Eligible, ParseCursor, Distinct, NewestFirst, CursorText;
    var rows :| IsAnswer(snapshot, ParseCursor(cursor), limit + 1, rows) && page == PageOf(rows, limit);
  }

  /** Where no millisecond is split, the rows since the boundary are those shown so far. */
  lemma UnsplitBoundary(snapshot: set<Row>, limit: nat, cursor: Option<seq<Byte>>, page: Page)
    requires limit > 0 && InRange(snapshot) && IsPage(snapshot, limit, cursor, page) && page.hasMore
    requires |page.data| > 0 && forall r :: r in snapshot && r.ts == Last(page).ts ==> r in page.data
    ensures var now := Eligible(snapshot, ParseCursor(cursor));
            var later := Eligible(snapshot, ParseCursor(page.nextCursor));
            && |later| + limit == |now|
            && |Since(snapshot, Last(page).ts)| == |snapshot| - |later|
  {
    hide IsPage, ParseCursor, Distinct, NewestFirst;
    PageFacts(snapshot, limit, cursor, page);
    LaterEligible(snapshot, limit, cursor, page);
    var now := Eligible(snapshot, ParseCursor(cursor));
    var later := Eligible(snapshot, ParseCursor(page.nextCursor));
    DistinctCardinality(page.data);
    var shown := set r | r in page.data;
    LastIsOldest(page);
    assert now == later + shown && later !! shown;
    assert |now| == |later| + |shown|;
    assert Since(snapshot, Last(page).ts) == snapshot - later;
  }

  /** A page ends with a full millisecond if so many of the rows left are as new as some time. */
  lemma BoundaryBetweenTimes(snapshot: set<Row>, limit: nat, cursor: Option<seq<Byte>>, page: Page, t: int)
    requires limit > 0 && InRange(snapshot) && IsPage(snapshot, limit, cursor, page) && page.hasMore
    requires |Since(snapshot, t)| == |snapshot| - |Eligible(snapshot, ParseCursor(cursor))| + limit
    ensures |page.data| > 0 && forall r :: r in snapshot && r.ts == Last(page).ts ==> r in page.data
  {
    hide IsPage, ParseCursor, Distinct, NewestFirst;
    PageFacts(snapshot, limit, cursor, page);
    LastIsOldest(page);
    DistinctCardinality(page.data);
    var now := Eligible(snapshot, ParseCursor(cursor));
    SinceMeetsEligible(snapshot, ParseCursor(cursor), t);
    var top := Since(snapshot, t) * now;
    var shown := set r | r in page.data;
    SameTop(top, shown, now, t, Last(page).ts);
    InEligible(snapshot, ParseCursor(cursor), Last(page));
  }

  /** Of the rows since t, all that are not eligible lie behind the cursor, and there are fewer of them. */
  lemma SinceMeetsEligible(snapshot: set<Row>, cursor: Option<int>, t: int)
    requires |Since(snapshot, t)| > |snapshot| - |Eligible(snapshot, cursor)|
    ensures |Since(snapshot, t) * Eligible(snapshot, cursor)|
            == |Since(snapshot, t)| - (|snapshot| - |Eligible(snapshot, cursor)|)
  {
    var now, since := Eligible(snapshot, cursor), Since(snapshot, t);
    var behind := snapshot - now;
    assert snapshot == now + behind && now !! behind;
    assert |snapshot| == |now| + |behind|;
    if cursor.Some? && t > cursor.value {
      SmallerSubset(since, behind);
    }
    assert behind <= since;
    assert since == behind + since * now && behind !! since * now;
  }

  /** Two ways to take the newest rows, as many of each, take the same rows. */
  lemma SameTop(top: set<Row>, shown: set<Row>, now: set<Row>, t: int, last: int)
    requires top <= now && shown <= now && |top| == |shown|
    requires forall r :: r in now ==> (r in top <==> r.ts >= t)
    requires forall r :: r in shown ==> r.ts >= last
    requires forall r :: r in now && r !in shown ==> r.ts <= last
    ensures top == shown
  {
    if shown <= top {
      SubsetOfSameSize(shown, top);
    } else {
      SubsetOfSameSize(top, shown);
    }
  }

  // ----- Exactly when every run shows every row -----

  lemma {:induction false} BoundariesUnsplit(snapshot: set<Row>, limit: nat, cursor: Option<seq<Byte>>, pages: seq<Page>,
                                             m: nat)
    requires limit > 0 && InRange(snapshot) && IsRun(snapshot, limit, cursor, pages)
    requires PagesEndBetweenTimes(snapshot, limit)
    requires |Eligible(snapshot, ParseCursor(cursor))| == |snapshot| - m * limit
    ensures NoTieSplit(snapshot, pages)
    decreases |pages|
  {
    hide IsPage, ParseCursor, Eligible, NoTieSplit, Since;
    if pages == [] {
      NoPagesNoSplit(snapshot);
    } else {
      var page, rest := pages[0], pages[1..];
      assert pages == [page] + rest;
      if page.hasMore {
        MorePage(snapshot, limit, cursor, page);
        assert (m + 1) * limit == m * limit + limit;
        var t :| |Since(snapshot, t)| == (m + 1) * limit;
        BoundaryBetweenTimes(snapshot, limit, cursor, page, t);
        UnsplitBoundary(snapshot, limit, cursor, page);
        BoundariesUnsplit(snapshot, limit, page.nextCursor, rest, m + 1);
        SplitHead(snapshot, page, rest);
      } else {
        assert rest == [];
        LastPageSplitsNone(snapshot, page);
        assert [page] + [] == [page];
      }
    }
  }

  lemma NoPagesNoSplit(snapshot: set<Row>)
    ensures NoTieSplit(snapshot, [])
  {
  }

  lemma {:induction false} UnsplitCounts(snapshot: set<Row>, limit: nat, cursor: Option<seq<Byte>>, pages: seq<Page>,
                                         j: nat, m: nat) returns (t: int)
    requires limit > 0 && InRange(snapshot) && IsRun(snapshot, limit, cursor, pages) && IsFinished(pages)
    requires NoTieSplit(snapshot, pages)
    requires |Eligible(snapshot, ParseCursor(cursor))| == |snapshot| - j * limit
    requires j < m && m * limit < |snapshot|
    ensures |Since(snapshot, t)| == m * limit
    decreases |pages|
  {
    hide IsPage, ParseCursor, Eligible, NoTieSplit, Since;
    var page, rest := pages[0], pages[1..];
    assert pages == [page] + rest;
    TimesGrow(j, m, limit);
    MorePage(snapshot, limit, cursor, page);
    PageFacts(snapshot, limit, cursor, page);
    SplitHead(snapshot, page, rest);
    UnsplitBoundary(snapshot, limit, cursor, page);
    assert (j + 1) * limit == j * limit + limit;
    if m == j + 1 {
      t := Last(page).ts;
    } else {
      assert rest != [];
      assert rest[|rest| - 1] == pages[|pages| - 1];
      t := UnsplitCounts(snapshot, limit, page.nextCursor, rest, j + 1, m);
    }
  }

  lemma TimesGrow(j: nat, m: nat, limit: nat)
    requires j < m
    ensures j * limit + limit <= m * limit
  {
    assert m * limit == j * limit + (m - j) * limit;
    assert (m - j - 1) * limit >= 0;
    assert (m - j) * limit == (m - j - 1) * limit + limit;
  }

  /**
   Following the cursors to the end shows every row, in every run, exactly if every multiple of the
   limit below the number of rows is the number of rows since some time.
   */
  lemma ShowsAllExactly(snapshot: set<Row>, limit: nat)
    requires limit > 0 && InRange(snapshot)
    ensures EveryRunShowsAll(snapshot, limit) <==> PagesEndBetweenTimes(snapshot, limit)
  {
    hide IsPage, ParseCursor, NoTieSplit, Since, AllRows, IsRun;
    NoCursor();
    assert Eligible(snapshot, None) == snapshot;
    if EveryRunShowsAll(snapshot, limit) {
      var pages := SomeRun(snapshot, limit, None);
      CompleteUnlessTieSplit(snapshot, limit, pages);
      forall m: nat | m > 0 && m * limit < |snapshot|
        ensures exists t :: |Since(snapshot, t)| == m * limit
      {
        var t := UnsplitCounts(snapshot, limit, None, pages, 0, m);
      }
    }
    if PagesEndBetweenTimes(snapshot, limit) {
      forall pages | IsRun(snapshot, limit, None, pages) && IsFinished(pages)
        ensures (set r | r in AllRows(pages)) == snapshot
      {
        BoundariesUnsplit(snapshot, limit, None, pages, 0);
        CompleteUnlessTieSplit(snapshot, limit, pages);
      }
    }
  }
}
