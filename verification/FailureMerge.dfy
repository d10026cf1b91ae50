/** Merging the failure rows of a page into groups, the largest group first. */
module FailureMerge {
  import opened FailureGroups

  // ----- Groups by key -----

  ghost predicate DistinctKeys(groups: seq<Group>) {
    forall j, k :: 0 <= j < k < |groups| ==> groups[j].key != groups[k].key
  }

  /** One group for each fingerprint among the rows, folded from its rows. */
  ghost predicate Grouped(groups: seq<Group>, rows: seq<FailureRow>, fingerprint: string -> string) {
    && DistinctKeys(groups)
    && (forall g :: g in groups ==> Merges(g, RowsOf(rows, fingerprint, g.key)))
    && forall r :: r in rows ==> exists g :: g in groups && g.key == fingerprint(r.exception)
  }

  /** Where the group of a key is; past the end if there is none. */
  function FindKey(groups: seq<Group>, key: string): (k: nat)
    ensures k <= |groups|
    ensures k < |groups| ==> groups[k].key == key
    ensures k == |groups| ==> forall g :: g in groups ==> g.key != key
  {
    if groups == [] then 0
    else if groups[0].key == key then 0
    else
      assert groups == [groups[0]] + groups[1..];
      1 + FindKey(groups[1..], key)
  }

  function TotalCount(groups: seq<Group>): int {
    if groups == [] then 0 else groups[0].count + TotalCount(groups[1..])
  }

  function TotalVariants(groups: seq<Group>): nat {
    if groups == [] then 0 else groups[0].variants + TotalVariants(groups[1..])
  }

  lemma {:induction false} TotalsAppend(groups: seq<Group>, g: Group)
    ensures TotalCount(groups + [g]) == TotalCount(groups) + g.count
    ensures TotalVariants(groups + [g]) == TotalVariants(groups) + g.variants
  {
    if groups == [] {
      assert [g][1..] == [] && groups + [g] == [g];
    } else {
      TotalsAppend(groups[1..], g);
      assert (groups + [g])[1..] == groups[1..] + [g];
    }
  }

  lemma {:induction false} TotalsUpdate(groups: seq<Group>, k: nat, g: Group)
    requires k < |groups|
    ensures TotalCount(groups[k := g]) == TotalCount(groups) - groups[k].count + g.count
    ensures TotalVariants(groups[k := g]) == TotalVariants(groups) - groups[k].variants + g.variants
  {
    if k == 0 {
      assert groups[0 := g][1..] == groups[1..];
    } else {
      TotalsUpdate(groups[1..], k - 1, g);
      assert groups[k := g][1..] == groups[1..][k - 1 := g];
    }
  }

  // ----- Order -----

  /** Larger groups first, and of equal ones the one seen last. */
  predicate Precedes(a: Group, b: Group) {
    a.count > b.count || (a.count == b.count && a.lastSeen > b.lastSeen)
  }

  ghost predicate InOrder(groups: seq<Group>) {
    forall j, k :: 0 <= j < k < |groups| ==> !Precedes(groups[k], groups[j])
  }

  lemma OrderExactly(groups: seq<Group>)
    ensures InOrder(groups)
            <==> forall j, k :: 0 <= j < k < |groups| ==>
                   groups[j].count > groups[k].count
                   || (groups[j].count == groups[k].count && groups[j].lastSeen >= groups[k].lastSeen)
  {
  }

  /** Behind everything that it does not precede: sorting is stable. */
  function InsertGroup(g: Group, groups: seq<Group>): (out: seq<Group>)
    ensures forall x :: x in out <==> x == g || x in groups
    ensures |out| == |groups| + 1
  {
    if groups == [] then [g]
    else if Precedes(g, groups[0]) then [g] + groups
    else
      assert groups == [groups[0]] + groups[1..];
      [groups[0]] + InsertGroup(g, groups[1..])
  }

  function SortGroups(groups: seq<Group>): (out: seq<Group>)
    ensures forall x :: x in out <==> x in groups
    ensures |out| == |groups|
  {
    if groups == [] then []
    else
      assert groups == groups[..|groups| - 1] + [groups[|groups| - 1]];
      InsertGroup(groups[|groups| - 1], SortGroups(groups[..|groups| - 1]))
  }

  /** Where the first row of a group is; past the end if there is none. */
  ghost function FirstRow(rows: seq<FailureRow>, fingerprint: string -> string, key: string): (k: nat)
    ensures k <= |rows| && (k < |rows| ==> fingerprint(rows[k].exception) == key)
    ensures forall j :: 0 <= j < k ==> fingerprint(rows[j].exception) != key
  {
    if rows == [] || fingerprint(rows[0].exception) == key then 0 else 1 + FirstRow(rows[1..], fingerprint, key)
  }

  /** Where size and last time do not decide, the group of the lower rank is first. */
  ghost predicate TiesInOrder(groups: seq<Group>, rank: string -> int) {
    forall j, k :: 0 <= j < k < |groups| && AreTied(groups[j], groups[k]) ==> rank(groups[j].key) < rank(groups[k].key)
  }

  predicate AreTied(a: Group, b: Group) {
    a.count == b.count && a.lastSeen == b.lastSeen
  }

  lemma TiesCons(first: Group, rest: seq<Group>, rank: string -> int)
    requires TiesInOrder(rest, rank)
    requires forall x :: x in rest && AreTied(first, x) ==> rank(first.key) < rank(x.key)
    ensures TiesInOrder([first] + rest, rank)
  {
    hide AreTied;
    var all := [first] + rest;
    forall j, k | 0 <= j < k < |all| && AreTied(all[j], all[k])
      ensures rank(all[j].key) < rank(all[k].key)
    {
      assert all[k] == rest[k - 1] && rest[k - 1] in rest;
    }
  }

  lemma TiesHead(groups: seq<Group>, rank: string -> int)
    requires groups != [] && TiesInOrder(groups, rank)
    ensures TiesInOrder(groups[1..], rank)
    ensures forall x :: x in groups[1..] && AreTied(groups[0], x) ==> rank(groups[0].key) < rank(x.key)
  {
    hide AreTied;
  }

  lemma {:induction false} InsertKeepsTies(g: Group, groups: seq<Group>, rank: string -> int)
    requires InOrder(groups) && TiesInOrder(groups, rank) && forall x :: x in groups ==> rank(x.key) < rank(g.key)
    ensures TiesInOrder(InsertGroup(g, groups), rank)
  {
    hide InOrder, TiesInOrder;
    if groups == [] {
      NoTies(rank);
      TiesCons(g, [], rank);
      assert [g] + [] == [g];
    } else if Precedes(g, groups[0]) {
      forall x | x in groups
        ensures !AreTied(g, x)
      {
        FrontPrecedes(groups, x);
      }
      TiesCons(g, groups, rank);
    } else {
      RestInOrder(groups);
      TiesHead(groups, rank);
      assert groups == [groups[0]] + groups[1..];
      InsertKeepsTies(g, groups[1..], rank);
      TiesCons(groups[0], InsertGroup(g, groups[1..]), rank);
    }
  }

  lemma NoTies(rank: string -> int)
    ensures TiesInOrder([], rank)
  {
  }

  ghost predicate RanksAscend(groups: seq<Group>, rank: string -> int) {
    forall j, k :: 0 <= j < k < |groups| ==> rank(groups[j].key) < rank(groups[k].key)
  }

  lemma {:induction false} SortKeepsTies(groups: seq<Group>, rank: string -> int)
    requires RanksAscend(groups, rank)
    ensures InOrder(SortGroups(groups)) && TiesInOrder(SortGroups(groups), rank)
    decreases |groups|
  {
    hide InOrder, Precedes, TiesInOrder;
    if groups == [] {
      NoneInOrder();
      NoTies(rank);
    } else {
      var init, last := groups[..|groups| - 1], groups[|groups| - 1];
      SortKeepsTies(init, rank);
      InsertInOrder(last, SortGroups(init));
      InsertKeepsTies(last, SortGroups(init), rank);
    }
  }

  /** The groups stand in the order of their first rows. */
  ghost predicate FoundInOrder(groups: seq<Group>, rows: seq<FailureRow>, fingerprint: string -> string) {
    && (forall g :: g in groups ==> FirstRow(rows, fingerprint, g.key) < |rows|)
    && forall j, k :: 0 <= j < k < |groups| ==>
         FirstRow(rows, fingerprint, groups[j].key) < FirstRow(rows, fingerprint, groups[k].key)
  }

  lemma {:induction false} FirstRowStays(rows: seq<FailureRow>, row: FailureRow, fingerprint: string -> string, key: string)
    ensures var k := FirstRow(rows, fingerprint, key);
            && (k < |rows| ==> FirstRow(rows + [row], fingerprint, key) == k)
            && (k == |rows| && fingerprint(row.exception) == key ==> FirstRow(rows + [row], fingerprint, key) == |rows|)
  {
    if rows == [] {
      assert rows + [row] == [row] && [row][1..] == [];
    } else {
      assert (rows + [row])[1..] == rows[1..] + [row];
      FirstRowStays(rows[1..], row, fingerprint, key);
    }
  }

  lemma FoundAppend(groups: seq<Group>, rows: seq<FailureRow>, fingerprint: string -> string, row: FailureRow, g: Group)
    requires FoundInOrder(groups, rows, fingerprint) && g.key == fingerprint(row.exception)
    requires forall r :: r in rows ==> fingerprint(r.exception) != g.key
    ensures FoundInOrder(groups + [g], rows + [row], fingerprint)
  {
    hide FirstRow;
    var all := groups + [g];
    forall x | x in all
      ensures FirstRow(rows + [row], fingerprint, x.key)
              == if x in groups then FirstRow(rows, fingerprint, x.key) else |rows|
    {
      FirstRowStays(rows, row, fingerprint, x.key);
    }
    forall j, k | 0 <= j < k < |all|
      ensures FirstRow(rows + [row], fingerprint, all[j].key) < FirstRow(rows + [row], fingerprint, all[k].key)
    {
      assert all[j] == groups[j] && all[j] in groups && all[k] in all;
      if k == |groups| {
        FirstRowStays(rows, row, fingerprint, g.key);
      } else {
        assert all[k] == groups[k] && all[k] in groups;
      }
    }
  }

  lemma FoundUpdate(groups: seq<Group>, rows: seq<FailureRow>, fingerprint: string -> string, row: FailureRow, k: nat,
                    cur: Group)
    requires FoundInOrder(groups, rows, fingerprint) && k < |groups| && groups[k].key == cur.key
    ensures FoundInOrder(groups[k := cur], rows + [row], fingerprint)
  {
    hide FirstRow;
    var all := groups[k := cur];
    forall j | 0 <= j < |all|
      ensures all[j].key == groups[j].key
      ensures FirstRow(rows + [row], fingerprint, all[j].key) == FirstRow(rows, fingerprint, groups[j].key) < |rows|
    {
      assert groups[j] in groups;
      FirstRowStays(rows, row, fingerprint, groups[j].key);
    }
  }

  /** Sorted, groups alike in size and last time keep the order in which their first rows came. */
  lemma FoundTies(groups: seq<Group>, rows: seq<FailureRow>, fingerprint: string -> string)
    requires FoundInOrder(groups, rows, fingerprint)
    ensures TiesInOrder(SortGroups(groups), key => FirstRow(rows, fingerprint, key))
  {
    hide FirstRow;
    SortKeepsTies(groups, key => FirstRow(rows, fingerprint, key));
  }

  lemma {:induction false} InsertTotals(g: Group, groups: seq<Group>)
    ensures TotalCount(InsertGroup(g, groups)) == TotalCount(groups) + g.count
    ensures TotalVariants(InsertGroup(g, groups)) == TotalVariants(groups) + g.variants
  {
    hide Precedes;
    var out := InsertGroup(g, groups);
    if groups == [] {
      assert out[1..] == [];
    } else if Precedes(g, groups[0]) {
      assert out[1..] == groups;
    } else {
      InsertTotals(g, groups[1..]);
      assert out[1..] == InsertGroup(g, groups[1..]);
    }
  }

  lemma OrderCons(g: Group, groups: seq<Group>)
    requires InOrder(groups) && forall x :: x in groups ==> !Precedes(x, g)
    ensures InOrder([g] + groups)
  {
    hide Precedes;
    var out := [g] + groups;
    forall j, k | 0 <= j < k < |out|
      ensures !Precedes(out[k], out[j])
    {
      assert out[k] == groups[k - 1] && groups[k - 1] in groups;
    }
  }

  lemma FrontPrecedes(groups: seq<Group>, x: Group)
    requires InOrder(groups) && x in groups
    ensures !Precedes(x, groups[0])
  {
    var k :| 0 <= k < |groups| && groups[k] == x;
    assert !Precedes(x, x);
  }

  lemma {:induction false} InsertInOrder(g: Group, groups: seq<Group>)
    requires InOrder(groups)
    ensures InOrder(InsertGroup(g, groups))
  {
    hide InOrder;
    if groups == [] {
      NoneInOrder();
      OrderCons(g, []);
      assert [g] + [] == [g];
    } else {
      forall x | x in groups
        ensures !Precedes(x, groups[0])
      {
        FrontPrecedes(groups, x);
      }
      if Precedes(g, groups[0]) {
        OrderCons(g, groups);
      } else {
        assert groups == [groups[0]] + groups[1..];
        RestInOrder(groups);
        InsertInOrder(g, groups[1..]);
        OrderCons(groups[0], InsertGroup(g, groups[1..]));
      }
    }
  }

  lemma NoneInOrder()
    ensures InOrder([])
  {
  }

  lemma RestInOrder(groups: seq<Group>)
    requires groups != [] && InOrder(groups)
    ensures InOrder(groups[1..])
  {
    hide Precedes;
  }

  lemma {:induction false} InsertDistinct(g: Group, groups: seq<Group>)
    requires DistinctKeys(groups) && forall x :: x in groups ==> x.key != g.key
    ensures DistinctKeys(InsertGroup(g, groups))
  {
    var out := InsertGroup(g, groups);
    if groups != [] && !Precedes(g, groups[0]) {
      InsertDistinct(g, groups[1..]);
      var rest := InsertGroup(g, groups[1..]);
      forall k | 0 < k < |out|
        ensures out[k] == rest[k - 1] && out[k].key != groups[0].key
      {
        assert rest[k - 1] in rest;
      }
    }
  }

  lemma NothingToSort()
    ensures DistinctKeys([]) && InOrder([])
  {
  }

  lemma DistinctInit(groups: seq<Group>)
    requires groups != [] && DistinctKeys(groups)
    ensures DistinctKeys(groups[..|groups| - 1])
    ensures forall x :: x in groups[..|groups| - 1] ==> x.key != groups[|groups| - 1].key
  {
  }

  lemma {:induction false} SortKeeps(groups: seq<Group>)
    requires DistinctKeys(groups)
    ensures DistinctKeys(SortGroups(groups)) && InOrder(SortGroups(groups))
    ensures TotalCount(SortGroups(groups)) == TotalCount(groups)
    ensures TotalVariants(SortGroups(groups)) == TotalVariants(groups)
  {
    hide InOrder, DistinctKeys, InsertGroup, TotalCount, TotalVariants;
    if groups == [] {
      NothingToSort();
    } else {
      var init, g := groups[..|groups| - 1], groups[|groups| - 1];
      DistinctInit(groups);
      SortKeeps(init);
      InsertInOrder(g, SortGroups(init));
      InsertTotals(g, SortGroups(init));
      InsertDistinct(g, SortGroups(init));
      TotalsAppend(init, g);
      assert groups == init + [g];
    }
  }

  // ----- Merging -----

  lemma RowsOfOneMore(rows: seq<FailureRow>, row: FailureRow, fingerprint: string -> string, key: string)
    ensures RowsOf(rows + [row], fingerprint, key)
            == if fingerprint(row.exception) == key then RowsOf(rows, fingerprint, key) + [row]
               else RowsOf(rows, fingerprint, key)
  {
    assert (rows + [row])[..|rows|] == rows;
  }

  lemma {:induction false} NoRowsOf(rows: seq<FailureRow>, fingerprint: string -> string, key: string)
    requires forall r :: r in rows ==> fingerprint(r.exception) != key
    ensures RowsOf(rows, fingerprint, key) == []
  {
    if rows != [] {
      assert rows[|rows| - 1] in rows;
      NoRowsOf(rows[..|rows| - 1], fingerprint, key);
    }
  }

  lemma GroupedUpdate(groups: seq<Group>, rows: seq<FailureRow>, fingerprint: string -> string,
                      row: FailureRow, k: nat, cur: Group)
    requires Grouped(groups, rows, fingerprint) && k < |groups|
    requires groups[k].key == cur.key == fingerprint(row.exception)
    requires Merges(cur, RowsOf(rows, fingerprint, cur.key) + [row])
    ensures Grouped(groups[k := cur], rows + [row], fingerprint)
  {
    hide Merges, RowsOf;
    var more := groups[k := cur];
    forall j | 0 <= j < |more|
      ensures Merges(more[j], RowsOf(rows + [row], fingerprint, more[j].key))
    {
      RowsOfOneMore(rows, row, fingerprint, more[j].key);
      assert groups[j] in groups;
    }
    forall r | r in rows + [row]
      ensures exists g :: g in more && g.key == fingerprint(r.exception)
    {
      if r in rows {
        var j :| 0 <= j < |groups| && groups[j].key == fingerprint(r.exception);
        assert more[j] in more;
      } else {
        assert more[k] in more;
      }
    }
  }

  lemma GroupedAppend(groups: seq<Group>, rows: seq<FailureRow>, fingerprint: string -> string, row: FailureRow)
    requires Grouped(groups, rows, fingerprint)
    requires forall g :: g in groups ==> g.key != fingerprint(row.exception)
    ensures Grouped(groups + [NewGroup(fingerprint(row.exception), row)], rows + [row], fingerprint)
  {
    hide Merges, RowsOf;
    var key := fingerprint(row.exception);
    var more := groups + [NewGroup(key, row)];
    forall g | g in more
      ensures Merges(g, RowsOf(rows + [row], fingerprint, g.key))
    {
      RowsOfOneMore(rows, row, fingerprint, g.key);
      if g !in groups {
        NoRowsOf(rows, fingerprint, key);
        NewGroupMerges(key, row);
        assert [] + [row] == [row];
      }
    }
    forall r | r in rows + [row]
      ensures exists g :: g in more && g.key == fingerprint(r.exception)
    {
      if r in rows {
        var g :| g in groups && g.key == fingerprint(r.exception);
        assert g in more;
      } else {
        assert more[|groups|] in more;
      }
    }
  }

  lemma NewGroupMerges(key: string, row: FailureRow)
    ensures Merges(NewGroup(key, row), [row])
  {
    var g := NewGroup(key, row);
    assert [row][..0] == [];
    assert IsNewest([row], 0);
    assert row in [row];
    assert SampleRows([row]) == [row];
    assert Messages([row]) == [row.exception];
  }

  method MergeFailureGroups(rows: seq<FailureRow>, fingerprint: string -> string) returns (merged: seq<Group>)
    ensures Grouped(merged, rows, fingerprint) && InOrder(merged)
    ensures forall j, k :: 0 <= j < k < |merged| ==>
              merged[j].count > merged[k].count
              || (merged[j].count == merged[k].count && merged[j].lastSeen >= merged[k].lastSeen)
    ensures TiesInOrder(merged, key => FirstRow(rows, fingerprint, key))
    ensures TotalCount(merged) == CountOf(rows) && TotalVariants(merged) == |rows|
  {
    hide Grouped, Merges, TotalCount, TotalVariants, CountOf, RowsOf, FirstRow, InOrder, TiesInOrder,
      FoundInOrder;
    var byKey: seq<Group> := [];
    NoGroups(fingerprint);
    for i := 0 to |rows|
      invariant Grouped(byKey, rows[..i], fingerprint)
      invariant TotalCount(byKey) == CountOf(rows[..i]) && TotalVariants(byKey) == i
      invariant FoundInOrder(byKey, rows[..i], fingerprint)
    {
      var row := rows[i];
      ghost var before := rows[..i];
      assert rows[..i + 1] == before + [row];
      CountOneMore(before, row);
      var key := fingerprint(row.exception);
      var k := FindKey(byKey, key);
      if k == |byKey| {
        NoRowOfKey(byKey, before, fingerprint, key);
        GroupedAppend(byKey, before, fingerprint, row);
        TotalsAppend(byKey, NewGroup(key, row));
        FoundAppend(byKey, before, fingerprint, row, NewGroup(key, row));
        byKey := byKey + [NewGroup(key, row)];
      } else {
        GroupedAt(byKey, before, fingerprint, k);
        var cur := FoldRow(byKey[k], row, RowsOf(before, fingerprint, key));
        GroupedUpdate(byKey, before, fingerprint, row, k, cur);
        TotalsUpdate(byKey, k, cur);
        FoundUpdate(byKey, before, fingerprint, row, k, cur);
        byKey := byKey[k := cur];
      }
    }
    assert rows[..|rows|] == rows;
    SortGrouped(byKey, rows, fingerprint);
    merged := SortGroups(byKey);
    FoundTies(byKey, rows, fingerprint);
    OrderExactly(merged);
  }

  lemma NoRowOfKey(groups: seq<Group>, rows: seq<FailureRow>, fingerprint: string -> string, key: string)
    requires Grouped(groups, rows, fingerprint) && forall g :: g in groups ==> g.key != key
    ensures forall r :: r in rows ==> fingerprint(r.exception) != key
  {
  }

  lemma NoGroups(fingerprint: string -> string)
    ensures Grouped([], [], fingerprint) && FoundInOrder([], [], fingerprint)
    ensures TotalCount([]) == CountOf([]) && TotalVariants([]) == 0
  {
  }

  lemma CountOneMore(rows: seq<FailureRow>, row: FailureRow)
    ensures CountOf(rows + [row]) == CountOf(rows) + row.count
  {
    assert (rows + [row])[..|rows|] == rows;
  }

  lemma GroupedAt(groups: seq<Group>, rows: seq<FailureRow>, fingerprint: string -> string, k: nat)
    requires Grouped(groups, rows, fingerprint) && k < |groups|
    ensures Merges(groups[k], RowsOf(rows, fingerprint, groups[k].key))
  {
    assert groups[k] in groups;
  }

  lemma SortGrouped(groups: seq<Group>, rows: seq<FailureRow>, fingerprint: string -> string)
    requires Grouped(groups, rows, fingerprint)
    ensures Grouped(SortGroups(groups), rows, fingerprint) && InOrder(SortGroups(groups))
    ensures TotalCount(SortGroups(groups)) == TotalCount(groups)
    ensures TotalVariants(SortGroups(groups)) == TotalVariants(groups)
  {
    hide Merges, RowsOf, SortGroups, TotalCount, TotalVariants, InOrder;
    SortKeeps(groups);
    forall r | r in rows
      ensures exists g :: g in SortGroups(groups) && g.key == fingerprint(r.exception)
    {
      var g :| g in groups && g.key == fingerprint(r.exception);
      assert g in SortGroups(groups);
    }
  }

  // ----- Samples -----

  ghost predicate NewestFirst(samples: seq<FailureRow>) {
    forall j, k :: 0 <= j < k < |samples| ==> samples[j].lastSeen >= samples[k].lastSeen
  }

  function Newer(a: int, b: int): int {
    if a > b then a else b
  }

  /**
   The third row is newer than one of the first two but not than both, and no later row is newer than
   both: it is listed behind an older one and stays there.
   */
  predicate ThirdIsMisplaced(rows: seq<FailureRow>) {
    && |rows| >= 3
    && (rows[0].lastSeen < rows[2].lastSeen || rows[1].lastSeen < rows[2].lastSeen)
    && forall k :: 2 <= k < |rows| ==> rows[k].lastSeen <= Newer(rows[0].lastSeen, rows[1].lastSeen)
  }

  lemma FirstTwo(rows: seq<FailureRow>)
    requires |rows| == 2
    ensures SampleRows(rows) == if rows[1].lastSeen > rows[0].lastSeen then [rows[1], rows[0]] else rows
  {
    assert rows[..1][..0] == [];
    assert SampleRows(rows[..1]) == [rows[0]];
    assert rows == [rows[0], rows[1]];
  }

  lemma FirstThree(rows: seq<FailureRow>)
    requires |rows| == 3
    ensures NewestFirst(SampleRows(rows)) <==> !ThirdIsMisplaced(rows)
    ensures SampleRows(rows)[0].lastSeen == Newer(Newer(rows[0].lastSeen, rows[1].lastSeen), rows[2].lastSeen)
  {
    hide SampleRows, NewestFirst;
    var two := rows[..2];
    FirstTwo(two);
    assert rows == two + [rows[2]];
    NextSamples(two, rows[2]);
    var s := SampleRows(two);
    OrderOfThree(rows[2], s[0], s[1]);
    OrderOfThree(s[0], s[1], rows[2]);
    assert [rows[2]] + s == [rows[2], s[0], s[1]] && s + [rows[2]] == [s[0], s[1], rows[2]];
    assert ThirdIsMisplaced(rows)
      <==> (rows[0].lastSeen < rows[2].lastSeen || rows[1].lastSeen < rows[2].lastSeen)
           && rows[2].lastSeen <= Newer(rows[0].lastSeen, rows[1].lastSeen);
  }

  lemma OrderOfThree(a: FailureRow, b: FailureRow, c: FailureRow)
    ensures NewestFirst([a, b, c]) <==> a.lastSeen >= b.lastSeen >= c.lastSeen
  {
    var s := [a, b, c];
    assert s[0] == a && s[1] == b && s[2] == c;
  }

  lemma TakeThree(row: FailureRow, s: seq<FailureRow>)
    requires |s| == 3
    ensures ([row] + s)[..3] == [row, s[0], s[1]] && (s + [row])[..3] == s
  {
  }

  /** A row that comes when three samples are listed either goes to the front or is not listed. */
  lemma FourthSample(rows: seq<FailureRow>, row: FailureRow)
    requires |rows| >= 3
    ensures var s := SampleRows(rows);
            SampleRows(rows + [row]) == if row.lastSeen > s[0].lastSeen then [row, s[0], s[1]] else s
    ensures SampleRows(rows)[1].lastSeen <= SampleRows(rows)[0].lastSeen
  {
    hide SampleRows;
    NextSamples(rows, row);
    var s := SampleRows(rows);
    TakeThree(row, s);
    assert s[1] in s;
  }

  lemma {:induction false} LongSamples(rows: seq<FailureRow>)
    requires |rows| >= 3
    ensures NewestFirst(SampleRows(rows)) <==> !ThirdIsMisplaced(rows)
    ensures SampleRows(rows)[0].lastSeen >= Newer(rows[0].lastSeen, rows[1].lastSeen)
    ensures SampleRows(rows)[0].lastSeen == Newer(rows[0].lastSeen, rows[1].lastSeen)
            <==> forall k :: 2 <= k < |rows| ==> rows[k].lastSeen <= Newer(rows[0].lastSeen, rows[1].lastSeen)
  {
    hide SampleRows, ThirdIsMisplaced, NewestFirst;
    if |rows| == 3 {
      FirstThree(rows);
    } else {
      var n := |rows| - 1;
      var before, row := rows[..n], rows[n];
      LongSamples(before);
      assert rows == before + [row];
      FourthSample(before, row);
      var s := SampleRows(before);
      OrderOfThree(row, s[0], s[1]);
      MisplacedWithOneMore(before, row);
      FrontIsLargest(before, row);
    }
  }

  lemma MisplacedWithOneMore(rows: seq<FailureRow>, row: FailureRow)
    requires |rows| >= 3
    ensures ThirdIsMisplaced(rows + [row])
            <==> ThirdIsMisplaced(rows) && row.lastSeen <= Newer(rows[0].lastSeen, rows[1].lastSeen)
    ensures ThirdIsMisplaced(rows)
            ==> forall k :: 2 <= k < |rows| ==> rows[k].lastSeen <= Newer(rows[0].lastSeen, rows[1].lastSeen)
  {
    var more := rows + [row];
    assert more[|rows|] == row;
    assert forall k :: 0 <= k < |rows| ==> more[k] == rows[k];
  }

  lemma FrontIsLargest(rows: seq<FailureRow>, row: FailureRow)
    requires |rows| >= 3
    ensures var top := Newer(rows[0].lastSeen, rows[1].lastSeen);
            (forall k :: 2 <= k < |rows + [row]| ==> (rows + [row])[k].lastSeen <= top)
            <==> (forall k :: 2 <= k < |rows| ==> rows[k].lastSeen <= top) && row.lastSeen <= top
  {
    var more := rows + [row];
    assert more[|rows|] == row;
    assert forall k :: 0 <= k < |rows| ==> more[k] == rows[k];
  }

  /** The samples are listed newest first unless the third row is misplaced. */
  lemma SamplesNewestFirstExactly(rows: seq<FailureRow>)
    ensures NewestFirst(SampleRows(rows)) <==> !ThirdIsMisplaced(rows)
  {
    if |rows| >= 3 {
      LongSamples(rows);
    } else if |rows| == 2 {
      FirstTwo(rows);
    }
  }

  /** Rows last seen at 3, 1 and 2 are listed in this order. */
  lemma SamplesOutOfOrder(a: FailureRow, b: FailureRow, c: FailureRow)
    requires a.lastSeen == 3 && b.lastSeen == 1 && c.lastSeen == 2
    ensures SampleRows([a, b, c]) == [a, b, c] && !NewestFirst(SampleRows([a, b, c]))
  {
    hide SampleRows;
    var two, rows := [a, b], [a, b, c];
    FirstTwo(two);
    NextSamples(two, c);
    assert two + [c] == rows;
    OrderOfThree(a, b, c);
  }
}
