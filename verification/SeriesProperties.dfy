/** What the buckets of a chart promise about the rows of the window. */
module SeriesProperties {
  import opened Series

  // ----- Widths -----

  /** The widths a chart may have: a listed step, or whole days. */
  ghost predicate Readable(width: int) {
    width in STEPS || (width > 0 && width % 1440 == 0)
  }

  /** The chosen width is readable and wide enough. */
  lemma NiceStepFits(minutes: int, target: int)
    requires minutes >= 1 && target >= 1
    ensures Readable(NiceStep(minutes, target)) && NiceStep(minutes, target) * target >= minutes
  {
    var k := FindStep(minutes, target, 0);
    if k == |STEPS| {
      var c := CeilDiv(minutes, target * 1440);
      CeilIs(minutes, target * 1440);
      MulLess(c, 0, target * 1440);
      assert NiceStep(minutes, target) == c * 1440;
      assert c * 1440 * target == c * (target * 1440);
    } else {
      assert STEPS[k] in STEPS;
    }
  }

  /** No readable width below the chosen one is wide enough. */
  lemma NiceStepIsLeast(minutes: int, target: int, width: int)
    requires minutes >= 1 && target >= 1 && Readable(width) && width * target >= minutes
    ensures NiceStep(minutes, target) <= width
  {
    hide FindStep, CeilDiv;
    var k := FindStep(minutes, target, 0);
    if width in STEPS {
      ListedIsLeast(minutes, target, width);
    } else if k < |STEPS| {
      StepsAscend(k, |STEPS| - 1);
    } else {
      DaysAreLeast(minutes, target, width);
    }
  }

  lemma ListedIsLeast(minutes: int, target: int, width: int)
    requires target >= 1 && width in STEPS && width * target >= minutes
    ensures FindStep(minutes, target, 0) < |STEPS| && STEPS[FindStep(minutes, target, 0)] <= width
  {
    var k := FindStep(minutes, target, 0);
    var j :| 0 <= j < |STEPS| && STEPS[j] == width;
    assert STEPS[j] * target >= minutes;
    assert j >= k;
    StepsAscend(k, j);
  }

  lemma DaysAreLeast(minutes: int, target: int, width: int)
    requires target >= 1 && width % 1440 == 0 && width * target >= minutes
    ensures CeilDiv(minutes, target * 1440) * 1440 <= width
  {
    hide CeilDiv;
    var days := width / 1440;
    assert width == days * 1440;
    assert days * (target * 1440) == days * 1440 * target == width * target;
    CeilAtMost(minutes, target * 1440, days);
  }

  lemma StepsAscend(j: nat, k: nat)
    requires j <= k < |STEPS|
    ensures STEPS[j] <= STEPS[k] <= 1440
  {
  }

  // ----- The buckets cover the window -----

  lemma WindowIsMinutes(start: int, end: int)
    requires start <= end
    ensures end - start < WindowMinutes(start, end) * MINUTE + MINUTE / 2
    ensures (end - start) % MINUTE == 0 ==> end - start <= WindowMinutes(start, end) * MINUTE
  {
    var d := end - start;
    FloorIs(2 * d + MINUTE, 2 * MINUTE);
    if d % MINUTE == 0 {
      var m := d / MINUTE;
      assert d == m * MINUTE;
    }
  }

  /** At most two buckets more than asked for, and one more if the window is a whole number of minutes. */
  lemma FewBuckets(start: int, end: int, target: int)
    requires start <= end && target >= 1
    ensures BucketMs(start, end, target) > 0
    ensures var width := BucketMs(start, end, target);
            var n := BucketCount(FirstBucket(start, width), end, width);
            n <= target + 2 && ((end - start) % MINUTE == 0 ==> n <= target + 1)
  {
    hide NiceStep, WindowMinutes, CeilDiv;
    var minutes := WindowMinutes(start, end);
    var step := NiceStep(minutes, target);
    WidthIsPositive(start, end, target);
    var width := step * MINUTE;
    assert width == BucketMs(start, end, target);
    var first := FirstBucket(start, width);
    FloorIs(start, width);
    WindowIsMinutes(start, end);
    NiceStepFits(minutes, target);
    assert target * width == step * target * MINUTE >= minutes * MINUTE;
    assert (target + 1) * width == target * width + width;
    assert (target + 2) * width == target * width + 2 * width;
    CeilAtMost(end - first, width, target + 2);
    if (end - start) % MINUTE == 0 {
      CeilAtMost(end - first, width, target + 1);
    }
  }

  /** The first bucket begins at the start or less than a width before it; the last one ends at the end or later. */
  lemma BucketsCoverWindow(start: int, end: int, width: int)
    requires start <= end && width > 0
    ensures var first := FirstBucket(start, width);
            first <= start < first + width && end <= first + BucketCount(first, end, width) * width
  {
    var first := FirstBucket(start, width);
    FloorIs(start, width);
    CeilIs(end - first, width);
    MulLess(CeilDiv(end - first, width), BucketCount(first, end, width), width);
  }

  /** A time lies in exactly the bucket that bucketIndex names, unless it lies outside all of them. */
  lemma IndexFindsBucket(buckets: seq<Bucket>, rows: seq<Row>, start: int, end: int, width: int, t: int, i: nat)
    requires Bucketized(buckets, rows, start, end, width) && i < |buckets|
    ensures |buckets| > 1 ==> buckets[1].t == buckets[0].t + width
    ensures buckets[i].t <= t < buckets[i].t + width ==> BucketIndex(buckets, t) == i
    ensures buckets[0].t <= t < buckets[|buckets| - 1].t + width && BucketIndex(buckets, t) == i
            ==> buckets[i].t <= t < buckets[i].t + width
  {
    hide SumOf, FirstBucket, BucketCount;
    var n := |buckets|;
    var x := t - buckets[0].t;
    assert n > 1 ==> buckets[1].t == buckets[0].t + width;
    assert buckets[i].t == buckets[0].t + i * width;
    FloorExactly(x, i, width);
    if n > 1 {
      FloorIs(x, width);
      MulLess(x / width, 0, width);
      assert buckets[n - 1].t == buckets[0].t + (n - 1) * width;
      MulLess(n, x / width, width);
      assert n * width == (n - 1) * width + width;
    }
  }

  /** The length in minutes is the nearest whole number, the higher of two, and never below one. */
  lemma WindowIsNearest(start: int, end: int, minutes: int)
    ensures WindowMinutes(start, end) == minutes
            <==> minutes >= 1 && 2 * (end - start) < 2 * minutes * MINUTE + MINUTE
                 && (minutes == 1 || 2 * (end - start) >= 2 * minutes * MINUTE - MINUTE)
  {
    var x := 2 * (end - start) + MINUTE;
    FloorExactly(x, minutes, 2 * MINUTE);
    FloorIs(x, 2 * MINUTE);
  }

  lemma NoBucketNoIndex(t: int)
    ensures BucketIndex([], t) == -1
  {
  }

  /** Times before the first bucket go to the first, times behind the last one to the last. */
  lemma IndexClamps(buckets: seq<Bucket>, rows: seq<Row>, start: int, end: int, width: int, t: int)
    requires Bucketized(buckets, rows, start, end, width)
    ensures |buckets| > 0 && (|buckets| > 1 ==> buckets[1].t == buckets[0].t + width)
    ensures t < buckets[0].t ==> BucketIndex(buckets, t) == 0
    ensures t >= buckets[|buckets| - 1].t + width ==> BucketIndex(buckets, t) == |buckets| - 1
  {
    hide SumOf, FirstBucket, BucketCount;
    var n := |buckets|;
    CountOfBuckets(buckets, rows, start, end, width);
    assert n > 1 ==> buckets[1].t == buckets[0].t + width;
    if n > 1 {
      var x := t - buckets[0].t;
      FloorIs(x, width);
      MulLess(0, x / width, width);
      assert buckets[n - 1].t == buckets[0].t + (n - 1) * width;
      assert n * width == (n - 1) * width + width;
      MulLess(x / width, n - 1, width);
    }
  }

  // ----- Field by field -----

  /** What one field of the rows with `from <= minute < to` adds up to. */
  ghost function FieldSum(rows: seq<Row>, from: int, to: int, field: Sums -> real): real {
    if rows == [] then 0.0
    else (if from <= rows[0].minute < to then field(rows[0].counts) else 0.0) + FieldSum(rows[1..], from, to, field)
  }

  lemma {:induction false} FieldSumSnoc(rows: seq<Row>, last: Row, from: int, to: int, field: Sums -> real)
    ensures FieldSum(rows + [last], from, to, field)
            == FieldSum(rows, from, to, field) + if from <= last.minute < to then field(last.counts) else 0.0
  {
    if rows == [] {
      assert rows + [last] == [last] && [last][1..] == [];
    } else {
      assert (rows + [last])[1..] == rows[1..] + [last];
      FieldSumSnoc(rows[1..], last, from, to, field);
    }
  }

  /** Every field of the sums is the sum of that field. */
  lemma {:induction false} SumsByField(rows: seq<Row>, from: int, to: int)
    ensures var s := SumOf(rows, from, to);
            && s.succeeded as real == FieldSum(rows, from, to, (c: Sums) => c.succeeded as real)
            && s.failed as real == FieldSum(rows, from, to, (c: Sums) => c.failed as real)
            && s.retried as real == FieldSum(rows, from, to, (c: Sums) => c.retried as real)
            && s.revoked as real == FieldSum(rows, from, to, (c: Sums) => c.revoked as real)
            && s.total as real == FieldSum(rows, from, to, (c: Sums) => c.total as real)
            && s.runtime == FieldSum(rows, from, to, (c: Sums) => c.runtime)
  {
    hide FieldSum;
    if rows == [] {
      NoFields(from, to);
    } else {
      var init, last := rows[..|rows| - 1], rows[|rows| - 1];
      assert rows == init + [last];
      SumsByField(init, from, to);
      FieldSumSnoc(init, last, from, to, (c: Sums) => c.succeeded as real);
      FieldSumSnoc(init, last, from, to, (c: Sums) => c.failed as real);
      FieldSumSnoc(init, last, from, to, (c: Sums) => c.retried as real);
      FieldSumSnoc(init, last, from, to, (c: Sums) => c.revoked as real);
      FieldSumSnoc(init, last, from, to, (c: Sums) => c.total as real);
      FieldSumSnoc(init, last, from, to, (c: Sums) => c.runtime);
    }
  }

  lemma NoFields(from: int, to: int)
    ensures forall field: Sums -> real :: FieldSum([], from, to, field) == 0.0
  {
  }

  // ----- Conservation -----

  lemma {:induction false} SumSplits(rows: seq<Row>, from: int, mid: int, to: int)
    requires from <= mid <= to
    ensures Add(SumOf(rows, from, mid), SumOf(rows, mid, to)) == SumOf(rows, from, to)
  {
    if rows != [] {
      SumSplits(rows[..|rows| - 1], from, mid, to);
    }
  }

  lemma {:induction false} SumOfNothing(rows: seq<Row>, from: int, to: int)
    requires from >= to
    ensures SumOf(rows, from, to) == NOTHING
  {
    if rows != [] {
      SumOfNothing(rows[..|rows| - 1], from, to);
    }
  }

  function AddAll(buckets: seq<Bucket>): Sums {
    if buckets == [] then NOTHING else Add(AddAll(buckets[..|buckets| - 1]), buckets[|buckets| - 1].sums)
  }

  function Total(rows: seq<Row>): Sums {
    if rows == [] then NOTHING else Add(Total(rows[..|rows| - 1]), rows[|rows| - 1].counts)
  }

  lemma {:induction false} AddBuckets(buckets: seq<Bucket>, rows: seq<Row>, start: int, end: int, width: int, k: nat)
    requires Bucketized(buckets, rows, start, end, width) && k <= |buckets|
    ensures var first := FirstBucket(start, width);
            AddAll(buckets[..k]) == SumOf(rows, first, first + k * width)
  {
    hide SumOf, FirstBucket, BucketCount;
    var first := FirstBucket(start, width);
    if k == 0 {
      SumOfNothing(rows, first, first);
    } else {
      AddBuckets(buckets, rows, start, end, width, k - 1);
      assert buckets[..k][..k - 1] == buckets[..k - 1];
      MulLess(0, k - 1, width);
      assert k * width == (k - 1) * width + width;
      SumSplits(rows, first, first + (k - 1) * width, first + k * width);
    }
  }

  /** What the buckets count is exactly what the rows between the first bucket and the end of the last one count. */
  lemma TotalsAreConserved(buckets: seq<Bucket>, rows: seq<Row>, start: int, end: int, width: int)
    requires Bucketized(buckets, rows, start, end, width)
    ensures var first := FirstBucket(start, width);
            AddAll(buckets) == SumOf(rows, first, first + |buckets| * width)
  {
    AddBuckets(buckets, rows, start, end, width, |buckets|);
    assert buckets[..|buckets|] == buckets;
  }

  /** The buckets stop short of the end: a row at the end itself finds no bucket. */
  predicate EndsOnEdge(start: int, end: int, width: int)
    requires width > 0
  {
    end > FirstBucket(start, width) && (end - FirstBucket(start, width)) % width == 0
  }

  lemma CeilOfMultiple(d: int, width: int)
    requires width > 0
    ensures CeilDiv(d, width) * width == d <==> d % width == 0
  {
    var c, m := CeilDiv(d, width), d / width;
    FloorExactly(d, c, width);
    assert d == m * width + d % width;
    assert (-m) * width == -(m * width);
    FloorExactly(-d, -m, width);
  }

  lemma EdgeIsEnd(start: int, end: int, width: int)
    requires start <= end && width > 0
    ensures var first := FirstBucket(start, width);
            end == first + BucketCount(first, end, width) * width <==> EndsOnEdge(start, end, width)
  {
    hide CeilDiv, FirstBucket;
    var first := FirstBucket(start, width);
    var d := end - first;
    BucketsCoverWindow(start, end, width);
    CeilIs(d, width);
    CeilOfMultiple(d, width);
    MulLess(CeilDiv(d, width), 1, width);
    assert 1 * width == width;
  }

  lemma {:induction false} TotalOfWindow(rows: seq<Row>, from: int, to: int)
    requires forall r :: r in rows ==> from <= r.minute < to
    ensures SumOf(rows, from, to) == Total(rows)
  {
    if rows != [] {
      assert forall r :: r in rows[..|rows| - 1] ==> r in rows;
      TotalOfWindow(rows[..|rows| - 1], from, to);
    }
  }

  /**
   For rows of the window [start, end], the buckets count every row, except that rows at the end
   itself are lost exactly if the end falls on the edge of a bucket.
   */
  lemma OnlyTheEdgeIsLost(buckets: seq<Bucket>, rows: seq<Row>, start: int, end: int, width: int)
    requires start <= end && width > 0 && Bucketized(buckets, rows, start, end, width)
    requires forall r :: r in rows ==> start <= r.minute <= end
    ensures var lost := if EndsOnEdge(start, end, width) then SumOf(rows, end, end + 1) else NOTHING;
            Add(AddAll(buckets), lost) == Total(rows)
  {
    hide FirstBucket, BucketCount, SumOf, Total, Add, AddAll, Bucketized;
    var first := FirstBucket(start, width);
    var to := first + |buckets| * width;
    BucketsCoverWindow(start, end, width);
    EdgeIsEnd(start, end, width);
    TotalsAreConserved(buckets, rows, start, end, width);
    CountOfBuckets(buckets, rows, start, end, width);
    if EndsOnEdge(start, end, width) {
      SumSplits(rows, first, end, end + 1);
      TotalOfWindow(rows, first, end + 1);
    } else {
      TotalOfWindow(rows, first, to);
      AddNothing(AddAll(buckets));
    }
  }

  lemma CountOfBuckets(buckets: seq<Bucket>, rows: seq<Row>, start: int, end: int, width: int)
    requires Bucketized(buckets, rows, start, end, width)
    ensures width > 0 && |buckets| == BucketCount(FirstBucket(start, width), end, width)
  {
  }

  lemma AddNothing(a: Sums)
    ensures Add(a, NOTHING) == a
  {
  }

  /** An hour that ends on the minute: a row at its last moment is in no bucket. */
  lemma LastMomentIsLost(buckets: seq<Bucket>, row: Row)
    requires row.minute == 60 * MINUTE && Bucketized(buckets, [row], 0, 60 * MINUTE, MINUTE)
    ensures BucketMs(0, 60 * MINUTE, 60) == MINUTE && AddAll(buckets) == NOTHING
  {
    assert EndsOnEdge(0, 60 * MINUTE, MINUTE);
    OnlyTheEdgeIsLost(buckets, [row], 0, 60 * MINUTE, MINUTE);
    assert [row][..0] == [];
    assert SumOf([row], 60 * MINUTE, 60 * MINUTE + 1) == Total([row]);
  }
}
