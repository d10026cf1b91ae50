/**
 Grouping per-minute metric rows into equal buckets for charts (apps/web/src/lib/series.ts). Times
 are whole milliseconds.
 */
module Series {
  const MINUTE := 60000
  /** Bucket widths that people read at a glance, in minutes. */
  const STEPS: seq<int> := [1, 2, 5, 10, 15, 30, 60, 120, 180, 360, 720, 1440]

  datatype Sums = Sums(succeeded: int, failed: int, retried: int, revoked: int, total: int, runtime: real)
  datatype Row = Row(minute: int, counts: Sums)
  datatype Bucket = Bucket(t: int, sums: Sums)

  const NOTHING := Sums(0, 0, 0, 0, 0, 0.0)

  function Add(a: Sums, b: Sums): Sums {
    Sums(a.succeeded + b.succeeded, a.failed + b.failed, a.retried + b.retried, a.revoked + b.revoked,
         a.total + b.total, a.runtime + b.runtime)
  }

  // ----- Widths -----

  function CeilDiv(a: int, b: int): int
    requires b > 0
  {
    -((-a) / b)
  }

  /** Where the first step of at least `minutes / target` is. */
  function FindStep(minutes: int, target: int, from: nat): (k: nat)
    requires from <= |STEPS|
    ensures from <= k <= |STEPS|
    ensures forall j :: from <= j < k ==> STEPS[j] * target < minutes
    ensures k < |STEPS| ==> STEPS[k] * target >= minutes
    decreases |STEPS| - from
  {
    if from == |STEPS| || STEPS[from] * target >= minutes then from else FindStep(minutes, target, from + 1)
  }

  /** The first listed step that is wide enough, and whole days where there is none. */
  function NiceStep(minutes: int, target: int): int
    requires target >= 1
  {
    var k := FindStep(minutes, target, 0);
    if k < |STEPS| then STEPS[k] else CeilDiv(minutes, target * 1440) * 1440
  }

  // ----- Buckets -----

  /** `Math.round` of the length in minutes, and at least one. */
  function WindowMinutes(start: int, end: int): (minutes: int)
    ensures minutes >= 1
  {
    var rounded := (2 * (end - start) + MINUTE) / (2 * MINUTE);
    if rounded > 1 then rounded else 1
  }

  function BucketMs(start: int, end: int, target: int): int
    requires target >= 1
  {
    NiceStep(WindowMinutes(start, end), target) * MINUTE
  }

  function FirstBucket(start: int, width: int): int
    requires width > 0
  {
    start / width * width
  }

  function BucketCount(first: int, end: int, width: int): (n: int)
    requires width > 0
    ensures n >= 1
  {
    var n := CeilDiv(end - first, width);
    if n > 1 then n else 1
  }

  /** The sums of the rows with `from <= minute < to`. */
  function SumOf(rows: seq<Row>, from: int, to: int): Sums {
    if rows == [] then NOTHING
    else
      var r, sums := rows[|rows| - 1], SumOf(rows[..|rows| - 1], from, to);
      if from <= r.minute < to then Add(sums, r.counts) else sums
  }

  lemma SumOfNone(from: int, to: int)
    ensures SumOf([], from, to) == NOTHING
  {
  }

  lemma SumOfLast(rows: seq<Row>, k: nat, from: int, to: int)
    requires k < |rows|
    ensures SumOf(rows[..k + 1], from, to)
            == if from <= rows[k].minute < to then Add(SumOf(rows[..k], from, to), rows[k].counts)
               else SumOf(rows[..k], from, to)
  {
    assert rows[..k + 1][..k] == rows[..k];
  }

  // ----- Arithmetic -----

  lemma {:induction false} MulLess(a: int, b: int, w: int)
    requires w > 0
    ensures a < b ==> a * w + w <= b * w
    ensures a <= b ==> a * w <= b * w
    decreases b - a
  {
    if a < b {
      MulLess(a, b - 1, w);
      assert b * w == (b - 1) * w + w;
    }
  }

  lemma FloorIs(x: int, w: int)
    requires w > 0
    ensures x / w * w <= x < x / w * w + w
  {
    assert x == x / w * w + x % w;
  }

  /** A point lies in the half-open bucket k exactly if its floor is k. */
  lemma FloorExactly(x: int, k: int, w: int)
    requires w > 0
    ensures x / w == k <==> k * w <= x < k * w + w
  {
    FloorIs(x, w);
    MulLess(x / w, k, w);
    MulLess(k, x / w, w);
  }

  lemma CeilIs(x: int, w: int)
    requires w > 0
    ensures CeilDiv(x, w) * w - w < x <= CeilDiv(x, w) * w
  {
    FloorIs(-x, w);
    assert CeilDiv(x, w) * w == -((-x) / w * w);
  }

  lemma CeilAtMost(x: int, w: int, n: int)
    requires w > 0 && x <= n * w
    ensures CeilDiv(x, w) <= n
  {
    CeilIs(x, w);
    MulLess(n, CeilDiv(x, w), w);
  }

  // ----- The window -----

  lemma WidthIsPositive(start: int, end: int, target: int)
    requires target >= 1
    ensures BucketMs(start, end, target) >= MINUTE
    ensures NiceStep(WindowMinutes(start, end), target) >= 1
  {
    var minutes := WindowMinutes(start, end);
    if FindStep(minutes, target, 0) == |STEPS| {
      CeilIs(minutes, target * 1440);
      var c := CeilDiv(minutes, target * 1440);
      assert c * (target * 1440) > 0;
      MulLess(c, 0, target * 1440);
    }
  }

  /** A row goes into the bucket with its number. */
  lemma OneMoreRow(rows: seq<Row>, r: nat, first: int, k: nat, width: int)
    requires r < |rows| && width > 0
    ensures var from := first + k * width;
            SumOf(rows[..r + 1], from, from + width)
            == if k == (rows[r].minute - first) / width then Add(SumOf(rows[..r], from, from + width), rows[r].counts)
               else SumOf(rows[..r], from, from + width)
  {
    hide SumOf, Add;
    FloorExactly(rows[r].minute - first, k, width);
    SumOfLast(rows, r, first + k * width, first + k * width + width);
  }

  /** The buckets of a width for a window: side by side from the one that holds the start, each with the sums of its rows. */
  ghost predicate Bucketized(buckets: seq<Bucket>, rows: seq<Row>, start: int, end: int, width: int) {
    && width >= MINUTE
    && var first := FirstBucket(start, width);
       && |buckets| == BucketCount(first, end, width)
       && forall i :: 0 <= i < |buckets| ==>
            buckets[i] == Bucket(first + i * width, SumOf(rows, first + i * width, first + i * width + width))
  }

  /** Groups the rows of the window [start, end] into buckets. */
  method BucketizeRange(rows: seq<Row>, start: int, end: int, target: int) returns (buckets: array<Bucket>)
    requires target >= 1
    ensures fresh(buckets)
    ensures Bucketized(buckets[..], rows, start, end, BucketMs(start, end, target))
  {
    hide SumOf, Add, NiceStep, WindowMinutes;
    WidthIsPositive(start, end, target);
    var width := BucketMs(start, end, target);
    var first := FirstBucket(start, width);
    forall from, to
      ensures SumOf([], from, to) == NOTHING
    {
      SumOfNone(from, to);
    }
    var n := BucketCount(first, end, width);
    buckets := new Bucket[n](i => Bucket(first + i * width, NOTHING));
    for r := 0 to |rows|
      invariant fresh(buckets) && buckets.Length == n && rows[..0] == []
      invariant forall i :: 0 <= i < n ==>
                  buckets[i] == Bucket(first + i * width,
                                       SumOf(rows[..r], first + i * width, first + i * width + width))
    {
      var i := (rows[r].minute - first) / width;
      forall k | 0 <= k < n
        ensures SumOf(rows[..r + 1], first + k * width, first + k * width + width)
                == if k == i then Add(SumOf(rows[..r], first + k * width, first + k * width + width), rows[r].counts)
                   else SumOf(rows[..r], first + k * width, first + k * width + width)
      {
        OneMoreRow(rows, r, first, k, width);
      }
      if 0 <= i < n {
        buckets[i] := buckets[i].(sums := Add(buckets[i].sums, rows[r].counts));
      }
    }
    assert rows[..|rows|] == rows;
  }

  function BucketIndex(buckets: seq<Bucket>, t: int): int
    requires |buckets| > 1 ==> buckets[1].t != buckets[0].t
  {
    if buckets == [] then -1 else
    var step := if |buckets| > 1 then buckets[1].t - buckets[0].t else MINUTE;
    var i := (t - buckets[0].t) / step;
    var low := if i > 0 then i else 0;
    if low < |buckets| - 1 then low else |buckets| - 1
  }
}
