/**
 The z-score behind the throughput anomaly condition (crates/alerting/src/stats.rs), over real
 numbers and any square root.
 */
module Anomaly {
  datatype ZScore = ZScore(zscore: real, current: real, baselineMean: real)

  function Max(a: real, b: real): real {
    if a > b then a else b
  }

  ghost predicate IsRoot(root: real -> real) {
    forall x :: x >= 0.0 ==> root(x) >= 0.0 && root(x) * root(x) == x
  }

  function Deviation(root: real -> real, mean: real, variance: real): (std: real)
    ensures std >= 1.0
  {
    Max(Max(root(variance), root(mean)), 1.0)
  }

  /** From the sum and the sum of squares of the buckets that are present, out of `total` buckets. */
  function ThroughputZscore(root: real -> real, current: real, sum: real, sumSq: real, total: real): ZScore {
    if total < 1.0 then ZScore(0.0, current, 0.0)
    else
      var mean := sum / total;
      var variance := Max(sumSq / total - mean * mean, 0.0);
      ZScore((current - mean) / Deviation(root, mean, variance), current, mean)
  }

  // ----- Moments -----

  function Sum(counts: seq<real>): real {
    if counts == [] then 0.0 else Sum(counts[..|counts| - 1]) + counts[|counts| - 1]
  }

  function Square(x: real): (square: real)
    ensures square >= 0.0
  {
    x * x
  }

  function SumSq(counts: seq<real>): real {
    if counts == [] then 0.0
    else SumSq(counts[..|counts| - 1]) + Square(counts[|counts| - 1])
  }

  /** The squared distances from m. */
  function Spread(counts: seq<real>, m: real): real {
    if counts == [] then 0.0
    else Spread(counts[..|counts| - 1], m) + Square(counts[|counts| - 1] - m)
  }

  /** The counts with a zero for every absent bucket. */
  function Padded(counts: seq<real>, total: nat): (all: seq<real>)
    requires |counts| <= total
    ensures |all| == total
    decreases total
  {
    if |counts| == total then counts else Padded(counts, total - 1) + [0.0]
  }

  ghost predicate SpreadIs(spread: real, sumSq: real, sum: real, n: real, m: real) {
    spread == sumSq - 2.0 * m * sum + n * (m * m)
  }

  lemma {:induction false} SpreadFromMoments(counts: seq<real>, m: real)
    ensures SpreadIs(Spread(counts, m), SumSq(counts), Sum(counts), |counts| as real, m)
    ensures Spread(counts, m) >= 0.0
  {
    hide SpreadIs, Square;
    if counts == [] {
      NoSpread(m);
    } else {
      var init, x := counts[..|counts| - 1], counts[|counts| - 1];
      SpreadFromMoments(init, m);
      OneMoreCount(Spread(init, m), SumSq(init), Sum(init), |init| as real, m, x);
      assert |init| as real + 1.0 == |counts| as real;
    }
  }

  lemma NoSpread(m: real)
    ensures SpreadIs(0.0, 0.0, 0.0, 0.0, m)
  {
  }

  lemma OneMoreCount(spread: real, sumSq: real, sum: real, n: real, m: real, x: real)
    requires SpreadIs(spread, sumSq, sum, n, m)
    ensures SpreadIs(spread + Square(x - m), sumSq + Square(x), sum + x, n + 1.0, m)
  {
    assert (x - m) * (x - m) == x * x - 2.0 * m * x + m * m;
    assert 2.0 * m * (sum + x) == 2.0 * m * sum + 2.0 * m * x;
    assert (n + 1.0) * (m * m) == n * (m * m) + m * m;
  }

  lemma {:induction false} PaddedMoments(counts: seq<real>, total: nat)
    requires |counts| <= total
    ensures Sum(Padded(counts, total)) == Sum(counts) && SumSq(Padded(counts, total)) == SumSq(counts)
    decreases total
  {
    hide Sum, SumSq;
    if |counts| < total {
      PaddedMoments(counts, total - 1);
      WithZero(Padded(counts, total - 1));
    }
  }

  lemma WithZero(counts: seq<real>)
    ensures Sum(counts + [0.0]) == Sum(counts) && SumSq(counts + [0.0]) == SumSq(counts)
  {
    var more := counts + [0.0];
    assert more[..|more| - 1] == counts && more[|more| - 1] == 0.0;
    assert 0.0 * 0.0 == 0.0;
  }

  /**
   The variance taken from the moments of the present buckets is the mean squared distance of all
   buckets from their mean, absent ones counting as zero; so it is never negative and flooring it at
   zero changes nothing.
   */
  lemma VarianceOfAllBuckets(counts: seq<real>, total: nat)
    requires |counts| <= total && total >= 1
    ensures var n := total as real;
            var mean := Sum(counts) / n;
            var variance := SumSq(counts) / n - mean * mean;
            && mean == Sum(Padded(counts, total)) / n
            && variance == Spread(Padded(counts, total), mean) / n
            && variance >= 0.0
  {
    hide Sum, SumSq, Spread, Padded;
    var n := total as real;
    var mean := Sum(counts) / n;
    PaddedMoments(counts, total);
    SpreadFromMoments(Padded(counts, total), mean);
    MeanIdentity(Sum(counts), SumSq(counts), n, Spread(Padded(counts, total), mean));
  }

  lemma MeanIdentity(sum: real, sumSq: real, n: real, spread: real)
    requires n >= 1.0
    requires spread == sumSq - 2.0 * (sum / n) * sum + n * (sum / n * (sum / n)) && spread >= 0.0
    ensures sumSq / n - sum / n * (sum / n) == spread / n >= 0.0
  {
    var mean := sum / n;
    assert sum == mean * n;
    assert 2.0 * mean * sum == 2.0 * (n * (mean * mean));
    assert spread == sumSq - n * (mean * mean);
    assert spread / n == sumSq / n - mean * mean;
  }

  lemma SquaresAscend(a: real, b: real)
    requires 0.0 <= a <= b
    ensures a * a <= b * b
  {
    assert b * b - a * a == (b - a) * (b + a);
  }

  lemma {:induction false} MomentsNonNegative(counts: seq<real>)
    requires forall k :: 0 <= k < |counts| ==> counts[k] >= 0.0
    ensures Sum(counts) >= 0.0
  {
    if counts != [] {
      MomentsNonNegative(counts[..|counts| - 1]);
    }
  }

  lemma DeviationSquared(root: real -> real, mean: real, variance: real)
    requires IsRoot(root) && mean >= 0.0 && variance >= 0.0
    ensures var std := Deviation(root, mean, variance);
            std * std == Max(Max(variance, mean), 1.0)
  {
    var std := Deviation(root, mean, variance);
    SquaresAscend(root(variance), std);
    SquaresAscend(root(mean), std);
    SquaresAscend(1.0, std);
  }

  /**
   The z-score is the distance of the current count from the mean of all buckets, in units of a
   deviation whose square is the largest of their variance, their mean and one.
   */
  lemma ZscoreMeaning(root: real -> real, current: real, counts: seq<real>, total: nat) returns (std: real)
    requires IsRoot(root) && |counts| <= total && total >= 1
    requires forall k :: 0 <= k < |counts| ==> counts[k] >= 0.0
    ensures std >= 1.0
    ensures var z := ThroughputZscore(root, current, Sum(counts), SumSq(counts), total as real);
            var mean := Sum(Padded(counts, total)) / total as real;
            var variance := Spread(Padded(counts, total), mean) / total as real;
            z == ZScore((current - mean) / std, current, mean) && std * std == Max(Max(variance, mean), 1.0)
  {
    hide Sum, SumSq, Spread, Padded, IsRoot, Deviation, ThroughputZscore, Max;
    var n := total as real;
    VarianceOfAllBuckets(counts, total);
    MomentsNonNegative(counts);
    var mean := Sum(Padded(counts, total)) / n;
    var variance := Spread(Padded(counts, total), mean) / n;
    assert mean >= 0.0;
    std := Deviation(root, mean, variance);
    DeviationSquared(root, mean, variance);
    ScoreUnfolds(root, current, Sum(counts), SumSq(counts), n, mean, variance);
  }

  /** Without buckets there is nothing to compare with, and the score is zero. */
  lemma NoBaseline(root: real -> real, current: real, sum: real, sumSq: real, total: real)
    requires total < 1.0
    ensures var z := ThroughputZscore(root, current, sum, sumSq, total);
            z.zscore == 0.0 && z.current == current && z.baselineMean == 0.0
  {
  }

  /** The score carries the count it is about and the mean of all buckets. */
  lemma ScoreNames(root: real -> real, current: real, counts: seq<real>, total: nat)
    requires |counts| <= total && total >= 1
    ensures var z := ThroughputZscore(root, current, Sum(counts), SumSq(counts), total as real);
            z.current == current && z.baselineMean == Sum(Padded(counts, total)) / total as real
  {
    hide Sum, SumSq, Padded;
    PaddedMoments(counts, total);
  }

  lemma ScoreUnfolds(root: real -> real, current: real, sum: real, sumSq: real, n: real, mean: real, variance: real)
    requires n >= 1.0 && mean == sum / n && variance == sumSq / n - mean * mean && variance >= 0.0
    ensures ThroughputZscore(root, current, sum, sumSq, n)
            == ZScore((current - mean) / Deviation(root, mean, variance), current, mean)
  {
    hide Deviation;
    assert Max(sumSq / n - mean * mean, 0.0) == variance;
  }

  /**
   So the score has the sign of the distance from the mean and is never larger: a flat history makes
   it no infinity.
   */
  lemma ZscoreIsBounded(root: real -> real, current: real, counts: seq<real>, total: nat)
    requires IsRoot(root) && |counts| <= total && total >= 1
    requires forall k :: 0 <= k < |counts| ==> counts[k] >= 0.0
    ensures var z := ThroughputZscore(root, current, Sum(counts), SumSq(counts), total as real).zscore;
            var d := current - Sum(Padded(counts, total)) / total as real;
            && (d >= 0.0 ==> 0.0 <= z <= d) && (d <= 0.0 ==> d <= z <= 0.0)
            && (z == 0.0 <==> d == 0.0)
  {
    hide Sum, SumSq, Spread, Padded, IsRoot, ThroughputZscore, Max;
    var std := ZscoreMeaning(root, current, counts, total);
    QuotientIsBounded(current - Sum(Padded(counts, total)) / total as real, std);
  }

  lemma QuotientIsBounded(d: real, std: real)
    requires std >= 1.0
    ensures d >= 0.0 ==> 0.0 <= d / std <= d
    ensures d <= 0.0 ==> d <= d / std <= 0.0
    ensures d / std == 0.0 <==> d == 0.0
  {
    var z := d / std;
    assert z * std == d;
  }
}
