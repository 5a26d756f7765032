/** The statistics of scripts/bench/pingpong.py in exact arithmetic: percentiles that
    interpolate, spread, gaps between timestamps, and the 1/16 jitter filter (RFC 3550,
    section 6.4.1 and appendix A.8). */
module Statistics {
  import opened Messages
  import opened Moments

  // ---------------------------------------------------------------- sorting

  function Insert(x: int, xs: seq<int>): seq<int> {
    if xs == [] || x <= xs[0] then [x] + xs else [xs[0]] + Insert(x, xs[1..])
  }

  function Sort(xs: seq<int>): (s: seq<int>)
    ensures |s| == |xs|
  {
    if xs == [] then [] else
      InsertLength(xs[0], Sort(xs[1..]));
      Insert(xs[0], Sort(xs[1..]))
  }

  lemma {:induction false} InsertLength(x: int, xs: seq<int>)
    ensures |Insert(x, xs)| == |xs| + 1
  {
    if xs != [] && x > xs[0] {
      InsertLength(x, xs[1..]);
    }
  }

  ghost predicate Ascending(xs: seq<int>) {
    forall i, j | 0 <= i <= j < |xs| :: xs[i] <= xs[j]
  }

  lemma {:induction false} InsertMultiset(x: int, xs: seq<int>)
    ensures multiset(Insert(x, xs)) == multiset(xs) + multiset{x}
  {
    if xs != [] && x > xs[0] {
      InsertMultiset(x, xs[1..]);
      assert xs == [xs[0]] + xs[1..];
    }
  }

  lemma {:induction false} InsertAscending(x: int, xs: seq<int>)
    requires Ascending(xs)
    ensures var s := Insert(x, xs);
            Ascending(s) && s != [] && s[0] == if xs == [] || x <= xs[0] then x else xs[0]
  {
    if xs != [] && x > xs[0] {
      InsertAscending(x, xs[1..]);
    }
  }

  lemma {:induction false} SortCorrect(xs: seq<int>)
    ensures Ascending(Sort(xs)) && multiset(Sort(xs)) == multiset(xs)
  {
    if xs != [] {
      SortCorrect(xs[1..]);
      InsertMultiset(xs[0], Sort(xs[1..]));
      InsertAscending(xs[0], Sort(xs[1..]));
      assert xs == [xs[0]] + xs[1..];
    }
  }

  lemma {:induction false} AscendingUnique(a: seq<int>, b: seq<int>)
    requires Ascending(a) && Ascending(b) && multiset(a) == multiset(b)
    ensures a == b
  {
    assert |a| == |multiset(a)| == |b|;
    if a != [] {
      SameHead(a, b);
      TailMultiset(a);
      TailMultiset(b);
      AscendingUnique(a[1..], b[1..]);
      assert a == [a[0]] + a[1..] && b == [b[0]] + b[1..];
    }
  }

  lemma TailMultiset(a: seq<int>)
    requires a != []
    ensures multiset(a[1..]) == multiset(a) - multiset{a[0]}
  {
    assert a == [a[0]] + a[1..];
  }

  lemma SameHead(a: seq<int>, b: seq<int>)
    requires Ascending(a) && Ascending(b) && multiset(a) == multiset(b) && a != [] && b != []
    ensures a[0] == b[0]
  {
    assert a[0] in multiset(b) && b[0] in multiset(a);
  }

  // ---------------------------------------------------------------- percentiles

  function Lerp(a: real, b: real, f: real): real {
    a * (1.0 - f) + b * f
  }

  function Rank(n: nat, p: real): real
    requires n > 0
  {
    (n - 1) as real * (p / 100.0)
  }

  lemma RankBounds(n: nat, p: real)
    requires n > 0 && 0.0 <= p <= 100.0
    ensures 0.0 <= Rank(n, p) <= (n - 1) as real && 0 <= Rank(n, p).Floor <= n - 1
  {
    var x, f := (n - 1) as real, p / 100.0;
    assert 0.0 <= f <= 1.0;
    ProductWithin(x, f);
    assert Rank(n, p) == x * f;
  }

  lemma ProductOfDifference(x: real, f: real, g: real)
    ensures x * (g - f) == x * g - x * f
  {
  }

  lemma ProductMonotone(x: real, f: real, g: real)
    requires x >= 0.0 && f <= g
    ensures x * f <= x * g
  {
    ProductNonNegative(x, g - f);
    ProductOfDifference(x, f, g);
  }

  lemma ProductWithin(x: real, f: real)
    requires x >= 0.0 && 0.0 <= f <= 1.0
    ensures 0.0 <= x * f <= x
  {
    ProductNonNegative(x, f);
    ProductMonotone(x, f, 1.0);
  }

  /** The nested pct(p), in the unit of the samples, of samples in ascending order. */
  function Pct(xs: seq<int>, p: real): real
    requires xs != [] && 0.0 <= p <= 100.0
  {
    RankBounds(|xs|, p);
    if |xs| == 1 then xs[0] as real
    else
      var k := Rank(|xs|, p);
      var lo := k.Floor;
      var hi := if lo + 1 < |xs| - 1 then lo + 1 else |xs| - 1;
      Lerp(xs[lo] as real, xs[hi] as real, k - lo as real)
  }

  lemma LerpForm(a: real, b: real, d: real, f: real)
    requires b == a + d
    ensures Lerp(a, b, f) == a + d * f
  {
    assert a * (1.0 - f) == a - a * f;
    assert (a + d) * f == a * f + d * f;
  }

  lemma LerpBetween(a: real, b: real, f: real)
    requires a <= b && 0.0 <= f <= 1.0
    ensures a <= Lerp(a, b, f) <= b
  {
    LerpForm(a, b, b - a, f);
    ProductWithin(b - a, f);
  }

  lemma LerpMonotone(a: real, b: real, f: real, g: real)
    requires a <= b && f <= g
    ensures Lerp(a, b, f) <= Lerp(a, b, g)
  {
    LerpForm(a, b, b - a, f);
    LerpForm(a, b, b - a, g);
    ProductMonotone(b - a, f, g);
  }

  lemma RankMonotone(n: nat, p: real, q: real)
    requires n > 0 && p <= q
    ensures Rank(n, p) <= Rank(n, q)
  {
    ProductMonotone((n - 1) as real, p / 100.0, q / 100.0);
  }

  /** A percentile lies between the order statistics next to its rank. */
  lemma PctBetween(xs: seq<int>, p: real)
    requires xs != [] && Ascending(xs) && 0.0 <= p <= 100.0
    ensures var lo := Rank(|xs|, p).Floor;
            && 0 <= lo < |xs|
            && xs[lo] as real <= Pct(xs, p) <= xs[if lo + 1 < |xs| then lo + 1 else lo] as real
  {
    RankBounds(|xs|, p);
    var lo := Rank(|xs|, p).Floor;
    LerpBetween(xs[lo] as real, xs[if lo + 1 < |xs| - 1 then lo + 1 else |xs| - 1] as real, Rank(|xs|, p) - lo as real);
  }

  lemma PctMonotone(xs: seq<int>, p: real, q: real)
    requires xs != [] && Ascending(xs) && 0.0 <= p <= q <= 100.0
    ensures Pct(xs, p) <= Pct(xs, q)
  {
    RankBounds(|xs|, p);
    RankBounds(|xs|, q);
    var j, k := Rank(|xs|, p), Rank(|xs|, q);
    RankMonotone(|xs|, p, q);
    if j.Floor == k.Floor {
      var lo := j.Floor;
      LerpMonotone(xs[lo] as real, xs[if lo + 1 < |xs| - 1 then lo + 1 else |xs| - 1] as real, j - lo as real,
            k - lo as real);
    } else {
      PctBetween(xs, p);
      PctBetween(xs, q);
    }
  }

  lemma RankTimes(n: nat, p: real)
    requires n > 0
    ensures 100.0 * Rank(n, p) == (n - 1) as real * p
  {
  }

  lemma ScaledPart(d: real, rank: real, k: real, total: real)
    requires 100.0 * rank == total
    ensures 100.0 * (d * (rank - k)) == d * (total - 100.0 * k)
  {
    assert d * (total - 100.0 * k) == d * (100.0 * (rank - k));
  }

  /** Where rank k has been passed, but not rank k + 1. */
  lemma PctInside(xs: seq<int>, p: real, k: nat)
    requires k + 1 < |xs| && 0.0 <= p <= 100.0 && k as real <= Rank(|xs|, p) < k as real + 1.0
    ensures Pct(xs, p) == xs[k] as real + (xs[k + 1] - xs[k]) as real * (Rank(|xs|, p) - k as real)
  {
    assert Rank(|xs|, p).Floor == k;
    LerpForm(xs[k] as real, xs[k + 1] as real, (xs[k + 1] - xs[k]) as real, Rank(|xs|, p) - k as real);
  }

  lemma PctAtRank(xs: seq<int>, p: real, k: nat)
    requires k < |xs| && |xs| > 1 && 0.0 <= p <= 100.0 && Rank(|xs|, p) == k as real
    ensures Pct(xs, p) == xs[k] as real
  {
    RankBounds(|xs|, p);
    assert Rank(|xs|, p).Floor == k;
  }

  /** The percentiles go in a straight line from one sample to the next: with n samples, sample k is reached at
      p = 100 k / (n - 1). */
  lemma PctInterpolates(xs: seq<int>, p: real, k: nat, total: real)
    requires k + 1 < |xs| && 0.0 <= p <= 100.0 && total == (|xs| - 1) as real * p
    requires 100.0 * k as real <= total <= 100.0 * (k + 1) as real
    ensures 100.0 * (Pct(xs, p) - xs[k] as real) == (xs[k + 1] - xs[k]) as real * (total - 100.0 * k as real)
  {
    RankTimes(|xs|, p);
    if Rank(|xs|, p) < k as real + 1.0 {
      PctInside(xs, p, k);
      ScaledPart((xs[k + 1] - xs[k]) as real, Rank(|xs|, p), k as real, total);
    } else {
      PctAtRank(xs, p, k + 1);
    }
  }

  /** In particular it is sample k there. */
  lemma PctAtSample(xs: seq<int>, p: real, k: nat)
    requires k < |xs| && |xs| > 1 && 0.0 <= p <= 100.0 && (|xs| - 1) as real * p == 100.0 * k as real
    ensures Pct(xs, p) == xs[k] as real
  {
    RankTimes(|xs|, p);
    PctAtRank(xs, p, k);
  }

  /** And half way from a sample to the next it is their mean. */
  lemma PctHalfWay(xs: seq<int>, p: real, k: nat)
    requires k + 1 < |xs| && 0.0 <= p <= 100.0 && (|xs| - 1) as real * p == 100.0 * k as real + 50.0
    ensures Pct(xs, p) == (xs[k] + xs[k + 1]) as real / 2.0
  {
    PctInterpolates(xs, p, k, 100.0 * k as real + 50.0);
  }

  function Shift(xs: seq<int>, d: int): seq<int> {
    seq(|xs|, i requires 0 <= i < |xs| => xs[i] + d)
  }

  lemma PctShift(xs: seq<int>, d: int, p: real)
    requires xs != [] && 0.0 <= p <= 100.0
    ensures Pct(Shift(xs, d), p) == Pct(xs, p) + d as real
  {
    RankBounds(|xs|, p);
    var k := Rank(|xs|, p);
    var f := k - k.Floor as real;
    assert d as real * (1.0 - f) + d as real * f == d as real;
  }

  lemma {:induction false} SortShift(xs: seq<int>, d: int)
    ensures Sort(Shift(xs, d)) == Shift(Sort(xs), d)
  {
    if xs != [] {
      SortShift(xs[1..], d);
      assert Shift(xs, d)[1..] == Shift(xs[1..], d);
      InsertShift(xs[0], Sort(xs[1..]), d);
    }
  }

  lemma {:induction false} InsertShift(x: int, xs: seq<int>, d: int)
    ensures Insert(x + d, Shift(xs, d)) == Shift(Insert(x, xs), d)
  {
    if xs == [] || x <= xs[0] {
      assert Shift([x] + xs, d) == [x + d] + Shift(xs, d);
    } else {
      InsertShift(x, xs[1..], d);
      assert Shift(xs, d)[1..] == Shift(xs[1..], d);
      assert Shift([xs[0]] + Insert(x, xs[1..]), d) == [xs[0] + d] + Shift(Insert(x, xs[1..]), d);
    }
  }

  // ---------------------------------------------------------------- percentiles_us

  /** In microseconds, but for `variance`. */
  datatype Stats = Stats(p50: real, p95: real, p99: real, overall: Overall)
  datatype Overall = Overall(min: real, max: real, mean: real, variance: real)

  function OverallOf(xs: seq<int>): Overall
    requires xs != []
  {
    Overall(xs[0] as real / 1000.0, xs[|xs| - 1] as real / 1000.0, Mean(xs) / 1000.0, Variance(xs))
  }

  function Report(xs: seq<int>): Stats
    requires xs != []
  {
    Stats(Pct(xs, 50.0) / 1000.0, Pct(xs, 95.0) / 1000.0, Pct(xs, 99.0) / 1000.0, OverallOf(xs))
  }

  /** None stands for the not-a-number report of an empty series. */
  function PercentilesUs(samples: seq<int>): Option<Stats> {
    if samples == [] then None else Some(Report(Sort(samples)))
  }

  lemma SortedAlike(a: seq<int>, b: seq<int>)
    requires multiset(a) == multiset(b)
    ensures Sort(a) == Sort(b) && |a| == |b|
  {
    SortCorrect(a);
    SortCorrect(b);
    AscendingUnique(Sort(a), Sort(b));
  }

  lemma OrderDoesNotMatter(a: seq<int>, b: seq<int>)
    requires multiset(a) == multiset(b)
    ensures PercentilesUs(a) == PercentilesUs(b)
  {
    SortedAlike(a, b);
  }

  lemma PercentilesOrdered(samples: seq<int>)
    requires samples != []
    ensures var r := PercentilesUs(samples).value;
            r.overall.min <= r.p50 <= r.p95 <= r.p99 <= r.overall.max
  {
    SortCorrect(samples);
    var xs := Sort(samples);
    PctBetween(xs, 50.0);
    PctBetween(xs, 99.0);
    PctMonotone(xs, 50.0, 95.0);
    PctMonotone(xs, 95.0, 99.0);
  }

  /** The sample that percentile p falls on. */
  lemma PctPicks(xs: seq<int>, percent: nat, k: nat, p: real)
    requires k < |xs| && |xs| > 1 && (|xs| - 1) * percent == 100 * k && p == percent as real <= 100.0
    ensures Pct(xs, p) == xs[k] as real
  {
    Scaled(|xs| - 1, percent, k);
    PctAtSample(xs, p, k);
  }

  lemma Scaled(n: nat, percent: nat, k: nat)
    requires n * percent == 100 * k
    ensures n as real * percent as real == 100.0 * k as real
  {
    assert (n * percent) as real == n as real * percent as real;
  }

  /** Where the three percentiles fall on samples, the report gives these. */
  lemma ReportPicks(samples: seq<int>, i: nat, j: nat, k: nat)
    requires |samples| > 1 && i <= j <= k < |samples|
    requires (|samples| - 1) * 50 == 100 * i && (|samples| - 1) * 95 == 100 * j && (|samples| - 1) * 99 == 100 * k
    ensures var r, xs := PercentilesUs(samples).value, Sort(samples);
            r.p50 == xs[i] as real / 1000.0 && r.p95 == xs[j] as real / 1000.0 && r.p99 == xs[k] as real / 1000.0
  {
    var xs := Sort(samples);
    PctPicks(xs, 50, i, 50.0);
    PctPicks(xs, 95, j, 95.0);
    PctPicks(xs, 99, k, 99.0);
  }

  /** The median is the middle sample, or the mean of the two in the middle. */
  function Median(xs: seq<int>): real
    requires xs != []
  {
    var m := |xs| / 2;
    if |xs| % 2 == 1 then xs[m] as real else (xs[m - 1] + xs[m]) as real / 2.0
  }

  lemma PctIsMedian(xs: seq<int>, p: real)
    requires xs != [] && p == 50.0
    ensures Pct(xs, p) == Median(xs)
  {
    var m := |xs| / 2;
    if |xs| % 2 == 1 {
      if |xs| > 1 { PctAtSample(xs, p, m); }
    } else {
      PctHalfWay(xs, p, m - 1);
    }
  }

  lemma ReportMedian(samples: seq<int>)
    requires samples != []
    ensures PercentilesUs(samples).value.p50 == Median(Sort(samples)) / 1000.0
  {
    PctIsMedian(Sort(samples), 50.0);
  }

  lemma FirstAndLast(samples: seq<int>, xs: seq<int>)
    requires samples != [] && xs == Sort(samples)
    ensures xs[0] in samples && xs[|xs| - 1] in samples && forall x | x in samples :: xs[0] <= x <= xs[|xs| - 1]
  {
    SortCorrect(samples);
    assert xs[0] in multiset(samples) && xs[|xs| - 1] in multiset(samples);
    forall x | x in samples ensures xs[0] <= x <= xs[|xs| - 1] {
      assert x in multiset(xs);
    }
  }

  /** The reported extremes are samples, and no sample lies outside them. */
  lemma ReportExtremes(samples: seq<int>) returns (least: int, greatest: int)
    requires samples != []
    ensures least in samples && greatest in samples && forall x | x in samples :: least <= x <= greatest
    ensures var o := PercentilesUs(samples).value.overall;
            o.min == least as real / 1000.0 && o.max == greatest as real / 1000.0
  {
    var xs := Sort(samples);
    FirstAndLast(samples, xs);
    least, greatest := xs[0], xs[|xs| - 1];
  }

  lemma {:induction false} InsertTotal(x: int, xs: seq<int>)
    ensures Total(Reals(Insert(x, xs))) == x as real + Total(Reals(xs))
  {
    if xs == [] || x <= xs[0] {
      assert Reals([x] + xs) == [x as real] + Reals(xs);
    } else {
      InsertTotal(x, xs[1..]);
      assert Reals([xs[0]] + Insert(x, xs[1..])) == [xs[0] as real] + Reals(Insert(x, xs[1..]));
      assert Reals(xs)[1..] == Reals(xs[1..]);
    }
  }

  lemma {:induction false} SortTotal(xs: seq<int>)
    ensures Total(Reals(Sort(xs))) == Total(Reals(xs))
  {
    if xs != [] {
      SortTotal(xs[1..]);
      InsertTotal(xs[0], Sort(xs[1..]));
      assert Reals(xs)[1..] == Reals(xs[1..]);
    } else {
      assert Sort(xs) == xs;
    }
  }

  function Sum(xs: seq<int>): int {
    if xs == [] then 0 else xs[0] + Sum(xs[1..])
  }

  lemma {:induction false} TotalIsSum(xs: seq<int>)
    ensures Total(Reals(xs)) == Sum(xs) as real
  {
    if xs != [] {
      TotalIsSum(xs[1..]);
      assert Reals(xs)[1..] == Reals(xs[1..]);
    }
  }

  /** The reported mean is that of the samples as they come. */
  lemma ReportMean(samples: seq<int>)
    requires samples != []
    ensures PercentilesUs(samples).value.overall.mean == Sum(samples) as real / |samples| as real / 1000.0
  {
    SortTotal(samples);
    TotalIsSum(samples);
  }

  lemma PercentilesShift(samples: seq<int>, d: int)
    requires samples != []
    ensures var r, q := PercentilesUs(samples).value, PercentilesUs(Shift(samples, d)).value;
            && q.p50 == r.p50 + d as real / 1000.0
            && q.p95 == r.p95 + d as real / 1000.0
            && q.p99 == r.p99 + d as real / 1000.0
  {
    SortShift(samples, d);
    PctShift(Sort(samples), d, 50.0);
    PctShift(Sort(samples), d, 95.0);
    PctShift(Sort(samples), d, 99.0);
  }

  /** The reported standard deviation, squared, is at most (max - mean)(mean - min). */
  lemma ReportSpread(samples: seq<int>, xs: seq<int>, mu: real, q: real, lo: real, hi: real)
    requires samples != [] && xs == Sort(samples) && mu == Mean(xs) && q == Variance(xs)
    requires lo == xs[0] as real && hi == xs[|xs| - 1] as real
    ensures q <= (hi - mu) * (mu - lo)
  {
    Extremes(samples, xs);
    SpreadBound(xs, mu, q, lo, hi);
  }

  lemma Extremes(samples: seq<int>, xs: seq<int>)
    requires samples != [] && xs == Sort(samples)
    ensures forall i | 0 <= i < |xs| :: xs[0] <= xs[i] <= xs[|xs| - 1]
  {
    SortCorrect(samples);
  }
}
