/** Gaps between timestamps and their jitter: _interval_series_stats of scripts/bench/pingpong.py. */
module Intervals {
  import opened Messages
  import opened Moments
  import opened Statistics
  import PingPong

  function Abs(x: int): nat {
    if x < 0 then -x else x
  }

  function AbsReal(x: real): real {
    if x < 0.0 then -x else x
  }

  function Gaps(ts: seq<int>): seq<int> {
    if |ts| < 2 then [] else seq(|ts| - 1, i requires 0 <= i < |ts| - 1 => ts[i + 1] - ts[i])
  }

  /** The distances |gap i - gap (i - 1)|. */
  function Changes(gaps: seq<int>): seq<nat> {
    if |gaps| < 2 then [] else seq(|gaps| - 1, i requires 0 <= i < |gaps| - 1 => Abs(gaps[i + 1] - gaps[i]))
  }

  /** int(|g - mid|) for each gap. */
  function Deviations(gaps: seq<int>, mid: real): seq<int> {
    seq(|gaps|, i requires 0 <= i < |gaps| => AbsReal(gaps[i] as real - mid).Floor)
  }

  // ---------------------------------------------------------------- the 1/16 filter

  /** j after the filter has seen ds. */
  function Smooth(ds: seq<nat>): real {
    if ds == [] then 0.0
    else
      var j := Smooth(ds[..|ds| - 1]);
      j + (ds[|ds| - 1] as real - j) / 16.0
  }

  /** The weight of a change seen k changes ago. */
  function Weight(k: nat): real {
    if k == 0 then 1.0 / 16.0 else Weight(k - 1) * 15.0 / 16.0
  }

  function WeightedSum(ds: seq<nat>): real {
    if ds == [] then 0.0 else Weight(|ds| - 1) * ds[0] as real + WeightedSum(ds[1..])
  }

  lemma WeightStep(k: nat, x: real)
    ensures Weight(k + 1) * x == Weight(k) * x * 15.0 / 16.0
  {
  }

  lemma {:induction false} WeightedSumMore(ds: seq<nat>, d: nat)
    ensures WeightedSum(ds + [d]) == WeightedSum(ds) * 15.0 / 16.0 + d as real / 16.0
  {
    if ds == [] {
      assert WeightedSum([d]) == Weight(0) * d as real + WeightedSum([]);
      assert [] + [d] == [d];
    } else {
      assert (ds + [d])[1..] == ds[1..] + [d];
      WeightedSumMore(ds[1..], d);
      WeightStep(|ds| - 1, ds[0] as real);
    }
  }

  /** The recurrence is an exponentially weighted sum of the changes. */
  lemma {:induction false} SmoothIsWeightedSum(ds: seq<nat>)
    ensures Smooth(ds) == WeightedSum(ds)
  {
    if ds != [] {
      var before := ds[..|ds| - 1];
      SmoothIsWeightedSum(before);
      WeightedSumMore(before, ds[|ds| - 1]);
      assert before + [ds[|ds| - 1]] == ds;
    }
  }

  lemma {:induction false} SmoothBounds(ds: seq<nat>, bound: nat)
    requires forall i | 0 <= i < |ds| :: ds[i] <= bound
    ensures 0.0 <= Smooth(ds) <= bound as real
  {
    if ds != [] {
      SmoothBounds(ds[..|ds| - 1], bound);
    }
  }

  function Fade(n: nat): real {
    if n == 0 then 1.0 else Fade(n - 1) * 15.0 / 16.0
  }

  lemma FadeMore(d: real, j: real, fade: real)
    requires d - j == d * fade
    ensures d - (j + (d - j) / 16.0) == d * (fade * 15.0 / 16.0)
  {
  }

  /** While the changes stay the same, what is left of the way to them shrinks by a sixteenth each time. */
  lemma {:induction false} SmoothApproaches(ds: seq<nat>, d: nat)
    requires forall i | 0 <= i < |ds| :: ds[i] == d
    ensures d as real - Smooth(ds) == d as real * Fade(|ds|)
  {
    if ds != [] {
      var less := ds[..|ds| - 1];
      SmoothApproaches(less, d);
      FadeMore(d as real, Smooth(less), Fade(|less|));
    }
  }

  lemma {:induction false} SmoothMonotone(ds: seq<nat>, es: seq<nat>)
    requires |ds| == |es| && forall i | 0 <= i < |ds| :: ds[i] <= es[i]
    ensures Smooth(ds) <= Smooth(es)
  {
    if ds != [] {
      SmoothMonotone(ds[..|ds| - 1], es[..|es| - 1]);
    }
  }

  // ---------------------------------------------------------------- the report

  /** In microseconds. Empty stands for the not-a-number report of fewer than two timestamps. */
  datatype IntervalReport =
    | Empty(target: Option<real>)
    | Series(count: nat, gaps: Stats, deviation: Stats, jitter: real, target: Option<real>)

  function Target(targetMs: real): Option<real> {
    if targetMs > 0.0 then Some(targetMs * 1000.0) else None
  }

  /** The value the gaps are compared with: the target, else their median. */
  function Centre(stats: Stats, targetMs: real): real {
    if targetMs > 0.0 then targetMs * 1000000.0 else stats.p50 * 1000.0
  }

  function SeriesReport(ts: seq<int>, targetMs: real): IntervalReport {
    if |ts| < 2 then Empty(Target(targetMs))
    else
      var gaps := Gaps(ts);
      var stats := Report(Sort(gaps));
      var deviations := Deviations(gaps, Centre(stats, targetMs));
      Series(|gaps|, stats, Report(Sort(deviations)), Smooth(Changes(gaps)) / 1000.0, Target(targetMs))
  }

  method IntervalSeriesStats(ts: seq<int>, targetMs: real) returns (r: IntervalReport)
    ensures r == SeriesReport(ts, targetMs)
    ensures |ts| < 2 ==> r == Empty(if targetMs > 0.0 then Some(targetMs * 1000.0) else None)
  {
    if |ts| < 2 {
      return Empty(Target(targetMs));
    }
    var gaps := Gaps(ts);
    var stats := PercentilesUs(gaps).value;
    var dev := PercentilesUs(Deviations(gaps, Centre(stats, targetMs))).value;
    var j := Filter(gaps);
    r := Series(|gaps|, stats, dev, j / 1000.0, Target(targetMs));
    Assembled(ts, targetMs, stats, dev, j);
  }

  lemma Assembled(ts: seq<int>, targetMs: real, stats: Stats, dev: Stats, j: real)
    requires |ts| >= 2 && stats == Report(Sort(Gaps(ts))) && j == Smooth(Changes(Gaps(ts)))
    requires dev == Report(Sort(Deviations(Gaps(ts), Centre(stats, targetMs))))
    ensures SeriesReport(ts, targetMs) == Series(|Gaps(ts)|, stats, dev, j / 1000.0, Target(targetMs))
  {
  }

  /** The filter loop. */
  method Filter(gaps: seq<int>) returns (j: real)
    ensures j == Smooth(Changes(gaps))
  {
    j := 0.0;
    ghost var changes := Changes(gaps);
    if |gaps| >= 2 {
      for i := 1 to |gaps|
        invariant j == Smooth(changes[..i - 1])
      {
        var d := Abs(gaps[i] - gaps[i - 1]);
        assert changes[..i] == changes[..i - 1] + [d];
        j := j + (d as real - j) / 16.0;
      }
      assert changes[..|gaps| - 1] == changes;
    }
  }

  // ---------------------------------------------------------------- what it reports

  /** What a series is a report of: its gaps; their distances from the target, or from their median when there is
      none, without the fractions of a nanosecond; and the changes from gap to gap. */
  lemma SeriesIs(ts: seq<int>, targetMs: real) returns (gaps: seq<int>, away: seq<int>, changes: seq<nat>)
    requires |ts| >= 2
    ensures |gaps| == |ts| - 1 && |changes| == |ts| - 2
    ensures forall i | 0 <= i < |gaps| :: gaps[i] == ts[i + 1] - ts[i]
    ensures AwayBy(away, gaps, if targetMs > 0.0 then targetMs * 1000000.0 else Median(Sort(gaps)))
    ensures forall i | 0 <= i < |changes| ::
              changes[i] == var d := ts[i + 2] - 2 * ts[i + 1] + ts[i]; if d < 0 then -d else d
    ensures SeriesReport(ts, targetMs)
            == Series(|ts| - 1, PercentilesUs(gaps).value, PercentilesUs(away).value, Smooth(changes) / 1000.0,
                      if targetMs > 0.0 then Some(targetMs * 1000.0) else None)
  {
    gaps := Gaps(ts);
    away, changes := Deviations(gaps, Centre(Report(Sort(gaps)), targetMs)), Changes(gaps);
    SecondDifferences(ts);
    SeriesAway(gaps, Report(Sort(gaps)), targetMs);
    SeriesParts(ts, targetMs, gaps, away, changes);
  }

  lemma SecondDifferences(ts: seq<int>)
    requires |ts| >= 2
    ensures |Changes(Gaps(ts))| == |ts| - 2
    ensures forall i | 0 <= i < |ts| - 2 ::
              Changes(Gaps(ts))[i] == var d := ts[i + 2] - 2 * ts[i + 1] + ts[i]; if d < 0 then -d else d
  {
  }

  lemma SeriesAway(gaps: seq<int>, stats: Stats, targetMs: real)
    requires gaps != [] && stats == Report(Sort(gaps))
    ensures AwayBy(Deviations(gaps, Centre(stats, targetMs)), gaps,
                   if targetMs > 0.0 then targetMs * 1000000.0 else Median(Sort(gaps)))
  {
    ReportMedian(gaps);
    AwayFrom(gaps, stats, targetMs, Median(Sort(gaps)));
  }

  lemma AwayFrom(gaps: seq<int>, stats: Stats, targetMs: real, median: real)
    requires stats.p50 == median / 1000.0
    ensures AwayBy(Deviations(gaps, Centre(stats, targetMs)), gaps,
                   if targetMs > 0.0 then targetMs * 1000000.0 else median)
  {
    CentreIs(stats, targetMs, median);
    DeviationsFloor(gaps, Centre(stats, targetMs));
  }

  lemma SeriesParts(ts: seq<int>, targetMs: real, gaps: seq<int>, away: seq<int>, changes: seq<nat>)
    requires |ts| >= 2 && gaps == Gaps(ts) && away == Deviations(gaps, Centre(Report(Sort(gaps)), targetMs))
    requires changes == Changes(gaps)
    ensures SeriesReport(ts, targetMs)
            == Series(|ts| - 1, PercentilesUs(gaps).value, PercentilesUs(away).value, Smooth(changes) / 1000.0,
                      if targetMs > 0.0 then Some(targetMs * 1000.0) else None)
  {
    Assembled(ts, targetMs, Report(Sort(gaps)), Report(Sort(away)), Smooth(changes));
  }

  /** The distances of the gaps from mid, without fractions. */
  predicate AwayBy(away: seq<int>, gaps: seq<int>, mid: real) {
    && |away| == |gaps|
    && forall i | 0 <= i < |gaps| ::
         var x := gaps[i] as real - mid;
         away[i] as real <= (if x < 0.0 then -x else x) < away[i] as real + 1.0
  }

  lemma CentreIs(stats: Stats, targetMs: real, median: real)
    requires stats.p50 == median / 1000.0
    ensures Centre(stats, targetMs) == if targetMs > 0.0 then targetMs * 1000000.0 else median
  {
  }

  lemma DeviationsFloor(gaps: seq<int>, mid: real)
    ensures AwayBy(Deviations(gaps, mid), gaps, mid)
  {
  }

  /** The jitter is never more than the largest gap minus the smallest. */
  lemma JitterWithinRange(ts: seq<int>, targetMs: real)
    requires |ts| >= 2
    ensures var r := SeriesReport(ts, targetMs);
            0.0 <= r.jitter <= r.gaps.overall.max - r.gaps.overall.min
  {
    var gaps := Gaps(ts);
    var xs := Sort(gaps);
    Extremes(gaps, xs);
    GapsWithin(gaps, xs);
    SmoothBounds(Changes(gaps), xs[|xs| - 1] - xs[0]);
  }

  lemma GapsWithin(gaps: seq<int>, xs: seq<int>)
    requires gaps != [] && xs == Sort(gaps)
    ensures forall i | 0 <= i < |gaps| :: xs[0] <= gaps[i] <= xs[|xs| - 1]
  {
    Extremes(gaps, xs);
    SortCorrect(gaps);
    forall i | 0 <= i < |gaps| ensures xs[0] <= gaps[i] <= xs[|xs| - 1] {
      assert gaps[i] in multiset(xs);
    }
  }

  lemma {:induction false} SumTelescopes(ts: seq<int>)
    requires |ts| >= 1
    ensures Sum(Gaps(ts)) == ts[|ts| - 1] - ts[0]
  {
    if |ts| >= 2 {
      SumTelescopes(ts[1..]);
      assert Gaps(ts)[1..] == Gaps(ts[1..]);
    }
  }

  lemma GapsTelescope(ts: seq<int>)
    requires |ts| >= 1
    ensures Total(Reals(Gaps(ts))) == (ts[|ts| - 1] - ts[0]) as real
  {
    SumTelescopes(ts);
    TotalIsSum(Gaps(ts));
  }

  /** The mean gap is the span divided by the number of gaps. */
  lemma MeanGap(ts: seq<int>, targetMs: real)
    requires |ts| >= 2
    ensures SeriesReport(ts, targetMs).gaps.overall.mean
            == (ts[|ts| - 1] - ts[0]) as real / (|ts| - 1) as real / 1000.0
  {
    SortTotal(Gaps(ts));
    GapsTelescope(ts);
  }

  ghost predicate LowerBy(q: Stats, r: Stats, us: real) {
    q.p50 == r.p50 - us && q.p95 == r.p95 - us && q.p99 == r.p99 - us
  }

  /** When no gap is below the target of t nanoseconds, the deviations from it are the gaps
      minus the target, percentile by percentile. */
  lemma PacedDeviations(ts: seq<int>, targetMs: real, t: int)
    requires |ts| >= 2 && targetMs > 0.0 && targetMs * 1000000.0 == t as real
    requires forall i | 0 <= i < |ts| - 1 :: ts[i + 1] - ts[i] >= t
    ensures var r := SeriesReport(ts, targetMs);
            LowerBy(r.deviation, r.gaps, t as real / 1000.0)
  {
    var r := SeriesWithTarget(ts, targetMs, t as real);
    DeviationsAreShift(Gaps(ts), t);
    ShiftedReport(Gaps(ts), t, r.gaps, r.deviation);
  }

  /** The two reports that a series with a target consists of. */
  lemma SeriesWithTarget(ts: seq<int>, targetMs: real, mid: real) returns (r: IntervalReport)
    requires |ts| >= 2 && targetMs > 0.0 && targetMs * 1000000.0 == mid
    ensures r == SeriesReport(ts, targetMs) && r.Series?
    ensures r.gaps == Report(Sort(Gaps(ts))) && r.deviation == Report(Sort(Deviations(Gaps(ts), mid)))
  {
    r := SeriesReport(ts, targetMs);
    assert Centre(r.gaps, targetMs) == mid;
  }

  /** The three percentiles of r are those of xs. */
  ghost predicate HasPercentiles(r: Stats, xs: seq<int>) {
    xs != [] && r.p50 == Pct(xs, 50.0) / 1000.0 && r.p95 == Pct(xs, 95.0) / 1000.0 && r.p99 == Pct(xs, 99.0) / 1000.0
  }

  lemma ReportPercentiles(xs: seq<int>)
    requires xs != []
    ensures HasPercentiles(Report(xs), xs)
  {
  }

  lemma LowerPercentiles(r: Stats, q: Stats, xs: seq<int>, t: int)
    requires HasPercentiles(r, xs) && HasPercentiles(q, Shift(xs, -t))
    ensures LowerBy(q, r, t as real / 1000.0)
  {
    PctShift(xs, -t, 50.0);
    PctShift(xs, -t, 95.0);
    PctShift(xs, -t, 99.0);
  }

  lemma ShiftedReport(gaps: seq<int>, t: int, r: Stats, q: Stats)
    requires gaps != [] && r == Report(Sort(gaps)) && q == Report(Sort(Shift(gaps, -t)))
    ensures LowerBy(q, r, t as real / 1000.0)
  {
    ReportPercentiles(Sort(gaps));
    ReportPercentiles(Sort(Shift(gaps, -t)));
    SortShift(gaps, -t);
    LowerPercentiles(r, q, Sort(gaps), t);
  }

  lemma DeviationsAreShift(gaps: seq<int>, t: int)
    requires forall i | 0 <= i < |gaps| :: gaps[i] >= t
    ensures Deviations(gaps, t as real) == Shift(gaps, -t)
  {
    forall i | 0 <= i < |gaps| ensures Deviations(gaps, t as real)[i] == gaps[i] - t {
      Truncated(gaps[i], t);
    }
  }

  lemma Truncated(g: int, t: int)
    requires g >= t
    ensures AbsReal(g as real - t as real).Floor == g - t
  {
    assert g as real - t as real == (g - t) as real;
  }

  lemma LeastOf(gaps: seq<int>, least: real)
    requires gaps != [] && forall i | 0 <= i < |gaps| :: gaps[i] as real >= least
    ensures Sort(gaps)[0] as real >= least
  {
    SortCorrect(gaps);
    assert Sort(gaps)[0] in multiset(gaps);
  }

  lemma SmallestGap(ts: seq<int>, targetMs: real, least: real)
    requires |ts| >= 2 && forall i | 0 <= i < |ts| - 1 :: (ts[i + 1] - ts[i]) as real >= least
    ensures SeriesReport(ts, targetMs).gaps.overall.min >= least / 1000.0
  {
    LeastOf(Gaps(ts), least);
  }

  /** The publish intervals that a paced run reports: the smallest is at least the target. */
  lemma PacedReport(c: PingPong.Config, start: int, es: seq<PingPong.Event>, targetMs: real)
    requires targetMs > 0.0 && c.interval == targetMs * 1000000.0
    requires PingPong.Run(c, start, es).Some? && |PingPong.Run(c, start, es).value.pub| >= 2
    ensures var pub := PingPong.Run(c, start, es).value.pub;
            SeriesReport(pub, targetMs).gaps.overall.min >= targetMs * 1000.0
  {
    PingPong.Paced(c, start, es);
    SmallestGap(PingPong.Run(c, start, es).value.pub, targetMs, c.interval);
  }

  /** With a target of whole nanoseconds, the deviations a paced run reports are its gap
      percentiles minus the target. */
  lemma PacedRunDeviations(c: PingPong.Config, start: int, es: seq<PingPong.Event>, targetMs: real, t: int)
    requires targetMs > 0.0 && c.interval == targetMs * 1000000.0 == t as real
    requires PingPong.Run(c, start, es).Some? && |PingPong.Run(c, start, es).value.pub| >= 2
    ensures var r := SeriesReport(PingPong.Run(c, start, es).value.pub, targetMs);
            LowerBy(r.deviation, r.gaps, t as real / 1000.0)
  {
    PingPong.Paced(c, start, es);
    PacedDeviations(PingPong.Run(c, start, es).value.pub, targetMs, t);
  }
}
