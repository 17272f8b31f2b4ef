/** What the statistics of `src/baseline_math.ts` are, told by counting the points and by the calendar. */
module BaselineMeaning {
  import opened Options
  import opened OrderStats
  import opened RealArithmetic
  import opened BaselineMath

  // ---- quantiles ----------------------------------------------------------------------------------------------------

  /** Between the places `k` and `k + 1` a quantile weighs its two neighbours by how near it is to each. */
  lemma QuantileWeighs(sorted: seq<real>, q: real, k: nat)
    requires sorted != [] && k as real <= (|sorted| - 1) as real * q < (k + 1) as real && k < |sorted|
    ensures (|sorted| - 1) as real * q == k as real ==> Quantile(sorted, q) == Some(sorted[k])
    ensures (|sorted| - 1) as real * q > k as real && k + 1 < |sorted| ==>
      var near := (|sorted| - 1) as real * q - k as real;
      Quantile(sorted, q).Some? && Quantile(sorted, q).value == sorted[k] * (1.0 - near) + sorted[k + 1] * near
  {
    var pos := Place(|sorted|, q);
    assert pos.Floor == k;
    if pos > k as real && k + 1 < |sorted| {
      Weighs(sorted[k], sorted[k + 1], pos - k as real);
    }
  }

  lemma Weighs(a: real, b: real, t: real)
    ensures Mix(a, b, t) == a * (1.0 - t) + b * t
  {
  }

  /** The median is the middle value, or halfway between the two in the middle. */
  lemma MedianIsTheMiddle(xs: seq<real>)
    requires xs != []
    ensures Median(xs).Some?
    ensures |xs| % 2 == 1 ==> Median(xs).value == Sort(xs)[|xs| / 2]
    ensures |xs| % 2 == 0 ==> Median(xs).value == (Sort(xs)[|xs| / 2 - 1] + Sort(xs)[|xs| / 2]) / 2.0
  {
    hide *;
    var n, s := |xs|, Sort(xs);
    MedianIsQuantile(xs);
    MiddleIsMixed(s);
    if n % 2 == 1 {
      MixSame(s[n / 2], Place(n, 0.5) - ((n - 1) / 2) as real);
    } else {
      HalfPlace(n);
      MixHalf(s[n / 2 - 1], s[n / 2]);
    }
  }

  lemma MedianIsQuantile(xs: seq<real>)
    ensures Median(xs) == Quantile(Sort(xs), 0.5)
  {
    hide Quantile, Sort;
  }

  lemma MiddleIsMixed(s: seq<real>)
    requires s != []
    ensures Quantile(s, 0.5) ==
            Some(Mix(s[(|s| - 1) / 2], s[|s| / 2], Place(|s|, 0.5) - ((|s| - 1) / 2) as real))
  {
    PlaceOfMedian(|s|);
    hide Place, Mix, Ceil;
  }

  lemma HalfPlace(n: nat)
    requires n > 0 && n % 2 == 0
    ensures Place(n, 0.5) - ((n - 1) / 2) as real == 0.5 && (n - 1) / 2 == n / 2 - 1
  {
    var m := n / 2;
    assert n == 2 * m && Place(n, 0.5) == (2 * m - 1) as real * 0.5;
  }

  lemma MixSame(a: real, t: real)
    ensures Mix(a, a, t) == a
  {
  }

  lemma MixHalf(a: real, b: real)
    ensures Mix(a, b, 0.5) == (a + b) / 2.0
  {
  }

  /** With no points there is none. */
  lemma NoMedian(q: real)
    ensures Quantile([], q) == None
  {
  }

  // ---- robustStats --------------------------------------------------------------------------------------------------

  function Known(): Option<real> -> bool {
    (x: Option<real>) => x.Some?
  }

  function KnownAtMost(v: real): Option<real> -> bool {
    (x: Option<real>) => x.Some? && x.value <= v
  }

  lemma CountOneMore(xs: seq<real>, x: real, v: real)
    ensures CountAtMost(xs + [x], v) == CountAtMost(xs, v) + if x <= v then 1 else 0
    ensures CountAtMost(xs + [], v) == CountAtMost(xs, v)
  {
    assert (xs + [x])[..|xs|] == xs && xs + [] == xs;
  }

  /** The finite values, neither more nor fewer. */
  lemma {:induction false} FiniteCounts(values: seq<Option<real>>, v: real)
    ensures CountAtMost(Finite(values), v) == |Where(values, KnownAtMost(v))|
    ensures |Finite(values)| == |Where(values, Known())|
  {
    if values == [] {
      WhereNothing(Known());
      WhereNothing(KnownAtMost(v));
    } else {
      hide Where, CountAtMost;
      var n := |values| - 1;
      FiniteCounts(values[..n], v);
      WhereGrows(values[..n], values[n], Known());
      WhereGrows(values[..n], values[n], KnownAtMost(v));
      assert values == values[..n] + [values[n]];
      CountOneMore(Finite(values[..n]), values[n].GetOr(0.0), v);
    }
  }

  /** Sums of parts add up, and one value is its own sum. */
  lemma {:induction false} SumConcat(a: seq<real>, b: seq<real>)
    ensures Sum(a + b) == Sum(a) + Sum(b)
    ensures |a| == 1 ==> Sum(a) == a[0]
  {
    if b == [] {
      assert a + b == a;
    } else {
      assert (a + b)[..|a + b| - 1] == a + b[..|b| - 1];
      SumConcat(a, b[..|b| - 1]);
    }
    assert |a| == 1 ==> a[..0] == [];
  }

  lemma {:induction false} SumBetween(v: seq<real>, lo: real, hi: real)
    requires forall k :: 0 <= k < |v| ==> lo <= v[k] <= hi
    ensures lo * (|v| as real) <= Sum(v) <= hi * (|v| as real)
  {
    if v != [] {
      var n := |v| - 1;
      SumBetween(v[..n], lo, hi);
      OneMoreTimes(lo, n);
      OneMoreTimes(hi, n);
    }
  }

  lemma OneMoreTimes(x: real, n: nat)
    ensures x * ((n + 1) as real) == x * (n as real) + x
  {
  }

  lemma Distances(v: seq<real>, m: real)
    ensures |Deviations(v, m)| == |v|
    ensures forall k :: 0 <= k < |v| ==>
      (v[k] >= m ==> Deviations(v, m)[k] == v[k] - m) && (v[k] <= m ==> Deviations(v, m)[k] == m - v[k])
  {
  }

  /** Each statistic by its meaning: how many points, the smallest and the largest, the middle, 1.4826 times the
      middle distance from it, and the value 95 in a hundred of the way up. */
  lemma RobustMeans(values: seq<Option<real>>)
    ensures Finite(values) == [] ==> Robust(values) == RobustStats(0, None, None, None, None, None, None)
    ensures Finite(values) != [] ==>
      var v, r := Finite(values), Robust(values);
      && r.samples == |v| && IsEnd(v, r.min, true) && IsEnd(v, r.max, false)
      && r.median == Median(v) && r.median.Some? && Median(Deviations(v, r.median.value)).Some?
      && r.mad == Some(1.4826 * Median(Deviations(v, r.median.value)).value)
      && r.p95 == Quantile(Sort(v), 0.95)
  {
    var v := Finite(values);
    if v != [] {
      RobustFields(values);
      MedianIsTheMiddle(v);
      DeviationsMedian(v, Median(v).value);
      Ends(v);
    }
    hide Quantile, Sort, Sum, Deviations, Finite, Robust, Median, IsEnd;
  }

  /** The least of the values, or the greatest. */
  ghost predicate IsEnd(v: seq<real>, x: Option<real>, least: bool) {
    x.Some? && x.value in v && forall y <- v :: if least then x.value <= y else y <= x.value
  }

  /** The mean, which times the number of points is their sum, lies between the least and the greatest. */
  lemma MeanMeans(values: seq<Option<real>>)
    requires Finite(values) != []
    ensures var v, r := Finite(values), Robust(values);
      && r.mean.Some? && r.min.Some? && r.max.Some?
      && r.mean.value * (|v| as real) == Sum(v) && r.min.value <= r.mean.value <= r.max.value
  {
    hide *;
    var v := Finite(values);
    RobustFields(values);
    Ends(v);
    var lo, hi := Sort(v)[0], Sort(v)[|v| - 1];
    SumBetween(v, lo, hi) by {
      assert forall k :: 0 <= k < |v| ==> v[k] in v;
    }
    MeanIs(Sum(v), |v|, lo, hi);
  }

  lemma DeviationsMedian(v: seq<real>, m: real)
    requires v != []
    ensures Median(Deviations(v, m)).Some?
  {
    MedianIsTheMiddle(Deviations(v, m));
  }

  lemma RobustFields(values: seq<Option<real>>)
    requires Finite(values) != []
    ensures var v, r := Finite(values), Robust(values);
      && r.samples == |v| && r.min == Some(Sort(v)[0]) && r.max == Some(Sort(v)[|v| - 1])
      && r.median == Median(v) && r.p95 == Quantile(Sort(v), 0.95) && r.mean == Some(Sum(v) / |v| as real)
      && (r.median.Some? && Median(Deviations(v, r.median.value)).Some? ==>
            r.mad == Some(1.4826 * Median(Deviations(v, r.median.value)).value))
  {
    hide Quantile, Sort, Sum, Deviations, Finite;
  }

  lemma Ends(v: seq<real>)
    requires v != []
    ensures Sort(v)[0] in v && Sort(v)[|v| - 1] in v
    ensures forall x <- v :: Sort(v)[0] <= x <= Sort(v)[|v| - 1]
    ensures IsEnd(v, Some(Sort(v)[0]), true) && IsEnd(v, Some(Sort(v)[|v| - 1]), false)
  {
    SortSorts(v, 0.0);
    var s := Sort(v);
    hide Sort;
    assert s[0] in s && s[|v| - 1] in s;
    forall x | x in v
      ensures s[0] <= x <= s[|v| - 1]
    {
      var k :| 0 <= k < |s| && s[k] == x;
    }
  }

  lemma MeanIs(sum: real, n: nat, lo: real, hi: real)
    requires n > 0 && lo * (n as real) <= sum <= hi * (n as real)
    ensures (sum / n as real) * (n as real) == sum && lo <= sum / n as real <= hi
  {
    Quotient(sum, n as real, lo);
    Quotient(sum, n as real, hi);
  }

  // ---- the calendar -------------------------------------------------------------------------------------------------

  function HourBegins(day: int, h: nat): int {
    day * 86400000 + h * 3600000
  }

  /** The time is in hour `h` of some day, UTC. */
  ghost predicate InHourOfDay(t: int, h: nat) {
    h < 24 && exists day: int :: HourBegins(day, h) <= t < HourBegins(day, h) + 3600000
  }

  lemma HourIs(t: int, h: nat)
    ensures HourOfDay(t) == h <==> InHourOfDay(t, h)
  {
    var q := t / 3600000;
    assert q * 3600000 <= t < (q + 1) * 3600000;
    if HourOfDay(t) == h {
      assert q == 24 * (q / 24) + h;
      assert HourBegins(q / 24, h) == q * 3600000;
    }
    if InHourOfDay(t, h) {
      var day: int :| HourBegins(day, h) <= t < HourBegins(day, h) + 3600000;
      assert HourBegins(day, h) == (24 * day + h) * 3600000;
      SameSpan(t, 3600000, q, 24 * day + h);
    }
  }

  lemma SameSpan(t: int, span: int, p: int, q: int)
    requires span > 0 && p * span <= t < (p + 1) * span && q * span <= t < (q + 1) * span
    ensures p == q
  {
    if p < q {
      Ordered(p + 1, q, span);
    } else if q < p {
      Ordered(q + 1, p, span);
    }
  }

  lemma Ordered(a: int, b: int, span: int)
    requires a <= b && span > 0
    ensures a * span <= b * span
  {
  }

  function DayBegins(week: int, d: nat): int {
    259200000 + (7 * week + d) * 86400000
  }

  /** The time is on day `d` of some week, 0 for Sunday, UTC; the fourth of January 1970 was one. */
  ghost predicate OnWeekday(t: int, d: nat) {
    d < 7 && exists week: int :: DayBegins(week, d) <= t < DayBegins(week, d) + 86400000
  }

  lemma WeekdayIs(t: int, d: nat)
    ensures DayOfWeek(t) == d <==> OnWeekday(t, d)
  {
    var q := t / 86400000;
    assert q * 86400000 <= t < (q + 1) * 86400000;
    if DayOfWeek(t) == d {
      var week := (q + 4) / 7 - 1;
      assert q == 3 + 7 * week + d;
      assert DayBegins(week, d) == q * 86400000;
    }
    if OnWeekday(t, d) {
      var week: int :| DayBegins(week, d) <= t < DayBegins(week, d) + 86400000;
      assert DayBegins(week, d) == (3 + 7 * week + d) * 86400000;
      SameSpan(t, 86400000, q, 3 + 7 * week + d);
      assert q + 4 == 7 * (week + 1) + d;
    }
  }

  // ---- the seasonal profile -----------------------------------------------------------------------------------------

  /** A point with a value in hour `h` of its day, and one that is at most `v`. */
  ghost function InHour(h: nat): Point -> bool {
    (p: Point) => p.v.Some? && InHourOfDay(p.t, h)
  }

  ghost function InHourAtMost(h: nat, v: real): Point -> bool {
    (p: Point) => p.v.Some? && InHourOfDay(p.t, h) && p.v.value <= v
  }

  /** A point with a value on day `d` of its week, and one that is at most `v`. */
  ghost function OnDay(d: nat): Point -> bool {
    (p: Point) => p.v.Some? && OnWeekday(p.t, d)
  }

  ghost function OnDayAtMost(d: nat, v: real): Point -> bool {
    (p: Point) => p.v.Some? && OnWeekday(p.t, d) && p.v.value <= v
  }

  /** The buckets hold exactly the values of their hour and of their weekday. */
  lemma {:induction false} HourBucketCounts(points: seq<Point>, h: nat, v: real)
    ensures CountAtMost(HourBucket(points, h), v) == |Where(points, InHourAtMost(h, v))|
    ensures |HourBucket(points, h)| == |Where(points, InHour(h))|
  {
    hide Where, CountAtMost, InHourOfDay, HourOfDay;
    if points == [] {
      WhereNothing(InHourAtMost(h, v));
      WhereNothing(InHour(h));
      NothingCounted(v);
    } else {
      var n := |points| - 1;
      var p := points[n];
      HourBucketCounts(points[..n], h, v);
      WhereGrows(points[..n], p, InHourAtMost(h, v));
      WhereGrows(points[..n], p, InHour(h));
      assert points == points[..n] + [p];
      HourIs(p.t, h);
      CountOneMore(HourBucket(points[..n], h), p.v.GetOr(0.0), v);
    }
  }

  lemma NothingCounted(v: real)
    ensures CountAtMost([], v) == 0
  {
  }

  lemma {:induction false} DayBucketCounts(points: seq<Point>, d: nat, v: real)
    ensures CountAtMost(DayBucket(points, d), v) == |Where(points, OnDayAtMost(d, v))|
    ensures |DayBucket(points, d)| == |Where(points, OnDay(d))|
  {
    hide Where, CountAtMost, OnWeekday, DayOfWeek;
    if points == [] {
      WhereNothing(OnDayAtMost(d, v));
      WhereNothing(OnDay(d));
      NothingCounted(v);
    } else {
      var n := |points| - 1;
      var p := points[n];
      DayBucketCounts(points[..n], d, v);
      WhereGrows(points[..n], p, OnDayAtMost(d, v));
      WhereGrows(points[..n], p, OnDay(d));
      assert points == points[..n] + [p];
      WeekdayIs(p.t, d);
      CountOneMore(DayBucket(points[..n], d), p.v.GetOr(0.0), v);
    }
  }

  /** The days the points with a value span. */
  lemma DaysMean(points: seq<Point>, day: int)
    ensures day in Days(points) <==> exists p <- points :: p.v.Some? && 86400000 * day <= p.t < 86400000 * (day + 1)
  {
    forall p | p in points
      ensures p.t / 86400000 == day <==> 86400000 * day <= p.t < 86400000 * (day + 1)
    {
    }
  }

  /** A bucket has a median once the points span seven days and it holds five of them. */
  lemma BucketMedianIff(days: nat, b: seq<real>)
    ensures var m := BucketMedian(days >= MIN_DAYS_FOR_SEASONAL, b);
      (m.Some? <==> days >= 7 && |b| >= 5) && (m.Some? ==> m == Median(b))
  {
    if b != [] {
      MedianIsTheMiddle(b);
    }
  }

  // ---- scoring ------------------------------------------------------------------------------------------------------

  /** What is expected is the median of the hour of the day where the profile has one, the overall one elsewhere;
      ratio and z are how often it fits into the value, and how many spreads the value is above it. */
  lemma ScoreSays(b: Baseline, v: real, at: int, h: nat)
    requires InHourOfDay(at, h)
    ensures var s := ScoreValue(b, v, at);
      && (h < |b.byHour| && b.byHour[h].Some? ==> s.expected == b.byHour[h] && s.basis == HourBasis)
      && (h >= |b.byHour| || b.byHour[h].None? ==> s.expected == b.median && s.basis == MedianBasis)
      && (s.ratio.Some? <==> s.expected.Some? && s.expected.value > 0.0)
      && (s.ratio.Some? ==> s.ratio.value * s.expected.value == v)
      && (s.z.Some? <==> s.expected.Some? && b.mad.Some? && b.mad.value > 0.0)
      && (s.z.Some? ==> s.z.value * b.mad.value == v - s.expected.value)
  {
    HourIs(at, h);
    hide InHourOfDay, HourOfDay;
    var e := Expected(b, at);
    if e.Some? && e.value > 0.0 {
      BackAgain(v, e.value);
    }
    if e.Some? && b.mad.Some? && b.mad.value > 0.0 {
      BackAgain(v - e.value, b.mad.value);
    }
  }

  lemma BackAgain(a: real, b: real)
    requires b > 0.0
    ensures (a / b) * b == a
  {
  }

  /** Extreme is twice what is expected, three spreads above it and above the p95; high is one of the first two;
      without anything expected all is normal. */
  lemma LevelIff(b: Baseline, v: real, at: int)
    ensures var s := ScoreValue(b, v, at);
      var far := s.expected.Some? && s.expected.value > 0.0 && v >= 2.0 * s.expected.value;
      var out := && s.expected.Some? && b.mad.Some? && b.mad.value > 0.0
                 && v >= s.expected.value + 3.0 * b.mad.value;
      && (s.level == Extreme <==> far && out && b.p95.Some? && v > b.p95.value)
      && (s.level == High <==> (far || out) && !(far && out && b.p95.Some? && v > b.p95.value))
      && (s.level == Normal <==> !far && !out)
  {
    if Expected(b, at).Some? {
      ScoreMeaning(b, v, at);
    }
  }
}
