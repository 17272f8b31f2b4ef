/** The robust statistics of `src/baseline_math.ts`. A value that is not a finite number (NaN in the source) is
    `None`. */
module BaselineMath {
  import opened Options
  import opened OrderStats
  import opened RealArithmetic

  // ---- quantiles ---------------------------------------------------------------------------------------------------

  function Ceil(x: real): int {
    if x.Floor as real == x then x.Floor else x.Floor + 1
  }

  /** Where a quantile of `n` sorted values falls. */
  function Place(n: nat, q: real): real {
    (n - 1) as real * q
  }

  function Mix(a: real, b: real, t: real): real {
    a + (b - a) * t
  }

  function Quantile(sorted: seq<real>, q: real): Option<real> {
    var pos := Place(|sorted|, q);
    var lo, hi := pos.Floor, Ceil(pos);
    if sorted == [] || lo < 0 || hi >= |sorted| then None
    else Some(Mix(sorted[lo], sorted[hi], pos - lo as real))
  }

  function Median(values: seq<real>): Option<real> {
    Quantile(Sort(values), 0.5)
  }

  lemma MixBetween(a: real, b: real, t: real)
    requires a <= b && 0.0 <= t <= 1.0
    ensures a <= Mix(a, b, t) <= b
  {
    Product(b - a, t);
    Product(b - a, 1.0 - t);
  }

  lemma MixMonotone(a: real, b: real, t: real, u: real)
    requires a <= b && t <= u
    ensures Mix(a, b, t) <= Mix(a, b, u)
  {
    Product(b - a, u - t);
  }

  lemma PlaceInside(n: nat, q: real)
    requires n > 0 && 0.0 <= q <= 1.0
    ensures 0.0 <= Place(n, q) <= (n - 1) as real
    ensures 0 <= Place(n, q).Floor <= Ceil(Place(n, q)) < n && Ceil(Place(n, q)) <= Place(n, q).Floor + 1
  {
    Product((n - 1) as real, q);
    Product((n - 1) as real, 1.0 - q);
  }

  lemma PlaceMonotone(n: nat, q: real, r: real)
    requires n > 0 && q <= r
    ensures Place(n, q) <= Place(n, r)
  {
    Product((n - 1) as real, r - q);
  }

  lemma PlaceOfMedian(n: nat)
    requires n > 0
    ensures Place(n, 0.5).Floor == (n - 1) / 2 && Ceil(Place(n, 0.5)) == n / 2
  {
    assert 2.0 * Place(n, 0.5) == (n - 1) as real;
  }

  /** A quantile lies between the two neighbours it interpolates. */
  lemma QuantileBetween(sorted: seq<real>, q: real)
    requires Sorted(sorted) && sorted != [] && 0.0 <= q <= 1.0
    ensures Quantile(sorted, q).Some?
    ensures 0 <= Place(|sorted|, q).Floor <= Ceil(Place(|sorted|, q)) < |sorted|
    ensures sorted[Place(|sorted|, q).Floor] <= Quantile(sorted, q).value <= sorted[Ceil(Place(|sorted|, q))]
  {
    hide Mix, Place;
    PlaceInside(|sorted|, q);
    var pos := Place(|sorted|, q);
    MixBetween(sorted[pos.Floor], sorted[Ceil(pos)], pos - pos.Floor as real);
  }

  lemma QuantileMonotone(sorted: seq<real>, q: real, r: real)
    requires Sorted(sorted) && sorted != [] && 0.0 <= q <= r <= 1.0
    ensures Quantile(sorted, q).Some? && Quantile(sorted, r).Some?
    ensures Quantile(sorted, q).value <= Quantile(sorted, r).value
  {
    hide Mix, Place;
    QuantileBetween(sorted, q);
    QuantileBetween(sorted, r);
    PlaceMonotone(|sorted|, q, r);
    var a, b := Place(|sorted|, q), Place(|sorted|, r);
    if a.Floor == b.Floor && Ceil(a) == Ceil(b) {
      MixMonotone(sorted[a.Floor], sorted[Ceil(a)], a - a.Floor as real, b - b.Floor as real);
    } else if a.Floor == b.Floor {
      assert Ceil(a) == a.Floor;
    } else {
      assert Ceil(a) <= b.Floor;
    }
  }

  lemma QuantilePermuted(xs: seq<real>, ys: seq<real>, q: real)
    requires multiset(xs) == multiset(ys)
    ensures Quantile(Sort(xs), q) == Quantile(Sort(ys), q)
  {
    assert |xs| == |multiset(xs)| == |multiset(ys)| == |ys|;
    forall k: nat | k < |xs|
      ensures Sort(xs)[k] == Sort(ys)[k]
    {
      PlacePermuted(xs, ys, k);
    }
    assert Sort(xs) == Sort(ys);
  }

  // ---- a spike does not move its own baseline -----------------------------------------------------------------------

  function CountTrue(keep: seq<bool>): nat {
    if keep == [] then 0 else CountTrue(keep[..|keep| - 1]) + if keep[|keep| - 1] then 1 else 0
  }

  /** Values above `hi` are not kept ones, so no more than the others can be. */
  lemma {:induction false} KeptAreCounted(ys: seq<real>, keep: seq<bool>, hi: real)
    requires |keep| == |ys| && forall i :: 0 <= i < |ys| && keep[i] ==> ys[i] <= hi
    ensures CountAtMost(ys, hi) >= CountTrue(keep)
  {
    if ys != [] {
      KeptAreCounted(ys[..|ys| - 1], keep[..|keep| - 1], hi);
    }
  }

  lemma {:induction false} KeptAreNotCounted(ys: seq<real>, keep: seq<bool>, lo: real, v: real)
    requires |keep| == |ys| && v < lo && forall i :: 0 <= i < |ys| && keep[i] ==> lo <= ys[i]
    ensures CountAtMost(ys, v) <= |ys| - CountTrue(keep)
  {
    if ys != [] {
      KeptAreNotCounted(ys[..|ys| - 1], keep[..|keep| - 1], lo, v);
    }
  }

  /** When more than half of the values lie in a band, so does the interpolated median, whatever the others are. */
  lemma MedianInBand(ys: seq<real>, keep: seq<bool>, lo: real, hi: real)
    requires |keep| == |ys| && 2 * CountTrue(keep) > |ys|
    requires forall i :: 0 <= i < |ys| && keep[i] ==> lo <= ys[i] <= hi
    ensures Median(ys).Some? && lo <= Median(ys).value <= hi
  {
    hide Place, Mix, Ceil;
    var n := |ys|;
    SortSorts(ys, 0.0);
    QuantileBetween(Sort(ys), 0.5);
    PlaceOfMedian(n);
    var l, h := (n - 1) / 2, n / 2;
    PlaceByCount(ys, h, hi);
    KeptAreCounted(ys, keep, hi);
    if Sort(ys)[l] < lo {
      var v := Sort(ys)[l];
      PlaceByCount(ys, l, v);
      KeptAreNotCounted(ys, keep, lo, v);
    }
  }

  /** The points of `xs` left alone in `ys`. */
  function Untouched(xs: seq<real>, ys: seq<real>): seq<bool>
    requires |xs| == |ys|
  {
    seq(|xs|, i requires 0 <= i < |xs| => xs[i] == ys[i])
  }

  /** Replace fewer than half of the points by anything: the median stays between two of the points left alone. */
  lemma MedianResists(xs: seq<real>, ys: seq<real>)
    requires |xs| == |ys| && 2 * CountTrue(Untouched(xs, ys)) > |xs|
    ensures Median(ys).Some?
    ensures exists i, j :: 0 <= i < |xs| && 0 <= j < |xs| && xs[i] == ys[i] && xs[j] == ys[j]
                           && xs[i] <= Median(ys).value <= xs[j]
  {
    var keep := Untouched(xs, ys);
    var i, j := Extremes(ys, keep);
    MedianInBand(ys, keep, ys[i], ys[j]);
  }

  lemma {:induction false} Extremes(ys: seq<real>, keep: seq<bool>) returns (i: nat, j: nat)
    requires |keep| == |ys| && CountTrue(keep) > 0
    ensures i < |ys| && j < |ys| && keep[i] && keep[j]
    ensures forall k :: 0 <= k < |ys| && keep[k] ==> ys[i] <= ys[k] <= ys[j]
  {
    var n := |ys| - 1;
    if CountTrue(keep[..n]) == 0 {
      NoneKept(keep[..n]);
      i, j := n, n;
      assert forall k :: 0 <= k < n ==> keep[k] == keep[..n][k];
    } else {
      i, j := Extremes(ys[..n], keep[..n]);
      assert forall k :: 0 <= k < n ==> keep[k] == keep[..n][k] && ys[k] == ys[..n][k];
      if keep[n] && ys[n] < ys[i] {
        i := n;
      }
      if keep[n] && ys[n] > ys[j] {
        j := n;
      }
    }
  }

  lemma {:induction false} NoneKept(keep: seq<bool>)
    requires CountTrue(keep) == 0
    ensures forall k :: 0 <= k < |keep| ==> !keep[k]
  {
    if keep != [] {
      NoneKept(keep[..|keep| - 1]);
    }
  }

  /** Half is the limit: with `k` of `n` zeros replaced by one and 2k >= n, the median leaves zero. */
  lemma MedianBreaksAtHalf(n: nat, k: nat)
    requires 0 < n <= 2 * k && k <= n
    ensures var ys := seq(n - k, _ => 0.0) + seq(k, _ => 1.0); Median(ys).Some? && Median(ys).value > 0.0
  {
    hide Place, Mix, Ceil, Sort;
    var zeros, ones := seq(n - k, _ => 0.0), seq(k, _ => 1.0);
    var ys := zeros + ones;
    CountConcat(zeros, ones, 0.0);
    AllCounted(zeros, 0.0);
    NoneCounted(ones, 0.0);
    SortSorts(ys, 0.0);
    QuantileBetween(Sort(ys), 0.5);
    PlaceOfMedian(n);
    PlaceByCount(ys, n / 2, 0.0);
    PlaceIsMember(ys, (n - 1) / 2);
    if (n - 1) / 2 != n / 2 {
      HalfwayIsPositive(n, Sort(ys)[(n - 1) / 2], Sort(ys)[n / 2]);
    }
  }

  lemma HalfwayIsPositive(n: nat, a: real, b: real)
    requires n > 0 && a >= 0.0 && b > 0.0 && (n - 1) / 2 != n / 2
    ensures Mix(a, b, Place(n, 0.5) - ((n - 1) / 2) as real) > 0.0
  {
    assert n % 2 == 0 && 2 * ((n - 1) / 2) == n - 2;
    assert Place(n, 0.5) - ((n - 1) / 2) as real == 0.5;
  }

  // ---- robustStats --------------------------------------------------------------------------------------------------

  datatype RobustStats = RobustStats(samples: nat, median: Option<real>, mad: Option<real>, p95: Option<real>,
                                     mean: Option<real>, max: Option<real>, min: Option<real>)

  const MAD_SCALE := 1.4826

  function Finite(values: seq<Option<real>>): seq<real> {
    if values == [] then []
    else Finite(values[..|values| - 1]) + match values[|values| - 1] case None => [] case Some(v) => [v]
  }

  function Sum(v: seq<real>): real {
    if v == [] then 0.0 else Sum(v[..|v| - 1]) + v[|v| - 1]
  }

  function Abs(x: real): real {
    if x < 0.0 then -x else x
  }

  function Deviations(v: seq<real>, med: real): seq<real> {
    seq(|v|, i requires 0 <= i < |v| => Abs(v[i] - med))
  }

  function Scaled(x: Option<real>): Option<real> {
    match x
    case None => None
    case Some(v) => Some(MAD_SCALE * v)
  }

  function Robust(values: seq<Option<real>>): RobustStats {
    var v := Finite(values);
    if v == [] then RobustStats(0, None, None, None, None, None, None)
    else
      var sorted := Sort(v);
      var med := Quantile(sorted, 0.5);
      RobustStats(|v|, med, if med.Some? then Scaled(Median(Deviations(v, med.value)))
          else None, Quantile(sorted, 0.95),
                  Some(Sum(v) / |v| as real), Some(sorted[|sorted| - 1]), Some(sorted[0]))
  }

  lemma MedianNotNegative(dev: seq<real>)
    requires dev != [] && forall x <- dev :: x >= 0.0
    ensures Median(dev).Some? && Median(dev).value >= 0.0
  {
    hide Place, Mix, Ceil, Sort;
    SortSorts(dev, 0.0);
    QuantileBetween(Sort(dev), 0.5);
    PlaceIsMember(dev, Place(|dev|, 0.5).Floor);
  }

  lemma SortedOrder(sorted: seq<real>)
    requires Sorted(sorted) && sorted != []
    ensures Quantile(sorted, 0.5).Some? && Quantile(sorted, 0.95).Some?
    ensures sorted[0] <= Quantile(sorted, 0.5).value <= Quantile(sorted, 0.95).value <= sorted[|sorted| - 1]
  {
    hide Place, Mix, Ceil, Quantile;
    QuantileMonotone(sorted, 0.5, 0.95);
    QuantileBetween(sorted, 0.5);
    QuantileBetween(sorted, 0.95);
  }

  /** The statistics sit where their names say, and the MAD is no length below zero. */
  lemma RobustOrdered(values: seq<Option<real>>)
    requires Finite(values) != []
    ensures var r := Robust(values);
      && r.min.Some? && r.median.Some? && r.p95.Some? && r.max.Some? && r.mad.Some?
      && r.min.value <= r.median.value <= r.p95.value <= r.max.value && r.mad.value >= 0.0
  {
    hide Quantile, Sort, Median, Sum, Finite;
    var v := Finite(values);
    SortSorts(v, 0.0);
    SortedOrder(Sort(v));
    MedianNotNegative(Deviations(v, Quantile(Sort(v), 0.5).value));
  }

  /** When more than half of the points lie in a band, the MAD is at most the band's width (scaled): neither the
      centre nor the spread of a baseline is carried off by spikes. */
  lemma MadResists(v: seq<real>, keep: seq<bool>, lo: real, hi: real)
    requires |keep| == |v| && 2 * CountTrue(keep) > |v|
    requires forall i :: 0 <= i < |v| && keep[i] ==> lo <= v[i] <= hi
    ensures var r := Robust(seq(|v|, i requires 0 <= i < |v| => Some(v[i])));
      && r.median.Some? && lo <= r.median.value <= hi
      && r.mad.Some? && 0.0 <= r.mad.value <= MAD_SCALE * (hi - lo)
  {
    hide Quantile, Sort, Sum, Finite;
    AllFinite(v);
    MedianInBand(v, keep, lo, hi);
    var dev := Deviations(v, Median(v).value);
    MedianInBand(dev, keep, 0.0, hi - lo);
  }

  lemma {:induction false} AllFinite(v: seq<real>)
    ensures Finite(seq(|v|, i requires 0 <= i < |v| => Some(v[i]))) == v
  {
    if v != [] {
      var s := seq(|v|, i requires 0 <= i < |v| => Some(v[i]));
      var n := |v| - 1;
      AllFinite(v[..n]);
      assert s[..n] == seq(|v[..n]|, i requires 0 <= i < |v[..n]| => Some(v[..n][i]));
      assert v == v[..n] + [v[n]];
    }
  }

  // ---- the seasonal profile -----------------------------------------------------------------------------------------

  datatype Point = Point(t: int, v: Option<real>)

  const HOUR := 3600000
  const DAY := 86400000
  const MIN_PER_BUCKET := 5
  const MIN_DAYS_FOR_SEASONAL := 7

  function HourOfDay(t: int): (h: nat)
    ensures h < 24
  {
    (t / HOUR) % 24
  }

  /** The first of January 1970 was a Thursday. */
  function DayOfWeek(t: int): (d: nat)
    ensures d < 7
  {
    (t / DAY + 4) % 7
  }

  function HourBucket(points: seq<Point>, h: nat): seq<real> {
    if points == [] then []
    else
      var p := points[|points| - 1];
      HourBucket(points[..|points| - 1], h) + if p.v.Some? && HourOfDay(p.t) == h then [p.v.value] else []
  }

  function DayBucket(points: seq<Point>, d: nat): seq<real> {
    if points == [] then []
    else
      var p := points[|points| - 1];
      DayBucket(points[..|points| - 1], d) + if p.v.Some? && DayOfWeek(p.t) == d then [p.v.value] else []
  }

  function Days(points: seq<Point>): set<int> {
    set p <- points | p.v.Some? :: p.t / DAY
  }

  function BucketMedian(enough: bool, b: seq<real>): Option<real> {
    if enough && |b| >= MIN_PER_BUCKET then Median(b) else None
  }

  datatype Seasonal = Seasonal(byHour: seq<Option<real>>, byDow: seq<Option<real>>, days: nat)

  /** Fills the hour and weekday buckets point by point. */
  method SeasonalProfile(points: seq<Point>) returns (s: Seasonal)
    ensures |s.byHour| == 24 && |s.byDow| == 7 && s.days == |Days(points)|
    ensures forall h :: 0 <= h < 24 ==>
      s.byHour[h] == BucketMedian(s.days >= MIN_DAYS_FOR_SEASONAL, HourBucket(points, h))
    ensures forall d :: 0 <= d < 7 ==>
      s.byDow[d] == BucketMedian(s.days >= MIN_DAYS_FOR_SEASONAL, DayBucket(points, d))
  {
    var byHour: seq<seq<real>> := seq(24, _ => []);
    var byDow: seq<seq<real>> := seq(7, _ => []);
    var days: set<int> := {};
    for k := 0 to |points|
      invariant |byHour| == 24 && |byDow| == 7
      invariant forall h :: 0 <= h < 24 ==> byHour[h] == HourBucket(points[..k], h)
      invariant forall d :: 0 <= d < 7 ==> byDow[d] == DayBucket(points[..k], d)
      invariant days == Days(points[..k])
    {
      var p := points[k];
      assert points[..k + 1][..k] == points[..k];
      assert points[..k + 1] == points[..k] + [p];
      if p.v.Some? {
        var h, d := HourOfDay(p.t), DayOfWeek(p.t);
        byHour := byHour[h := byHour[h] + [p.v.value]];
        byDow := byDow[d := byDow[d] + [p.v.value]];
        days := days + {p.t / DAY};
      }
    }
    assert points[..|points|] == points;
    var enough := |days| >= MIN_DAYS_FOR_SEASONAL;
    s := Seasonal(seq(24, h requires 0 <= h < 24 => BucketMedian(enough, byHour[h])),
                  seq(7, d requires 0 <= d < 7 => BucketMedian(enough, byDow[d])), |days|);
  }

  // ---- scoring ------------------------------------------------------------------------------------------------------

  datatype AlertLevel = Normal | High | Extreme
  datatype Basis = HourBasis | MedianBasis
  datatype Score = Score(expected: Option<real>, ratio: Option<real>, z: Option<real>, level: AlertLevel, basis: Basis)
  datatype Baseline = Baseline(median: Option<real>, mad: Option<real>, byHour: seq<Option<real>>, p95: Option<real>)

  function LevelRank(l: AlertLevel): nat {
    match l
    case Normal => 0
    case High => 1
    case Extreme => 2
  }

  /** The hour's median when the profile has one, the overall median otherwise. */
  function Expected(b: Baseline, at: int): Option<real> {
    var h := HourOfDay(at);
    if h < |b.byHour| && b.byHour[h].Some? then b.byHour[h] else b.median
  }

  function ScoreValue(b: Baseline, value: real, at: int): Score {
    var h := HourOfDay(at);
    var basis := if h < |b.byHour| && b.byHour[h].Some? then HourBasis else MedianBasis;
    var expected := Expected(b, at);
    var ratio := if expected.Some? && expected.value > 0.0 then Some(value / expected.value) else None;
    var z := if b.mad.Some? && b.mad.value > 0.0 && expected.Some?
        then Some((value - expected.value) / b.mad.value) else None;
    var far := ratio.Some? && ratio.value >= 2.0;
    var out := z.Some? && z.value >= 3.0;
    var level := if far && out && b.p95.Some? && value > b.p95.value then Extreme
                 else if far || out then High else Normal;
    Score(expected, ratio, z, level, basis)
  }

  /** A larger value is never less unusual at the same moment. */
  lemma ScoreMonotone(b: Baseline, v: real, w: real, at: int)
    requires v <= w
    ensures LevelRank(ScoreValue(b, v, at).level) <= LevelRank(ScoreValue(b, w, at).level)
  {
    var e := Expected(b, at);
    if e.Some? && e.value > 0.0 {
      Quotient(v, e.value, 2.0);
      Quotient(w, e.value, 2.0);
    }
    if e.Some? && b.mad.Some? && b.mad.value > 0.0 {
      Quotient(v - e.value, b.mad.value, 3.0);
      Quotient(w - e.value, b.mad.value, 3.0);
    }
  }

  /** What each level means, free of the divisions: twice the expected value of the hour, three scaled MADs above it. */
  lemma ScoreMeaning(b: Baseline, v: real, at: int)
    requires Expected(b, at).Some?
    ensures var e := Expected(b, at).value;
      var far := e > 0.0 && v >= 2.0 * e;
      var out := b.mad.Some? && b.mad.value > 0.0 && v >= e + 3.0 * b.mad.value;
      && (ScoreValue(b, v, at).level.Normal? <==> !far && !out)
      && (ScoreValue(b, v, at).level.Extreme? <==> far && out && b.p95.Some? && v > b.p95.value)
  {
    var e := Expected(b, at).value;
    if e > 0.0 {
      Quotient(v, e, 2.0);
    }
    if b.mad.Some? && b.mad.value > 0.0 {
      Quotient(v - e, b.mad.value, 3.0);
    }
  }

  /** The expected value itself, and everything below it, is normal. */
  lemma ExpectedIsNormal(b: Baseline, v: real, at: int)
    requires Expected(b, at).Some? && v <= Expected(b, at).value
    ensures ScoreValue(b, v, at).level == Normal
  {
    ScoreMeaning(b, v, at);
  }
}
