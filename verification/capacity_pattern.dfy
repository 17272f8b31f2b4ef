/** The learned week of `src/capacity_pattern.ts`: what a group needs at each of the 168 hours of the week. Times are
    milliseconds, capacities the numbers the source computes with. */
module CapacityPattern {
  import opened Options
  import opened OrderStats

  const HOUR := 3600000
  const DAY := 86400000
  const PATTERN_DAYS := 28
  const HOURS_PER_WEEK := 168
  const MIN_WEEKS := 2
  const HAND_SET_HOURS := 24

  datatype PatternHour = PatternHour(at: int, desired: real, need: Option<real>, binding: string)
  datatype PressureEvent = PressureEvent(at: int, desired: real)
  datatype PatternInput = PatternInput(hours: seq<PatternHour>, pressure: seq<PressureEvent>, floor: real,
                                       ceiling: Option<real>, now: int)
  datatype Pattern = Pattern(weeks: nat, coverage: real, confident: bool, learned: seq<real>, wanted: seq<real>,
                             trigger: seq<real>, binding: seq<string>, pressure: seq<real>, pressureEvents: nat)

  /** Hour of the week, 0 = Sunday 00:00 UTC; the first of January 1970 was a Thursday. */
  function RingIndex(at: int): (r: nat)
    ensures r < HOURS_PER_WEEK
  {
    (at / HOUR + 4 * 24) % HOURS_PER_WEEK
  }

  /** Consecutive hours are consecutive places on the ring. */
  lemma RingStep(at: int)
    ensures RingIndex(at + HOUR) == Next(RingIndex(at), HOURS_PER_WEEK)
  {
    assert (at + HOUR) / HOUR == at / HOUR + 1;
  }

  function Prev(r: nat, n: nat): (p: nat)
    requires r < n
    ensures p == if r == 0 then n - 1 else r - 1
  {
    Remainder(r + n - 1, n);
    (r + n - 1) % n
  }

  function Next(r: nat, n: nat): (s: nat)
    requires r < n
    ensures s == if r == n - 1 then 0 else r + 1
  {
    Remainder(r + 1, n);
    (r + 1) % n
  }

  lemma Remainder(x: nat, n: nat)
    requires x < 2 * n
    ensures x % n == if x < n then x else x - n
  {
    Multiples(x / n, n);
    assert x == (x / n) * n + x % n;
  }

  lemma Multiples(q: nat, n: nat)
    ensures q >= 2 ==> q * n >= 2 * n
    ensures q == 1 ==> q * n == n
    ensures q == 0 ==> q * n == 0
  {
  }

  // ---- smoothing ---------------------------------------------------------------------------------------------------

  function Min(a: real, b: real): real {
    if a < b then a else b
  }

  function SmoothDips(learned: seq<real>): (s: seq<real>)
    ensures |s| == |learned|
  {
    var n := |learned|;
    seq(n, r requires 0 <= r < n =>
      var v, a, b := learned[r], learned[Prev(r, n)], learned[Next(r, n)];
      if v < a && v < b then Min(a, b) else v)
  }

  ghost predicate Dip(s: seq<real>, r: nat)
    requires r < |s|
  {
    s[r] < s[Prev(r, |s|)] && s[r] < s[Next(r, |s|)]
  }

  ghost predicate NoDips(s: seq<real>) {
    forall r: nat :: r < |s| ==> !Dip(s, r)
  }

  lemma SmoothRaises(s: seq<real>)
    ensures Below(s, SmoothDips(s))
  {
  }

  lemma SmoothLeavesNoDip(s: seq<real>)
    ensures NoDips(SmoothDips(s))
  {
    forall r: nat | r < |s|
      ensures !Dip(SmoothDips(s), r)
    {
      assert Next(Prev(r, |s|), |s|) == r && Prev(Next(r, |s|), |s|) == r;
    }
  }

  lemma SmoothIsLeast(s: seq<real>, u: seq<real>)
    requires Below(s, u) && NoDips(u)
    ensures Below(SmoothDips(s), u)
  {
    forall r: nat | r < |s|
      ensures SmoothDips(s)[r] <= u[r]
    {
      assert !Dip(u, r);
    }
  }

  /** One pass is the least way to raise a circular week until no hour is below both its neighbours; so it settles in
      one pass and never reverses an order between weeks. */
  lemma SmoothIsClosure(s: seq<real>, t: seq<real>)
    ensures Below(s, SmoothDips(s)) && NoDips(SmoothDips(s))
    ensures forall u :: Below(s, u) && NoDips(u) ==> Below(SmoothDips(s), u)
    ensures SmoothDips(SmoothDips(s)) == SmoothDips(s)
    ensures Below(s, t) ==> Below(SmoothDips(s), SmoothDips(t))
  {
    SmoothRaises(s);
    SmoothLeavesNoDip(s);
    forall u | Below(s, u) && NoDips(u)
      ensures Below(SmoothDips(s), u)
    {
      SmoothIsLeast(s, u);
    }
    var once := SmoothDips(s);
    SmoothRaises(once);
    SmoothIsLeast(once, once);
    assert forall r :: 0 <= r < |s| ==> SmoothDips(once)[r] == once[r];
    if Below(s, t) {
      SmoothRaises(t);
      SmoothLeavesNoDip(t);
      SmoothIsLeast(s, SmoothDips(t));
    }
  }

  // ---- learning ----------------------------------------------------------------------------------------------------

  predicate InWindow(now: int, at: int) {
    now - PATTERN_DAYS * DAY <= at <= now
  }

  function WeekOf(at: int): int {
    at / (7 * DAY)
  }

  /** The window's hours at place `r`, in the order given. */
  function Samples(hours: seq<PatternHour>, now: int, r: nat): seq<PatternHour> {
    if hours == [] then []
    else
      var h := hours[|hours| - 1];
      Samples(hours[..|hours| - 1], now, r) + if InWindow(now, h.at) && RingIndex(h.at) == r then [h] else []
  }

  function Weeks(hours: seq<PatternHour>, now: int): set<int> {
    set h <- hours | InWindow(now, h.at) :: WeekOf(h.at)
  }

  function NeedOf(h: PatternHour): real {
    if h.need.Some? then h.need.value else h.desired
  }

  function Needs(xs: seq<PatternHour>): seq<real> {
    seq(|xs|, i requires 0 <= i < |xs| => NeedOf(xs[i]))
  }

  function Desireds(xs: seq<PatternHour>): seq<real> {
    seq(|xs|, i requires 0 <= i < |xs| => xs[i].desired)
  }

  function P95Index(n: nat): nat
    requires n > 0
  {
    95 * (n - 1) / 100
  }

  /** The maximum while there are fewer than three weeks, the 95th percentile from then on. */
  function Pick(xs: seq<real>, weeks: nat): real
    requires xs != []
  {
    if weeks < 3 then MaxOf(xs) else Sort(xs)[P95Index(|xs|)]
  }

  function Wanted(xs: seq<real>, weeks: nat, floor: real): real {
    if xs == [] then floor else Pick(xs, weeks)
  }

  function Clamp(v: real, floor: real, ceiling: Option<real>): real {
    Max(floor, if ceiling.None? then v else Min(ceiling.value, v))
  }

  /** The pressure bump of place `r`: each event in the window raises its hour and the one before. */
  function PressureAt(events: seq<PressureEvent>, now: int, r: nat): real {
    if events == [] then 0.0
    else
      var e := events[|events| - 1];
      var p := PressureAt(events[..|events| - 1], now, r);
      if Presses(e, now, r) then Max(p, e.desired + 1.0) else p
  }

  predicate Presses(e: PressureEvent, now: int, r: nat) {
    InWindow(now, e.at) && (r == RingIndex(e.at) || r == Prev(RingIndex(e.at), HOURS_PER_WEEK))
  }

  function WantedAt(i: PatternInput, r: nat): real {
    Wanted(Needs(Samples(i.hours, i.now, r)), |Weeks(i.hours, i.now)|, i.floor)
  }

  /** What an hour asks for before smoothing. */
  function BaseAt(i: PatternInput, r: nat): real {
    Clamp(Max(WantedAt(i, r), PressureAt(i.pressure, i.now, r)), i.floor, i.ceiling)
  }

  function Base(i: PatternInput): seq<real> {
    seq(HOURS_PER_WEEK, r requires 0 <= r < HOURS_PER_WEEK => BaseAt(i, r))
  }

  function LearnedWeek(i: PatternInput): seq<real> {
    SmoothDips(Base(i))
  }

  /** The signal named for an hour: that of the last sample whose need is the wanted value. */
  function BindingOf(xs: seq<PatternHour>, wanted: real): string {
    if xs == [] then "trigger"
    else if NeedOf(xs[|xs| - 1]) == wanted then xs[|xs| - 1].binding
    else BindingOf(xs[..|xs| - 1], wanted)
  }

  function Covered(i: PatternInput): set<nat> {
    set r: nat | r < HOURS_PER_WEEK && Samples(i.hours, i.now, r) != []
  }

  /** `Math.round(x * 100) / 100` of the covered share. */
  function Coverage(covered: nat): real {
    ((covered as real * 100.0 / 168.0 + 0.5).Floor) as real / 100.0
  }

  predicate Confident(weeks: nat, coverage: real) {
    weeks >= MIN_WEEKS && coverage >= 0.8
  }

  /** The rounding lets 134 covered hours through, a little under the stated 80 % (134.4 hours). */
  lemma ConfidentFrom134Hours(weeks: nat, covered: nat)
    ensures Confident(weeks, Coverage(covered)) <==> weeks >= 2 && covered >= 134
  {
  }

  function EventsIn(events: seq<PressureEvent>, now: int): nat {
    if events == [] then 0
    else EventsIn(events[..|events| - 1], now) + if InWindow(now, events[|events| - 1].at) then 1 else 0
  }

  method CollectHours(hours: seq<PatternHour>, now: int) returns (perRing: seq<seq<PatternHour>>, weeks: set<int>)
    ensures |perRing| == HOURS_PER_WEEK
    ensures forall r :: 0 <= r < HOURS_PER_WEEK ==> perRing[r] == Samples(hours, now, r)
    ensures weeks == Weeks(hours, now)
  {
    perRing, weeks := seq(HOURS_PER_WEEK, _ => []), {};
    for k := 0 to |hours|
      invariant |perRing| == HOURS_PER_WEEK
      invariant forall r :: 0 <= r < HOURS_PER_WEEK ==> perRing[r] == Samples(hours[..k], now, r)
      invariant weeks == Weeks(hours[..k], now)
    {
      var h := hours[k];
      assert hours[..k + 1][..k] == hours[..k] && hours[..k + 1] == hours[..k] + [h];
      if InWindow(now, h.at) {
        var r := RingIndex(h.at);
        perRing := perRing[r := perRing[r] + [h]];
        weeks := weeks + {WeekOf(h.at)};
      }
    }
    assert hours[..|hours|] == hours;
  }

  method CollectPressure(events: seq<PressureEvent>, now: int) returns (pressure: seq<real>, count: nat)
    ensures |pressure| == HOURS_PER_WEEK && count == EventsIn(events, now)
    ensures forall r :: 0 <= r < HOURS_PER_WEEK ==> pressure[r] == PressureAt(events, now, r)
  {
    pressure, count := seq(HOURS_PER_WEEK, _ => 0.0), 0;
    for k := 0 to |events|
      invariant |pressure| == HOURS_PER_WEEK && count == EventsIn(events[..k], now)
      invariant forall r :: 0 <= r < HOURS_PER_WEEK ==> pressure[r] == PressureAt(events[..k], now, r)
    {
      var e := events[k];
      assert events[..k + 1][..k] == events[..k];
      if InWindow(now, e.at) {
        count := count + 1;
        var r := RingIndex(e.at);
        var before := Prev(r, HOURS_PER_WEEK);
        pressure := pressure[r := Max(pressure[r], e.desired + 1.0)];
        pressure := pressure[before := Max(pressure[before], e.desired + 1.0)];
      }
    }
    assert events[..|events|] == events;
  }

  method LearnPattern(i: PatternInput) returns (p: Pattern)
    ensures p.learned == LearnedWeek(i)
    ensures |p.wanted| == |p.trigger| == |p.binding| == |p.pressure| == HOURS_PER_WEEK
    ensures forall r :: 0 <= r < HOURS_PER_WEEK ==>
      var xs := Samples(i.hours, i.now, r);
      && p.wanted[r] == WantedAt(i, r) && p.pressure[r] == PressureAt(i.pressure, i.now, r)
      && p.trigger[r] == Wanted(Desireds(xs), p.weeks, i.floor) && p.binding[r] == BindingOf(xs, p.wanted[r])
    ensures p.weeks == |Weeks(i.hours, i.now)| && p.coverage == Coverage(|Covered(i)|)
    ensures p.confident <==> Confident(p.weeks, p.coverage)
    ensures p.pressureEvents == EventsIn(i.pressure, i.now)
  {
    var perRing, weekSet := CollectHours(i.hours, i.now);
    var pressure, events := CollectPressure(i.pressure, i.now);
    var weeks := |weekSet|;
    var covered := set r: nat | r < HOURS_PER_WEEK && perRing[r] != [];
    assert covered == Covered(i);
    var coverage := Coverage(|covered|);
    var wanted := seq(HOURS_PER_WEEK, r requires 0 <= r < HOURS_PER_WEEK => Wanted(Needs(perRing[r]), weeks, i.floor));
    var trigger := seq(HOURS_PER_WEEK, r requires 0 <= r < HOURS_PER_WEEK => Wanted(Desireds(perRing[r]), weeks,
        i.floor));
    var binding := seq(HOURS_PER_WEEK, r requires 0 <= r < HOURS_PER_WEEK => BindingOf(perRing[r], wanted[r]));
    var base := seq(HOURS_PER_WEEK, r requires 0 <= r < HOURS_PER_WEEK =>
      Clamp(Max(wanted[r], pressure[r]), i.floor, i.ceiling));
    assert base == Base(i);
    p := Pattern(weeks, coverage, Confident(weeks, coverage), SmoothDips(base), wanted, trigger, binding, pressure,
        events);
  }

  // ---- what the learned week promises -------------------------------------------------------------------------------

  /** The learned week is the least circular week at or above what each hour asks for (the clamped maximum of its need
      and its pressure) that has no hour below both its neighbours. */
  lemma LearnedIsLeast(i: PatternInput)
    ensures Below(Base(i), LearnedWeek(i)) && NoDips(LearnedWeek(i))
    ensures forall u :: Below(Base(i), u) && NoDips(u) ==> Below(LearnedWeek(i), u)
  {
    SmoothIsClosure(Base(i), Base(i));
  }

  /** Every learned hour is inside the band. */
  lemma LearnedInBand(i: PatternInput, r: nat)
    requires r < HOURS_PER_WEEK
    ensures i.floor <= LearnedWeek(i)[r]
    ensures i.ceiling.Some? && i.floor <= i.ceiling.value ==> LearnedWeek(i)[r] <= i.ceiling.value
  {
    assert forall k: nat :: k < HOURS_PER_WEEK ==> Base(i)[k] == BaseAt(i, k);
  }

  lemma {:induction false} PressureMeaning(events: seq<PressureEvent>, now: int, r: nat)
    ensures PressureAt(events, now, r) >= 0.0
    ensures forall e <- events :: Presses(e, now, r) ==> e.desired + 1.0 <= PressureAt(events, now, r)
    ensures PressureAt(events, now, r) == 0.0 ||
            exists e <- events :: Presses(e, now, r) && PressureAt(events, now, r) == e.desired + 1.0
  {
    if events != [] {
      PressureMeaning(events[..|events| - 1], now, r);
      assert events == events[..|events| - 1] + [events[|events| - 1]];
    }
  }

  /** Every pressure event of the window keeps its hour and the one before at least at the capacity that ran plus one,
      as far as the band allows. */
  lemma PressureIsHeeded(i: PatternInput, e: PressureEvent, r: nat)
    requires e in i.pressure && InWindow(i.now, e.at)
    requires r == RingIndex(e.at) || r == Prev(RingIndex(e.at), HOURS_PER_WEEK)
    ensures LearnedWeek(i)[r] >= Clamp(e.desired + 1.0, i.floor, i.ceiling)
  {
    PressureMeaning(i.pressure, i.now, r);
    SmoothRaises(Base(i));
    assert Base(i)[r] == BaseAt(i, r);
  }

  // the order of the input does not matter

  function NeedsAt(hours: seq<PatternHour>, now: int, r: nat): seq<real> {
    if hours == [] then []
    else
      var h := hours[|hours| - 1];
      NeedsAt(hours[..|hours| - 1], now, r) + if InWindow(now, h.at) && RingIndex(h.at) == r then [NeedOf(h)] else []
  }

  lemma {:induction false} NeedsOfSamples(hours: seq<PatternHour>, now: int, r: nat)
    ensures Needs(Samples(hours, now, r)) == NeedsAt(hours, now, r)
  {
    if hours != [] {
      NeedsOfSamples(hours[..|hours| - 1], now, r);
    }
  }

  lemma {:induction false} NeedsAtConcat(a: seq<PatternHour>, b: seq<PatternHour>, now: int, r: nat)
    ensures NeedsAt(a + b, now, r) == NeedsAt(a, now, r) + NeedsAt(b, now, r)
  {
    if b == [] {
      assert a + b == a;
    } else {
      assert (a + b)[..|a + b| - 1] == a + b[..|b| - 1];
      NeedsAtConcat(a, b[..|b| - 1], now, r);
    }
  }

  lemma {:induction false} NeedsAtPermuted(xs: seq<PatternHour>, ys: seq<PatternHour>, now: int, r: nat)
    requires multiset(xs) == multiset(ys)
    ensures multiset(NeedsAt(xs, now, r)) == multiset(NeedsAt(ys, now, r))
    decreases |xs|
  {
    assert |xs| == |multiset(xs)| == |multiset(ys)| == |ys|;
    if xs != [] {
      var n := |xs| - 1;
      assert xs[n] in multiset(ys);
      var j :| 0 <= j < |ys| && ys[j] == xs[n];
      DropHour(xs, n, now, r);
      DropHour(ys, j, now, r);
      assert xs[..n] + xs[n + 1..] == xs[..n];
      NeedsAtPermuted(xs[..n], ys[..j] + ys[j + 1..], now, r);
    }
  }

  /** Taking one hour out takes its need, if it counted, out. */
  lemma DropHour(ys: seq<PatternHour>, j: nat, now: int, r: nat)
    requires j < |ys|
    ensures multiset(ys[..j] + ys[j + 1..]) == multiset(ys) - multiset{ys[j]}
    ensures multiset(NeedsAt(ys, now, r)) ==
            multiset(NeedsAt(ys[..j] + ys[j + 1..], now, r)) + multiset(NeedsAt([ys[j]], now, r))
  {
    var a, b := ys[..j], ys[j + 1..];
    assert ys == a + [ys[j]] + b;
    NeedsAtConcat(a + [ys[j]], b, now, r);
    NeedsAtConcat(a, [ys[j]], now, r);
    NeedsAtConcat(a, b, now, r);
  }

  lemma PickPermuted(xs: seq<real>, ys: seq<real>, weeks: nat, floor: real)
    requires multiset(xs) == multiset(ys)
    ensures Wanted(xs, weeks, floor) == Wanted(ys, weeks, floor)
  {
    assert |xs| == |multiset(xs)| == |multiset(ys)| == |ys|;
    if xs != [] {
      PlacePermuted(xs, ys, P95Index(|xs|));
      MaxOfMeaning(xs);
      MaxOfMeaning(ys);
      assert MaxOf(xs) in multiset(xs) && MaxOf(ys) in multiset(ys);
      assert MaxOf(xs) in ys && MaxOf(ys) in xs;
    }
  }

  /** The learned week does not depend on the order of the hours or of the pressure events. */
  lemma LearnedPermuted(i: PatternInput, j: PatternInput)
    requires multiset(i.hours) == multiset(j.hours) && multiset(i.pressure) == multiset(j.pressure)
    requires i.floor == j.floor && i.ceiling == j.ceiling && i.now == j.now
    ensures LearnedWeek(i) == LearnedWeek(j)
  {
    assert forall h :: h in i.hours <==> h in multiset(i.hours);
    assert forall h :: h in j.hours <==> h in multiset(j.hours);
    assert Weeks(i.hours, i.now) == Weeks(j.hours, j.now);
    forall r: nat | r < HOURS_PER_WEEK
      ensures BaseAt(i, r) == BaseAt(j, r)
    {
      NeedsAtPermuted(i.hours, j.hours, i.now, r);
      NeedsOfSamples(i.hours, i.now, r);
      NeedsOfSamples(j.hours, j.now, r);
      PickPermuted(NeedsAt(i.hours, i.now, r), NeedsAt(j.hours, j.now, r), |Weeks(i.hours, i.now)|, i.floor);
      PressurePermuted(i.pressure, j.pressure, i.now, r);
    }
    assert Base(i) == Base(j);
  }

  lemma PressurePermuted(xs: seq<PressureEvent>, ys: seq<PressureEvent>, now: int, r: nat)
    requires multiset(xs) == multiset(ys)
    ensures PressureAt(xs, now, r) == PressureAt(ys, now, r)
  {
    PressureMeaning(xs, now, r);
    PressureMeaning(ys, now, r);
    assert forall e :: e in xs <==> e in multiset(xs);
    assert forall e :: e in ys <==> e in multiset(ys);
  }

  // raising the input never lowers the week

  /** The same hours, each needing at least as much. */
  ghost predicate Raised(xs: seq<PatternHour>, ys: seq<PatternHour>) {
    |xs| == |ys| && forall k :: 0 <= k < |xs| ==> xs[k].at == ys[k].at && NeedOf(xs[k]) <= NeedOf(ys[k])
  }

  lemma {:induction false} NeedsRaised(xs: seq<PatternHour>, ys: seq<PatternHour>, now: int, r: nat)
    requires Raised(xs, ys)
    ensures Below(NeedsAt(xs, now, r), NeedsAt(ys, now, r))
  {
    if xs != [] {
      NeedsRaised(xs[..|xs| - 1], ys[..|ys| - 1], now, r);
    }
  }

  lemma {:induction false} MaxMonotone(xs: seq<real>, ys: seq<real>)
    requires Below(xs, ys) && xs != []
    ensures MaxOf(xs) <= MaxOf(ys)
  {
    if |xs| > 1 {
      MaxMonotone(xs[..|xs| - 1], ys[..|ys| - 1]);
    }
  }

  lemma WantedMonotone(xs: seq<real>, ys: seq<real>, weeks: nat, floor: real)
    requires Below(xs, ys)
    ensures Wanted(xs, weeks, floor) <= Wanted(ys, weeks, floor)
  {
    if xs != [] {
      MaxMonotone(xs, ys);
      PlaceMonotone(xs, ys, P95Index(|xs|));
    }
  }

  lemma SameWeeks(xs: seq<PatternHour>, ys: seq<PatternHour>, now: int)
    requires Raised(xs, ys)
    ensures Weeks(xs, now) == Weeks(ys, now)
  {
    forall w
      ensures w in Weeks(xs, now) <==> w in Weeks(ys, now)
    {
      if w in Weeks(xs, now) {
        var h :| h in xs && InWindow(now, h.at) && WeekOf(h.at) == w;
        var k :| 0 <= k < |xs| && xs[k] == h;
        assert ys[k] in ys;
      }
      if w in Weeks(ys, now) {
        var h :| h in ys && InWindow(now, h.at) && WeekOf(h.at) == w;
        var k :| 0 <= k < |ys| && ys[k] == h;
        assert xs[k] in xs;
      }
    }
  }

  /** Raising any hour's need, or adding pressure events, never lowers any learned hour. */
  lemma LearnedMonotone(i: PatternInput, j: PatternInput)
    requires Raised(i.hours, j.hours) && (forall e <- i.pressure :: e in j.pressure)
    requires i.floor == j.floor && i.ceiling == j.ceiling && i.now == j.now
    ensures Below(LearnedWeek(i), LearnedWeek(j))
  {
    SameWeeks(i.hours, j.hours, i.now);
    forall r: nat | r < HOURS_PER_WEEK
      ensures BaseAt(i, r) <= BaseAt(j, r)
    {
      NeedsRaised(i.hours, j.hours, i.now, r);
      NeedsOfSamples(i.hours, i.now, r);
      NeedsOfSamples(j.hours, j.now, r);
      WantedMonotone(NeedsAt(i.hours, i.now, r), NeedsAt(j.hours, j.now, r), |Weeks(i.hours, i.now)|, i.floor);
      PressureMeaning(i.pressure, i.now, r);
      PressureMeaning(j.pressure, i.now, r);
    }
    assert Below(Base(i), Base(j));
    SmoothIsClosure(Base(i), Base(j));
  }

  // ---- the learned week, condensed ----------------------------------------------------------------------------------

  ghost predicate InRun(runs: seq<(nat, nat)>, r: nat) {
    exists k :: 0 <= k < |runs| && runs[k].0 <= r < runs[k].1
  }

  lemma InRunGrows(runs: seq<(nat, nat)>, run: (nat, nat))
    ensures forall r: nat :: InRun(runs + [run], r) <==> InRun(runs, r) || run.0 <= r < run.1
  {
    forall r: nat
      ensures InRun(runs + [run], r) <==> InRun(runs, r) || run.0 <= r < run.1
    {
      if InRun(runs, r) {
        var k :| 0 <= k < |runs| && runs[k].0 <= r < runs[k].1;
        assert (runs + [run])[k] == runs[k];
      }
      if run.0 <= r < run.1 {
        assert (runs + [run])[|runs|] == run;
      }
    }
  }

  /** Where one level holds, as half-open runs of hours: in order, a gap between any two, so they are the maximal
      ones. */
  method LevelRuns(learned: seq<real>, level: real) returns (hours: nat, runs: seq<(nat, nat)>)
    requires |learned| == HOURS_PER_WEEK
    ensures hours == |set r: nat | r < HOURS_PER_WEEK && learned[r] == level|
    ensures forall k :: 0 <= k < |runs| ==> runs[k].0 < runs[k].1 <= HOURS_PER_WEEK
    ensures forall j, k :: 0 <= j < k < |runs| ==> runs[j].1 < runs[k].0
    ensures forall r: nat :: r < HOURS_PER_WEEK ==> (learned[r] == level <==> InRun(runs, r))
  {
    hide InRun;
    hours := |set r: nat | r < HOURS_PER_WEEK && learned[r] == level|;
    runs := [];
    NoRun();
    var start := -1;
    for r := 0 to HOURS_PER_WEEK + 1
      invariant -1 <= start < r || start == -1
      invariant start >= 0 ==> forall q :: start <= q < r ==> q < HOURS_PER_WEEK && learned[q] == level
      invariant r == HOURS_PER_WEEK + 1 ==> start < 0
      invariant forall k :: 0 <= k < |runs| ==> runs[k].0 < runs[k].1 <= HOURS_PER_WEEK && runs[k].1 < r
      invariant start >= 0 ==> forall k :: 0 <= k < |runs| ==> runs[k].1 < start
      invariant start < 0 && 0 < r <= HOURS_PER_WEEK ==> learned[r - 1] != level
      invariant forall j, k :: 0 <= j < k < |runs| ==> runs[j].1 < runs[k].0
      invariant forall q: nat :: q < r && q < HOURS_PER_WEEK && (start < 0 || q < start) ==>
        (learned[q] == level <==> InRun(runs, q))
      invariant forall q: nat :: q >= r ==> !InRun(runs, q)
      invariant start >= 0 ==> forall q: nat :: q >= start ==> !InRun(runs, q)
    {
      var on := r < HOURS_PER_WEEK && learned[r] == level;
      if on && start < 0 {
        start := r;
      }
      if !on && start >= 0 {
        InRunGrows(runs, (start, r));
        runs := runs + [(start, r)];
        start := -1;
      }
    }
  }

  lemma NoRun()
    ensures forall r: nat :: !InRun([], r)
  {
  }

  // ---- the decision for the coming hour -----------------------------------------------------------------------------

  datatype Decision = Decision(wanted: Option<real>, active: bool, handSet: bool)

  predicate HandSet(currentMin: real, lastSet: Option<real>) {
    lastSet.Some? && currentMin != lastSet.value
  }

  /** A MinSize someone set by hand is left alone for a day from the stamp. */
  predicate Held(currentMin: real, lastSet: Option<real>, handSetAt: Option<int>, now: int) {
    HandSet(currentMin, lastSet) && handSetAt.Some? && now - handSetAt.value < HAND_SET_HOURS * HOUR
  }

  function DecidePattern(p: Pattern, next: int, currentMin: real, lastSet: Option<real>, handSetAt: Option<int>,
                         now: int): Decision
    requires |p.learned| == HOURS_PER_WEEK
  {
    if !p.confident then Decision(None, false, false)
    else
      var want := p.learned[next % HOURS_PER_WEEK];
      if Held(currentMin, lastSet, handSetAt, now) then Decision(None, true, true)
      else if want == currentMin then Decision(None, true, HandSet(currentMin, lastSet))
      else Decision(Some(want), true, HandSet(currentMin, lastSet))
  }

  /** What is decided for the coming hour: nothing without confidence; nothing while a minimum that differs from the
      one last set is less than a day from its stamp; otherwise the hour's learned minimum where it is another. */
  lemma DecideMeans(p: Pattern, next: int, currentMin: real, lastSet: Option<real>, handSetAt: Option<int>, now: int)
    requires |p.learned| == 168
    ensures var d := DecidePattern(p, next, currentMin, lastSet, handSetAt, now);
      var differs := lastSet.Some? && lastSet.value != currentMin;
      var inDay := differs && handSetAt.Some? && now < handSetAt.value + 86400000;
      && (d.active <==> p.confident)
      && (d.handSet <==> p.confident && differs)
      && (d.wanted.Some? <==> p.confident && !inDay && p.learned[next % 168] != currentMin)
      && (d.wanted.Some? ==> d.wanted.value == p.learned[next % 168])
  {
  }

  // ---- pressure events, at most one per environment and hour --------------------------------------------------------

  datatype PressureRow = PressureRow(env: string, at: int, ring: nat, desired: real, action: Option<int>)

  function HourOf(at: int): int {
    at / HOUR
  }

  /** Two times are in one hour when the same full hour precedes both by less than an hour. */
  lemma HourOfMeaning(a: int, b: int)
    ensures HourOf(a) == HourOf(b) <==>
      exists k: int :: FullHour(k) <= a < FullHour(k) + 3600000 && FullHour(k) <= b < FullHour(k) + 3600000
  {
    assert FullHour(HourOf(a)) <= a < FullHour(HourOf(a)) + 3600000;
    assert FullHour(HourOf(b)) <= b < FullHour(HourOf(b)) + 3600000;
  }

  function FullHour(k: int): int {
    k * 3600000
  }

  ghost predicate OnePerHour(rows: seq<PressureRow>) {
    forall j, k :: 0 <= j < k < |rows| ==> rows[j].env != rows[k].env || HourOf(rows[j].at) != HourOf(rows[k].at)
  }

  function FillAction(r: PressureRow, action: Option<int>): PressureRow {
    if r.action.None? && action != Some(0) then r.(action := action) else r
  }

  class PressureTable {
    var rows: seq<PressureRow>

    constructor ()
      ensures rows == []
    {
      rows := [];
    }

    /** The first event of an hour is the one kept; a later one of that hour only fills in a missing action. The id is
        the row's place, counted from 1. */
    method Record(env: string, at: int, desired: real, action: Option<int>) returns (id: nat, recorded: bool)
      requires OnePerHour(rows)
      modifies this`rows
      ensures OnePerHour(rows)
      ensures recorded <==> forall r <- old(rows) :: r.env != env || HourOf(r.at) != HourOf(at)
      ensures recorded ==> rows == old(rows) + [PressureRow(env, at, RingIndex(at), desired, action)] && id == |rows|
      ensures !recorded ==> 1 <= id <= |rows| == |old(rows)|
      ensures !recorded ==> rows[id - 1].env == env && HourOf(rows[id - 1].at) == HourOf(at)
      ensures !recorded ==> rows == old(rows)[id - 1 := FillAction(old(rows)[id - 1], action)]
    {
      var k := 0;
      while k < |rows| && !(rows[k].env == env && HourOf(rows[k].at) == HourOf(at))
        invariant k <= |rows|
        invariant forall j :: 0 <= j < k ==> rows[j].env != env || HourOf(rows[j].at) != HourOf(at)
      {
        k := k + 1;
      }
      if k < |rows| {
        assert rows[k] in rows;
        if action.Some? && action.value != 0 && rows[k].action.None? {
          rows := rows[k := rows[k].(action := action)];
        }
        return k + 1, false;
      }
      rows := rows + [PressureRow(env, at, RingIndex(at), desired, action)];
      return |rows|, true;
    }
  }
}
