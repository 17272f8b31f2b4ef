/** The learned week of `src/capacity_pattern.ts`, read off the hours and the pressure events themselves: in weeks
    that begin on Sunday 00:00 UTC, over the last 28 days. */
module CapacityWeek {
  import opened Options
  import opened OrderStats
  import opened CapacityPattern

  // ---- the calendar -------------------------------------------------------------------------------------------------

  /** The last 28 days. */
  predicate Recent(now: int, at: int) {
    now - 2419200000 <= at <= now
  }

  /** Where hour `r` of week `k` begins; week 0 is that of Sunday the fourth of January 1970. */
  function HourBegins(k: int, r: nat): int {
    259200000 + (168 * k + r) * 3600000
  }

  /** The time is in hour `r` of some week. */
  ghost predicate InHour(at: int, r: nat) {
    r < 168 && exists k: int :: HourBegins(k, r) <= at < HourBegins(k, r) + 3600000
  }

  lemma RingIsHour(at: int, r: nat)
    ensures RingIndex(at) == r <==> InHour(at, r)
  {
    var q := at / 3600000;
    assert q * 3600000 <= at < (q + 1) * 3600000;
    if RingIndex(at) == r {
      var k := (q + 96) / 168 - 1;
      assert q == 72 + 168 * k + r;
      assert HourBegins(k, r) == q * 3600000;
    }
    if InHour(at, r) {
      var k: int :| HourBegins(k, r) <= at < HourBegins(k, r) + 3600000;
      assert HourBegins(k, r) == (72 + 168 * k + r) * 3600000;
      SameHour(at, q, 72 + 168 * k + r);
      assert q + 96 == 168 * (k + 1) + r;
    }
  }

  lemma SameHour(at: int, q: int, p: int)
    requires q * 3600000 <= at < (q + 1) * 3600000 && p * 3600000 <= at < (p + 1) * 3600000
    ensures p == q
  {
  }

  /** Weeks are counted in spans of seven days from the first of January 1970. */
  lemma WeekOfMeaning(at: int, w: int)
    ensures WeekOf(at) == w <==> 604800000 * w <= at < 604800000 * (w + 1)
  {
  }

  /** The hour before is that of the time an hour earlier. */
  lemma BeforeIsHour(at: int, r: nat)
    ensures Prev(RingIndex(at), HOURS_PER_WEEK) == r <==> InHour(at - 3600000, r)
  {
    RingStep(at - 3600000);
    RingIsHour(at - 3600000, r);
  }

  // ---- what an hour wants -------------------------------------------------------------------------------------------

  /** What one hour of the record counts for: what it needed, or ran without that; the trigger, what it ran. */
  function Value(h: PatternHour, trigger: bool): real {
    match h.need
    case Some(need) => if trigger then h.desired else need
    case None => h.desired
  }

  /** A recent hour of the record at hour `r` of the week, and one whose value is at most `v`. */
  ghost function Counts(now: int, r: nat): PatternHour -> bool {
    (h: PatternHour) => Recent(now, h.at) && InHour(h.at, r)
  }

  ghost function CountsAtMost(now: int, r: nat, trigger: bool, v: real): PatternHour -> bool {
    (h: PatternHour) => Recent(now, h.at) && InHour(h.at, r) && Value(h, trigger) <= v
  }

  ghost function HoursAt(hours: seq<PatternHour>, now: int, r: nat): set<nat> {
    Where(hours, Counts(now, r))
  }

  ghost function HoursAtMost(hours: seq<PatternHour>, now: int, r: nat, trigger: bool, v: real): set<nat> {
    Where(hours, CountsAtMost(now, r, trigger, v))
  }

  /** The values of the samples of an hour. */
  function Values(xs: seq<PatternHour>, trigger: bool): seq<real> {
    if trigger then Desireds(xs) else Needs(xs)
  }

  lemma HoursGrow(rest: seq<PatternHour>, h: PatternHour, now: int, r: nat, trigger: bool, v: real)
    ensures var counts := Recent(now, h.at) && InHour(h.at, r);
      && |HoursAt(rest + [h], now, r)| == |HoursAt(rest, now, r)| + (if counts then 1 else 0)
      && |HoursAtMost(rest + [h], now, r, trigger, v)| ==
         |HoursAtMost(rest, now, r, trigger, v)| + (if counts && Value(h, trigger) <= v then 1 else 0)
  {
    hide Recent, InHour, Value, Where;
    WhereGrows(rest, h, Counts(now, r));
    WhereGrows(rest, h, CountsAtMost(now, r, trigger, v));
  }

  lemma HoursOneMore(rest: seq<PatternHour>, h: PatternHour, now: int, r: nat, k: nat)
    ensures k in HoursAt(rest + [h], now, r) <==>
      k in HoursAt(rest, now, r) || (k == |rest| && Recent(now, h.at) && InHour(h.at, r))
    ensures k in HoursAt(rest, now, r) ==> k < |rest|
  {
    hide Recent, InHour;
  }

  lemma SamplesGrow(rest: seq<PatternHour>, h: PatternHour, now: int, r: nat)
    ensures Samples(rest + [h], now, r) ==
            Samples(rest, now, r) + if Recent(now, h.at) && InHour(h.at, r) then [h] else []
  {
    RingIsHour(h.at, r);
    hide InHour, RingIndex;
    assert (rest + [h])[..|rest|] == rest;
  }

  lemma ValuesGrow(xs: seq<PatternHour>, h: PatternHour, trigger: bool, v: real)
    ensures Values(xs + [h], trigger) == Values(xs, trigger) + [Value(h, trigger)]
    ensures CountAtMost(Values(xs + [h], trigger), v) ==
            CountAtMost(Values(xs, trigger), v) + if Value(h, trigger) <= v then 1 else 0
  {
    var ys := Values(xs, trigger);
    assert Values(xs + [h], trigger) == ys + [Value(h, trigger)];
    assert (ys + [Value(h, trigger)])[..|ys|] == ys;
  }

  /** The samples of an hour are counted by the record. */
  lemma {:induction false} SamplesCount(hours: seq<PatternHour>, now: int, r: nat, trigger: bool, v: real)
    ensures CountAtMost(Values(Samples(hours, now, r), trigger), v) == |HoursAtMost(hours, now, r, trigger, v)|
    ensures |Values(Samples(hours, now, r), trigger)| == |HoursAt(hours, now, r)|
  {
    hide Samples, HoursAt, HoursAtMost, Values, Value, CountAtMost, Recent, InHour;
    if hours == [] {
      NoSamples(now, r, trigger, v);
    } else {
      var n := |hours| - 1;
      var h, rest := hours[n], hours[..n];
      SamplesCount(rest, now, r, trigger, v);
      HoursGrow(rest, h, now, r, trigger, v);
      SamplesGrow(rest, h, now, r);
      assert hours == rest + [h];
      if Recent(now, h.at) && InHour(h.at, r) {
        ValuesGrow(Samples(rest, now, r), h, trigger, v);
      } else {
        assert Samples(rest, now, r) + [] == Samples(rest, now, r);
      }
    }
  }

  lemma NoSamples(now: int, r: nat, trigger: bool, v: real)
    ensures Values(Samples([], now, r), trigger) == [] && CountAtMost([], v) == 0
    ensures HoursAt([], now, r) == {} && HoursAtMost([], now, r, trigger, v) == {}
  {
  }

  /** What an hour of the week wants: the floor without a record, the most of it while it spans fewer than three
      weeks, and from then on the value that 95 in a hundred are at most. */
  ghost predicate IsWanted(i: PatternInput, r: nat, trigger: bool, v: real) {
    var n := |HoursAt(i.hours, i.now, r)|;
    && (n == 0 ==> v == i.floor)
    && (n > 0 && |Weeks(i.hours, i.now)| < 3 ==>
          && |HoursAtMost(i.hours, i.now, r, trigger, v)| == n
          && forall u: real :: u < v ==> |HoursAtMost(i.hours, i.now, r, trigger, u)| < n)
    && (n > 0 && |Weeks(i.hours, i.now)| >= 3 ==>
          && |HoursAtMost(i.hours, i.now, r, trigger, v)| > 95 * (n - 1) / 100
          && forall u: real :: u < v ==> |HoursAtMost(i.hours, i.now, r, trigger, u)| <= 95 * (n - 1) / 100)
  }

  lemma MaxByCount(xs: seq<real>, v: real)
    requires xs != []
    ensures MaxOf(xs) <= v <==> CountAtMost(xs, v) == |xs|
  {
    MaxOfMeaning(xs);
    CountBounded(xs, v);
    if MaxOf(xs) <= v {
      assert forall k :: 0 <= k < |xs| ==> xs[k] in xs;
      AllCounted(xs, v);
    } else {
      SomeMissing(xs, v);
    }
  }

  lemma {:induction false} SomeMissing(xs: seq<real>, v: real)
    requires exists x <- xs :: x > v
    ensures CountAtMost(xs, v) < |xs|
  {
    var n := |xs| - 1;
    assert xs == xs[..n] + [xs[n]];
    CountBounded(xs[..n], v);
    if xs[n] <= v {
      SomeMissing(xs[..n], v);
    }
  }

  lemma PickMeans(i: PatternInput, r: nat, trigger: bool)
    ensures var xs := Values(Samples(i.hours, i.now, r), trigger);
      IsWanted(i, r, trigger, Wanted(xs, |Weeks(i.hours, i.now)|, i.floor))
  {
    hide Samples, Values, HoursAt, HoursAtMost, Weeks, Sort;
    var xs, weeks := Values(Samples(i.hours, i.now, r), trigger), |Weeks(i.hours, i.now)|;
    var v := Wanted(xs, weeks, i.floor);
    SamplesCount(i.hours, i.now, r, trigger, v);
    if xs != [] {
      var place := 95 * (|xs| - 1) / 100;
      assert P95Index(|xs|) == place;
      MaxByCount(xs, v);
      PlaceByCount(xs, place, v);
      forall u: real | u < v
        ensures weeks < 3 ==> |HoursAtMost(i.hours, i.now, r, trigger, u)| < |xs|
        ensures weeks >= 3 ==> |HoursAtMost(i.hours, i.now, r, trigger, u)| <= place
      {
        SamplesCount(i.hours, i.now, r, trigger, u);
        MaxByCount(xs, u);
        PlaceByCount(xs, place, u);
        CountBounded(xs, u);
      }
    }
  }

  // ---- the signal named ---------------------------------------------------------------------------------------------

  /** The last recent hour of the record at hour `r` that needed exactly `v`. */
  ghost predicate LastAt(hours: seq<PatternHour>, now: int, r: nat, v: real, k: nat) {
    && k in HoursAt(hours, now, r) && Value(hours[k], false) == v
    && forall j: nat :: j in HoursAt(hours, now, r) && j > k ==> Value(hours[j], false) != v
  }

  ghost predicate IsBinding(hours: seq<PatternHour>, now: int, r: nat, v: real, s: string) {
    && (forall k: nat :: LastAt(hours, now, r, v, k) ==> s == hours[k].binding)
    && ((forall k: nat :: k in HoursAt(hours, now, r) ==> Value(hours[k], false) != v) ==> s == "trigger")
  }

  lemma {:induction false} BindingMeans(hours: seq<PatternHour>, now: int, r: nat, v: real)
    ensures IsBinding(hours, now, r, v, BindingOf(Samples(hours, now, r), v))
  {
    hide IsBinding, Samples, BindingOf, Recent, InHour;
    if hours == [] {
      NoBinding(now, r, v);
    } else {
      var n := |hours| - 1;
      var h, rest := hours[n], hours[..n];
      BindingMeans(rest, now, r, v);
      SamplesGrow(rest, h, now, r);
      assert hours == rest + [h];
      BindingGrows(rest, h, now, r, v, BindingOf(Samples(rest, now, r), v));
      if Recent(now, h.at) && InHour(h.at, r) {
        BindingOneMore(Samples(rest, now, r), h, v);
      } else {
        assert Samples(rest, now, r) + [] == Samples(rest, now, r);
      }
    }
  }

  lemma NoBinding(now: int, r: nat, v: real)
    ensures IsBinding([], now, r, v, BindingOf(Samples([], now, r), v))
  {
  }

  lemma BindingOneMore(xs: seq<PatternHour>, h: PatternHour, v: real)
    ensures BindingOf(xs + [h], v) == if Value(h, false) == v then h.binding else BindingOf(xs, v)
  {
    assert (xs + [h])[..|xs|] == xs;
  }

  lemma BindingGrows(rest: seq<PatternHour>, h: PatternHour, now: int, r: nat, v: real, s: string)
    requires IsBinding(rest, now, r, v, s)
    ensures IsBinding(rest + [h], now, r, v,
                      if Recent(now, h.at) && InHour(h.at, r) && Value(h, false) == v then h.binding else s)
  {
    hide Recent, InHour, Value;
    var all, n := rest + [h], |rest|;
    forall k: nat
      ensures k in HoursAt(all, now, r) <==>
        k in HoursAt(rest, now, r) || (k == n && Recent(now, h.at) && InHour(h.at, r))
      ensures k in HoursAt(rest, now, r) ==> k < n
    {
      HoursOneMore(rest, h, now, r, k);
    }
    hide HoursAt;
    assert forall k :: k in HoursAt(rest, now, r) ==> all[k] == rest[k] && k in HoursAt(all, now, r) && k < n;
    var found := n in HoursAt(all, now, r) && Value(h, false) == v;
    forall k: nat | LastAt(all, now, r, v, k)
      ensures if found then k == n else k < n && LastAt(rest, now, r, v, k)
    {
    }
  }

  // ---- the pressure -------------------------------------------------------------------------------------------------

  /** The event is recent, and in this hour or the one after it. */
  ghost predicate PressesHour(e: PressureEvent, now: int, r: nat) {
    Recent(now, e.at) && (InHour(e.at, r) || InHour(e.at - 3600000, r))
  }

  lemma PressesIff(e: PressureEvent, now: int, r: nat)
    ensures Presses(e, now, r) <==> PressesHour(e, now, r)
  {
    RingIsHour(e.at, r);
    BeforeIsHour(e.at, r);
    hide InHour, RingIndex;
  }

  /** One more than what ran in the largest event that presses on the hour; nothing without one, or below nothing. */
  ghost predicate IsPressure(events: seq<PressureEvent>, now: int, r: nat, p: real) {
    && p >= 0.0 && (forall e <- events :: PressesHour(e, now, r) ==> e.desired + 1.0 <= p)
    && (p == 0.0 || exists e <- events :: PressesHour(e, now, r) && p == e.desired + 1.0)
  }

  lemma PressureMeans(events: seq<PressureEvent>, now: int, r: nat)
    ensures IsPressure(events, now, r, PressureAt(events, now, r))
  {
    PressureMeaning(events, now, r);
    forall e | e in events
      ensures Presses(e, now, r) <==> PressesHour(e, now, r)
    {
      PressesIff(e, now, r);
    }
    hide Presses, PressesHour, PressureAt;
  }

  lemma {:induction false} EventsMeans(events: seq<PressureEvent>, now: int)
    ensures EventsIn(events, now) == |set k: nat | k < |events| && Recent(now, events[k].at)|
  {
    var all := set k: nat | k < |events| && Recent(now, events[k].at);
    if events == [] {
      assert all == {};
    } else {
      hide Recent;
      var n := |events| - 1;
      EventsMeans(events[..n], now);
      var before := set k: nat | k < |events[..n]| && Recent(now, events[..n][k].at);
      var last := if Recent(now, events[n].at) then {n} else {};
      assert all == before + last;
      assert InWindow(now, events[n].at) <==> Recent(now, events[n].at) by {
        RecentIff(now, events[n].at);
      }
    }
  }

  lemma RecentIff(now: int, at: int)
    ensures InWindow(now, at) <==> Recent(now, at)
  {
  }

  // ---- the week -----------------------------------------------------------------------------------------------------

  /** At least what the hour wants and its pressure, as far as the band allows, and at least the floor. */
  ghost predicate Asks(i: PatternInput, r: nat, v: real) {
    forall want, press :: IsWanted(i, r, false, want) && IsPressure(i.pressure, i.now, r, press) ==>
      && v >= i.floor
      && (v >= want || (i.ceiling.Some? && v >= i.ceiling.value))
      && (v >= press || (i.ceiling.Some? && v >= i.ceiling.value))
  }

  ghost predicate AsksAll(i: PatternInput, week: seq<real>) {
    |week| == 168 && forall r: nat :: r < 168 ==> Asks(i, r, week[r])
  }

  lemma WantedUnique(i: PatternInput, r: nat, trigger: bool, v: real, w: real)
    requires IsWanted(i, r, trigger, v) && IsWanted(i, r, trigger, w)
    ensures v == w
  {
    hide HoursAt, HoursAtMost, Weeks;
  }

  lemma PressureUnique(events: seq<PressureEvent>, now: int, r: nat, p: real, q: real)
    requires IsPressure(events, now, r, p) && IsPressure(events, now, r, q)
    ensures p == q
  {
    hide PressesHour;
  }

  lemma BaseAsks(i: PatternInput, r: nat, v: real)
    requires r < 168
    ensures Asks(i, r, v) <==> BaseAt(i, r) <= v
  {
    PickMeans(i, r, false);
    PressureMeans(i.pressure, i.now, r);
    assert Values(Samples(i.hours, i.now, r), false) == Needs(Samples(i.hours, i.now, r));
    var want, press := WantedAt(i, r), PressureAt(i.pressure, i.now, r);
    assert IsWanted(i, r, false, want) && IsPressure(i.pressure, i.now, r, press);
    forall w, p | IsWanted(i, r, false, w) && IsPressure(i.pressure, i.now, r, p)
      ensures w == want && p == press
    {
      WantedUnique(i, r, false, w, want);
      PressureUnique(i.pressure, i.now, r, p, press);
    }
    hide IsWanted, IsPressure, WantedAt, PressureAt;
  }

  /** The learned week is the least one with no dip that gives every hour what it asks for, straight from the hours
      and events of the record. */
  lemma WeekMeans(i: PatternInput)
    ensures var week := LearnedWeek(i); AsksAll(i, week) && NoDips(week)
    ensures forall u :: AsksAll(i, u) && NoDips(u) ==> Below(LearnedWeek(i), u)
  {
    LearnedIsLeast(i);
    var week := LearnedWeek(i);
    assert forall r: nat :: r < 168 ==> Base(i)[r] == BaseAt(i, r);
    forall r: nat | r < 168
      ensures Asks(i, r, week[r])
    {
      BaseAsks(i, r, week[r]);
    }
    forall u | AsksAll(i, u) && NoDips(u)
      ensures Below(week, u)
    {
      forall r: nat | r < 168
        ensures Base(i)[r] <= u[r]
      {
        BaseAsks(i, r, u[r]);
      }
      assert Below(Base(i), u);
    }
  }

  /** What the pattern's tables say, by the record. */
  lemma TablesMean(i: PatternInput, r: nat)
    requires r < 168
    ensures IsWanted(i, r, false, WantedAt(i, r)) && IsPressure(i.pressure, i.now, r, PressureAt(i.pressure, i.now, r))
    ensures var xs := Samples(i.hours, i.now, r);
      && IsWanted(i, r, true, Wanted(Desireds(xs), |Weeks(i.hours, i.now)|, i.floor))
      && IsBinding(i.hours, i.now, r, WantedAt(i, r), BindingOf(xs, WantedAt(i, r)))
      && (r in Covered(i) <==> HoursAt(i.hours, i.now, r) != {})
  {
    var xs := Samples(i.hours, i.now, r);
    PickMeans(i, r, false);
    PickMeans(i, r, true);
    PressureMeans(i.pressure, i.now, r);
    BindingMeans(i.hours, i.now, r, WantedAt(i, r));
    SamplesCount(i.hours, i.now, r, false, 0.0);
    assert Values(xs, false) == Needs(xs) && Values(xs, true) == Desireds(xs);
    hide IsWanted, IsPressure, IsBinding, Samples, PressureAt, Weeks;
  }

  /** A week counts when a recent hour of the record is in it. */
  lemma WeeksMean(hours: seq<PatternHour>, now: int, w: int)
    ensures w in Weeks(hours, now) <==>
      exists h <- hours :: Recent(now, h.at) && 604800000 * w <= h.at < 604800000 * (w + 1)
  {
    forall h | h in hours
      ensures InWindow(now, h.at) && WeekOf(h.at) == w <==>
        Recent(now, h.at) && 604800000 * w <= h.at < 604800000 * (w + 1)
    {
      RecentIff(now, h.at);
      WeekOfMeaning(h.at, w);
    }
    hide InWindow, WeekOf, Recent;
  }

  /** The coverage is the share of the 168 hours, rounded to the nearest hundredth, halves up. */
  lemma CoverageRounds(covered: nat, percent: int)
    ensures Coverage(covered) == percent as real / 100.0 <==>
      percent as real - 0.5 <= covered as real * 100.0 / 168.0 < percent as real + 0.5
  {
    var y := covered as real * 100.0 / 168.0 + 0.5;
    assert Coverage(covered) == y.Floor as real / 100.0;
    Hundredths(y.Floor, percent);
    hide Coverage;
  }

  lemma Hundredths(a: int, b: int)
    ensures a as real / 100.0 == b as real / 100.0 <==> a == b
  {
  }

}
