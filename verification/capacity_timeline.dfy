/** The 24-hour forecast of `src/capacity_timeline.ts`: the hourly pass replayed forward on the learned week. */
module CapacityTimeline {
  import opened Options
  import opened CapacityPattern

  const MINUTE := 60000
  const TIMELINE_HOURS := 24
  const DEFAULT_MINUTE := 45

  datatype Mode = Off | DryRun | Apply
  datatype Band = Band(floor: real, ceiling: Option<real>)
  datatype EnvState = EnvState(baselineMin: real, lastSet: Option<real>, handSetAt: Option<int>)

  /** The windowed schedule's decision, taken from another module as it comes. */
  datatype WindowInput = WindowInput(currentMin: real, floor: real, baselineMin: real, lastSet: Option<real>, next: nat)
  datatype WindowDecision = WindowDecision(active: bool, wanted: Option<real>, baselineMin: real)

  datatype PlanInput = PlanInput(now: int, mode: Mode, paused: bool, consent: Option<bool>, band: Option<Band>,
                                 pattern: Option<Pattern>, currentMin: Option<real>, state: Option<EnvState>,
                                 windows: nat, passMinute: Option<nat>)
  {
    ghost predicate Valid() {
      && (pattern.Some? ==> |pattern.value.learned| == HOURS_PER_WEEK)
      && (passMinute.Some? ==> passMinute.value < 60)
    }

    function Minute(): nat {
      if passMinute.Some? then passMinute.value else DEFAULT_MINUTE
    }

    /** The start of forecast row `k`'s hour, and when the pass that decides it runs. */
    function HourAt(k: nat): int {
      HourStart(now) + k * HOUR
    }

    function DecidedAt(k: nat): int {
      HourAt(k) - HOUR + Minute() * MINUTE
    }

    function NextPass(): int {
      if DecidedAt(1) > now then DecidedAt(1) else DecidedAt(2)
    }

    predicate Blocked() {
      consent == Some(false) || mode.Off? || paused || currentMin.None? || band.None?
    }

    predicate PatternInCharge() {
      band.Some? && band.value.ceiling.Some? && pattern.Some? && pattern.value.confident
    }

    function LastSet(): Option<real> {
      if state.Some? then state.value.lastSet else None
    }

    /** When the hand-set minimum was seen: the stored stamp, or the stamp the next pass will give it. */
    function HandSetAt(): Option<int> {
      var stored := if state.Some? then state.value.handSetAt else None;
      if stored.None? && currentMin.Some? && PatternInCharge() &&
          HandSet(currentMin.value, LastSet()) then Some(NextPass())
      else stored
    }

    /** Until when the pattern stands aside. */
    function HoldUntil(): Option<int> {
      if currentMin.Some? && PatternInCharge() && HandSet(currentMin.value, LastSet()) && HandSetAt().Some?
      then Some(HandSetAt().value + HAND_SET_HOURS * HOUR)
      else None
    }

    /** The pass for row `k` still finds the hand-set minimum within its day. */
    predicate HeldRow(k: nat) {
      HoldUntil().Some? && DecidedAt(k) < HoldUntil().value
    }

    function LearnedAt(k: nat): real
      requires pattern.Some? && |pattern.value.learned| == HOURS_PER_WEEK
    {
      pattern.value.learned[RingIndex(HourAt(k))]
    }
  }

  function HourStart(t: int): int {
    t / HOUR * HOUR
  }

  datatype Driver = PatternDriver | WindowDriver
  datatype Change = Change(from: real, to: real, driver: Driver, applied: bool)
  datatype PlannedHour = PlannedHour(at: int, decidedAt: int, min: Option<real>, change: Option<Change>, held: bool)
  datatype Status = Driving | HandSetStatus | Learning | Window | NoBand | OffStatus | Paused | NoConsent | Unknown
  datatype Plan = Plan(status: Status, hours: seq<PlannedHour>, handSetUntil: Option<int>)

  /** Row `k` of a plan that changes nothing. */
  function FlatRow(i: PlanInput, k: nat): PlannedHour {
    PlannedHour(i.HourAt(k), i.DecidedAt(k), i.currentMin, None, false)
  }

  function StillStatus(i: PlanInput): Status
    requires i.Blocked()
  {
    if i.consent == Some(false) then NoConsent else if i.mode.Off? then OffStatus else if i.paused then Paused
        else Unknown
  }

  /** A row starts from the minimum the row before left, and moves it only by an applied change. */
  predicate Follows(before: real, row: PlannedHour) {
    && (row.change.Some? ==> row.change.value.from == before && row.change.value.to != before)
    && row.min == Some(if row.change.Some? && row.change.value.applied then row.change.value.to else before)
  }

  ghost predicate FollowsAt(rows: seq<PlannedHour>, first: real, k: nat)
    requires k < |rows|
  {
    Follows(if k == 0 then first else rows[k - 1].min.GetOr(first), rows[k])
  }

  ghost predicate Chained(rows: seq<PlannedHour>, first: real) {
    forall k: nat :: k < |rows| ==> FollowsAt(rows, first, k)
  }

  /** Row `k` when the learned week drives: the current minimum while the hand-set day lasts, the hour's learned
      minimum from then on (in apply mode); a change, or a proposal of one, exactly where the pass would move it. */
  function PatternRow(i: PlanInput, k: nat): PlannedHour
    requires i.currentMin.Some? && i.pattern.Some? && |i.pattern.value.learned| == HOURS_PER_WEEK && k > 0
  {
    var want, before := i.LearnedAt(k), MinBefore(i, k);
    var change := if !i.HeldRow(k) && want != before then Some(Change(before, want, PatternDriver, i.mode.Apply?))
        else None;
    PlannedHour(i.HourAt(k), i.DecidedAt(k), Some(MinAt(i, k)), change, i.HeldRow(k) && want != before)
  }

  function MinAt(i: PlanInput, k: nat): real
    requires i.currentMin.Some? && i.pattern.Some? && |i.pattern.value.learned| == HOURS_PER_WEEK
  {
    if k > 0 && i.mode.Apply? && !i.HeldRow(k) then i.LearnedAt(k) else i.currentMin.value
  }

  function MinBefore(i: PlanInput, k: nat): real
    requires i.currentMin.Some? && i.pattern.Some? && |i.pattern.value.learned| == HOURS_PER_WEEK && k > 0
  {
    MinAt(i, k - 1)
  }

  function PlanStatus(i: PlanInput): Status
    requires !i.Blocked()
  {
    if i.HoldUntil().Some? && i.HoldUntil().value > i.now then HandSetStatus
    else if i.PatternInCharge() then Driving
    else if i.windows > 0 && i.band.value.ceiling.Some? then Window
    else if i.band.value.ceiling.None? then NoBand
    else Learning
  }

  /** The two states the replay can be in before pass `k`: still on the hand-set (or untouched) minimum it started
      from, or on one it set itself. */
  predicate OnPattern(i: PlanInput, k: nat, min: real, lastSet: Option<real>, handSetAt: Option<int>)
    requires i.Valid() && i.currentMin.Some? && i.pattern.Some? && k > 0
  {
    && min == MinAt(i, k - 1)
    && (|| (lastSet == i.LastSet() && handSetAt == i.HandSetAt() && min == i.currentMin.value)
        || (lastSet == Some(min) && !i.HeldRow(k - 1)))
  }

  /** The move a window's decision makes, when it makes one. */
  function WindowMove(w: WindowDecision, min: real): Option<real> {
    if w.active && w.wanted.Some? && w.wanted.value != min then w.wanted else None
  }

  /** Row `k` when the windows drive: a change exactly where the decision is active and wants another minimum. */
  predicate IsWindowRow(i: PlanInput, k: nat, asked: WindowInput, w: WindowDecision, row: PlannedHour) {
    && row.at == i.HourAt(k) && row.decidedAt == i.DecidedAt(k) && !row.held
    && (row.change.Some? <==> w.active && w.wanted.Some? && w.wanted.value != asked.currentMin)
    && (row.change.Some? ==>
          row.change.value == Change(asked.currentMin, w.wanted.value, WindowDriver, i.mode.Apply?))
    && row.min == Some(if row.change.Some? && i.mode.Apply? then w.wanted.value else asked.currentMin)
  }

  /** What the window's decision is asked for pass `k`: the minimum and the last set one as the applied moves before
      left them, and the baseline the decision before gave. */
  function WindowAsked(i: PlanInput, k: nat, decideWindow: WindowInput -> WindowDecision): WindowInput
    requires i.currentMin.Some? && i.band.Some?
  {
    if k <= 1 then
      WindowInput(i.currentMin.value, i.band.value.floor,
                  if i.state.Some? then i.state.value.baselineMin else i.currentMin.value, i.LastSet(),
                  RingIndex(i.HourAt(k)))
    else
      var before := WindowAsked(i, k - 1, decideWindow);
      var w := decideWindow(before);
      var moves := i.mode.Apply? && WindowMove(w, before.currentMin).Some?;
      WindowInput(if moves then w.wanted.value else before.currentMin, i.band.value.floor, w.baselineMin,
                  if moves then w.wanted else before.lastSet, RingIndex(i.HourAt(k)))
  }

  /** One pass of the replay. */
  method Pass(i: PlanInput, k: nat, min0: real, lastSet0: Option<real>, handSetAt0: Option<int>, baseline0: real,
              decideWindow: WindowInput -> WindowDecision)
    returns (row: PlannedHour, min: real, lastSet: Option<real>, handSetAt: Option<int>, baseline: real)
    requires i.Valid() && !i.Blocked() && k > 0
    requires i.PatternInCharge() ==> OnPattern(i, k, min0, lastSet0, handSetAt0)
    ensures row.min == Some(min) && Follows(min0, row)
    ensures row.change.Some? ==> (row.change.value.applied <==> i.mode.Apply?)
    ensures i.PatternInCharge() ==> row == PatternRow(i, k) && OnPattern(i, k + 1, min, lastSet, handSetAt)
    ensures !i.PatternInCharge() ==>
      var asked := WindowInput(min0, i.band.value.floor, baseline0, lastSet0, RingIndex(i.HourAt(k)));
      var w := decideWindow(asked);
      && IsWindowRow(i, k, asked, w, row) && baseline == w.baselineMin
      && lastSet == (if row.change.Some? && i.mode.Apply? then w.wanted else lastSet0)
  {
    min, lastSet, handSetAt, baseline := min0, lastSet0, handSetAt0, baseline0;
    var at, decidedAt, applies := i.HourAt(k), i.DecidedAt(k), i.mode.Apply?;
    var ring := RingIndex(at);
    var wanted: Option<real>, driver, held := None, PatternDriver, false;
    if i.PatternInCharge() {
      var d := DecidePattern(i.pattern.value, ring, min, lastSet, handSetAt, decidedAt);
      held := d.handSet && d.wanted.None? && i.pattern.value.learned[ring] != min;
      wanted := d.wanted;
      PassDecides(i, k, min, lastSet, handSetAt);
    } else {
      var w := decideWindow(WindowInput(min, i.band.value.floor, baseline, lastSet, ring));
      baseline := w.baselineMin;
      if w.active && w.wanted.Some? && w.wanted.value != min {
        wanted, driver := w.wanted, WindowDriver;
      }
    }
    hide DecidePattern, PlanInput.HoldUntil, PlanInput.HandSetAt, RingIndex, Held;
    var change := None;
    if wanted.Some? && wanted.value != min {
      change := Some(Change(min, wanted.value, driver, applies));
      held := false;
      if applies {
        min, lastSet, handSetAt := wanted.value, wanted, None;
      }
    }
    row := PlannedHour(at, decidedAt, Some(min), change, held);
  }

  lemma ChainedGrows(rows: seq<PlannedHour>, row: PlannedHour, before: real, first: real)
    requires Chained(rows, first) && Follows(before, row)
    requires if rows == [] then before == first else rows[|rows| - 1].min == Some(before)
    ensures Chained(rows + [row], first)
  {
    var all := rows + [row];
    forall k: nat | k < |all|
      ensures FollowsAt(all, first, k)
    {
      if k < |rows| {
        assert FollowsAt(rows, first, k) && all[k] == rows[k];
      }
    }
  }

  /** Nothing is planned: the rows keep the current minimum. */
  function FlatDay(i: PlanInput): (hours: seq<PlannedHour>)
    ensures |hours| == 24
    ensures forall k :: 0 <= k < 24 ==>
      && hours[k] == FlatRow(i, k + 1) && hours[k].min == i.currentMin && hours[k].change.None? && !hours[k].held
  {
    seq(TIMELINE_HOURS, k requires 0 <= k < TIMELINE_HOURS => FlatRow(i, k + 1))
  }

  /** What the next decision is asked, after a row that took this one's. */
  lemma NextAsked(i: PlanInput, k: nat, decideWindow: WindowInput -> WindowDecision, row: PlannedHour, min: real,
                  baseline: real, lastSet: Option<real>)
    requires !i.Blocked() && k > 0
    requires var asked := WindowAsked(i, k, decideWindow);
      var w := decideWindow(asked);
      && IsWindowRow(i, k, asked, w, row) && row.min == Some(min) && baseline == w.baselineMin
      && lastSet == (if row.change.Some? && i.mode.Apply? then w.wanted else asked.lastSet)
    ensures WindowAsked(i, k + 1, decideWindow) ==
            WindowInput(min, i.band.value.floor, baseline, lastSet, RingIndex(i.HourAt(k + 1)))
  {
    hide RingIndex, PlanInput.HourAt;
  }

  method PlanTimeline(i: PlanInput, decideWindow: WindowInput -> WindowDecision) returns (p: Plan)
    requires i.Valid()
    ensures |p.hours| == 24
    ensures i.Blocked() ==> p.status == StillStatus(i) && p.handSetUntil.None?
                            && forall k :: 0 <= k < 24 ==>
                              p.hours[k] == FlatRow(i, k + 1) && p.hours[k].min == i.currentMin
                              && p.hours[k].change.None? && !p.hours[k].held
    ensures !i.Blocked() ==> p.status == PlanStatus(i) && p.handSetUntil == i.HoldUntil()
    ensures !i.Blocked() && i.PatternInCharge() ==>
              forall k :: 0 <= k < 24 ==> p.hours[k] == PatternRow(i, k + 1)
    // in apply mode: the current minimum for the passes inside the hand-set day, the hour's learned minimum after it
    ensures !i.Blocked() && i.PatternInCharge() && i.mode.Apply? ==> forall k: nat :: 0 < k <= 24 ==>
              p.hours[k - 1].min == Some(if InHandSetDay(i, k) then i.currentMin.value else i.LearnedAt(k))
    // in a dry run: the minimum stays, and what is proposed is each other learned minimum outside the hand-set day
    ensures !i.Blocked() && i.PatternInCharge() && i.mode.DryRun? ==> forall k: nat :: 0 < k <= 24 ==>
              && p.hours[k - 1].min == i.currentMin
              && (p.hours[k - 1].change.Some? <==> !InHandSetDay(i, k) && i.LearnedAt(k) != i.currentMin.value)
              && (p.hours[k - 1].change.Some? ==> p.hours[k - 1].change.value.to == i.LearnedAt(k))
    // without the learned week: the windows' decisions, each asked with what the ones before left
    ensures !i.Blocked() && !i.PatternInCharge() ==> forall k: nat :: 0 < k <= TIMELINE_HOURS ==>
              var asked := WindowAsked(i, k, decideWindow);
              IsWindowRow(i, k, asked, decideWindow(asked), p.hours[k - 1])
    // whoever drives, the changes chain from row to row, and a dry run moves nothing
    ensures !i.Blocked() ==> Chained(p.hours, i.currentMin.value)
    ensures !i.Blocked() ==> forall h <- p.hours :: h.change.Some? ==> (h.change.value.applied <==> i.mode.Apply?)
  {
    if i.Blocked() {
      hide *;
      p := Plan(StillStatus(i), FlatDay(i), None);
      return;
    }
    var band := i.band.value;
    var inCharge := i.PatternInCharge();
    var applies := i.mode.Apply?;
    var min := i.currentMin.value;
    var lastSet := i.LastSet();
    var handSetAt := if i.state.Some? then i.state.value.handSetAt else None;
    var baseline := if i.state.Some? then i.state.value.baselineMin else min;
    if inCharge && HandSet(min, lastSet) && handSetAt.None? {
      handSetAt := Some(i.NextPass());
    }
    var until := if inCharge && HandSet(min, lastSet) && handSetAt.Some?
                 then Some(handSetAt.value + HAND_SET_HOURS * HOUR) else None;
    assert handSetAt == i.HandSetAt() && until == i.HoldUntil();
    assert WindowAsked(i, 1, decideWindow) == WindowInput(min, band.floor, baseline, lastSet, RingIndex(i.HourAt(1)));
    hide WindowAsked, IsWindowRow, PlanInput.HourAt, PlanInput.DecidedAt, PlanInput.LearnedAt, InHandSetDay;
    hide HandSet, PlanInput.HeldRow, PlanInput.HoldUntil, PlanInput.HandSetAt, Follows, Chained, PatternRow,
         RingIndex;
    var hours: seq<PlannedHour> := [];
    for k := 1 to TIMELINE_HOURS + 1
      invariant |hours| == k - 1
      invariant inCharge ==> OnPattern(i, k, min, lastSet, handSetAt)
      invariant inCharge ==> forall j :: 0 <= j < |hours| ==> hours[j] == PatternRow(i, j + 1)
      invariant !inCharge ==>
        WindowAsked(i, k, decideWindow) == WindowInput(min, band.floor, baseline, lastSet, RingIndex(i.HourAt(k)))
      invariant !inCharge ==> forall j: nat :: 0 < j < k ==>
        var asked := WindowAsked(i, j, decideWindow); IsWindowRow(i, j, asked, decideWindow(asked), hours[j - 1])
      invariant Chained(hours, i.currentMin.value)
      invariant if k == 1 then min == i.currentMin.value else hours[k - 2].min == Some(min)
      invariant forall h <- hours :: h.change.Some? ==> (h.change.value.applied <==> applies)
    {
      var row;
      ghost var before := min;
      row, min, lastSet, handSetAt, baseline := Pass(i, k, min, lastSet, handSetAt, baseline, decideWindow);
      ChainedGrows(hours, row, before, i.currentMin.value);
      if !inCharge {
        NextAsked(i, k, decideWindow, row, min, baseline, lastSet);
      }
      hours := hours + [row];
    }
    var status := if until.Some? && until.value > i.now then HandSetStatus
                  else if inCharge then Driving
                  else if i.windows > 0 && band.ceiling.Some? then Window
                  else if band.ceiling.None? then NoBand
                  else Learning;
    p := Plan(status, hours, until);
    if inCharge {
      RowsClosedForm(i, hours);
    }
  }

  /** The minimum differs from the one last set, and the pass is decided less than a day after it was set by hand. */
  predicate InHandSetDay(i: PlanInput, k: nat)
    requires i.Valid() && i.currentMin.Some?
  {
    HandSet(i.currentMin.value, i.LastSet()) && i.HandSetAt().Some?
    && i.DecidedAt(k) - i.HandSetAt().value < 86400000
  }

  /** The rows the learned week drives, mode by mode. */
  lemma RowsClosedForm(i: PlanInput, hours: seq<PlannedHour>)
    requires i.Valid() && !i.Blocked() && i.PatternInCharge() && |hours| == TIMELINE_HOURS
    requires forall j :: 0 <= j < TIMELINE_HOURS ==> hours[j] == PatternRow(i, j + 1)
    ensures i.mode.Apply? ==> forall k: nat :: 0 < k <= TIMELINE_HOURS ==>
      hours[k - 1].min == Some(if InHandSetDay(i, k) then i.currentMin.value else i.LearnedAt(k))
    ensures i.mode.DryRun? ==> forall k: nat :: 0 < k <= TIMELINE_HOURS ==>
      && hours[k - 1].min == i.currentMin
      && (hours[k - 1].change.Some? <==> !InHandSetDay(i, k) && i.LearnedAt(k) != i.currentMin.value)
      && (hours[k - 1].change.Some? ==> hours[k - 1].change.value.to == i.LearnedAt(k))
  {
    hide PlanInput.LearnedAt, PlanInput.HandSetAt;
    forall k: nat | 0 < k <= TIMELINE_HOURS
      ensures hours[k - 1] == PatternRow(i, k) && (i.HeldRow(k) <==> InHandSetDay(i, k))
    {
    }
  }

  /** Passes run an hour apart, so the held rows are the first ones. */
  lemma HeldIsPrefix(i: PlanInput, j: nat, k: nat)
    requires j <= k && i.HeldRow(k)
    ensures i.HeldRow(j)
  {
  }

  /** What one pass decides, from either of the two states the replay can be in: still on the hand-set minimum, or on
      one the replay set itself. */
  lemma PassDecides(i: PlanInput, k: nat, min: real, lastSet: Option<real>, handSetAt: Option<int>)
    requires i.Valid() && !i.Blocked() && i.PatternInCharge() && k > 0 && min == MinAt(i, k - 1)
    requires (lastSet == i.LastSet() && handSetAt == i.HandSetAt() && min == i.currentMin.value)
             || (lastSet == Some(min) && !i.HeldRow(k - 1))
    ensures var d := DecidePattern(i.pattern.value, RingIndex(i.HourAt(k)), min, lastSet, handSetAt, i.DecidedAt(k));
      && (d.wanted.Some? <==> !i.HeldRow(k) && i.LearnedAt(k) != min)
      && (d.wanted.Some? ==> d.wanted.value == i.LearnedAt(k))
      && (d.handSet && d.wanted.None? && i.LearnedAt(k) != min <==> i.HeldRow(k) && i.LearnedAt(k) != min)
  {
    if i.HeldRow(k) {
      HeldIsPrefix(i, k - 1, k);
    }
  }

  // ---- the closed form ----------------------------------------------------------------------------------------------

  /** A hand-set minimum nobody has stamped yet holds for the whole forecast: the next pass stamps it, and the last
      row is decided less than a day later. */
  lemma UnstampedHoldsAllDay(i: PlanInput, k: nat)
    requires i.Valid() && !i.Blocked() && i.PatternInCharge() && 0 < k <= TIMELINE_HOURS
    requires HandSet(i.currentMin.value, i.LastSet()) && (i.state.None? || i.state.value.handSetAt.None?)
    ensures PatternRow(i, k).min == i.currentMin && PatternRow(i, k).change.None?
  {
    assert i.DecidedAt(k) <= i.DecidedAt(1) + 23 * HOUR;
    assert i.HeldRow(k);
    if k > 1 {
      HeldIsPrefix(i, k - 1, k);
    }
  }

  /** The learned week is followed hour by hour: rows are consecutive places on the ring. */
  lemma RowsFollowTheRing(i: PlanInput, k: nat)
    requires i.Valid() && i.pattern.Some?
    ensures i.LearnedAt(k + 1) == i.pattern.value.learned[Next(RingIndex(i.HourAt(k)), HOURS_PER_WEEK)]
  {
    RingStep(i.HourAt(k));
  }

  // ---- the clock and the status, in the input's own terms -----------------------------------------------------------

  /** Row `k` is the `k`th full hour after now; its pass runs at the cron's minute of the hour before, at 45 when the
      cron names none. */
  lemma ClockMeans(i: PlanInput, k: nat)
    requires i.Valid()
    ensures i.HourAt(k) % 3600000 == 0 && i.now + (k - 1) * 3600000 < i.HourAt(k) <= i.now + k * 3600000
    ensures i.DecidedAt(k) ==
            i.HourAt(k) - 3600000 + 60000 * (match i.passMinute case None => 45 case Some(minute) => minute)
  {
  }

  /** The next pass is the first time after now at that minute of an hour. */
  lemma NextPassIsNext(i: PlanInput)
    requires i.Valid()
    ensures i.now < i.NextPass() <= i.now + 3600000
    ensures i.NextPass() % 3600000 == 60000 * (match i.passMinute case None => 45 case Some(minute) => minute)
  {
    ClockMeans(i, 1);
    ClockMeans(i, 2);
    var minute := match i.passMinute case None => 45 case Some(minute) => minute;
    assert i.NextPass() == i.HourAt(0) + 60000 * minute || i.NextPass() == i.HourAt(1) + 60000 * minute;
    ClockMeans(i, 0);
  }

  /** What is learned for row `k` is read at its hour of the week. */
  lemma LearnedMeans(i: PlanInput, k: nat)
    requires i.Valid() && i.pattern.Some?
    ensures RingIndex(i.HourAt(k)) < 168 && i.LearnedAt(k) == i.pattern.value.learned[RingIndex(i.HourAt(k))]
  {
  }

  /** Since when a minimum counts as set by hand: since it was stamped, or from the next pass when it was not, differs
      from the one last set, and the learned week is in charge. */
  lemma HandSetSince(i: PlanInput)
    requires i.Valid() && i.currentMin.Some?
    ensures i.state.Some? && i.state.value.handSetAt.Some? ==> i.HandSetAt() == i.state.value.handSetAt
    ensures i.state.None? || i.state.value.handSetAt.None? ==>
      (i.HandSetAt() == Some(i.NextPass()) || i.HandSetAt() == None)
      && (i.HandSetAt().Some? <==>
            && i.PatternInCharge() && i.state.Some? && i.state.value.lastSet.Some?
            && i.state.value.lastSet.value != i.currentMin.value)
  {
  }

  /** Nothing is planned without consent, with the executor off or paused, or with an unreadable minimum or band. */
  lemma StillIff(i: PlanInput)
    ensures i.Blocked() <==>
      i.consent == Some(false) || i.mode == Off || i.paused || i.currentMin == None || i.band == None
    ensures i.Blocked() ==>
      && (StillStatus(i) == NoConsent <==> i.consent == Some(false))
      && (StillStatus(i) == OffStatus <==> i.consent != Some(false) && i.mode == Off)
      && (StillStatus(i) == Paused <==> i.consent != Some(false) && i.mode != Off && i.paused)
      && (StillStatus(i) == Unknown <==> i.consent != Some(false) && i.mode != Off && !i.paused)
  {
  }

  /** Otherwise the learned week drives with a ceiling and a confident pattern, unless a hand-set day is running;
      without a confident pattern the windows do when there are any; without a ceiling nothing does. */
  lemma StatusIff(i: PlanInput)
    requires i.Valid() && !i.Blocked()
    ensures var confident := i.pattern.Some? && i.pattern.value.confident;
      var ceiling := i.band.value.ceiling.Some?;
      var handSet := && confident && ceiling && i.state.Some? && i.state.value.lastSet.Some?
                     && i.state.value.lastSet.value != i.currentMin.value && i.HandSetAt().value + 86400000 > i.now;
      && (PlanStatus(i) == HandSetStatus <==> handSet)
      && (PlanStatus(i) == Driving <==> confident && ceiling && !handSet)
      && (PlanStatus(i) == Window <==> !confident && ceiling && i.windows >= 1)
      && (PlanStatus(i) == Learning <==> !confident && ceiling && i.windows == 0)
      && (PlanStatus(i) == NoBand <==> !ceiling)
  {
    HandSetSince(i);
  }
}
