/** When a row holds the outcome of a request it does not wait for: `completeIncident` and `completeResolution`
    (`src/investigate.ts`, `src/resolve.ts`) look for a waiting row when none names the request, and `src/agent.ts`
    moves a row to the retry before it completes the original. */
module AgentAstray {
  import opened Options
  import opened AgentRequests
  import opened AgentRows

  datatype Write = Write(row: nat, run: nat)

  /** The request whose outcome a step brings to its row: a failed delivery at once, a finished one, or one that
      awaited more. */
  function Ends(d: Desk, s: Step): Option<nat> {
    match s
    case Deliver(r, completed) => if Accepts(d, r) && !completed && !d.runs[r].subject.Job? then Some(r) else None
    case Finish(at, _) => if At(d, at) && d.deliveries[at].Finishing? then Some(d.deliveries[at].run) else None
    case Store(at) => if At(d, at) && d.deliveries[at].Storing? then Some(d.deliveries[at].run) else None
    case _ => None
  }

  /** The row it is written to, when the step writes. */
  function Written(d: Desk, s: Step): Option<Write> {
    var r := Ends(d, s);
    if r.None? || r.value >= |d.runs| then None
    else if s.Store? then
      if d.deliveries[s.at].row < |d.rows| then Some(Write(d.deliveries[s.at].row, r.value)) else None
    else
      var row := Target(d.rows, d.runs[r.value].subject, r.value);
      if row.None? || row.value >= |d.rows| || Postpones(d, s, r.value) then None else Some(Write(row.value, r.value))
  }

  /** A finish that finds the row and awaits more before it writes. */
  predicate Postpones(d: Desk, s: Step, r: nat)
    requires r < |d.runs|
  {
    s.Finish? && s.awaits && Awaits(d.runs[r].subject) && d.runs[r].status.Completed?
  }

  /** The row holds the outcome of a request it does not name. */
  predicate Astray(d: Desk, i: nat) {
    i < |d.rows| && d.rows[i].state.Held? && d.rows[i].request != Some(d.rows[i].state.run)
  }

  /** The step writes the outcome of a request into a row that does not name it. */
  predicate Strays(d: Desk, s: Step, i: nat) {
    var w := Written(d, s);
    w.Some? && w.value.row == i && i < |d.rows| && d.rows[i].request != Some(w.value.run)
  }

  /** The step writes the row again, moves it to a retry, closes it, or lets it name the request whose outcome it
      holds. */
  predicate Mends(d: Desk, s: Step, i: nat)
    requires i < |d.rows|
  {
    || (Written(d, s).Some? && Written(d, s).value.row == i)
    || (s.LinkRetry? && At(d, s.at) && d.deliveries[s.at].Posted? && d.rows[i].request == Some(d.deliveries[s.at].run)
        && FollowsRetry(d.rows[i].subject))
    || (s.RowNotPosted? && SendingAt(d, s.at) && d.sendings[s.at] == Sending(i))
    || (s.Attach? && SendingAt(d, s.at) && d.sendings[s.at].Sent? && d.sendings[s.at].row == i
        && d.rows[i].state == Held(d.sendings[s.at].run))
  }

  // ---- when a step strays -------------------------------------------------------------------------------------------

  /** A step that delivers a failure or finishes a request writes it into row `i` although the row does not name it
      exactly when the request is about an incident or a resolution, no row names it (its own was moved to its retry,
      or does not name it yet), and the row is the newest waiting one of the same alert or recommendation. */
  lemma StraysIff(d: Desk, s: Step, i: nat)
    requires RowsFit(d) && (s.Deliver? || s.Finish?)
    ensures Strays(d, s, i) <==>
      var r := Ends(d, s);
      && r.Some? && r.value < |d.runs| && !Postpones(d, s, r.value)
      && FallsBack(d.runs[r.value].subject) && Unnamed(d, r.value)
      && WaitingRow(d.rows, d.runs[r.value].subject) == Some(i)
  {
    hide RowsFit, Target, WaitingRow, Unnamed;
    var r := Ends(d, s);
    if r.Some? && r.value < |d.runs| {
      TargetMeaning(d, r.value);
      WaitingRowMeaning(d.rows, d.runs[r.value].subject);
    }
  }

  /** A finish that awaits more has found its row by then: one that does not name the request under the same
      condition. */
  lemma PostponedStraysIff(d: Desk, s: Step, i: nat)
    requires RowsFit(d) && Ends(d, s).Some? && s.Finish? && Ends(d, s).value < |d.runs| &&
        Postpones(d, s, Ends(d, s).value)
    ensures var r := Ends(d, s).value;
      Storing(r, i) in Apply(d, s).deliveries && i < |d.rows| && d.rows[i].request != Some(r)
      <==> FallsBack(d.runs[r].subject) && Unnamed(d, r) && WaitingRow(d.rows, d.runs[r].subject) == Some(i)
  {
    hide DeliveryFits, RunFits, OneRetry, Target, WaitingRow, Unnamed, RowFits;
    var after := Apply(d, s).deliveries;
    assert forall k: nat :: k < |d.deliveries| && k != s.at ==> d.deliveries[k].run != Ends(d, s).value;
    assert |after| == |d.deliveries| ==> after[s.at] in after;
    TargetMeaning(d, Ends(d, s).value);
    WaitingRowMeaning(d.rows, d.runs[Ends(d, s).value].subject);
  }

  /** What a step does to the rows it does not open. */
  lemma RowAfter(d: Desk, s: Step, i: nat)
    requires RowsFit(d) && i < |d.rows|
    ensures i < |Apply(d, s).rows|
    ensures Written(d, s).Some? && Written(d, s).value.row == i ==>
      Apply(d, s).rows[i] == d.rows[i].(state := Held(Written(d, s).value.run))
    ensures !Mends(d, s, i) ==> Apply(d, s).rows[i].state == d.rows[i].state
    ensures !Mends(d, s, i) && !(s.Attach? && SendingAt(d, s.at) && d.sendings[s.at].row == i) ==>
      Apply(d, s).rows[i] == d.rows[i]
  {
    hide RowsFit, OwnRow, WaitingRow, FallsBack, Awaits, SameTable;
    var r := Ends(d, s);
    if r.Some? && r.value < |d.runs| {
      TargetMeaning(d, r.value);
    }
  }

  /** One step makes a row hold a foreign outcome exactly when it strays into it, or the row held one and is not
      mended. */
  lemma AstrayStep(d: Desk, s: Step, i: nat)
    requires RowsFit(d)
    ensures Astray(Apply(d, s), i) <==> i < |d.rows| && (Strays(d, s, i) || (Astray(d, i) && !Mends(d, s, i)))
  {
    hide Valid, OwnRow, WaitingRow, FallsBack, Awaits, SameTable, Unnamed, RowFits, Target;
    if i < |d.rows| {
      RowAfter(d, s, i);
      if s.Attach? && SendingAt(d, s.at) {
        assert SendingFits(d, d.sendings[s.at]);
      }
    }
  }

  // ---- over histories -----------------------------------------------------------------------------------------------

  /** Step `k` strays into the row and no later step mends it. */
  ghost predicate StrayedAt(steps: seq<Step>, k: nat, i: nat) {
    && k < |steps| && Strays(Reached(steps[..k]), steps[k], i)
    && forall j :: k < j < |steps| ==> i < |Reached(steps[..j]).rows| && !Mends(Reached(steps[..j]), steps[j], i)
  }

  lemma StrayedShorter(steps: seq<Step>, k: nat, i: nat)
    requires steps != [] && k < |steps| - 1
    ensures var n := |steps| - 1;
      StrayedAt(steps, k, i) <==>
        StrayedAt(steps[..n], k, i) && i < |Reached(steps[..n]).rows| && !Mends(Reached(steps[..n]), steps[n], i)
  {
    hide Reached, Mends, Strays;
    var n := |steps| - 1;
    forall j | 0 <= j <= n
      ensures j < n ==> steps[..n][..j] == steps[..j] && steps[..n][j] == steps[j]
    {
    }
    if StrayedAt(steps, k, i) {
      assert i < |Reached(steps[..n]).rows| && !Mends(Reached(steps[..n]), steps[n], i);
      forall j | k < j < n
        ensures i < |Reached(steps[..n][..j]).rows| && !Mends(Reached(steps[..n][..j]), steps[..n][j], i)
      {
        assert steps[..n][..j] == steps[..j];
      }
    }
    if StrayedAt(steps[..n], k, i) && i < |Reached(steps[..n]).rows| && !Mends(Reached(steps[..n]), steps[n], i) {
      forall j | k < j <= n
        ensures i < |Reached(steps[..j]).rows| && !Mends(Reached(steps[..j]), steps[j], i)
      {
        assert j < n ==> steps[..n][..j] == steps[..j] && steps[..n][j] == steps[j];
      }
    }
  }

  /** For every history: a row ends up holding the outcome of a request it does not name exactly when some step
      strayed into it and nothing mended it since. */
  lemma {:induction false} AstrayIff(steps: seq<Step>, i: nat)
    ensures Astray(Reached(steps), i) <==> exists k: nat :: StrayedAt(steps, k, i)
  {
    hide Mends, Strays, Astray, Apply;
    if steps == [] {
      assert !Astray(Reached(steps), i) by {
        NoRows(i);
      }
    } else {
      var n := |steps| - 1;
      var d := Reached(steps[..n]);
      AstrayIff(steps[..n], i);
      RowsHoldTheirOwn(steps[..n]);
      AstrayStep(d, steps[n], i);
      StraysInside(d, steps[n], i);
      assert Reached(steps) == Apply(d, steps[n]);
      forall k: nat | k < n
        ensures StrayedAt(steps, k, i) <==> StrayedAt(steps[..n], k, i) && i < |d.rows| && !Mends(d, steps[n], i)
      {
        StrayedShorter(steps, k, i);
      }
      assert StrayedAt(steps, n, i) <==> Strays(d, steps[n], i);
      if Astray(Reached(steps), i) && !Strays(d, steps[n], i) {
        var k: nat :| StrayedAt(steps[..n], k, i);
        assert StrayedAt(steps, k, i);
      }
    }
  }

  lemma NoRows(i: nat)
    ensures !Astray(EMPTY, i)
  {
  }

  lemma StraysInside(d: Desk, s: Step, i: nat)
    ensures Strays(d, s, i) || Astray(d, i) ==> i < |d.rows|
  {
  }

  /** Under any interleaving, an observation, a report or a playbook job never holds a foreign outcome; only incidents
      and resolutions can. */
  lemma OnlyFallbacksStray(steps: seq<Step>, i: nat)
    ensures Astray(Reached(steps), i) ==> FallsBack(Reached(steps).rows[i].subject)
  {
    RowsHoldTheirOwn(steps);
    var d := Reached(steps);
    if i < |d.rows| {
      assert RowFits(d, d.rows[i]);
    }
  }

  // ---- an answer of its own -----------------------------------------------------------------------------------------

  ghost predicate HoldsItsOwn(d: Desk, i: nat) {
    i < |d.rows| && d.rows[i].state.Held? && d.rows[i].request == Some(d.rows[i].state.run)
  }

  /** A step takes a row's own outcome from it exactly when it stores an answer that had found the row earlier. */
  lemma OwnAnswerLostIff(d: Desk, s: Step, i: nat)
    requires RowsFit(d) && HoldsItsOwn(d, i)
    ensures i < |Apply(d, s).rows|
    ensures Apply(d, s).rows[i] != d.rows[i] <==>
      s.Store? && At(d, s.at) && d.deliveries[s.at].Storing? && d.deliveries[s.at].row == i
  {
    hide Valid, OwnRow, WaitingRow, FallsBack, Awaits, SameTable, Unnamed, Target, WithOutcome;
    RowAfter(d, s, i);
    assert RowFits(d, d.rows[i]);
    if s.Attach? || s.RowNotPosted? {
      assert SendingAt(d, s.at) ==> SendingFits(d, d.sendings[s.at]);
    }
    var r := Ends(d, s);
    if r.Some? && r.value < |d.runs| && !s.Store? {
      EndsBefore(d, s);
      TargetMeaning(d, r.value);
      WaitingRowMeaning(d.rows, d.runs[r.value].subject);
    }
  }

  /** A request whose outcome is only now written is held by no row. */
  lemma EndsBefore(d: Desk, s: Step)
    requires RowsFit(d) && Ends(d, s).Some?
    ensures forall w <- d.rows :: w.state.Held? ==> w.state.run != Ends(d, s).value
  {
    hide Valid;
    forall w | w in d.rows && w.state.Held?
      ensures w.state.run != Ends(d, s).value
    {
      assert RowFits(d, w);
    }
  }

  /** The outcome of the request a row names is written into that row, whatever it held: a foreign outcome lasts no
      longer. */
  lemma NamedOutcomeWins(d: Desk, s: Step, i: nat)
    requires RowsFit(d) && i < |d.rows| && d.rows[i].request.Some? && Ends(d, s) == d.rows[i].request
    requires (s.Deliver? || s.Finish?) && d.rows[i].request.value < |d.runs| &&
        !Postpones(d, s, d.rows[i].request.value)
    ensures HoldsItsOwn(Apply(d, s), i)
  {
    hide Valid, OwnRow, WaitingRow, FallsBack, Awaits, SameTable, RowFits;
    var r := d.rows[i].request.value;
    TargetMeaning(d, r);
    assert d.rows[i] in d.rows;
    RowAfter(d, s, i);
  }

  /** Outside incidents, a row that holds the outcome of the request it names holds it for good. */
  lemma {:induction false} OwnAnswerIsFinal(steps: seq<Step>, more: seq<Step>, i: nat)
    requires HoldsItsOwn(Reached(steps), i)
    requires !Reached(steps).rows[i].subject.Incident?
    ensures i < |Reached(steps + more).rows| && Reached(steps + more).rows[i] == Reached(steps).rows[i]
    decreases |more|
  {
    hide Apply, Reached, RowsFit;
    if more == [] {
      assert steps + more == steps;
    } else {
      var n := |more| - 1;
      OwnAnswerIsFinal(steps, more[..n], i);
      RowsHoldTheirOwn(steps + more[..n]);
      OwnAnswerStays(Reached(steps), Reached(steps + more[..n]), more[n], i);
      Then(steps + more[..n], more[n]);
      assert steps + more == steps + more[..n] + [more[n]];
    }
  }

  lemma OwnAnswerStays(first: Desk, d: Desk, s: Step, i: nat)
    requires HoldsItsOwn(first, i) && !first.rows[i].subject.Incident? && i < |d.rows| && d.rows[i] == first.rows[i]
    requires RowsFit(d)
    ensures i < |Apply(d, s).rows| && Apply(d, s).rows[i] == d.rows[i]
  {
    hide Apply, RowsFit;
    OwnAnswerLostIff(d, s, i);
    if s.Store? && At(d, s.at) && d.deliveries[s.at].Storing? {
      StoresElsewhere(d, s.at, i);
    }
  }

  lemma StoresElsewhere(d: Desk, at: nat, i: nat)
    requires RowsFit(d) && HoldsItsOwn(d, i) && !d.rows[i].subject.Incident?
    requires At(d, at) && d.deliveries[at].Storing?
    ensures d.deliveries[at].row != i
  {
    assert StoringFits(d, d.deliveries[at]);
    assert RowFits(d, d.rows[i]);
  }

  // ---- the histories that go wrong ----------------------------------------------------------------------------------

  lemma Then(steps: seq<Step>, s: Step)
    ensures Reached(steps + [s]) == Apply(Reached(steps), s)
  {
    assert (steps + [s])[..|steps|] == steps;
  }

  /** A row's request is answered below the threshold and sent back, and the row is moved to the retry. */
  function SentBackStory(subject: Subject): seq<Step> {
    [OpenRow(subject), RowPosted(0, Task(0.75, 1), true), Attach(0), Deliver(0, true), Grade(0, 0.1), PostAnswered(0),
     LinkRetry(0)]
  }

  lemma StoryReaches(subject: Subject)
    requires !subject.Bare? && FollowsRetry(subject)
    ensures var d := Reached(SentBackStory(subject));
      && d.rows == [Row(subject, Some(1), Waiting)] && d.deliveries == [Finishing(0)] && d.sendings == []
      && d.runs == [Run(Task(0.75, 1), subject, true, Completed, Some(0.1), None, Some(1)),
                    Run(Task(0.75, 1), subject, true, Pending, None, Some(0), None)]
  {
    var s1, s2, s3 := OpenRow(subject), RowPosted(0, Task(0.75, 1), true), Attach(0);
    var s4, s5, s6, s7 := Deliver(0, true), Grade(0, 0.1), PostAnswered(0), LinkRetry(0);
    Then([], s1);
    Then([s1], s2);
    Then([s1, s2], s3);
    Then([s1, s2, s3], s4);
    Then([s1, s2, s3, s4], s5);
    Then([s1, s2, s3, s4, s5], s6);
    Then([s1, s2, s3, s4, s5, s6], s7);
    hide Apply, Reached;
    StoryOpens(subject);
    StoryGrades(subject);
    StoryRetries(subject);
    assert [] + [s1] == [s1] && [s1] + [s2] == [s1, s2] && [s1, s2] + [s3] == [s1, s2, s3];
    assert [s1, s2, s3] + [s4] == [s1, s2, s3, s4] && [s1, s2, s3, s4] + [s5] == [s1, s2, s3, s4, s5];
    assert [s1, s2, s3, s4, s5] + [s6] == [s1, s2, s3, s4, s5, s6];
    assert [s1, s2, s3, s4, s5, s6] + [s7] == SentBackStory(subject);
    NothingYet();
  }

  lemma StoryOpens(subject: Subject)
    requires !subject.Bare? && FollowsRetry(subject)
    ensures var first := Run(Task(0.75, 1), subject, true, Pending, None, None, None);
      var w, named := Row(subject, None, Waiting), Row(subject, Some(0), Waiting);
      && Apply(EMPTY, OpenRow(subject)) == Desk([], [], [w], [Sending(0)])
      && Apply(Desk([], [], [w], [Sending(0)]), RowPosted(0, Task(0.75, 1), true)) ==
          Desk([first], [], [w], [Sent(0, 0)])
      && Apply(Desk([first], [], [w], [Sent(0, 0)]), Attach(0)) == Desk([first], [], [named], [])
  {
  }

  lemma StoryGrades(subject: Subject)
    requires !subject.Bare? && FollowsRetry(subject)
    ensures var done := Run(Task(0.75, 1), subject, true, Completed, None, None, None);
      var graded, named := done.(score := Some(0.1)), Row(subject, Some(0), Waiting);
      && Apply(Desk([done.(status := Pending)], [], [named], []), Deliver(0, true)) ==
          Desk([done], [Grading(0)], [named], [])
      && Apply(Desk([done], [Grading(0)], [named], []), Grade(0, 0.1)) == Desk([graded], [Posting(0)], [named], [])
  {
  }

  lemma StoryRetries(subject: Subject)
    requires !subject.Bare? && FollowsRetry(subject)
    ensures var graded := Run(Task(0.75, 1), subject, true, Completed, Some(0.1), None, None);
      var second, named := Run(Task(0.75, 1), subject, true, Pending, None, Some(0), None),
          Row(subject, Some(0), Waiting);
      && Apply(Desk([graded], [Posting(0)], [named], []), PostAnswered(0)) ==
         Desk([graded, second], [Posted(0, 1)], [named], [])
      && Apply(Desk([graded, second], [Posted(0, 1)], [named], []), LinkRetry(0)) ==
         Desk([graded.(retriedBy := Some(1)), second], [Finishing(0)], [Row(subject, Some(1), Waiting)], [])
  {
    var moved := Moved([Row(subject, Some(0), Waiting)], 0, 1);
    assert moved == [Row(subject, Some(1), Waiting)];
  }

  /** Completing the original then stores the answer that was sent back into the very row that waits for the retry,
      when it is an incident or a resolution; the other rows go on waiting. */
  lemma SentBackAnswerIsStored(subject: Subject)
    requires !subject.Bare? && FollowsRetry(subject)
    ensures Reached(SentBackStory(subject) + [Finish(0, false)]).rows ==
            [Row(subject, Some(1), if FallsBack(subject) then Held(0) else Waiting)]
  {
    hide Apply;
    StoryReaches(subject);
    var d := Reached(SentBackStory(subject));
    Then(SentBackStory(subject), Finish(0, false));
    FinishStory(d, subject, false);
  }

  lemma FinishStory(d: Desk, subject: Subject, awaits: bool)
    requires d.rows == [Row(subject, Some(1), Waiting)] && d.deliveries == [Finishing(0)] && |d.runs| > 0
    requires d.runs[0].subject == subject && d.runs[0].status.Completed?
    ensures var after := Apply(d, Finish(0, awaits));
      after == if awaits && subject.Incident? then d.(deliveries := [Storing(0, 0)])
               else d.(rows := [Row(subject, Some(1), if FallsBack(subject) then Held(0) else Waiting)],
                   deliveries := [])
  {
    assert d.rows[..0] == [];
    assert WaitingRow(d.rows, subject) == Some(0);
    assert OwnRow(d.rows, subject, 0) == OwnRow([], subject, 0);
  }

  /** For an incident whose sent-back answer is still at the tier check when the retry's answer comes in and passes
      its own, the order of the two writes is reversed: the row names the retry and is left with the answer that was
      sent back. */
  lemma TierCheckReversesTheAnswers(alert: nat)
    ensures var d := Reached(SentBackStory(Incident(alert)) + [Finish(0, true)] + [Deliver(1, true)] + [Grade(1, 0.9)]
                             + [Finish(1, true)] + [Store(1)] + [Store(0)]);
      d.rows == [Row(Incident(alert), Some(1), Held(0))] && d.deliveries == [] && d.sendings == []
  {
    hide Apply;
    var a := SentBackStory(Incident(alert));
    StoryReaches(Incident(alert));
    FinishStory(Reached(a), Incident(alert), true);
    var b := a + [Finish(0, true)] + [Deliver(1, true)] + [Grade(1, 0.9)];
    Then(a, Finish(0, true));
    Then(a + [Finish(0, true)], Deliver(1, true));
    Then(a + [Finish(0, true)] + [Deliver(1, true)], Grade(1, 0.9));
    Then(b, Finish(1, true));
    Then(b + [Finish(1, true)], Store(1));
    Then(b + [Finish(1, true)] + [Store(1)], Store(0));
    RetryComesIn(alert);
    TwoChecks(alert);
    TwoWrites(alert);
  }

  lemma RetryComesIn(alert: nat)
    ensures var first := Run(Task(0.75, 1), Incident(alert), true, Completed, Some(0.1), None, Some(1));
      var done := Run(Task(0.75, 1), Incident(alert), true, Completed, None, Some(0), None);
      var graded, w := done.(score := Some(0.9)), Row(Incident(alert), Some(1), Waiting);
      && Apply(Desk([first, done.(status := Pending)], [Storing(0, 0)], [w], []), Deliver(1, true)) ==
         Desk([first, done], [Storing(0, 0), Grading(1)], [w], [])
      && Apply(Desk([first, done], [Storing(0, 0), Grading(1)], [w], []), Grade(1, 0.9)) ==
         Desk([first, graded], [Storing(0, 0), Finishing(1)], [w], [])
  {
  }

  lemma TwoChecks(alert: nat)
    ensures var first := Run(Task(0.75, 1), Incident(alert), true, Completed, Some(0.1), None, Some(1));
      var graded := Run(Task(0.75, 1), Incident(alert), true, Completed, Some(0.9), Some(0), None);
      var w := Row(Incident(alert), Some(1), Waiting);
      Apply(Desk([first, graded], [Storing(0, 0), Finishing(1)], [w], []), Finish(1, true)) ==
      Desk([first, graded], [Storing(0, 0), Storing(1, 0)], [w], [])
  {
    assert OwnRow([Row(Incident(alert), Some(1), Waiting)], Incident(alert), 1) == Some(0);
  }

  lemma TwoWrites(alert: nat)
    ensures var first := Run(Task(0.75, 1), Incident(alert), true, Completed, Some(0.1), None, Some(1));
      var graded := Run(Task(0.75, 1), Incident(alert), true, Completed, Some(0.9), Some(0), None);
      var w, own := Row(Incident(alert), Some(1), Waiting), Row(Incident(alert), Some(1), Held(1));
      && Apply(Desk([first, graded], [Storing(0, 0), Storing(1, 0)], [w], []), Store(1)) ==
         Desk([first, graded], [Storing(0, 0)], [own], [])
      && Apply(Desk([first, graded], [Storing(0, 0)], [own], []), Store(0)) ==
         Desk([first, graded], [], [Row(Incident(alert), Some(1), Held(0))], [])
  {
  }

  // ---- usage investigations -----------------------------------------------------------------------------------------

  /** A usage investigation's retry is sent as an observation's: no row ever names it or holds its outcome, so the
      answer that was asked for again is lost, and the row keeps to the request it had. */
  lemma UsageRetryIsLost(steps: seq<Step>, n: nat)
    requires n < |Reached(steps).runs| && Reached(steps).runs[n].retryOf.Some?
    requires var d := Reached(steps);
      var o := d.runs[n].retryOf.value; o < |d.runs| && d.runs[o].subject.Usage?
    ensures var d := Reached(steps);
      && d.runs[n].subject.Observation? && Target(d.rows, d.runs[n].subject, n).None?
      && forall w <- d.rows :: w.request != Some(n) && w.state != Held(n)
  {
    RowsHoldTheirOwn(steps);
    hide Reached;
    var d := Reached(steps);
    assert RunFits(d, n);
    forall w | w in d.rows
      ensures w.request != Some(n) && w.state != Held(n)
    {
      assert RowFits(d, w);
    }
    TargetMeaning(d, n);
  }

  // ---- rows and requests that were sent back ------------------------------------------------------------------------

  predicate NamesSentBack(d: Desk, i: nat) {
    && i < |d.rows| && d.rows[i].request.Some? && d.rows[i].request.value < |d.runs|
    && d.runs[d.rows[i].request.value].retriedBy.Some?
  }

  /** The row is only now given its request, which was sent back and linked to its retry before. */
  predicate NamedTooLate(d: Desk, s: Step, i: nat) {
    && s.Attach? && SendingAt(d, s.at) && d.sendings[s.at].Sent? && d.sendings[s.at].row == i
    && d.sendings[s.at].run < |d.runs| && d.runs[d.sendings[s.at].run].retriedBy.Some?
  }

  /** The request a usage investigation names is linked to its retry, and the row is left behind. */
  predicate LeftBehind(d: Desk, s: Step, i: nat) {
    && s.LinkRetry? && At(d, s.at) && d.deliveries[s.at].Posted? && i < |d.rows|
    && d.rows[i].request == Some(d.deliveries[s.at].run) && !FollowsRetry(d.rows[i].subject)
  }

  lemma LinkNamesNone(d: Desk, at: nat, i: nat)
    requires RowsFit(d)
    ensures NamesSentBack(AfterLink(d, at), i) <==> NamesSentBack(d, i) || LeftBehind(d, LinkRetry(at), i)
  {
    if At(d, at) && d.deliveries[at].Posted? {
      LinkedRetry(d, at);
    }
    hide RowsFit;
  }

  /** Only attaching and linking change what a row names, and only linking what a run was retried by. */
  lemma NamesAfter(d: Desk, s: Step)
    requires !s.Attach? && !s.LinkRetry?
    ensures |d.rows| <= |Apply(d, s).rows| && |d.runs| <= |Apply(d, s).runs|
    ensures forall i: nat :: i < |d.rows| ==> Apply(d, s).rows[i].request == d.rows[i].request
    ensures forall i: nat :: |d.rows| <= i < |Apply(d, s).rows| ==> Apply(d, s).rows[i].request.None?
    ensures forall n: nat :: n < |d.runs| ==> Apply(d, s).runs[n].retriedBy == d.runs[n].retriedBy
  {
    hide Target, FallsBack, Awaits;
  }

  lemma NamesSentBackStep(d: Desk, s: Step, i: nat)
    requires RowsFit(d)
    ensures NamesSentBack(Apply(d, s), i) <==> NamesSentBack(d, i) || NamedTooLate(d, s, i) || LeftBehind(d, s, i)
  {
    hide RowFits, OwnRow, WaitingRow, Awaits, FallsBack, SameTable, Valid, Target, Unnamed, AfterLink;
    if i < |d.rows| {
      assert d.rows[i].request.Some? ==> d.rows[i].request.value < |d.runs| by {
        assert RowFits(d, d.rows[i]);
        RequestInside(d, i);
      }
    }
    if s.LinkRetry? {
      LinkNamesNone(d, s.at, i);
    } else if s.Attach? {
      assert SendingAt(d, s.at) ==> SendingFits(d, d.sendings[s.at]);
    } else {
      hide Apply;
      NamesAfter(d, s);
    }
  }

  lemma RequestInside(d: Desk, i: nat)
    requires i < |d.rows| && RowFits(d, d.rows[i])
    ensures d.rows[i].request.Some? ==> d.rows[i].request.value < |d.runs|
  {
  }

  ghost predicate TooLateAt(steps: seq<Step>, k: nat, i: nat) {
    k < |steps| && (NamedTooLate(Reached(steps[..k]), steps[k], i) || LeftBehind(Reached(steps[..k]), steps[k], i))
  }

  lemma TooLateShorter(steps: seq<Step>, k: nat, i: nat)
    requires steps != [] && k < |steps| - 1
    ensures TooLateAt(steps, k, i) <==> TooLateAt(steps[..|steps| - 1], k, i)
  {
    hide Reached, NamedTooLate, LeftBehind;
    assert steps[..|steps| - 1][..k] == steps[..k];
  }

  /** For every history: a row names a request that was sent back exactly when the request was linked to its retry
      before the row was given it, or the row is a usage investigation, which no retry is moved to. */
  lemma {:induction false} NamesSentBackIff(steps: seq<Step>, i: nat)
    ensures NamesSentBack(Reached(steps), i) <==> exists k: nat :: TooLateAt(steps, k, i)
  {
    hide Apply, NamesSentBack, NamedTooLate, LeftBehind;
    if steps == [] {
      NoneNamed(i);
    } else {
      var n := |steps| - 1;
      NamesSentBackIff(steps[..n], i);
      RowsHoldTheirOwn(steps[..n]);
      hide RowsFit;
      NamesSentBackStep(Reached(steps[..n]), steps[n], i);
      assert TooLateAt(steps, n, i) <==>
        NamedTooLate(Reached(steps[..n]), steps[n], i) || LeftBehind(Reached(steps[..n]), steps[n], i);
      forall k: nat | k < n
        ensures TooLateAt(steps, k, i) <==> TooLateAt(steps[..n], k, i)
      {
        TooLateShorter(steps, k, i);
      }
      assert forall k: nat :: TooLateAt(steps, k, i) ==> k <= n;
    }
  }

  lemma NoneNamed(i: nat)
    ensures !NamesSentBack(EMPTY, i)
  {
  }
}
