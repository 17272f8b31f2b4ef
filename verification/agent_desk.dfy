/** `postAgentRequest`, `handleAgentResult` and `gradeAndMaybeRetry` of `src/agent.ts` with the openings and
    completions of the rows, as they change the tables from one await to the next. */
module AgentDesk {
  import opened Options
  import opened AgentRequests
  import opened AgentRows
  import opened AgentAstray

  class AgentTables {
    var runs: seq<Run>
    var deliveries: seq<Delivery>
    var rows: seq<Row>
    var sendings: seq<Sending>

    function State(): Desk
      reads this
    {
      Desk(runs, deliveries, rows, sendings)
    }

    ghost predicate Good()
      reads this
    {
      RowsFit(State())
    }

    constructor ()
      ensures State() == Reached([]) && Good()
    {
      runs, deliveries, rows, sendings := [], [], [], [];
      new;
      RowsHoldTheirOwn([]);
    }

    // opening a row and sending its request

    /** A new row waits, and its request is about to be posted. */
    method Open(subject: Subject) returns (row: nat)
      requires Good() && !subject.Bare?
      modifies this
      ensures Good() && State() == Apply(old(State()), OpenRow(subject))
      ensures row == |old(rows)| && rows[row] == Row(subject, None, Waiting)
    {
      RowsStepKeeps(State(), OpenRow(subject));
      hide RowsFit;
      row := |rows|;
      rows := rows + [Row(subject, None, Waiting)];
      sendings := sendings + [Sending(row)];
    }

    /** The request was accepted: it has a run, which the row does not name yet. */
    method PostRow(at: nat, task: Task, hasPrompt: bool) returns (request: nat)
      requires Good() && at < |sendings| && sendings[at].Sending?
      modifies this
      ensures Good() && State() == Apply(old(State()), RowPosted(at, task, hasPrompt))
      ensures request == |old(runs)| < |runs| && runs[request].status.Pending?
      ensures forall w <- rows :: w.request != Some(request)
    {
      RowsStepKeeps(State(), RowPosted(at, task, hasPrompt));
      NewIsUnnamed(State());
      assert SendingFits(State(), sendings[at]);
      hide RowsFit;
      request := |runs|;
      var row := sendings[at].row;
      runs := runs + [Run(task, rows[row].subject, hasPrompt, Pending, None, None, None)];
      sendings := sendings[at := Sent(row, request)];
    }

    /** The request was not accepted: the row is closed. */
    method NotPosted(at: nat)
      requires Good() && at < |sendings| && sendings[at].Sending?
      modifies this
      ensures Good() && State() == Apply(old(State()), RowNotPosted(at))
      ensures runs == old(runs) && deliveries == old(deliveries) && |sendings| == |old(sendings)| - 1
      ensures var row := old(sendings[at].row);
        && row < |old(rows)| && old(rows)[row].request.None?
        && rows == old(rows)[row := old(rows)[row].(state := NotSent)]
        && forall x <- sendings :: x.row != row
    {
      RowsStepKeeps(State(), RowNotPosted(at));
      assert SendingFits(State(), sendings[at]);
      OneSending(State(), at);
      hide RowsFit;
      var row := sendings[at].row;
      rows := rows[row := rows[row].(state := NotSent)];
      sendings := Without(sendings, at);
    }

    /** The row is the only one to name its request; what it holds by then stays, be it the outcome of another. */
    method NameRequest(at: nat)
      requires Good() && at < |sendings| && sendings[at].Sent?
      modifies this
      ensures Good() && State() == Apply(old(State()), Attach(at))
      ensures runs == old(runs) && deliveries == old(deliveries) && |sendings| == |old(sendings)| - 1
      ensures var row, request := old(sendings[at].row), old(sendings[at].run);
        && row < |old(rows)| && old(rows)[row].request.None?
        && rows == old(rows)[row := old(rows)[row].(request := Some(request))]
        && forall i :: 0 <= i < |rows| && rows[i].request == Some(request) ==> i == row
    {
      RowsStepKeeps(State(), Attach(at));
      assert SendingFits(State(), sendings[at]);
      hide RowsFit;
      var row := sendings[at].row;
      rows := rows[row := rows[row].(request := Some(sendings[at].run))];
      sendings := Without(sendings, at);
    }

    /** A request without a row. */
    method PostAgentRequest(task: Task, hasPrompt: bool) returns (request: nat)
      requires Good()
      modifies this
      ensures Good() && State() == Apply(old(State()), Dispatch(task, hasPrompt))
      ensures request == |old(runs)| && runs[request].status.Pending?
    {
      RowsStepKeeps(State(), Dispatch(task, hasPrompt));
      hide RowsFit;
      request := |runs|;
      runs := runs + [Run(task, Bare, hasPrompt, Pending, None, None, None)];
    }

    // a result comes in

    /** The row the completion of a request looks up: the newest that names it, or for incidents and resolutions the
        newest waiting one of the same alert or recommendation. */
    method FindRow(s: Subject, run: nat) returns (row: Option<nat>)
      ensures row == Target(rows, s, run)
    {
      var own := OwnRow(rows, s, run);
      if own.Some? {
        return own;
      }
      if FallsBack(s) {
        row := WaitingRow(rows, s);
      } else {
        row := None;
      }
    }

    /** A webhook or a polled record: refused unless the request is pending. A failure is written to its row at once,
        but for playbooks. */
    method HandleAgentResult(request: nat, completed: bool) returns (accepted: bool)
      requires Good()
      modifies this
      ensures Good() && State() == Apply(old(State()), Deliver(request, completed))
      ensures accepted == Accepts(old(State()), request)
      ensures !accepted ==> State() == old(State())
    {
      RowsStepKeeps(State(), Deliver(request, completed));
      hide RowsFit, Target;
      if request >= |runs| || !runs[request].status.Pending? {
        return false;
      }
      accepted := true;
      if completed {
        runs := runs[request := runs[request].(status := Completed)];
        deliveries := deliveries + [Grading(request)];
        return;
      }
      var s := runs[request].subject;
      runs := runs[request := runs[request].(status := Failed)];
      if s.Job? {
        deliveries := deliveries + [Finishing(request)];
        return;
      }
      var row := FindRow(s, request);
      if row.Some? && row.value < |rows| {
        rows := rows[row.value := rows[row.value].(state := Held(request))];
      }
    }

    /** The rubric's score is stored; below the threshold, the original's answer is sent back. */
    method Grade(at: nat, score: real)
      requires Good() && at < |deliveries| && deliveries[at].Grading?
      modifies this
      ensures Good() && State() == Apply(old(State()), Step.Grade(at, score))
      ensures rows == old(rows) && sendings == old(sendings) && |deliveries| == |old(deliveries)|
      ensures var request := old(deliveries[at].run);
        && request < |old(runs)| && old(runs)[request].score.None?
        && runs == old(runs)[request := old(runs)[request].(score := Some(score))]
        && var run := old(runs)[request];
           deliveries[at] == if score < run.task.threshold && run.task.max >= 1 && run.retryOf.None? && run.hasPrompt
                             then Posting(request) else Finishing(request)
    {
      RowsStepKeeps(State(), Step.Grade(at, score));
      assert DeliveryFits(State(), deliveries[at]);
      hide RowsFit;
      var r := deliveries[at].run;
      runs := runs[r := runs[r].(score := Some(score))];
      if score >= runs[r].task.threshold || runs[r].task.max < 1 || runs[r].retryOf.Some? || !runs[r].hasPrompt {
        deliveries := deliveries[at := Finishing(r)];
        return;
      }
      deliveries := deliveries[at := Posting(r)];
    }

    /** The retry was accepted: it has a run of its own. */
    method RetryPosted(at: nat)
      requires Good() && at < |deliveries| && deliveries[at].Posting?
      modifies this
      ensures Good() && State() == Apply(old(State()), PostAnswered(at))
      ensures rows == old(rows) && sendings == old(sendings)
      ensures var request, retry := old(deliveries[at].run), |old(runs)|;
        && request < retry && runs[..retry] == old(runs) && |runs| == retry + 1
        && runs[retry].retryOf == Some(request) && runs[retry].status.Pending?
        && runs[retry].task == runs[request].task
        && runs[retry].subject == (if runs[request].subject == Usage then Observation else runs[request].subject)
        && deliveries == old(deliveries)[at := Posted(request, retry)]
        && forall w <- rows :: w.request != Some(retry)
    {
      RowsStepKeeps(State(), PostAnswered(at));
      assert DeliveryFits(State(), deliveries[at]);
      NewIsUnnamed(State());
      hide RowsFit;
      var r := deliveries[at].run;
      deliveries := deliveries[at := Posted(r, |runs|)];
      runs := runs + [Run(runs[r].task, RetrySubject(runs[r].subject), true, Pending, None, Some(r), None)];
    }

    /** The retry could not be sent: the answer stays. */
    method RetryNotSent(at: nat)
      requires Good() && at < |deliveries| && deliveries[at].Posting?
      modifies this
      ensures Good() && State() == Apply(old(State()), PostFailed(at))
      ensures runs == old(runs) && rows == old(rows) && sendings == old(sendings)
      ensures deliveries == old(deliveries)[at := Finishing(old(deliveries[at].run))]
      ensures forall n :: 0 <= n < |runs| ==> runs[n].retryOf != Some(deliveries[at].run)
    {
      RowsStepKeeps(State(), PostFailed(at));
      assert DeliveryFits(State(), deliveries[at]);
      forall n | 0 <= n < |runs|
        ensures runs[n].retryOf != Some(deliveries[at].run)
      {
        assert !RetryOf(State(), n, deliveries[at].run);
      }
      hide RowsFit;
      deliveries := deliveries[at := Finishing(deliveries[at].run)];
    }

    /** The run names its retry, and the row that named it names the retry and waits again, but for usage
        investigations. */
    method Link(at: nat)
      requires Good() && at < |deliveries| && deliveries[at].Posted?
      modifies this
      ensures Good() && State() == Apply(old(State()), LinkRetry(at))
      ensures |deliveries| == |old(deliveries)| && |rows| == |old(rows)|
      ensures forall i :: 0 <= i < |rows| ==>
        if old(rows)[i].request == Some(deliveries[at].run) && rows[i].subject != Usage
        then rows[i] == Row(old(rows)[i].subject, Some(old(deliveries[at].retry)), Waiting)
        else rows[i] == old(rows)[i]
    {
      RowsStepKeeps(State(), LinkRetry(at));
      assert DeliveryFits(State(), deliveries[at]);
      LinkedRetry(State(), at);
      hide RowsFit, Unnamed;
      var r, n := deliveries[at].run, deliveries[at].retry;
      runs := runs[r := runs[r].(retriedBy := Some(n))];
      for i := 0 to |rows|
        modifies this`rows
        invariant |rows| == |old(rows)|
        invariant forall j :: 0 <= j < i ==> rows[j] == Moved(old(rows), r, n)[j]
        invariant forall j :: i <= j < |rows| ==> rows[j] == old(rows)[j]
      {
        if rows[i].request == Some(r) && FollowsRetry(rows[i].subject) {
          rows := rows[i := rows[i].(request := Some(n), state := Waiting)];
        }
      }
      assert rows == Moved(old(rows), r, n);
      deliveries := deliveries[at := Finishing(r)];
    }

    /** The outcome goes to the row the completion finds, which need not name the request; or the row is found, and
        more is awaited before it is written. */
    method Complete(at: nat, awaits: bool)
      requires Good() && at < |deliveries| && deliveries[at].Finishing?
      modifies this
      ensures Good() && State() == Apply(old(State()), Finish(at, awaits))
      ensures var request := old(deliveries[at].run);
        && request < |runs| && runs == old(runs)
        && var (subject, found) := (runs[request].subject, Target(old(rows), runs[request].subject, request));
           && (Storing(request, found.GetOr(0)) in deliveries <==>
                 awaits && runs[request].status.Completed? && (subject.Incident? || subject.Job?) && found.Some?)
           && (Storing(request, found.GetOr(0)) !in deliveries && found.Some? && found.value < |old(rows)| ==>
                 rows == old(rows)[found.value := old(rows)[found.value].(state := Held(request))])
      ensures forall i: nat :: i < |old(rows)| ==>
        (Astray(State(), i) <==>
         Strays(old(State()), Finish(at, awaits), i)
         || (Astray(old(State()), i) && !Mends(old(State()), Finish(at, awaits), i)))
    {
      ghost var was := State();
      RowsStepKeeps(was, Finish(at, awaits));
      assert DeliveryFits(was, deliveries[at]);
      forall i: nat
        ensures Astray(Apply(was, Finish(at, awaits)), i) <==>
          i < |was.rows| && (Strays(was, Finish(at, awaits), i) ||
              (Astray(was, i) && !Mends(was, Finish(at, awaits), i)))
      {
        AstrayStep(was, Finish(at, awaits), i);
      }
      hide RowsFit, Target, Astray, Strays, Mends;
      var r := deliveries[at].run;
      var s := runs[r].subject;
      var row := FindRow(s, r);
      if awaits && Awaits(s) && row.Some? && runs[r].status.Completed? {
        deliveries := deliveries[at := Storing(r, row.value)];
        assert deliveries[at] == Storing(r, row.value);
        return;
      }
      if row.Some? && row.value < |rows| {
        rows := rows[row.value := rows[row.value].(state := Held(r))];
      }
      deliveries := Without(deliveries, at);
    }

    /** What was awaited is there: the outcome is written into the row found before. */
    method StoreOutcome(at: nat)
      requires Good() && at < |deliveries| && deliveries[at].Storing?
      modifies this
      ensures Good() && State() == Apply(old(State()), Store(at))
      ensures runs == old(runs) && sendings == old(sendings) && |deliveries| == |old(deliveries)| - 1
      ensures var request, row := old(deliveries[at].run), old(deliveries[at].row);
        && row < |old(rows)| && request < |runs| && old(rows)[row].subject == runs[request].subject
        && rows == old(rows)[row := old(rows)[row].(state := Held(request))]
        && (Astray(State(), row) <==> old(rows)[row].request != Some(request))
        && forall x <- deliveries :: x.run != request
    {
      RowsStepKeeps(State(), Store(at));
      assert DeliveryFits(State(), deliveries[at]);
      assert StoringFits(State(), deliveries[at]);
      GoneIsOver(State(), at, rows);
      hide RowsFit;
      var r, row := deliveries[at].run, deliveries[at].row;
      rows := rows[row := rows[row].(state := Held(r))];
      deliveries := Without(deliveries, at);
    }
  }

  /** A row's request is dispatched once. */
  lemma OneSending(d: Desk, at: nat)
    requires RowsFit(d) && at < |d.sendings|
    ensures forall x <- Without(d.sendings, at) :: x.row != d.sendings[at].row
  {
    hide Valid, RowFits, SendingFits, StoringFits;
    forall k: nat | k < |d.sendings| - 1
      ensures Without(d.sendings, at)[k].row != d.sendings[at].row
    {
      assert Without(d.sendings, at)[k] == d.sendings[if k < at then k else k + 1];
    }
  }
}
