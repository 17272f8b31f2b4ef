/** Agent requests, `src/agent.ts`: dispatched, answered by webhook or poll, graded, and retried at most once.
    Everything between two awaits is one step, and the steps of different deliveries interleave in any order. */
module AgentRequests {
  import opened Options

  datatype Status = Pending | Completed | Failed

  /** The rubric of a kind of request and its retry rule: a score below `threshold` is sent back, at most `max`
      times. */
  datatype Task = Task(threshold: real, max: int)

  /** What a request is about, and so the table its row is in; a bare one has no row. */
  datatype Subject =
    | Bare
    | Observation
    | Report
    | Job
    | Usage
    | Incident(alert: nat)
    | Resolution(recommendation: nat)

  datatype Run = Run(task: Task, subject: Subject, hasPrompt: bool, status: Status, score: Option<real>,
                     retryOf: Option<nat>, retriedBy: Option<nat>)

  /** Where a delivery is suspended. `Storing` has found the row and awaits what it needs before it writes. */
  datatype Delivery =
    | Grading(run: nat)
    | Posting(run: nat)
    | Posted(run: nat, retry: nat)
    | Finishing(run: nat)
    | Storing(run: nat, row: nat)

  /** Where the dispatch of a row's request is suspended: the request is being posted, or has a run the row does not
      name yet. */
  datatype Sending = Sending(row: nat) | Sent(row: nat, run: nat)

  /** Waiting for an answer, holding the answer or the failure of a request, or closed because nothing was sent. */
  datatype RowState = Waiting | Held(run: nat) | NotSent

  /** An observation, a report, a playbook job, a usage investigation, an incident or a resolution; its place is its
      id. */
  datatype Row = Row(subject: Subject, request: Option<nat>, state: RowState)

  datatype Desk = Desk(runs: seq<Run>, deliveries: seq<Delivery>, rows: seq<Row>, sendings: seq<Sending>)

  datatype Step =
    | Dispatch(task: Task, hasPrompt: bool)
    | OpenRow(subject: Subject)
    | RowPosted(at: nat, task: Task, hasPrompt: bool)
    | RowNotPosted(at: nat)
    | Attach(at: nat)
    | LoseSending(at: nat)
    | Deliver(request: nat, completed: bool)
    | Grade(at: nat, score: real)
    | PostAnswered(at: nat)
    | PostFailed(at: nat)
    | LinkRetry(at: nat)
    | Finish(at: nat, awaits: bool)
    | Store(at: nat)
    | Lose(at: nat)

  const EMPTY := Desk([], [], [], [])

  // ---- the row an outcome goes to -----------------------------------------------------------------------------------

  predicate SameTable(a: Subject, b: Subject) {
    match a
    case Bare => false
    case Observation => b.Observation?
    case Report => b.Report?
    case Job => b.Job?
    case Usage => b.Usage?
    case Incident(_) => b.Incident?
    case Resolution(_) => b.Resolution?
  }

  /** The newest row of the table that names the request. */
  function OwnRow(rows: seq<Row>, s: Subject, run: nat): Option<nat> {
    if rows == [] then None
    else if SameTable(s, rows[|rows| - 1].subject) && rows[|rows| - 1].request == Some(run) then Some(|rows| - 1)
    else OwnRow(rows[..|rows| - 1], s, run)
  }

  /** The newest waiting row of the same alert or recommendation. */
  function WaitingRow(rows: seq<Row>, s: Subject): Option<nat> {
    if rows == [] then None
    else if rows[|rows| - 1].subject == s && rows[|rows| - 1].state.Waiting? then Some(|rows| - 1)
    else WaitingRow(rows[..|rows| - 1], s)
  }

  /** Incidents and resolutions look for a waiting row when none names the request. */
  predicate FallsBack(s: Subject) {
    s.Incident? || (s.Resolution? && s.recommendation != 0)
  }

  /** Incidents await the tier check, and playbooks their judge, between finding the row and writing it. */
  predicate Awaits(s: Subject) {
    s.Incident? || s.Job?
  }

  /** What a retry is about: the kinds the retry does not name are sent again as observations. */
  function RetrySubject(s: Subject): Subject {
    if s.Usage? then Observation else s
  }

  /** The rows of a request that is sent back are moved to the retry, but for usage investigations. */
  predicate FollowsRetry(s: Subject) {
    !s.Usage?
  }

  function Target(rows: seq<Row>, s: Subject, run: nat): Option<nat> {
    var own := OwnRow(rows, s, run);
    if own.Some? || !FallsBack(s) then own else WaitingRow(rows, s)
  }

  function Settled(rows: seq<Row>, row: nat, run: nat): seq<Row> {
    if row < |rows| then rows[row := rows[row].(state := Held(run))] else rows
  }

  function Moved(rows: seq<Row>, run: nat, retry: nat): seq<Row> {
    seq(|rows|, i requires 0 <= i < |rows| =>
          if rows[i].request == Some(run) && FollowsRetry(rows[i].subject)
          then rows[i].(request := Some(retry), state := Waiting) else rows[i])
  }

  // ---- the steps ----------------------------------------------------------------------------------------------------

  /** One result per dispatch. */
  predicate Accepts(d: Desk, request: nat) {
    request < |d.runs| && d.runs[request].status.Pending?
  }

  predicate At(d: Desk, at: nat) {
    at < |d.deliveries| && d.deliveries[at].run < |d.runs|
  }

  predicate SendingAt(d: Desk, at: nat) {
    at < |d.sendings| && d.sendings[at].row < |d.rows|
  }

  function Without<T>(xs: seq<T>, at: nat): seq<T>
    requires at < |xs|
  {
    xs[..at] + xs[at + 1..]
  }

  /** Whether a graded answer is sent back. */
  predicate SentBack(run: Run, score: real) {
    score < run.task.threshold && run.task.max >= 1 && run.retryOf.None? && run.hasPrompt
  }

  /** A failed playbook request is completed only after an import is awaited; the other failures at once. */
  function AfterDelivery(d: Desk, request: nat, completed: bool): Desk {
    if !Accepts(d, request) then d
    else if completed then
      d.(runs := d.runs[request := d.runs[request].(status := Completed)], deliveries := d.deliveries +
          [Grading(request)])
    else
      var s := d.runs[request].subject;
      var failed := d.(runs := d.runs[request := d.runs[request].(status := Failed)]);
      if s.Job? then failed.(deliveries := d.deliveries + [Finishing(request)])
      else failed.(rows := WithOutcome(d.rows, s, request))
  }

  function WithOutcome(rows: seq<Row>, s: Subject, run: nat): seq<Row> {
    var row := Target(rows, s, run);
    if row.None? then rows else Settled(rows, row.value, run)
  }

  function AfterGrade(d: Desk, at: nat, score: real): Desk {
    if !At(d, at) || !d.deliveries[at].Grading? then d
    else
      var r := d.deliveries[at].run;
      d.(runs := d.runs[r := d.runs[r].(score := Some(score))],
         deliveries := d.deliveries[at := if SentBack(d.runs[r], score) then Posting(r) else Finishing(r)])
  }

  function AfterPost(d: Desk, at: nat): Desk {
    if !At(d, at) || !d.deliveries[at].Posting? then d
    else
      var r := d.deliveries[at].run;
      d.(runs := d.runs + [Run(d.runs[r].task, RetrySubject(d.runs[r].subject), true, Pending, None, Some(r), None)],
         deliveries := d.deliveries[at := Posted(r, |d.runs|)])
  }

  function AfterLink(d: Desk, at: nat): Desk {
    if !At(d, at) || !d.deliveries[at].Posted? then d
    else
      var r, n := d.deliveries[at].run, d.deliveries[at].retry;
      d.(runs := d.runs[r := d.runs[r].(retriedBy := Some(n))], rows := Moved(d.rows, r, n),
         deliveries := d.deliveries[at := Finishing(r)])
  }

  /** The outcome is written, or the row it goes to is found and more is awaited first. */
  function AfterFinish(d: Desk, at: nat, awaits: bool): Desk {
    if !At(d, at) || !d.deliveries[at].Finishing? then d
    else
      var r := d.deliveries[at].run;
      var s := d.runs[r].subject;
      var row := Target(d.rows, s, r);
      if awaits && Awaits(s) && row.Some? && d.runs[r].status.Completed?
      then d.(deliveries := d.deliveries[at := Storing(r, row.value)])
      else d.(rows := WithOutcome(d.rows, s, r), deliveries := Without(d.deliveries, at))
  }

  function AfterStore(d: Desk, at: nat): Desk {
    if !At(d, at) || !d.deliveries[at].Storing? then d
    else
      d.(rows := Settled(d.rows, d.deliveries[at].row, d.deliveries[at].run), deliveries := Without(d.deliveries, at))
  }

  function AfterRowPosted(d: Desk, at: nat, task: Task, hasPrompt: bool): Desk {
    if !SendingAt(d, at) || !d.sendings[at].Sending? then d
    else
      var row := d.sendings[at].row;
      d.(runs := d.runs + [Run(task, d.rows[row].subject, hasPrompt, Pending, None, None, None)],
         sendings := d.sendings[at := Sent(row, |d.runs|)])
  }

  function AfterRowNotPosted(d: Desk, at: nat): Desk {
    if !SendingAt(d, at) || !d.sendings[at].Sending? then d
    else
      var row := d.sendings[at].row;
      d.(rows := d.rows[row := d.rows[row].(state := NotSent)], sendings := Without(d.sendings, at))
  }

  function AfterAttach(d: Desk, at: nat): Desk {
    if !SendingAt(d, at) || !d.sendings[at].Sent? then d
    else
      var row := d.sendings[at].row;
      d.(rows := d.rows[row := d.rows[row].(request := Some(d.sendings[at].run))], sendings := Without(d.sendings, at))
  }

  function Apply(d: Desk, s: Step): Desk {
    match s
    case Dispatch(task, hasPrompt) =>
      d.(runs := d.runs + [Run(task, Bare, hasPrompt, Pending, None, None, None)])
    case OpenRow(subject) =>
      if subject.Bare? then d
      else d.(rows := d.rows + [Row(subject, None, Waiting)], sendings := d.sendings + [Sending(|d.rows|)])
    case RowPosted(at, task, hasPrompt) => AfterRowPosted(d, at, task, hasPrompt)
    case RowNotPosted(at) => AfterRowNotPosted(d, at)
    case Attach(at) => AfterAttach(d, at)
    case LoseSending(at) => if !SendingAt(d, at) then d else d.(sendings := Without(d.sendings, at))
    case Deliver(request, completed) => AfterDelivery(d, request, completed)
    case Grade(at, score) => AfterGrade(d, at, score)
    case PostAnswered(at) => AfterPost(d, at)
    case PostFailed(at) =>
      if !At(d, at) || !d.deliveries[at].Posting? then d
      else d.(deliveries := d.deliveries[at := Finishing(d.deliveries[at].run)])
    case LinkRetry(at) => AfterLink(d, at)
    case Finish(at, awaits) => AfterFinish(d, at, awaits)
    case Store(at) => AfterStore(d, at)
    case Lose(at) => if !At(d, at) then d else d.(deliveries := Without(d.deliveries, at))
  }

  /** The desk after any interleaving of steps. */
  function Reached(steps: seq<Step>): Desk {
    if steps == [] then EMPTY else Apply(Reached(steps[..|steps| - 1]), steps[|steps| - 1])
  }

  // ---- what is counted ----------------------------------------------------------------------------------------------

  predicate Leaves(d: Desk, s: Step, r: nat) {
    s.Deliver? && s.request == r && Accepts(d, r)
  }

  predicate Grades(d: Desk, s: Step, r: nat) {
    s.Grade? && At(d, s.at) && d.deliveries[s.at] == Grading(r)
  }

  predicate Retries(d: Desk, s: Step, r: nat) {
    s.PostAnswered? && At(d, s.at) && d.deliveries[s.at] == Posting(r)
  }

  function CountLeaves(steps: seq<Step>, r: nat): nat {
    if steps == [] then 0
    else CountLeaves(steps[..|steps| - 1], r) + if Leaves(Reached(steps[..|steps| - 1]), steps[|steps| - 1], r)
        then 1 else 0
  }

  function CountGrades(steps: seq<Step>, r: nat): nat {
    if steps == [] then 0
    else CountGrades(steps[..|steps| - 1], r) + if Grades(Reached(steps[..|steps| - 1]), steps[|steps| - 1], r)
        then 1 else 0
  }

  function CountRetries(steps: seq<Step>, r: nat): nat {
    if steps == [] then 0
    else CountRetries(steps[..|steps| - 1], r) + if Retries(Reached(steps[..|steps| - 1]), steps[|steps| - 1], r)
        then 1 else 0
  }

  // ---- the invariant ------------------------------------------------------------------------------------------------

  /** No two deliveries are under way for one request. */
  ghost predicate OneDelivery(d: Desk) {
    forall i, j :: 0 <= i < j < |d.deliveries| ==> d.deliveries[i].run != d.deliveries[j].run
  }

  ghost predicate RetryOf(d: Desk, n: nat, r: nat) {
    n < |d.runs| && d.runs[n].retryOf == Some(r)
  }

  ghost predicate DeliveryFits(d: Desk, x: Delivery) {
    && x.run < |d.runs| && !d.runs[x.run].status.Pending?
    && (x.Grading? ==> d.runs[x.run].status.Completed? && d.runs[x.run].score.None?)
    && (x.Posting? || x.Posted? ==> d.runs[x.run].status.Completed? && d.runs[x.run].score.Some?)
    && (d.runs[x.run].status.Completed? && !x.Grading? ==> d.runs[x.run].score.Some?)
    && (x.Posting? ==> d.runs[x.run].retryOf.None? && forall n: nat :: !RetryOf(d, n, x.run))
    && (x.Posted? ==> RetryOf(d, x.retry, x.run) && d.runs[x.run].retriedBy.None?)
    && ((x.Grading? || x.Posting?) ==> d.runs[x.run].retriedBy.None?)
  }

  ghost predicate RunFits(d: Desk, r: nat)
    requires r < |d.runs|
  {
    && (d.runs[r].score.Some? ==> d.runs[r].status.Completed?)
    && (d.runs[r].retryOf.Some? ==>
          var o := d.runs[r].retryOf.value;
          && o < r && d.runs[o].retryOf.None? && d.runs[o].score.Some?
          && d.runs[r].subject == RetrySubject(d.runs[o].subject))
    && (d.runs[r].retriedBy.Some? ==> RetryOf(d, d.runs[r].retriedBy.value, r))
  }

  ghost predicate OneRetry(d: Desk) {
    forall n, m, r: nat :: RetryOf(d, n, r) && RetryOf(d, m, r) ==> n == m
  }

  ghost predicate Valid(d: Desk) {
    && OneDelivery(d) && OneRetry(d)
    && (forall x <- d.deliveries :: DeliveryFits(d, x))
    && (forall r: nat :: r < |d.runs| ==> RunFits(d, r))
  }

  /** Rows, their dispatches and new requests that are no retries leave the deliveries in order. */
  lemma NewRunKeeps(d: Desk, more: seq<Run>, rows: seq<Row>, sendings: seq<Sending>)
    requires Valid(d) && forall r <- more :: r.retryOf.None? && r.retriedBy.None? && r.score.None?
    ensures Valid(Desk(d.runs + more, d.deliveries, rows, sendings))
  {
    var after := Desk(d.runs + more, d.deliveries, rows, sendings);
    SameRetries(d, after);
    forall i: nat | i < |after.deliveries|
      ensures DeliveryFits(after, after.deliveries[i])
    {
      assert DeliveryFits(d, d.deliveries[i]);
    }
    forall r: nat | r < |after.runs|
      ensures RunFits(after, r)
    {
      if r < |d.runs| {
        assert RunFits(d, r);
      } else {
        assert after.runs[r] == more[r - |d.runs|];
      }
    }
  }

  /** No step but an answered post makes a retry. */
  lemma SameRetries(d: Desk, after: Desk)
    requires |d.runs| <= |after.runs|
    requires forall n: nat :: n < |d.runs| ==> d.runs[n].retryOf == after.runs[n].retryOf
    requires forall n: nat :: |d.runs| <= n < |after.runs| ==> after.runs[n].retryOf.None?
    ensures forall n: nat, r: nat :: RetryOf(after, n, r) <==> RetryOf(d, n, r)
  {
  }

  lemma DeliverKeeps(d: Desk, request: nat, completed: bool)
    requires Valid(d)
    ensures Valid(AfterDelivery(d, request, completed))
  {
    var after := AfterDelivery(d, request, completed);
    SameRetries(d, after);
    if Accepts(d, request) {
      assert RunFits(d, request);
      var linked := d.runs[request].retriedBy;
      assert linked.Some? ==> RunFits(d, linked.value);
      forall i: nat | i < |d.deliveries|
        ensures d.deliveries[i].run != request
      {
        assert DeliveryFits(d, d.deliveries[i]);
      }
      forall i: nat | i < |after.deliveries|
        ensures DeliveryFits(after, after.deliveries[i])
      {
        if i < |d.deliveries| {
          assert DeliveryFits(d, d.deliveries[i]);
        }
      }
      forall r: nat | r < |after.runs|
        ensures RunFits(after, r)
      {
        assert RunFits(d, r);
      }
    }
  }

  lemma GradeKeeps(d: Desk, at: nat, score: real)
    requires Valid(d)
    ensures Valid(AfterGrade(d, at, score))
  {
    var after := AfterGrade(d, at, score);
    SameRetries(d, after);
    if At(d, at) && d.deliveries[at].Grading? {
      var r := d.deliveries[at].run;
      assert DeliveryFits(d, d.deliveries[at]);
      forall n: nat
        ensures !RetryOf(d, n, r)
      {
        assert n < |d.runs| ==> RunFits(d, n);
      }
      forall i: nat | i < |after.deliveries|
        ensures DeliveryFits(after, after.deliveries[i])
      {
        assert DeliveryFits(d, d.deliveries[i]);
        assert i != at ==> d.deliveries[i].run != r;
      }
      forall o: nat | o < |after.runs|
        ensures RunFits(after, o)
      {
        assert RunFits(d, o);
      }
    }
  }

  lemma PostKeeps(d: Desk, at: nat)
    requires Valid(d)
    ensures Valid(AfterPost(d, at))
  {
    var after := AfterPost(d, at);
    if At(d, at) && d.deliveries[at].Posting? {
      var r := d.deliveries[at].run;
      assert DeliveryFits(d, d.deliveries[at]);
      forall n: nat, o: nat
        ensures RetryOf(after, n, o) <==> RetryOf(d, n, o) || (n == |d.runs| && o == r)
      {
      }
      forall i: nat | i < |after.deliveries|
        ensures DeliveryFits(after, after.deliveries[i])
      {
        assert DeliveryFits(d, d.deliveries[i]);
        assert i != at ==> d.deliveries[i].run != r;
      }
      forall o: nat | o < |after.runs|
        ensures RunFits(after, o)
      {
        assert o < |d.runs| ==> RunFits(d, o);
      }
    }
  }

  lemma PostFailedKeeps(d: Desk, at: nat)
    requires Valid(d)
    ensures Valid(Apply(d, PostFailed(at)))
  {
    var after := Apply(d, PostFailed(at));
    SameRetries(d, after);
    forall i: nat | i < |after.deliveries|
      ensures DeliveryFits(after, after.deliveries[i])
    {
      assert DeliveryFits(d, d.deliveries[i]);
    }
    forall o: nat | o < |after.runs|
      ensures RunFits(after, o)
    {
      assert RunFits(d, o);
    }
  }

  lemma LinkKeeps(d: Desk, at: nat)
    requires Valid(d)
    ensures Valid(AfterLink(d, at))
  {
    var after := AfterLink(d, at);
    SameRetries(d, after);
    if At(d, at) && d.deliveries[at].Posted? {
      assert DeliveryFits(d, d.deliveries[at]);
      forall i: nat | i < |after.deliveries|
        ensures DeliveryFits(after, after.deliveries[i])
      {
        assert DeliveryFits(d, d.deliveries[i]);
        assert i != at ==> d.deliveries[i].run != d.deliveries[at].run;
      }
      forall o: nat | o < |after.runs|
        ensures RunFits(after, o)
      {
        assert RunFits(d, o);
      }
    }
  }

  lemma FewerKeeps(d: Desk, at: nat, rows: seq<Row>)
    requires Valid(d) && at < |d.deliveries|
    ensures Valid(d.(deliveries := Without(d.deliveries, at), rows := rows))
  {
    var after := d.(deliveries := Without(d.deliveries, at), rows := rows);
    SameRetries(d, after);
    forall x | x in after.deliveries
      ensures DeliveryFits(after, x)
    {
      assert x in d.deliveries;
      assert DeliveryFits(d, x);
    }
    forall o: nat | o < |after.runs|
      ensures RunFits(after, o)
    {
      assert RunFits(d, o);
    }
  }

  lemma FinishKeeps(d: Desk, at: nat, awaits: bool)
    requires Valid(d)
    ensures Valid(AfterFinish(d, at, awaits))
  {
    hide Target, WithOutcome;
    if At(d, at) && d.deliveries[at].Finishing? {
      var r := d.deliveries[at].run;
      FewerKeeps(d, at, WithOutcome(d.rows, d.runs[r].subject, r));
      var after := AfterFinish(d, at, awaits);
      SameRetries(d, after);
      forall i: nat | i < |after.deliveries| && after.runs == d.runs && |after.deliveries| == |d.deliveries|
        ensures DeliveryFits(after, after.deliveries[i])
      {
        assert DeliveryFits(d, d.deliveries[i]);
      }
      forall o: nat | o < |after.runs|
        ensures RunFits(after, o)
      {
        assert RunFits(d, o);
      }
    }
  }

  lemma StepKeeps(d: Desk, s: Step)
    requires Valid(d)
    ensures Valid(Apply(d, s))
  {
    hide Valid, Settled, Target, WithOutcome, Moved;
    match s
    case Deliver(request, completed) => DeliverKeeps(d, request, completed);
    case Grade(at, score) => GradeKeeps(d, at, score);
    case PostAnswered(at) => PostKeeps(d, at);
    case PostFailed(at) => PostFailedKeeps(d, at);
    case LinkRetry(at) => LinkKeeps(d, at);
    case Finish(at, awaits) => FinishKeeps(d, at, awaits);
    case Store(at) =>
      if At(d, at) && d.deliveries[at].Storing? {
        FewerKeeps(d, at, Settled(d.rows, d.deliveries[at].row, d.deliveries[at].run));
      }
    case Lose(at) =>
      if At(d, at) {
        FewerKeeps(d, at, d.rows);
      }
    case _ =>
      var after := Apply(d, s);
      var more := after.runs[|d.runs|..];
      assert after.runs == d.runs + more;
      NewRunKeeps(d, more, after.rows, after.sendings);
  }

  lemma {:induction false} ReachedValid(steps: seq<Step>)
    ensures Valid(Reached(steps))
  {
    if steps != [] {
      ReachedValid(steps[..|steps| - 1]);
      StepKeeps(Reached(steps[..|steps| - 1]), steps[|steps| - 1]);
    }
  }

  // ---- what every interleaving keeps --------------------------------------------------------------------------------

  lemma ReachedLast(steps: seq<Step>)
    requires steps != []
    ensures Reached(steps) == Apply(Reached(steps[..|steps| - 1]), steps[|steps| - 1])
  {
  }

  /** A request leaves pending at most once, and is graded at most once: exactly when its row says so. */
  lemma {:induction false} LeavesAndGradesOnce(steps: seq<Step>, r: nat)
    ensures var runs := Reached(steps).runs;
      && CountLeaves(steps, r) == (if r < |runs| && !runs[r].status.Pending? then 1 else 0)
      && CountGrades(steps, r) == (if r < |runs| && runs[r].score.Some? then 1 else 0)
  {
    hide Apply, Reached;
    if steps == [] {
      NothingYet();
    } else {
      var before := Reached(steps[..|steps| - 1]);
      LeavesAndGradesOnce(steps[..|steps| - 1], r);
      ReachedValid(steps[..|steps| - 1]);
      ReachedLast(steps);
      OneStep(before, steps[|steps| - 1], r);
    }
  }

  lemma NothingYet()
    ensures Reached([]) == EMPTY
  {
  }

  /** One step takes a request out of pending exactly when it leaves, and scores it exactly when it grades. */
  lemma OneStep(d: Desk, s: Step, r: nat)
    requires Valid(d)
    ensures var runs, after := d.runs, Apply(d, s).runs;
      && |runs| <= |after| && (|runs| <= r < |after| ==> after[r].status.Pending? && after[r].score.None?)
      && (r < |runs| ==>
            && (after[r].status.Pending? <==> runs[r].status.Pending? && !Leaves(d, s, r))
            && (after[r].score.Some? <==> runs[r].score.Some? || Grades(d, s, r))
            && !(runs[r].score.Some? && Grades(d, s, r)))
      && (r >= |runs| ==> !Leaves(d, s, r) && !Grades(d, s, r))
  {
    if s.Grade? && At(d, s.at) {
      assert DeliveryFits(d, d.deliveries[s.at]);
    }
  }

  /** A request causes at most one retry, and a retry causes none: exactly when some run says it is its retry. */
  lemma {:induction false} RetriesOnce(steps: seq<Step>, r: nat)
    ensures CountRetries(steps, r) == if exists n: nat :: RetryOf(Reached(steps), n, r) then 1 else 0
    ensures r < |Reached(steps).runs| && Reached(steps).runs[r].retryOf.Some? ==> CountRetries(steps, r) == 0
  {
    hide Apply, Reached;
    if steps == [] {
      NothingYet();
    } else {
      var before, s, after := Reached(steps[..|steps| - 1]), steps[|steps| - 1], Reached(steps);
      RetriesOnce(steps[..|steps| - 1], r);
      ReachedValid(steps[..|steps| - 1]);
      ReachedLast(steps);
      OneRetryStep(before, s, r);
    }
    ReachedValid(steps);
    if r < |Reached(steps).runs| && Reached(steps).runs[r].retryOf.Some? {
      forall n: nat
        ensures !RetryOf(Reached(steps), n, r)
      {
        assert n < |Reached(steps).runs| ==> RunFits(Reached(steps), n);
      }
    }
  }

  lemma OneRetryStep(d: Desk, s: Step, r: nat)
    requires Valid(d)
    ensures Retries(d, s, r) ==> forall n: nat :: !RetryOf(d, n, r)
    ensures Retries(d, s, r) ==> RetryOf(Apply(d, s), |d.runs|, r)
    ensures !Retries(d, s, r) ==> forall n: nat :: RetryOf(Apply(d, s), n, r) <==> RetryOf(d, n, r)
  {
    if s.PostAnswered? && At(d, s.at) {
      assert DeliveryFits(d, d.deliveries[s.at]);
    }
  }

  /** The runs one dispatch led to: itself, and its retry. */
  ghost predicate LedTo(d: Desk, original: nat, n: nat) {
    n == original || RetryOf(d, n, original) || exists m: nat :: RetryOf(d, m, original) && RetryOf(d, n, m)
  }

  /** One original leads to at most two dispatches, itself and one retry: retries of retries do not exist. */
  lemma AtMostTwoDispatches(steps: seq<Step>, original: nat)
    requires original < |Reached(steps).runs|
    ensures forall a: nat, b: nat, c: nat ::
      LedTo(Reached(steps), original, a) && LedTo(Reached(steps), original, b) && LedTo(Reached(steps), original, c) ==>
        a == b || b == c || a == c
    ensures Reached(steps).runs[original].retryOf.Some? ==> forall n: nat :: LedTo(Reached(steps), original, n) ==>
        n == original
  {
    hide Reached;
    var d := Reached(steps);
    ReachedValid(steps);
    forall n: nat, m: nat
      ensures !(RetryOf(d, m, original) && RetryOf(d, n, m))
    {
      assert n < |d.runs| ==> RunFits(d, n);
    }
    forall n: nat
      ensures RetryOf(d, n, original) ==> d.runs[original].retryOf.None?
    {
      assert n < |d.runs| ==> RunFits(d, n);
    }
  }
}
