/** The rows that wait for agent requests, `src/agent.ts` with the completions of `src/investigate.ts`,
    `src/resolve.ts`, `src/observe.ts`, `src/pass_report.ts`, `src/usage_agent.ts` and `src/playbook_gen.ts`: which
    request's outcome a row holds, under any interleaving. */
module AgentRows {
  import opened Options
  import opened AgentRequests

  // ---- what every interleaving keeps --------------------------------------------------------------------------------

  /** No delivery of the request is under way. */
  ghost predicate Over(d: Desk, r: nat) {
    r < |d.runs| && !d.runs[r].status.Pending? && forall x <- d.deliveries :: x.run != r
  }

  /** A row names a request of its own subject, a retry only once it is linked and of its original's subject, and
      holds the outcome of a request of its own subject that is over; one without a fallback, of the very request it
      names. */
  ghost predicate RowFits(d: Desk, w: Row) {
    && !w.subject.Bare?
    && (w.request.Some? ==>
          && w.request.value < |d.runs| && d.runs[w.request.value].subject == w.subject
          && RetryIsLinked(d, w.request.value))
    && (w.state.Held? ==>
          && Over(d, w.state.run) && d.runs[w.state.run].subject == w.subject
          && (!FallsBack(w.subject) ==> w.request == Some(w.state.run)))
  }

  ghost predicate RetryIsLinked(d: Desk, n: nat)
    requires n < |d.runs|
  {
    var o := d.runs[n].retryOf;
    o.Some? ==>
      o.value < |d.runs| && d.runs[o.value].retriedBy == Some(n) && d.runs[o.value].subject == d.runs[n].subject
  }

  ghost predicate Unnamed(d: Desk, r: nat) {
    forall w <- d.rows :: w.request != Some(r)
  }

  /** A dispatch under way belongs to a row that names no request yet; its run is named by no row. */
  ghost predicate SendingFits(d: Desk, x: Sending) {
    && x.row < |d.rows| && d.rows[x.row].request.None?
    && (x.Sent? ==>
          && x.run < |d.runs| && d.runs[x.run].subject == d.rows[x.row].subject && d.runs[x.run].retryOf.None?
          && Unnamed(d, x.run))
  }

  ghost predicate StoringFits(d: Desk, x: Delivery) {
    x.Storing? && x.run < |d.runs| ==>
      && x.row < |d.rows| && d.rows[x.row].subject == d.runs[x.run].subject && Awaits(d.runs[x.run].subject)
      && (!FallsBack(d.runs[x.run].subject) ==> d.rows[x.row].request == Some(x.run))
  }

  ghost predicate NamedOnce(d: Desk) {
    forall i, j :: 0 <= i < j < |d.rows| && d.rows[i].request.Some? ==> d.rows[i].request != d.rows[j].request
  }

  ghost predicate SentOnce(d: Desk) {
    forall i, j :: 0 <= i < j < |d.sendings| ==>
      d.sendings[i].row != d.sendings[j].row
      && (d.sendings[i].Sent? && d.sendings[j].Sent? ==> d.sendings[i].run != d.sendings[j].run)
  }

  ghost predicate RowsFit(d: Desk) {
    && Valid(d) && NamedOnce(d) && SentOnce(d)
    && (forall w <- d.rows :: RowFits(d, w))
    && (forall x <- d.sendings :: SendingFits(d, x))
    && (forall x <- d.deliveries :: StoringFits(d, x))
  }

  /** The runs of before are still there, with their subjects and retries; deliveries and dispatches are those of
      before, but for deliveries of requests that were pending and runs that are new. */
  ghost predicate Onward(d: Desk, after: Desk) {
    && |d.runs| <= |after.runs|
    && (forall n: nat :: n < |d.runs| ==> SameRun(d.runs[n], after.runs[n]))
    && (forall x <- after.deliveries :: StillOrNew(d, x) && (x.Storing? ==> x in d.deliveries))
  }

  predicate SameRun(a: Run, b: Run) {
    && a.subject == b.subject && a.retryOf == b.retryOf && (b.status.Pending? ==> a.status.Pending?)
    && a.retriedBy == b.retriedBy
  }

  ghost predicate StillOrNew(d: Desk, x: Delivery) {
    (exists y <- d.deliveries :: y.run == x.run) || (x.run < |d.runs| ==> d.runs[x.run].status.Pending?)
  }

  lemma RowStays(d: Desk, after: Desk, w: Row)
    requires Onward(d, after) && RowFits(d, w)
    ensures RowFits(after, w)
  {
    if w.state.Held? {
      assert SameRun(d.runs[w.state.run], after.runs[w.state.run]);
    }
    if w.request.Some? {
      assert SameRun(d.runs[w.request.value], after.runs[w.request.value]);
      var o := d.runs[w.request.value].retryOf;
      assert o.Some? ==> SameRun(d.runs[o.value], after.runs[o.value]);
    }
  }

  /** Steps that leave the rows and the dispatches alone. */
  lemma QuietKeeps(d: Desk, after: Desk)
    requires RowsFit(d) && Valid(after) && Onward(d, after) && after.rows == d.rows
    requires after.sendings == d.sendings
    ensures RowsFit(after)
  {
    hide Valid, RowFits;
    forall w | w in after.rows
      ensures RowFits(after, w)
    {
      RowStays(d, after, w);
    }
    forall x | x in after.sendings
      ensures SendingFits(after, x)
    {
      assert SendingFits(d, x);
      assert x.Sent? ==> SameRun(d.runs[x.run], after.runs[x.run]);
    }
    forall x | x in after.deliveries
      ensures StoringFits(after, x)
    {
      if x.Storing? {
        assert StoringFits(d, x) && (x.run < |d.runs| ==> SameRun(d.runs[x.run], after.runs[x.run]));
        assert DeliveryRuns(d) by {
          RunsOf(d);
        }
      }
    }
  }

  ghost predicate DeliveryRuns(d: Desk) {
    forall x <- d.deliveries :: x.run < |d.runs|
  }

  lemma RunsOf(d: Desk)
    requires Valid(d)
    ensures DeliveryRuns(d)
  {
    forall x | x in d.deliveries
      ensures x.run < |d.runs|
    {
      assert DeliveryFits(d, x);
    }
  }

  lemma {:induction false} OwnRowMeaning(rows: seq<Row>, s: Subject, run: nat)
    ensures var i := OwnRow(rows, s, run);
      if i.Some? then i.value < |rows| && SameTable(s, rows[i.value].subject) && rows[i.value].request == Some(run)
      else forall w <- rows :: SameTable(s, w.subject) ==> w.request != Some(run)
  {
    if rows != [] {
      var n := |rows| - 1;
      OwnRowMeaning(rows[..n], s, run);
      assert rows == rows[..n] + [rows[n]];
    }
  }

  /** The newest waiting row of the subject, if there is one. */
  lemma {:induction false} WaitingRowMeaning(rows: seq<Row>, s: Subject)
    ensures var i := WaitingRow(rows, s);
      if i.Some? then
        && i.value < |rows| && rows[i.value].subject == s && rows[i.value].state.Waiting?
        && forall j :: i.value < j < |rows| ==> !(rows[j].subject == s && rows[j].state.Waiting?)
      else forall w <- rows :: !(w.subject == s && w.state.Waiting?)
  {
    if rows != [] {
      var n := |rows| - 1;
      WaitingRowMeaning(rows[..n], s);
      assert rows == rows[..n] + [rows[n]];
    }
  }

  lemma OwnTable(s: Subject)
    ensures SameTable(s, s) <==> !s.Bare?
  {
  }

  /** The row an outcome goes to is of the request's subject, and names the request unless it was found by the
      fallback. */
  lemma TargetMeaning(d: Desk, r: nat)
    requires RowsFit(d) && r < |d.runs|
    ensures var s := d.runs[r].subject;
      var i := Target(d.rows, s, r);
      && (i.Some? ==> i.value < |d.rows| && d.rows[i.value].subject == s)
      && (i.Some? && !FallsBack(s) ==> d.rows[i.value].request == Some(r))
      && (i.Some? && d.rows[i.value].request != Some(r) <==>
          Unnamed(d, r) && FallsBack(s) && WaitingRow(d.rows, s).Some?)
      && (Unnamed(d, r) && FallsBack(s) ==> i == WaitingRow(d.rows, s))
      && (!Unnamed(d, r) ==> i.Some? && d.rows[i.value].request == Some(r))
  {
    hide Valid, OwnRow, WaitingRow, SameTable;
    var s := d.runs[r].subject;
    OwnRowMeaning(d.rows, s, r);
    WaitingRowMeaning(d.rows, s);
    OwnTable(s);
    var own := OwnRow(d.rows, s, r);
    forall w | w in d.rows && w.request == Some(r)
      ensures w.subject == s && SameTable(s, w.subject)
    {
      assert RowFits(d, w);
    }
  }

  /** Row `i` is the newest waiting one of the subject. */
  predicate IsNewestWaiting(rows: seq<Row>, s: Subject, i: nat) {
    && i < |rows| && rows[i].subject == s && rows[i].state == Waiting
    && forall j :: i < j < |rows| ==> rows[j].subject != s || rows[j].state != Waiting
  }

  /** The row found, kind by kind: the one that names the request; when none does, for an incident, and for a resolution
      of a recommendation, the newest waiting one of the same alert or recommendation; otherwise none. */
  lemma FindsByName(d: Desk, r: nat, i: nat)
    requires RowsFit(d) && r < |d.runs|
    ensures var s := d.runs[r].subject;
      Target(d.rows, s, r) == Some(i) <==>
        if exists w <- d.rows :: w.request == Some(r) then i < |d.rows| && d.rows[i].request == Some(r)
        else (s.Incident? || (s.Resolution? && s.recommendation != 0)) && IsNewestWaiting(d.rows, s, i)
  {
    hide Valid, OwnRow, WaitingRow, RowFits, SendingFits, StoringFits, Target;
    var s := d.runs[r].subject;
    TargetMeaning(d, r);
    WaitingRowMeaning(d.rows, s);
    assert Unnamed(d, r) <==> !exists w <- d.rows :: w.request == Some(r);
  }

  // ---- the steps that change rows or dispatches ---------------------------------------------------------------------

  lemma OpenKeeps(d: Desk, subject: Subject)
    requires RowsFit(d)
    ensures RowsFit(Apply(d, OpenRow(subject)))
  {
    hide Valid;
    var after := Apply(d, OpenRow(subject));
    StepKeeps(d, OpenRow(subject));
    if !subject.Bare? {
      forall x | x in d.sendings
        ensures SendingFits(after, x) && x.row < |d.rows|
      {
        assert SendingFits(d, x);
      }
      forall x | x in d.deliveries
        ensures StoringFits(after, x)
      {
        assert StoringFits(d, x);
      }
      forall w | w in d.rows
        ensures RowFits(after, w)
      {
        assert RowFits(d, w);
      }
    }
  }

  lemma RowPostedKeeps(d: Desk, at: nat, task: Task, hasPrompt: bool)
    requires RowsFit(d)
    ensures RowsFit(AfterRowPosted(d, at, task, hasPrompt))
  {
    hide Valid, RowFits;
    var after := AfterRowPosted(d, at, task, hasPrompt);
    StepKeeps(d, RowPosted(at, task, hasPrompt));
    RunsOf(d);
    forall w | w in after.rows
      ensures RowFits(after, w)
    {
      RowStays(d, after, w);
    }
    NewIsUnnamed(d);
    forall k: nat | k < |after.sendings|
      ensures SendingFits(after, after.sendings[k])
    {
      assert SendingFits(d, d.sendings[k]);
    }
    forall x | x in after.deliveries
      ensures StoringFits(after, x)
    {
      assert StoringFits(d, x);
    }
    SendingRuns(d);
  }

  lemma NewIsUnnamed(d: Desk)
    requires RowsFit(d)
    ensures Unnamed(d, |d.runs|)
  {
    hide Valid;
    forall w | w in d.rows
      ensures w.request != Some(|d.runs|)
    {
      assert RowFits(d, w);
    }
  }

  lemma SendingRuns(d: Desk)
    requires RowsFit(d)
    ensures forall k: nat :: k < |d.sendings| && d.sendings[k].Sent? ==> d.sendings[k].run < |d.runs|
  {
    hide Valid;
    forall k: nat | k < |d.sendings| && d.sendings[k].Sent?
      ensures d.sendings[k].run < |d.runs|
    {
      assert SendingFits(d, d.sendings[k]);
    }
  }

  /** Fewer dispatches, and rows that still name what they named. */
  lemma WithoutSending(d: Desk, at: nat, rows: seq<Row>)
    requires RowsFit(d) && SendingAt(d, at) && |rows| == |d.rows|
    requires forall i: nat :: i < |rows| ==>
        rows[i].subject == d.rows[i].subject && rows[i].request == d.rows[i].request
    requires forall i: nat :: i < |rows| ==> rows[i].state == d.rows[i].state || rows[i].state.NotSent?
    ensures RowsFit(d.(rows := rows, sendings := Without(d.sendings, at)))
  {
    hide Valid;
    var after := d.(rows := rows, sendings := Without(d.sendings, at));
    assert Valid(after) by {
      NewRunKeeps(d, [], rows, after.sendings);
      assert d.runs + [] == d.runs;
    }
    forall i: nat | i < |rows|
      ensures RowFits(after, rows[i])
    {
      assert RowFits(d, d.rows[i]);
    }
    forall x | x in after.sendings
      ensures SendingFits(after, x)
    {
      assert x in d.sendings && SendingFits(d, x);
    }
    forall x | x in after.deliveries
      ensures StoringFits(after, x)
    {
      assert StoringFits(d, x);
    }
  }

  lemma AttachKeeps(d: Desk, at: nat)
    requires RowsFit(d)
    ensures RowsFit(AfterAttach(d, at))
  {
    hide Valid;
    var after := AfterAttach(d, at);
    StepKeeps(d, Attach(at));
    if SendingAt(d, at) && d.sendings[at].Sent? {
      var row, n := d.sendings[at].row, d.sendings[at].run;
      assert SendingFits(d, d.sendings[at]);
      forall i: nat | i < |after.rows|
        ensures RowFits(after, after.rows[i])
      {
        assert RowFits(d, d.rows[i]);
      }
      forall k: nat | k < |after.sendings|
        ensures SendingFits(after, after.sendings[k])
      {
        var was := if k < at then k else k + 1;
        assert after.sendings[k] == d.sendings[was] && SendingFits(d, d.sendings[was]);
      }
      forall x | x in after.deliveries
        ensures StoringFits(after, x)
      {
        assert StoringFits(d, x);
      }
    }
  }

  lemma LinkRowsKeep(d: Desk, at: nat)
    requires RowsFit(d)
    ensures RowsFit(AfterLink(d, at))
  {
    hide Valid;
    var after := AfterLink(d, at);
    StepKeeps(d, LinkRetry(at));
    if At(d, at) && d.deliveries[at].Posted? {
      var r, n := d.deliveries[at].run, d.deliveries[at].retry;
      LinkedRetry(d, at);
      forall i: nat | i < |after.rows|
        ensures RowFits(after, after.rows[i])
      {
        assert RowFits(d, d.rows[i]);
      }
      forall x | x in after.sendings
        ensures SendingFits(after, x)
      {
        assert SendingFits(d, x);
      }
      forall k: nat | k < |after.deliveries|
        ensures StoringFits(after, after.deliveries[k])
      {
        assert StoringFits(d, d.deliveries[k]);
      }
    }
  }

  /** A retry about to be linked is of the subject it was sent again as, and named by no row and no dispatch; no row
      holds the original's outcome, and no other delivery of it is under way. */
  lemma LinkedRetry(d: Desk, at: nat)
    requires RowsFit(d) && At(d, at) && d.deliveries[at].Posted?
    ensures var r, n := d.deliveries[at].run, d.deliveries[at].retry;
      && n < |d.runs| && n != r && d.runs[n].retryOf == Some(r) && Unnamed(d, n)
      && d.runs[n].subject == RetrySubject(d.runs[r].subject)
      && d.runs[n].retriedBy.None? && d.runs[r].retriedBy.None?
      && (forall x <- d.sendings :: x.Sent? ==> x.run != n)
      && (forall w <- d.rows :: w.state.Held? ==> w.state.run != r)
      && (forall k: nat :: k < |d.deliveries| && k != at ==> d.deliveries[k].run != r)
      && (forall w <- d.rows :: w.request.Some? && d.runs[w.request.value].retryOf == Some(r) ==> false)
  {
    var r, n := d.deliveries[at].run, d.deliveries[at].retry;
    assert DeliveryFits(d, d.deliveries[at]);
    assert RunFits(d, n);
    RetryIsNotRetried(d, n);
    forall w | w in d.rows
      ensures w.request.Some? ==> w.request.value < |d.runs| && d.runs[w.request.value].retryOf != Some(r)
      ensures w.state.Held? ==> w.state.run != r
    {
      assert RowFits(d, w);
    }
    forall x | x in d.sendings
      ensures x.Sent? ==> x.run != n
    {
      assert SendingFits(d, x);
    }
  }

  lemma RetryIsNotRetried(d: Desk, n: nat)
    requires Valid(d) && n < |d.runs| && d.runs[n].retryOf.Some?
    ensures d.runs[n].retriedBy.None? && d.runs[n].retryOf.value < n
  {
    assert RunFits(d, n);
    var m := d.runs[n].retriedBy;
    assert m.Some? ==> RunFits(d, m.value);
  }

  /** Writing the outcome of a request whose deliveries are over into a row of its subject. */
  lemma WriteKeeps(d: Desk, after: Desk, i: nat, r: nat)
    requires RowsFit(d) && Valid(after) && Onward(d, after) && after.sendings == d.sendings
    requires i < |d.rows| && after.rows == Settled(d.rows, i, r)
    requires Over(after, r) && after.runs[r].subject == d.rows[i].subject
    requires !FallsBack(d.rows[i].subject) ==> d.rows[i].request == Some(r)
    ensures RowsFit(after)
  {
    hide Valid;
    forall k: nat | k < |after.rows|
      ensures RowFits(after, after.rows[k])
    {
      assert RowFits(d, d.rows[k]);
      RowStays(d, after, d.rows[k]);
    }
    forall x | x in after.sendings
      ensures SendingFits(after, x)
    {
      assert SendingFits(d, x);
      assert x.Sent? ==> SameRun(d.runs[x.run], after.runs[x.run]);
    }
    RunsOf(d);
    forall x | x in after.deliveries
      ensures StoringFits(after, x)
    {
      if x.Storing? {
        assert StoringFits(d, x) && x.run < |d.runs| && SameRun(d.runs[x.run], after.runs[x.run]);
      }
    }
  }

  lemma SendingsStay(d: Desk, at: nat)
    requires at < |d.deliveries|
    ensures forall x <- Without(d.deliveries, at) :: x in d.deliveries
  {
  }

  /** With one of its deliveries gone, a request is over: there is no second one. */
  lemma GoneIsOver(d: Desk, at: nat, rows: seq<Row>)
    requires Valid(d) && At(d, at)
    ensures Over(d.(deliveries := Without(d.deliveries, at), rows := rows), d.deliveries[at].run)
  {
    var after := d.(deliveries := Without(d.deliveries, at), rows := rows);
    assert DeliveryFits(d, d.deliveries[at]);
    forall k: nat | k < |after.deliveries|
      ensures after.deliveries[k].run != d.deliveries[at].run
    {
      assert after.deliveries[k] == d.deliveries[if k < at then k else k + 1];
    }
  }

  lemma DeliverRowsKeep(d: Desk, request: nat, completed: bool)
    requires RowsFit(d)
    ensures RowsFit(AfterDelivery(d, request, completed))
  {
    hide Valid, Target;
    var after := AfterDelivery(d, request, completed);
    StepKeeps(d, Deliver(request, completed));
    if Accepts(d, request) {
      RunsOf(d);
      NoDelivery(d, request);
      TargetMeaning(d, request);
      var s := d.runs[request].subject;
      var row := Target(d.rows, s, request);
      assert Onward(d, after) by {
        forall x | x in after.deliveries
          ensures StillOrNew(d, x)
        {
        }
      }
      if after.rows == d.rows {
        QuietKeeps(d, after);
      } else {
        WriteKeeps(d, after, row.value, request);
      }
    }
  }

  lemma NoDelivery(d: Desk, r: nat)
    requires Valid(d) && Accepts(d, r)
    ensures forall x <- d.deliveries :: x.run != r
  {
    forall x | x in d.deliveries
      ensures x.run != r
    {
      assert DeliveryFits(d, x);
    }
  }

  lemma FinishRowsKeep(d: Desk, at: nat, awaits: bool)
    requires RowsFit(d)
    ensures RowsFit(AfterFinish(d, at, awaits))
  {
    hide Valid, Target;
    var after := AfterFinish(d, at, awaits);
    StepKeeps(d, Finish(at, awaits));
    if At(d, at) && d.deliveries[at].Finishing? {
      var r := d.deliveries[at].run;
      var row := Target(d.rows, d.runs[r].subject, r);
      TargetMeaning(d, r);
      if |after.deliveries| == |d.deliveries| {
        FoundKeeps(d, at, row.value);
      } else {
        GoneIsOver(d, at, after.rows);
        SendingsStay(d, at);
        assert Onward(d, after);
        if after.rows == d.rows {
          QuietKeeps(d, after);
        } else {
          WriteKeeps(d, after, row.value, r);
        }
      }
    }
  }

  /** The row is found, and more is awaited before it is written. */
  lemma FoundKeeps(d: Desk, at: nat, row: nat)
    requires RowsFit(d) && At(d, at) && d.deliveries[at].Finishing?
    requires var after := d.(deliveries := d.deliveries[at := Storing(d.deliveries[at].run, row)]);
      Valid(after) && StoringFits(after, Storing(d.deliveries[at].run, row))
    ensures RowsFit(d.(deliveries := d.deliveries[at := Storing(d.deliveries[at].run, row)]))
  {
    hide Valid;
    var after := d.(deliveries := d.deliveries[at := Storing(d.deliveries[at].run, row)]);
    forall w | w in after.rows
      ensures RowFits(after, w)
    {
      assert RowFits(d, w);
      forall k: nat | k < |after.deliveries|
        ensures after.deliveries[k].run == d.deliveries[k].run
      {
      }
    }
    forall x | x in after.sendings
      ensures SendingFits(after, x)
    {
      assert SendingFits(d, x);
    }
    forall k: nat | k < |after.deliveries|
      ensures StoringFits(after, after.deliveries[k])
    {
      assert StoringFits(d, d.deliveries[k]);
    }
  }

  lemma StoreRowsKeep(d: Desk, at: nat)
    requires RowsFit(d)
    ensures RowsFit(AfterStore(d, at))
  {
    hide Valid;
    var after := AfterStore(d, at);
    StepKeeps(d, Store(at));
    if At(d, at) && d.deliveries[at].Storing? {
      assert StoringFits(d, d.deliveries[at]);
      GoneIsOver(d, at, after.rows);
      SendingsStay(d, at);
      WriteKeeps(d, after, d.deliveries[at].row, d.deliveries[at].run);
    }
  }

  lemma OtherRowsKeep(d: Desk, s: Step)
    requires RowsFit(d)
    requires s.Dispatch? || s.Grade? || s.PostAnswered? || s.PostFailed? || s.Lose?
    ensures RowsFit(Apply(d, s))
  {
    hide Valid;
    var after := Apply(d, s);
    StepKeeps(d, s);
    RunsOf(d);
    if s.Lose? && At(d, s.at) {
      SendingsStay(d, s.at);
    }
    assert Onward(d, after) by {
      forall x | x in after.deliveries
        ensures StillOrNew(d, x) && (x.Storing? ==> x in d.deliveries)
      {
      }
    }
    QuietKeeps(d, after);
  }

  lemma RowsStepKeeps(d: Desk, s: Step)
    requires RowsFit(d)
    ensures RowsFit(Apply(d, s))
  {
    hide RowsFit;
    match s
    case OpenRow(subject) => OpenKeeps(d, subject);
    case RowPosted(at, task, hasPrompt) => RowPostedKeeps(d, at, task, hasPrompt);
    case RowNotPosted(at) =>
      if SendingAt(d, at) && d.sendings[at].Sending? {
        WithoutSending(d, at, Apply(d, s).rows);
      }
    case Attach(at) => AttachKeeps(d, at);
    case LoseSending(at) =>
      if SendingAt(d, at) {
        WithoutSending(d, at, d.rows);
      }
    case Deliver(request, completed) => DeliverRowsKeep(d, request, completed);
    case LinkRetry(at) => LinkRowsKeep(d, at);
    case Finish(at, awaits) => FinishRowsKeep(d, at, awaits);
    case Store(at) => StoreRowsKeep(d, at);
    case _ => OtherRowsKeep(d, s);
  }

  /** Under any interleaving, a row names only requests of its own subject, and holds only the outcome of such a
      request; an observation, a report or a playbook job holds only the outcome of the very request it names. */
  lemma {:induction false} RowsHoldTheirOwn(steps: seq<Step>)
    ensures RowsFit(Reached(steps))
  {
    if steps == [] {
      ReachedValid(steps);
    } else {
      RowsHoldTheirOwn(steps[..|steps| - 1]);
      RowsStepKeeps(Reached(steps[..|steps| - 1]), steps[|steps| - 1]);
    }
  }
}
