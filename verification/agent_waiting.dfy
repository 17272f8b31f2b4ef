/** Which waiting rows can still be written, and which wait for good: `src/agent.ts` with the completions. */
module AgentWaiting {
  import opened Options
  import opened AgentRequests
  import opened AgentRows
  import opened AgentAstray

  /** The desk after more steps. */
  function After(d: Desk, more: seq<Step>): Desk
    decreases |more|
  {
    if more == [] then d else After(Apply(d, more[0]), more[1..])
  }

  lemma {:induction false} ReachedAfter(steps: seq<Step>, more: seq<Step>)
    ensures Reached(steps + more) == After(Reached(steps), more)
    decreases |more|
  {
    hide Apply, Reached;
    if more == [] {
      assert steps + more == steps;
    } else {
      Then(steps, more[0]);
      ReachedAfter(steps + [more[0]], more[1..]);
      assert steps + more == steps + [more[0]] + more[1..];
    }
  }

  ghost predicate Writable(d: Desk, i: nat) {
    exists more :: i < |After(d, more).rows| && After(d, more).rows[i].state.Held?
  }

  // ---- what is left to happen ---------------------------------------------------------------------------------------

  /** The outcome of the request can still be written into row `i` once the row names it: it is pending, or its
      delivery is before the lookup, or has found the row. */
  ghost predicate Live(d: Desk, r: nat, i: nat) {
    && r < |d.runs|
    && (d.runs[r].status.Pending?
        || exists x <- d.deliveries :: x.run == r && !x.Posted? && (x.Storing? ==> x.row == i))
  }

  /** Or its retry was accepted, and the retry's can: the row is about to be moved to it. A usage investigation is not
      moved, and gets the answer that was sent back. */
  ghost predicate Posts(d: Desk, r: nat, i: nat) {
    && r < |d.runs|
    && exists x <- d.deliveries :: x.run == r && x.Posted? && (FollowsRetry(d.runs[r].subject) ==> Live(d, x.retry, i))
  }

  ghost predicate SentLive(d: Desk, x: Sending, i: nat) {
    x.Sending? || Live(d, x.run, i) || exists y <- d.deliveries :: y.run == x.run && y.Posted?
  }

  /** Something under way can still be written into the row: an outcome that has found it, the outcome of the request
      it names, or of the one about to be posted or named. */
  ghost predicate Hope(d: Desk, i: nat)
    requires i < |d.rows|
  {
    || (exists x <- d.deliveries :: x.Storing? && x.row == i)
    || (d.rows[i].request.Some? && (Live(d, d.rows[i].request.value, i) || Posts(d, d.rows[i].request.value, i)))
    || (exists x <- d.sendings :: x.row == i && SentLive(d, x, i))
  }

  // ---- with hope, the row can be written ----------------------------------------------------------------------------

  lemma Before(d: Desk, s: Step, i: nat)
    requires Writable(Apply(d, s), i)
    ensures Writable(d, i)
  {
    hide Apply;
    var more :| i < |After(Apply(d, s), more).rows| && After(Apply(d, s), more).rows[i].state.Held?;
    assert ([s] + more)[1..] == more;
    assert After(d, [s] + more) == After(Apply(d, s), more);
  }

  lemma Already(d: Desk, i: nat)
    requires i < |d.rows| && d.rows[i].state.Held?
    ensures Writable(d, i)
  {
    assert After(d, []) == d;
  }

  /** The row that names a request is the one its completion finds. */
  lemma NamedIsFound(d: Desk, r: nat, i: nat)
    requires RowsFit(d) && r < |d.runs| && i < |d.rows| && d.rows[i].request == Some(r)
    ensures Target(d.rows, d.runs[r].subject, r) == Some(i) && d.rows[i].subject == d.runs[r].subject
  {
    hide Valid, RowFits, Target;
    TargetMeaning(d, r);
    assert d.rows[i] in d.rows;
  }

  lemma FinishWrites(d: Desk, at: nat, i: nat)
    requires RowsFit(d) && At(d, at) && d.deliveries[at].Finishing?
    requires i < |d.rows| && d.rows[i].request == Some(d.deliveries[at].run)
    ensures Writable(d, i)
  {
    hide RowsFit, Target;
    NamedIsFound(d, d.deliveries[at].run, i);
    Already(Apply(d, Finish(at, false)), i);
    Before(d, Finish(at, false), i);
  }

  lemma StoreWrites(d: Desk, at: nat, i: nat)
    requires At(d, at) && d.deliveries[at].Storing? && d.deliveries[at].row == i && i < |d.rows|
    ensures Writable(d, i)
  {
    Already(Apply(d, Store(at)), i);
    Before(d, Store(at), i);
  }

  lemma PendingWrites(d: Desk, r: nat, i: nat)
    requires RowsFit(d) && Accepts(d, r) && i < |d.rows| && d.rows[i].request == Some(r)
    ensures Writable(d, i)
  {
    hide Target;
    NamedIsFound(d, r, i);
    var s := Deliver(r, false);
    RowsStepKeeps(d, s);
    hide RowsFit;
    if d.runs[r].subject.Job? {
      FinishWrites(Apply(d, s), |d.deliveries|, i);
    } else {
      Already(Apply(d, s), i);
    }
    Before(d, s, i);
  }

  /** The request a row names is live: the row can be written. */
  lemma LiveWrites(d: Desk, r: nat, i: nat)
    requires RowsFit(d) && i < |d.rows| && d.rows[i].request == Some(r) && Live(d, r, i)
    ensures Writable(d, i)
  {
    if d.runs[r].status.Pending? {
      PendingWrites(d, r, i);
    } else {
      var x :| x in d.deliveries && x.run == r && !x.Posted? && (x.Storing? ==> x.row == i);
      var at: nat :| at < |d.deliveries| && d.deliveries[at] == x;
      DeliveryWrites(d, at, i);
    }
  }

  lemma DeliveryWrites(d: Desk, at: nat, i: nat)
    requires RowsFit(d) && i < |d.rows| && At(d, at) && d.rows[i].request == Some(d.deliveries[at].run)
    requires !d.deliveries[at].Posted? && (d.deliveries[at].Storing? ==> d.deliveries[at].row == i)
    ensures Writable(d, i)
  {
    var x := d.deliveries[at];
    if x.Grading? {
      var s := Grade(at, d.runs[x.run].task.threshold);
      RowsStepKeeps(d, s);
      hide RowsFit;
      FinishWrites(Apply(d, s), at, i);
      Before(d, s, i);
    } else if x.Posting? {
      RowsStepKeeps(d, PostFailed(at));
      hide RowsFit;
      FinishWrites(Apply(d, PostFailed(at)), at, i);
      Before(d, PostFailed(at), i);
    } else if x.Finishing? {
      FinishWrites(d, at, i);
    } else {
      StoreWrites(d, at, i);
    }
  }

  /** The request it names was sent back: linking moves the row to the live retry, or leaves a usage investigation to
      its own answer. */
  lemma PostsWrites(d: Desk, r: nat, i: nat)
    requires RowsFit(d) && i < |d.rows| && d.rows[i].request == Some(r) && Posts(d, r, i)
    ensures Writable(d, i)
  {
    var x :| x in d.deliveries && x.run == r && x.Posted? && (FollowsRetry(d.runs[r].subject) ==> Live(d, x.retry, i));
    var at: nat :| at < |d.deliveries| && d.deliveries[at] == x;
    var s := LinkRetry(at);
    NamedIsFound(d, r, i);
    RowsStepKeeps(d, s);
    LinkedRetry(d, at);
    hide RowsFit, Target;
    if FollowsRetry(d.runs[r].subject) {
      LinkStaysLive(d, at, x.retry, i);
      LiveWrites(Apply(d, s), x.retry, i);
    } else {
      FinishWrites(Apply(d, s), at, i);
    }
    Before(d, s, i);
  }

  lemma LinkStaysLive(d: Desk, at: nat, n: nat, i: nat)
    requires At(d, at) && d.deliveries[at].Posted? && Live(d, n, i)
    ensures Live(Apply(d, LinkRetry(at)), n, i)
  {
    var after := Apply(d, LinkRetry(at));
    if !d.runs[n].status.Pending? {
      var x :| x in d.deliveries && x.run == n && !x.Posted? && (x.Storing? ==> x.row == i);
      var k: nat :| k < |d.deliveries| && d.deliveries[k] == x;
      assert k != at && after.deliveries[k] == x;
    }
  }

  lemma AttachStaysLive(d: Desk, at: nat, n: nat, i: nat)
    requires Live(d, n, i)
    ensures Live(Apply(d, Attach(at)), n, i)
  {
  }

  /** A dispatch under way names its request in time, or the other way round: links it first. */
  lemma SendingWrites(d: Desk, at: nat, i: nat)
    requires RowsFit(d) && at < |d.sendings| && d.sendings[at].row == i && SentLive(d, d.sendings[at], i)
    ensures Writable(d, i)
    decreases d.sendings[at].Sending?, 0
  {
    var x := d.sendings[at];
    assert SendingFits(d, x);
    if x.Sending? {
      var s := RowPosted(at, Task(0.0, 0), false);
      RowsStepKeeps(d, s);
      hide RowsFit;
      SendingWrites(Apply(d, s), at, i);
      Before(d, s, i);
    } else if Live(d, x.run, i) {
      RowsStepKeeps(d, Attach(at));
      AttachStaysLive(d, at, x.run, i);
      hide RowsFit, Live;
      LiveWrites(Apply(d, Attach(at)), x.run, i);
      Before(d, Attach(at), i);
    } else {
      var y :| y in d.deliveries && y.run == x.run && y.Posted?;
      var k: nat :| k < |d.deliveries| && d.deliveries[k] == y;
      LinkThenAttach(d, at, k, i);
    }
  }

  lemma LinkThenAttach(d: Desk, at: nat, k: nat, i: nat)
    requires RowsFit(d) && at < |d.sendings| && d.sendings[at].row == i && d.sendings[at].Sent?
    requires At(d, k) && d.deliveries[k].Posted? && d.deliveries[k].run == d.sendings[at].run
    ensures Writable(d, i)
  {
    var linked := Apply(d, LinkRetry(k));
    assert SendingFits(d, d.sendings[at]);
    RowsStepKeeps(d, LinkRetry(k));
    RowsStepKeeps(linked, Attach(at));
    hide RowsFit;
    var named := Apply(linked, Attach(at));
    FinishWrites(named, k, i);
    Before(linked, Attach(at), i);
    Before(d, LinkRetry(k), i);
  }

  /** A row with hope can be written, whatever it is about. */
  lemma HopeWrites(d: Desk, i: nat)
    requires RowsFit(d) && i < |d.rows| && Hope(d, i)
    ensures Writable(d, i)
  {
    hide Live, Posts, SentLive;
    if x :| x in d.deliveries && x.Storing? && x.row == i {
      var at: nat :| at < |d.deliveries| && d.deliveries[at] == x;
      RunsOf(d);
      StoreWrites(d, at, i);
    } else if x :| x in d.sendings && x.row == i && SentLive(d, x, i) {
      var at: nat :| at < |d.sendings| && d.sendings[at] == x;
      SendingWrites(d, at, i);
    } else if Live(d, d.rows[i].request.value, i) {
      LiveWrites(d, d.rows[i].request.value, i);
    } else {
      PostsWrites(d, d.rows[i].request.value, i);
    }
  }

  // ---- without hope, it waits for good ------------------------------------------------------------------------------

  /** Without a fallback, what a step writes into the row is the outcome of the request it names, or one that had
      found it. */
  lemma WritesNamed(d: Desk, s: Step, i: nat)
    requires RowsFit(d) && i < |d.rows| && !FallsBack(d.rows[i].subject)
    ensures Written(d, s).Some? && Written(d, s).value.row == i && !s.Store? ==>
      d.rows[i].request == Some(Written(d, s).value.run) && Written(d, s).value.run < |d.runs|
      && Ends(d, s) == Some(Written(d, s).value.run)
  {
    hide Valid, RowFits, Target, Ends;
    var r := Ends(d, s);
    if r.Some? && r.value < |d.runs| {
      TargetMeaning(d, r.value);
    }
  }

  /** So what is written into it, or closes it, is a hope it had. */
  lemma OnlyHopeWrites(d: Desk, s: Step, i: nat)
    requires RowsFit(d) && i < |d.rows| && !FallsBack(d.rows[i].subject)
    ensures Written(d, s).Some? && Written(d, s).value.row == i ==> Hope(d, i)
    ensures s.RowNotPosted? && SendingAt(d, s.at) && d.sendings[s.at] == Sending(i) ==> Hope(d, i)
  {
    WritesNamed(d, s, i);
    EndsLive(d, s, i);
    hide RowsFit, Target, Live, Posts;
    if s.Store? && At(d, s.at) {
      assert d.deliveries[s.at] in d.deliveries;
    }
    if s.RowNotPosted? && SendingAt(d, s.at) {
      assert d.sendings[s.at] in d.sendings;
    }
  }

  lemma StaysWaiting(d: Desk, s: Step, i: nat)
    requires RowsFit(d) && i < |d.rows| && d.rows[i].state.Waiting? && !Hope(d, i) && !FallsBack(d.rows[i].subject)
    ensures i < |Apply(d, s).rows| && Apply(d, s).rows[i].state.Waiting?
    ensures Apply(d, s).rows[i].subject == d.rows[i].subject
  {
    OnlyHopeWrites(d, s, i);
    RowAfter(d, s, i);
    SubjectStays(d, s, i);
    hide RowsFit, Target, Hope, Written;
  }

  lemma SubjectStays(d: Desk, s: Step, i: nat)
    requires i < |d.rows|
    ensures i < |Apply(d, s).rows| && Apply(d, s).rows[i].subject == d.rows[i].subject
  {
    hide Target, SentBack, Awaits, FallsBack, FollowsRetry, RetrySubject;
    if s.Attach? || s.RowNotPosted? || s.LoseSending? || s.RowPosted? {
      hide AfterDelivery, AfterGrade, AfterPost, AfterLink, AfterFinish, AfterStore, Moved, WithOutcome, Settled;
    } else if s.LinkRetry? {
      hide AfterDelivery, AfterGrade, AfterPost, AfterFinish, AfterStore, WithOutcome, Settled, AfterAttach;
    } else {
      hide AfterAttach, AfterRowPosted, AfterRowNotPosted, AfterLink, Moved;
    }
  }

  lemma EndsLive(d: Desk, s: Step, i: nat)
    ensures Ends(d, s).Some? && !s.Store? && Ends(d, s).value < |d.runs| ==> Live(d, Ends(d, s).value, i)
  {
    if s.Finish? && At(d, s.at) {
      assert d.deliveries[s.at] in d.deliveries;
    }
  }

  /** No step makes a request live, but a new one. */
  lemma LiveBefore(d: Desk, s: Step, r: nat, i: nat)
    requires RowsFit(d) && r < |d.runs| && i < |d.rows| && Live(Apply(d, s), r, i)
    requires s.LinkRetry? && At(d, s.at) ==> d.deliveries[s.at].run != r
    ensures Live(d, r, i)
  {
    hide Valid, RowFits, Target, WithOutcome, Moved, Settled;
    var after := Apply(d, s);
    if !after.runs[r].status.Pending? {
      var x :| x in after.deliveries && x.run == r && !x.Posted? && (x.Storing? ==> x.row == i);
      var k: nat :| k < |after.deliveries| && after.deliveries[k] == x;
      DeliveryBefore(d, s, k);
    }
  }

  /** A delivery was there before, for the same request, unless that was pending. */
  lemma DeliveryBefore(d: Desk, s: Step, k: nat)
    requires k < |Apply(d, s).deliveries|
    ensures var x := Apply(d, s).deliveries[k];
      || x in d.deliveries
      || (x.run < |d.runs| && d.runs[x.run].status.Pending?)
      || (exists y <- d.deliveries ::
            && y.run == x.run && !y.Storing?
            && (y.Posted? ==> s.LinkRetry? && At(d, s.at) && d.deliveries[s.at] == y))
  {
    hide Target, WithOutcome, Moved, Settled;
    var after := Apply(d, s);
    if k < |d.deliveries| {
      assert d.deliveries[k] in d.deliveries;
      if k + 1 < |d.deliveries| {
        assert d.deliveries[k + 1] in d.deliveries;
      }
    }
  }

  /** A retry under way was under way before, or its request was about to be sent back. */
  lemma PostedBefore(d: Desk, s: Step, x: Delivery)
    requires x in Apply(d, s).deliveries && x.Posted?
    ensures x in d.deliveries || (s.PostAnswered? && Posting(x.run) in d.deliveries)
  {
    hide Target, WithOutcome, Moved, Settled;
    if s.PostAnswered? && At(d, s.at) {
      assert d.deliveries[s.at] in d.deliveries;
    }
  }

  lemma StoringBefore(d: Desk, s: Step, x: Delivery, i: nat)
    requires RowsFit(d) && i < |d.rows| && !FallsBack(d.rows[i].subject)
    requires x in Apply(d, s).deliveries && x.Storing? && x.row == i
    ensures Hope(d, i)
  {
    hide Valid, RowFits, Target, WithOutcome, Moved, Settled, Posts;
    if x !in d.deliveries {
      assert s.Finish? && At(d, s.at) && d.deliveries[s.at] == Finishing(x.run);
      assert d.deliveries[s.at] in d.deliveries;
      TargetMeaning(d, x.run);
      assert d.rows[i].request == Some(x.run) && Live(d, x.run, i);
    }
  }

  /** A retry is not retried. */
  lemma PostedIsFirst(d: Desk, x: Delivery)
    requires RowsFit(d) && x in d.deliveries && x.Posted?
    ensures x.run < |d.runs| && x.retry < |d.runs| && d.runs[x.run].retryOf.None? && d.runs[x.retry].retryOf.Some?
    ensures forall y <- d.deliveries :: y.Posted? ==> y.run != x.retry
  {
    forall y | y in d.deliveries && y.Posted?
      ensures y.run < |d.runs| && d.runs[y.run].retryOf.None? && y.retry < |d.runs| && d.runs[y.retry].retryOf.Some?
    {
      assert DeliveryFits(d, y);
      assert RunFits(d, y.retry);
    }
  }

  lemma PostsBefore(d: Desk, s: Step, r: nat, i: nat)
    requires RowsFit(d) && r < |d.runs| && i < |d.rows| && Posts(Apply(d, s), r, i)
    ensures Posts(d, r, i) || Live(d, r, i)
  {
    hide RowsFit, Apply, Live;
    var after := Apply(d, s);
    var x :| x in after.deliveries && x.run == r && x.Posted?
             && (FollowsRetry(after.runs[r].subject) ==> Live(after, x.retry, i));
    PostedBefore(d, s, x);
    RunsKeep(d, s, r);
    if x in d.deliveries {
      PostedIsFirst(d, x);
      if FollowsRetry(d.runs[r].subject) {
        if s.LinkRetry? && At(d, s.at) {
          assert d.deliveries[s.at] in d.deliveries;
          LinkingOnly(d, s.at, x.retry, i);
        } else {
          LiveBefore(d, s, x.retry, i);
        }
      }
    } else {
      PostingIsLive(d, r, i);
    }
  }

  lemma PostingIsLive(d: Desk, r: nat, i: nat)
    requires Posting(r) in d.deliveries && r < |d.runs|
    ensures Live(d, r, i)
  {
  }

  lemma RunsKeep(d: Desk, s: Step, r: nat)
    requires r < |d.runs|
    ensures r < |Apply(d, s).runs| && Apply(d, s).runs[r].subject == d.runs[r].subject
  {
    hide Target, WithOutcome, Moved;
  }

  lemma LinkingOnly(d: Desk, at: nat, r: nat, i: nat)
    requires RowsFit(d) && r < |d.runs| && i < |d.rows| && Live(Apply(d, LinkRetry(at)), r, i)
    requires At(d, at) && (d.deliveries[at].Posted? ==> d.deliveries[at].run != r)
    ensures Live(d, r, i)
  {
    hide RowsFit, Moved;
    var after := Apply(d, LinkRetry(at));
    if !after.runs[r].status.Pending? {
      var x :| x in after.deliveries && x.run == r && !x.Posted? && (x.Storing? ==> x.row == i);
      var k: nat :| k < |after.deliveries| && after.deliveries[k] == x;
      assert d.deliveries[k] in d.deliveries;
    }
  }

  /** The request the row names after the step: the one of before, the one just named, or the retry just linked. */
  lemma NamesNow(d: Desk, s: Step, i: nat)
    requires i < |d.rows|
    ensures i < |Apply(d, s).rows|
    ensures var now := Apply(d, s).rows[i].request;
      || now == d.rows[i].request
      || (s.Attach? && SendingAt(d, s.at) && d.sendings[s.at].Sent? && d.sendings[s.at].row == i
          && now == Some(d.sendings[s.at].run))
      || (s.LinkRetry? && At(d, s.at) && d.deliveries[s.at].Posted? && FollowsRetry(d.rows[i].subject)
          && d.rows[i].request == Some(d.deliveries[s.at].run) && now == Some(d.deliveries[s.at].retry))
    ensures s.LinkRetry? && At(d, s.at) && d.deliveries[s.at].Posted? && FollowsRetry(d.rows[i].subject)
            && d.rows[i].request == Some(d.deliveries[s.at].run) ==>
      Apply(d, s).rows[i].request == Some(d.deliveries[s.at].retry)
  {
    hide Target;
  }

  /** The dispatches of before, but for a new row's, and one whose request is just posted. */
  lemma SendingBefore(d: Desk, s: Step, x: Sending)
    requires x in Apply(d, s).sendings && x.row < |d.rows|
    ensures x in d.sendings || Sending(x.row) in d.sendings
  {
    hide Target, WithOutcome;
    if s.RowPosted? && SendingAt(d, s.at) {
      assert d.sendings[s.at] in d.sendings;
    }
  }

  lemma NamedHopeBefore(d: Desk, s: Step, i: nat)
    requires RowsFit(d) && i < |d.rows| && i < |Apply(d, s).rows| && Apply(d, s).rows[i].request.Some?
    requires var r := Apply(d, s).rows[i].request.value; Live(Apply(d, s), r, i) || Posts(Apply(d, s), r, i)
    ensures Hope(d, i)
  {
    var r := Apply(d, s).rows[i].request.value;
    NamesNow(d, s, i);
    RowsRun(d, s, i);
    hide RowsFit, Apply, Live, Posts, SentLive;
    if s.LinkRetry? && At(d, s.at) && d.deliveries[s.at].Posted? {
      var x := d.deliveries[s.at];
      assert x in d.deliveries;
      PostedIsFirst(d, x);
      LinkHopeBefore(d, s.at, i);
    } else {
      LiveOrPostsBefore(d, s, r, i);
      if s.Attach? && SendingAt(d, s.at) && d.rows[i].request != Some(r) {
        assert d.sendings[s.at] in d.sendings;
        PostsMeansPosted(d, r, i);
        assert SentLive(d, d.sendings[s.at], i) by {
          SentLiveMeans(d, d.sendings[s.at], i);
        }
      }
    }
  }

  lemma SentLiveMeans(d: Desk, x: Sending, i: nat)
    ensures x.Sent? ==>
      (SentLive(d, x, i) <==> Live(d, x.run, i) || exists y <- d.deliveries :: y.run == x.run && y.Posted?)
    ensures x.Sending? ==> SentLive(d, x, i)
  {
    hide Live;
  }

  lemma PostsMeansPosted(d: Desk, r: nat, i: nat)
    ensures Posts(d, r, i) ==> exists y <- d.deliveries :: y.run == r && y.Posted?
  {
    hide Live;
  }

  lemma LiveOrPostsBefore(d: Desk, s: Step, r: nat, i: nat)
    requires RowsFit(d) && r < |d.runs| && i < |d.rows| && (Live(Apply(d, s), r, i) || Posts(Apply(d, s), r, i))
    requires !(s.LinkRetry? && At(d, s.at) && d.deliveries[s.at].Posted?)
    ensures Live(d, r, i) || Posts(d, r, i)
  {
    hide RowsFit, Live, Posts;
    if Posts(Apply(d, s), r, i) {
      PostsBefore(d, s, r, i);
    } else if s.LinkRetry? && At(d, s.at) {
      LinkingOnly(d, s.at, r, i);
    } else {
      LiveBefore(d, s, r, i);
    }
  }

  /** The request a row names has a run. */
  lemma RowsRun(d: Desk, s: Step, i: nat)
    requires RowsFit(d) && i < |d.rows| && i < |Apply(d, s).rows| && Apply(d, s).rows[i].request.Some?
    ensures Apply(d, s).rows[i].request.value < |d.runs|
    ensures d.rows[i].request.Some? ==> d.rows[i].request.value < |d.runs|
  {
    NamesNow(d, s, i);
    assert RowFits(d, d.rows[i]);
    if s.Attach? && SendingAt(d, s.at) {
      assert SendingFits(d, d.sendings[s.at]);
    }
    if s.LinkRetry? && At(d, s.at) && d.deliveries[s.at].Posted? {
      PostedIsFirst(d, d.deliveries[s.at]);
    }
  }

  /** Linking makes the retry the row's request when it moves the row, and leaves a usage investigation with its own. */
  lemma LinkHopeBefore(d: Desk, at: nat, i: nat)
    requires RowsFit(d) && At(d, at) && d.deliveries[at].Posted? && i < |d.rows|
    requires var after := Apply(d, LinkRetry(at));
      && i < |after.rows| && after.rows[i].request.Some? && after.rows[i].request.value < |d.runs|
      && (Live(after, after.rows[i].request.value, i) || Posts(after, after.rows[i].request.value, i))
    ensures Hope(d, i)
  {
    var s, x := LinkRetry(at), d.deliveries[at];
    var r := Apply(d, s).rows[i].request.value;
    assert x in d.deliveries;
    PostedIsFirst(d, x);
    NamesNow(d, s, i);
    NamedSubject(d, i);
    hide RowsFit, Apply, Live, SentLive;
    if d.rows[i].request == Some(x.run) {
      if FollowsRetry(d.rows[i].subject) {
        PostsMeansPosted(Apply(d, s), r, i);
        NoPostedRetry(d, at, r);
        LinkingOnly(d, at, r, i);
      }
      assert Posts(d, x.run, i);
    } else {
      hide Posts;
      if Posts(Apply(d, s), r, i) {
        PostsBefore(d, s, r, i);
      } else {
        LinkingOnly(d, at, r, i);
      }
    }
  }

  lemma NamedSubject(d: Desk, i: nat)
    requires RowsFit(d) && i < |d.rows|
    ensures d.rows[i].request.Some? ==>
      d.rows[i].request.value < |d.runs| && d.runs[d.rows[i].request.value].subject == d.rows[i].subject
  {
    hide Valid;
    assert RowFits(d, d.rows[i]);
  }

  lemma NoPostedRetry(d: Desk, at: nat, n: nat)
    requires At(d, at) && d.deliveries[at].Posted? && forall y <- d.deliveries :: y.Posted? ==> y.run != n
    ensures forall y <- Apply(d, LinkRetry(at)).deliveries :: y.Posted? ==> y.run != n
  {
    forall k: nat | k < |Apply(d, LinkRetry(at)).deliveries|
      ensures var y := Apply(d, LinkRetry(at)).deliveries[k]; y.Posted? ==> y.run != n
    {
      assert d.deliveries[k] in d.deliveries;
    }
  }

  lemma SentHopeBefore(d: Desk, s: Step, x: Sending, i: nat)
    requires RowsFit(d) && i < |d.rows| && x in Apply(d, s).sendings && x.row == i && SentLive(Apply(d, s), x, i)
    ensures Hope(d, i)
  {
    SendingBefore(d, s, x);
    if Sending(i) in d.sendings {
      assert SentLive(d, Sending(i), i);
    } else {
      assert SendingFits(d, x);
      hide RowsFit, Apply, Live, Posts;
      if y :| y in Apply(d, s).deliveries && y.run == x.run && y.Posted? {
        PostedBefore(d, s, y);
        if y !in d.deliveries {
          PostingIsLive(d, x.run, i);
        }
      } else if s.LinkRetry? && At(d, s.at) {
        assert d.deliveries[s.at] in d.deliveries;
        if !(d.deliveries[s.at].Posted? && d.deliveries[s.at].run == x.run) {
          LinkingOnly(d, s.at, x.run, i);
        }
      } else {
        LiveBefore(d, s, x.run, i);
      }
      assert SentLive(d, x, i);
    }
  }

  /** No step gives hope to a row without a fallback. */
  lemma NoNewHope(d: Desk, s: Step, i: nat)
    requires RowsFit(d) && i < |d.rows| && !FallsBack(d.rows[i].subject) && i < |Apply(d, s).rows|
    requires Hope(Apply(d, s), i)
    ensures Hope(d, i)
  {
    hide RowsFit, Apply, Live, Posts, SentLive;
    var after := Apply(d, s);
    if x :| x in after.deliveries && x.Storing? && x.row == i {
      StoringBefore(d, s, x, i);
    } else if x :| x in after.sendings && x.row == i && SentLive(after, x, i) {
      SentHopeBefore(d, s, x, i);
    } else {
      NamedHopeBefore(d, s, i);
    }
  }

  lemma {:induction false} StaysWithout(d: Desk, more: seq<Step>, i: nat)
    requires RowsFit(d) && i < |d.rows| && d.rows[i].state.Waiting? && !Hope(d, i) && !FallsBack(d.rows[i].subject)
    ensures i < |After(d, more).rows| && After(d, more).rows[i].state.Waiting?
    decreases |more|
  {
    hide RowsFit, Apply, Hope;
    if more != [] {
      StaysWaiting(d, more[0], i);
      RowsStepKeeps(d, more[0]);
      if Hope(Apply(d, more[0]), i) {
        NoNewHope(d, more[0], i);
      }
      StaysWithout(Apply(d, more[0]), more[1..], i);
    }
  }

  /** After every history, a waiting observation, report, playbook job or usage investigation waits for good, whatever
      happens next, exactly when nothing under way can still be written into it. */
  lemma WaitsForGoodIff(steps: seq<Step>, i: nat)
    requires i < |Reached(steps).rows| && Reached(steps).rows[i].state.Waiting?
    requires !FallsBack(Reached(steps).rows[i].subject)
    ensures (forall more: seq<Step> :: i < |Reached(steps + more).rows| && Reached(steps + more).rows[i].state.Waiting?)
            <==> !Hope(Reached(steps), i)
  {
    hide Reached, Apply, After, Hope, RowsFit;
    var d := Reached(steps);
    RowsHoldTheirOwn(steps);
    if Hope(d, i) {
      HopeWrites(d, i);
      var more :| i < |After(d, more).rows| && After(d, more).rows[i].state.Held?;
      ReachedAfter(steps, more);
      assert !Reached(steps + more).rows[i].state.Waiting?;
    } else {
      forall more: seq<Step>
        ensures i < |Reached(steps + more).rows| && Reached(steps + more).rows[i].state.Waiting?
      {
        ReachedAfter(steps, more);
        StaysWithout(d, more, i);
      }
    }
  }

  // ---- incidents and resolutions ------------------------------------------------------------------------------------

  /** Every request about the subject is over, and none is about to be posted. */
  ghost predicate AllOver(d: Desk, subject: Subject) {
    && (forall r: nat :: r < |d.runs| && d.runs[r].subject == subject ==> Over(d, r))
    && (forall x <- d.sendings :: x.Sending? && x.row < |d.rows| ==> d.rows[x.row].subject != subject)
  }

  lemma OverStays(d: Desk, s: Step, subject: Subject)
    requires RowsFit(d) && FallsBack(subject) && AllOver(d, subject) && s != OpenRow(subject)
    ensures AllOver(Apply(d, s), subject)
  {
    hide RowFits, Target, WithOutcome, Moved, Settled, StoringFits;
    var after := Apply(d, s);
    forall r: nat | r < |after.runs| && after.runs[r].subject == subject
      ensures Over(after, r)
    {
      if r < |d.runs| {
        RunsKeep(d, s, r);
        assert Over(d, r);
        forall k: nat | k < |after.deliveries|
          ensures after.deliveries[k].run != r
        {
          DeliveryBefore(d, s, k);
        }
      } else {
        NewRunOf(d, s, subject);
      }
    }
    forall x | x in after.sendings && x.Sending? && x.row < |after.rows|
      ensures after.rows[x.row].subject != subject
    {
      if x.row < |d.rows| {
        SubjectStays(d, s, x.row);
      }
      assert x in d.sendings ==> SendingFits(d, x);
    }
  }

  lemma NewRunOf(d: Desk, s: Step, subject: Subject)
    requires RowsFit(d) && FallsBack(subject) && AllOver(d, subject)
    ensures forall r: nat :: |d.runs| <= r < |Apply(d, s).runs| ==> Apply(d, s).runs[r].subject != subject
  {
    hide RowFits, Target, WithOutcome, Moved, StoringFits, Valid;
    if s.RowPosted? && SendingAt(d, s.at) {
      assert d.sendings[s.at] in d.sendings;
    } else if s.PostAnswered? && At(d, s.at) {
      assert d.deliveries[s.at] in d.deliveries;
    }
  }

  lemma StaysWhenOver(d: Desk, s: Step, i: nat)
    requires RowsFit(d) && i < |d.rows| && d.rows[i].state.Waiting?
    requires FallsBack(d.rows[i].subject) && AllOver(d, d.rows[i].subject)
    ensures i < |Apply(d, s).rows| && Apply(d, s).rows[i].state.Waiting?
  {
    OverEnds(d, s, i);
    RowAfter(d, s, i);
    if s.RowNotPosted? && SendingAt(d, s.at) {
      assert d.sendings[s.at] in d.sendings;
    }
    hide RowsFit, Target, Written;
  }

  /** What is written into a row is the outcome of a request of its subject that is not over. */
  lemma OverEnds(d: Desk, s: Step, i: nat)
    requires RowsFit(d) && i < |d.rows| && AllOver(d, d.rows[i].subject)
    ensures !(Written(d, s).Some? && Written(d, s).value.row == i)
  {
    hide Valid, RowFits, Target, SendingFits;
    var r := Ends(d, s);
    if r.Some? && r.value < |d.runs| {
      TargetMeaning(d, r.value);
      if s.Store? && At(d, s.at) {
        assert StoringFits(d, d.deliveries[s.at]);
      }
    }
  }

  /** After every history in which each request about an incident's alert, or a resolution's recommendation, is over,
      and none is about to be posted, its waiting rows wait until a new one is opened. */
  lemma {:induction false} WaitsForANewRow(steps: seq<Step>, more: seq<Step>, i: nat)
    requires i < |Reached(steps).rows| && Reached(steps).rows[i].state.Waiting?
    requires FallsBack(Reached(steps).rows[i].subject) && AllOver(Reached(steps), Reached(steps).rows[i].subject)
    requires OpenRow(Reached(steps).rows[i].subject) !in more
    ensures i < |Reached(steps + more).rows| && Reached(steps + more).rows[i].state.Waiting?
    decreases |more|
  {
    hide Reached, Apply, RowsFit, AllOver;
    if more == [] {
      assert steps + more == steps;
    } else {
      var d, s := Reached(steps), more[0];
      assert s in more;
      RowsHoldTheirOwn(steps);
      StaysWhenOver(d, s, i);
      OverStays(d, s, d.rows[i].subject);
      SubjectStays(d, s, i);
      Then(steps, s);
      WaitsForANewRow(steps + [s], more[1..], i);
      assert steps + more == steps + [s] + more[1..];
    }
  }
}
