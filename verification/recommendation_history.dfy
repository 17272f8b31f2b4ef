/** The recommendations table over any interleaving of batches and decisions, `src/collector.ts`. */
module RecommendationHistory {
  import opened Options
  import opened Strings
  import opened Recommendations

  // ---- one batch ----------------------------------------------------------------------------------------------------

  /** A row's fingerprint and what its insert wrote stay. */
  predicate SameRow(a: Row, b: Row) {
    a.origin == b.origin && a.decided == b.decided
  }

  /** A batch keeps fingerprints unique, deletes no row, and leaves every row a person decided on exactly as it is. */
  lemma BatchKeeps(rows: Rows, b: Batch)
    requires Unique(rows)
    ensures var after := AfterBatch(rows, b);
      && Unique(after) && |rows| <= |after|
      && (forall i :: 0 <= i < |rows| ==> SameRow(rows[i], after[i]))
      && (forall i :: 0 <= i < |rows| && rows[i].status in {Approved, Pending, Rejected, Done} ==> after[i] == rows[i])
  {
    hide UpsertAll;
    UpsertMeaning(rows, b.recs, b.context);
    var upserted, after := UpsertAll(rows, b.recs, b.context), AfterBatch(rows, b);
    assert forall i :: 0 <= i < |upserted| ==> after[i].Fingerprint() == upserted[i].Fingerprint();
  }

  ghost predicate OpenRule(row: Row, provider: string) {
    row.status.Open? && row.origin.source.Rules? && row.origin.provider == provider && !SelfReconciled(row.origin.rule)
  }

  /** After a batch every recommendation of it has its row, and none of those rows is resolved; after a full one,
      every open rules row of the provider outside the self-reconciled families is in the batch. */
  lemma BatchCovers(rows: Rows, b: Batch)
    requires Unique(rows)
    ensures var after := AfterBatch(rows, b);
      && (forall r <- b.recs :: exists row :: row in after && row.Fingerprint() == r.Fingerprint())
      && (forall row <- after :: row.Fingerprint() in Fingerprints(b.recs) ==> !row.status.Resolved?)
      && (Full(b) ==> forall row <- after :: OpenRule(row, b.context.provider) ==>
          row.Fingerprint() in Fingerprints(b.recs))
  {
    hide UpsertAll, SelfReconciled, Row.Fingerprint, Rec.Fingerprint;
    UpsertMeaning(rows, b.recs, b.context);
    var upserted, after := UpsertAll(rows, b.recs, b.context), AfterBatch(rows, b);
    forall i | 0 <= i < |upserted|
      ensures after[i].Fingerprint() == upserted[i].Fingerprint()
    {
      ResolveKeepsFingerprint(upserted[i]);
    }
    forall r | r in b.recs
      ensures exists row :: row in after && row.Fingerprint() == r.Fingerprint()
    {
      assert r.Fingerprint() in Fingerprints(b.recs);
      assert Has(upserted, r.Fingerprint());
      var i :| 0 <= i < |upserted| && upserted[i].Fingerprint() == r.Fingerprint();
      assert after[i] in after;
    }
    forall i | 0 <= i < |after| && after[i].Fingerprint() in Fingerprints(b.recs)
      ensures !after[i].status.Resolved?
    {
      assert after[i] == upserted[i];
      NotResolved(rows, b, i);
    }
  }

  lemma ResolveKeepsFingerprint(row: Row)
    ensures Resolve(row).Fingerprint() == row.Fingerprint()
  {
  }

  lemma NotResolved(rows: Rows, b: Batch, i: nat)
    requires Unique(rows) && i < |UpsertAll(rows, b.recs, b.context)|
    requires UpsertAll(rows, b.recs, b.context)[i].Fingerprint() in Fingerprints(b.recs)
    ensures !UpsertAll(rows, b.recs, b.context)[i].status.Resolved?
  {
    hide UpsertAll;
    UpsertMeaning(rows, b.recs, b.context);
    LastMeaning(b.recs, UpsertAll(rows, b.recs, b.context)[i].Fingerprint());
  }

  /** Exactly the stale rows are resolved: a row outside the batch changes only when a full batch of its provider no
      longer has it. */
  lemma OutsideTheBatch(rows: Rows, b: Batch, i: nat)
    requires Unique(rows) && i < |rows| && rows[i].Fingerprint() !in Fingerprints(b.recs)
    ensures i < |AfterBatch(rows, b)|
    ensures AfterBatch(rows, b)[i] ==
            if Full(b) && OpenRule(rows[i], b.context.provider) then rows[i].(status := Resolved) else rows[i]
  {
    hide UpsertAll, SelfReconciled, Row.Fingerprint, Rec.Fingerprint;
    UpsertMeaning(rows, b.recs, b.context);
    LastMeaning(b.recs, rows[i].Fingerprint());
  }

  /** Repeating a batch changes nothing. */
  lemma BatchTwice(rows: Rows, b: Batch)
    requires Unique(rows)
    ensures AfterBatch(AfterBatch(rows, b), b) == AfterBatch(rows, b)
  {
    hide UpsertAll, SelfReconciled, Row.Fingerprint, Rec.Fingerprint, RowAfter, IsNew;
    var first := AfterBatch(rows, b);
    BatchKeeps(rows, b);
    BatchCovers(rows, b);
    UpsertMeaning(rows, b.recs, b.context);
    UpsertMeaning(first, b.recs, b.context);
    var again := UpsertAll(first, b.recs, b.context);
    assert |again| == |first| by {
      if |again| > |first| {
        NewIsNotThere(first, b.recs, b.context, again[|first|]);
      }
    }
    forall i | 0 <= i < |first|
      ensures again[i] == first[i]
    {
      RowSettled(rows, b, i);
    }
    assert again == first;
    forall i | 0 <= i < |first|
      ensures Full(b) ==> !Stale(first[i], Fingerprints(b.recs), b.context.provider)
    {
      assert first[i] in first;
    }
  }

  lemma NewIsNotThere(rows: Rows, recs: seq<Rec>, c: Context, row: Row)
    requires IsNew(rows, recs, c, row)
    ensures !Has(rows, row.Fingerprint()) && row.Fingerprint() in Fingerprints(recs)
  {
    FirstMeaning(recs, row.Fingerprint());
  }

  /** A row a batch has been through is not changed by it again. */
  lemma RowSettled(rows: Rows, b: Batch, i: nat)
    requires Unique(rows) && i < |AfterBatch(rows, b)|
    ensures RowAfter(AfterBatch(rows, b)[i], b.recs, b.context) == AfterBatch(rows, b)[i]
  {
    hide UpsertAll, SelfReconciled;
    UpsertMeaning(rows, b.recs, b.context);
    var upserted := UpsertAll(rows, b.recs, b.context);
    var row, fp := AfterBatch(rows, b)[i], upserted[i].Fingerprint();
    LastMeaning(b.recs, fp);
    assert row.Fingerprint() == fp;
    if fp in Fingerprints(b.recs) {
      assert row == upserted[i];
      NotResolved(rows, b, i);
    }
  }

  // ---- what the rows of a batch say ---------------------------------------------------------------------------------

  /** The content says what the item says, as of the run. */
  ghost predicate SaysItem(x: Content, r: Rec, runId: int) {
    && x.runId == runId && x.title == r.title && x.saving == r.saving && x.tier == r.tier
    && x.confidence == r.confidence && x.rationale == r.rationale && x.evidence == r.evidence
  }

  /** Item `k` is the last one of the batch with this rule and resource. */
  ghost predicate IsLast(recs: seq<Rec>, k: nat, rule: string, resource: string) {
    && k < |recs| && recs[k].rule + ":" + recs[k].resource == rule + ":" + resource
    && forall j :: k < j < |recs| ==> recs[j].rule + ":" + recs[j].resource != rule + ":" + resource
  }

  /** Item `k` is the first one. */
  ghost predicate IsFirst(recs: seq<Rec>, k: nat, rule: string, resource: string) {
    && k < |recs| && recs[k].rule + ":" + recs[k].resource == rule + ":" + resource
    && forall j :: 0 <= j < k ==> recs[j].rule + ":" + recs[j].resource != rule + ":" + resource
  }

  lemma {:induction false} LastIs(recs: seq<Rec>, k: nat, rule: string, resource: string)
    requires IsLast(recs, k, rule, resource)
    ensures Last(recs, rule + ":" + resource) == Some(recs[k])
  {
    var n := |recs| - 1;
    if k < n {
      assert recs[n].Fingerprint() != rule + ":" + resource;
      LastIs(recs[..n], k, rule, resource);
    }
  }

  lemma {:induction false} FirstIs(recs: seq<Rec>, k: nat, rule: string, resource: string)
    requires IsFirst(recs, k, rule, resource)
    ensures First(recs, rule + ":" + resource) == Some(recs[k])
  {
    if k > 0 {
      assert recs[0].Fingerprint() != rule + ":" + resource;
      FirstIs(recs[1..], k - 1, rule, resource);
    }
  }

  /** An open, snoozed or resolved row takes what the last item of its rule and resource says; a resolved one is open
      again, a snoozed one stays snoozed, and what its insert wrote stays. */
  lemma BatchRefreshes(rows: Rows, b: Batch, i: nat, k: nat)
    requires Unique(rows) && i < |rows| && rows[i].status in {Open, Snoozed, Resolved}
    requires IsLast(b.recs, k, rows[i].origin.rule, rows[i].origin.resource)
    ensures var after := AfterBatch(rows, b);
      && i < |after| && SaysItem(after[i].content, b.recs[k], b.context.runId)
      && after[i].status == (if rows[i].status == Snoozed then Snoozed else Open)
      && after[i].origin == rows[i].origin && after[i].decided == rows[i].decided
  {
    hide UpsertAll, SelfReconciled;
    UpsertMeaning(rows, b.recs, b.context);
    LastIs(b.recs, k, rows[i].origin.rule, rows[i].origin.resource);
    LastMeaning(b.recs, rows[i].Fingerprint());
  }

  /** A rule and resource the table does not have get one row, open and undecided: written once as the first such item
      says, and saying what the last one says. */
  lemma BatchInserts(rows: Rows, b: Batch, j: nat, k: nat)
    requires Unique(rows) && j < |b.recs| && IsLast(b.recs, k, b.recs[j].rule, b.recs[j].resource)
    requires IsFirst(b.recs, j, b.recs[j].rule, b.recs[j].resource)
    requires forall row <- rows ::
      row.origin.rule + ":" + row.origin.resource != b.recs[j].rule + ":" + b.recs[j].resource
    ensures exists i ::
      |rows| <= i < |AfterBatch(rows, b)| && IsRowOf(AfterBatch(rows, b)[i], b.recs[j], b.recs[k], b.context)
  {
    hide UpsertAll, SelfReconciled;
    var r, after, upserted := b.recs[j], AfterBatch(rows, b), UpsertAll(rows, b.recs, b.context);
    UpsertMeaning(rows, b.recs, b.context);
    LastIs(b.recs, k, r.rule, r.resource);
    FirstIs(b.recs, j, r.rule, r.resource);
    var fp := r.Fingerprint();
    assert fp in Fingerprints(b.recs);
    forall n | 0 <= n < |rows|
      ensures rows[n].Fingerprint() != fp && upserted[n].Fingerprint() == rows[n].Fingerprint()
    {
      assert rows[n] in rows;
      SameAfter(rows[n], b.recs, b.context);
    }
    var i :| 0 <= i < |upserted| && upserted[i].Fingerprint() == fp;
    assert upserted[i] == NewRow(b.recs, fp, b.context);
    assert after[i] == upserted[i];
  }

  ghost predicate IsRowOf(row: Row, first: Rec, last: Rec, c: Context) {
    && row.origin.source == c.source && row.origin.rule == first.rule && row.origin.resource == first.resource
    && row.origin.resourceName == first.resourceName && row.origin.actionType == first.actionType
    && row.origin.request == c.request && row.origin.account == first.account && row.origin.provider == c.provider
    && SaysItem(row.content, last, c.runId) && row.status == Open && !row.decided
  }

  /** The rule families a full batch leaves alone, letter by letter: `review` and any one character, `sec_` and `sg_`,
      in capitals or not. */
  lemma SelfReconciledIff(rule: string)
    ensures SelfReconciled(rule) <==>
      || (|rule| >= 7 && rule[0] in {'r', 'R'} && rule[1] in {'e', 'E'} && rule[2] in {'v', 'V'}
          && rule[3] in {'i', 'I'} && rule[4] in {'e', 'E'} && rule[5] in {'w', 'W'})
      || (|rule| >= 4 && rule[0] in {'s', 'S'} && rule[1] in {'e', 'E'} && rule[2] in {'c', 'C'} && rule[3] == '_')
      || (|rule| >= 3 && rule[0] in {'s', 'S'} && rule[1] in {'g', 'G'} && rule[2] == '_')
  {
    PrefixIs("review", rule);
    PrefixIs("sec_", rule);
    PrefixIs("sg_", rule);
  }

  lemma PrefixIs(prefix: string, s: string)
    ensures PrefixAnyCase(prefix, s) <==>
      |prefix| <= |s| && forall i :: 0 <= i < |prefix| ==> LowerChar(s[i]) == prefix[i]
  {
    if |prefix| <= |s| {
      assert forall i :: 0 <= i < |prefix| ==> Lower(s[..|prefix|])[i] == LowerChar(s[i]);
    }
  }

  /** The number returned is that of the open rows. */
  lemma {:induction false} CountOpenMeaning(rows: Rows)
    ensures CountOpen(rows) == |set i: nat | i < |rows| && rows[i].status == Open|
  {
    var all := set i: nat | i < |rows| && rows[i].status == Open;
    if rows == [] {
      assert all == {};
    } else {
      var n := |rows| - 1;
      CountOpenMeaning(rows[..n]);
      var before := set i: nat | i < |rows[..n]| && rows[..n][i].status == Open;
      assert all == before + if rows[n].status == Open then {n} else {};
    }
  }

  // ---- histories ----------------------------------------------------------------------------------------------------

  /** A batch, or a person's decision: it changes a row's status and nothing of what the row says. */
  datatype Event = Upsert(batch: Batch) | Decide(row: nat, status: Status)

  function AfterEvent(rows: Rows, e: Event): Rows {
    match e
    case Upsert(b) => AfterBatch(rows, b)
    case Decide(i, s) => if i < |rows| then rows[i := rows[i].(status := s, decided := true)] else rows
  }

  function AfterAll(rows: Rows, events: seq<Event>): Rows {
    if events == [] then rows else AfterEvent(AfterAll(rows, events[..|events| - 1]), events[|events| - 1])
  }

  /** Over any interleaving, fingerprints stay unique and no row is ever deleted or renamed. */
  lemma {:induction false} HistoryKeeps(rows: Rows, events: seq<Event>)
    requires Unique(rows)
    ensures var after := AfterAll(rows, events);
      && Unique(after) && |rows| <= |after|
      && forall i :: 0 <= i < |rows| ==> after[i].origin == rows[i].origin
  {
    hide AfterBatch, Row.Fingerprint;
    if events != [] {
      var n := |events| - 1;
      HistoryKeeps(rows, events[..n]);
      var before := AfterAll(rows, events[..n]);
      match events[n]
      case Upsert(b) => BatchKeeps(before, b);
      case Decide(i, s) =>
        if i < |before| {
          StatusKeepsFingerprint(before[i], s);
        }
    }
  }

  lemma StatusKeepsFingerprint(row: Row, s: Status)
    ensures row.(status := s, decided := true).Fingerprint() == row.Fingerprint()
  {
  }

  /** The row's status goes from one of these four to another, whatever is decided. */
  ghost predicate StaysDecided(events: seq<Event>, i: nat) {
    forall e <- events :: e.Decide? && e.row == i ==> e.status in {Approved, Pending, Rejected, Done}
  }

  lemma EventKeepsDecided(rows: Rows, e: Event, i: nat)
    requires Unique(rows) && i < |rows| && rows[i].status in {Approved, Pending, Rejected, Done}
    requires e.Decide? && e.row == i ==> e.status in {Approved, Pending, Rejected, Done}
    ensures i < |AfterEvent(rows, e)|
    ensures AfterEvent(rows, e)[i].content == rows[i].content
    ensures AfterEvent(rows, e)[i].status in {Approved, Pending, Rejected, Done}
    ensures !(e.Decide? && e.row == i) ==> AfterEvent(rows, e)[i] == rows[i]
  {
    hide AfterBatch, Row.Fingerprint, Unique;
    if e.Upsert? {
      BatchKeeps(rows, e.batch);
    }
  }

  /** While a row is approved, pending, rejected or done, whatever batches come in, it keeps its title, tier and
      saving, and everything else it says; only a decision changes its status. */
  lemma {:induction false} DecidedRowsKeepWhatTheySay(rows: Rows, events: seq<Event>, i: nat)
    requires Unique(rows) && i < |rows| && rows[i].status in {Approved, Pending, Rejected, Done}
    requires StaysDecided(events, i)
    ensures i < |AfterAll(rows, events)|
    ensures AfterAll(rows, events)[i].content == rows[i].content
    ensures AfterAll(rows, events)[i].status in {Approved, Pending, Rejected, Done}
    ensures (forall e <- events :: e.Decide? ==> e.row != i) ==> AfterAll(rows, events)[i] == rows[i]
  {
    hide AfterEvent, Unique;
    if events != [] {
      var n := |events| - 1;
      assert events[n] in events && forall e <- events[..n] :: e in events;
      DecidedRowsKeepWhatTheySay(rows, events[..n], i);
      HistoryKeeps(rows, events[..n]);
      EventKeepsDecided(AfterAll(rows, events[..n]), events[n], i);
    }
  }

  // ---- the table ----------------------------------------------------------------------------------------------------

  datatype Run = Run(account: Option<string>, provider: string)

  function CountOpen(rows: Rows): nat {
    if rows == [] then 0 else CountOpen(rows[..|rows| - 1]) + if rows[|rows| - 1].status.Open? then 1 else 0
  }

  lemma DecidedIsLeft(row: Row, r: Rec, c: Context)
    ensures !Undecided(row.status) ==> Refreshed(row, r, c) == row
  {
  }

  /** Before the stale rows are resolved: no row has become resolved, one no longer resolved is in the batch, and a
      new one carries no decision. */
  lemma UpsertsWhatIsOpen(rows: Rows, recs: seq<Rec>, c: Context)
    requires Unique(rows)
    ensures var after := UpsertAll(rows, recs, c);
      && |rows| <= |after|
      && (forall i :: 0 <= i < |rows| && after[i].status.Resolved? ==> rows[i].status.Resolved?)
      && (forall i :: 0 <= i < |rows| && after[i].status.Open? ==>
          rows[i].status.Open? || after[i].Fingerprint() in Fingerprints(recs))
      && (forall i :: |rows| <= i < |after| ==> !after[i].decided && !after[i].status.Resolved?)
  {
    hide UpsertAll;
    UpsertMeaning(rows, recs, c);
    forall i | 0 <= i < |rows|
      ensures Last(recs, rows[i].Fingerprint()).Some? <==> rows[i].Fingerprint() in Fingerprints(recs)
    {
      LastMeaning(recs, rows[i].Fingerprint());
    }
  }

  class RecommendationTable {
    var rows: Rows
    var runs: map<int, Run>

    ghost predicate Valid()
      reads this
    {
      Unique(rows)
    }

    constructor ()
      ensures Valid() && rows == []
    {
      rows, runs := [], map[];
    }

    /** Inserts and refreshes, one recommendation after the other. */
    method UpsertEach(recs: seq<Rec>, c: Context) returns (seen: set<string>)
      modifies this`rows
      ensures rows == UpsertAll(old(rows), recs, c) && seen == Fingerprints(recs)
    {
      hide Refreshed, Inserted, Row.Fingerprint, Rec.Fingerprint, Undecided;
      seen := {};
      for k := 0 to |recs|
        modifies this`rows
        invariant rows == UpsertAll(old(rows), recs[..k], c)
        invariant seen == Fingerprints(recs[..k])
      {
        assert recs[..k + 1][..k] == recs[..k];
        seen := seen + {recs[k].Fingerprint()};
        FindMeaning(rows, recs[k].Fingerprint());
        var i := Find(rows, recs[k].Fingerprint());
        if i.None? {
          rows := rows + [Inserted(recs[k], c)];
        } else {
          DecidedIsLeft(rows[i.value], recs[k], c);
          if Undecided(rows[i.value].status) {
            rows := rows[i.value := Refreshed(rows[i.value], recs[k], c)];
          }
        }
      }
      assert recs[..|recs|] == recs;
    }

    /** Resolves the stale rows, and tells which of them once carried a decision. */
    method ResolveStale(seen: set<string>, provider: string) returns (told: seq<nat>)
      modifies this`rows
      ensures rows == Reconciled(old(rows), seen, provider)
      ensures forall i: nat :: i in told <==>
        i < |rows| && rows[i].decided && rows[i].status.Resolved? && !old(rows)[i].status.Resolved?
    {
      hide SelfReconciled, Row.Fingerprint;
      told := [];
      for k := 0 to |rows|
        modifies this`rows
        invariant |rows| == |old(rows)|
        invariant forall i :: 0 <= i < k ==> rows[i] == Reconciled(old(rows), seen, provider)[i]
        invariant forall i :: k <= i < |rows| ==> rows[i] == old(rows)[i]
        invariant forall i: nat :: i in told <==>
            i < k && rows[i].decided && rows[i].status.Resolved? && !old(rows)[i].status.Resolved?
      {
        if Stale(rows[k], seen, provider) {
          if rows[k].decided {
            told := told + [k];
          }
          rows := rows[k := Resolve(rows[k])];
        }
      }
    }

    /** Upserts a batch; without a provider nothing is written. Returns the number of open rows and, for a full batch,
        the rows resolved by it that carried a decision. */
    method Upsert(runId: int, recs: seq<Rec>, source: Source, request: Option<string>, reconcile: bool,
                  given: Option<string>)
      returns (open: Option<nat>, told: seq<nat>)
      requires Valid()
      modifies this`rows
      ensures Valid()
      ensures var provider := if given.Some? then given else if runId in runs then Some(runs[runId].provider) else None;
        if provider.None? then open == None && rows == old(rows)
        else rows == AfterBatch(old(rows), Batch(recs, Context(runId, source, request, provider.value), reconcile))
             && open == Some(CountOpen(rows))
      ensures forall i: nat :: i in told <==>
        i < |old(rows)| <= |rows| && rows[i].decided && rows[i].status.Resolved? && old(rows)[i].status.Open?
      ensures |old(rows)| <= |rows|
      ensures forall i :: 0 <= i < |old(rows)| && old(rows)[i].status in {Approved, Pending, Rejected, Done} ==>
        rows[i] == old(rows)[i]
    {
      hide UpsertAll, Fingerprints, SelfReconciled, Row.Fingerprint, CountOpen;
      told := [];
      var provider := if given.Some? then given else if runId in runs then Some(runs[runId].provider) else None;
      if provider.None? {
        return None, [];
      }
      var c := Context(runId, source, request, provider.value);
      ghost var b := Batch(recs, c, reconcile);
      BatchKeeps(rows, b);
      UpsertsWhatIsOpen(rows, recs, c);
      var seen := UpsertEach(recs, c);
      if source.Rules? && reconcile {
        told := ResolveStale(seen, c.provider);
      }
      open := Some(CountOpen(rows));
    }

    /** A person's decision. */
    method Decide(i: nat, status: Status)
      requires Valid()
      modifies this`rows
      ensures Valid() && rows == AfterEvent(old(rows), Event.Decide(i, status))
    {
      HistoryKeeps(rows, [Event.Decide(i, status)]);
      if i < |rows| {
        rows := rows[i := rows[i].(status := status, decided := true)];
      }
    }
  }
}
