/** The recommendations table, `src/collector.ts`: batches of recommendations upserted by fingerprint, between the
    decisions people make. */
module Recommendations {
  import opened Options
  import opened Strings

  datatype Status = Open | Snoozed | Resolved | Approved | Pending | Rejected | Done

  datatype Source = Rules | Agent

  /** What a refresh may rewrite. */
  datatype Content = Content(runId: int, title: string, saving: Option<real>, tier: string, confidence: real,
                             rationale: string, evidence: string)

  /** What an insert writes once. */
  datatype Origin = Origin(source: Source, rule: string, resource: string, resourceName: Option<string>,
      actionType: string,
                           request: Option<string>, account: Option<string>, provider: string)

  /** A row; its place in the table is its id. Timestamps are left out. */
  datatype Row = Row(origin: Origin, content: Content, status: Status, decided: bool) {
    function Fingerprint(): string {
      origin.rule + ":" + origin.resource
    }
  }

  type Rows = seq<Row>

  datatype Rec = Rec(rule: string, resource: string, resourceName: Option<string>, actionType: string,
      account: Option<string>,
                     title: string, saving: Option<real>, tier: string, confidence: real, rationale: string,
                         evidence: string) {
    function Fingerprint(): string {
      rule + ":" + resource
    }
  }

  /** What is the same for every recommendation of a batch. */
  datatype Context = Context(runId: int, source: Source, request: Option<string>, provider: string)

  function ContentOf(r: Rec, c: Context): Content {
    Content(c.runId, r.title, r.saving, r.tier, r.confidence, r.rationale, r.evidence)
  }

  function Inserted(r: Rec, c: Context): (row: Row)
    ensures row.Fingerprint() == r.Fingerprint()
  {
    Row(Origin(c.source, r.rule, r.resource, r.resourceName, r.actionType, c.request, r.account, c.provider),
        ContentOf(r, c),
        Open, false)
  }

  predicate Undecided(s: Status) {
    s.Open? || s.Snoozed? || s.Resolved?
  }

  function Reopened(s: Status): Status {
    if s.Resolved? then Open else s
  }

  function Refreshed(row: Row, r: Rec, c: Context): Row {
    if Undecided(row.status) then row.(content := ContentOf(r, c), status := Reopened(row.status)) else row
  }

  /** The first row of that fingerprint. */
  function Find(rows: Rows, fingerprint: string): Option<nat> {
    if rows == [] then None
    else if rows[0].Fingerprint() == fingerprint then Some(0)
    else
      var i := Find(rows[1..], fingerprint);
      if i.None? then None else Some(i.value + 1)
  }

  lemma {:induction false} FindMeaning(rows: Rows, fingerprint: string)
    ensures var i := Find(rows, fingerprint);
      if i.Some? then i.value < |rows| && rows[i.value].Fingerprint() == fingerprint
      else forall row <- rows :: row.Fingerprint() != fingerprint
  {
    if rows != [] {
      FindMeaning(rows[1..], fingerprint);
      assert rows == [rows[0]] + rows[1..];
    }
  }

  function UpsertOne(rows: Rows, r: Rec, c: Context): Rows {
    FindMeaning(rows, r.Fingerprint());
    var i := Find(rows, r.Fingerprint());
    if i.None? then rows + [Inserted(r, c)] else rows[i.value := Refreshed(rows[i.value], r, c)]
  }

  function UpsertAll(rows: Rows, recs: seq<Rec>, c: Context): Rows {
    if recs == [] then rows else UpsertOne(UpsertAll(rows, recs[..|recs| - 1], c), recs[|recs| - 1], c)
  }

  function Fingerprints(recs: seq<Rec>): set<string> {
    set r <- recs :: r.Fingerprint()
  }

  predicate PrefixAnyCase(prefix: string, s: string) {
    |prefix| <= |s| && Lower(s[..|prefix|]) == prefix
  }

  /** The rule families a full batch leaves to their own reconciling. The first pattern's underscore is not escaped,
      so it stands for any character. */
  predicate SelfReconciled(rule: string) {
    (PrefixAnyCase("review", rule) && |rule| > 6) || PrefixAnyCase("sec_", rule) || PrefixAnyCase("sg_", rule)
  }

  predicate Stale(row: Row, seen: set<string>, provider: string) {
    && row.status.Open? && row.origin.source.Rules? && !SelfReconciled(row.origin.rule) &&
        row.origin.provider == provider
    && row.Fingerprint() !in seen
  }

  function Resolve(row: Row): Row {
    row.(status := Resolved)
  }

  function Reconciled(rows: Rows, seen: set<string>, provider: string): Rows {
    seq(|rows|, i requires 0 <= i < |rows| => if Stale(rows[i], seen, provider) then Resolve(rows[i]) else rows[i])
  }

  datatype Batch = Batch(recs: seq<Rec>, context: Context, reconcile: bool)

  predicate Full(b: Batch) {
    b.context.source.Rules? && b.reconcile
  }

  function AfterBatch(rows: Rows, b: Batch): Rows {
    var upserted := UpsertAll(rows, b.recs, b.context);
    if Full(b) then Reconciled(upserted, Fingerprints(b.recs), b.context.provider) else upserted
  }

  // ---- what a batch does to each row --------------------------------------------------------------------------------

  ghost predicate Unique(rows: Rows) {
    forall i, j :: 0 <= i < j < |rows| ==> rows[i].Fingerprint() != rows[j].Fingerprint()
  }

  ghost predicate Has(rows: Rows, fingerprint: string) {
    exists i :: 0 <= i < |rows| && rows[i].Fingerprint() == fingerprint
  }

  /** The last recommendation of that fingerprint in the batch. */
  function Last(recs: seq<Rec>, fingerprint: string): Option<Rec> {
    if recs == [] then None
    else if recs[|recs| - 1].Fingerprint() == fingerprint then Some(recs[|recs| - 1])
    else Last(recs[..|recs| - 1], fingerprint)
  }

  function First(recs: seq<Rec>, fingerprint: string): Option<Rec> {
    if recs == [] then None
    else if recs[0].Fingerprint() == fingerprint then Some(recs[0])
    else First(recs[1..], fingerprint)
  }

  lemma {:induction false} LastMeaning(recs: seq<Rec>, fingerprint: string)
    ensures Last(recs, fingerprint).Some? <==> fingerprint in Fingerprints(recs)
    ensures Last(recs, fingerprint).Some? ==>
      Last(recs, fingerprint).value in recs && Last(recs, fingerprint).value.Fingerprint() == fingerprint
  {
    if recs != [] {
      var n := |recs| - 1;
      LastMeaning(recs[..n], fingerprint);
      assert recs == recs[..n] + [recs[n]];
    }
  }

  lemma {:induction false} FirstGrows(recs: seq<Rec>, r: Rec, fingerprint: string)
    ensures First(recs + [r], fingerprint) ==
            if First(recs, fingerprint).Some? then First(recs, fingerprint)
            else if r.Fingerprint() == fingerprint then Some(r) else None
  {
    if recs == [] {
      assert [r][1..] == [] && [] + [r] == [r];
    } else {
      assert (recs + [r])[1..] == recs[1..] + [r];
      FirstGrows(recs[1..], r, fingerprint);
    }
  }

  /** A row after a batch: decided rows stay as they are, the others say what the last recommendation of their
      fingerprint says, and a resolved one is open again. */
  function RowAfter(row: Row, recs: seq<Rec>, c: Context): Row {
    var last := Last(recs, row.Fingerprint());
    if last.None? || !Undecided(row.status) then row
    else row.(content := ContentOf(last.value, c), status := Reopened(row.status))
  }

  /** The row a batch writes for a fingerprint the table does not have: as its first recommendation inserted it,
      saying what its last one says. */
  function NewRow(recs: seq<Rec>, fingerprint: string, c: Context): Row
    requires First(recs, fingerprint).Some? && Last(recs, fingerprint).Some?
  {
    Inserted(First(recs, fingerprint).value, c).(content := ContentOf(Last(recs, fingerprint).value, c))
  }

  ghost predicate Upserted(rows: Rows, recs: seq<Rec>, c: Context, after: Rows) {
    && |rows| <= |after| && Unique(after)
    && (forall i :: 0 <= i < |rows| ==> after[i] == RowAfter(rows[i], recs, c))
    && (forall i :: |rows| <= i < |after| ==> IsNew(rows, recs, c, after[i]))
    && (forall fp :: Has(after, fp) <==> Has(rows, fp) || fp in Fingerprints(recs))
  }

  ghost predicate IsNew(rows: Rows, recs: seq<Rec>, c: Context, row: Row) {
    var fp := row.Fingerprint();
    && !Has(rows, fp) && First(recs, fp).Some? && Last(recs, fp).Some? && row == NewRow(recs, fp, c)
  }

  /** For every table without double fingerprints and every batch, this is what each row becomes and which rows are
      new. */
  lemma {:induction false} UpsertMeaning(rows: Rows, recs: seq<Rec>, c: Context)
    requires Unique(rows)
    ensures Upserted(rows, recs, c, UpsertAll(rows, recs, c))
  {
    if recs == [] {
      assert Fingerprints(recs) == {};
    } else {
      var n := |recs| - 1;
      var before, r := UpsertAll(rows, recs[..n], c), recs[n];
      UpsertMeaning(rows, recs[..n], c);
      OneMore(rows, recs[..n], r, c, before);
      assert recs == recs[..n] + [r];
    }
  }

  lemma RowAfterOneMore(row: Row, recs: seq<Rec>, r: Rec, c: Context)
    ensures RowAfter(row, recs + [r], c) ==
            if row.Fingerprint() == r.Fingerprint() then Refreshed(RowAfter(row, recs, c), r, c)
                else RowAfter(row, recs, c)
  {
  }

  lemma NewOneMore(rows: Rows, recs: seq<Rec>, r: Rec, c: Context, row: Row)
    requires IsNew(rows, recs, c, row)
    ensures IsNew(rows, recs + [r], c, if row.Fingerprint() == r.Fingerprint() then Refreshed(row, r, c) else row)
  {
    hide Has;
    FirstGrows(recs, r, row.Fingerprint());
  }

  lemma InsertedIsNew(rows: Rows, recs: seq<Rec>, r: Rec, c: Context)
    requires !Has(rows, r.Fingerprint()) && r.Fingerprint() !in Fingerprints(recs)
    ensures IsNew(rows, recs + [r], c, Inserted(r, c))
  {
    hide Has;
    var fp := r.Fingerprint();
    FirstGrows(recs, r, fp);
    FirstMeaning(recs, fp);
  }

  lemma {:induction false} FirstMeaning(recs: seq<Rec>, fingerprint: string)
    ensures First(recs, fingerprint).Some? <==> fingerprint in Fingerprints(recs)
    ensures First(recs, fingerprint).Some? ==> First(recs, fingerprint).value.Fingerprint() == fingerprint
  {
    if recs != [] {
      FirstMeaning(recs[1..], fingerprint);
      assert recs == [recs[0]] + recs[1..];
    }
  }

  lemma OneMore(rows: Rows, recs: seq<Rec>, r: Rec, c: Context, before: Rows)
    requires Upserted(rows, recs, c, before)
    ensures Upserted(rows, recs + [r], c, UpsertOne(before, r, c))
  {
    hide RowAfter, IsNew, Inserted, Refreshed, Row.Fingerprint, Rec.Fingerprint;
    var after, fp := UpsertOne(before, r, c), r.Fingerprint();
    FindMeaning(before, fp);
    var found := Find(before, fp);
    assert Fingerprints(recs + [r]) == Fingerprints(recs) + {fp} by {
      assert forall x :: x in recs + [r] <==> x in recs || x == r;
    }
    forall i | 0 <= i < |before|
      ensures after[i] == if before[i].Fingerprint() == fp then Refreshed(before[i], r, c) else before[i]
      ensures after[i].Fingerprint() == before[i].Fingerprint()
      ensures i < |rows| ==> after[i] == RowAfter(rows[i], recs + [r], c)
      ensures i >= |rows| ==> IsNew(rows, recs + [r], c, after[i])
    {
      SameFingerprint(before[i], r, c);
      if i < |rows| {
        RowAfterOneMore(rows[i], recs, r, c);
        SameAfter(rows[i], recs, c);
      } else {
        NewOneMore(rows, recs, r, c, before[i]);
      }
    }
    if found.None? {
      assert !Has(before, fp);
      InsertedIsNew(rows, recs, r, c);
    } else {
      assert Has(before, fp);
    }
    SameKeys(before, after, fp, found.None?);
  }

  lemma SameKeys(before: Rows, after: Rows, fp: string, grown: bool)
    requires Unique(before)
    requires |after| == |before| + if grown then 1 else 0
    requires forall i :: 0 <= i < |before| ==> after[i].Fingerprint() == before[i].Fingerprint()
    requires grown ==> after[|before|].Fingerprint() == fp
    requires grown <==> !Has(before, fp)
    ensures Unique(after)
    ensures forall x :: Has(after, x) <==> Has(before, x) || x == fp
  {
    hide Row.Fingerprint;
    forall x
      ensures Has(after, x) <==> Has(before, x) || x == fp
    {
      if Has(before, x) {
        var i :| 0 <= i < |before| && before[i].Fingerprint() == x;
        assert after[i].Fingerprint() == x;
      }
    }
  }

  lemma SameFingerprint(row: Row, r: Rec, c: Context)
    ensures Refreshed(row, r, c).Fingerprint() == row.Fingerprint()
  {
  }

  lemma SameAfter(row: Row, recs: seq<Rec>, c: Context)
    ensures RowAfter(row, recs, c).Fingerprint() == row.Fingerprint()
  {
  }

}
