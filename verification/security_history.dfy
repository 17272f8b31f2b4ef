/** The security scans over any history, `src/compliance.ts`. */
module SecurityHistory {
  import opened Options
  import opened SecurityScans

  // ---- the unbroken run of a finding --------------------------------------------------------------------------------

  /** The first scan of the unbroken run of consecutive completed scans, ending at `scan`, that show the fingerprint. */
  function RunStart(s: State, scan: nat, fingerprint: string): nat
    requires scan < |s.scans|
    decreases scan
  {
    PreviousMeaning(s.scans, scan);
    var p := Previous(s.scans, scan);
    if p.Some? && InScan(s, p.value, fingerprint) then RunStart(s, p.value, fingerprint) else scan
  }

  /** The run has no gap, and the completed scan before it, if there is one, does not show the fingerprint. */
  lemma {:induction false} RunStartMeaning(s: State, scan: nat, fingerprint: string)
    requires scan < |s.scans| && InScan(s, scan, fingerprint)
    ensures var r := RunStart(s, scan, fingerprint);
      && r <= scan && InScan(s, r, fingerprint) && (r != scan ==> s.scans[r].status.Completed?)
      && (forall t :: r <= t < scan && s.scans[t].status.Completed? ==> InScan(s, t, fingerprint))
      && (Previous(s.scans, r).Some? ==> !InScan(s, Previous(s.scans, r).value, fingerprint))
    decreases scan
  {
    hide InScan;
    PreviousMeaning(s.scans, scan);
    var p := Previous(s.scans, scan);
    if p.Some? && InScan(s, p.value, fingerprint) {
      RunStartMeaning(s, p.value, fingerprint);
    }
  }

  ghost predicate Rooted(s: State, f: Finding) {
    f.scan < |s.scans| && f.firstSeenScan == RunStart(s, f.scan, f.fingerprint)
    && f.firstSeenScan < |s.scans| && f.firstSeenAt == s.scans[f.firstSeenScan].at && f.firstSeenScan <= f.scan
  }

  lemma {:induction false} RunStartStays(s: State, o: Outcome, scan: nat, fingerprint: string)
    requires scan < |s.scans|
    ensures RunStart(AfterScan(s, o), scan, fingerprint) == RunStart(s, scan, fingerprint)
    decreases scan
  {
    hide InScan, ScanRow, RowsOf;
    var after := AfterScan(s, o);
    PreviousMeaning(s.scans, scan);
    PreviousStays(s.scans, [ScanRow(s, o)], scan);
    var p := Previous(s.scans, scan);
    if p.Some? {
      InScanStays(s, o, p.value, fingerprint);
      if InScan(s, p.value, fingerprint) {
        RunStartStays(s, o, p.value, fingerprint);
      }
    }
  }

  lemma InScanStays(s: State, o: Outcome, scan: nat, fingerprint: string)
    requires scan < |s.scans|
    ensures InScan(AfterScan(s, o), scan, fingerprint) <==> InScan(s, scan, fingerprint)
  {
    hide ScanRow, RowsOf;
    RowsAreNew(s, o);
    var rows := RowsOf(s, o);
    assert forall f :: f in s.findings + rows <==> f in s.findings || f in rows;
  }

  lemma RowsAreNew(s: State, o: Outcome)
    ensures RowsFor(RowsOf(s, o), |s.scans|, o.at, PreviousRows(s))
    ensures forall f <- RowsOf(s, o) :: f.scan == |s.scans|
  {
    ScanRowsMeaning(|s.scans|, o.at, PreviousRows(s), Reached(o));
  }

  /** Over any history of scans, completed or not, a finding's first scan is the first of its unbroken run of
      completed scans and its first time is that scan's. */
  lemma {:induction false} FirstSeenIsTheRunsStart(outcomes: seq<Outcome>)
    ensures forall f <- AfterScans(outcomes).findings :: Rooted(AfterScans(outcomes), f)
  {
    hide AfterScan, Rooted;
    if outcomes != [] {
      var n := |outcomes| - 1;
      var s, o := AfterScans(outcomes[..n]), outcomes[n];
      FirstSeenIsTheRunsStart(outcomes[..n]);
      var after := AfterScan(s, o);
      forall f | f in after.findings
        ensures Rooted(after, f)
      {
        AfterScanFindings(s, o, f);
        if f in s.findings {
          RootedStays(s, o, f);
        } else {
          NewIsRooted(s, o, f);
        }
      }
    }
  }

  lemma AfterScanFindings(s: State, o: Outcome, f: Finding)
    ensures f in AfterScan(s, o).findings <==> f in s.findings || f in RowsOf(s, o)
  {
    hide RowsOf, ScanRow;
  }

  lemma RootedStays(s: State, o: Outcome, f: Finding)
    requires Rooted(s, f)
    ensures Rooted(AfterScan(s, o), f)
  {
    hide RunStart, RowsOf, ScanRow;
    RunStartStays(s, o, f.scan, f.fingerprint);
  }

  lemma NewIsRooted(s: State, o: Outcome, f: Finding)
    requires forall g <- s.findings :: Rooted(s, g)
    requires f in RowsOf(s, o)
    ensures Rooted(AfterScan(s, o), f)
  {
    hide RowsOf, ScanRow, Rooted, InScan;
    var after, scan := AfterScan(s, o), |s.scans|;
    RowsAreNew(s, o);
    PreviousMeaning(s.scans, scan);
    PreviousStays(s.scans, [ScanRow(s, o)], scan);
    var p := Previous(s.scans, scan);
    WasMeaning(PreviousRows(s), f.fingerprint);
    ScanAt(s, o);
    if p.Some? {
      InScanStays(s, o, p.value, f.fingerprint);
      InPrevious(s, p.value, f.fingerprint);
      RunStartStays(s, o, p.value, f.fingerprint);
      if f.fingerprint in Prints(PreviousRows(s)) {
        var was := Was(PreviousRows(s), f.fingerprint).value;
        FindingsOfMeaning(s.findings, p.value);
        RootedMeaning(s, was);
      }
    }
    RootedMeaning(after, f);
  }

  lemma ScanAt(s: State, o: Outcome)
    ensures AfterScan(s, o).scans[|s.scans|].at == o.at
    ensures |AfterScan(s, o).scans| == |s.scans| + 1
    ensures forall k :: 0 <= k < |s.scans| ==> AfterScan(s, o).scans[k] == s.scans[k]
  {
    hide RowsOf;
  }

  lemma InPrevious(s: State, p: nat, fingerprint: string)
    requires Previous(s.scans, |s.scans|) == Some(p)
    ensures fingerprint in Prints(PreviousRows(s)) <==> InScan(s, p, fingerprint)
  {
    FindingsOfMeaning(s.findings, p);
  }

  lemma RootedMeaning(s: State, f: Finding)
    ensures Rooted(s, f) <==>
      && f.scan < |s.scans| && f.firstSeenScan == RunStart(s, f.scan, f.fingerprint)
      && f.firstSeenScan < |s.scans| && f.firstSeenAt == s.scans[f.firstSeenScan].at && f.firstSeenScan <= f.scan
  {
    hide RunStart;
  }

  // ---- the counts ---------------------------------------------------------------------------------------------------

  function PrintsOf(s: State, scan: nat): set<string> {
    Prints(FindingsOf(s.findings, scan))
  }

  /** What a completed scan's row says. */
  ghost predicate Counted(s: State, c: nat)
    requires c < |s.scans|
  {
    var p := Previous(s.scans, c);
    && s.scans[c].alarms == |PrintsOf(s, c)|
    && s.scans[c].newAlarms == |OnlyNew(s, c)|
    && (p.None? ==> s.scans[c].newAlarms == 0 && s.scans[c].resolved == 0)
    && (p.Some? ==> p.value < c
                    && OnlyNew(s, c) == PrintsOf(s, c) - PrintsOf(s, p.value)
                    && (s.scans[c].resolved == |PrintsOf(s, p.value) - PrintsOf(s, c)| || s.scans[c].resolved == 0))
  }

  ghost predicate AllCounted(s: State) {
    forall c :: 0 <= c < |s.scans| && s.scans[c].status.Completed? ==> Counted(s, c)
  }

  /** Over any history, a completed scan counts its alarms, and as new exactly the rows the page shows under "only
      new": the fingerprints the previous completed scan does not show. */
  lemma {:induction false} CompletedScansCount(outcomes: seq<Outcome>)
    ensures AllCounted(AfterScans(outcomes))
  {
    hide AfterScan, Counted;
    if outcomes != [] {
      var n := |outcomes| - 1;
      var s, o := AfterScans(outcomes[..n]), outcomes[n];
      CompletedScansCount(outcomes[..n]);
      FirstSeenIsTheRunsStart(outcomes[..n]);
      FirstSeenIsTheRunsStart(outcomes);
      var after := AfterScan(s, o);
      ScanAt(s, o);
      LastRow(s, o);
      assert AfterScans(outcomes) == after;
      forall c | 0 <= c < |after.scans| && after.scans[c].status.Completed?
        ensures Counted(after, c)
      {
        if c < |s.scans| {
          assert s.scans[c] == after.scans[c];
          CountedStays(s, o, c);
        } else {
          NewIsCounted(s, o);
        }
      }
    }
  }

  lemma {:induction false} FindingsOfConcat(a: seq<Finding>, b: seq<Finding>, scan: nat)
    ensures FindingsOf(a + b, scan) == FindingsOf(a, scan) + FindingsOf(b, scan)
  {
    if b == [] {
      assert a + b == a;
    } else {
      var n := |b| - 1;
      assert (a + b)[..|a| + n] == a + b[..n];
      FindingsOfConcat(a, b[..n], scan);
    }
  }

  lemma {:induction false} AllOf(rows: seq<Finding>, scan: nat)
    requires forall f <- rows :: f.scan == scan
    ensures FindingsOf(rows, scan) == rows
    ensures forall other: nat :: other != scan ==> FindingsOf(rows, other) == []
  {
    if rows != [] {
      var n := |rows| - 1;
      AllOf(rows[..n], scan);
      assert rows == rows[..n] + [rows[n]];
    }
  }

  lemma {:induction false} NoneOf(rows: seq<Finding>, scan: nat)
    requires forall f <- rows :: f.scan < scan
    ensures FindingsOf(rows, scan) == []
  {
    if rows != [] {
      var n := |rows| - 1;
      NoneOf(rows[..n], scan);
      assert rows[n] in rows;
    }
  }

  lemma PrintsStay(s: State, o: Outcome, scan: nat)
    ensures scan < |s.scans| ==> PrintsOf(AfterScan(s, o), scan) == PrintsOf(s, scan)
    ensures scan == |s.scans| && (forall f <- s.findings :: f.scan < |s.scans|) ==>
        PrintsOf(AfterScan(s, o), scan) == Prints(RowsOf(s, o))
  {
    hide RowsOf, ScanRow;
    RowsAreNew(s, o);
    FindingsOfConcat(s.findings, RowsOf(s, o), scan);
    AllOf(RowsOf(s, o), |s.scans|);
    if scan == |s.scans| && forall f <- s.findings :: f.scan < |s.scans| {
      NoneOf(s.findings, scan);
    }
  }

  lemma OnlyNewStays(s: State, o: Outcome, c: nat)
    requires c < |s.scans|
    ensures OnlyNew(AfterScan(s, o), c) == OnlyNew(s, c)
  {
    hide RowsOf, ScanRow;
    RowsAreNew(s, o);
    PreviousStays(s.scans, [ScanRow(s, o)], c);
    var after := AfterScan(s, o);
    assert forall f :: f in after.findings && f.scan == c <==> f in s.findings && f.scan == c;
  }

  lemma CountedStays(s: State, o: Outcome, c: nat)
    requires c < |s.scans| && Counted(s, c)
    ensures c < |AfterScan(s, o).scans| && Counted(AfterScan(s, o), c)
  {
    hide RowsOf, ScanRow, PrintsOf, OnlyNew;
    ScanAt(s, o);
    PreviousStays(s.scans, [ScanRow(s, o)], c);
    PrintsStay(s, o, c);
    OnlyNewStays(s, o, c);
    var p := Previous(s.scans, c);
    if p.Some? {
      PrintsStay(s, o, p.value);
    }
  }

  lemma NewIsCounted(s: State, o: Outcome)
    requires forall f <- s.findings :: Rooted(s, f)
    requires forall f <- AfterScan(s, o).findings :: Rooted(AfterScan(s, o), f)
    requires Completes(o)
    ensures Counted(AfterScan(s, o), |s.scans|)
  {
    hide RowsOf, Rooted, PrintsOf, AfterScan, OnlyNew, Completes, Prints;
    var c, after := |s.scans|, AfterScan(s, o);
    ScanAt(s, o);
    assert after.scans[c] == ScanRow(s, o) by {
      LastRow(s, o);
    }
    PreviousMeaning(s.scans, c);
    PreviousAfter(s, o, c);
    forall f | f in s.findings
      ensures f.scan < |s.scans|
    {
      RootedMeaning(s, f);
    }
    PrintsStay(s, o, c);
    OnlyNewIs(s, o);
    var p := Previous(s.scans, c);
    if p.Some? {
      PrintsStay(s, o, p.value);
      PrintsOfIs(s, p.value);
    }
  }

  lemma PrintsOfIs(s: State, p: nat)
    ensures PrintsOf(s, p) == Prints(FindingsOf(s.findings, p))
  {
  }

  lemma LastRow(s: State, o: Outcome)
    ensures AfterScan(s, o).scans == s.scans + [ScanRow(s, o)]
  {
  }

  lemma PreviousAfter(s: State, o: Outcome, c: nat)
    requires c <= |s.scans|
    ensures c <= |AfterScan(s, o).scans|
    ensures Previous(AfterScan(s, o).scans, c) == Previous(s.scans, c)
  {
    hide ScanRow, RowsOf;
    PreviousStays(s.scans, [ScanRow(s, o)], c);
  }

  lemma OnlyNewIs(s: State, o: Outcome)
    requires forall f <- s.findings :: Rooted(s, f)
    ensures |s.scans| < |AfterScan(s, o).scans|
    ensures OnlyNew(AfterScan(s, o), |s.scans|) ==
            if Previous(s.scans, |s.scans|).None? then {} else Prints(RowsOf(s, o)) - Prints(PreviousRows(s))
  {
    hide RowsOf, Rooted, AfterScan;
    var c, after := |s.scans|, AfterScan(s, o);
    ScanAt(s, o);
    PreviousAfter(s, o, c);
    PreviousMeaning(s.scans, c);
    RowsAreNew(s, o);
    var p, rows := Previous(s.scans, c), RowsOf(s, o);
    if p.Some? {
      FindingsOfMeaning(s.findings, p.value);
      forall f | f in after.findings && f.scan == c
        ensures f in rows
      {
        AfterScanFindings(s, o, f);
        if f in s.findings {
          RootedMeaning(s, f);
        }
      }
      forall f | f in rows
        ensures f in after.findings
        ensures f.firstSeenScan == c <==> f.fingerprint !in Prints(PreviousRows(s))
      {
        AfterScanFindings(s, o, f);
        WasMeaning(PreviousRows(s), f.fingerprint);
        if f.fingerprint in Prints(PreviousRows(s)) {
          RootedMeaning(s, Was(PreviousRows(s), f.fingerprint).value);
        }
      }
    }
  }

  // ---- alarms balance -----------------------------------------------------------------------------------------------

  /** When no benchmark failed, a completed scan's alarms are the previous one's, plus the new ones, minus the
      resolved ones. */
  lemma AlarmsBalance(s: State, o: Outcome)
    requires Completes(o) && Previous(s.scans, |s.scans|).Some?
    ensures var p, row := Previous(s.scans, |s.scans|).value, ScanRow(s, o);
      && p < |s.scans|
      && row.alarms == |PrintsOf(s, p)| + row.newAlarms - |PrintsOf(s, p) - Prints(RowsOf(s, o))|
      && (FailedCount(o.benchmarks) == 0 ==> row.resolved == |PrintsOf(s, p) - Prints(RowsOf(s, o))|)
      && (FailedCount(o.benchmarks) != 0 ==> row.resolved == 0)
  {
    hide RowsOf, PrintsOf, Prints;
    PreviousMeaning(s.scans, |s.scans|);
    PrintsOfIs(s, Previous(s.scans, |s.scans|).value);
  }

  /** The alarms of the first and of the last completed scan, and what the scans between them added and resolved. */
  datatype Ledger = Ledger(first: int, last: int, added: int, resolved: int)

  function Books(scans: seq<Scan>): Option<Ledger> {
    if scans == [] then None
    else
      var before, c := Books(scans[..|scans| - 1]), scans[|scans| - 1];
      if !c.status.Completed? then before
      else if before.None? then Some(Ledger(c.alarms, c.alarms, 0, 0))
      else Some(Ledger(before.value.first, c.alarms, before.value.added + c.newAlarms, before.value.resolved +
          c.resolved))
  }

  ghost predicate NothingFailed(outcomes: seq<Outcome>) {
    forall o <- outcomes :: Completes(o) ==> FailedCount(o.benchmarks) == 0
  }

  /** Over a history without a failed benchmark in a completed scan, the first completed scan's alarms plus everything
      added minus everything resolved are the last one's. */
  lemma {:induction false} LedgerBalances(outcomes: seq<Outcome>)
    requires NothingFailed(outcomes)
    ensures var s := AfterScans(outcomes);
      var b := Books(s.scans);
      && (b.None? <==> Previous(s.scans, |s.scans|).None?)
      && (b.Some? ==> b.value.last == |PrintsOf(s, Previous(s.scans, |s.scans|).value)|
                      && b.value.last == b.value.first + b.value.added - b.value.resolved)
  {
    hide AfterScan, PrintsOf, ScanRow;
    if outcomes != [] {
      var n := |outcomes| - 1;
      var s, o := AfterScans(outcomes[..n]), outcomes[n];
      assert outcomes == outcomes[..n] + [o];
      LedgerBalances(outcomes[..n]);
      FirstSeenIsTheRunsStart(outcomes[..n]);
      LedgerStep(s, o);
    }
  }

  lemma LedgerStep(s: State, o: Outcome)
    requires forall f <- s.findings :: Rooted(s, f)
    requires Completes(o) ==> FailedCount(o.benchmarks) == 0
    requires var b := Books(s.scans);
      && (b.None? <==> Previous(s.scans, |s.scans|).None?)
      && (b.Some? ==> b.value.last == |PrintsOf(s, Previous(s.scans, |s.scans|).value)|
                      && b.value.last == b.value.first + b.value.added - b.value.resolved)
    ensures var after := AfterScan(s, o);
      var b := Books(after.scans);
      && (b.None? <==> Previous(after.scans, |after.scans|).None?)
      && (b.Some? ==> b.value.last == |PrintsOf(after, Previous(after.scans, |after.scans|).value)|
                      && b.value.last == b.value.first + b.value.added - b.value.resolved)
  {
    hide Rooted, PrintsOf, AfterScan, RowsOf, Prints;
    var after, c, row := AfterScan(s, o), |s.scans|, ScanRow(s, o);
    LastRow(s, o);
    assert after.scans[..c] == s.scans && after.scans[c] == row;
    PreviousAfter(s, o, c);
    forall f | f in s.findings
      ensures f.scan < |s.scans|
    {
      RootedMeaning(s, f);
    }
    PrintsStay(s, o, c);
    PreviousMeaning(s.scans, c);
    if Completes(o) {
      if Previous(s.scans, c).Some? {
        AlarmsBalance(s, o);
      }
    } else if Previous(s.scans, c).Some? {
      PrintsStay(s, o, Previous(s.scans, c).value);
    }
  }
}
