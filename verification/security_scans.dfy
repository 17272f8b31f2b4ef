/** The security scans, `src/compliance.ts`: each scan is compared with the last completed one before it. */
module SecurityScans {
  import opened Options

  datatype ParsedFinding = ParsedFinding(fingerprint: string, status: string)

  /** A benchmark that failed, or what it found. */
  datatype BenchmarkRun = Failed | Ran(findings: seq<ParsedFinding>)

  datatype ScanStatus = Completed | Broken

  /** A scan's row; its place in the table is its id. */
  datatype Scan = Scan(status: ScanStatus, at: int, alarms: int, newAlarms: int, resolved: int)

  datatype Finding = Finding(scan: nat, fingerprint: string, firstSeenScan: nat, firstSeenAt: int)

  datatype State = State(scans: seq<Scan>, findings: seq<Finding>)

  /** What one scan meets: whether the connection works, what the enabled benchmarks return, and after how many of
      them an exception or a restart ends it, if one does. */
  datatype Outcome = Outcome(connected: bool, at: int, benchmarks: seq<BenchmarkRun>, cut: Option<nat>)

  // ---- one scan -----------------------------------------------------------------------------------------------------

  /** The last completed scan before this one. */
  function Previous(scans: seq<Scan>, scan: nat): Option<nat>
    requires scan <= |scans|
  {
    if scan == 0 then None
    else if scans[scan - 1].status.Completed? then Some(scan - 1)
    else Previous(scans, scan - 1)
  }

  function FindingsOf(findings: seq<Finding>, scan: nat): seq<Finding> {
    if findings == [] then []
    else
      FindingsOf(findings[..|findings| - 1], scan)
      + if findings[|findings| - 1].scan == scan then [findings[|findings| - 1]] else []
  }

  function Prints(findings: seq<Finding>): set<string> {
    set f <- findings :: f.fingerprint
  }

  /** The earlier row of a fingerprint: the last one read. */
  function Was(previous: seq<Finding>, fingerprint: string): Option<Finding> {
    if previous == [] then None
    else if previous[|previous| - 1].fingerprint == fingerprint then Some(previous[|previous| - 1])
    else Was(previous[..|previous| - 1], fingerprint)
  }

  function NewFinding(scan: nat, at: int, previous: seq<Finding>, fingerprint: string): Finding {
    var was := Was(previous, fingerprint);
    if was.Some? then Finding(scan, fingerprint, was.value.firstSeenScan, was.value.firstSeenAt)
    else Finding(scan, fingerprint, scan, at)
  }

  /** The rows the alarms of one benchmark add, each fingerprint once. */
  function WithAlarms(rows: seq<Finding>, scan: nat, at: int, previous: seq<Finding>,
                      found: seq<ParsedFinding>): seq<Finding> {
    if found == [] then rows
    else
      var before, f := WithAlarms(rows, scan, at, previous, found[..|found| - 1]), found[|found| - 1];
      if f.status != "alarm" || f.fingerprint in Prints(before) then before
      else before + [NewFinding(scan, at, previous, f.fingerprint)]
  }

  function ScanRows(scan: nat, at: int, previous: seq<Finding>, benchmarks: seq<BenchmarkRun>): seq<Finding> {
    if benchmarks == [] then []
    else
      var before, b := ScanRows(scan, at, previous, benchmarks[..|benchmarks| - 1]), benchmarks[|benchmarks| - 1];
      if b.Failed? then before else WithAlarms(before, scan, at, previous, b.findings)
  }

  function FailedCount(benchmarks: seq<BenchmarkRun>): nat {
    if benchmarks == [] then 0
    else FailedCount(benchmarks[..|benchmarks| - 1]) + if benchmarks[|benchmarks| - 1].Failed? then 1 else 0
  }

  /** The benchmarks a scan gets through. */
  function Reached(o: Outcome): seq<BenchmarkRun> {
    if o.cut.Some? && o.cut.value < |o.benchmarks| then o.benchmarks[..o.cut.value] else o.benchmarks
  }

  function PreviousRows(s: State): seq<Finding> {
    var p := Previous(s.scans, |s.scans|);
    if p.None? then [] else FindingsOf(s.findings, p.value)
  }

  function RowsOf(s: State, o: Outcome): seq<Finding> {
    if o.connected then ScanRows(|s.scans|, o.at, PreviousRows(s), Reached(o)) else []
  }

  predicate Completes(o: Outcome) {
    o.connected && o.cut.None? && FailedCount(o.benchmarks) != |o.benchmarks|
  }

  function ScanRow(s: State, o: Outcome): Scan {
    if !Completes(o) then Scan(Broken, o.at, 0, 0, 0)
    else
      var now, before := Prints(RowsOf(s, o)), Prints(PreviousRows(s));
      var first := Previous(s.scans, |s.scans|).None?;
      Scan(Completed, o.at, |now|, if first then 0 else |now - before|,
           if first || FailedCount(o.benchmarks) != 0 then 0 else |before - now|)
  }

  function AfterScan(s: State, o: Outcome): State {
    State(s.scans + [ScanRow(s, o)], s.findings + RowsOf(s, o))
  }

  function AfterScans(outcomes: seq<Outcome>): State {
    if outcomes == [] then State([], []) else AfterScan(AfterScans(outcomes[..|outcomes| - 1]),
        outcomes[|outcomes| - 1])
  }

  // ---- reading ------------------------------------------------------------------------------------------------------

  /** The rows the page shows under "only new". */
  function OnlyNew(s: State, scan: nat): set<string>
    requires scan < |s.scans|
  {
    if Previous(s.scans, scan).None? then {}
    else set f <- s.findings | f.scan == scan && f.firstSeenScan == scan :: f.fingerprint
  }

  predicate InScan(s: State, scan: nat, fingerprint: string) {
    exists f <- s.findings :: f.scan == scan && f.fingerprint == fingerprint
  }

  // ---- what the functions mean --------------------------------------------------------------------------------------

  lemma {:induction false} PreviousMeaning(scans: seq<Scan>, scan: nat)
    requires scan <= |scans|
    ensures var p := Previous(scans, scan);
      if p.None? then forall k :: 0 <= k < scan ==> !scans[k].status.Completed?
      else p.value < scan && scans[p.value].status.Completed?
           && forall k :: p.value < k < scan ==> !scans[k].status.Completed?
  {
    if scan > 0 && !scans[scan - 1].status.Completed? {
      PreviousMeaning(scans, scan - 1);
    }
  }

  lemma {:induction false} PreviousStays(scans: seq<Scan>, more: seq<Scan>, scan: nat)
    requires scan <= |scans|
    ensures Previous(scans + more, scan) == Previous(scans, scan)
  {
    if scan > 0 && !scans[scan - 1].status.Completed? {
      PreviousStays(scans, more, scan - 1);
    }
  }

  lemma {:induction false} FindingsOfMeaning(findings: seq<Finding>, scan: nat)
    ensures forall f :: f in FindingsOf(findings, scan) <==> f in findings && f.scan == scan
  {
    if findings != [] {
      var n := |findings| - 1;
      FindingsOfMeaning(findings[..n], scan);
      assert findings == findings[..n] + [findings[n]];
    }
  }

  lemma {:induction false} WasMeaning(previous: seq<Finding>, fingerprint: string)
    ensures Was(previous, fingerprint).Some? <==> fingerprint in Prints(previous)
    ensures Was(previous, fingerprint).Some? ==>
      Was(previous, fingerprint).value in previous && Was(previous, fingerprint).value.fingerprint == fingerprint
  {
    if previous != [] {
      var n := |previous| - 1;
      WasMeaning(previous[..n], fingerprint);
      assert previous == previous[..n] + [previous[n]];
    }
  }

  ghost predicate RowsFor(rows: seq<Finding>, scan: nat, at: int, previous: seq<Finding>) {
    && (forall i, j :: 0 <= i < j < |rows| ==> rows[i].fingerprint != rows[j].fingerprint)
    && forall f <- rows :: f == NewFinding(scan, at, previous, f.fingerprint)
  }

  lemma {:induction false} WithAlarmsMeaning(rows: seq<Finding>, scan: nat, at: int, previous: seq<Finding>,
                                             found: seq<ParsedFinding>)
    requires RowsFor(rows, scan, at, previous)
    ensures RowsFor(WithAlarms(rows, scan, at, previous, found), scan, at, previous)
  {
    hide NewFinding;
    if found != [] {
      var n := |found| - 1;
      WithAlarmsMeaning(rows, scan, at, previous, found[..n]);
      NewFindingPrint(scan, at, previous, found[n].fingerprint);
      var before := WithAlarms(rows, scan, at, previous, found[..n]);
      assert forall i :: 0 <= i < |before| ==> before[i].fingerprint in Prints(before);
    }
  }

  lemma NewFindingPrint(scan: nat, at: int, previous: seq<Finding>, fingerprint: string)
    ensures NewFinding(scan, at, previous, fingerprint).fingerprint == fingerprint
    ensures NewFinding(scan, at, previous, fingerprint).scan == scan
  {
  }

  /** A scan's rows: each fingerprint once, each with the first scan its earlier row carried, or this one. */
  lemma {:induction false} ScanRowsMeaning(scan: nat, at: int, previous: seq<Finding>, benchmarks: seq<BenchmarkRun>)
    ensures RowsFor(ScanRows(scan, at, previous, benchmarks), scan, at, previous)
  {
    if benchmarks != [] {
      var n := |benchmarks| - 1;
      ScanRowsMeaning(scan, at, previous, benchmarks[..n]);
      if benchmarks[n].Ran? {
        WithAlarmsMeaning(ScanRows(scan, at, previous, benchmarks[..n]), scan, at, previous, benchmarks[n].findings);
      }
    }
  }

  /** The alarms of a scan are exactly the fingerprints some benchmark that ran raised an alarm for. */
  lemma {:induction false} ScanRowsHold(scan: nat, at: int, previous: seq<Finding>, benchmarks: seq<BenchmarkRun>,
                                        fp: string)
    ensures fp in Prints(ScanRows(scan, at, previous, benchmarks))
            <==> exists b <- benchmarks :: b.Ran? && exists f <- b.findings ::
                f.status == "alarm" && f.fingerprint == fp
  {
    if benchmarks != [] {
      var n := |benchmarks| - 1;
      assert benchmarks == benchmarks[..n] + [benchmarks[n]];
      ScanRowsHold(scan, at, previous, benchmarks[..n], fp);
      if benchmarks[n].Ran? {
        WithAlarmsHold(ScanRows(scan, at, previous, benchmarks[..n]), scan, at, previous, benchmarks[n].findings, fp);
      }
    }
  }

  lemma {:induction false} WithAlarmsHold(rows: seq<Finding>, scan: nat, at: int, previous: seq<Finding>,
                                        found: seq<ParsedFinding>, fp: string)
    ensures fp in Prints(WithAlarms(rows, scan, at, previous, found))
            <==> fp in Prints(rows) || exists f <- found :: f.status == "alarm" && f.fingerprint == fp
  {
    hide NewFinding;
    if found != [] {
      var n := |found| - 1;
      assert found == found[..n] + [found[n]];
      WithAlarmsHold(rows, scan, at, previous, found[..n], fp);
      NewFindingPrint(scan, at, previous, found[n].fingerprint);
    }
  }
}
