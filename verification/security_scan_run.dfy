/** `executeScan` of `src/compliance.ts` as it runs over the tables. */
module SecurityScanRun {
  import opened Options
  import opened SecurityScans

  class SecurityLog {
    var scans: seq<Scan>
    var findings: seq<Finding>

    function Tables(): State
      reads this
    {
      State(scans, findings)
    }

    constructor ()
      ensures Tables() == AfterScans([])
    {
      scans, findings := [], [];
    }

    /** The alarms of one benchmark become rows, each fingerprint once a scan. */
    method Insert(scan: nat, at: int, previous: seq<Finding>, found: seq<ParsedFinding>, seen: set<string>,
                  ghost rows: seq<Finding>)
      returns (after: set<string>)
      requires seen == Prints(rows)
      modifies this`findings
      ensures rows <= WithAlarms(rows, scan, at, previous, found)
      ensures findings == old(findings) + (WithAlarms(rows, scan, at, previous, found)[|rows|..])
      ensures after == Prints(WithAlarms(rows, scan, at, previous, found))
    {
      hide NewFinding;
      after := seen;
      for k := 0 to |found|
        modifies this`findings
        invariant rows <= WithAlarms(rows, scan, at, previous, found[..k])
        invariant findings == old(findings) + (WithAlarms(rows, scan, at, previous, found[..k])[|rows|..])
        invariant after == Prints(WithAlarms(rows, scan, at, previous, found[..k]))
      {
        assert found[..k + 1][..k] == found[..k];
        ghost var before := WithAlarms(rows, scan, at, previous, found[..k]);
        var f := found[k];
        NewFindingPrint(scan, at, previous, f.fingerprint);
        if f.status == "alarm" && f.fingerprint !in after {
          after := after + {f.fingerprint};
          findings := findings + [NewFinding(scan, at, previous, f.fingerprint)];
          assert (before + [NewFinding(scan, at, previous, f.fingerprint)])[|rows|..] ==
                 before[|rows|..] + [NewFinding(scan, at, previous, f.fingerprint)];
        }
      }
      assert found[..|found|] == found;
    }

    /** One scan: its row and its findings, and nothing of the earlier ones. */
    method Execute(o: Outcome)
      modifies this
      ensures Tables() == AfterScan(old(Tables()), o)
    {
      hide WithAlarms, Prints, NewFinding;
      ghost var s := Tables();
      var scan := |scans|;
      if !o.connected {
        scans := scans + [Scan(Broken, o.at, 0, 0, 0)];
        assert findings + [] == findings;
        return;
      }
      var p := Previous(scans, scan);
      var previous := if p.None? then [] else FindingsOf(findings, p.value);
      var reached := Reached(o);
      var seen: set<string> := {};
      var failed: nat := 0;
      NoPrints();
      for k := 0 to |reached|
        modifies this`findings
        invariant findings == s.findings + ScanRows(scan, o.at, previous, reached[..k])
        invariant seen == Prints(ScanRows(scan, o.at, previous, reached[..k]))
        invariant failed == FailedCount(reached[..k])
      {
        assert reached[..k + 1][..k] == reached[..k];
        if reached[k].Failed? {
          failed := failed + 1;
        } else {
          ghost var rows := ScanRows(scan, o.at, previous, reached[..k]);
          seen := Insert(scan, o.at, previous, reached[k].findings, seen, rows);
          Appended(s.findings, rows, WithAlarms(rows, scan, o.at, previous, reached[k].findings));
        }
      }
      assert reached[..|reached|] == reached;
      if o.cut.Some? || failed == |o.benchmarks| {
        scans := scans + [Scan(Broken, o.at, 0, 0, 0)];
        return;
      }
      var before := Prints(previous);
      scans := scans + [Scan(Completed, o.at, |seen|, if p.None? then 0 else |seen - before|,
                             if p.None? || failed != 0 then 0 else |before - seen|)];
    }
  }

  lemma NoPrints()
    ensures Prints([]) == {}
  {
  }

  lemma Appended(a: seq<Finding>, rows: seq<Finding>, more: seq<Finding>)
    requires rows <= more
    ensures a + rows + more[|rows|..] == a + more
  {
  }
}
