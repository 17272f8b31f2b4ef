/** Which alarms become recommendations, and which of those are resolved again, `src/compliance.ts`. */
module SecurityRecommendations {
  import opened Options
  import opened Recommendations
  import opened RecommendationHistory

  datatype Severity = Critical | High | Medium | Low | Unrated
  datatype Curation = Group | Machine | Always

  /** An alarm: its control's short name and item, and the texts its recommendation would carry. */
  datatype Alarm = Alarm(control: string, item: string, severity: Severity, resource: string,
                         resourceName: Option<string>, account: Option<string>,
                         title: string, rationale: string, evidence: string)

  const NOISE := {"foundational_security_cloudfront_1"}

  function Curated(control: string): Option<Curation> {
    if control == "foundational_security_ec2_18" || control == "foundational_security_ec2_19" then Some(Group)
    else if control == "foundational_security_ec2_8" then Some(Machine)
    else if control in {"foundational_security_eks_1", "foundational_security_iam_1",
        "foundational_security_cloudtrail_1",
                        "foundational_security_guardduty_1", "foundational_security_sns_4"} then Some(Always)
    else None
  }

  predicate CriticalAlarm(a: Alarm) {
    a.severity.Critical? && a.control !in NOISE
  }

  /** `exposed` says of a resource whether it is reachable. */
  predicate Warrants(a: Alarm, exposed: string -> bool) {
    var curated := Curated(a.control);
    CriticalAlarm(a) || curated == Some(Always) || (curated.Some? && exposed(a.resource))
  }

  function SecurityRec(a: Alarm, exposed: string -> bool): Rec {
    var asked := Curated(a.control) == Some(Group) || Curated(a.control) == Some(Machine);
    Rec("sec_" + a.item, a.resource, a.resourceName, "security_fix", a.account, a.title, None, "approve",
        if CriticalAlarm(a) || (asked && exposed(a.resource)) then 0.9 else 0.7, a.rationale, a.evidence)
  }

  /** Which alarms warrant a recommendation, by their controls' names: critical ones but for the one that is noise,
      the ones always worth one, and open security groups and machines without IMDSv2 while what they are on is
      exposed. */
  lemma WarrantsByName(a: Alarm, exposed: string -> bool)
    ensures Warrants(a, exposed) <==>
      || (a.severity == Critical && a.control != "foundational_security_cloudfront_1")
      || a.control in {"foundational_security_eks_1", "foundational_security_iam_1",
                       "foundational_security_cloudtrail_1", "foundational_security_guardduty_1",
                       "foundational_security_sns_4"}
      || (a.control in {"foundational_security_ec2_18", "foundational_security_ec2_19", "foundational_security_ec2_8"}
          && exposed(a.resource))
  {
  }

  /** What the recommendation of an alarm says: one per control and resource, to be approved; the surer, the more
      urgent it is. */
  lemma SecurityRecSays(a: Alarm, exposed: string -> bool)
    ensures var r := SecurityRec(a, exposed);
      && r.rule == "sec_" + a.item && r.resource == a.resource && r.resourceName == a.resourceName
      && r.account == a.account
      && r.actionType == "security_fix" && r.tier == "approve" && r.title == a.title && r.saving == None
      && r.rationale == a.rationale && r.evidence == a.evidence
      && r.confidence in {0.7, 0.9}
      && (r.confidence == 0.9 <==>
            || (a.severity == Critical && a.control != "foundational_security_cloudfront_1")
            || (a.control in {"foundational_security_ec2_18", "foundational_security_ec2_19",
                              "foundational_security_ec2_8"}
                && exposed(a.resource)))
  {
  }

  function Warranted(alarms: seq<Alarm>, exposed: string -> bool): seq<Rec> {
    if alarms == [] then []
    else
      var before, a := Warranted(alarms[..|alarms| - 1], exposed), alarms[|alarms| - 1];
      var r := SecurityRec(a, exposed);
      if !Warrants(a, exposed) || r.Fingerprint() in Fingerprints(before) then before else before + [r]
  }

  method ComplianceRecommendations(alarms: seq<Alarm>, exposed: string -> bool) returns (out: seq<Rec>)
    ensures out == Warranted(alarms, exposed)
  {
    hide SecurityRec, Rec.Fingerprint;
    out := [];
    for k := 0 to |alarms|
      invariant out == Warranted(alarms[..k], exposed)
    {
      assert alarms[..k + 1][..k] == alarms[..k];
      var a := alarms[k];
      var curated := Curated(a.control);
      if !CriticalAlarm(a) && curated.None? {
        continue;
      }
      if curated == Some(Group) || curated == Some(Machine) {
        if !CriticalAlarm(a) && !exposed(a.resource) {
          continue;
        }
      }
      var r := SecurityRec(a, exposed);
      if r.Fingerprint() in Fingerprints(out) {
        continue;
      }
      out := out + [r];
    }
    assert alarms[..|alarms|] == alarms;
  }

  predicate WarrantedBy(a: Alarm, exposed: string -> bool, fp: string) {
    Warrants(a, exposed) && SecurityRec(a, exposed).Fingerprint() == fp
  }

  /** A recommendation is warranted exactly when some alarm warrants it. */
  lemma {:induction false} WarrantedIff(alarms: seq<Alarm>, exposed: string -> bool, fp: string)
    ensures fp in Fingerprints(Warranted(alarms, exposed)) <==> exists a <- alarms :: WarrantedBy(a, exposed, fp)
  {
    hide SecurityRec, Rec.Fingerprint, Warrants;
    if alarms != [] {
      var n := |alarms| - 1;
      WarrantedIff(alarms[..n], exposed, fp);
      assert alarms == alarms[..n] + [alarms[n]];
      var before, r := Warranted(alarms[..n], exposed), SecurityRec(alarms[n], exposed);
      assert Fingerprints(before + [r]) == Fingerprints(before) + {r.Fingerprint()} by {
        assert forall x :: x in before + [r] <==> x in before || x == r;
      }
      assert alarms[n] in alarms && forall a :: a in alarms <==> a in alarms[..n] || a == alarms[n];
      assert WarrantedBy(alarms[n], exposed, fp) ==> exists a <- alarms :: WarrantedBy(a, exposed, fp);
      if r.Fingerprint() in Fingerprints(before) && r.Fingerprint() == fp {
        assert exists a <- alarms[..n] :: WarrantedBy(a, exposed, fp);
      }
    }
  }

  ghost predicate Once(out: seq<Rec>) {
    forall i, j :: 0 <= i < j < |out| ==> out[i].Fingerprint() != out[j].Fingerprint()
  }

  /** Each recommendation is warranted once, as the first alarm that warrants it says it. */
  lemma {:induction false} WarrantedOnce(alarms: seq<Alarm>, exposed: string -> bool)
    ensures Once(Warranted(alarms, exposed))
    ensures forall r <- Warranted(alarms, exposed) :: FirstOf(alarms, exposed, r)
  {
    hide SecurityRec, Rec.Fingerprint, Warrants, FirstOf;
    if alarms != [] {
      var n := |alarms| - 1;
      WarrantedOnce(alarms[..n], exposed);
      var before, r := Warranted(alarms[..n], exposed), SecurityRec(alarms[n], exposed);
      forall x | x in before
        ensures FirstOf(alarms, exposed, x)
      {
        FirstStays(alarms, exposed, x);
      }
      if Warrants(alarms[n], exposed) && r.Fingerprint() !in Fingerprints(before) {
        IsFirst(alarms, exposed);
      }
    }
  }

  lemma IsFirst(alarms: seq<Alarm>, exposed: string -> bool)
    requires alarms != [] && Warrants(alarms[|alarms| - 1], exposed)
    requires SecurityRec(alarms[|alarms| - 1], exposed).Fingerprint() !in Fingerprints(Warranted(alarms[..|alarms| - 1],
        exposed))
    ensures FirstOf(alarms, exposed, SecurityRec(alarms[|alarms| - 1], exposed))
  {
    hide SecurityRec, Rec.Fingerprint, Warrants, Warranted;
    var n := |alarms| - 1;
    var r := SecurityRec(alarms[n], exposed);
    WarrantedIff(alarms[..n], exposed, r.Fingerprint());
    forall j | 0 <= j < n && Warrants(alarms[j], exposed)
      ensures SecurityRec(alarms[j], exposed).Fingerprint() != r.Fingerprint()
    {
      assert alarms[..n][j] == alarms[j] && alarms[j] in alarms[..n];
      assert !WarrantedBy(alarms[j], exposed, r.Fingerprint());
    }
    assert FirstAt(alarms, exposed, r, n);
  }

  ghost predicate FirstAt(alarms: seq<Alarm>, exposed: string -> bool, r: Rec, k: nat) {
    && k < |alarms| && Warrants(alarms[k], exposed) && SecurityRec(alarms[k], exposed) == r
    && forall j :: 0 <= j < k && Warrants(alarms[j], exposed) ==>
        SecurityRec(alarms[j], exposed).Fingerprint() != r.Fingerprint()
  }

  ghost predicate FirstOf(alarms: seq<Alarm>, exposed: string -> bool, r: Rec) {
    exists k: nat :: FirstAt(alarms, exposed, r, k)
  }

  lemma FirstStays(alarms: seq<Alarm>, exposed: string -> bool, r: Rec)
    requires alarms != []
    requires FirstOf(alarms[..|alarms| - 1], exposed, r)
    ensures FirstOf(alarms, exposed, r)
  {
    hide SecurityRec, Rec.Fingerprint, Warrants;
    var k: nat :| FirstAt(alarms[..|alarms| - 1], exposed, r, k);
    assert forall j :: 0 <= j <= k ==> alarms[..|alarms| - 1][j] == alarms[j];
    assert FirstAt(alarms, exposed, r, k);
  }

  // ---- resolving what vanished --------------------------------------------------------------------------------------

  predicate Security(row: Row) {
    PrefixAnyCase("sec_", row.origin.rule)
  }

  predicate Vanished(row: Row, seen: set<string>) {
    row.status.Open? && Security(row) && row.Fingerprint() !in seen
  }

  function WithoutVanished(rows: Rows, seen: set<string>): Rows {
    seq(|rows|, i requires 0 <= i < |rows| => if Vanished(rows[i], seen) then Resolve(rows[i]) else rows[i])
  }

  method ResolveVanished(table: RecommendationTable, seen: set<string>) returns (gone: seq<nat>)
    requires table.Valid()
    modifies table`rows
    ensures table.Valid() && table.rows == WithoutVanished(old(table.rows), seen)
    ensures forall i: nat :: i in gone <==> i < |table.rows| && Vanished(old(table.rows)[i], seen)
  {
    hide Row.Fingerprint, Security;
    VanishedKeeps(table.rows, seen);
    gone := [];
    for k := 0 to |table.rows|
      modifies table`rows
      invariant |table.rows| == |old(table.rows)|
      invariant forall i :: 0 <= i < k ==> table.rows[i] == WithoutVanished(old(table.rows), seen)[i]
      invariant forall i :: k <= i < |table.rows| ==> table.rows[i] == old(table.rows)[i]
      invariant forall i: nat :: i in gone <==> i < k && Vanished(old(table.rows)[i], seen)
    {
      if Vanished(table.rows[k], seen) {
        gone := gone + [k];
        table.rows := table.rows[k := Resolve(table.rows[k])];
      }
    }
  }

  lemma VanishedKeeps(rows: Rows, seen: set<string>)
    requires Unique(rows)
    ensures Unique(WithoutVanished(rows, seen))
  {
    hide Row.Fingerprint, Security;
    var after := WithoutVanished(rows, seen);
    forall i | 0 <= i < |rows|
      ensures after[i].Fingerprint() == rows[i].Fingerprint()
    {
      ResolveKeepsFingerprint(rows[i]);
    }
  }

  /** What the recommendations are after a completed scan: upserted, and the vanished ones resolved when no benchmark
      failed. */
  function AfterSecurityScan(rows: Rows, alarms: seq<Alarm>, exposed: string -> bool, provider: string,
                             failed: nat): Rows {
    var recs := Warranted(alarms, exposed);
    var upserted := AfterBatch(rows, Batch(recs, Context(0, Rules, None, provider), false));
    if failed != 0 then upserted else WithoutVanished(upserted, Fingerprints(recs))
  }

  /** A rule of the security family, letter by letter. */
  predicate IsSecurityRule(rule: string) {
    && |rule| >= 4 && rule[0] in {'s', 'S'} && rule[1] in {'e', 'E'} && rule[2] in {'c', 'C'} && rule[3] == '_'
  }

  lemma SecurityIff(row: Row)
    ensures Security(row) <==> IsSecurityRule(row.origin.rule)
  {
    PrefixIs("sec_", row.origin.rule);
  }

  /** The rows the scan's recommendations refresh are of the security family. */
  lemma WarrantedIsSecurity(row: Row, alarms: seq<Alarm>, exposed: string -> bool)
    requires row.Fingerprint() in Fingerprints(Warranted(alarms, exposed))
    ensures IsSecurityRule(row.origin.rule)
  {
    hide Warrants, SecurityRec, Curated;
    WarrantedIff(alarms, exposed, row.Fingerprint());
    var a :| a in alarms && WarrantedBy(a, exposed, row.Fingerprint());
    RuleOf(a, exposed);
    var f, rule := row.Fingerprint(), row.origin.rule;
    assert f == "sec_" + (a.item + ":" + a.resource);
    assert f[0] == 's' && f[1] == 'e' && f[2] == 'c' && f[3] == '_' && f[|rule|] == ':';
    assert forall k :: 0 <= k < |rule| ==> f[k] == rule[k];
  }

  lemma RuleOf(a: Alarm, exposed: string -> bool)
    ensures SecurityRec(a, exposed).rule == "sec_" + a.item && SecurityRec(a, exposed).resource == a.resource
  {
  }

  /** Row by row: of the rows the scan does not warrant, exactly the open ones of the security family become resolved,
      and only when no benchmark failed; all others are as they were. */
  lemma OnlyVanishedResolve(rows: Rows, alarms: seq<Alarm>, exposed: string -> bool, provider: string, failed: nat,
                            i: nat)
    requires Unique(rows) && i < |rows| && forall a <- alarms :: !WarrantedBy(a, exposed, rows[i].Fingerprint())
    ensures var after := AfterSecurityScan(rows, alarms, exposed, provider, failed);
      && i < |after|
      && after[i] == (if failed == 0 && rows[i].status == Open && IsSecurityRule(rows[i].origin.rule)
                      then rows[i].(status := Resolved) else rows[i])
  {
    hide Row.Fingerprint, Rec.Fingerprint, Security, Warrants, AfterBatch, Fingerprints, IsSecurityRule, WarrantedBy;
    var recs := Warranted(alarms, exposed);
    WarrantedIff(alarms, exposed, rows[i].Fingerprint());
    OutsideTheBatch(rows, Batch(recs, Context(0, Rules, None, provider), false), i);
    SecurityIff(rows[i]);
  }

  /** After a completed scan, every warranted recommendation is in the table and not resolved; when no benchmark
      failed, every open security recommendation is warranted by one of its alarms; rows decided on and the rows of
      other rules are as they were, either way. */
  lemma SecurityReconciled(rows: Rows, alarms: seq<Alarm>, exposed: string -> bool, provider: string, failed: nat)
    requires Unique(rows)
    ensures var after := AfterSecurityScan(rows, alarms, exposed, provider, failed);
      && Unique(after) && |rows| <= |after|
      && (forall a <- alarms :: Warrants(a, exposed) ==>
            exists row :: row in after && row.Fingerprint() == SecurityRec(a, exposed).Fingerprint() &&
                !row.status.Resolved?)
      && (failed == 0 ==> forall row <- after :: row.status.Open? && IsSecurityRule(row.origin.rule) ==>
            exists a <- alarms :: WarrantedBy(a, exposed, row.Fingerprint()))
      && (forall i :: 0 <= i < |rows| && !IsSecurityRule(rows[i].origin.rule) ==> after[i] == rows[i])
      && (forall i :: 0 <= i < |rows| && rows[i].status in {Approved, Pending, Rejected, Done} ==> after[i] == rows[i])
  {
    hide Row.Fingerprint, Rec.Fingerprint, Security, Warrants, SecurityRec, AfterBatch, Fingerprints, IsSecurityRule;
    var recs := Warranted(alarms, exposed);
    var b := Batch(recs, Context(0, Rules, None, provider), false);
    var upserted, after := AfterBatch(rows, b), AfterSecurityScan(rows, alarms, exposed, provider, failed);
    BatchKeeps(rows, b);
    BatchCovers(rows, b);
    VanishedKeeps(upserted, Fingerprints(recs));
    forall i | 0 <= i < |upserted|
      ensures after[i].Fingerprint() == upserted[i].Fingerprint()
      ensures after[i] == if failed == 0 && Vanished(upserted[i], Fingerprints(recs)) then Resolve(upserted[i])
          else upserted[i]
      ensures upserted[i].Fingerprint() in Fingerprints(recs) ==> after[i] == upserted[i]
    {
      ResolveKeepsFingerprint(upserted[i]);
    }
    forall i | 0 <= i < |rows| && rows[i].status in {Approved, Pending, Rejected, Done}
      ensures after[i] == rows[i]
    {
      assert upserted[i] == rows[i];
    }
    forall a | a in alarms && Warrants(a, exposed)
      ensures exists row ::
        row in after && row.Fingerprint() == SecurityRec(a, exposed).Fingerprint() && !row.status.Resolved?
    {
      var fp := SecurityRec(a, exposed).Fingerprint();
      PrintOf(recs, fp);
      WarrantedIff(alarms, exposed, fp);
      assert WarrantedBy(a, exposed, fp);
      var r :| r in recs && r.Fingerprint() == fp;
      var row :| row in upserted && row.Fingerprint() == r.Fingerprint();
      var i :| 0 <= i < |upserted| && upserted[i] == row;
      assert after[i] in after;
    }
    forall i: nat | i < |rows| && !IsSecurityRule(rows[i].origin.rule)
      ensures after[i] == rows[i]
    {
      OtherRowStays(rows, alarms, exposed, provider, failed, i);
    }
    forall row | row in after && row.status.Open? && IsSecurityRule(row.origin.rule) && failed == 0
      ensures exists a <- alarms :: WarrantedBy(a, exposed, row.Fingerprint())
    {
      SecurityIff(row);
      var i :| 0 <= i < |after| && after[i] == row;
      WarrantedIff(alarms, exposed, row.Fingerprint());
      assert row == upserted[i] && row.Fingerprint() in Fingerprints(recs);
    }
  }

  lemma OtherRowStays(rows: Rows, alarms: seq<Alarm>, exposed: string -> bool, provider: string, failed: nat, i: nat)
    requires Unique(rows) && i < |rows| && !IsSecurityRule(rows[i].origin.rule)
    ensures i < |AfterSecurityScan(rows, alarms, exposed, provider, failed)|
    ensures AfterSecurityScan(rows, alarms, exposed, provider, failed)[i] == rows[i]
  {
    hide Row.Fingerprint, Rec.Fingerprint, AfterSecurityScan, IsSecurityRule, WarrantedBy, Fingerprints;
    WarrantedIff(alarms, exposed, rows[i].Fingerprint());
    if rows[i].Fingerprint() in Fingerprints(Warranted(alarms, exposed)) {
      WarrantedIsSecurity(rows[i], alarms, exposed);
    }
    OnlyVanishedResolve(rows, alarms, exposed, provider, failed, i);
  }

  lemma PrintOf(recs: seq<Rec>, fp: string)
    ensures fp in Fingerprints(recs) <==> exists r <- recs :: r.Fingerprint() == fp
  {
  }
}
