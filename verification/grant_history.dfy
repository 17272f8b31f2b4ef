/** `setGrant` of `src/autopark_grant.ts` as a step of the policy's document, over any history of calls on instances
    of the role's account, whatever their DNS grants. */
module GrantHistory {
  import opened Options
  import opened Strings
  import opened GrantDocument
  import opened GrantRoundTrip
  import opened GrantSize
  import opened GrantPolicy
  import opened GrantShrink
  import opened GrantDrift

  // ---- one call -----------------------------------------------------------------------------------------------------

  function ArnsIn(doc: Option<Document>): seq<string> {
    if doc.None? then [] else GrantedArnsOf(doc.value)
  }

  function DnsIn(doc: Option<Document>): DnsGrants {
    if doc.None? then map[] else DnsRead(doc.value)
  }

  /** The document in force after a call; there is none while the policy does not exist. */
  function Switched(doc: Option<Document>, c: Call): Option<Document> {
    var arns, dns := ArnsIn(doc), DnsIn(doc);
    var after := WithArn(arns, Arn(c.instance), c.on);
    var dnsAfter := WithDns(dns, LastSegment(Arn(c.instance), '/'), if c.on then c.dns else None);
    var next := DocumentOf(after, dnsAfter);
    if after == arns && dnsAfter == dns && (doc.Some? || !c.on) then doc
    else if next.Some? && c.on && !Fits(next) then doc
    else next
  }

  /** What is read from the document is these grants. */
  ghost predicate Says(account: string, doc: Option<Document>, g: Grants) {
    && (doc.None? <==> g == map[])
    && ArnsIn(doc) == Sorted(Arns(account, g))
    && DnsIn(doc) == Dns(g)
  }

  lemma NothingSays(account: string)
    ensures Says(account, None, map[])
  {
    hide Listed;
    assert Arns(account, map[]) == {};
    SortedNothing();
  }

  /** The document printed for any grants says them reprinted. */
  lemma PrintedSays(account: string, w: Grants)
    requires HasInstances(account, w)
    ensures Says(account, PolicyDocument(account, w), Reread(w)) && HasInstances(account, Reread(w))
  {
    hide PolicyDocument, Sorted, Listed, GrantedArnsOf, DnsRead, Reprinted, Account, InstanceId, Dns;
    DocumentReads(account, w);
    assert Reread(w).Keys == w.Keys;
    assert Arns(account, Reread(w)) == Arns(account, w);
    if w == map[] {
      NothingSays(account);
    } else {
      assert Reread(w) != map[] by {
        var id :| id in w;
        assert id in Reread(w).Keys;
      }
    }
  }

  /** What setGrant computes from the document is what the call asks for, given what the document says: unchanged
      exactly when the call asks for nothing new, and a document for it otherwise. */
  lemma ComputesWanted(account: string, doc: Option<Document>, g: Grants, c: Call)
    requires HasInstances(account, g) && InAccount(account, c) && Says(account, doc, g)
    ensures LastSegment(Arn(c.instance), '/') == c.instance.id
    ensures var after := WithArn(ArnsIn(doc), Arn(c.instance), c.on);
      var dnsAfter := WithDns(DnsIn(doc), c.instance.id, if c.on then c.dns else None);
      && (after == ArnsIn(doc) && dnsAfter == DnsIn(doc) <==> Wanted(g, c) == g)
      && DocumentOf(after, dnsAfter) == PolicyDocument(account, Wanted(g, c))
    ensures HasInstances(account, Wanted(g, c))
    ensures PolicyDocument(account, Wanted(g, c)).Some? <==> Wanted(g, c) != map[]
    ensures c.on ==> Wanted(g, c) != map[]
  {
    hide HasInstances, Sorted, WithArn, WithDns, Arns, Dns, Arn, DocumentOf, Wanted, InAccount, LastSegment;
    WithGivesWanted(account, g, c);
    UnchangedIff(account, g, c);
    DocumentReads(account, Wanted(g, c));
    InAccountMeaning(account, c);
    ListedAs(c.instance);
    OnWantsSomething(g, c);
  }

  lemma OnWantsSomething(g: Grants, c: Call)
    ensures c.on ==> c.instance.id in Wanted(g, c)
  {
    hide Renormal;
  }

  /** One call, from any document that says some grants: it is written exactly when it is accepted and asks for
      something new, and the document then in force says what the next call reads. */
  lemma SwitchReads(account: string, doc: Option<Document>, g: Grants, c: Call)
    requires HasInstances(account, g) && InAccount(account, c) && Says(account, doc, g)
    ensures Switched(doc, c) == if Writes(account, g, c) then PolicyDocument(account, Wanted(g, c)) else doc
    ensures Says(account, Switched(doc, c), NextRead(account, g, c))
    ensures HasInstances(account, NextRead(account, g, c))
  {
    hide HasInstances, WithArn, WithDns, Arn, DocumentOf, Wanted, InAccount, LastSegment, PolicyDocument, Fits, ArnsIn,
         DnsIn, Arns, Dns, Sorted, Reread;
    ComputesWanted(account, doc, g, c);
    PrintedSays(account, Wanted(g, c));
  }

  // ---- over histories -----------------------------------------------------------------------------------------------

  /** The document in force after a history of calls, from no policy. */
  function InForce(calls: seq<Call>): Option<Document> {
    if calls == [] then None else Switched(InForce(calls[..|calls| - 1]), calls[|calls| - 1])
  }

  /** For every history of calls on instances of the account: the document in force says exactly the grants followed
      by `InstancesFollowTheirLastCall` and `GrantsDrift`. */
  lemma {:induction false} HistoryReads(account: string, calls: seq<Call>)
    requires Account(account) && forall c <- calls :: InAccount(account, c)
    ensures HasInstances(account, Reads(account, calls))
    ensures Says(account, InForce(calls), Reads(account, calls))
  {
    hide Account, InAccount, Says, Switched, NextRead;
    if calls == [] {
      NothingSays(account);
    } else {
      var n := |calls| - 1;
      assert calls[n] in calls && forall c <- calls[..n] :: c in calls;
      HistoryReads(account, calls[..n]);
      SwitchReads(account, InForce(calls[..n]), Reads(account, calls[..n]), calls[n]);
    }
  }

  // ---- the size -----------------------------------------------------------------------------------------------------

  /** What a document says once more when it is switched, without the instance of the call. */
  function Reworded(w: Grants): Grants {
    map id | id in w :: Renormal(Reprinted(id, w[id]))
  }

  lemma OffRewords(w: Grants, c: Call)
    requires !c.on
    ensures Wanted(Reread(w), c) == Reworded(w) - {c.instance.id}
  {
    hide Renormal, Reprinted;
  }

  /** The statement of a reworded grant, if one is left, is no longer. */
  lemma RewordedShrinks(id: string, w: Grants, granted: set<string>)
    requires id in Dns(Reworded(w)) && id in granted
    ensures id in Dns(w)
    ensures Weight(KeyStatements(id, Dns(Reworded(w)), granted)) <= Weight(KeyStatements(id, Dns(w), granted))
  {
    hide NormalDns, DnsOfStatement, DnsStatement, UsualId, Weight, StatementSize;
    NothingNormal();
    var n := NormalDns(w[id]);
    var read := DnsOfStatement(DnsStatement(id, n.value));
    ReadShrinks(id, n.value);
    NormalShrinks(id, read.value);
    var again := NormalDns(read);
    NormalShrinks(id, again.value);
    WeightOne(DnsStatement(id, n.value));
    WeightOfSize(id, n.value);
    if NormalDns(again).Some? {
      WeightOfSize(id, NormalDns(again).value);
    } else {
      NothingWeighs();
    }
  }

  lemma WeightOfSize(id: string, g: DnsGrant)
    ensures Weight([DnsStatement(id, g)]) == StatementSize(id, g) + 1
  {
    hide StatementJson, Weight;
    WeightOne(DnsStatement(id, g));
  }

  lemma NothingWeighs()
    ensures Weight([]) == 0
  {
  }

  /** Rewording makes the document no longer. */
  lemma RewordedIsNoLonger(account: string, w: Grants)
    requires HasInstances(account, w)
    ensures PolicySize(PolicyDocument(account, Reworded(w))) <= PolicySize(PolicyDocument(account, w))
    ensures HasInstances(account, Reworded(w))
  {
    hide Renormal, Reprinted, Account, InstanceId, Listed, Sorted, Weight, KeyStatements, PolicySize, DocumentOf, Ids,
         AllInstances, GrantedIds, GrantArns;
    var less := Reworded(w);
    assert Arns(account, less) == Arns(account, w);
    var arns := Sorted(Arns(account, w));
    ArnsOfGrants(account, w);
    IdsOfGrants(arns);
    forall id | id in Dns(less)
      ensures id in Dns(w)
      ensures Weight(KeyStatements(id, Dns(less), w.Keys)) <= Weight(KeyStatements(id, Dns(w), w.Keys))
    {
      RewordedShrinks(id, w, w.Keys);
    }
    DocumentShrinks(arns, Dns(w), Dns(less));
  }

  /** Switching an instance off never makes the document in force longer, although the other grants are read and
      printed again. */
  lemma OffIsNeverLonger(account: string, w: Grants, c: Call)
    requires HasInstances(account, w) && !c.on
    ensures PolicySize(PolicyDocument(account, Wanted(Reread(w), c))) <= PolicySize(PolicyDocument(account, w))
  {
    hide HasInstances, PolicySize, PolicyDocument, Wanted, Reread, Reworded;
    OffRewords(w, c);
    RewordedIsNoLonger(account, w);
    WithoutIsNoLonger(account, Reworded(w), c.instance.id);
  }

  /** What the document in force was printed for. */
  ghost predicate PrintedFor(account: string, doc: Option<Document>, w: Grants) {
    && HasInstances(account, w)
    && doc == PolicyDocument(account, w)
    && Fits(doc)
  }

  /** A call keeps the document one that was printed for some grants and fits: only switching on is checked, and
      switching off needs no check. */
  lemma SwitchFits(account: string, doc: Option<Document>, w: Grants, c: Call)
    requires PrintedFor(account, doc, w) && InAccount(account, c)
    ensures var g := Reread(w);
      PrintedFor(account, Switched(doc, c), if Writes(account, g, c) then Wanted(g, c) else w)
  {
    hide HasInstances, PolicyDocument, Wanted, Reread, InAccount, Switched, Says, DocumentJson;
    var g := Reread(w);
    PrintedSays(account, w);
    SwitchReads(account, doc, g, c);
    ComputesWanted(account, doc, g, c);
    if !c.on {
      OffIsNeverLonger(account, w, c);
    }
  }

  /** Over every history of calls on instances of the account, the document in force fits a managed policy; it was
      printed for some grants, and is read as those reprinted. */
  lemma {:induction false} HistoryFits(account: string, calls: seq<Call>)
    requires Account(account) && forall c <- calls :: InAccount(account, c)
    ensures exists w :: PrintedFor(account, InForce(calls), w) && Reads(account, calls) == Reread(w)
    ensures Fits(InForce(calls))
    ensures InForce(calls).Some? ==> DocumentLength(InForce(calls).value) <= 6016
  {
    FitsIff(InForce(calls));
    hide Account, InAccount, Switched, Writes, Wanted, PolicyDocument, Fits, DocumentLength;
    if calls == [] {
      NothingPrinted(account);
      var nothing: Grants := map[];
      assert PrintedFor(account, InForce(calls), nothing) && Reread(nothing) == nothing;
    } else {
      var n := |calls| - 1;
      assert calls[n] in calls && forall c <- calls[..n] :: c in calls;
      HistoryFits(account, calls[..n]);
      var w :| PrintedFor(account, InForce(calls[..n]), w) && Reads(account, calls[..n]) == Reread(w);
      hide Reread;
      SwitchFits(account, InForce(calls[..n]), w, calls[n]);
      var next := if Writes(account, Reread(w), calls[n]) then Wanted(Reread(w), calls[n]) else w;
      assert PrintedFor(account, InForce(calls), next) && Reads(account, calls) == Reread(next);
    }
  }

  lemma NothingPrinted(account: string)
    requires Account(account)
    ensures PrintedFor(account, None, map[])
  {
    hide Account, Listed;
    assert Arns(account, map[]) == {};
    SortedNothing();
    assert GrantArns([]) == {};
  }

  // ---- what the document allows -------------------------------------------------------------------------------------

  /** The statement lets exactly these instances be started and stopped, and nothing else, in any region. */
  ghost predicate StartsAndStops(account: string, ids: set<string>, s: Statement) {
    && s.sid == "AutoParkStartStop" && s.effect == "Allow"
    && s.actions == ["ec2:StartInstances", "ec2:StopInstances"]
    && s.names.Absent? && s.recordTypes == [] && s.changes == []
    && s.resource.Many?
    && forall x :: x in s.resource.texts <==> exists id <- ids :: x == "arn:aws:ec2:*:" + account + ":instance/" + id
  }

  /** The statement lets the zones of the grant be changed, and only by an upsert of A records of exactly its names. */
  ghost predicate Repoints(id: string, g: DnsGrant, s: Statement) {
    && |id| >= 2 && s.sid == "AutoParkDns" + [id[0]] + id[2..] && s.effect == "Allow"
    && s.actions == ["route53:ChangeResourceRecordSets"]
    && s.resource.Many? && |s.resource.texts| == |g.zones| > 0
    && (forall i :: 0 <= i < |g.zones| ==>
          s.resource.texts[i] == "arn:aws:route53:::hostedzone/" + StripZone(g.zones[i]))
    && s.names == Many(g.names) && g.names != [] && s.recordTypes == ["A"] && s.changes == ["UPSERT"]
  }

  /** The statement is for the normalised DNS grant of one of the instances. */
  ghost predicate RepointsOne(w: Grants, s: Statement) {
    exists id <- w :: Renormal(w[id]).Some? && Repoints(id, Renormal(w[id]).value, s)
  }

  /** A statement of the document is for this instance. */
  ghost predicate HasRepoint(doc: Document, id: string, g: DnsGrant) {
    exists k :: 1 <= k < |doc| && Repoints(id, g, doc[k])
  }

  /** The document allows starting and stopping the instances of `w`, re-pointing the records of each normalised DNS
      grant, and nothing else. */
  ghost predicate Allows(account: string, doc: Document, w: Grants) {
    && doc != [] && StartsAndStops(account, w.Keys, doc[0])
    && (forall k :: 1 <= k < |doc| ==> RepointsOne(w, doc[k]))
    && (forall id <- w :: Renormal(w[id]).Some? ==> HasRepoint(doc, id, Renormal(w[id]).value))
  }

  lemma JoinFirst(first: string, rest: seq<string>)
    requires rest != []
    ensures Join([first] + rest, ':') == first + ":" + Join(rest, ':')
  {
    assert ([first] + rest)[1..] == rest;
  }

  lemma ListedText(account: string, id: string)
    ensures Listed(account, id) == "arn:aws:ec2:*:" + account + ":instance/" + id
  {
    var last := "instance/" + id;
    assert Fields(Instance("aws", "*", account, id)) ==
           ["arn"] + (["aws"] + (["ec2"] + (["*"] + ([account] + [last]))));
    assert Join([last], ':') == last;
    hide Join, Fields;
    JoinFirst(account, [last]);
    JoinFirst("*", [account] + [last]);
    JoinFirst("ec2", ["*"] + ([account] + [last]));
    JoinFirst("aws", ["ec2"] + (["*"] + ([account] + [last])));
    JoinFirst("arn", ["aws"] + (["ec2"] + (["*"] + ([account] + [last]))));
    ArnParts(account, id);
  }

  lemma ArnParts(account: string, id: string)
    ensures "arn" + ":" + ("aws" + ":" + ("ec2" + ":" + ("*" + ":" + (account + ":" + ("instance/" + id))))) ==
            "arn:aws:ec2:*:" + account + ":instance/" + id
  {
    assert "arn" + ":" + ("aws" + ":" + ("ec2" + ":" + ("*" + ":"))) == "arn:aws:ec2:*:";
    var tail := account + ":" + ("instance/" + id);
    assert tail == account + ":instance/" + id;
  }

  lemma StartsAndStopsThese(account: string, w: Grants)
    requires HasInstances(account, w)
    ensures StartsAndStops(account, w.Keys, StartStop(Sorted(Arns(account, w))))
  {
    hide Sorted, Listed, Account, InstanceId;
    forall id
      ensures Listed(account, id) == "arn:aws:ec2:*:" + account + ":instance/" + id
    {
      ListedText(account, id);
    }
    assert forall x :: x in Sorted(Arns(account, w)) <==> exists id <- w.Keys :: x == Listed(account, id);
  }

  lemma SidText(id: string)
    requires InstanceId(id)
    ensures DnsSid(id) == "AutoParkDns" + [id[0]] + id[2..]
  {
    var digits := id[2..];
    HexIsAlphanumeric(digits);
    assert id[1..][1..] == digits;
    assert Alphanumeric(id) == [id[0]] + digits;
  }

  lemma RepointsThese(id: string, g: DnsGrant)
    requires InstanceId(id) && Normal(g)
    ensures Repoints(id, g, DnsStatement(id, g))
  {
    SidText(id);
    NormalShape(g);
    hide StripZone, Sorted, Normal, NormalDns, DnsSid, Settled, NormalizeName;
    assert forall i :: 0 <= i < |g.zones| ==>
      ZoneArns(g.zones)[i] == "arn:aws:route53:::hostedzone/" + StripZone(g.zones[i]);
  }

  /** Which statements are printed for some keys. */
  lemma {:induction false} StatementsFor(keys: seq<string>, dns: DnsGrants, granted: set<string>)
    requires forall id <- keys :: id in dns
    ensures forall s <- DnsStatements(keys, dns, granted) :: exists id ::
      && id in keys && id in granted && NormalDns(Some(dns[id])).Some?
      && s == DnsStatement(id, NormalDns(Some(dns[id])).value)
    ensures forall id :: id in keys && id in granted && NormalDns(Some(dns[id])).Some? ==>
      DnsStatement(id, NormalDns(Some(dns[id])).value) in DnsStatements(keys, dns, granted)
  {
    hide NormalDns, DnsStatement;
    if keys != [] {
      var n := |keys| - 1;
      StatementsFor(keys[..n], dns, granted);
      assert keys == keys[..n] + [keys[n]];
      forall s | s in DnsStatements(keys, dns, granted)
        ensures exists id :: && id in keys && id in granted && NormalDns(Some(dns[id])).Some?
                             && s == DnsStatement(id, NormalDns(Some(dns[id])).value)
      {
        if s in DnsStatements(keys[..n], dns, granted) {
          var id :| && id in keys[..n] && id in granted && NormalDns(Some(dns[id])).Some?
                    && s == DnsStatement(id, NormalDns(Some(dns[id])).value);
          assert id in keys;
        } else {
          assert s in KeyStatements(keys[n], dns, granted) && keys[n] in keys;
        }
      }
    }
  }

  lemma PrintedDocument(account: string, w: Grants)
    requires HasInstances(account, w) && w != map[]
    ensures PolicyDocument(account, w) ==
            Some([StartStop(Sorted(Arns(account, w)))] + DnsStatements(Sorted(Dns(w).Keys), Dns(w), w.Keys))
  {
    hide Sorted, GrantArns, Ids, AllInstances, GrantedIds, DnsStatements, StartStop, Account, InstanceId, Listed;
    ArnsOfGrants(account, w);
    IdsOfGrants(Sorted(Arns(account, w)));
    var id :| id in w;
    assert Listed(account, id) in Sorted(Arns(account, w));
  }

  lemma DnsStatementsAllow(account: string, w: Grants, s: Statement)
    requires HasInstances(account, w) && s in DnsStatements(Sorted(Dns(w).Keys), Dns(w), w.Keys)
    ensures RepointsOne(w, s)
  {
    hide Sorted, DnsStatements, Account, InstanceId, NormalDns, DnsStatement, Repoints;
    var keys := Sorted(Dns(w).Keys);
    StatementsFor(keys, Dns(w), w.Keys);
    var id :| && id in keys && id in w.Keys && NormalDns(Some(Dns(w)[id])).Some?
              && s == DnsStatement(id, NormalDns(Some(Dns(w)[id])).value);
    RepointsOwn(account, w, id);
  }

  lemma RepointsOwn(account: string, w: Grants, id: string)
    requires HasInstances(account, w) && id in w && Renormal(w[id]).Some?
    ensures Repoints(id, Renormal(w[id]).value, DnsStatement(id, Renormal(w[id]).value))
  {
    hide Account, InstanceId, NormalDns, DnsStatement, Repoints;
    assert NormalDns(Some(w[id].value)) == Some(Renormal(w[id]).value);
    RepointsThese(id, Renormal(w[id]).value);
  }

  /** The document printed for some grants allows exactly those. */
  lemma PrintedAllows(account: string, w: Grants)
    requires HasInstances(account, w) && w != map[]
    ensures PolicyDocument(account, w).Some? && Allows(account, PolicyDocument(account, w).value, w)
  {
    hide *;
    PrintedDocument(account, w);
    StartsAndStopsThese(account, w);
    var first, rest := StartStop(Sorted(Arns(account, w))), DnsStatements(Sorted(Dns(w).Keys), Dns(w), w.Keys);
    var doc := [first] + rest;
    forall k | 1 <= k < |doc|
      ensures RepointsOne(w, doc[k])
    {
      assert doc[k] == rest[k - 1];
      DnsStatementsAllow(account, w, doc[k]);
    }
    forall id | id in w && Renormal(w[id]).Some?
      ensures HasRepoint(doc, id, Renormal(w[id]).value)
    {
      var k := HasStatement(account, w, id);
      assert doc[k + 1] == rest[k];
      Repointed(doc, k + 1, id, Renormal(w[id]).value);
    }
    AllowsFrom(account, doc, w);
  }

  lemma AllowsFrom(account: string, doc: Document, w: Grants)
    requires doc != [] && StartsAndStops(account, w.Keys, doc[0])
    requires forall k :: 1 <= k < |doc| ==> RepointsOne(w, doc[k])
    requires forall id <- w :: Renormal(w[id]).Some? ==> HasRepoint(doc, id, Renormal(w[id]).value)
    ensures Allows(account, doc, w)
  {
    hide StartsAndStops, RepointsOne, HasRepoint, Renormal;
  }

  lemma Repointed(doc: Document, k: nat, id: string, g: DnsGrant)
    requires 1 <= k < |doc| && Repoints(id, g, doc[k])
    ensures HasRepoint(doc, id, g)
  {
  }

  lemma HasStatement(account: string, w: Grants, id: string) returns (k: nat)
    requires HasInstances(account, w) && id in w && Renormal(w[id]).Some?
    ensures var rest := DnsStatements(Sorted(Dns(w).Keys), Dns(w), w.Keys);
      k < |rest| && Repoints(id, Renormal(w[id]).value, rest[k])
  {
    hide HasInstances, DnsStatements, DnsStatement, NormalDns, Sorted, Repoints;
    StatementsFor(Sorted(Dns(w).Keys), Dns(w), w.Keys);
    RepointsOwn(account, w, id);
    var rest, s := DnsStatements(Sorted(Dns(w).Keys), Dns(w), w.Keys), DnsStatement(id, Renormal(w[id]).value);
    assert id in Dns(w) && s in rest;
    k :| 0 <= k < |rest| && rest[k] == s;
  }

  /** Over every history: the document in force lets exactly the granted instances be started and stopped, and what is
      granted of each one's records be re-pointed, and nothing else. What is granted reads as what it was printed for,
      reprinted. */
  lemma HistoryAllows(account: string, calls: seq<Call>)
    requires Account(account) && forall c <- calls :: InAccount(account, c)
    ensures InForce(calls).Some? <==> Reads(account, calls) != map[]
    ensures InForce(calls).Some? ==>
      && InForce(calls).value != []
      && StartsAndStops(account, Reads(account, calls).Keys, InForce(calls).value[0])
      && exists w :: Reads(account, calls) == Reread(w) && Allows(account, InForce(calls).value, w)
  {
    hide *;
    HistoryReads(account, calls);
    HistoryFits(account, calls);
    var doc, g := InForce(calls), Reads(account, calls);
    SaysSomething(account, doc, g);
    var w :| PrintedFor(account, doc, w) && g == Reread(w);
    if doc.Some? {
      RereadKeys(w);
      AllowsPrinted(account, doc.value, w);
    }
  }

  lemma SaysSomething(account: string, doc: Option<Document>, g: Grants)
    requires Says(account, doc, g)
    ensures doc.Some? <==> g != map[]
  {
    hide Arns, ArnsIn, DnsIn, Dns;
  }

  lemma RereadKeys(w: Grants)
    ensures Reread(w).Keys == w.Keys
  {
    hide Reprinted;
  }

  lemma AllowsPrinted(account: string, doc: Document, w: Grants)
    requires PrintedFor(account, Some(doc), w)
    ensures doc != [] && Allows(account, doc, w) && StartsAndStops(account, w.Keys, doc[0])
  {
    hide PolicyDocument, Repoints, StartsAndStops, Renormal, Fits, HasInstances;
    DocumentReads(account, w);
    PrintedAllows(account, w);
  }
}
