/** What becomes of DNS grants that do not read back as they were asked for, over the history of `setGrant` in
    `src/autopark_grant.ts`: every write reads them from the document, normalises them and prints them again. */
module GrantDrift {
  import opened Options
  import opened Strings
  import opened GrantDocument
  import opened GrantRoundTrip
  import opened GrantSize
  import opened GrantPolicy

  // ---- one grant printed and read -----------------------------------------------------------------------------------

  function Renormal(g: Option<DnsGrant>): Option<DnsGrant> {
    if g.None? then None else NormalDns(g)
  }

  /** What the document says of a grant it was asked to print. */
  function Reprinted(id: string, g: Option<DnsGrant>): Option<DnsGrant> {
    var n := Renormal(g);
    if n.None? || !UsualId(id) then None else DnsOfStatement(DnsStatement(id, n.value))
  }

  /** What a write about another instance makes of a grant that was read. */
  function Again(id: string, g: Option<DnsGrant>): Option<DnsGrant> {
    Reprinted(id, Renormal(g))
  }

  function Times(id: string, g: Option<DnsGrant>, n: nat): Option<DnsGrant> {
    if n == 0 then g else Again(id, Times(id, g, n - 1))
  }

  /** Names normalised twice over are the same names only when each is settled: a longest one that is not would have
      to come from a longer one. */
  lemma NamesTwice(names: seq<string>, once: seq<string>)
    requires "" !in names && forall n <- names :: exists raw :: n == NormalizeName(raw)
    requires forall x :: x in once <==> x in RecordNames(names)
    ensures RecordNames(once) == (set n <- names) ==> forall n <- names :: Settled(n)
  {
    hide NormalizeName, Settled;
    forall n | n in names
      ensures NormalizeName(n) == n <==> Settled(n)
      ensures Settled(n) || |NormalizeName(n)| < |n|
    {
      Shortens(n);
    }
    if exists n <- names :: !Settled(n) {
      var unsettled := set n <- names | !Settled(n);
      var n0 :| n0 in names && !Settled(n0);
      assert n0 in unsettled;
      var n := Longest(unsettled);
      assert n in (set x <- names);
      forall m | m in names
        ensures NormalizeName(NormalizeName(m)) != n
      {
        assert !Settled(m) ==> m in unsettled;
        TwiceShorter(m);
      }
      assert n !in RecordNames(once);
    }
  }

  lemma TwiceShorter(m: string)
    requires exists raw :: m == NormalizeName(raw)
    ensures |NormalizeName(NormalizeName(m))| <= |NormalizeName(m)| <= |m|
  {
    hide NormalizeName, Settled;
    Shortens(m);
    Shortens(NormalizeName(m));
    SettledIff(m);
  }

  lemma ReadZones(zones: seq<string>, z: string)
    requires z in Zones(LastSegments(zones))
    ensures '/' !in z
  {
    hide LastSegment, StripZone;
    var x :| x in LastSegments(zones) && z == StripZone(x);
    SlashlessStays(x);
  }

  lemma StatementFields(id: string, h: DnsGrant)
    ensures var r := DnsOfStatement(DnsStatement(id, h));
      r.Some? ==>
        r.value.zones == Sorted(Zones(LastSegments(ZoneArns(h.zones)))) && r.value.names == Sorted(RecordNames(h.names))
  {
    hide Sorted, Zones, RecordNames, ZoneArns, LastSegments, DnsSid;
    var s := DnsStatement(id, h);
    assert s.resource.Listed() == ZoneArns(h.zones) && s.names.Listed() == h.names;
  }

  lemma NormalFields(g: DnsGrant)
    ensures var r := NormalDns(Some(g));
      r.Some? ==> r.value.zones == Sorted(Zones(g.zones)) && r.value.names == Sorted(RecordNames(g.names))
  {
    hide Sorted, Zones, RecordNames;
  }

  lemma SameIsReadable(id: string, g: DnsGrant, h: DnsGrant)
    requires Normal(g) && NormalDns(Some(g)) == Some(h) && DnsOfStatement(DnsStatement(id, h)) == Some(g)
    ensures Readable(g)
  {
    hide NormalDns, DnsOfStatement, DnsStatement, Settled, Zones, RecordNames, NormalizeName, Sorted, LastSegments,
        ZoneArns;
    NormalShape(g);
    NormalFields(g);
    StatementFields(id, h);
    forall z | z in g.zones
      ensures '/' !in z
    {
      assert z in Zones(LastSegments(ZoneArns(h.zones)));
      ReadZones(ZoneArns(h.zones), z);
    }
    NamesTwice(g.names, h.names);
    assert RecordNames(h.names) == set n <- g.names;
  }

  /** Printing and reading leave a normalised grant as it is exactly when its instance id is usual and it is
      readable. */
  lemma ReprintedIff(id: string, g: DnsGrant)
    requires Normal(g)
    ensures Reprinted(id, Some(g)) == Some(g) <==> Lasting(id, g)
  {
    hide UsualId, NormalDns, Readable, DnsOfStatement, DnsStatement;
    if Readable(g) {
      NormalAgain(g);
      StatementReads(id, g);
    } else if Reprinted(id, Some(g)) == Some(g) {
      SameIsReadable(id, g, NormalDns(Some(g)).value);
    }
  }

  /** It reads as it was asked for over any number of later writes exactly when it is. */
  lemma LastsIff(id: string, g: DnsGrant)
    requires Normal(g)
    ensures (forall n: nat :: Times(id, Reprinted(id, Some(g)), n) == Some(g)) <==> Lasting(id, g)
  {
    hide Reprinted, Lasting;
    ReprintedIff(id, g);
    if Lasting(id, g) {
      forall n: nat
        ensures Times(id, Reprinted(id, Some(g)), n) == Some(g)
      {
        TimesStays(id, g, n);
      }
    } else {
      assert Times(id, Reprinted(id, Some(g)), 0) == Reprinted(id, Some(g));
    }
  }

  lemma {:induction false} TimesStays(id: string, g: DnsGrant, n: nat)
    requires Normal(g) && Lasting(id, g)
    ensures Times(id, Some(g), n) == Some(g)
  {
    hide Reprinted, UsualId, Readable, NormalDns;
    if n > 0 {
      TimesStays(id, g, n - 1);
      NormalAgain(g);
      ReprintedIff(id, g);
    }
  }

  // ---- one call -----------------------------------------------------------------------------------------------------

  /** Any instance of the role's account, whatever its DNS grant. */
  predicate InAccount(account: string, c: Call) {
    Proper(c.instance) && c.instance.partition == "aws" && c.instance.account == account
  }

  /** What a call asks the document to say, given what was read. */
  function Wanted(g: Grants, c: Call): Grants {
    var others := map id | id in g && id != c.instance.id :: Renormal(g[id]);
    if c.on then others[c.instance.id := Renormal(c.dns)] else others
  }

  function Reread(g: Grants): Grants {
    map id | id in g :: Reprinted(id, g[id])
  }

  ghost predicate AcceptedAny(account: string, g: Grants, c: Call) {
    !c.on || Wanted(g, c) == g || Fits(PolicyDocument(account, Wanted(g, c)))
  }

  ghost predicate Writes(account: string, g: Grants, c: Call) {
    AcceptedAny(account, g, c) && Wanted(g, c) != g
  }

  /** What the next call reads. */
  ghost function NextRead(account: string, g: Grants, c: Call): Grants {
    if Writes(account, g, c) then Reread(Wanted(g, c)) else g
  }

  /** The document printed for any grants reads as the same instances, with their reprinted DNS grants. */
  lemma DocumentReads(account: string, g: Grants)
    requires HasInstances(account, g)
    ensures PolicyDocument(account, g).Some? <==> g != map[]
    ensures g != map[] ==>
      && GrantedArnsOf(PolicyDocument(account, g).value) == Sorted(Arns(account, g))
      && DnsRead(PolicyDocument(account, g).value) == Dns(Reread(g))
  {
    hide NormalDns, Sorted, DocumentOf, GrantedArnsOf, DnsRead, GrantArns, ParseArn, Listed, UsualId, Account,
        InstanceId,
         DnsOfStatement, DnsStatements, Ids, StartStop;
    var list := Sorted(Arns(account, g));
    ArnsOfGrants(account, g);
    ArnsReadBack(list, Dns(g));
    if g != map[] {
      var id :| id in g;
      assert Listed(account, id) in list;
      IdsOfGrants(list);
      PrintedReads(list, g);
    } else {
      assert Arns(account, g) == {};
      SortedNothing();
    }
  }

  lemma PrintedReads(list: seq<string>, g: Grants)
    requires AllInstances(list) && GrantedIds(list) == g.Keys && Ids(Sorted(GrantArns(list))) == g.Keys
    requires (forall id <- g :: InstanceId(id)) && DocumentOf(list, Dns(g)).Some?
    ensures DnsRead(DocumentOf(list, Dns(g)).value) == Dns(Reread(g))
  {
    hide NormalDns, DnsRead, DnsStatements, GrantArns, UsualId, ParseArn, InstanceOfSid, Ids, DnsOfStatement,
        DnsStatement,
         InstanceId, Sorted, AllInstances, GrantedIds;
    var dns := Dns(g);
    FrontSid();
    KeysRead(StartStop(Sorted(GrantArns(list))), Sorted(dns.Keys), dns, g.Keys);
    var read := DnsRead(DocumentOf(list, dns).value);
    forall id
      ensures id in read <==> id in Dns(Reread(g))
      ensures id in read ==> read[id] == Dns(Reread(g))[id]
    {
    }
  }

  /** `withArn` and `withDns` compute what the call asks for. */
  lemma WithGivesWanted(account: string, g: Grants, c: Call)
    requires HasInstances(account, g) && InAccount(account, c)
    ensures HasInstances(account, Wanted(g, c))
    ensures WithArn(Sorted(Arns(account, g)), Arn(c.instance), c.on) == Sorted(Arns(account, Wanted(g, c)))
    ensures WithDns(Dns(g), c.instance.id, if c.on then c.dns else None) == Dns(Wanted(g, c))
  {
    WantedInstances(account, g, c);
    hide GrantArns, GrantArn, Arn, Sorted, InAccount, HasInstances, Wanted, AllInstances, GrantedIds, Dns, WithDns,
        Arns;
    ArnsOfGrants(account, g);
    assert Proper(c.instance) && c.instance.partition == "aws" && c.instance.account == account by {
      InAccountMeaning(account, c);
    }
    ListedAs(c.instance);
    WantedArns(account, g, c);
    WantedDns(g, c);
  }

  lemma UnchangedIff(account: string, g: Grants, c: Call)
    requires HasInstances(account, g) && InAccount(account, c)
    ensures Sorted(Arns(account, Wanted(g, c))) == Sorted(Arns(account, g)) && Dns(Wanted(g, c)) == Dns(g)
            <==> Wanted(g, c) == g
  {
    WantedInstances(account, g, c);
    hide Sorted, InAccount, HasInstances, Wanted, Arns, Dns;
    if Sorted(Arns(account, Wanted(g, c))) == Sorted(Arns(account, g)) && Dns(Wanted(g, c)) == Dns(g) {
      SameGrants(account, g, Wanted(g, c));
    }
  }

  lemma InAccountMeaning(account: string, c: Call)
    requires InAccount(account, c)
    ensures Proper(c.instance) && c.instance.partition == "aws" && c.instance.account == account
  {
  }

  lemma WantedInstances(account: string, g: Grants, c: Call)
    requires HasInstances(account, g) && InAccount(account, c)
    ensures HasInstances(account, Wanted(g, c))
  {
    hide Account, InstanceId, Renormal;
    ProperId(c.instance);
  }

  lemma ProperId(a: Instance)
    requires Proper(a)
    ensures InstanceId(a.id)
  {
  }

  lemma WantedArns(account: string, g: Grants, c: Call)
    requires HasInstances(account, g) && InAccount(account, c)
    ensures Arns(account, Wanted(g, c)) ==
            if c.on then Arns(account, g) + {Listed(account, c.instance.id)}
                else Arns(account, g) - {Listed(account, c.instance.id)}
  {
    hide Account, InstanceId, Listed, Renormal;
    ProperId(c.instance);
    forall id | id in g && Listed(account, id) == Listed(account, c.instance.id)
      ensures id == c.instance.id
    {
      ListedParses(account, id);
      ListedParses(account, c.instance.id);
    }
    assert Wanted(g, c).Keys == if c.on then g.Keys + {c.instance.id} else g.Keys - {c.instance.id};
  }

  lemma WantedDns(g: Grants, c: Call)
    ensures WithDns(Dns(g), c.instance.id, if c.on then c.dns else None) == Dns(Wanted(g, c))
  {
    hide NormalDns;
    NothingNormal();
  }

  // ---- over histories -----------------------------------------------------------------------------------------------

  /** What is read after a history of calls on any instances of the account, from no policy. */
  ghost function Reads(account: string, calls: seq<Call>): Grants {
    if calls == [] then map[] else NextRead(account, Reads(account, calls[..|calls| - 1]), calls[|calls| - 1])
  }

  ghost predicate AcceptedAt(account: string, calls: seq<Call>, k: nat)
    requires k < |calls|
  {
    AcceptedAny(account, Reads(account, calls[..k]), calls[k])
  }

  /** Call `k` is accepted, is about `id`, and no later accepted call is. */
  ghost predicate Settles(account: string, calls: seq<Call>, k: nat, id: string) {
    && k < |calls| && calls[k].instance.id == id && AcceptedAt(account, calls, k)
    && forall j :: k < j < |calls| ==> !(calls[j].instance.id == id && AcceptedAt(account, calls, j))
  }

  /** How many of the calls from the `k`th on were written. */
  ghost function WritesFrom(account: string, calls: seq<Call>, k: nat): nat {
    if |calls| <= k then 0
    else
      var n := |calls| - 1;
      WritesFrom(account, calls[..n], k) + if Writes(account, Reads(account, calls[..n]), calls[n]) then 1 else 0
  }

  lemma SettlesShorter(account: string, calls: seq<Call>, k: nat, id: string)
    requires calls != []
    ensures var n := |calls| - 1;
      k < n ==> (Settles(account, calls, k, id) <==>
                   Settles(account, calls[..n], k, id) && !(calls[n].instance.id == id &&
                       AcceptedAt(account, calls, n)))
  {
    hide AcceptedAny, Reads;
    var n := |calls| - 1;
    forall j | 0 <= j < n
      ensures AcceptedAt(account, calls, j) <==> AcceptedAt(account, calls[..n], j)
    {
      assert calls[..n][..j] == calls[..j];
    }
  }

  /** Whatever the DNS grants, exactly the instances whose last accepted call was on are granted. */
  lemma {:induction false} InstancesFollowTheirLastCall(account: string, calls: seq<Call>, id: string)
    ensures id in Reads(account, calls) <==> exists k: nat :: Settles(account, calls, k, id) && calls[k].on
  {
    hide AcceptedAny, Renormal, Reprinted, Settles;
    if calls == [] {
      assert forall k: nat :: !Settles(account, calls, k, id) by {
        NothingSettles(account, id);
      }
    } else {
      var n := |calls| - 1;
      InstancesFollowTheirLastCall(account, calls[..n], id);
      LastSettles(account, calls, id);
      forall k: nat | k < n
        ensures Settles(account, calls, k, id) <==>
          Settles(account, calls[..n], k, id) && !(calls[n].instance.id == id && AcceptedAt(account, calls, n))
      {
        SettlesShorter(account, calls, k, id);
      }
      forall k: nat | Settles(account, calls, k, id) || Settles(account, calls[..n], k, id)
        ensures k <= n && (Settles(account, calls[..n], k, id) ==> k < n)
      {
        SettlesInside(account, calls, k, id);
        SettlesInside(account, calls[..n], k, id);
      }
      CallDecides(account, Reads(account, calls[..n]), calls[n], id);
    }
  }

  lemma NothingSettles(account: string, id: string)
    ensures forall k: nat :: !Settles(account, [], k, id)
  {
  }

  lemma LastSettles(account: string, calls: seq<Call>, id: string)
    requires calls != []
    ensures var n := |calls| - 1;
      Settles(account, calls, n, id) <==> calls[n].instance.id == id && AcceptedAt(account, calls, n)
  {
    hide AcceptedAny, Reads;
  }

  lemma SettlesInside(account: string, calls: seq<Call>, k: nat, id: string)
    ensures Settles(account, calls, k, id) ==> k < |calls| && calls[k].instance.id == id
  {
  }

  lemma CallDecides(account: string, g: Grants, c: Call, id: string)
    ensures id in NextRead(account, g, c) <==>
      if c.instance.id == id && AcceptedAny(account, g, c) then c.on else id in g
  {
    hide Renormal, Reprinted, Fits, PolicyDocument;
    assert Wanted(g, c) == g && c.instance.id == id ==> (id in g <==> c.on);
  }

  /** A call leaves a grant of another instance as it was read, or reprints it when it writes. */
  lemma OtherCallReprints(account: string, g: Grants, c: Call, id: string)
    requires id in g && !(c.instance.id == id && AcceptedAny(account, g, c))
    ensures id in NextRead(account, g, c)
    ensures NextRead(account, g, c)[id] == if Writes(account, g, c) then Again(id, g[id]) else g[id]
  {
    hide Renormal, Reprinted, Fits, PolicyDocument;
  }

  /** The grant of an instance, as it is read after the history: as the document said it after the call that settled
      it, reprinted once for every later write. With `LastsIff`, it reads as its call asked for whatever comes later
      exactly when it is lasting. */
  lemma {:induction false} GrantsDrift(account: string, calls: seq<Call>, k: nat, id: string)
    requires Settles(account, calls, k, id) && calls[k].on
    ensures id in Reads(account, calls) && id in Reads(account, calls[..k + 1])
    ensures Reads(account, calls[..k + 1])[id] ==
            if Writes(account, Reads(account, calls[..k]), calls[k]) then Reprinted(id, Renormal(calls[k].dns))
            else Renormal(calls[k].dns)
    ensures Reads(account, calls)[id] == Times(id, Reads(account, calls[..k + 1])[id],
        WritesFrom(account, calls, k + 1))
    decreases |calls|
  {
    hide Renormal, Reprinted, AcceptedAny, Again;
    var n := |calls| - 1;
    assert AcceptedAt(account, calls, k);
    if k == n {
      assert calls[..k + 1] == calls;
      OwnCall(account, Reads(account, calls[..n]), calls[n]);
    } else {
      SettlesShorter(account, calls, k, id);
      GrantsDrift(account, calls[..n], k, id);
      assert calls[..n][..k + 1] == calls[..k + 1] && calls[..n][..k] == calls[..k] && calls[..n][k] == calls[k];
      assert !(calls[n].instance.id == id && AcceptedAt(account, calls, n));
      OtherCallReprints(account, Reads(account, calls[..n]), calls[n], id);
    }
  }

  lemma OwnCall(account: string, g: Grants, c: Call)
    requires c.on && AcceptedAny(account, g, c)
    ensures c.instance.id in NextRead(account, g, c)
    ensures NextRead(account, g, c)[c.instance.id] ==
            if Writes(account, g, c) then Reprinted(c.instance.id, Renormal(c.dns)) else Renormal(c.dns)
  {
    hide Renormal, Reprinted, Fits, PolicyDocument;
    assert Wanted(g, c)[c.instance.id] == Renormal(c.dns);
  }

  /** For calls whose DNS grants last, this is the history in which each document says exactly what was asked for. */
  lemma {:induction false} LastingHistoriesAgree(account: string, calls: seq<Call>)
    requires Account(account) && forall c <- calls :: Callable(account, c)
    ensures Reads(account, calls) == Run(account, calls) && WellFormed(account, Run(account, calls))
  {
    hide Accepted, AcceptedAny, Asked, Callable, WellFormed, Account, NextRead;
    if calls == [] {
      NothingGranted(account);
    } else {
      var n := |calls| - 1;
      assert calls[n] in calls && forall c <- calls[..n] :: c in calls;
      LastingHistoriesAgree(account, calls[..n]);
      var g := Run(account, calls[..n]);
      AskedWellFormed(account, g, calls[n]);
      LastingCall(account, g, calls[n]);
    }
  }

  lemma NothingGranted(account: string)
    requires Account(account)
    ensures WellFormed(account, map[])
  {
  }

  lemma LastingCall(account: string, g: Grants, c: Call)
    requires WellFormed(account, g) && Callable(account, c)
    ensures NextRead(account, g, c) == Step(account, g, c) && WellFormed(account, NextRead(account, g, c))
    ensures AcceptedAny(account, g, c) <==> Accepted(account, g, c)
    ensures Writes(account, g, c) <==> NextRead(account, g, c) != g
  {
    hide Fits, PolicyDocument, Reprinted, Lasting, Account, InstanceId, NormalDns, Normal;
    AskedWellFormed(account, g, c);
    NothingNormal();
    forall id | id in g
      ensures Renormal(g[id]) == g[id]
    {
      StaysNormal(account, g, id);
    }
    assert Wanted(g, c) == Asked(g, c);
    var w := Asked(g, c);
    forall id | id in w
      ensures Reprinted(id, w[id]) == w[id]
    {
      StaysPrinted(account, w, id);
    }
    assert Reread(w) == w;
  }

  lemma StaysNormal(account: string, g: Grants, id: string)
    requires WellFormed(account, g) && id in g
    ensures Renormal(g[id]) == g[id]
  {
    hide NormalDns, UsualId, Readable, Normal;
    if g[id].Some? {
      assert Lasting(id, g[id].value);
      NormalAgain(g[id].value);
    }
  }

  lemma StaysPrinted(account: string, g: Grants, id: string)
    requires WellFormed(account, g) && id in g
    ensures Reprinted(id, g[id]) == g[id]
  {
    hide NormalDns, Lasting, Normal, UsualId;
    if g[id].Some? {
      ReprintedIff(id, g[id].value);
    }
  }
}
