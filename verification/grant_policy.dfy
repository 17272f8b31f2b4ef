/** The Auto-park grant policy over its history, `src/autopark_grant.ts`: `setGrant` as a transition of the policy on
    the actuator role. */
module GrantPolicy {
  import opened Options
  import opened Strings
  import opened GrantDocument
  import opened GrantRoundTrip
  import opened GrantSize

  // ---- what is granted ----------------------------------------------------------------------------------------------

  /** The granted instances of one account, each with its normalised DNS grant when it has one. */
  type Grants = map<string, Option<DnsGrant>>

  datatype Call = Call(instance: Instance, on: bool, dns: Option<DnsGrant>)

  function Listed(account: string, id: string): string {
    Arn(Instance("aws", "*", account, id))
  }

  function Arns(account: string, g: Grants): set<string> {
    set id <- g.Keys :: Listed(account, id)
  }

  function Dns(g: Grants): DnsGrants {
    map id | id in g && g[id].Some? :: g[id].value
  }

  predicate Lasting(id: string, g: DnsGrant) {
    UsualId(id) && Readable(g)
  }

  predicate HasInstances(account: string, g: Grants) {
    Account(account) && forall id <- g :: InstanceId(id)
  }

  ghost predicate WellFormed(account: string, g: Grants) {
    && HasInstances(account, g)
    && (forall id <- g :: g[id].Some? ==> Normal(g[id].value) && Lasting(id, g[id].value))
  }

  /** What setGrant is called with: an instance of the role's account, and A records whose grant can be read back. */
  predicate Callable(account: string, c: Call) {
    && Proper(c.instance) && c.instance.partition == "aws" && c.instance.account == account
    && (c.on && NormalDns(c.dns).Some? ==> Lasting(c.instance.id, NormalDns(c.dns).value))
  }

  ghost function PolicyDocument(account: string, g: Grants): Option<Document> {
    DocumentOf(Sorted(Arns(account, g)), Dns(g))
  }

  /** The grants one call asks for. */
  function Asked(g: Grants, c: Call): Grants {
    if c.on then g[c.instance.id := NormalDns(c.dns)] else g - {c.instance.id}
  }

  /** A call is refused when it would switch an instance on in a document that no longer fits. */
  ghost predicate Accepted(account: string, g: Grants, c: Call) {
    !c.on || Asked(g, c) == g || Fits(PolicyDocument(account, Asked(g, c)))
  }

  ghost function Step(account: string, g: Grants, c: Call): Grants {
    if Accepted(account, g, c) then Asked(g, c) else g
  }

  ghost function Run(account: string, calls: seq<Call>): Grants {
    if calls == [] then map[] else Step(account, Run(account, calls[..|calls| - 1]), calls[|calls| - 1])
  }

  /** Call `k` is accepted, is about `id`, and no later accepted call is. */
  ghost predicate Decides(account: string, calls: seq<Call>, k: nat, id: string) {
    && k < |calls| && About(account, calls, k, id)
    && forall j :: k < j < |calls| ==> !About(account, calls, j, id)
  }

  ghost predicate About(account: string, calls: seq<Call>, k: nat, id: string)
    requires k < |calls|
  {
    calls[k].instance.id == id && Accepted(account, Run(account, calls[..k]), calls[k])
  }

  /** Over any history from no policy, exactly the instances whose last accepted call was on are granted, each with
      the normalised DNS grant of that call. */
  lemma {:induction false} LastCallDecides(account: string, calls: seq<Call>, id: string)
    ensures id in Run(account, calls) <==> exists k: nat :: Decides(account, calls, k, id) && calls[k].on
    ensures forall k: nat :: Decides(account, calls, k, id) && calls[k].on ==>
        Run(account, calls)[id] == NormalDns(calls[k].dns)
  {
    hide Accepted, NormalDns;
    if calls != [] {
      var n := |calls| - 1;
      LastCallDecides(account, calls[..n], id);
      forall k: nat | k < n
        ensures About(account, calls[..n], k, id) <==> About(account, calls, k, id)
      {
        assert calls[..n][..k] == calls[..k];
      }
      if About(account, calls, n, id) {
        assert Decides(account, calls, n, id);
        assert forall k: nat :: Decides(account, calls, k, id) ==> k == n;
      } else {
        assert forall k: nat :: Decides(account, calls, k, id) <==> Decides(account, calls[..n], k, id);
      }
    }
  }

  // ---- reading the policy's own document ----------------------------------------------------------------------------

  lemma ListedParses(account: string, id: string)
    requires Account(account) && InstanceId(id)
    ensures ParseArn(Listed(account, id)) == Some(Instance("aws", "*", account, id))
    ensures GrantArn(Listed(account, id)) == Listed(account, id)
  {
    hide Account, InstanceId, ParseArn, Arn;
    var a := Instance("aws", "*", account, id);
    assert Proper(a);
    ArnRoundTrip(Arn(a), a);
    GrantArnOf(a);
  }

  /** Any region's ARN of an instance is listed as that instance. */
  lemma ListedAs(a: Instance)
    requires Proper(a) && a.partition == "aws"
    ensures GrantArn(Arn(a)) == Listed(a.account, a.id)
    ensures LastSegment(Arn(a), '/') == a.id
  {
    hide Proper, Arn, ParseArn;
    GrantArnOf(a);
    IdIsLast(a);
  }

  lemma ArnsOfGrants(account: string, g: Grants)
    requires HasInstances(account, g)
    ensures AllInstances(Sorted(Arns(account, g)))
    ensures GrantedIds(Sorted(Arns(account, g))) == g.Keys
    ensures GrantArns(Sorted(Arns(account, g))) == Arns(account, g)
  {
    hide ParseArn, GrantArn, Listed, InstanceId, Account, Sorted, Ascending;
    forall id | id in g
      ensures ParseArn(Listed(account, id)) == Some(Instance("aws", "*", account, id))
      ensures GrantArn(Listed(account, id)) == Listed(account, id)
    {
      ListedParses(account, id);
    }
    var list := Sorted(Arns(account, g));
    assert forall a <- list :: exists id :: id in g && a == Listed(account, id);
    forall id | id in g
      ensures id in GrantedIds(list)
    {
      assert Listed(account, id) in list;
    }
  }

  lemma DnsOfGrants(account: string, g: Grants)
    requires WellFormed(account, g)
    ensures AllInstances(Sorted(Arns(account, g)))
    ensures GrantedDns(Sorted(Arns(account, g)), Dns(g)) == Dns(g)
    ensures forall id <- Dns(g) :: NormalDns(Some(Dns(g)[id])) == Some(Dns(g)[id])
  {
    hide NormalDns, HasInstances, Normal, Lasting, Arns, Sorted, AllInstances, GrantedIds;
    ArnsOfGrants(account, g);
    DnsStays(account, g);
  }

  lemma DnsStays(account: string, g: Grants)
    requires WellFormed(account, g)
    ensures forall id <- Dns(g) :: NormalDns(Some(Dns(g)[id])) == Some(Dns(g)[id])
  {
    hide NormalDns, Readable, UsualId, InstanceId, Account;
    forall id | id in Dns(g)
      ensures NormalDns(Some(Dns(g)[id])) == Some(Dns(g)[id])
    {
      NormalAgain(g[id].value);
    }
  }

  /** The policy's document says exactly what is granted. */
  lemma DocumentSaysGrants(account: string, g: Grants)
    requires WellFormed(account, g)
    ensures PolicyDocument(account, g).Some? <==> g != map[]
    ensures g != map[] ==>
      && GrantedArnsOf(PolicyDocument(account, g).value) == Sorted(Arns(account, g))
      && DnsRead(PolicyDocument(account, g).value) == Dns(g)
  {
    hide NormalDns, Readable, Sorted, DocumentOf, GrantedArnsOf, DnsRead, GrantArns, ParseArn, Listed, UsualId;
    var list := Sorted(Arns(account, g));
    ArnsOfGrants(account, g);
    DnsOfGrants(account, g);
    ArnsReadBack(list, Dns(g));
    if g != map[] {
      var id :| id in g;
      assert Listed(account, id) in list;
      DnsReadBackIff(list, Dns(g));
    } else {
      assert Arns(account, g) == {};
      SortedNothing();
    }
  }

  /** Two grants with the same instances and DNS grants are the same. */
  lemma SameGrants(account: string, g: Grants, h: Grants)
    requires HasInstances(account, g) && HasInstances(account, h)
    requires Sorted(Arns(account, g)) == Sorted(Arns(account, h)) && Dns(g) == Dns(h)
    ensures g == h
  {
    hide HasInstances, Sorted, Arns, AllInstances, GrantedIds;
    ArnsOfGrants(account, g);
    ArnsOfGrants(account, h);
    assert g.Keys == h.Keys;
    forall id | id in g
      ensures g[id] == h[id]
    {
      assert id in Dns(g) <==> g[id].Some?;
      assert id in Dns(h) <==> h[id].Some?;
    }
  }

  // ---- what one call does to what was read --------------------------------------------------------------------------

  function WithArn(current: seq<string>, arn: string, on: bool): seq<string> {
    Sorted(if on then GrantArns(current) + {GrantArn(arn)} else GrantArns(current) - {GrantArn(arn)})
  }

  function WithDns(current: DnsGrants, instanceId: string, dns: Option<DnsGrant>): DnsGrants {
    var kept := map id | id in current && id != instanceId && NormalDns(Some(current[id])).Some? ::
        NormalDns(Some(current[id])).value;
    if NormalDns(dns).Some? then kept[instanceId := NormalDns(dns).value] else kept
  }

  lemma AskedWellFormed(account: string, g: Grants, c: Call)
    requires WellFormed(account, g) && Callable(account, c)
    ensures WellFormed(account, Asked(g, c))
  {
    hide NormalDns, Lasting, Account, InstanceId;
    assert InstanceId(c.instance.id);
    if NormalDns(c.dns).Some? {
      assert c.dns.Some? by {
        NothingNormal();
      }
      assert NormalDns(Some(c.dns.value)) == Some(NormalDns(c.dns).value);
      assert Normal(NormalDns(c.dns).value);
    }
  }

  lemma NothingNormal()
    ensures NormalDns(None) == None
  {
  }

  /** Adding or removing the ARN and the DNS grant gives what the call asks for. */
  lemma WithGivesAsked(account: string, g: Grants, c: Call)
    requires WellFormed(account, g) && Callable(account, c)
    ensures WithArn(Sorted(Arns(account, g)), Arn(c.instance), c.on) == Sorted(Arns(account, Asked(g, c)))
    ensures WithDns(Dns(g), c.instance.id, if c.on then c.dns else None) == Dns(Asked(g, c))
  {
    hide HasInstances, GrantArns, GrantArn, Arn, Sorted, Callable, Asked, AllInstances, GrantedIds, Dns;
    ArnsOfGrants(account, g);
    assert Proper(c.instance) && c.instance.partition == "aws" && c.instance.account == account by {
      CallableMeaning(account, c);
    }
    ListedAs(c.instance);
    AskedArns(account, g, c);
    AskedDns(account, g, c);
  }

  lemma CallableMeaning(account: string, c: Call)
    requires Callable(account, c)
    ensures Proper(c.instance) && c.instance.partition == "aws" && c.instance.account == account
  {
    hide NormalDns, Lasting;
  }

  lemma AskedDns(account: string, g: Grants, c: Call)
    requires WellFormed(account, g)
    ensures WithDns(Dns(g), c.instance.id, if c.on then c.dns else None) == Dns(Asked(g, c))
  {
    hide NormalDns, WellFormed;
    DnsStays(account, g);
    NothingNormal();
  }

  lemma AskedArns(account: string, g: Grants, c: Call)
    requires WellFormed(account, g) && Callable(account, c)
    ensures Arns(account, Asked(g, c)) ==
            if c.on then Arns(account, g) + {Listed(account, c.instance.id)}
                else Arns(account, g) - {Listed(account, c.instance.id)}
  {
    hide NormalDns, Lasting, Account, InstanceId, Listed;
    forall id | id in g && Listed(account, id) == Listed(account, c.instance.id)
      ensures id == c.instance.id
    {
      ListedParses(account, id);
      ListedParses(account, c.instance.id);
    }
  }

  /** Taking an instance away never makes the document longer. */
  lemma WithoutIsNoLonger(account: string, g: Grants, id: string)
    requires HasInstances(account, g)
    ensures PolicySize(PolicyDocument(account, g - {id})) <= PolicySize(PolicyDocument(account, g))
  {
    hide HasInstances, Listed, Sorted, DnsStatements, StatementJson, DocumentJson, Arn, StartStop, Ids,
         AllInstances, GrantedIds, Arns, Dns, GrantArns;
    var less := g - {id};
    if id in g {
      var list, rest := Sorted(Arns(account, g)), Sorted(Arns(account, less));
      FewerInstances(account, g, id);
      ArnsOfGrants(account, g);
      ArnsOfGrants(account, less);
      IdsOfGrants(list);
      IdsOfGrants(rest);
      ArnsWithout(account, g, id);
      ListedIn(account, g, id);
      var i := SortedWithout(Arns(account, g), Listed(account, id));
      ListShorter(list, i);
      StartStopShorter(list, rest);
      DnsWithout(g, id);
      var a, x, b := KeyLeftOut(Dns(g), g.Keys, id);
      DocumentShorter(StartStop(list), StartStop(rest), a, x, b);
    } else {
      assert less == g;
    }
  }

  lemma FewerInstances(account: string, g: Grants, id: string)
    requires HasInstances(account, g)
    ensures HasInstances(account, g - {id})
  {
    hide Account, InstanceId;
  }

  lemma ArnsWithout(account: string, g: Grants, id: string)
    requires HasInstances(account, g) && id in g
    ensures Arns(account, g - {id}) == Arns(account, g) - {Listed(account, id)}
  {
    hide Account, InstanceId, Listed;
    forall other | other in g && Listed(account, other) == Listed(account, id)
      ensures other == id
    {
      ListedParses(account, other);
      ListedParses(account, id);
    }
  }

  /** Switching an instance off never makes the document longer. */
  lemma OffIsNoLonger(account: string, g: Grants, c: Call)
    requires WellFormed(account, g) && Callable(account, c) && !c.on && Fits(PolicyDocument(account, g))
    ensures Fits(PolicyDocument(account, Asked(g, c)))
  {
    hide HasInstances, PolicyDocument, PolicySize, Callable, Lasting, Normal;
    WithoutIsNoLonger(account, g, c.instance.id);
  }

  lemma ListedIn(account: string, g: Grants, id: string)
    requires id in g
    ensures Listed(account, id) in Arns(account, g)
  {
  }

  lemma DnsWithout(g: Grants, id: string)
    ensures Dns(g - {id}) == Dns(g) - {id}
  {
  }
}
