/** What `src/autopark_grant.ts` reads back from the document it prints. */
module GrantRoundTrip {
  import opened Options
  import opened Strings
  import opened GrantDocument

  ghost predicate AllInstances(arns: seq<string>) {
    forall a <- arns :: ParseArn(a).Some?
  }

  /** The instances' ids. */
  ghost function GrantedIds(arns: seq<string>): set<string>
    requires AllInstances(arns)
  {
    set a <- arns :: ParseArn(a).value.id
  }

  lemma IdsOfGrants(arns: seq<string>)
    requires AllInstances(arns)
    ensures Ids(Sorted(GrantArns(arns))) == GrantedIds(arns)
    ensures AllInstances(Sorted(GrantArns(arns)))
  {
    hide ParseArn, GrantArn, LastSegment;
    var list := Sorted(GrantArns(arns));
    forall a | a in arns
      ensures GrantArn(a) in list && LastSegment(GrantArn(a), '/') == ParseArn(a).value.id
      ensures ParseArn(GrantArn(a)).Some?
    {
      GrantArnParses(a);
    }
  }

  // ---- the instances ------------------------------------------------------------------------------------------------

  lemma {:induction false} RecognisedAll(list: seq<string>)
    requires forall a <- list :: ParseArn(a).Some? && GrantArn(a) == a
    ensures Recognised(list) == list
  {
    hide ParseArn, GrantArn;
    if list != [] {
      assert list[0] in list;
      RecognisedAll(list[1..]);
      assert [list[0]] + list[1..] == list;
    }
  }

  /** The document grants exactly the instances it was printed for, each in any region, in order. */
  lemma ArnsReadBack(arns: seq<string>, dns: DnsGrants)
    requires AllInstances(arns)
    ensures var doc := DocumentOf(arns, dns);
      if arns == [] then doc == None
      else doc.Some? && GrantedArnsOf(doc.value) == Sorted(GrantArns(arns))
  {
    hide ParseArn, GrantArn, DnsStatements, Recognised, LastSegment;
    var list := Sorted(GrantArns(arns));
    if arns == [] {
      assert forall x <- list :: false;
    } else {
      assert GrantArn(arns[0]) in list;
      forall a | a in list
        ensures ParseArn(a).Some? && GrantArn(a) == a
      {
        var b :| b in arns && a == GrantArn(b);
        GrantArnParses(b);
      }
      RecognisedAll(list);
    }
  }

  // ---- one DNS grant ------------------------------------------------------------------------------------------------

  /** What a normalised grant must be for its statement to say it: zones without slashes, names that stay. */
  predicate Readable(g: DnsGrant) {
    && (forall z <- g.zones :: '/' !in z)
    && (forall n <- g.names :: Settled(n))
  }

  ghost predicate Normal(g: DnsGrant) {
    exists raw :: NormalDns(Some(raw)) == Some(g)
  }

  lemma SlashlessStays(z: string)
    requires '/' !in z
    ensures StripZone(z) == z
  {
    assert ZONE_PREFIX[0] == '/';
    assert z != "" ==> z[0] in z;
  }

  lemma PlainZone(z: string)
    requires '/' !in z
    ensures StripZone(z) == z && LastSegment(ZoneArn(z), '/') == z
  {
    hide StripZone, LastSegment;
    SlashlessStays(z);
    var head := "arn:aws:route53:::hostedzone";
    LastSegmentOf(head, z, '/');
    assert ZONE_ARN == head + ['/'];
  }

  /** The zones survive exactly when none has a slash. */
  lemma ZonesReadBack(zones: seq<string>)
    requires "" !in zones
    ensures Zones(LastSegments(ZoneArns(zones))) == (set z <- zones) <==> forall z <- zones :: '/' !in z
  {
    hide StripZone, LastSegment, ZoneArn;
    var read := LastSegments(ZoneArns(zones));
    forall z | z in Zones(read)
      ensures '/' !in z
    {
      var x :| x in read && z == StripZone(x);
      SlashlessStays(x);
    }
    if forall z <- zones :: '/' !in z {
      forall i | 0 <= i < |zones|
        ensures read[i] == zones[i] && StripZone(read[i]) == zones[i]
      {
        PlainZone(zones[i]);
      }
      forall z
        ensures z in Zones(read) <==> z in zones
      {
        if z in Zones(read) {
          var x :| x in read && z == StripZone(x);
          var i :| 0 <= i < |read| && read[i] == x;
        }
        if z in zones {
          var i :| 0 <= i < |zones| && zones[i] == z;
          assert read[i] in read;
        }
      }
    } else {
      var z :| z in zones && '/' in z;
      assert z in (set z <- zones);
    }
  }

  /** Among normalised names, the ones normalising again would change are the ones not settled, and it makes them
      shorter. */
  lemma Shortens(n: string)
    requires exists raw :: n == NormalizeName(raw)
    ensures NormalizeName(n) == n <==> Settled(n)
    ensures Settled(n) || |NormalizeName(n)| < |n|
  {
    hide NormalizeName, Settled;
    var raw :| n == NormalizeName(raw);
    SettledIff(raw);
  }

  lemma {:induction false} Longest(s: set<string>) returns (x: string)
    requires s != {}
    ensures x in s && forall y <- s :: |y| <= |x|
  {
    x :| x in s;
    if s != {x} {
      var y := Longest(s - {x});
      if |y| > |x| {
        x := y;
      }
    }
  }

  /** The names survive exactly when each is settled: nothing can stand in for the longest one that is not. */
  lemma NamesReadBack(names: seq<string>)
    requires "" !in names && forall n <- names :: exists raw :: n == NormalizeName(raw)
    ensures RecordNames(names) == (set n <- names) <==> forall n <- names :: Settled(n)
  {
    hide NormalizeName, Settled;
    forall n | n in names
      ensures NormalizeName(n) == n <==> Settled(n)
      ensures Settled(n) || |NormalizeName(n)| < |n|
    {
      Shortens(n);
    }
    if forall n <- names :: Settled(n) {
      assert forall n <- names :: NormalizeName(n) == n;
    } else {
      var unsettled := set n <- names | !Settled(n);
      var n0 :| n0 in names && !Settled(n0);
      assert n0 in unsettled;
      var n := Longest(unsettled);
      assert n in (set n <- names);
      forall m | m in names
        ensures NormalizeName(m) != n
      {
        assert !Settled(m) ==> m in unsettled;
      }
      assert n !in RecordNames(names);
    }
  }

  lemma SortedSame(s: set<string>, xs: seq<string>)
    requires Ascending(xs)
    ensures Sorted(s) == xs <==> s == (set x <- xs)
  {
    SortedIs(xs);
    if Sorted(s) == xs {
      assert forall x :: x in s <==> x in xs;
    }
  }

  lemma NormalShape(g: DnsGrant)
    requires Normal(g)
    ensures Ascending(g.zones) && Ascending(g.names) && g.zones != [] && g.names != []
    ensures "" !in g.zones && "" !in g.names
    ensures forall n <- g.names :: exists raw :: n == NormalizeName(raw)
  {
    hide NormalizeName, StripZone, Sorted, Ascending;
    var raw :| NormalDns(Some(raw)) == Some(g);
    var zs, ns := Zones(raw.zones), RecordNames(raw.names);
    assert forall x :: x in g.zones <==> x in zs;
    assert forall x :: x in g.names <==> x in ns;
    var z, n :| z in zs && n in ns;
    assert z in g.zones && n in g.names;
  }

  /** A normalised grant is read back from its statement exactly when it is readable. */
  lemma StatementReads(id: string, g: DnsGrant)
    requires Normal(g)
    ensures DnsOfStatement(DnsStatement(id, g)) == Some(g) <==> Readable(g)
  {
    hide NormalizeName, StripZone, Sorted, Ascending, Settled, Zones, RecordNames;
    NormalShape(g);
    ZonesReadBack(g.zones);
    NamesReadBack(g.names);
    var zs, ns := Zones(LastSegments(ZoneArns(g.zones))), RecordNames(g.names);
    SortedSame(zs, g.zones);
    SortedSame(ns, g.names);
    assert g.zones[0] in (set z <- g.zones) && g.names[0] in (set n <- g.names);
    var s := DnsStatement(id, g);
    assert s.resource.Listed() == ZoneArns(g.zones) && s.names.Listed() == g.names;
  }

  // ---- the whole document -------------------------------------------------------------------------------------------

  /** The DNS grants a document should say: the normalised ones of the granted instances. */
  ghost function GrantedDns(arns: seq<string>, dns: DnsGrants): DnsGrants
    requires AllInstances(arns)
  {
    map id | id in dns && id in GrantedIds(arns) && NormalDns(Some(dns[id])).Some? :: NormalDns(Some(dns[id])).value
  }

  ghost predicate Printed(id: string, dns: DnsGrants, granted: set<string>) {
    id in dns && id in granted && NormalDns(Some(dns[id])).Some?
  }

  ghost function ReadOf(id: string, dns: DnsGrants): Option<DnsGrant>
    requires id in dns && NormalDns(Some(dns[id])).Some?
  {
    if UsualId(id) then DnsOfStatement(DnsStatement(id, NormalDns(Some(dns[id])).value)) else None
  }

  ghost predicate Recovered(id: string, dns: DnsGrants, granted: set<string>) {
    Printed(id, dns, granted) && ReadOf(id, dns).Some?
  }

  /** Reading the statements of some keys gives each recovered key what its own statement says. */
  lemma {:induction false} KeysRead(front: Statement, keys: seq<string>, dns: DnsGrants, granted: set<string>)
    requires forall id <- keys :: id in dns
    requires forall id <- granted :: InstanceId(id)
    requires InstanceOfSid(front.sid).None?
    ensures DnsRead([front] + DnsStatements(keys, dns, granted)) ==
            map id | id in keys && Recovered(id, dns, granted) :: ReadOf(id, dns).value
  {
    hide NormalDns, DnsOfStatement, InstanceOfSid, InstanceId, DnsStatement, UsualId, KeyStatements, ReadOf,
         WithStatement;
    if keys == [] {
      NothingRead(front);
      assert [front] + [] == [front];
    } else {
      var n := |keys| - 1;
      var before := DnsStatements(keys[..n], dns, granted);
      var extra := KeyStatements(keys[n], dns, granted);
      KeysRead(front, keys[..n], dns, granted);
      OneKeyRead(keys[n], dns, granted);
      ReadAppend([front], before, extra);
      assert keys == keys[..n] + [keys[n]];
    }
  }

  lemma NothingRead(front: Statement)
    requires InstanceOfSid(front.sid).None?
    ensures DnsRead([front]) == map[]
  {
    assert [front][..0] == [];
  }

  lemma ReadAppend(a: Document, b: Document, extra: Document)
    requires |extra| <= 1
    ensures DnsRead(a + (b + extra)) == if extra == [] then DnsRead(a + b) else WithStatement(DnsRead(a + b), extra[0])
  {
    hide WithStatement;
    var all := a + (b + extra);
    if extra == [] {
      assert all == a + b;
    } else {
      assert all[..|all| - 1] == a + b && all[|all| - 1] == extra[0];
    }
  }

  /** The statement of one key reads as that key's grant, or not at all. */
  lemma OneKeyRead(id: string, dns: DnsGrants, granted: set<string>)
    requires id in dns
    requires forall id <- granted :: InstanceId(id)
    ensures var extra := KeyStatements(id, dns, granted);
      && |extra| <= 1
      && (extra != [] <==> Printed(id, dns, granted))
      && forall read :: extra != [] ==>
           WithStatement(read, extra[0]) == if Recovered(id, dns, granted) then read[id := ReadOf(id, dns).value]
               else read
  {
    hide NormalDns, DnsOfStatement, InstanceOfSid, InstanceId, UsualId;
    if id in granted {
      SidReadsBack(id);
    }
  }

  lemma FrontSid()
    ensures InstanceOfSid(START_STOP).None?
  {
    assert START_STOP[8] != DNS_SID[8];
  }

  /** For every list of instances, the DNS grants are read back exactly when every printed one names a usual instance
      id and is readable. */
  lemma DnsReadBackIff(arns: seq<string>, dns: DnsGrants)
    requires AllInstances(arns) && arns != []
    ensures DocumentOf(arns, dns).Some?
    ensures DnsRead(DocumentOf(arns, dns).value) == GrantedDns(arns, dns)
            <==> forall id <- GrantedDns(arns, dns) :: UsualId(id) && Readable(GrantedDns(arns, dns)[id])
  {
    hide NormalDns, DnsRead, DnsStatements, GrantArns, Readable, UsualId, ParseArn, InstanceOfSid, Ids,
         DnsOfStatement, DnsStatement, InstanceId, Sorted;
    var list := Sorted(GrantArns(arns));
    var keys := Sorted(dns.Keys);
    ArnsReadBack(arns, dns);
    IdsOfGrants(arns);
    FrontSid();
    GrantedAreInstances(arns);
    KeysRead(StartStop(list), keys, dns, Ids(list));
    var want, read := GrantedDns(arns, dns), DnsRead(DocumentOf(arns, dns).value);
    assert forall id :: id in want <==> Printed(id, dns, Ids(list));
    assert forall id :: id in read <==> Recovered(id, dns, Ids(list));
    forall id | id in want
      ensures ReadOf(id, dns) == Some(want[id]) <==> UsualId(id) && Readable(want[id])
    {
      StatementReads(id, want[id]) by {
        assert NormalDns(Some(dns[id])) == Some(want[id]);
      }
    }
    assert forall id <- read :: read[id] == ReadOf(id, dns).value;
    if read == want {
      forall id | id in want
        ensures UsualId(id) && Readable(want[id])
      {
        assert id in read && read[id] == want[id];
      }
    }
    if forall id <- want :: UsualId(id) && Readable(want[id]) {
      assert forall id :: id in want <==> id in read;
    }
  }

  lemma GrantedAreInstances(arns: seq<string>)
    requires AllInstances(arns)
    ensures forall id <- GrantedIds(arns) :: InstanceId(id)
  {
    hide ParseArn, InstanceId;
    forall a | a in arns
      ensures InstanceId(ParseArn(a).value.id)
    {
      ArnRoundTrip(a, ParseArn(a).value);
    }
  }

  /** Printing what was read gives the same document. */
  lemma Reprint(arns: seq<string>, dns: DnsGrants)
    requires AllInstances(arns) && arns != []
    requires forall id <- GrantedDns(arns, dns) :: UsualId(id) && Readable(GrantedDns(arns, dns)[id])
    ensures DocumentOf(arns, dns).Some?
    ensures var doc := DocumentOf(arns, dns).value; DocumentOf(GrantedArnsOf(doc), DnsRead(doc)) == Some(doc)
  {
    hide NormalDns, DnsRead, DnsStatements, GrantArns, Readable, UsualId, ParseArn, InstanceOfSid, Ids,
         DnsOfStatement, Sorted, StartStop;
    DnsReadBackIff(arns, dns);
    ArnsReadBack(arns, dns);
    IdsOfGrants(arns);
    var list := Sorted(GrantArns(arns));
    Relisted(arns);
    SameStatements(arns, dns);
  }

  lemma Relisted(arns: seq<string>)
    requires AllInstances(arns)
    ensures GrantArns(Sorted(GrantArns(arns))) == GrantArns(arns)
  {
    hide ParseArn, GrantArn;
    forall a | a in arns
      ensures GrantArn(GrantArn(a)) == GrantArn(a)
    {
      GrantArnParses(a);
    }
  }

  lemma NormalAgain(g: DnsGrant)
    requires Normal(g)
    ensures NormalDns(Some(g)) == Some(g) <== Readable(g)
  {
    hide NormalizeName, StripZone, Sorted, Ascending, Settled;
    NormalShape(g);
    NamesReadBack(g.names);
    if Readable(g) {
      forall z | z in g.zones
        ensures StripZone(z) == z
      {
        SlashlessStays(z);
      }
      assert Zones(g.zones) == set z <- g.zones;
      SortedSame(Zones(g.zones), g.zones);
      SortedSame(RecordNames(g.names), g.names);
      assert g.zones[0] in (set z <- g.zones) && g.names[0] in (set n <- g.names);
    }
  }

  /** Only what is printed matters to the statements: dropping the other keys and normalising the rest changes
      nothing. */
  lemma SameStatements(arns: seq<string>, dns: DnsGrants)
    requires AllInstances(arns)
    requires forall id <- GrantedDns(arns, dns) :: Readable(GrantedDns(arns, dns)[id])
    ensures var want := GrantedDns(arns, dns);
      DnsStatements(Sorted(want.Keys), want, GrantedIds(arns)) == DnsStatements(Sorted(dns.Keys), dns, GrantedIds(arns))
  {
    hide NormalDns, Sorted, Readable, DnsStatements;
    var want := GrantedDns(arns, dns);
    forall id | id in want
      ensures NormalDns(Some(want[id])) == Some(want[id]) && id in GrantedIds(arns)
    {
      NormalAgain(want[id]) by {
        assert NormalDns(Some(dns[id])) == Some(want[id]);
      }
    }
    PrintedOnly(Sorted(dns.Keys), dns, want, GrantedIds(arns));
    var printed := Only(Sorted(dns.Keys), want.Keys);
    OnlyMeaning(Sorted(dns.Keys), want.Keys);
    AscendingUnique(Sorted(want.Keys), printed);
  }

  ghost function Only(keys: seq<string>, some: set<string>): seq<string> {
    if keys == [] then []
    else Only(keys[..|keys| - 1], some) + if keys[|keys| - 1] in some then [keys[|keys| - 1]] else []
  }

  lemma {:induction false} OnlyMeaning(keys: seq<string>, some: set<string>)
    ensures forall k :: k in Only(keys, some) <==> k in keys && k in some
    ensures Ascending(keys) ==> Ascending(Only(keys, some))
  {
    hide AtMost;
    if keys != [] {
      var n := |keys| - 1;
      OnlyMeaning(keys[..n], some);
      assert keys == keys[..n] + [keys[n]];
      var kept := Only(keys[..n], some);
      if Ascending(keys) {
        forall i | 0 <= i < |kept|
          ensures AtMost(kept[i], keys[n]) && kept[i] != keys[n]
        {
          assert kept[i] in kept && kept[i] in keys[..n];
          var j :| 0 <= j < n && keys[j] == kept[i];
        }
      }
    }
  }

  lemma {:induction false} PrintedOnly(keys: seq<string>, dns: DnsGrants, want: DnsGrants, granted: set<string>)
    requires forall id <- keys :: id in dns
    requires forall id <- keys :: Printed(id, dns, granted) <==> id in want
    requires forall id <- want :: id in granted && NormalDns(Some(want[id])) == Some(want[id])
    requires forall id <- want :: id in dns && NormalDns(Some(dns[id])) == Some(want[id])
    ensures forall id <- Only(keys, want.Keys) :: id in want
    ensures DnsStatements(Only(keys, want.Keys), want, granted) == DnsStatements(keys, dns, granted)
  {
    hide NormalDns, DnsStatement;
    OnlyMeaning(keys, want.Keys);
    if keys != [] {
      var n := |keys| - 1;
      assert keys == keys[..n] + [keys[n]];
      PrintedOnly(keys[..n], dns, want, granted);
      var kept := Only(keys[..n], want.Keys);
      if keys[n] in want {
        assert (kept + [keys[n]])[..|kept|] == kept;
      } else {
        assert kept + [] == kept;
      }
    }
  }
}
