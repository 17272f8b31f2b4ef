/** Reading the grant policy's document and printing it again never makes it longer, `src/autopark_grant.ts`: each DNS
    statement's zones and names can only become fewer and shorter. */
module GrantShrink {
  import opened Options
  import opened Strings
  import opened JsonText
  import opened GrantDocument
  import opened GrantRoundTrip
  import opened GrantSize

  // ---- a set of images costs no more than what it was made of -------------------------------------------------------

  ghost function Cost(xs: seq<string>, w: string -> nat): nat {
    if xs == [] then 0 else w(xs[0]) + Cost(xs[1..], w)
  }

  lemma {:induction false} CostWithout(xs: seq<string>, i: nat, w: string -> nat)
    requires i < |xs|
    ensures Cost(xs, w) == Cost(xs[..i] + xs[i + 1..], w) + w(xs[i])
  {
    var rest := xs[..i] + xs[i + 1..];
    if i == 0 {
      assert rest == xs[1..];
    } else {
      CostWithout(xs[1..], i - 1, w);
      assert rest[1..] == xs[1..][..i - 1] + xs[1..][i..];
    }
  }

  /** Different texts that are all images of some of `xs`, under a function that costs nothing, cost no more than
      `xs`. */
  lemma {:induction false} ImagesCostLess(ys: seq<string>, xs: seq<string>, f: string -> string, w: string -> nat)
    requires forall i, j :: 0 <= i < j < |ys| ==> ys[i] != ys[j]
    requires forall y <- ys :: exists i :: 0 <= i < |xs| && f(xs[i]) == y
    requires forall x <- xs :: w(f(x)) <= w(x)
    ensures Cost(ys, w) <= Cost(xs, w)
  {
    if ys != [] {
      assert ys[0] in ys;
      var i :| 0 <= i < |xs| && f(xs[i]) == ys[0];
      var rest := xs[..i] + xs[i + 1..];
      forall y | y in ys[1..]
        ensures exists j :: 0 <= j < |rest| && f(rest[j]) == y
      {
        assert y in ys && y != ys[0];
        var j :| 0 <= j < |xs| && f(xs[j]) == y;
        assert rest[if j < i then j else j - 1] == xs[j];
      }
      ImagesCostLess(ys[1..], rest, f, w);
      CostWithout(xs, i, w);
    }
  }

  // ---- texts that become shorter ------------------------------------------------------------------------------------

  lemma {:induction false} EscapeConcat(a: string, b: string)
    ensures Escape(a + b) == Escape(a) + Escape(b)
  {
    hide Escape, EscapeChar;
    if a == "" {
      EscapeNothing();
      assert a + b == b;
    } else {
      EscapeConcat(a[1..], b);
      EscapeFirst(a + b);
      EscapeFirst(a);
      assert (a + b)[1..] == a[1..] + b;
    }
  }

  lemma EscapeNothing()
    ensures Escape("") == ""
  {
  }

  lemma EscapeFirst(s: string)
    requires s != ""
    ensures Escape(s) == EscapeChar(s[0]) + Escape(s[1..])
  {
  }

  lemma PrefixQuoted(p: string, s: string)
    requires p <= s
    ensures |Quoted(p)| <= |Quoted(s)|
  {
    EscapeConcat(p, s[|p|..]);
    assert s == p + s[|p|..];
  }

  lemma SuffixQuoted(s: string, k: nat)
    requires k <= |s|
    ensures |Quoted(s[k..])| <= |Quoted(s)|
  {
    EscapeConcat(s[..k], s[k..]);
    assert s == s[..k] + s[k..];
  }

  lemma {:induction false} LowerQuoted(s: string)
    ensures |Quoted(Lower(s))| == |Quoted(s)|
  {
    if s != "" {
      LowerQuoted(s[1..]);
      LowerCharEscaped(s[0]);
      hide EscapeChar, LowerChar;
      assert Lower(s)[0] == LowerChar(s[0]) && Lower(s)[1..] == Lower(s[1..]);
    }
  }

  lemma LowerCharEscaped(c: char)
    ensures |EscapeChar(LowerChar(c))| == |EscapeChar(c)|
  {
  }

  lemma {:induction false} SkipQuoted(s: string)
    ensures |Quoted(SkipSpaces(s))| <= |Quoted(s)|
  {
    hide IsSpace, Quoted;
    if s != "" && IsSpace(s[0]) {
      SkipQuoted(s[1..]);
      SuffixQuoted(s, 1);
    }
  }

  /** A normalised name takes no more room. */
  lemma NameQuoted(n: string)
    ensures |Quoted(NormalizeName(n))| <= |Quoted(n)|
  {
    hide Quoted, Trim, IsSpace, LowerChar, DropDot, Lower;
    var t := Trim(n);
    assert |Quoted(t)| <= |Quoted(n)| by {
      TrimIsEnd(n);
      SkipQuoted(n);
      TrimEndMeaning(SkipSpaces(n));
      PrefixQuoted(t, SkipSpaces(n));
    }
    LowerQuoted(t);
    DropDotMeaning(Lower(t));
    PrefixQuoted(DropDot(Lower(t)), Lower(t));
  }

  lemma TrimIsEnd(n: string)
    ensures Trim(n) == TrimEnd(SkipSpaces(n))
  {
  }

  lemma ZoneQuoted(z: string)
    ensures |Quoted(ZONE_ARN + z)| == |Quoted(z)| + |Escape(ZONE_ARN)|
  {
    EscapeConcat(ZONE_ARN, z);
  }

  lemma {:induction false} LastSegmentIsSuffix(s: string) returns (k: nat)
    ensures k <= |s| && LastSegment(s, '/') == s[k..]
  {
    if '/' in s {
      k := LastSegmentIsSuffix(s[1..]);
      k := k + 1;
    } else {
      k := 0;
    }
  }

  lemma {:induction false} LastSegmentAfter(before: string, s: string)
    ensures LastSegment(before + ['/'] + s, '/') == LastSegment(s, '/')
  {
    var text := before + ['/'] + s;
    assert text[|before|] == '/';
    if before == "" {
      assert text[1..] == s;
    } else {
      assert text[1..] == before[1..] + ['/'] + s;
      LastSegmentAfter(before[1..], s);
    }
  }

  /** The zone read from the ARN of a zone. */
  function ZoneAgain(z: string): string {
    StripZone(LastSegment(ZoneArn(z), '/'))
  }

  /** A zone's ARN takes no more room after it was stripped, or read. */
  lemma ZoneShrinks(z: string)
    ensures |Quoted(ZoneArn(StripZone(z)))| <= |Quoted(ZoneArn(z))|
    ensures |Quoted(ZoneArn(ZoneAgain(z)))| <= |Quoted(ZoneArn(z))|
  {
    hide Quoted, LastSegment, StripZone, ZONE_ARN;
    var s := StripZone(z);
    StrippedQuoted(s);
    LastOfZone(s);
    var k := LastSegmentIsSuffix(s);
    SuffixQuoted(s, k);
    SlashlessStays(LastSegment(s, '/'));
    ZoneQuoted(s);
    ZoneQuoted(LastSegment(s, '/'));
  }

  lemma LastOfZone(s: string)
    ensures LastSegment(ZONE_ARN + s, '/') == LastSegment(s, '/')
  {
    hide LastSegment;
    var head := "arn:aws:route53:::hostedzone";
    assert ZONE_ARN == head + ['/'];
    LastSegmentAfter(head, s);
  }

  lemma StrippedQuoted(s: string)
    ensures |Quoted(ZoneArn(s))| <= |Quoted(ZONE_ARN + s)|
  {
    hide Quoted;
    var k := if ZONE_PREFIX <= s then |ZONE_PREFIX| else 0;
    assert StripZone(s) == s[k..];
    SuffixQuoted(s, k);
    ZoneQuoted(s);
    ZoneQuoted(s[k..]);
  }

  // ---- statements that become shorter -------------------------------------------------------------------------------

  function NameCost(n: string): nat {
    |Quoted(n)| + 1
  }

  function ZoneCost(z: string): nat {
    |Quoted(ZoneArn(z))| + 1
  }

  lemma {:induction false} NamesTotal(xs: seq<string>)
    ensures Total(QuotedAll(xs)) + |xs| == Cost(xs, NameCost)
  {
    hide Quoted;
    if xs != [] {
      NamesTotal(xs[1..]);
      assert QuotedAll(xs)[1..] == QuotedAll(xs[1..]);
    }
  }

  lemma {:induction false} ZonesTotal(zs: seq<string>)
    ensures Total(QuotedAll(ZoneArns(zs))) + |zs| == Cost(zs, ZoneCost)
  {
    hide Quoted, ZoneArn;
    if zs != [] {
      ZonesTotal(zs[1..]);
      assert QuotedAll(ZoneArns(zs))[1..] == QuotedAll(ZoneArns(zs[1..]));
    }
  }

  lemma ListLength(xs: seq<string>)
    ensures |ListJson(xs)| == Total(QuotedAll(xs)) + |xs| + if xs == [] then 2 else 1
  {
    hide Quoted;
    JoinLength(QuotedAll(xs), ',');
  }

  lemma NamesShrink(raw: seq<string>)
    requires RecordNames(raw) != {}
    ensures |ListJson(Sorted(RecordNames(raw)))| <= |ListJson(raw)|
  {
    hide NormalizeName, Quoted, ListJson, AtMost, Cost;
    var names := Sorted(RecordNames(raw));
    forall x | x in raw
      ensures NameCost(NormalizeName(x)) <= NameCost(x)
    {
      NameQuoted(x);
    }
    ImagesCostLess(names, raw, NormalizeName, NameCost);
    NamesTotal(names);
    NamesTotal(raw);
    ListLength(names);
    ListLength(raw);
    assert names != [] by {
      var x :| x in RecordNames(raw);
      assert x in names;
    }
  }

  lemma ZonesShrink(zones: seq<string>, raw: seq<string>, f: string -> string)
    requires forall i, j :: 0 <= i < j < |zones| ==> zones[i] != zones[j]
    requires zones != [] && forall z <- zones :: exists i :: 0 <= i < |raw| && f(raw[i]) == z
    requires forall z :: ZoneCost(f(z)) <= ZoneCost(z)
    ensures |ListJson(ZoneArns(zones))| <= |ListJson(ZoneArns(raw))|
  {
    hide ZoneArn, Quoted, ListJson, Cost, ZoneCost;
    ImagesCostLess(zones, raw, f, ZoneCost);
    ZonesTotal(zones);
    ZonesTotal(raw);
    ListLength(ZoneArns(zones));
    ListLength(ZoneArns(raw));
    assert raw != [] by {
      assert zones[0] in zones;
    }
  }

  ghost function StatementSize(id: string, g: DnsGrant): nat {
    |StatementJson(DnsStatement(id, g))|
  }

  lemma FieldsShrink(id: string, g: DnsGrant, h: DnsGrant)
    requires |ListJson(ZoneArns(h.zones))| <= |ListJson(ZoneArns(g.zones))|
    requires |ListJson(h.names)| <= |ListJson(g.names)|
    ensures StatementSize(id, h) <= StatementSize(id, g)
  {
    hide SID, EFFECT, ACTION, RESOURCE, CONDITION, RECORD_TYPES, CHANGES, ListJson, Quoted, DnsSid, ZoneArns;
  }

  /** Normalising a grant makes its statement no longer. */
  lemma NormalShrinks(id: string, g: DnsGrant)
    ensures var h := NormalDns(Some(g)); h.Some? ==> StatementSize(id, h.value) <= StatementSize(id, g)
  {
    hide NormalizeName, StripZone, ListJson, StatementSize, ZoneCost, AtMost;
    var h := NormalDns(Some(g));
    if h.Some? {
      forall z
        ensures ZoneCost(StripZone(z)) <= ZoneCost(z)
      {
        ZoneCostShrinks(z);
      }
      var x :| x in Zones(g.zones);
      assert x in h.value.zones;
      ZonesShrink(h.value.zones, g.zones, StripZone);
      NamesShrink(g.names);
      FieldsShrink(id, g, h.value);
    }
  }

  lemma ZoneCostShrinks(z: string)
    ensures ZoneCost(StripZone(z)) <= ZoneCost(z)
    ensures ZoneCost(ZoneAgain(z)) <= ZoneCost(z)
  {
    hide Quoted, ZoneAgain, StripZone, ZoneArn;
    ZoneShrinks(z);
  }

  /** Reading a statement and printing what it says makes it no longer. */
  lemma ReadShrinks(id: string, g: DnsGrant)
    ensures var h := DnsOfStatement(DnsStatement(id, g)); h.Some? ==> StatementSize(id, h.value) <= StatementSize(id, g)
  {
    hide NormalizeName, StripZone, ListJson, StatementSize, ZoneCost, ZoneArn, LastSegment, AtMost;
    var s := DnsStatement(id, g);
    assert s.resource.Listed() == ZoneArns(g.zones) && s.names.Listed() == g.names;
    var read := LastSegments(ZoneArns(g.zones));
    var h := DnsOfStatement(s);
    if h.Some? {
      forall z
        ensures ZoneCost(ZoneAgain(z)) <= ZoneCost(z)
      {
        ZoneCostShrinks(z);
      }
      forall i | 0 <= i < |read|
        ensures StripZone(read[i]) == ZoneAgain(g.zones[i])
      {
      }
      var x :| x in Zones(read);
      assert x in h.value.zones;
      forall z | z in h.value.zones
        ensures exists i :: 0 <= i < |g.zones| && ZoneAgain(g.zones[i]) == z
      {
        var y :| y in read && StripZone(y) == z;
        var i :| 0 <= i < |read| && read[i] == y;
        assert ZoneAgain(g.zones[i]) == z;
      }
      hide ZoneAgain;
      ZonesShrink(h.value.zones, g.zones, ZoneAgain);
      NamesShrink(g.names);
      FieldsShrink(id, g, h.value);
    }
  }

  // ---- documents that become shorter --------------------------------------------------------------------------------

  /** The room some statements take, each with a separator. */
  ghost function Weight(doc: Document): nat {
    Total(StatementJsons(doc)) + |doc|
  }

  lemma WeightConcat(a: Document, b: Document)
    ensures Weight(a + b) == Weight(a) + Weight(b)
  {
    hide StatementJson;
    TotalConcat(StatementJsons(a), StatementJsons(b));
    assert StatementJsons(a + b) == StatementJsons(a) + StatementJsons(b);
  }

  lemma WeightOne(s: Statement)
    ensures Weight([s]) == |StatementJson(s)| + 1
  {
    hide StatementJson;
    var one := StatementJsons([s]);
    assert one == [StatementJson(s)] && one[1..] == [];
    assert Total(one) == |one[0]| + Total(one[1..]);
  }

  lemma LighterIsShorter(front: Statement, a: Document, b: Document)
    requires Weight(b) <= Weight(a)
    ensures |DocumentJson([front] + b)| <= |DocumentJson([front] + a)|
  {
    hide StatementJson, DOCUMENT_HEAD, Weight;
    WeightConcat([front], a);
    WeightConcat([front], b);
    JoinLength(StatementJsons([front] + a), ',');
    JoinLength(StatementJsons([front] + b), ',');
    WeightMeaning([front] + a);
    WeightMeaning([front] + b);
  }

  lemma WeightMeaning(doc: Document)
    ensures Weight(doc) == Total(StatementJsons(doc)) + |doc|
  {
  }

  /** Some of the keys, each with a statement that is no longer or gone, weigh no more than all of them. */
  lemma {:induction false} KeysShrink(keys: seq<string>, dns: DnsGrants, less: DnsGrants, granted: set<string>)
    requires forall id <- keys :: id in dns
    requires forall id <- keys :: id in less ==>
      Weight(KeyStatements(id, less, granted)) <= Weight(KeyStatements(id, dns, granted))
    ensures forall id <- Only(keys, less.Keys) :: id in less
    ensures Weight(DnsStatements(Only(keys, less.Keys), less, granted)) <= Weight(DnsStatements(keys, dns, granted))
  {
    hide KeyStatements, Weight;
    OnlyMeaning(keys, less.Keys);
    if keys != [] {
      var n := |keys| - 1;
      assert keys == keys[..n] + [keys[n]];
      KeysShrink(keys[..n], dns, less, granted);
      var kept := Only(keys[..n], less.Keys);
      WeightConcat(DnsStatements(keys[..n], dns, granted), KeyStatements(keys[n], dns, granted));
      if keys[n] in less {
        assert (kept + [keys[n]])[..|kept|] == kept;
        WeightConcat(DnsStatements(kept, less, granted), KeyStatements(keys[n], less, granted));
      } else {
        assert kept + [] == kept;
      }
    }
  }

  /** What the policy says for fewer or shorter DNS grants of the same instances is no longer. */
  lemma DocumentShrinks(arns: seq<string>, dns: DnsGrants, less: DnsGrants)
    requires less.Keys <= dns.Keys
    requires var granted := Ids(Sorted(GrantArns(arns)));
      forall id <- less :: Weight(KeyStatements(id, less, granted)) <= Weight(KeyStatements(id, dns, granted))
    ensures PolicySize(DocumentOf(arns, less)) <= PolicySize(DocumentOf(arns, dns))
  {
    hide Weight, KeyStatements, StatementJson, DocumentJson, GrantArns, Ids, DnsStatements;
    var list := Sorted(GrantArns(arns));
    var keys := Sorted(dns.Keys);
    KeysShrink(keys, dns, less, Ids(list));
    OnlyMeaning(keys, less.Keys);
    AscendingUnique(Sorted(less.Keys), Only(keys, less.Keys));
    LighterIsShorter(StartStop(list), DnsStatements(keys, dns, Ids(list)),
                     DnsStatements(Sorted(less.Keys), less, Ids(list)));
  }
}
