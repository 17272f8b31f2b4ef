/** The size of the Auto-park grant policy, `src/autopark_grant.ts`: the length of its compact JSON. */
module GrantSize {
  import opened Options
  import opened Strings
  import opened JsonText
  import opened GrantDocument
  import opened GrantRoundTrip

  const MANAGED_POLICY_LIMIT := 6144
  const LIMIT_MARGIN := 128

  const DOCUMENT_HEAD := "{\"Version\":\"2012-10-17\",\"Statement\":["
  const SID := "{\"Sid\":"
  const EFFECT := ",\"Effect\":"
  const ACTION := ",\"Action\":"
  const RESOURCE := ",\"Resource\":"
  const CONDITION := ",\"Condition\":{\"ForAllValues:StringEquals\":" +
                     "{\"route53:ChangeResourceRecordSetsNormalizedRecordNames\":"
  const RECORD_TYPES := ",\"route53:ChangeResourceRecordSetsRecordTypes\":"
  const CHANGES := ",\"route53:ChangeResourceRecordSetsActions\":"

  function QuotedAll(xs: seq<string>): seq<string> {
    seq(|xs|, i requires 0 <= i < |xs| => Quoted(xs[i]))
  }

  function ListJson(xs: seq<string>): string {
    "[" + Join(QuotedAll(xs), ',') + "]"
  }

  function FieldJson(f: Field): string {
    match f
    case Absent => ""
    case One(s) => Quoted(s)
    case Many(xs) => ListJson(xs)
  }

  function StatementJson(s: Statement): string {
    SID + Quoted(s.sid) + EFFECT + Quoted(s.effect) + ACTION + ListJson(s.actions) + RESOURCE + FieldJson(s.resource)
    + (if s.names.Absent? then ""
       else CONDITION + FieldJson(s.names) + RECORD_TYPES + ListJson(s.recordTypes) + CHANGES + ListJson(s.changes)
            + "}}") + "}"
  }

  function StatementJsons(doc: Document): seq<string> {
    seq(|doc|, i requires 0 <= i < |doc| => StatementJson(doc[i]))
  }

  function DocumentJson(doc: Document): string {
    DOCUMENT_HEAD + Join(StatementJsons(doc), ',') + "]}"
  }

  function PolicySize(doc: Option<Document>): nat {
    if doc.None? then 0 else |DocumentJson(doc.value)|
  }

  predicate Fits(doc: Option<Document>) {
    PolicySize(doc) <= MANAGED_POLICY_LIMIT - LIMIT_MARGIN
  }

  // ---- how long the JSON is -----------------------------------------------------------------------------------------

  ghost function Commas(items: nat): nat {
    if items == 0 then 0 else items - 1
  }

  ghost function ItemsLength(xs: seq<string>): nat {
    if xs == [] then 0 else |Quoted(xs[0])| + ItemsLength(xs[1..])
  }

  ghost function ListLength(xs: seq<string>): nat {
    2 + ItemsLength(xs) + Commas(|xs|)
  }

  ghost function FieldLength(f: Field): nat {
    match f
    case Absent => 0
    case One(text) => |Quoted(text)|
    case Many(texts) => ListLength(texts)
  }

  /** The statement's braces, colons, commas and names take 40 characters, those of its condition 191. */
  ghost function StatementLength(s: Statement): nat {
    40 + |Quoted(s.sid)| + |Quoted(s.effect)| + ListLength(s.actions) + FieldLength(s.resource)
    + match s.names
      case Absent => 0
      case _ => 191 + FieldLength(s.names) + ListLength(s.recordTypes) + ListLength(s.changes)
  }

  ghost function StatementsLength(doc: Document): nat {
    if doc == [] then 0 else StatementLength(doc[0]) + StatementsLength(doc[1..])
  }

  ghost function DocumentLength(doc: Document): nat {
    39 + StatementsLength(doc) + Commas(|doc|)
  }

  lemma {:induction false} ItemsAre(xs: seq<string>)
    ensures Total(QuotedAll(xs)) == ItemsLength(xs)
  {
    hide Quoted;
    if xs != [] {
      assert QuotedAll(xs)[1..] == QuotedAll(xs[1..]);
      ItemsAre(xs[1..]);
    }
  }

  lemma ListIs(xs: seq<string>)
    ensures |ListJson(xs)| == ListLength(xs)
  {
    hide Quoted;
    ItemsAre(xs);
    JoinLength(QuotedAll(xs), ',');
  }

  lemma FieldIs(f: Field)
    ensures |FieldJson(f)| == FieldLength(f)
  {
    hide ListJson, ListLength, Quoted;
    if f.Many? {
      ListIs(f.texts);
    }
  }

  lemma StatementIs(s: Statement)
    ensures |StatementJson(s)| == StatementLength(s)
  {
    hide ListJson, ListLength, FieldJson, FieldLength, Quoted;
    ListIs(s.actions);
    FieldIs(s.resource);
    FieldIs(s.names);
    ListIs(s.recordTypes);
    ListIs(s.changes);
  }

  lemma {:induction false} StatementsAre(doc: Document)
    ensures Total(StatementJsons(doc)) == StatementsLength(doc)
  {
    hide StatementJson, StatementLength;
    if doc != [] {
      StatementIs(doc[0]);
      assert StatementJsons(doc)[1..] == StatementJsons(doc[1..]);
      StatementsAre(doc[1..]);
    }
  }

  /** A document fits exactly when its JSON takes at most 6,016 characters: the limit of 6,144 less the margin. */
  lemma FitsIff(doc: Option<Document>)
    ensures doc.Some? ==> |DocumentJson(doc.value)| == DocumentLength(doc.value)
    ensures Fits(doc) <==> doc.None? || DocumentLength(doc.value) <= 6016
  {
    hide StatementJsons, StatementsLength;
    if doc.Some? {
      StatementsAre(doc.value);
      assert |StatementJsons(doc.value)| == |doc.value| by {
        StatementCount(doc.value);
      }
      JoinLength(StatementJsons(doc.value), ',');
    }
  }

  lemma StatementCount(doc: Document)
    ensures |StatementJsons(doc)| == |doc|
  {
  }

  // ---- taking an instance away makes the document no longer ---------------------------------------------------------

  ghost function Total(parts: seq<string>): nat {
    if parts == [] then 0 else |parts[0]| + Total(parts[1..])
  }

  lemma {:induction false} TotalConcat(a: seq<string>, b: seq<string>)
    ensures Total(a + b) == Total(a) + Total(b)
  {
    if a == [] {
      assert a + b == b;
    } else {
      assert (a + b)[1..] == a[1..] + b;
      TotalConcat(a[1..], b);
    }
  }

  lemma {:induction false} JoinLength(parts: seq<string>, sep: char)
    ensures |Join(parts, sep)| == Total(parts) + if parts == [] then 0 else |parts| - 1
  {
    if |parts| == 1 {
      assert parts[1..] == [];
    } else if parts != [] {
      JoinLength(parts[1..], sep);
    }
  }

  /** Leaving parts out makes a joined text no longer. */
  lemma LeftOutShorter(a: seq<string>, x: seq<string>, b: seq<string>, sep: char)
    ensures |Join(a + b, sep)| <= |Join(a + x + b, sep)|
  {
    JoinLength(a + b, sep);
    JoinLength(a + x + b, sep);
    TotalConcat(a, b);
    TotalConcat(a + x, b);
    TotalConcat(a, x);
  }

  lemma ListShorter(xs: seq<string>, i: nat)
    requires i < |xs|
    ensures |ListJson(xs[..i] + xs[i + 1..])| <= |ListJson(xs)|
  {
    hide Quoted;
    var a, x, b := QuotedAll(xs[..i]), QuotedAll([xs[i]]), QuotedAll(xs[i + 1..]);
    assert QuotedAll(xs[..i] + xs[i + 1..]) == a + b;
    assert QuotedAll(xs) == a + x + b;
    LeftOutShorter(a, x, b, ',');
  }

  lemma StartStopShorter(xs: seq<string>, ys: seq<string>)
    requires |ListJson(ys)| <= |ListJson(xs)|
    ensures |StatementJson(StartStop(ys))| <= |StatementJson(StartStop(xs))|
  {
    hide SID, EFFECT, ACTION, RESOURCE, CONDITION, RECORD_TYPES, CHANGES, ListJson, Quoted;
  }

  lemma FirstShorter(s: Statement, t: Statement, rest: Document)
    requires |StatementJson(t)| <= |StatementJson(s)|
    ensures |Join(StatementJsons([t] + rest), ',')| <= |Join(StatementJsons([s] + rest), ',')|
  {
    hide StatementJson;
    var r := StatementJsons(rest);
    assert StatementJsons([t] + rest) == [StatementJson(t)] + r;
    assert StatementJsons([s] + rest) == [StatementJson(s)] + r;
    JoinLength([StatementJson(t)] + r, ',');
    JoinLength([StatementJson(s)] + r, ',');
    assert ([StatementJson(t)] + r)[1..] == r && ([StatementJson(s)] + r)[1..] == r;
  }

  lemma StatementsShorter(front: Statement, a: Document, x: Document, b: Document)
    ensures |Join(StatementJsons([front] + (a + b)), ',')| <= |Join(StatementJsons([front] + (a + x + b)), ',')|
  {
    hide StatementJson;
    assert StatementJsons([front] + (a + b)) == StatementJsons([front] + a) + StatementJsons(b);
    assert StatementJsons([front] + (a + x + b)) == StatementJsons([front] + a) + StatementJsons(x) + StatementJsons(b);
    LeftOutShorter(StatementJsons([front] + a), StatementJsons(x), StatementJsons(b), ',');
  }

  lemma DocumentShorter(s: Statement, t: Statement, a: Document, x: Document, b: Document)
    requires |StatementJson(t)| <= |StatementJson(s)|
    ensures |DocumentJson([t] + (a + b))| <= |DocumentJson([s] + (a + x + b))|
  {
    hide StatementJson, DOCUMENT_HEAD;
    StatementsShorter(t, a, x, b);
    FirstShorter(s, t, a + x + b);
  }

  /** The statements of keys that neither grant set names differently are the same. */
  lemma {:induction false} SameKeys(keys: seq<string>, dns: DnsGrants, less: DnsGrants, granted: set<string>,
                                    fewer: set<string>)
    requires forall id <- keys :: id in dns && id in less && dns[id] == less[id] && (id in granted <==> id in fewer)
    ensures DnsStatements(keys, dns, granted) == DnsStatements(keys, less, fewer)
  {
    hide KeyStatements;
    if keys != [] {
      var n := |keys| - 1;
      assert keys == keys[..n] + [keys[n]];
      SameKeys(keys[..n], dns, less, granted, fewer);
      assert KeyStatements(keys[n], dns, granted) == KeyStatements(keys[n], less, fewer) by {
        SameKey(keys[n], dns, less, granted, fewer);
      }
    }
  }

  lemma SameKey(id: string, dns: DnsGrants, less: DnsGrants, granted: set<string>, fewer: set<string>)
    requires id in dns && id in less && dns[id] == less[id] && (id in granted <==> id in fewer)
    ensures KeyStatements(id, dns, granted) == KeyStatements(id, less, fewer)
  {
  }

  lemma {:induction false} StatementsConcat(a: seq<string>, b: seq<string>, dns: DnsGrants, granted: set<string>)
    requires forall id <- a + b :: id in dns
    requires forall id <- a :: id in dns
    requires forall id <- b :: id in dns
    ensures DnsStatements(a + b, dns, granted) == DnsStatements(a, dns, granted) + DnsStatements(b, dns, granted)
  {
    hide KeyStatements;
    if b == [] {
      assert a + b == a;
    } else {
      var n := |b| - 1;
      assert b == b[..n] + [b[n]];
      assert (a + b)[..|a| + n] == a + b[..n];
      StatementsConcat(a, b[..n], dns, granted);
    }
  }

  /** Without one key, its statement is left out and the others stay. */
  lemma KeyLeftOut(dns: DnsGrants, granted: set<string>, id: string) returns (a: Document, x: Document, b: Document)
    ensures DnsStatements(Sorted(dns.Keys), dns, granted) == a + x + b
    ensures DnsStatements(Sorted((dns - {id}).Keys), dns - {id}, granted - {id}) == a + b
  {
    hide DnsStatements, Sorted;
    var keys, less := Sorted(dns.Keys), dns - {id};
    assert less.Keys == dns.Keys - {id};
    if id in dns {
      var i := SortedWithout(dns.Keys, id);
      var front, back := keys[..i], keys[i + 1..];
      assert keys == front + [id] + back;
      assert forall k <- front + back :: k in less;
      StatementsConcat(front, back, less, granted - {id});
      StatementsConcat(front + [id], back, dns, granted);
      StatementsConcat(front, [id], dns, granted);
      SameKeys(front, dns, less, granted, granted - {id});
      SameKeys(back, dns, less, granted, granted - {id});
      a, x, b := DnsStatements(front, dns, granted), DnsStatements([id], dns, granted),
          DnsStatements(back, dns, granted);
    } else {
      assert less == dns;
      SameKeys(keys, dns, less, granted, granted - {id});
      a, x, b := DnsStatements(keys, dns, granted), [], [];
    }
  }
}
