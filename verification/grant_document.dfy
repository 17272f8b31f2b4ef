/** The Auto-park grant policy's document, `src/autopark_grant.ts`: printed from the granted instances and their DNS
    grants, and read back. */
module GrantDocument {
  import opened Options
  import opened Strings

  // ---- instance ARNs ------------------------------------------------------------------------------------------------

  predicate HexDigit(c: char) {
    '0' <= c <= '9' || 'a' <= c <= 'f'
  }

  predicate Hex(s: string) {
    forall c <- s :: HexDigit(c)
  }

  /** What the ARN expression asks of an instance id; the statement ids read back need 8 to 17 digits of it. */
  predicate InstanceId(s: string) {
    |s| > 2 && s[0] == 'i' && s[1] == '-' && Hex(s[2..])
  }

  predicate UsualId(s: string) {
    InstanceId(s) && 8 <= |s| - 2 <= 17
  }

  predicate Partition(s: string) {
    "aws" <= s && forall c <- s[3..] :: 'a' <= c <= 'z' || c == '-'
  }

  predicate Account(s: string) {
    |s| == 12 && forall c <- s :: '0' <= c <= '9'
  }

  /** The ids, accounts and partitions the expression takes, letter by letter. */
  lemma TextsByLetter(s: string)
    ensures InstanceId(s) <==>
      && |s| >= 3 && s[0] == 'i' && s[1] == '-'
      && forall k :: 2 <= k < |s| ==>
           s[k] in {'0', '1', '2', '3', '4', '5', '6', '7', '8', '9', 'a', 'b', 'c', 'd', 'e', 'f'}
    ensures UsualId(s) <==> InstanceId(s) && 10 <= |s| <= 19
    ensures Account(s) <==>
      |s| == 12 && forall k :: 0 <= k < 12 ==> s[k] in {'0', '1', '2', '3', '4', '5', '6', '7', '8', '9'}
    ensures Partition(s) <==>
      && |s| >= 3 && s[0] == 'a' && s[1] == 'w' && s[2] == 's'
      && forall k :: 3 <= k < |s| ==> s[k] == '-' || s[k] in Letters()
  {
    IdByLetter(s);
    AccountByLetter(s);
    PartitionByLetter(s);
  }

  function Letters(): set<char> {
    {'a', 'b', 'c', 'd', 'e', 'f', 'g', 'h', 'i', 'j', 'k', 'l', 'm', 'n', 'o', 'p', 'q', 'r', 's', 't', 'u', 'v', 'w',
     'x', 'y', 'z'}
  }

  lemma IdByLetter(s: string)
    ensures InstanceId(s) <==>
      && |s| >= 3 && s[0] == 'i' && s[1] == '-'
      && forall k :: 2 <= k < |s| ==>
           s[k] in {'0', '1', '2', '3', '4', '5', '6', '7', '8', '9', 'a', 'b', 'c', 'd', 'e', 'f'}
  {
    if |s| > 2 {
      assert forall k :: 2 <= k < |s| ==> s[k] == s[2..][k - 2] && s[k] in s[2..];
      if forall k :: 2 <= k < |s| ==> HexDigit(s[k]) {
        forall c | c in s[2..]
          ensures HexDigit(c)
        {
          var k :| 0 <= k < |s[2..]| && s[2..][k] == c;
          assert s[k + 2] == c;
        }
      }
    }
  }

  lemma AccountByLetter(s: string)
    ensures Account(s) <==>
      |s| == 12 && forall k :: 0 <= k < 12 ==> s[k] in {'0', '1', '2', '3', '4', '5', '6', '7', '8', '9'}
  {
    if |s| == 12 {
      assert forall k :: 0 <= k < 12 ==> s[k] in s;
    }
  }

  lemma PartitionByLetter(s: string)
    ensures Partition(s) <==>
      && |s| >= 3 && s[0] == 'a' && s[1] == 'w' && s[2] == 's'
      && forall k :: 3 <= k < |s| ==> s[k] == '-' || s[k] in Letters()
  {
    assert "aws" <= s <==> |s| >= 3 && s[0] == 'a' && s[1] == 'w' && s[2] == 's';
    if |s| >= 3 {
      assert forall k :: 3 <= k < |s| ==> s[k] == s[3..][k - 3] && s[k] in s[3..];
      forall c | c in s[3..]
        ensures exists k :: 3 <= k < |s| && s[k] == c
      {
        var k :| 0 <= k < |s[3..]| && s[3..][k] == c;
        assert s[k + 3] == c;
      }
    }
  }

  datatype Instance = Instance(partition: string, region: string, account: string, id: string)

  predicate Proper(a: Instance) {
    Partition(a.partition) && ':' !in a.region && Account(a.account) && InstanceId(a.id)
  }

  function Fields(a: Instance): seq<string> {
    ["arn", a.partition, "ec2", a.region, a.account, "instance/" + a.id]
  }

  function Arn(a: Instance): string {
    Join(Fields(a), ':')
  }

  function FromFields(f: seq<string>): Option<Instance> {
    if |f| == 6 && f[0] == "arn" && Partition(f[1]) && f[2] == "ec2" && Account(f[4])
       && "instance/" <= f[5] && InstanceId(f[5][9..])
    then Some(Instance(f[1], f[3], f[4], f[5][9..])) else None
  }

  function ParseArn(arn: string): Option<Instance> {
    FromFields(Split(arn, ':'))
  }

  lemma NoColons(a: Instance)
    requires Proper(a)
    ensures forall f <- Fields(a) :: ':' !in f
  {
    var p, id := a.partition, a.id;
    assert ':' !in p by {
      assert p == "aws" + p[3..];
      assert ':' !in "aws";
    }
    assert ':' !in "instance/" + id by {
      assert id == id[..2] + id[2..];
    }
  }

  lemma FieldsBack(a: Instance)
    requires Proper(a)
    ensures FromFields(Fields(a)) == Some(a)
  {
    hide InstanceId, Partition, Account;
    assert ("instance/" + a.id)[9..] == a.id;
  }

  lemma FieldsOf(f: seq<string>)
    requires FromFields(f).Some?
    ensures Fields(FromFields(f).value) == f
  {
    hide InstanceId, Partition, Account;
    assert f[5] == f[5][..9] + f[5][9..] && f[5][..9] == "instance/";
  }

  /** The expression accepts exactly the printed instance ARNs, and recovers the instance. */
  lemma ArnRoundTrip(arn: string, a: Instance)
    ensures ParseArn(arn) == Some(a) <==> Proper(a) && arn == Arn(a)
  {
    hide InstanceId, Partition, Account, Fields, FromFields, Proper;
    if Proper(a) && arn == Arn(a) {
      NoColons(a);
      FieldsBack(a);
      FieldsSome(a);
      SplitJoin(Fields(a), ':');
    }
    JoinSplit(arn, ':');
    if ParseArn(arn) == Some(a) {
      FieldsOf(Split(arn, ':'));
      ParsedProper(Split(arn, ':'));
    }
  }

  lemma FieldsSome(a: Instance)
    ensures Fields(a) != []
  {
  }

  lemma ParsedProper(f: seq<string>)
    requires FromFields(f).Some? && forall p <- f :: ':' !in p
    ensures Proper(FromFields(f).value)
  {
    hide InstanceId, Partition, Account;
    assert f[3] in f;
  }

  /** The instance as the policy lists it: any region. */
  function GrantArn(arn: string): string {
    var a := ParseArn(arn);
    if a.Some? then Arn(a.value.(region := "*")) else arn
  }

  lemma AnyRegionProper(a: Instance)
    requires Proper(a)
    ensures Proper(a.(region := "*"))
  {
  }

  /** Every region's ARN of an instance is listed the same way, and a listed ARN is listed as it is. */
  lemma GrantArnOf(a: Instance)
    requires Proper(a)
    ensures GrantArn(Arn(a)) == Arn(a.(region := "*"))
    ensures ParseArn(Arn(a.(region := "*"))) == Some(a.(region := "*"))
    ensures GrantArn(Arn(a.(region := "*"))) == Arn(a.(region := "*"))
    ensures ParseArn(Arn(a)) == Some(a)
  {
    hide Proper, ParseArn, Arn;
    AnyRegionProper(a);
    ArnRoundTrip(Arn(a), a);
    ArnRoundTrip(Arn(a.(region := "*")), a.(region := "*"));
  }

  lemma GrantArnParses(arn: string)
    requires ParseArn(arn).Some?
    ensures ParseArn(GrantArn(arn)) == Some(ParseArn(arn).value.(region := "*"))
    ensures GrantArn(GrantArn(arn)) == GrantArn(arn)
    ensures LastSegment(GrantArn(arn), '/') == ParseArn(arn).value.id
    ensures LastSegment(arn, '/') == ParseArn(arn).value.id
  {
    hide Proper, ParseArn, Arn;
    var a := ParseArn(arn).value;
    ArnRoundTrip(arn, a);
    GrantArnOf(a);
    IdIsLast(a);
    AnyRegionProper(a);
    IdIsLast(a.(region := "*"));
  }

  lemma IdIsLast(a: Instance)
    requires Proper(a)
    ensures LastSegment(Arn(a), '/') == a.id
  {
    var f := Fields(a);
    assert '/' !in a.id by {
      assert a.id == a.id[..2] + a.id[2..];
    }
    hide Proper, InstanceId, Join;
    assert f == f[..5] + ["instance/" + a.id];
    JoinLast(f[..5], "instance/" + a.id, ':');
    var before := Join(f[..5], ':') + ":instance";
    assert Arn(a) == before + ['/'] + a.id;
    LastSegmentOf(before, a.id, '/');
  }

  // ---- DNS grants ---------------------------------------------------------------------------------------------------

  /** The A records one grant lets the actuator re-point: hosted zones and names. */
  datatype DnsGrant = DnsGrant(zones: seq<string>, names: seq<string>)

  type DnsGrants = map<string, DnsGrant>

  const ZONE_PREFIX := "/hostedzone/"
  const ZONE_ARN := "arn:aws:route53:::hostedzone/"

  function StripZone(zone: string): string {
    if ZONE_PREFIX <= zone then zone[|ZONE_PREFIX|..] else zone
  }

  /** A zone loses the prefix AWS puts before its id, and nothing else. */
  lemma StripZoneMeaning(z: string)
    ensures StripZone("/hostedzone/" + z) == z
    ensures |z| < 12 || z[..12] != "/hostedzone/" ==> StripZone(z) == z
  {
  }

  function ZoneArn(zone: string): string {
    ZONE_ARN + StripZone(zone)
  }

  function DropDot(s: string): string {
    if s != "" && s[|s| - 1] == '.' then s[..|s| - 1] else s
  }

  function NormalizeName(name: string): string {
    DropDot(Lower(Trim(name)))
  }

  function Zones(zones: seq<string>): set<string> {
    (set z <- zones :: StripZone(z)) - {""}
  }

  function RecordNames(names: seq<string>): set<string> {
    (set n <- names :: NormalizeName(n)) - {""}
  }

  /** Zones and names normalised and sorted; nothing when either is empty. */
  function NormalDns(g: Option<DnsGrant>): Option<DnsGrant> {
    if g.None? || Zones(g.value.zones) == {} || RecordNames(g.value.names) == {} then None
    else Some(DnsGrant(Sorted(Zones(g.value.zones)), Sorted(RecordNames(g.value.names))))
  }

  /** A name that normalising leaves alone a second time. */
  predicate Settled(name: string) {
    name != "" ==> name[|name| - 1] != '.' && !IsSpace(name[|name| - 1])
  }

  /** Normalising removes one trailing dot and no more, so a second time can change a name again: it does not exactly
      when neither a dot nor a space is left at the end. */
  lemma SettledIff(name: string)
    ensures NormalizeName(NormalizeName(name)) == NormalizeName(name) <==> Settled(NormalizeName(name))
    ensures |NormalizeName(NormalizeName(name))| <= |NormalizeName(name)|
    ensures Settled(NormalizeName(name)) || |NormalizeName(NormalizeName(name))| < |NormalizeName(name)|
  {
    hide IsSpace, LowerChar, Trim, DropDot, Lower;
    var t, r := Trim(name), NormalizeName(name);
    NormalizedShape(name);
    if r == "" {
      EmptyName();
    } else {
      assert SkipSpaces(r) == r;
      TrimEndMeaning(r);
      TrimOf(r);
      LowerPrefix(t, TrimEnd(r));
      DropDotMeaning(TrimEnd(r));
    }
  }

  /** A name that is not settled: each normalising drops one of the two dots. */
  lemma TwoDots()
    ensures NormalizeName("a..") == "a." && NormalizeName("a.") == "a"
  {
    assert Trim("a..") == "a.." && Trim("a.") == "a.";
    assert Lower("a..") == "a.." && Lower("a.") == "a.";
  }

  lemma EmptyName()
    ensures NormalizeName("") == ""
  {
  }

  lemma TrimOf(r: string)
    requires r != "" && !IsSpace(r[0])
    ensures Trim(r) == TrimEnd(r)
    ensures !IsSpace(r[|r| - 1]) ==> TrimEnd(r) == r
    ensures IsSpace(r[|r| - 1]) ==> |TrimEnd(r)| < |r|
  {
    hide IsSpace;
    if IsSpace(r[|r| - 1]) {
      TrimEndMeaning(r[..|r| - 1]);
    }
  }

  lemma DropDotMeaning(s: string)
    ensures DropDot(s) <= s
    ensures |DropDot(s)| < |s| <==> s != "" && s[|s| - 1] == '.'
  {
  }

  lemma NormalizedShape(name: string)
    ensures var r := NormalizeName(name); r <= Lower(Trim(name)) && (r != "" ==> !IsSpace(r[0]))
  {
    hide IsSpace, LowerChar, Trim;
    var t := Trim(name);
    TrimMeaning(name);
    if t != "" {
      LowerCharMeaning(t[0]);
    }
  }

  lemma LowerPrefix(t: string, p: string)
    requires p <= Lower(t)
    ensures Lower(p) == p
  {
    hide LowerChar;
    LowerMeaning(t);
    forall i | 0 <= i < |p|
      ensures LowerChar(p[i]) == p[i]
    {
      LowerCharMeaning(t[i]);
    }
  }

  // ---- the document -------------------------------------------------------------------------------------------------

  /** A field that may be missing, a text or a list of texts. */
  datatype Field = Absent | One(text: string) | Many(texts: seq<string>) {
    function Listed(): seq<string> {
      match this
      case Absent => []
      case One(s) => if s == "" then [] else [s]
      case Many(xs) => xs
    }
  }

  /** A statement; `names`, `recordTypes` and `changes` are its condition, which only the DNS statements carry: the
      record names, the types and the changes it is limited to. */
  datatype Statement = Statement(sid: string, effect: string, actions: seq<string>, resource: Field, names: Field,
                                 recordTypes: seq<string>, changes: seq<string>)

  type Document = seq<Statement>

  const START_STOP := "AutoParkStartStop"
  const DNS_SID := "AutoParkDns"

  function Alphanumeric(s: string): string {
    if s == "" then ""
    else
      (if 'A' <= s[0] <= 'Z' || 'a' <= s[0] <= 'z' || '0' <= s[0] <= '9' then [s[0]] else []) + Alphanumeric(s[1..])
  }

  function DnsSid(id: string): string {
    DNS_SID + Alphanumeric(id)
  }

  function InstanceOfSid(sid: string): Option<string> {
    if DNS_SID + "i" <= sid && Hex(sid[|DNS_SID| + 1..]) && 8 <= |sid| - |DNS_SID| - 1 <= 17
    then Some("i-" + sid[|DNS_SID| + 1..]) else None
  }

  lemma {:induction false} HexIsAlphanumeric(s: string)
    requires Hex(s)
    ensures Alphanumeric(s) == s
  {
    if s != "" {
      assert HexDigit(s[0]) && [s[0]] + s[1..] == s;
      HexIsAlphanumeric(s[1..]);
    }
  }

  /** The statement id gives the instance back when it is an instance id of 8 to 17 digits, and no instance
      otherwise. */
  lemma SidReadsBack(id: string)
    requires InstanceId(id)
    ensures InstanceOfSid(DnsSid(id)) == if UsualId(id) then Some(id) else None
  {
    var digits := id[2..];
    HexIsAlphanumeric(digits);
    assert id[1..][1..] == digits;
    assert Alphanumeric(id) == "i" + digits;
    assert DNS_SID + ("i" + digits) == DNS_SID + "i" + digits;
    assert id == "i-" + digits;
  }

  /** Six digits are enough for the ARN expression and too few for the statement id's. */
  lemma ShortIdIsLost()
    ensures InstanceId("i-00abcd") && InstanceOfSid(DnsSid("i-00abcd")).None?
  {
    var digits := "00abcd";
    assert "i-00abcd"[2..] == digits;
    SidReadsBack("i-00abcd");
  }

  function StartStop(arns: seq<string>): Statement {
    Statement(START_STOP, "Allow", ["ec2:StartInstances", "ec2:StopInstances"], Many(arns), Absent, [], [])
  }

  function ZoneArns(zones: seq<string>): seq<string> {
    seq(|zones|, i requires 0 <= i < |zones| => ZoneArn(zones[i]))
  }

  function DnsStatement(id: string, g: DnsGrant): Statement {
    Statement(DnsSid(id), "Allow", ["route53:ChangeResourceRecordSets"], Many(ZoneArns(g.zones)), Many(g.names), ["A"],
              ["UPSERT"])
  }

  /** What is printed for one key of the DNS grants. */
  function KeyStatements(id: string, dns: DnsGrants, granted: set<string>): seq<Statement>
    requires id in dns
  {
    var g := NormalDns(Some(dns[id]));
    if g.None? || id !in granted then [] else [DnsStatement(id, g.value)]
  }

  function DnsStatements(keys: seq<string>, dns: DnsGrants, granted: set<string>): seq<Statement>
    requires forall id <- keys :: id in dns
  {
    if keys == [] then []
    else
      DnsStatements(keys[..|keys| - 1], dns, granted) + KeyStatements(keys[|keys| - 1], dns, granted)
  }

  function GrantArns(arns: seq<string>): set<string> {
    set a <- arns :: GrantArn(a)
  }

  function Ids(arns: seq<string>): set<string> {
    set a <- arns :: LastSegment(a, '/')
  }

  function DocumentOf(arns: seq<string>, dns: DnsGrants): Option<Document> {
    var list := Sorted(GrantArns(arns));
    if list == [] then None else Some([StartStop(list)] + DnsStatements(Sorted(dns.Keys), dns, Ids(list)))
  }

  lemma NoKeys(dns: DnsGrants, granted: set<string>)
    ensures DnsStatements([], dns, granted) == []
  {
  }

  lemma OneMoreKey(keys: seq<string>, k: nat, dns: DnsGrants, granted: set<string>)
    requires k < |keys| && forall id <- keys :: id in dns
    ensures DnsStatements(keys[..k + 1], dns, granted) ==
            DnsStatements(keys[..k], dns, granted) + KeyStatements(keys[k], dns, granted)
  {
    hide KeyStatements;
    assert keys[..k + 1][..k] == keys[..k];
  }

  method RenderDocument(arns: seq<string>, dns: DnsGrants) returns (doc: Option<Document>)
    ensures doc == DocumentOf(arns, dns)
  {
    hide NormalDns, StartStop, DnsStatement, Ids, Sorted, GrantArns, DnsStatements;
    var list := Sorted(GrantArns(arns));
    if list == [] {
      return None;
    }
    var granted := Ids(list);
    var statements := [StartStop(list)];
    var keys := Sorted(dns.Keys);
    NoKeys(dns, granted);
    for k := 0 to |keys|
      invariant forall id <- keys[..k] :: id in dns
      invariant statements == [StartStop(list)] + DnsStatements(keys[..k], dns, granted)
    {
      OneMoreKey(keys, k, dns, granted);
      var g := NormalDns(Some(dns[keys[k]]));
      if g.Some? && keys[k] in granted {
        statements := statements + [DnsStatement(keys[k], g.value)];
      }
    }
    assert keys[..|keys|] == keys;
    doc := Some(statements);
  }

  // ---- reading a document -------------------------------------------------------------------------------------------

  function LastSegments(xs: seq<string>): seq<string> {
    seq(|xs|, i requires 0 <= i < |xs| => LastSegment(xs[i], '/'))
  }

  function DnsOfStatement(s: Statement): Option<DnsGrant> {
    NormalDns(Some(DnsGrant(LastSegments(s.resource.Listed()), s.names.Listed())))
  }

  function WithStatement(read: DnsGrants, s: Statement): DnsGrants {
    var id, g := InstanceOfSid(s.sid), DnsOfStatement(s);
    if id.Some? && g.Some? then read[id.value := g.value] else read
  }

  function DnsRead(doc: Document): DnsGrants {
    if doc == [] then map[] else WithStatement(DnsRead(doc[..|doc| - 1]), doc[|doc| - 1])
  }

  method DnsGrantsOf(doc: Document) returns (out: DnsGrants)
    ensures out == DnsRead(doc)
  {
    out := map[];
    for k := 0 to |doc|
      invariant out == DnsRead(doc[..k])
    {
      assert doc[..k + 1][..k] == doc[..k];
      var id := InstanceOfSid(doc[k].sid);
      if id.Some? {
        var g := DnsOfStatement(doc[k]);
        if g.Some? {
          out := out[id.value := g.value];
        }
      }
    }
    assert doc[..|doc|] == doc;
  }

  function Recognised(arns: seq<string>): seq<string> {
    if arns == [] then []
    else (if ParseArn(arns[0]).Some? then [GrantArn(arns[0])] else []) + Recognised(arns[1..])
  }

  function GrantedArnsOf(doc: Document): seq<string> {
    if doc == [] then []
    else if doc[0].sid == START_STOP then Recognised(doc[0].resource.Listed())
    else GrantedArnsOf(doc[1..])
  }

  /** A field that is one text reads as the list of it, and one that is missing or empty as none. */
  lemma OneOrMany(text: string)
    ensures text != "" ==> One(text).Listed() == Many([text]).Listed()
    ensures One("").Listed() == [] && Absent.Listed() == []
  {
  }

  /** An instance's ARN written with its region, alone in its statement, is granted as any region's; another text is
      not. */
  lemma OneReads(a: Instance, other: string)
    requires Proper(a) && ParseArn(other).None?
    ensures GrantedArnsOf([StartStop([]).(resource := One(Arn(a)))]) == [Arn(a.(region := "*"))]
    ensures GrantedArnsOf([StartStop([]).(resource := Many([other]))]) == []
  {
    GrantArnOf(a);
    ArnRoundTrip(Arn(a), a);
    ArnSome(a);
    hide Proper, ParseArn, Arn;
    assert Recognised([Arn(a)]) == [GrantArn(Arn(a))] + Recognised([]);
    assert Recognised([other]) == [] + Recognised([]);
  }

  lemma ArnSome(a: Instance)
    ensures Arn(a) != ""
  {
    JoinSome("arn", [a.partition, "ec2", a.region, a.account, "instance/" + a.id]);
    assert Fields(a) == ["arn"] + [a.partition, "ec2", a.region, a.account, "instance/" + a.id];
  }

  lemma JoinSome(first: string, rest: seq<string>)
    requires rest != [] && first != ""
    ensures Join([first] + rest, ':') != ""
  {
  }
}
