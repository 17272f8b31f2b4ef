/** The credential files `src/aws_config.ts` writes and reads back: the Steampipe connection file, and the managed
    sections of the AWS config and credentials files. */
module CredentialFiles {
  import opened Options
  import opened Strings
  import opened ManagedSection
  import opened ConnectionFile

  // ---- settings -----------------------------------------------------------------------------------------------------

  datatype Mode =
    | Keys(accessKey: string, secretKey: string, sessionToken: Option<string>)
    | Profile(profile: string)
    | Chain(source: Option<string>)

  datatype Settings = Settings(mode: Mode, regions: seq<string>, defaultRegion: Option<string>, roleArn: Option<string>)
  datatype Member = Member(accountId: string, roleArn: string, regions: seq<string>, defaultRegion: Option<string>)
  datatype Names = Names(managedProfile: string, connection: string)

  const DEFAULT_SOURCE := "Ec2InstanceMetadata"
  const DEFAULT_REGION := "us-east-1"

  predicate KeyChar(c: char) {
    'A' <= c <= 'Z' || 'a' <= c <= 'z' || '0' <= c <= '9' || c in "+/=_-"
  }

  /** The characters of a key, by class. */
  lemma KeyCharIff(c: char)
    ensures KeyChar(c) <==>
      || c in {'A', 'B', 'C', 'D', 'E', 'F', 'G', 'H', 'I', 'J', 'K', 'L', 'M', 'N', 'O', 'P', 'Q', 'R', 'S', 'T', 'U',
               'V', 'W', 'X', 'Y', 'Z'}
      || c in {'a', 'b', 'c', 'd', 'e', 'f', 'g', 'h', 'i', 'j', 'k', 'l', 'm', 'n', 'o', 'p', 'q', 'r', 's', 't', 'u',
               'v', 'w', 'x', 'y', 'z'}
      || c in {'0', '1', '2', '3', '4', '5', '6', '7', '8', '9'}
      || c in {'+', '/', '=', '_', '-'}
  {
  }

  predicate IsKey(s: string) {
    s != "" && forall c <- s :: KeyChar(c)
  }

  predicate OneLine(s: string) {
    '\n' !in s
  }

  /** What `validateSettings` lets through, as far as rendering depends on it. */
  predicate ValidSettings(s: Settings) {
    && OneLine(s.defaultRegion.GetOr("")) && OneLine(s.roleArn.GetOr(""))
    && match s.mode
       case Keys(a, k, t) => IsKey(a) && IsKey(k) && (t.Some? ==> IsKey(t.value))
       case Profile(p) => OneLine(p)
       case Chain(c) => OneLine(c.GetOr(""))
  }

  predicate ValidMember(m: Member) {
    OneLine(m.accountId) && OneLine(m.roleArn) && OneLine(m.defaultRegion.GetOr(""))
  }

  predicate ValidInput(s: Settings, p: Names, members: seq<Member>) {
    ValidSettings(s) && OneLine(p.managedProfile) && forall m <- members :: ValidMember(m)
  }

  function SourceProfileName(p: Names): string {
    p.managedProfile + "-source"
  }

  function MemberProfileName(p: Names, m: Member): string {
    p.managedProfile + "-" + m.accountId
  }

  function ParentConnectionName(p: Names): string {
    p.connection + "_p"
  }

  function MemberConnectionName(p: Names, m: Member): string {
    p.connection + "_" + m.accountId
  }

  function NonEmpty(s: Option<string>): Option<string> {
    if s == Some("") then None else s
  }

  function DefaultRegion(s: Settings): string {
    NonEmpty(s.defaultRegion).GetOr(DEFAULT_REGION)
  }

  // ---- the connection file ------------------------------------------------------------------------------------------

  const MANAGED_COMMENT := "Managed by aws-advisor. " + "Edit through the Settings page, not by hand."
  const AGGREGATOR_COMMENT :=
    "Aggregator: the app queries this schema " + "and sees every account below " + "(rows carry account_id)."
  const PARENT_COMMENT := "The parent (the credentials from Settings)."
  const CHAIN_NOTE :=
    "no credentials: the plugin uses the default chain " + "(environment, instance profile, container)"
  const ASSUMED := " assumed from the parent " + "(profile in the AWS config file)."

  function MemberComment(m: Member): string {
    "Member account " + m.accountId + ": " + m.roleArn + ASSUMED
  }

  /** The profile the connection file points at. */
  function SpcProfile(s: Settings, p: Names): Option<string> {
    if s.roleArn.Some? then Some(p.managedProfile)
    else match s.mode
      case Profile(x) => Some(x)
      case _ => None
  }

  function CredentialLines(s: Settings, p: Names): seq<SpcLine> {
    var profile := SpcProfile(s, p);
    if NonEmpty(profile).Some? then [Setting("profile", profile.value)]
    else match s.mode
      case Keys(a, k, t) =>
        [Setting("access_key", a), Setting("secret_key", k)]
        + if NonEmpty(t).Some? then [Setting("session_token", t.value)] else []
      case _ => [Note(CHAIN_NOTE)]
  }

  function Regions(s: Settings): seq<string> {
    if s.regions != [] then s.regions else ["*"]
  }

  function BlockHead(name: string, regions: seq<string>, region: string): seq<SpcLine> {
    [Open(name), Setting("plugin", "aws"), ListSetting("regions", regions), Setting("default_region", region)]
  }

  function ConnectionBlock(name: string, s: Settings, p: Names): seq<SpcLine> {
    BlockHead(name, Regions(s), DefaultRegion(s)) + CredentialLines(s, p) + [Close]
  }

  function ConnectionNames(p: Names, members: seq<Member>): seq<string> {
    [ParentConnectionName(p)] + seq(|members|, i requires 0 <= i < |members| => MemberConnectionName(p, members[i]))
  }

  function MemberBlock(m: Member, s: Settings, p: Names): seq<SpcLine> {
    [Comment(MemberComment(m))]
    + BlockHead(MemberConnectionName(p, m), if m.regions != [] then m.regions else Regions(s),
                NonEmpty(m.defaultRegion).GetOr(DefaultRegion(s)))
    + [Setting("profile", MemberProfileName(p, m)), Close, Blank]
  }

  function MemberBlocks(members: seq<Member>, s: Settings, p: Names): seq<SpcLine> {
    if members == [] then []
    else MemberBlocks(members[..|members| - 1], s, p) + MemberBlock(members[|members| - 1], s, p)
  }

  function Aggregator(p: Names, members: seq<Member>): seq<SpcLine> {
    [Comment(AGGREGATOR_COMMENT), Open(p.connection), Narrow("plugin", "aws"), Narrow("type", "aggregator"),
     NarrowList("connections", ConnectionNames(p, members)), Close, Blank, Comment(PARENT_COMMENT)]
  }

  function SpcFile(s: Settings, p: Names, members: seq<Member>): seq<SpcLine> {
    if members == [] then [Comment(MANAGED_COMMENT)] + ConnectionBlock(p.connection, s, p) + [Blank]
    else
      [Comment(MANAGED_COMMENT)] + Aggregator(p, members) + ConnectionBlock(ParentConnectionName(p), s, p) + [Blank]
      + MemberBlocks(members, s, p)
  }

  /** The text of the connection file. */
  function SpcText(s: Settings, p: Names, members: seq<Member>): string {
    Join(SpcTexts(SpcFile(s, p, members)), '\n')
  }

  method RenderSpc(s: Settings, p: Names, members: seq<Member>) returns (text: string)
    ensures text == SpcText(s, p, members)
  {
    hide Aggregator, ConnectionBlock, MemberBlock, SpcTexts, Join;
    var lines := [Comment(MANAGED_COMMENT)];
    if members == [] {
      return Join(SpcTexts(lines + ConnectionBlock(p.connection, s, p) + [Blank]), '\n');
    }
    lines := lines + Aggregator(p, members) + ConnectionBlock(ParentConnectionName(p), s, p) + [Blank];
    ghost var front := lines;
    for k := 0 to |members|
      invariant lines == front + MemberBlocks(members[..k], s, p)
    {
      assert members[..k + 1][..k] == members[..k];
      lines := lines + MemberBlock(members[k], s, p);
    }
    assert members[..|members|] == members;
    text := Join(SpcTexts(lines), '\n');
  }

  // ---- the managed sections -----------------------------------------------------------------------------------------

  datatype IniLine = Header(section: string) | Pair(key: string, value: string) | Empty {
    function Text(): string {
      match this
      case Header(s) => "[" + s + "]"
      case Pair(k, v) => k + " = " + v
      case Empty => ""
    }
  }

  function Texts(lines: seq<IniLine>): seq<string> {
    seq(|lines|, i requires 0 <= i < |lines| => lines[i].Text())
  }

  function Body(lines: Option<seq<IniLine>>): Option<string> {
    if lines.None? then None else Some(Join(Texts(lines.value), '\n'))
  }

  function CredentialsSection(s: Settings, p: Names, members: seq<Member>): Option<seq<IniLine>> {
    match s.mode
    case Keys(a, k, t) =>
      if s.roleArn.None? && members == [] then None
      else Some([Header(SourceProfileName(p)), Pair("aws_access_key_id", a), Pair("aws_secret_access_key", k)]
                + if NonEmpty(t).Some? then [Pair("aws_session_token", t.value)] else [])
    case _ => None
  }

  // a section's text never holds an end-marker line, and splits into its lines again

  predicate Hashless(line: string) {
    OneLine(line) && (line == "" || line[0] != '#')
  }

  lemma {:induction false} NoHashBehindNewline(lines: seq<string>, k: nat)
    requires forall l <- lines :: Hashless(l)
    requires k + 1 < |Join(lines, '\n')| && Join(lines, '\n')[k] == '\n'
    ensures Join(lines, '\n')[k + 1] != '#'
    decreases |lines|
  {
    assert Hashless(lines[0]);
    assert forall i :: 0 <= i < |lines[0]| ==> lines[0][i] in lines[0];
    if |lines| > 1 {
      var first, rest := lines[0] + "\n", Join(lines[1..], '\n');
      assert forall i :: 0 <= i < |lines[0]| ==> Join(lines, '\n')[i] == lines[0][i];
      if k == |lines[0]| {
        FirstIsNoHash(lines[1..]);
      } else if k > |lines[0]| {
        assert rest[k - |first|] == Join(lines, '\n')[k] && rest[k - |first| + 1] == Join(lines, '\n')[k + 1];
        NoHashBehindNewline(lines[1..], k - |first|);
      }
    }
  }

  lemma FirstIsNoHash(lines: seq<string>)
    requires lines != [] && Hashless(lines[0])
    ensures Join(lines, '\n') == "" || Join(lines, '\n')[0] != '#'
  {
  }

  lemma HashlessIsClean(lines: seq<string>)
    requires forall l <- lines :: Hashless(l)
    ensures Clean(Join(lines, '\n'))
  {
    forall k: nat
      ensures !StartsAt(Join(lines, '\n'), k, END_MARK)
    {
      if StartsAt(Join(lines, '\n'), k, END_MARK) {
        CharAt(Join(lines, '\n'), k, END_MARK, 0);
        CharAt(Join(lines, '\n'), k, END_MARK, 1);
        NoHashBehindNewline(lines, k);
      }
    }
  }

  // ---- reading a key back -------------------------------------------------------------------------------------------

  function WordLength(s: string): (n: nat)
    ensures n <= |s|
  {
    if s == "" || IsSpace(s[0]) then 0 else 1 + WordLength(s[1..])
  }

  /** The name at the start of the line, spaces around an equals sign, and one word to the end. */
  function IniField(line: string, name: string): Option<string> {
    if !(name <= line) then None
    else
      var r := SkipSpaces(line[|name|..]);
      if r == "" || r[0] != '=' then None
      else
        var v := SkipSpaces(r[1..]);
        var n := WordLength(v);
        if n > 0 && AllSpace(v[n..]) then Some(v[..n]) else None
  }

  function FirstField(lines: seq<string>, name: string): Option<string> {
    if lines == [] then None
    else if IniField(lines[0], name).Some? then IniField(lines[0], name)
    else FirstField(lines[1..], name)
  }

  datatype StaticKeys = StaticKeys(accessKey: string, secretKey: string, sessionToken: Option<string>)

  function KeysFrom(access: Option<string>, secret: Option<string>, token: Option<string>): Option<StaticKeys> {
    if NonEmpty(access).None? || NonEmpty(secret).None? then None
    else Some(StaticKeys(access.value, secret.value, NonEmpty(token)))
  }

  function FromSpc(spc: Option<string>): Option<StaticKeys> {
    if spc.None? then None
    else
      var lines := Split(spc.value, '\n');
      KeysFrom(TextField(lines, "access_key"), TextField(lines, "secret_key"), TextField(lines, "session_token"))
  }

  function FromIni(credentials: Option<string>): Option<StaticKeys> {
    var body := if credentials.None? then None else Read(credentials.value);
    if NonEmpty(body).None? then None
    else
      var lines := Split(body.value, '\n');
      KeysFrom(FirstField(lines, "aws_access_key_id"), FirstField(lines, "aws_secret_access_key"),
               FirstField(lines, "aws_session_token"))
  }

  /** The keys from where the writer put them: the connection file first, the credentials file's section otherwise. */
  function ReadStaticKeys(spc: Option<string>, credentials: Option<string>): Option<StaticKeys> {
    var k := FromSpc(spc);
    if k.Some? then k else FromIni(credentials)
  }

  lemma KeyCharPlain(c: char)
    ensures KeyChar(c) ==> !IsSpace(c) && c != '\n' && c != '#'
  {
  }

  lemma SpaceFacts()
    ensures IsSpace(' ') && !IsSpace('=')
  {
    assert " \t\n\r\U{0B}\U{0C}\U{A0}\U{1680}\U{2028}\U{2029}\U{202F}\U{205F}\U{3000}\U{FEFF}"[0] == ' ';
  }

  lemma {:induction false} KeyIsWord(s: string)
    requires forall c <- s :: KeyChar(c)
    ensures WordLength(s) == |s|
  {
    hide KeyChar, IsSpace;
    if s != "" {
      assert s[0] in s;
      KeyCharPlain(s[0]);
      KeyIsWord(s[1..]);
    }
  }

  lemma SkipOne(rest: string)
    requires rest != "" && !IsSpace(rest[0])
    ensures SkipSpaces(" " + rest) == rest && SkipSpaces(rest) == rest
  {
    hide IsSpace;
    SpaceFacts();
    assert (" " + rest)[1..] == rest;
  }

  /** A pair with a key for its value reads back as the key. */
  lemma PairReads(name: string, key: string)
    requires IsKey(key)
    ensures IniField(Pair(name, key).Text(), name) == Some(key)
  {
    hide KeyChar, IsSpace, SkipSpaces;
    var line, r := Pair(name, key).Text(), "= " + key;
    SpaceFacts();
    assert key[0] in key;
    KeyCharPlain(key[0]);
    assert line == name + (" " + r) && line[|name|..] == " " + r;
    assert r[1..] == " " + key;
    SkipOne(r);
    SkipOne(key);
    KeyIsWord(key);
    assert key[..|key|] == key && key[|key|..] == "";
  }

  /** A line is the name, an equals sign and the word `v`, with spaces around them only. */
  ghost predicate SaysWord(line: string, name: string, v: string) {
    exists a, b, c :: SaysWordAt(line, name, v, a, b, c)
  }

  predicate SaysWordAt(line: string, name: string, v: string, a: string, b: string, c: string) {
    && AllSpace(a) && AllSpace(b) && AllSpace(c) && v != "" && (forall x <- v :: !IsSpace(x))
    && line == name + a + "=" + b + v + c
  }

  /** What the reader's expression finds in any line. */
  lemma FieldIff(line: string, name: string, v: string)
    ensures IniField(line, name) == Some(v) <==> SaysWord(line, name, v)
  {
    hide IsSpace, AllSpace, SkipSpaces, WordLength;
    if IniField(line, name) == Some(v) {
      var rest := line[|name|..];
      var r := SkipSpaces(rest);
      var w := SkipSpaces(r[1..]);
      var a := SpacesSkipped(rest);
      var b := SpacesSkipped(r[1..]);
      WordMeaning(w);
      var n := WordLength(w);
      assert line == name + rest && r == "=" + r[1..] && w == w[..n] + w[n..];
      assert forall x <- v :: exists k :: 0 <= k < n && w[k] == x;
      assert line == name + a + "=" + b + v + w[n..];
      assert SaysWordAt(line, name, v, a, b, w[n..]);
    }
    if SaysWord(line, name, v) {
      var a, b, c :| SaysWordAt(line, name, v, a, b, c);
      WordOf(line, name, v, a, b, c);
    }
  }

  lemma WordOf(line: string, name: string, v: string, a: string, b: string, c: string)
    requires SaysWordAt(line, name, v, a, b, c)
    ensures IniField(line, name) == Some(v)
  {
    hide IsSpace, AllSpace, SkipSpaces, WordLength;
    SpaceFacts();
    var w := v + c;
    var r := "=" + (b + w);
    assert line == name + (a + r) && line[|name|..] == a + r;
    assert v[0] in v && w[0] == v[0] && r[0] == '=';
    SkipsAll(a, r);
    SkipsAll(b, w);
    assert r[1..] == b + w;
    WordEnds(v, c);
    assert w[..|v|] == v && w[|v|..] == c;
  }

  lemma {:induction false} WordMeaning(s: string)
    ensures forall k :: 0 <= k < WordLength(s) ==> !IsSpace(s[k])
  {
    hide IsSpace;
    if s != "" && !IsSpace(s[0]) {
      WordMeaning(s[1..]);
    }
  }

  lemma {:induction false} WordEnds(v: string, c: string)
    requires (forall x <- v :: !IsSpace(x)) && AllSpace(c)
    ensures WordLength(v + c) == |v|
  {
    hide IsSpace;
    if v == "" {
      assert v + c == c && (c != "" ==> c[0] in c);
    } else {
      assert v[0] in v && (v + c)[1..] == v[1..] + c;
      WordEnds(v[1..], c);
    }
  }

  /** Lines of other names do not read as the field: the names differ at a place both have. */
  lemma OtherLine(line: string, name: string, k: nat)
    requires k < |line| && k < |name| && line[k] != name[k]
    ensures IniField(line, name).None?
  {
  }

  lemma KeyHashless(name: string, key: string)
    requires IsKey(key) && name != "" && name[0] != '#' && OneLine(name)
    ensures Hashless(Pair(name, key).Text())
  {
    hide KeyChar;
    forall c | c in key
      ensures c != '\n'
    {
      KeyCharPlain(c);
    }
  }

  /** The lines of a credentials section, and what its text gives back. */
  lemma CredentialsReadBack(s: Settings, p: Names, members: seq<Member>)
    requires ValidInput(s, p, members) && CredentialsSection(s, p, members).Some?
    ensures var body := Body(CredentialsSection(s, p, members)).value;
      Clean(body) && body != "" && Split(body, '\n') == Texts(CredentialsSection(s, p, members).value)
  {
    hide IsSpace, KeyChar;
    var lines := CredentialsSection(s, p, members).value;
    var ts := Texts(lines);
    forall i | 0 <= i < |lines|
      ensures Hashless(ts[i])
    {
      SectionLineHashless(s, p, lines[i]);
    }
    HashlessIsClean(ts);
    SplitJoin(ts, '\n');
    assert Join(ts, '\n')[0] == '[';
  }

  lemma SectionLineHashless(s: Settings, p: Names, line: IniLine)
    requires s.mode.Keys? && ValidSettings(s) && OneLine(p.managedProfile)
    requires line == Header(SourceProfileName(p)) || line == Pair("aws_access_key_id", s.mode.accessKey)
             || line == Pair("aws_secret_access_key", s.mode.secretKey)
             || (s.mode.sessionToken.Some? && line == Pair("aws_session_token", s.mode.sessionToken.value))
    ensures Hashless(line.Text())
  {
    hide KeyChar;
    if line.Pair? {
      KeyHashless(line.key, line.value);
    }
  }

  lemma FieldsReadBack(header: string, a: string, k: string, t: Option<string>)
    requires IsKey(a) && IsKey(k) && (t.Some? ==> IsKey(t.value))
    ensures var lines := Texts([Header(header), Pair("aws_access_key_id", a), Pair("aws_secret_access_key", k)]
                               + if t.Some? then [Pair("aws_session_token", t.value)] else []);
      && FirstField(lines, "aws_access_key_id") == Some(a)
      && FirstField(lines, "aws_secret_access_key") == Some(k)
      && FirstField(lines, "aws_session_token") == t
  {
    hide IniField, KeyChar;
    PairReads("aws_access_key_id", a);
    PairReads("aws_secret_access_key", k);
    var h, la, lk := Header(header).Text(), Pair("aws_access_key_id", a).Text(),
        Pair("aws_secret_access_key", k).Text();
    OtherLine(h, "aws_access_key_id", 0);
    OtherLine(h, "aws_secret_access_key", 0);
    OtherLine(h, "aws_session_token", 0);
    OtherLine(la, "aws_secret_access_key", 4);
    OtherLine(la, "aws_session_token", 4);
    OtherLine(lk, "aws_session_token", 6);
    var lines := Texts([Header(header), Pair("aws_access_key_id", a), Pair("aws_secret_access_key", k)]
                       + if t.Some? then [Pair("aws_session_token", t.value)] else []);
    assert lines[0] == h && lines[1] == la && lines[2] == lk;
    FirstFieldAt(lines, 1, "aws_access_key_id");
    FirstFieldAt(lines, 2, "aws_secret_access_key");
    if t.Some? {
      PairReads("aws_session_token", t.value);
    }
    FirstFieldAt(lines, 3, "aws_session_token");
  }

  lemma {:induction false} FirstFieldAt(lines: seq<string>, i: nat, name: string)
    requires i <= |lines| && forall j :: 0 <= j < i ==> IniField(lines[j], name).None?
    ensures i < |lines| && IniField(lines[i], name).Some? ==> FirstField(lines, name) == IniField(lines[i], name)
    ensures i == |lines| ==> FirstField(lines, name) == None
  {
    hide IniField;
    if i > 0 {
      FirstFieldAt(lines[1..], i - 1, name);
    }
  }
}
