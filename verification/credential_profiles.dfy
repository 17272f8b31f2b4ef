/** The connections `src/aws_config.ts` lists in the aggregator, and the writer that keeps the three credential
    files. */
module CredentialProfiles {
  import opened Options
  import opened Strings
  import opened ManagedSection
  import opened ConnectionFile
  import opened CredentialFiles
  import opened ConfigProfiles

  // ---- the aggregator -----------------------------------------------------------------------------------------------

  predicate Digits(s: string) {
    forall c <- s :: '0' <= c <= '9'
  }

  /** The names of the connections a file opens. */
  function Opened(lines: seq<SpcLine>): seq<string> {
    if lines == [] then []
    else (if lines[0].Open? then [lines[0].connection] else []) + Opened(lines[1..])
  }

  lemma {:induction false} OpenedConcat(a: seq<SpcLine>, b: seq<SpcLine>)
    ensures Opened(a + b) == Opened(a) + Opened(b)
  {
    if a == [] {
      assert a + b == b;
    } else {
      assert (a + b)[1..] == a[1..] + b;
      OpenedConcat(a[1..], b);
    }
  }

  lemma BlockOpens(name: string, s: Settings, p: Names)
    ensures Opened(ConnectionBlock(name, s, p)) == [name]
  {
    var head := BlockHead(name, Regions(s), DefaultRegion(s));
    HeadOpens(name, Regions(s), DefaultRegion(s));
    OpenedConcat(head + CredentialLines(s, p), [Close]);
    OpenedConcat(head, CredentialLines(s, p));
    NothingOpened(CredentialLines(s, p));
    NothingOpened([Close]);
  }

  lemma HeadOpens(name: string, regions: seq<string>, region: string)
    ensures Opened(BlockHead(name, regions, region)) == [name]
  {
    var head := BlockHead(name, regions, region);
    assert head == [Open(name)] + [Setting("plugin", "aws"), ListSetting("regions", regions),
        Setting("default_region", region)];
    NothingOpened(head[1..]);
  }

  lemma {:induction false} NothingOpened(lines: seq<SpcLine>)
    requires forall l <- lines :: !l.Open?
    ensures Opened(lines) == []
  {
    if lines != [] {
      assert lines[0] in lines;
      NothingOpened(lines[1..]);
    }
  }

  lemma MemberOpens(m: Member, s: Settings, p: Names)
    ensures Opened(MemberBlock(m, s, p)) == [MemberConnectionName(p, m)]
  {
    hide BlockHead, NonEmpty, DefaultRegion, Regions;
    var regions, region := if m.regions != [] then m.regions
        else Regions(s), NonEmpty(m.defaultRegion).GetOr(DefaultRegion(s));
    var head := BlockHead(MemberConnectionName(p, m), regions, region);
    var tail := [Setting("profile", MemberProfileName(p, m)), Close, Blank];
    HeadOpens(MemberConnectionName(p, m), regions, region);
    NothingOpened([Comment(MemberComment(m))]);
    NothingOpened(tail);
    OpenedConcat([Comment(MemberComment(m))] + head, tail);
    OpenedConcat([Comment(MemberComment(m))], head);
  }

  function MemberNames(p: Names, members: seq<Member>): (names: seq<string>)
    ensures |names| == |members|
    ensures ConnectionNames(p, members) == [ParentConnectionName(p)] + names
  {
    seq(|members|, i requires 0 <= i < |members| => MemberConnectionName(p, members[i]))
  }

  lemma {:induction false} MembersOpen(members: seq<Member>, s: Settings, p: Names)
    ensures Opened(MemberBlocks(members, s, p)) == MemberNames(p, members)
  {
    hide MemberBlock;
    if members != [] {
      var n := |members| - 1;
      MembersOpen(members[..n], s, p);
      MemberOpens(members[n], s, p);
      OpenedConcat(MemberBlocks(members[..n], s, p), MemberBlock(members[n], s, p));
      assert MemberNames(p, members) == MemberNames(p, members[..n]) + [MemberConnectionName(p, members[n])];
    }
  }

  /** The aggregator keeps the schema's name and lists exactly the other connections of the file, in order. */
  lemma AggregatorListsConnections(s: Settings, p: Names, members: seq<Member>)
    requires members != []
    ensures Opened(SpcFile(s, p, members)) == [p.connection] + ConnectionNames(p, members)
    ensures NarrowList("connections", ConnectionNames(p, members)) in SpcFile(s, p, members)
  {
    hide ConnectionBlock, MemberBlocks, Aggregator, MemberNames, Opened;
    var head := [Comment(MANAGED_COMMENT)];
    var aggregator, parent := Aggregator(p, members), ConnectionBlock(ParentConnectionName(p), s, p);
    BlockOpens(ParentConnectionName(p), s, p);
    MembersOpen(members, s, p);
    AggregatorOpens(p, members);
    NothingOpened(head);
    NothingOpened([Blank]);
    ListedIn(p, members);
    FiveOpen(head, aggregator, parent, [Blank], MemberBlocks(members, s, p));
  }

  lemma ListedIn(p: Names, members: seq<Member>)
    ensures NarrowList("connections", ConnectionNames(p, members)) in Aggregator(p, members)
  {
    assert Aggregator(p, members)[4] in Aggregator(p, members);
  }

  lemma FiveOpen(a: seq<SpcLine>, b: seq<SpcLine>, c: seq<SpcLine>, d: seq<SpcLine>, e: seq<SpcLine>)
    ensures Opened(a + b + c + d + e) == Opened(a) + Opened(b) + Opened(c) + Opened(d) + Opened(e)
  {
    OpenedConcat(a + b + c + d, e);
    OpenedConcat(a + b + c, d);
    OpenedConcat(a + b, c);
    OpenedConcat(a, b);
  }

  lemma AggregatorOpens(p: Names, members: seq<Member>)
    ensures Opened(Aggregator(p, members)) == [p.connection]
  {
    var a := Aggregator(p, members);
    assert a == [a[0]] + ([a[1]] + a[2..]);
    OpenedConcat([a[0]], [a[1]] + a[2..]);
    OpenedConcat([a[1]], a[2..]);
    NothingOpened([a[0]]);
    NothingOpened(a[2..]);
  }

  /** For distinct members with numeric ids, no connection is listed twice. */
  lemma ConnectionsAreDistinct(p: Names, members: seq<Member>)
    requires forall m <- members :: Digits(m.accountId)
    requires forall i, j :: 0 <= i < j < |members| ==> members[i].accountId != members[j].accountId
    ensures var names := ConnectionNames(p, members); forall i, j :: 0 <= i < j < |names| ==> names[i] != names[j]
  {
    var names := ConnectionNames(p, members);
    forall i, j | 0 <= i < j < |names|
      ensures names[i] != names[j]
    {
      var m := members[j - 1];
      assert names[j] == p.connection + ("_" + m.accountId);
      assert names[j][|p.connection| + 1..] == m.accountId;
      if i == 0 {
        assert names[0][|p.connection| + 1..] == "p";
        assert !Digits("p") by { assert "p"[0] in "p"; }
      } else {
        assert names[i] == p.connection + ("_" + members[i - 1].accountId);
        assert names[i][|p.connection| + 1..] == members[i - 1].accountId;
      }
    }
  }

  // ---- the writer ---------------------------------------------------------------------------------------------------

  /** `writeManagedSection`: a file that is not there is created only to hold a section. */
  function WriteSection(file: Option<string>, body: Option<string>): Option<string> {
    if file.None? && body.None? then None else Some(Replace(file.GetOr(""), body))
  }

  /** A file of the user's after any writes and removals: as it was, with a newline at its end, or with one clean
      section. */
  ghost predicate Kept(user: Option<string>, file: Option<string>) {
    && Unmarked(user.GetOr(""))
    && (|| file == user
        || file == Some(Settled(user.GetOr("")))
        || exists b :: Clean(b) && file == Some(Replace(user.GetOr(""), Some(b))))
  }

  lemma WriteKeeps(user: Option<string>, file: Option<string>, body: Option<string>)
    requires Kept(user, file) && (body.Some? ==> Clean(body.value))
    ensures Kept(user, WriteSection(file, body))
    ensures body.Some? ==> WriteSection(file, body) == Some(Replace(user.GetOr(""), body))
    ensures body.None? ==> WriteSection(file, body) == user || WriteSection(file, body) == Some(Settled(user.GetOr("")))
  {
    hide Replace, Clean, NoMarker, Settled;
    var t := user.GetOr("");
    SettledIsTheSame(t, body.GetOr(""));
    SettledIsTheSame(Settled(t), body.GetOr(""));
    UnmarkedHasNoSection(t);
    if file != user && file != Some(Settled(t)) {
      var b :| Clean(b) && file == Some(Replace(t, Some(b)));
      if body.Some? {
        ReplaceTwice(t, b, body.value);
      } else {
        InsertThenRemove(t, b);
      }
    } else if user.None? {
    }
  }

  /** The profiles read from the managed section of a config file. */
  function ProfilesRead(file: Option<string>): seq<Section> {
    var body := if file.None? then None else Read(file.value);
    if body.None? then [] else ProfilesIn(Split(body.value, '\n'))
  }

  /** From any kept config file, one write makes the section's text say exactly the managed profiles, in order;
      without a role and members there are none. */
  lemma WrittenProfilesRead(s: Settings, p: Names, members: seq<Member>, user: Option<string>, file: Option<string>)
    requires ValidInput(s, p, members) && Kept(user, file)
    ensures ProfilesRead(WriteSection(file, Body(ConfigSection(s, p, members)))) == Sections(s, p, members)
  {
    hide Body, WriteSection, Replace, Read, NoMarker, Clean, ValidInput, ProfilesIn, Split;
    var section := ConfigSection(s, p, members);
    WrittenBodiesClean(s, p, members);
    WriteKeeps(user, file, Body(section));
    BodyWhen(section);
    if section.Some? {
      ReplaceThenRead(user.GetOr(""), Body(section).value);
      ConfigReads(s, p, members);
    } else {
      NoProfiles(user, WriteSection(file, None));
    }
  }

  lemma NoProfiles(user: Option<string>, file: Option<string>)
    requires Unmarked(user.GetOr("")) && (file == user || file == Some(Settled(user.GetOr(""))))
    ensures ProfilesRead(file) == []
  {
    hide NoMarker, Exec, Settled;
    SettledIsTheSame(user.GetOr(""), "");
    UnmarkedHasNoSection(user.GetOr(""));
    UnmarkedHasNoSection(Settled(user.GetOr("")));
  }

  /** So, in the text that was written, every profile's chain of sources ends exactly when the user's own profile is
      none of those it holds. */
  lemma WrittenChainsCloseIff(s: Settings, p: Names, members: seq<Member>, user: Option<string>, file: Option<string>)
    requires ValidInput(s, p, members) && Kept(user, file)
    ensures var all := ProfilesRead(WriteSection(file, Body(ConfigSection(s, p, members))));
      (forall x <- all :: Ends(all, x.name)) <==> (s.mode.Profile? ==> !Rendered(all, s.mode.profile))
  {
    hide Body, WriteSection, ProfilesRead, ConfigSection, Sections, ValidInput;
    WrittenProfilesRead(s, p, members, user, file);
    ChainsCloseIff(s, p, members);
  }

  /** What is read back after a write: exactly the pasted keys in keys mode, nothing in the other modes. */
  function ExpectedKeys(s: Settings): Option<StaticKeys> {
    match s.mode
    case Keys(a, k, t) => Some(StaticKeys(a, k, t))
    case _ => None
  }

  function KeysField(s: Settings, name: string): Option<string> {
    match s.mode
    case Keys(a, k, t) => if name == "access_key" then Some(a) else if name == "secret_key" then Some(k) else t
    case _ => None
  }

  lemma CredentialFields(s: Settings, p: Names, name: string)
    requires ValidSettings(s) && p.managedProfile != "" && name in ["access_key", "secret_key", "session_token"]
    ensures SpcField(CredentialLines(s, p), name) == if s.roleArn.Some? then None else KeysField(s, name)
  {
    hide KeyChar;
    var ls := CredentialLines(s, p);
    if s.roleArn.None? && s.mode.Keys? {
      var pair := [Setting("access_key", s.mode.accessKey), Setting("secret_key", s.mode.secretKey)];
      assert pair[1..] == [pair[1]] && pair[1..][1..] == [];
      var token := if s.mode.sessionToken.Some? then [Setting("session_token", s.mode.sessionToken.value)] else [];
      assert ls == pair + token;
      assert SpcField([pair[1]], name) == if name == "secret_key" then Some(pair[1].value) else None;
      assert SpcField(token, name) == if name == "session_token" then s.mode.sessionToken else None by {
        assert s.mode.sessionToken.Some? ==> token[1..] == [];
      }
      SpcFieldConcat(pair, token, name);
    } else {
      NoSuchSetting(ls, name);
    }
  }

  lemma {:induction false} NoSuchSetting(lines: seq<SpcLine>, name: string)
    requires forall l <- lines :: l.Setting? ==> l.name != name
    ensures SpcField(lines, name) == None
  {
    if lines != [] {
      assert lines[0] in lines;
      NoSuchSetting(lines[1..], name);
    }
  }

  lemma {:induction false} MembersHaveNoKeys(members: seq<Member>, s: Settings, p: Names, name: string)
    requires name in ["access_key", "secret_key", "session_token"]
    ensures SpcField(MemberBlocks(members, s, p), name) == None
  {
    if members != [] {
      var n := |members| - 1;
      MembersHaveNoKeys(members[..n], s, p, name);
      NoSuchSetting(MemberBlock(members[n], s, p), name);
      SpcFieldConcat(MemberBlocks(members[..n], s, p), MemberBlock(members[n], s, p), name);
    }
  }

  /** Only the parent's credential lines carry keys. */
  lemma FileFields(s: Settings, p: Names, members: seq<Member>, name: string)
    requires name in ["access_key", "secret_key", "session_token"]
    ensures SpcField(SpcFile(s, p, members), name) == SpcField(CredentialLines(s, p), name)
  {
    var parent := if members == [] then p.connection else ParentConnectionName(p);
    var head := BlockHead(parent, Regions(s), DefaultRegion(s));
    var block := ConnectionBlock(parent, s, p);
    var front := [Comment(MANAGED_COMMENT)] + if members == [] then [] else Aggregator(p, members);
    NoSuchSetting(head, name);
    NoSuchSetting([Close], name);
    NoSuchSetting([Blank], name);
    NoSuchSetting(front, name);
    MembersHaveNoKeys(members, s, p, name);
    SpcFieldConcat(head + CredentialLines(s, p), [Close], name);
    SpcFieldConcat(head, CredentialLines(s, p), name);
    SpcFieldConcat(front, block, name);
    SpcFieldConcat(front + block, [Blank], name);
    SpcFieldConcat(front + block + [Blank], MemberBlocks(members, s, p), name);
    assert [Comment(MANAGED_COMMENT)] + [] == [Comment(MANAGED_COMMENT)];
    if members == [] {
      assert SpcFile(s, p, members) == front + block + [Blank];
    } else {
      assert SpcFile(s, p, members) == front + block + [Blank] + MemberBlocks(members, s, p);
    }
  }

  /** The connection file is made of lines the reader tells apart. */
  lemma FileIsWritten(s: Settings, p: Names, members: seq<Member>)
    requires ValidInput(s, p, members)
    ensures SpcFile(s, p, members) != [] && forall l <- SpcFile(s, p, members) :: Written(l)
  {
    var parent := if members == [] then p.connection else ParentConnectionName(p);
    ParentIsWritten(parent, s, p);
    AggregatorIsWritten(p, members);
    MembersAreWritten(members, s, p);
    hide ConnectionBlock, MemberBlocks, Aggregator, Written;
  }

  lemma ParentIsWritten(parent: string, s: Settings, p: Names)
    ensures forall l <- ConnectionBlock(parent, s, p) :: Written(l)
  {
    NoteOneLine();
    hide CHAIN_NOTE, Regions, DefaultRegion;
  }

  lemma AggregatorIsWritten(p: Names, members: seq<Member>)
    ensures forall l <- Aggregator(p, members) :: Written(l)
    ensures Written(Comment(MANAGED_COMMENT)) && Written(Blank)
  {
    ManagedOneLine();
    AggregatorOneLine();
    hide MANAGED_COMMENT, AGGREGATOR_COMMENT, PARENT_COMMENT, ConnectionNames;
  }

  lemma ThreeOneLine(a: string, b: string, c: string)
    requires OneLine(a) && OneLine(b) && OneLine(c)
    ensures OneLine(a + b + c)
  {
  }

  lemma ManagedOneLine()
    ensures OneLine(MANAGED_COMMENT) && OneLine(PARENT_COMMENT)
  {
    var a, b := "Managed by aws-advisor. ", "Edit through the Settings page, not by hand.";
    EditOneLine();
    ParentOneLine();
    assert OneLine(a);
    assert MANAGED_COMMENT == a + b;
    hide OneLine;
    OneLineJoined(a, b);
  }

  lemma EditOneLine()
    ensures OneLine("Edit through the Settings page, not by hand.")
  {
    var a, b := "Edit through the Settings ", "page, not by hand.";
    assert OneLine(a) && OneLine(b);
    hide OneLine;
    OneLineJoined(a, b);
    assert a + b == "Edit through the Settings page, not by hand.";
  }

  lemma ParentOneLine()
    ensures OneLine(PARENT_COMMENT)
  {
    var a, b := "The parent (the credentials ", "from Settings).";
    assert OneLine(a) && OneLine(b);
    hide OneLine;
    OneLineJoined(a, b);
    assert a + b == PARENT_COMMENT;
  }

  lemma AggregatorOneLine()
    ensures OneLine(AGGREGATOR_COMMENT)
  {
    var a, b := "Aggregator: the app queries this schema ", "and sees every account below ";
    var c := "(rows carry account_id).";
    AppQueriesOneLine();
    assert OneLine(b) && OneLine(c);
    assert AGGREGATOR_COMMENT == a + b + c;
    hide OneLine;
    ThreeOneLine(a, b, c);
  }

  lemma AppQueriesOneLine()
    ensures OneLine("Aggregator: the app queries this schema ")
  {
    var a, b := "Aggregator: the app ", "queries this schema ";
    assert OneLine(a) && OneLine(b);
    hide OneLine;
    OneLineJoined(a, b);
    assert a + b == "Aggregator: the app queries this schema ";
  }

  lemma NoteOneLine()
    ensures OneLine(CHAIN_NOTE)
  {
    var a, b := "no credentials: the plugin uses the default chain ", "(environment, instance profile, container)";
    DefaultChainOneLine();
    EnvironmentOneLine();
    assert CHAIN_NOTE == a + b;
    hide OneLine;
    OneLineJoined(a, b);
  }

  lemma DefaultChainOneLine()
    ensures OneLine("no credentials: the plugin uses the default chain ")
  {
    var a, b := "no credentials: the plugin ", "uses the default chain ";
    assert OneLine(a) && OneLine(b);
    hide OneLine;
    OneLineJoined(a, b);
    assert a + b == "no credentials: the plugin uses the default chain ";
  }

  lemma EnvironmentOneLine()
    ensures OneLine("(environment, instance profile, container)")
  {
    var a, b := "(environment, instance ", "profile, container)";
    assert OneLine(a) && OneLine(b);
    hide OneLine;
    OneLineJoined(a, b);
    assert a + b == "(environment, instance profile, container)";
  }

  lemma AssumedOneLine()
    ensures OneLine(ASSUMED)
  {
    var a, b := " assumed from the parent ", "(profile in the AWS config file).";
    assert OneLine(a) && OneLine(b);
    assert ASSUMED == a + b;
    hide OneLine;
    OneLineJoined(a, b);
  }

  lemma {:induction false} MembersAreWritten(members: seq<Member>, s: Settings, p: Names)
    requires forall m <- members :: ValidMember(m)
    ensures forall l <- MemberBlocks(members, s, p) :: Written(l)
  {
    if members != [] {
      var n := |members| - 1;
      MembersAreWritten(members[..n], s, p);
      assert members[n] in members;
      MemberIsWritten(members[n], s, p);
      hide MemberBlock, Written;
    }
  }

  lemma MemberIsWritten(m: Member, s: Settings, p: Names)
    requires ValidMember(m)
    ensures forall l <- MemberBlock(m, s, p) :: Written(l)
  {
    assert OneLine("Member account ") && OneLine(": ");
    AssumedOneLine();
    hide ASSUMED;
    MemberCommentOneLine("Member account ", m.accountId, ": ", m.roleArn, ASSUMED);
    hide MemberComment;
  }

  lemma MemberCommentOneLine(a: string, x: string, b: string, y: string, c: string)
    requires OneLine(a) && OneLine(x) && OneLine(b) && OneLine(y) && OneLine(c)
    ensures '\n' !in a + x + b + y + c
  {
  }

  lemma SpcKeys(s: Settings, p: Names, members: seq<Member>)
    requires ValidInput(s, p, members) && p.managedProfile != ""
    ensures FromSpc(Some(SpcText(s, p, members))) == if s.roleArn.Some? then None else ExpectedKeys(s)
  {
    hide KeyChar, SpcField, SpcFile, CredentialLines, TextField, Split, Join, SpcTexts, Written;
    FileIsWritten(s, p, members);
    FileReads(SpcFile(s, p, members), "access_key");
    FileReads(SpcFile(s, p, members), "secret_key");
    FileReads(SpcFile(s, p, members), "session_token");
    FileFields(s, p, members, "access_key");
    FileFields(s, p, members, "secret_key");
    FileFields(s, p, members, "session_token");
    CredentialFields(s, p, "access_key");
    CredentialFields(s, p, "secret_key");
    CredentialFields(s, p, "session_token");
    assert s.mode.Keys? ==> NonEmpty(Some(s.mode.accessKey)).Some? && NonEmpty(Some(s.mode.secretKey)).Some?;
    assert s.mode.Keys? ==> NonEmpty(s.mode.sessionToken) == s.mode.sessionToken;
  }

  /** A credentials file holding the section gives back the keys it was rendered from. */
  lemma SectionKeys(s: Settings, p: Names, members: seq<Member>, file: string)
    requires ValidInput(s, p, members) && CredentialsSection(s, p, members).Some?
    requires Read(file) == Body(CredentialsSection(s, p, members))
    ensures FromIni(Some(file)) == ExpectedKeys(s)
  {
    hide KeyChar, Read, Split, FirstField, Join, Clean, IniLine.Text;
    CredentialsReadBack(s, p, members);
    FieldsReadBack(SourceProfileName(p), s.mode.accessKey, s.mode.secretKey, s.mode.sessionToken);
    assert NonEmpty(s.mode.sessionToken) == s.mode.sessionToken;
  }

  /** From any kept credentials file, one write makes the keys readable exactly as pasted, and leaves none readable in
      the other modes. */
  lemma WriteThenReadKeys(s: Settings, p: Names, members: seq<Member>, user: Option<string>, file: Option<string>)
    requires ValidInput(s, p, members) && p.managedProfile != "" && Kept(user, file)
    ensures ReadStaticKeys(Some(SpcText(s, p, members)),
                           WriteSection(file, Body(CredentialsSection(s, p, members)))) == ExpectedKeys(s)
  {
    hide FromSpc, FromIni, SpcText, Body, ValidSettings, WriteSection, Replace, Read, Exec, NoMarker, Clean, StartsAt;
    SpcKeys(s, p, members);
    var section := CredentialsSection(s, p, members);
    WrittenBodiesClean(s, p, members);
    WriteKeeps(user, file, Body(section));
    assert section.None? <==> Body(section).None? by {
      BodyWhen(section);
    }
    if section.Some? {
      WrittenReads(user, Body(section).value);
      SectionKeys(s, p, members, Replace(user.GetOr(""), Body(section)));
    } else {
      NothingToRead(user, WriteSection(file, None));
    }
  }

  /** The profile the chains start from has its keys: from any kept credentials file, one write leaves exactly the
      pasted keys in a section of that profile's name when keys are chained into a role or into members, and no
      readable section otherwise. */
  lemma ChainedKeysAreWritten(s: Settings, p: Names, members: seq<Member>, user: Option<string>, file: Option<string>)
    requires ValidInput(s, p, members) && Kept(user, file)
    ensures var written := WriteSection(file, Body(CredentialsSection(s, p, members)));
      if s.mode.Keys? && (s.roleArn.Some? || members != []) then
        && FromIni(written) == Some(StaticKeys(s.mode.accessKey, s.mode.secretKey, s.mode.sessionToken))
        && written.Some? && Read(written.value).Some?
        && Split(Read(written.value).value, '\n')[0] == "[" + p.managedProfile + "-source" + "]"
      else FromIni(written) == None
  {
    hide KeyChar, FromIni, Body, ValidSettings, WriteSection, Replace, Read, Exec, NoMarker, Clean, Split;
    var section := CredentialsSection(s, p, members);
    WrittenBodiesClean(s, p, members);
    WriteKeeps(user, file, Body(section));
    BodyWhen(section);
    if section.Some? {
      WrittenReads(user, Body(section).value);
      SectionKeys(s, p, members, Replace(user.GetOr(""), Body(section)));
      CredentialsReadBack(s, p, members);
    } else {
      NothingToRead(user, WriteSection(file, None));
      NoneInSection(WriteSection(file, None));
    }
  }

  lemma NoneInSection(file: Option<string>)
    requires ReadStaticKeys(None, file) == None
    ensures FromIni(file) == None
  {
  }

  lemma BodyWhen(lines: Option<seq<IniLine>>)
    ensures Body(lines).None? <==> lines.None?
  {
  }

  lemma WrittenReads(user: Option<string>, body: string)
    requires Unmarked(user.GetOr("")) && Clean(body)
    ensures Read(Replace(user.GetOr(""), Some(body))) == Some(body)
  {
    hide Replace, Read, NoMarker, Clean;
    UnmarkedHasNoSection(user.GetOr(""));
    ReplaceThenRead(user.GetOr(""), body);
  }

  /** The three files, as the advisor leaves them. */
  class CredentialStore {
    var spc: Option<string>
    var config: Option<string>
    var credentials: Option<string>
    ghost const userConfig: Option<string>
    ghost const userCredentials: Option<string>

    ghost predicate Valid()
      reads this
    {
      Kept(userConfig, config) && Kept(userCredentials, credentials)
    }

    constructor (config: Option<string>, credentials: Option<string>)
      requires Unmarked(config.GetOr("")) && Unmarked(credentials.GetOr(""))
      ensures Valid() && this.config == config && this.credentials == credentials && spc == None
      ensures userConfig == config && userCredentials == credentials
    {
      this.spc, this.config, this.credentials := None, config, credentials;
      this.userConfig, this.userCredentials := config, credentials;
    }

    method Write(s: Settings, p: Names, members: seq<Member>)
      requires Valid() && ValidInput(s, p, members) && p.managedProfile != ""
      modifies this
      ensures Valid()
      ensures spc == Some(SpcText(s, p, members))
      ensures credentials == WriteSection(old(credentials), Body(CredentialsSection(s, p, members)))
      ensures config == WriteSection(old(config), Body(ConfigSection(s, p, members)))
      ensures ReadStaticKeys(spc, credentials) == ExpectedKeys(s)
      ensures s.mode.Keys? && (s.roleArn.Some? || members != []) ==>
        FromIni(credentials) == Some(StaticKeys(s.mode.accessKey, s.mode.secretKey, s.mode.sessionToken))
      ensures ProfilesRead(config) == Sections(s, p, members)
    {
      var text := RenderSpc(s, p, members);
      var managed := RenderManagedConfig(s, p, members);
      var keys := CredentialsSection(s, p, members);
      hide Kept, SpcText, CredentialsSection, ConfigSection, Body, ReadStaticKeys, FromIni, ProfilesRead, Sections;
      ChainedKeysAreWritten(s, p, members, userCredentials, credentials);
      WriteThenReadKeys(s, p, members, userCredentials, credentials);
      WrittenProfilesRead(s, p, members, userConfig, config);
      WrittenBodiesClean(s, p, members);
      WriteKeeps(userCredentials, credentials, Body(keys));
      WriteKeeps(userConfig, config, Body(managed));
      spc := Some(text);
      credentials := WriteSection(credentials, Body(keys));
      config := WriteSection(config, Body(managed));
    }

    /** Removes the connection file and both sections: the user's files hold the user's text again. */
    method Remove()
      requires Valid()
      modifies this
      ensures Valid() && spc == None && ReadStaticKeys(spc, credentials) == None && ProfilesRead(config) == []
      ensures config == userConfig || config == Some(Settled(userConfig.GetOr("")))
      ensures credentials == userCredentials || credentials == Some(Settled(userCredentials.GetOr("")))
    {
      WriteKeeps(userCredentials, credentials, None);
      WriteKeeps(userConfig, config, None);
      NothingToRead(userCredentials, WriteSection(credentials, None));
      NoProfiles(userConfig, WriteSection(config, None));
      hide Kept, ReadStaticKeys, Settled;
      spc := None;
      credentials := WriteSection(credentials, None);
      config := WriteSection(config, None);
    }
  }

  lemma WrittenBodiesClean(s: Settings, p: Names, members: seq<Member>)
    requires ValidInput(s, p, members)
    ensures Body(CredentialsSection(s, p, members)).Some? ==> Clean(Body(CredentialsSection(s, p, members)).value)
    ensures Body(ConfigSection(s, p, members)).Some? ==> Clean(Body(ConfigSection(s, p, members)).value)
  {
    hide Clean, ValidInput, CredentialsSection, ConfigSection;
    if CredentialsSection(s, p, members).Some? {
      CredentialsReadBack(s, p, members);
    }
    if ConfigSection(s, p, members).Some? {
      ConfigIsClean(s, p, members);
    }
  }

  lemma NothingToRead(user: Option<string>, file: Option<string>)
    requires Unmarked(user.GetOr("")) && (file == user || file == Some(Settled(user.GetOr(""))))
    ensures ReadStaticKeys(None, file) == None
  {
    hide NoMarker, Exec;
    SettledIsTheSame(user.GetOr(""), "");
    UnmarkedHasNoSection(user.GetOr(""));
    UnmarkedHasNoSection(Settled(user.GetOr("")));
  }
}
