/** What the connection file and the config file of `src/aws_config.ts` set up together: which connections there are,
    and which role and identity each one ends at. */
module ConnectionMeaning {
  import opened Options
  import opened Strings
  import opened ConnectionFile
  import opened CredentialFiles
  import opened ConfigProfiles

  // ---- the connections of a file ------------------------------------------------------------------------------------

  datatype Connection = Connection(name: string, settings: map<string, string>, lists: map<string, seq<string>>)

  function WithLine(c: Connection, l: SpcLine): Connection {
    match l
    case Setting(n, v) => c.(settings := c.settings[n := v])
    case Narrow(n, v) => c.(settings := c.settings[n := v])
    case ListSetting(n, vs) => c.(lists := c.lists[n := vs])
    case NarrowList(n, vs) => c.(lists := c.lists[n := vs])
    case _ => c
  }

  /** Each opening line starts a connection, and the settings under it are its own. */
  function ConnectionsIn(lines: seq<SpcLine>): seq<Connection> {
    if lines == [] then []
    else
      var before, l := ConnectionsIn(lines[..|lines| - 1]), lines[|lines| - 1];
      if l.Open? then before + [Connection(l.connection, map[], map[])]
      else if before == [] then []
      else before[..|before| - 1] + [WithLine(before[|before| - 1], l)]
  }

  function Filled(c: Connection, ls: seq<SpcLine>): Connection
    decreases |ls|
  {
    if ls == [] then c else Filled(WithLine(c, ls[0]), ls[1..])
  }

  lemma {:induction false} LinesFill(lines: seq<SpcLine>, front: seq<Connection>, c: Connection, ls: seq<SpcLine>)
    requires ConnectionsIn(lines) == front + [c] && forall l <- ls :: !l.Open?
    ensures ConnectionsIn(lines + ls) == front + [Filled(c, ls)]
    decreases |ls|
  {
    hide WithLine;
    if ls == [] {
      assert lines + ls == lines;
    } else {
      assert ls[0] in ls;
      assert (lines + [ls[0]])[..|lines|] == lines;
      assert lines + ls == lines + [ls[0]] + ls[1..];
      hide ConnectionsIn;
      LinesFill(lines + [ls[0]], front, WithLine(c, ls[0]), ls[1..]);
    }
  }

  /** An opening line and the lines under it, wherever they stand. */
  lemma BlockReads(lines: seq<SpcLine>, name: string, ls: seq<SpcLine>)
    requires forall l <- ls :: !l.Open?
    ensures ConnectionsIn(lines + ([Open(name)] + ls)) ==
            ConnectionsIn(lines) + [Filled(Connection(name, map[], map[]), ls)]
  {
    OpenReads(lines, Open(name));
    hide ConnectionsIn, Filled;
    LinesFill(lines + [Open(name)], ConnectionsIn(lines), Connection(name, map[], map[]), ls);
    assert lines + ([Open(name)] + ls) == lines + [Open(name)] + ls;
  }

  lemma OpenReads(lines: seq<SpcLine>, l: SpcLine)
    ensures l.Open? ==> ConnectionsIn(lines + [l]) == ConnectionsIn(lines) + [Connection(l.connection, map[], map[])]
    ensures l.Comment? || l.Blank? || l.Close? || l.Note? ==> ConnectionsIn(lines + [l]) == ConnectionsIn(lines)
  {
    assert (lines + [l])[..|lines|] == lines;
  }

  /** Comments and blank lines set nothing. */
  lemma {:induction false} QuietLines(lines: seq<SpcLine>, ls: seq<SpcLine>)
    requires forall l <- ls :: l.Comment? || l.Blank? || l.Close? || l.Note?
    ensures ConnectionsIn(lines + ls) == ConnectionsIn(lines)
    decreases |ls|
  {
    if ls == [] {
      assert lines + ls == lines;
    } else {
      assert ls[0] in ls && forall l <- ls[1..] :: l in ls;
      OpenReads(lines, ls[0]);
      hide ConnectionsIn;
      QuietLines(lines + [ls[0]], ls[1..]);
      assert lines + ls == lines + [ls[0]] + ls[1..];
    }
  }

  lemma FilledOne(c: Connection, l: SpcLine, ls: seq<SpcLine>)
    ensures Filled(c, [l] + ls) == Filled(WithLine(c, l), ls)
  {
    assert ([l] + ls)[1..] == ls;
  }

  lemma {:induction false} FilledConcat(c: Connection, a: seq<SpcLine>, b: seq<SpcLine>)
    ensures Filled(c, a + b) == Filled(Filled(c, a), b)
    decreases |a|
  {
    hide WithLine;
    if a == [] {
      assert a + b == b;
    } else {
      assert (a + b)[1..] == a[1..] + b;
      FilledConcat(WithLine(c, a[0]), a[1..], b);
    }
  }

  // ---- what a connection needs --------------------------------------------------------------------------------------

  function RegionOr(region: Option<string>, default: string): string {
    match region
    case None => default
    case Some(r) => if r == "" then default else r
  }

  function AllOr(regions: seq<string>, default: seq<string>): seq<string> {
    if regions == [] then default else regions
  }

  /** The settings that say who a connection is: a profile with a role or in profile mode, the pasted keys without a
      role, and nothing where the default chain is left to decide. */
  predicate Identifies(s: Settings, p: Names, settings: map<string, string>) {
    var keys := {"access_key", "secret_key", "session_token"};
    if s.roleArn.Some? && p.managedProfile != "" then
      "profile" in settings && settings["profile"] == p.managedProfile && settings.Keys !! keys
    else if s.roleArn.None? && s.mode.Profile? && s.mode.profile != "" then
      "profile" in settings && settings["profile"] == s.mode.profile && settings.Keys !! keys
    else if s.mode.Keys? then
      && "profile" !in settings && "access_key" in settings && settings["access_key"] == s.mode.accessKey
      && "secret_key" in settings && settings["secret_key"] == s.mode.secretKey
      && ("session_token" in settings <==> s.mode.sessionToken.Some? && s.mode.sessionToken.value != "")
      && ("session_token" in settings ==> settings["session_token"] == s.mode.sessionToken.value)
    else
      "profile" !in settings && settings.Keys !! keys
  }

  /** A connection of the parent's own settings. */
  predicate IsParent(c: Connection, name: string, s: Settings, p: Names) {
    && c.name == name && c.lists == map["regions" := AllOr(s.regions, ["*"])]
    && "plugin" in c.settings && c.settings["plugin"] == "aws"
    && "default_region" in c.settings && c.settings["default_region"] == RegionOr(s.defaultRegion, "us-east-1")
    && Identifies(s, p, c.settings)
  }

  /** A member's connection, through the member's own profile. */
  predicate IsMember(c: Connection, m: Member, s: Settings, p: Names) {
    && c.name == p.connection + "_" + m.accountId
    && c.lists == map["regions" := AllOr(m.regions, AllOr(s.regions, ["*"]))]
    && c.settings == map["plugin" := "aws",
                         "default_region" := RegionOr(m.defaultRegion, RegionOr(s.defaultRegion, "us-east-1")),
                         "profile" := p.managedProfile + "-" + m.accountId]
  }

  /** The connection that keeps the schema's name and spans the others. */
  predicate IsAggregator(c: Connection, p: Names, members: seq<Member>) {
    && c.name == p.connection && c.settings == map["plugin" := "aws", "type" := "aggregator"]
    && c.lists.Keys == {"connections"} && |c.lists["connections"]| == 1 + |members|
    && c.lists["connections"][0] == p.connection + "_p"
    && forall i :: 0 <= i < |members| ==> c.lists["connections"][1 + i] == p.connection + "_" + members[i].accountId
  }

  lemma OneFills(c: Connection, l: SpcLine)
    ensures Filled(c, [l]) == WithLine(c, l)
  {
    FilledOne(c, l, []);
    assert [l] == [l] + [];
  }

  lemma KeysFill(c: Connection, s: Settings, p: Names)
    requires s.mode.Keys? && NonEmpty(SpcProfile(s, p)).None?
    ensures var token := s.mode.sessionToken;
      var d := c.(settings := c.settings["access_key" := s.mode.accessKey]["secret_key" := s.mode.secretKey]);
      Filled(c, CredentialLines(s, p)) ==
      if token.Some? && token.value != "" then d.(settings := d.settings["session_token" := token.value]) else d
  {
    var access, secret := Setting("access_key", s.mode.accessKey), Setting("secret_key", s.mode.secretKey);
    var token := if NonEmpty(s.mode.sessionToken).Some?
                 then [Setting("session_token", s.mode.sessionToken.value)] else [];
    assert CredentialLines(s, p) == [access] + ([secret] + token);
    hide Filled;
    FilledOne(c, access, [secret] + token);
    FilledOne(WithLine(c, access), secret, token);
    var d := WithLine(WithLine(c, access), secret);
    if token != [] {
      OneFills(d, token[0]);
    } else {
      NothingFills(d);
    }
  }

  lemma NothingFills(c: Connection)
    ensures Filled(c, []) == c
  {
  }

  lemma CredentialsFill(c: Connection, s: Settings, p: Names)
    requires c.settings.Keys == {"plugin", "default_region"}
    ensures var d := Filled(c, CredentialLines(s, p) + [Close]);
      && d.name == c.name && d.lists == c.lists && Identifies(s, p, d.settings)
      && "plugin" in d.settings && d.settings["plugin"] == c.settings["plugin"]
      && "default_region" in d.settings && d.settings["default_region"] == c.settings["default_region"]
  {
    var ls := CredentialLines(s, p);
    FilledConcat(c, ls, [Close]);
    OneFills(Filled(c, ls), Close);
    if NonEmpty(SpcProfile(s, p)).None? && s.mode.Keys? {
      KeysFill(c, s, p);
    } else {
      OneFills(c, ls[0]);
      assert ls == [ls[0]];
    }
    hide Filled, CredentialLines;
  }

  lemma HeadFills(name: string, regions: seq<string>, region: string)
    ensures BlockHead(name, regions, region)[0] == Open(name)
    ensures var c := Filled(Connection(name, map[], map[]), BlockHead(name, regions, region)[1..]);
      c == Connection(name, map["plugin" := "aws", "default_region" := region], map["regions" := regions])
  {
    var c0 := Connection(name, map[], map[]);
    var a, b, d := Setting("plugin", "aws"), ListSetting("regions", regions), Setting("default_region", region);
    assert BlockHead(name, regions, region)[1..] == [a] + ([b] + ([d] + []));
    FilledOne(c0, a, [b] + ([d] + []));
    FilledOne(WithLine(c0, a), b, [d] + []);
    FilledOne(WithLine(WithLine(c0, a), b), d, []);
  }

  lemma ParentReads(lines: seq<SpcLine>, name: string, s: Settings, p: Names)
    ensures exists c ::
      IsParent(c, name, s, p) && ConnectionsIn(lines + ConnectionBlock(name, s, p)) == ConnectionsIn(lines) + [c]
  {
    var regions, region := AllOr(s.regions, ["*"]), RegionOr(s.defaultRegion, "us-east-1");
    assert Regions(s) == regions && DefaultRegion(s) == region;
    HeadFills(name, regions, region);
    var head := BlockHead(name, regions, region);
    var under := head[1..] + (CredentialLines(s, p) + [Close]);
    var c := Connection(name, map["plugin" := "aws", "default_region" := region], map["regions" := regions]);
    assert ConnectionBlock(name, s, p) == [Open(name)] + under;
    CredentialsQuiet(s, p);
    BlockReads(lines, name, under);
    FilledConcat(Connection(name, map[], map[]), head[1..], CredentialLines(s, p) + [Close]);
    CredentialsFill(c, s, p);
    hide Identifies, CredentialLines, ConnectionsIn, Filled;
    assert IsParent(Filled(c, CredentialLines(s, p) + [Close]), name, s, p);
  }

  lemma CredentialsQuiet(s: Settings, p: Names)
    ensures forall l <- CredentialLines(s, p) :: !l.Open?
  {
  }

  /** What is under a member's opening line. */
  function MemberUnder(regions: seq<string>, region: string, name: string, profile: string): seq<SpcLine> {
    BlockHead(name, regions, region)[1..] + ([Setting("profile", profile)] + [Close, Blank])
  }

  lemma MemberFills(regions: seq<string>, region: string, name: string, profile: string)
    ensures Filled(Connection(name, map[], map[]), MemberUnder(regions, region, name, profile)) ==
            Connection(name, map["plugin" := "aws", "default_region" := region, "profile" := profile],
                       map["regions" := regions])
  {
    HeadFills(name, regions, region);
    var head := BlockHead(name, regions, region)[1..];
    var c := Connection(name, map["plugin" := "aws", "default_region" := region], map["regions" := regions]);
    var d := WithLine(c, Setting("profile", profile));
    hide Filled, BlockHead;
    FilledConcat(Connection(name, map[], map[]), head, [Setting("profile", profile)] + [Close, Blank]);
    FilledOne(c, Setting("profile", profile), [Close, Blank]);
    FilledOne(d, Close, [Blank]);
    OneFills(d, Blank);
    assert [Close, Blank] == [Close] + [Blank];
  }

  /** A comment, an opening line and what is under it. */
  lemma CommentedBlockReads(lines: seq<SpcLine>, comment: string, name: string, under: seq<SpcLine>)
    requires forall l <- under :: !l.Open?
    ensures ConnectionsIn(lines + ([Comment(comment)] + ([Open(name)] + under))) ==
            ConnectionsIn(lines) + [Filled(Connection(name, map[], map[]), under)]
  {
    hide ConnectionsIn, Filled;
    QuietLines(lines, [Comment(comment)]);
    BlockReads(lines + [Comment(comment)], name, under);
    var block := [Open(name)] + under;
    assert lines + ([Comment(comment)] + block) == lines + [Comment(comment)] + block;
  }

  lemma MemberUnderIsBlock(m: Member, s: Settings, p: Names)
    ensures var under := MemberUnder(AllOr(m.regions, AllOr(s.regions, ["*"])),
                                     RegionOr(m.defaultRegion, RegionOr(s.defaultRegion, "us-east-1")),
                                     MemberConnectionName(p, m), MemberProfileName(p, m));
      && MemberBlock(m, s, p) == [Comment(MemberComment(m))] + ([Open(MemberConnectionName(p, m))] + under)
      && forall l <- under :: !l.Open?
  {
    hide MemberComment;
  }

  lemma MemberReads(lines: seq<SpcLine>, m: Member, s: Settings, p: Names)
    ensures exists c ::
      IsMember(c, m, s, p) && ConnectionsIn(lines + MemberBlock(m, s, p)) == ConnectionsIn(lines) + [c]
  {
    var regions := AllOr(m.regions, AllOr(s.regions, ["*"]));
    var region := RegionOr(m.defaultRegion, RegionOr(s.defaultRegion, "us-east-1"));
    var name, profile := MemberConnectionName(p, m), MemberProfileName(p, m);
    MemberFills(regions, region, name, profile);
    MemberUnderIsBlock(m, s, p);
    hide ConnectionsIn, MemberBlock, MemberUnder, Filled, MemberComment;
    CommentedBlockReads(lines, MemberComment(m), name, MemberUnder(regions, region, name, profile));
  }

  function AggregatorUnder(names: seq<string>): seq<SpcLine> {
    [Narrow("plugin", "aws")] + ([Narrow("type", "aggregator")] +
                                 ([NarrowList("connections", names)] + [Close, Blank, Comment(PARENT_COMMENT)]))
  }

  lemma AggregatorFills(name: string, names: seq<string>)
    ensures Filled(Connection(name, map[], map[]), AggregatorUnder(names)) ==
            Connection(name, map["plugin" := "aws", "type" := "aggregator"], map["connections" := names])
  {
    var c0, a, b, d := Connection(name, map[], map[]), Narrow("plugin", "aws"), Narrow("type", "aggregator"),
        NarrowList("connections", names);
    var rest := [Close, Blank, Comment(PARENT_COMMENT)];
    hide Filled, PARENT_COMMENT;
    FilledOne(c0, a, [b] + ([d] + rest));
    FilledOne(WithLine(c0, a), b, [d] + rest);
    FilledOne(WithLine(WithLine(c0, a), b), d, rest);
    var c := WithLine(WithLine(WithLine(c0, a), b), d);
    FilledOne(c, Close, [Blank, Comment(PARENT_COMMENT)]);
    FilledOne(c, Blank, [Comment(PARENT_COMMENT)]);
    OneFills(c, Comment(PARENT_COMMENT));
    assert rest == [Close] + [Blank, Comment(PARENT_COMMENT)];
    assert [Blank, Comment(PARENT_COMMENT)] == [Blank] + [Comment(PARENT_COMMENT)];
  }

  lemma AggregatorUnderIsBlock(p: Names, members: seq<Member>)
    ensures var under := AggregatorUnder(ConnectionNames(p, members));
      && Aggregator(p, members) == [Comment(AGGREGATOR_COMMENT)] + ([Open(p.connection)] + under)
      && forall l <- under :: !l.Open?
  {
    hide AGGREGATOR_COMMENT, PARENT_COMMENT, ConnectionNames;
  }

  lemma AggregatorReads(lines: seq<SpcLine>, p: Names, members: seq<Member>)
    ensures exists c ::
      IsAggregator(c, p, members) && ConnectionsIn(lines + Aggregator(p, members)) == ConnectionsIn(lines) + [c]
  {
    var names := ConnectionNames(p, members);
    AggregatorFills(p.connection, names);
    AggregatorUnderIsBlock(p, members);
    assert IsAggregator(Filled(Connection(p.connection, map[], map[]), AggregatorUnder(names)), p, members);
    hide ConnectionsIn, IsAggregator, Aggregator, Filled, AggregatorUnder, AGGREGATOR_COMMENT, ConnectionNames;
    CommentedBlockReads(lines, AGGREGATOR_COMMENT, p.connection, AggregatorUnder(names));
  }

  lemma {:induction false} MembersRead(lines: seq<SpcLine>, members: seq<Member>, s: Settings, p: Names)
    ensures var before, after := ConnectionsIn(lines), ConnectionsIn(lines + MemberBlocks(members, s, p));
      && |after| == |before| + |members| && before <= after
      && forall i :: 0 <= i < |members| ==> IsMember(after[|before| + i], members[i], s, p)
  {
    hide ConnectionsIn, IsMember, MemberBlock;
    if members == [] {
      assert lines + MemberBlocks(members, s, p) == lines;
    } else {
      var n := |members| - 1;
      MembersRead(lines, members[..n], s, p);
      var front := lines + MemberBlocks(members[..n], s, p);
      MemberReads(front, members[n], s, p);
      assert lines + MemberBlocks(members, s, p) == front + MemberBlock(members[n], s, p);
    }
  }

  /** The connections of the file: the parent's alone under the schema's name; or, with members, an aggregator under
      that name over the parent's and one for each member, through the member's profile, in order. */
  lemma FileConnects(s: Settings, p: Names, members: seq<Member>)
    ensures var cs := ConnectionsIn(SpcFile(s, p, members));
      && (members == [] ==> |cs| == 1 && IsParent(cs[0], p.connection, s, p))
      && (members != [] ==>
            && |cs| == 2 + |members| && IsAggregator(cs[0], p, members) && IsParent(cs[1], p.connection + "_p", s, p)
            && forall i :: 0 <= i < |members| ==> IsMember(cs[2 + i], members[i], s, p))
  {
    hide *;
    if members == [] {
      AloneConnects(s, p);
    } else {
      TogetherConnect(s, p, members);
    }
  }

  lemma HeadConnects()
    ensures ConnectionsIn([Comment(MANAGED_COMMENT)]) == []
  {
    assert ConnectionsIn([]) == [];
    hide ConnectionsIn, MANAGED_COMMENT;
    QuietLines([], [Comment(MANAGED_COMMENT)]);
    assert [] + [Comment(MANAGED_COMMENT)] == [Comment(MANAGED_COMMENT)];
  }

  lemma AloneConnects(s: Settings, p: Names)
    ensures var cs := ConnectionsIn(SpcFile(s, p, []));
      |cs| == 1 && IsParent(cs[0], p.connection, s, p)
  {
    hide ConnectionsIn, IsParent, ConnectionBlock, MANAGED_COMMENT;
    var head := [Comment(MANAGED_COMMENT)];
    HeadConnects();
    ParentReads(head, p.connection, s, p);
    QuietLines(head + ConnectionBlock(p.connection, s, p), [Blank]);
  }

  lemma TogetherConnect(s: Settings, p: Names, members: seq<Member>)
    requires members != []
    ensures var cs := ConnectionsIn(SpcFile(s, p, members));
      && |cs| == 2 + |members| && IsAggregator(cs[0], p, members) && IsParent(cs[1], p.connection + "_p", s, p)
      && forall i :: 0 <= i < |members| ==> IsMember(cs[2 + i], members[i], s, p)
  {
    hide ConnectionsIn, IsMember, IsParent, IsAggregator, MemberBlocks, ConnectionBlock, Aggregator, MANAGED_COMMENT;
    var head := [Comment(MANAGED_COMMENT)];
    HeadConnects();
    AggregatorReads(head, p, members);
    var two := head + Aggregator(p, members);
    ParentReads(two, ParentConnectionName(p), s, p);
    var three := two + ConnectionBlock(ParentConnectionName(p), s, p);
    QuietLines(three, [Blank]);
    MembersRead(three + [Blank], members, s, p);
  }

  // ---- the roles behind them ----------------------------------------------------------------------------------------

  /** The profile of a member's connection assumes the member's role, in its region, from the managed profile where
      the parent assumes a role, and from the parent's own identity elsewhere. */
  lemma MemberAssumesItsRole(s: Settings, p: Names, members: seq<Member>, m: Member)
    requires m in members
    ensures exists x :: x in Sections(s, p, members) && SaysMember(x, m, s, p)
  {
    MemberSectionsAre(members, s, p);
    var x := MemberSection(m, s, p);
    assert x in MemberSections(members, s, p);
    assert x in Sections(s, p, members);
    assert SaysMember(x, m, s, p);
  }

  predicate SaysMember(x: Section, m: Member, s: Settings, p: Names) {
    && x.name == p.managedProfile + "-" + m.accountId && x.roleArn == m.roleArn
    && x.region == RegionOr(m.defaultRegion, RegionOr(s.defaultRegion, "us-east-1"))
    && (s.roleArn.Some? ==> x.source == FromProfile(p.managedProfile))
    && (s.roleArn.None? ==> SaysBase(x.source, s, p))
  }

  /** The identity the mode names: the keys' own profile, the user's profile, or the credential source of the default
      chain. */
  predicate SaysBase(source: Source, s: Settings, p: Names) {
    match s.mode
    case Keys(_, _, _) => source == FromProfile(p.managedProfile + "-source")
    case Profile(own) => source == FromProfile(own)
    case Chain(None) => source == FromCredentials("Ec2InstanceMetadata")
    case Chain(Some(c)) => source == FromCredentials(if c == "" then "Ec2InstanceMetadata" else c)
  }

  /** The managed profile assumes the parent's role from the mode's identity; the keys' profile is there, with nothing
      to assume, exactly when keys are chained. */
  lemma ManagedAssumesTheRole(s: Settings, p: Names, members: seq<Member>)
    ensures s.roleArn.Some? ==>
      && Sections(s, p, members) != []
      && var x := Sections(s, p, members)[0];
         && x.name == p.managedProfile && x.roleArn == s.roleArn.value && SaysBase(x.source, s, p)
         && x.region == RegionOr(s.defaultRegion, "us-east-1")
    ensures s.mode.Keys? && (s.roleArn.Some? || members != []) ==>
      Section(p.managedProfile + "-source", "", OwnKeys, RegionOr(s.defaultRegion, "us-east-1"))
      in Sections(s, p, members)
  {
    if s.mode.Keys? && (s.roleArn.Some? || members != []) {
      assert KeySection(s, p) in KeySections(s, p, members);
      assert KeySection(s, p) in Sections(s, p, members);
    }
  }
}
