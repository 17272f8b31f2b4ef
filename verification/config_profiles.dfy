/** The profiles `src/aws_config.ts` renders into the AWS config file, what reading that file gives, and how the
    chains of source profiles end. */
module ConfigProfiles {
  import opened Options
  import opened Strings
  import opened ManagedSection
  import opened CredentialFiles

  // ---- the managed profiles -----------------------------------------------------------------------------------------

  /** Where a profile's identity comes from: another profile, a credential source, or its own entry in the credentials
      file. */
  datatype Source = FromProfile(profile: string) | FromCredentials(source: string) | OwnKeys

  datatype Section = Section(name: string, roleArn: string, source: Source, region: string)

  function BaseSource(s: Settings, p: Names): Source {
    match s.mode
    case Keys(_, _, _) => FromProfile(SourceProfileName(p))
    case Profile(x) => FromProfile(x)
    case Chain(c) => FromCredentials(NonEmpty(c).GetOr(DEFAULT_SOURCE))
  }

  function RoleSection(s: Settings, p: Names): Section
    requires s.roleArn.Some?
  {
    Section(p.managedProfile, s.roleArn.value, BaseSource(s, p), DefaultRegion(s))
  }

  function RoleSections(s: Settings, p: Names): seq<Section> {
    if s.roleArn.Some? then [RoleSection(s, p)] else []
  }

  function KeySection(s: Settings, p: Names): Section {
    Section(SourceProfileName(p), "", OwnKeys, DefaultRegion(s))
  }

  function KeySections(s: Settings, p: Names, members: seq<Member>): seq<Section> {
    if s.mode.Keys? && (s.roleArn.Some? || members != [])
    then [KeySection(s, p)] else []
  }

  function MemberSection(m: Member, s: Settings, p: Names): Section {
    Section(MemberProfileName(p, m), m.roleArn,
            if s.roleArn.Some? then FromProfile(p.managedProfile) else BaseSource(s, p),
            NonEmpty(m.defaultRegion).GetOr(DefaultRegion(s)))
  }

  function MemberSections(members: seq<Member>, s: Settings, p: Names): seq<Section> {
    if members == [] then []
    else MemberSections(members[..|members| - 1], s, p) + [MemberSection(members[|members| - 1], s, p)]
  }

  function Sections(s: Settings, p: Names, members: seq<Member>): seq<Section> {
    RoleSections(s, p) + KeySections(s, p, members) + MemberSections(members, s, p)
  }

  function SectionLines(x: Section): (lines: seq<IniLine>)
    ensures lines != []
  {
    [Header("profile " + x.name)]
    + (match x.source
       case OwnKeys => []
       case FromProfile(y) => [Pair("role_arn", x.roleArn), Pair("role_session_name", "aws-advisor"),
           Pair("source_profile", y)]
       case FromCredentials(c) => [Pair("role_arn", x.roleArn), Pair("role_session_name", "aws-advisor"),
           Pair("credential_source", c)])
    + [Pair("region", x.region)]
  }

  function MemberLines(members: seq<Member>, s: Settings, p: Names): seq<IniLine> {
    if members == [] then []
    else
      MemberLines(members[..|members| - 1], s, p) + [Empty] + SectionLines(MemberSection(members[|members| - 1], s, p))
  }

  /** The lines of the config section: a blank line before the source profile when something precedes it, and before
      every member. */
  function ConfigLines(s: Settings, p: Names, members: seq<Member>): seq<IniLine> {
    ParentLines(s, p, members) + MemberLines(members, s, p)
  }

  function ParentLines(s: Settings, p: Names, members: seq<Member>): seq<IniLine> {
    var role := if s.roleArn.Some? then SectionLines(RoleSection(s, p)) else [];
    if s.mode.Keys? && (s.roleArn.Some? || members != [])
    then role + (if role != [] then [Empty] else []) + SectionLines(KeySection(s, p)) else role
  }

  function ConfigSection(s: Settings, p: Names, members: seq<Member>): Option<seq<IniLine>> {
    if s.roleArn.None? && members == [] then None else Some(ConfigLines(s, p, members))
  }

  lemma OneMoreMember(members: seq<Member>, k: nat, s: Settings, p: Names)
    requires k < |members|
    ensures MemberLines(members[..k + 1], s, p) ==
            MemberLines(members[..k], s, p) + [Empty] + SectionLines(MemberSection(members[k], s, p))
  {
    hide SectionLines, MemberSection;
    assert members[..k + 1][..k] == members[..k];
  }

  lemma Regroup(a: seq<IniLine>, b: seq<IniLine>, c: seq<IniLine>, d: seq<IniLine>)
    ensures a + b + c + d == a + (b + c + d)
  {
  }

  method RenderManagedConfig(s: Settings, p: Names, members: seq<Member>) returns (lines: Option<seq<IniLine>>)
    ensures lines == ConfigSection(s, p, members)
  {
    if s.roleArn.None? && members == [] {
      return None;
    }
    hide SectionLines, MemberSection, MemberLines, RoleSection, KeySection;
    var ls: seq<IniLine> := [];
    if s.roleArn.Some? {
      ls := SectionLines(RoleSection(s, p));
    }
    if s.mode.Keys? {
      ls := ls + (if ls != [] then [Empty] else []) + SectionLines(KeySection(s, p));
    }
    ghost var front := ls;
    assert front == ParentLines(s, p, members);
    hide ParentLines, Sections;
    for k := 0 to |members|
      invariant ls == front + MemberLines(members[..k], s, p)
    {
      OneMoreMember(members, k, s, p);
      Regroup(front, MemberLines(members[..k], s, p), [Empty], SectionLines(MemberSection(members[k], s, p)));
      ls := ls + [Empty] + SectionLines(MemberSection(members[k], s, p));
    }
    assert members[..|members|] == members;
    lines := Some(ls);
  }

  // ---- the chains close ---------------------------------------------------------------------------------------------

  function Lookup(sections: seq<Section>, name: string): Option<Section> {
    if sections == [] then None
    else if sections[0].name == name then Some(sections[0])
    else Lookup(sections[1..], name)
  }

  lemma {:induction false} LookupMeaning(sections: seq<Section>, name: string)
    ensures Lookup(sections, name).Some? <==> exists x <- sections :: x.name == name
    ensures Lookup(sections, name).Some? ==>
        Lookup(sections, name).value in sections && Lookup(sections, name).value.name == name
  {
    if sections != [] {
      LookupMeaning(sections[1..], name);
      assert sections == [sections[0]] + sections[1..];
    }
  }

  /** What a chain of source profiles ends at: a profile this module does not render, a credential source, or the keys
      of a rendered profile. */
  datatype Identity = Outside(profile: string) | Credential(source: string) | KeysOf(profile: string)

  /** Where following source profiles from `name` ends, if it does within that many hops. */
  function EndOf(sections: seq<Section>, name: string, hops: nat): Option<Identity>
    decreases hops
  {
    var x := Lookup(sections, name);
    if x.None? then Some(Outside(name))
    else match x.value.source
      case OwnKeys => Some(KeysOf(name))
      case FromCredentials(c) => Some(Credential(c))
      case FromProfile(y) => if hops == 0 then None else EndOf(sections, y, hops - 1)
  }

  /** The identity the parent starts from. */
  function BaseIdentity(s: Settings, p: Names): Identity {
    match s.mode
    case Keys(_, _, _) => KeysOf(SourceProfileName(p))
    case Profile(x) => Outside(x)
    case Chain(c) => Credential(NonEmpty(c).GetOr(DEFAULT_SOURCE))
  }

  ghost predicate Ends(sections: seq<Section>, name: string) {
    exists hops: nat :: EndOf(sections, name, hops).Some?
  }

  predicate Rendered(sections: seq<Section>, name: string) {
    exists x <- sections :: x.name == name
  }

  /** The user's own profile, when there is one, is none of the names this module renders. */
  predicate OwnProfileFree(s: Settings, p: Names, members: seq<Member>) {
    s.mode.Profile? ==> !Rendered(Sections(s, p, members), s.mode.profile)
  }

  lemma {:induction false} MemberSectionsAre(members: seq<Member>, s: Settings, p: Names)
    ensures forall x :: x in MemberSections(members, s, p) <==> exists m :: m in members && x == MemberSection(m, s, p)
  {
    if members != [] {
      var n := |members| - 1;
      MemberSectionsAre(members[..n], s, p);
      assert members == members[..n] + [members[n]];
    }
  }

  /** What each kind of section is, found by name. */
  lemma SectionKinds(s: Settings, p: Names, members: seq<Member>, name: string)
    ensures var x := Lookup(Sections(s, p, members), name);
      x.Some? ==> (s.roleArn.Some? && x.value == RoleSections(s, p)[0])
                  || (x.value in KeySections(s, p, members))
                  || exists m :: m in members && x.value == MemberSection(m, s, p)
  {
    LookupMeaning(Sections(s, p, members), name);
    MemberSectionsAre(members, s, p);
  }

  /** With the own profile free, every rendered profile's chain ends at the parent's base identity within two hops,
      and within one when the parent assumes no role. */
  lemma ChainsClose(s: Settings, p: Names, members: seq<Member>, name: string)
    requires OwnProfileFree(s, p, members) && Rendered(Sections(s, p, members), name)
    ensures EndOf(Sections(s, p, members), name, 2) == Some(BaseIdentity(s, p))
    ensures s.roleArn.None? ==> EndOf(Sections(s, p, members), name, 1) == Some(BaseIdentity(s, p))
  {
    hide Sections, OwnProfileFree;
    LookupMeaning(Sections(s, p, members), name);
    BaseEnds(s, p, members);
    SectionKinds(s, p, members, name);
    if s.roleArn.Some? {
      ManagedEnds(s, p, members);
    }
  }

  /** The base identity is no hop away: keys of their own, or a profile of the user's. */
  lemma BaseEnds(s: Settings, p: Names, members: seq<Member>)
    requires OwnProfileFree(s, p, members)
    ensures BaseSource(s, p).FromProfile? && (s.roleArn.Some? || members != []) ==>
      EndOf(Sections(s, p, members), BaseSource(s, p).profile, 0) == Some(BaseIdentity(s, p))
  {
    var all := Sections(s, p, members);
    match s.mode
    case Keys(_, _, _) =>
      if s.roleArn.Some? || members != [] {
        assert p.managedProfile != SourceProfileName(p);
        assert all == RoleSections(s, p) + (KeySections(s, p, members) + MemberSections(members, s, p));
        var rest := KeySections(s, p, members) + MemberSections(members, s, p);
        assert Lookup(rest, SourceProfileName(p)) == Some(KeySection(s, p));
        if s.roleArn.Some? {
          assert all[1..] == rest;
        } else {
          assert all == rest;
        }
      }
    case Profile(x) => LookupMeaning(all, x);
    case Chain(_) =>
  }

  lemma ManagedEnds(s: Settings, p: Names, members: seq<Member>)
    requires OwnProfileFree(s, p, members) && s.roleArn.Some?
    ensures EndOf(Sections(s, p, members), p.managedProfile, 1) == Some(BaseIdentity(s, p))
  {
    BaseEnds(s, p, members);
    assert Lookup(Sections(s, p, members), p.managedProfile) == Some(RoleSection(s, p));
  }

  /** A profile chained onto itself never ends. */
  lemma {:induction false} Trapped(s: Settings, p: Names, members: seq<Member>, hops: nat)
    requires !OwnProfileFree(s, p, members)
    ensures EndOf(Sections(s, p, members), s.mode.profile, hops).None?
    ensures s.roleArn.Some? ==> EndOf(Sections(s, p, members), p.managedProfile, hops).None?
  {
    LookupMeaning(Sections(s, p, members), s.mode.profile);
    SectionKinds(s, p, members, s.mode.profile);
    if hops > 0 {
      Trapped(s, p, members, hops - 1);
    }
  }

  /** Every rendered profile's chain ends exactly when the user's own profile is not one of the rendered names. */
  lemma ChainsCloseIff(s: Settings, p: Names, members: seq<Member>)
    ensures (forall x <- Sections(s, p, members) :: Ends(Sections(s, p, members), x.name)) <==>
        OwnProfileFree(s, p, members)
  {
    var all := Sections(s, p, members);
    if OwnProfileFree(s, p, members) {
      forall x | x in all
        ensures Ends(all, x.name)
      {
        ChainsClose(s, p, members, x.name);
        assert EndOf(all, x.name, 2).Some?;
      }
    } else {
      var x :| x in all && x.name == s.mode.profile;
      forall hops: nat
        ensures EndOf(all, x.name, hops).None?
      {
        Trapped(s, p, members, hops);
      }
    }
  }

  /** A profile of the user's named like the managed one: the role's chain leads back to itself, however long it is
      followed. */
  lemma OwnNameIsTrapped(role: string, hops: nat)
    ensures var s := Settings(Profile("aws-advisor"), [], None, Some(role));
      EndOf(Sections(s, Names("aws-advisor", "aws"), []), "aws-advisor", hops).None?
  {
    var s := Settings(Profile("aws-advisor"), [], None, Some(role));
    assert Sections(s, Names("aws-advisor", "aws"), [])[0].name == "aws-advisor";
    Trapped(s, Names("aws-advisor", "aws"), [], hops);
  }

  /** Every profile a section or a connection points at is rendered, or is the user's own. */
  lemma ProfilesAreDefined(s: Settings, p: Names, members: seq<Member>)
    ensures forall x <- Sections(s, p, members) :: x.source.FromProfile? ==>
      Rendered(Sections(s, p, members), x.source.profile) || s.mode == Profile(x.source.profile)
    ensures var c := SpcProfile(s, p); c.Some? ==>
        Rendered(Sections(s, p, members), c.value) || s.mode == Profile(c.value)
    ensures forall m <- members :: Rendered(Sections(s, p, members), MemberProfileName(p, m))
  {
    var all := Sections(s, p, members);
    MemberSectionsAre(members, s, p);
    if s.roleArn.Some? {
      assert RoleSections(s, p)[0] in all;
    }
    if KeySections(s, p, members) != [] {
      assert KeySections(s, p, members)[0] in all;
    }
    forall m | m in members
      ensures Rendered(all, MemberProfileName(p, m))
    {
      assert MemberSection(m, s, p) in MemberSections(members, s, p);
      assert MemberSection(m, s, p) in all;
    }
  }

  // ---- the text of the config section -------------------------------------------------------------------------------

  lemma SectionLinesHashless(x: Section, l: IniLine)
    requires OneLine(x.name) && OneLine(x.roleArn) && OneLine(x.region)
    requires match x.source case FromProfile(y) => OneLine(y) case FromCredentials(c) => OneLine(c) case OwnKeys => true
    requires l in SectionLines(x)
    ensures Hashless(l.Text())
  {
    hide Hashless, IniLine.Text;
    HeaderHashless("profile " + x.name) by {
      OneLineJoined("profile ", x.name);
    }
    PairHashless("role_arn", x.roleArn);
    PairHashless("role_session_name", "aws-advisor");
    if x.source.FromProfile? {
      PairHashless("source_profile", x.source.profile);
    } else if x.source.FromCredentials? {
      PairHashless("credential_source", x.source.source);
    }
    PairHashless("region", x.region);
  }

  lemma OneLineJoined(a: string, b: string)
    ensures OneLine(a + b) <==> OneLine(a) && OneLine(b)
  {
  }

  lemma HeaderHashless(name: string)
    requires OneLine(name)
    ensures Hashless(Header(name).Text())
  {
  }

  lemma PairHashless(key: string, value: string)
    requires key != "" && key[0] != '#' && OneLine(key) && OneLine(value)
    ensures Hashless(Pair(key, value).Text())
  {
  }

  lemma SectionsOneLine(s: Settings, p: Names, members: seq<Member>, x: Section)
    requires ValidInput(s, p, members)
    requires x in RoleSections(s, p) || x in KeySections(s, p, members) || exists m ::
        m in members && x == MemberSection(m, s, p)
    ensures OneLine(x.name) && OneLine(x.roleArn) && OneLine(x.region)
    ensures match x.source case FromProfile(y) => OneLine(y) case FromCredentials(c) => OneLine(c) case OwnKeys => true
  {
    hide IsKey, OneLine;
    OneLineJoined(p.managedProfile, "-source");
    LiteralsOneLine();
    if m :| m in members && x == MemberSection(m, s, p) {
      OneLineJoined(p.managedProfile + "-", m.accountId);
      OneLineJoined(p.managedProfile, "-");
    }
  }

  lemma LiteralsOneLine()
    ensures OneLine("") && OneLine("-") && OneLine("-source") && OneLine(DEFAULT_REGION) && OneLine(DEFAULT_SOURCE)
  {
  }

  lemma {:induction false} MemberLinesAre(members: seq<Member>, s: Settings, p: Names, l: IniLine)
    requires l in MemberLines(members, s, p)
    ensures l == Empty || exists m :: m in members && l in SectionLines(MemberSection(m, s, p))
  {
    hide SectionLines, MemberSection;
    if members != [] {
      var n := |members| - 1;
      assert members == members[..n] + [members[n]];
      if l in MemberLines(members[..n], s, p) {
        MemberLinesAre(members[..n], s, p, l);
      }
    }
  }

  /** What the writer puts into the config file holds no end-marker line. */
  lemma ConfigIsClean(s: Settings, p: Names, members: seq<Member>)
    requires ValidInput(s, p, members) && ConfigSection(s, p, members).Some?
    ensures Clean(Body(ConfigSection(s, p, members)).value)
  {
    var lines := ConfigLines(s, p, members);
    forall t | t in Texts(lines)
      ensures Hashless(t)
    {
      var i :| 0 <= i < |lines| && t == lines[i].Text();
      ConfigLineHashless(s, p, members, lines[i]);
    }
    HashlessIsClean(Texts(lines));
  }

  lemma ConfigLineHashless(s: Settings, p: Names, members: seq<Member>, l: IniLine)
    requires ValidInput(s, p, members) && l in ConfigLines(s, p, members)
    ensures Hashless(l.Text())
  {
    hide SectionLines, MemberSection, MemberLines, OneLine, ValidSettings;
    if l in MemberLines(members, s, p) {
      MemberLinesAre(members, s, p, l);
    }
    if l != Empty {
      var x :| l in SectionLines(x) && (x in RoleSections(s, p) || x in KeySections(s, p, members)
                                        || exists m :: m in members && x == MemberSection(m, s, p));
      SectionsOneLine(s, p, members, x);
      SectionLinesHashless(x, l);
    } else {
      EmptyHashless();
    }
  }

  lemma EmptyHashless()
    ensures Hashless(Empty.Text())
  {
  }

  // ---- reading the profiles from the text ---------------------------------------------------------------------------

  /** The line of a profile's header. */
  predicate Opens(line: string) {
    "[profile " < line && line[|line| - 1] == ']'
  }

  function ValueOf(line: string, key: string): Option<string> {
    if key + " = " <= line then Some(line[|key| + 3..]) else None
  }

  /** What one line under a header says of the profile. */
  function WithLine(x: Section, line: string): Section {
    if ValueOf(line, "role_arn").Some? then x.(roleArn := ValueOf(line, "role_arn").value)
    else if ValueOf(line, "source_profile").Some? then x.(source := FromProfile(ValueOf(line, "source_profile").value))
    else if ValueOf(line, "credential_source").Some? then
      x.(source := FromCredentials(ValueOf(line, "credential_source").value))
    else if ValueOf(line, "region").Some? then x.(region := ValueOf(line, "region").value)
    else x
  }

  /** The profiles of a config file, in order: each header opens one, and the lines under it fill it. */
  function ProfilesIn(lines: seq<string>): seq<Section> {
    if lines == [] then []
    else
      var before, line := ProfilesIn(lines[..|lines| - 1]), lines[|lines| - 1];
      if Opens(line) then before + [Section(line[9..|line| - 1], "", OwnKeys, "")]
      else if before == [] then []
      else before[..|before| - 1] + [WithLine(before[|before| - 1], line)]
  }

  lemma OneMoreLine(lines: seq<string>, line: string)
    ensures var before := ProfilesIn(lines);
      ProfilesIn(lines + [line]) ==
      if Opens(line) then before + [Section(line[9..|line| - 1], "", OwnKeys, "")]
      else if before == [] then []
      else before[..|before| - 1] + [WithLine(before[|before| - 1], line)]
  {
    assert (lines + [line])[..|lines|] == lines;
  }

  lemma HeaderOpens(name: string)
    ensures Opens(Header("profile " + name).Text())
    ensures var t := Header("profile " + name).Text(); t[9..|t| - 1] == name
  {
    var t := Header("profile " + name).Text();
    assert t == "[profile " + name + "]";
  }

  lemma PairFills(x: Section, key: string, value: string)
    requires key in ["role_arn", "role_session_name", "source_profile", "credential_source", "region"]
    ensures !Opens(Pair(key, value).Text())
    ensures WithLine(x, Pair(key, value).Text()) ==
            if key == "role_arn" then x.(roleArn := value)
            else if key == "source_profile" then x.(source := FromProfile(value))
            else if key == "credential_source" then x.(source := FromCredentials(value))
            else if key == "region" then x.(region := value)
            else x
  {
    var t := Pair(key, value).Text();
    assert t == key + " = " + value;
    assert t[|key| + 3..] == value;
    assert t[0] == key[0] && t[5] == key[5];
  }

  lemma EmptyFills(x: Section)
    ensures !Opens(Empty.Text()) && WithLine(x, Empty.Text()) == x
  {
  }

  /** A profile and a line under its header. */
  lemma LineFills(lines: seq<string>, front: seq<Section>, x: Section, l: IniLine)
    requires ProfilesIn(lines) == front + [x] && !Opens(l.Text())
    ensures ProfilesIn(lines + [l.Text()]) == front + [WithLine(x, l.Text())]
  {
    hide ProfilesIn, Opens, WithLine, IniLine.Text;
    OneMoreLine(lines, l.Text());
  }

  /** Header and pairs under it, read one after the other. */
  lemma {:induction false} LinesFill(lines: seq<string>, front: seq<Section>, x: Section, ls: seq<IniLine>)
    requires ProfilesIn(lines) == front + [x] && forall l <- ls :: !Opens(l.Text())
    ensures ProfilesIn(lines + Texts(ls)) == front + [Filled(x, ls)]
    decreases |ls|
  {
    hide ProfilesIn, Opens, WithLine, IniLine.Text;
    if ls == [] {
      assert lines + Texts(ls) == lines;
    } else {
      assert ls[0] in ls;
      LineFills(lines, front, x, ls[0]);
      LinesFill(lines + [ls[0].Text()], front, WithLine(x, ls[0].Text()), ls[1..]);
      assert lines + Texts(ls) == lines + [ls[0].Text()] + Texts(ls[1..]);
    }
  }

  function Filled(x: Section, ls: seq<IniLine>): Section
    decreases |ls|
  {
    if ls == [] then x else Filled(WithLine(x, ls[0].Text()), ls[1..])
  }

  lemma FilledPair(x: Section, l: IniLine, ls: seq<IniLine>)
    ensures Filled(x, [l] + ls) == Filled(WithLine(x, l.Text()), ls)
  {
    hide WithLine, IniLine.Text;
    assert ([l] + ls)[1..] == ls;
  }

  /** A rendered profile's lines, wherever they stand, read as the profile. */
  lemma SectionReads(lines: seq<string>, x: Section)
    requires x.source.OwnKeys? ==> x.roleArn == ""
    ensures ProfilesIn(lines + Texts(SectionLines(x))) == ProfilesIn(lines) + [x]
  {
    hide ProfilesIn, Opens, WithLine, IniLine.Text, Filled;
    var header, pairs := Header("profile " + x.name), SectionLines(x)[1..];
    var empty := Section(x.name, "", OwnKeys, "");
    OneMoreLine(lines, header.Text());
    HeaderOpens(x.name);
    PairsFill(x);
    LinesFill(lines + [header.Text()], ProfilesIn(lines), empty, pairs);
    assert SectionLines(x) == [header] + pairs;
    assert lines + Texts(SectionLines(x)) == lines + [header.Text()] + Texts(pairs);
  }

  lemma PairsFill(x: Section)
    requires x.source.OwnKeys? ==> x.roleArn == ""
    ensures Filled(Section(x.name, "", OwnKeys, ""), SectionLines(x)[1..]) == x
    ensures forall l <- SectionLines(x)[1..] :: !Opens(l.Text())
  {
    hide Opens, WithLine, IniLine.Text;
    var x0 := Section(x.name, "", OwnKeys, "");
    var x1 := x0.(roleArn := x.roleArn);
    var x2 := x1.(source := x.source);
    PairFills(x0, "role_arn", x.roleArn);
    PairFills(x1, "role_session_name", "aws-advisor");
    PairFills(x2, "region", x.region);
    var rest := [Pair("region", x.region)];
    assert Filled(x, []) == x;
    FilledPair(x2, Pair("region", x.region), []);
    assert rest + [] == rest;
    match x.source
    case OwnKeys =>
      assert SectionLines(x)[1..] == rest;
    case FromProfile(y) =>
      var source := Pair("source_profile", y);
      PairFills(x1, "source_profile", y);
      SourceFills(x0, x1, x2, x.roleArn, source, rest);
      assert SectionLines(x)[1..] == RolePairs(x.roleArn) + ([source] + rest);
    case FromCredentials(c) =>
      var source := Pair("credential_source", c);
      PairFills(x1, "credential_source", c);
      SourceFills(x0, x1, x2, x.roleArn, source, rest);
      assert SectionLines(x)[1..] == RolePairs(x.roleArn) + ([source] + rest);
  }

  function RolePairs(roleArn: string): seq<IniLine> {
    [Pair("role_arn", roleArn), Pair("role_session_name", "aws-advisor")]
  }

  lemma SourceFills(x0: Section, x1: Section, x2: Section, roleArn: string, source: IniLine, rest: seq<IniLine>)
    requires WithLine(x0, Pair("role_arn", roleArn).Text()) == x1
    requires WithLine(x1, Pair("role_session_name", "aws-advisor").Text()) == x1
    requires WithLine(x1, source.Text()) == x2
    ensures Filled(x0, RolePairs(roleArn) + ([source] + rest)) == Filled(x2, rest)
  {
    hide WithLine, IniLine.Text, Filled;
    var a, b := Pair("role_arn", roleArn), Pair("role_session_name", "aws-advisor");
    FilledPair(x1, source, rest);
    FilledPair(x1, b, [source] + rest);
    FilledPair(x0, a, [b] + ([source] + rest));
    assert RolePairs(roleArn) + ([source] + rest) == [a] + ([b] + ([source] + rest));
  }

  lemma EmptyReads(lines: seq<string>)
    ensures ProfilesIn(lines + Texts([Empty])) == ProfilesIn(lines)
  {
    hide WithLine, Opens;
    var before := ProfilesIn(lines);
    OneMoreLine(lines, Empty.Text());
    assert Texts([Empty]) == [Empty.Text()];
    if before != [] {
      EmptyFills(before[|before| - 1]);
    } else {
      EmptyFills(Section("", "", OwnKeys, ""));
    }
  }

  lemma TextsConcat(a: seq<IniLine>, b: seq<IniLine>)
    ensures Texts(a + b) == Texts(a) + Texts(b)
  {
    hide IniLine.Text;
  }

  lemma {:induction false} MembersRead(front: seq<IniLine>, members: seq<Member>, s: Settings, p: Names)
    ensures ProfilesIn(Texts(front + MemberLines(members, s, p))) ==
            ProfilesIn(Texts(front)) + MemberSections(members, s, p)
  {
    hide ProfilesIn, IniLine.Text, SectionLines, MemberSection;
    if members == [] {
      assert front + MemberLines(members, s, p) == front;
    } else {
      var n := |members| - 1;
      var x := MemberSection(members[n], s, p);
      var before := front + MemberLines(members[..n], s, p);
      MembersRead(front, members[..n], s, p);
      Regroup(front, MemberLines(members[..n], s, p), [Empty], SectionLines(x));
      TextsConcat(before + [Empty], SectionLines(x));
      TextsConcat(before, [Empty]);
      EmptyReads(Texts(before));
      MemberHasRole(members[n], s, p);
      SectionReads(Texts(before) + Texts([Empty]), x);
    }
  }

  lemma MemberHasRole(m: Member, s: Settings, p: Names)
    ensures !MemberSection(m, s, p).source.OwnKeys?
  {
  }

  lemma ParentReads(s: Settings, p: Names, members: seq<Member>)
    ensures ProfilesIn(Texts(ParentLines(s, p, members))) == RoleSections(s, p) + KeySections(s, p, members)
  {
    hide ProfilesIn, IniLine.Text, SectionLines;
    var role := if s.roleArn.Some? then SectionLines(RoleSection(s, p)) else [];
    assert ProfilesIn(Texts(role)) == RoleSections(s, p) by {
      NothingIn();
      assert Texts([]) == [];
      if s.roleArn.Some? {
        SectionReads([], RoleSection(s, p));
        assert [] + Texts(role) == Texts(role);
      }
    }
    if KeySections(s, p, members) != [] {
      var gap := if role != [] then [Empty] else [];
      TextsConcat(role + gap, SectionLines(KeySection(s, p)));
      TextsConcat(role, gap);
      EmptyReads(Texts(role));
      assert gap == [] ==> Texts(role) + Texts(gap) == Texts(role);
      SectionReads(Texts(role) + Texts(gap), KeySection(s, p));
    } else {
      assert RoleSections(s, p) + [] == RoleSections(s, p);
    }
  }

  lemma NothingIn()
    ensures ProfilesIn([]) == []
  {
  }

  /** The rendered config section reads, header by header and source by source, as exactly the managed profiles, in
      order. */
  lemma ConfigReads(s: Settings, p: Names, members: seq<Member>)
    requires ValidInput(s, p, members) && ConfigSection(s, p, members).Some?
    ensures ProfilesIn(Split(Body(ConfigSection(s, p, members)).value, '\n')) == Sections(s, p, members)
  {
    hide ProfilesIn, IniLine.Text, ParentLines, MemberLines, RoleSections, KeySections, MemberSections, ValidInput,
         Split, Join;
    var lines := ConfigLines(s, p, members);
    forall i | 0 <= i < |lines|
      ensures '\n' !in Texts(lines)[i]
    {
      ConfigLineHashless(s, p, members, lines[i]);
    }
    SomeLines(s, p, members);
    SplitJoin(Texts(lines), '\n');
    ParentReads(s, p, members);
    MembersRead(ParentLines(s, p, members), members, s, p);
  }

  lemma SomeLines(s: Settings, p: Names, members: seq<Member>)
    requires ConfigSection(s, p, members).Some?
    ensures ConfigLines(s, p, members) != []
  {
    hide SectionLines, MemberSection;
  }
}
