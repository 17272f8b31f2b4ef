/** Around the search of `src/access_paths.ts`: the Vercel grants and edges `accessEdges` builds (what fixes the
    project gates), and the fold of every account grant reached into one grade per account. */
module AccessAccounts {
  import opened Options
  import opened AccessPaths

  // ---- Vercel roles ------------------------------------------------------------------------------------------

  function Upper(s: string): string {
    seq(|s|, i requires 0 <= i < |s| => if 'a' <= s[i] <= 'z' then s[i] - 'a' + 'A' else s[i])
  }

  datatype Capability = Capability(level: string, deploy: Deploy, envVars: EnvVars)

  function OrEmpty(s: Option<string>): string {
    match s
    case None => ""
    case Some(x) => x
  }

  function VercelCapability(teamRole: Option<string>, projectRole: Option<string>): Option<Capability> {
    var t, p := Upper(OrEmpty(teamRole)), Upper(OrEmpty(projectRole));
    if t == "OWNER" || t == "MEMBER" || p == "ADMIN" || p == "PROJECT_ADMIN" then
      Some(Capability(if t == "OWNER" then "owner" else "project_admin", Production, WriteVars))
    else if t == "DEVELOPER" || p == "PROJECT_DEVELOPER" then
      Some(Capability("project_developer", Production, PreviewVars))
    else if t in ["BILLING", "SECURITY", "VIEWER", "VIEWER_FOR_PLUS", "ENTERPRISE_VIEWER", "PRO_VIEWER"] ||
        p == "PROJECT_VIEWER" then
      Some(Capability("project_viewer", NoDeploy, ReadVars))
    else
      None
  }

  /** A role's name, whatever the case of its letters. */
  predicate Named(role: Option<string>, name: string) {
    && role.Some? && |role.value| == |name|
    && forall i :: 0 <= i < |name| ==>
         role.value[i] == name[i] || ('A' <= name[i] <= 'Z' && role.value[i] == name[i] - 'A' + 'a')
  }

  lemma UpperNames(role: Option<string>, name: string)
    requires name != "" && forall c <- name :: !('a' <= c <= 'z')
    ensures Upper(OrEmpty(role)) == name <==> Named(role, name)
  {
    if Named(role, name) {
      forall i | 0 <= i < |name|
        ensures Upper(role.value)[i] == name[i]
      {
        assert name[i] in name;
      }
    }
    if role.Some? && Upper(role.value) == name {
      forall i | 0 <= i < |name|
        ensures role.value[i] == name[i] || ('A' <= name[i] <= 'Z' && role.value[i] == name[i] - 'A' + 'a')
      {
        assert Upper(role.value)[i] == name[i];
      }
    }
  }

  predicate Administers(team: Option<string>, project: Option<string>) {
    Named(team, "OWNER") || Named(team, "MEMBER") || Named(project, "ADMIN") || Named(project, "PROJECT_ADMIN")
  }

  predicate Develops(team: Option<string>, project: Option<string>) {
    Named(team, "DEVELOPER") || Named(project, "PROJECT_DEVELOPER")
  }

  predicate Views(team: Option<string>, project: Option<string>) {
    || Named(team, "BILLING") || Named(team, "SECURITY") || Named(team, "VIEWER") || Named(team, "VIEWER_FOR_PLUS")
    || Named(team, "ENTERPRISE_VIEWER") || Named(team, "PRO_VIEWER") || Named(project, "PROJECT_VIEWER")
  }

  /** Which roles see a project, deploy it and read its variables, by the roles' names: administrators and developers
      deploy to production and nobody to previews alone; administrators write the variables, developers those of
      previews, viewers read them; anyone else does not see the project. */
  lemma RolesByName(team: Option<string>, project: Option<string>)
    ensures var c := VercelCapability(team, project);
      && (c.Some? <==> Administers(team, project) || Develops(team, project) || Views(team, project))
      && (c.Some? && c.value.deploy == Production <==> Administers(team, project) || Develops(team, project))
      && (c.Some? ==> c.value.deploy != Preview && c.value.envVars != NoVars)
      && (c.Some? && c.value.envVars == WriteVars <==> Administers(team, project))
      && (c.Some? && c.value.envVars == PreviewVars <==> Develops(team, project) && !Administers(team, project))
      && (c.Some? ==>
            c.value.level == (if Named(team, "OWNER") then "owner"
                              else if Administers(team, project) then "project_admin"
                              else if Develops(team, project) then "project_developer" else "project_viewer"))
  {
    TeamRoles(team);
    ProjectRoles(project);
    hide Named, Upper, OrEmpty;
  }

  lemma TeamRoles(team: Option<string>)
    ensures var t := Upper(OrEmpty(team));
      && (t == "OWNER" <==> Named(team, "OWNER")) && (t == "MEMBER" <==> Named(team, "MEMBER"))
      && (t == "DEVELOPER" <==> Named(team, "DEVELOPER")) && (t == "BILLING" <==> Named(team, "BILLING"))
      && (t == "SECURITY" <==> Named(team, "SECURITY")) && (t == "VIEWER" <==> Named(team, "VIEWER"))
      && (t == "VIEWER_FOR_PLUS" <==> Named(team, "VIEWER_FOR_PLUS"))
      && (t == "ENTERPRISE_VIEWER" <==> Named(team, "ENTERPRISE_VIEWER"))
      && (t == "PRO_VIEWER" <==> Named(team, "PRO_VIEWER"))
  {
    hide Named, Upper, OrEmpty;
    UpperNames(team, "OWNER");
    UpperNames(team, "MEMBER");
    UpperNames(team, "DEVELOPER");
    UpperNames(team, "BILLING");
    UpperNames(team, "SECURITY");
    UpperNames(team, "VIEWER");
    UpperNames(team, "VIEWER_FOR_PLUS");
    UpperNames(team, "ENTERPRISE_VIEWER");
    UpperNames(team, "PRO_VIEWER");
  }

  lemma ProjectRoles(project: Option<string>)
    ensures var p := Upper(OrEmpty(project));
      && (p == "ADMIN" <==> Named(project, "ADMIN")) && (p == "PROJECT_ADMIN" <==> Named(project, "PROJECT_ADMIN"))
      && (p == "PROJECT_DEVELOPER" <==> Named(project, "PROJECT_DEVELOPER"))
      && (p == "PROJECT_VIEWER" <==> Named(project, "PROJECT_VIEWER"))
  {
    hide Named, Upper, OrEmpty;
    UpperNames(project, "ADMIN");
    UpperNames(project, "PROJECT_ADMIN");
    UpperNames(project, "PROJECT_DEVELOPER");
    UpperNames(project, "PROJECT_VIEWER");
  }

  datatype TeamMember = TeamMember(id: string, uid: string, role: Option<string>)
  datatype ProjectRole = ProjectRole(project: string, uid: string, role: string)
  datatype OidcLink = OidcLink(project: string, roleArn: string, environments: seq<string>)
  datatype KeyLink = KeyLink(project: string, userArn: string)
  datatype Team = Team(members: seq<TeamMember>, projectRoles: seq<ProjectRole>, projects: seq<string>,
                       oidc: seq<OidcLink>, keys: seq<KeyLink>)

  function FindRole(roles: seq<ProjectRole>, uid: string, project: string): Option<string> {
    if roles == [] then None
    else if roles[0].uid == uid && roles[0].project == project then Some(roles[0].role)
    else FindRole(roles[1..], uid, project)
  }

  function MemberCapability(t: Team, m: TeamMember, project: string): Option<Capability> {
    VercelCapability(m.role, FindRole(t.projectRoles, m.uid, project))
  }

  function MemberGrant(m: TeamMember, project: string, c: Capability): Grant {
    Grant(Member(m.id), project, ProjectTarget, None, c.level, c.level == "owner" || c.level == "project_admin", false,
          [], [], c.deploy, c.envVars)
  }

  function OidcEdge(l: OidcLink): PathEdge {
    PathEdge(Project(l.project), Principal(l.roleArn), RunsAs, VERCEL_OIDC, Allowed, l.environments)
  }

  function KeyEdge(k: KeyLink): PathEdge {
    PathEdge(Project(k.project), Principal(k.userArn), HoldsKeyOf, "environment variables", Conditional, [])
  }

  ghost predicate FromMember(t: Team, m: TeamMember, project: string, g: Grant) {
    var c := MemberCapability(t, m, project);
    c.Some? && g == MemberGrant(m, project, c.value)
  }

  /** One member's role on each project. */
  method MemberGrants(t: Team, m: TeamMember) returns (grants: seq<Grant>)
    ensures forall g :: g in grants <==> exists p :: p in t.projects && FromMember(t, m, p, g)
  {
    grants := [];
    for k := 0 to |t.projects|
      invariant forall g :: g in grants <==> exists p :: p in t.projects[..k] && FromMember(t, m, p, g)
    {
      ghost var was := grants;
      var c := MemberCapability(t, m, t.projects[k]);
      if c.Some? {
        grants := grants + [MemberGrant(m, t.projects[k], c.value)];
      }
      assert t.projects[..k + 1] == t.projects[..k] + [t.projects[k]];
      forall g
        ensures g in grants <==> exists p :: p in t.projects[..k + 1] && FromMember(t, m, p, g)
      {
        assert FromMember(t, m, t.projects[k], g) <==> c.Some? && g == MemberGrant(m, t.projects[k], c.value);
        if g in was {
          ghost var p :| p in t.projects[..k] && FromMember(t, m, p, g);
          assert p in t.projects[..k + 1];
        }
      }
    }
    assert t.projects[..|t.projects|] == t.projects;
  }

  /** The Vercel part of `accessEdges`: the members' project grants, the OIDC roles and the keys the projects hold. */
  method VercelGraph(t: Team) returns (grants: seq<Grant>, edges: seq<PathEdge>)
    ensures forall g :: g in grants <==>
      exists m, p :: m in t.members && p in t.projects && FromMember(t, m, p, g)
    ensures forall e :: e in edges <==>
      (exists l :: l in t.oidc && e == OidcEdge(l)) || (exists k :: k in t.keys && e == KeyEdge(k))
  {
    grants := [];
    for i := 0 to |t.members|
      invariant forall g :: g in grants <==>
        exists m, p :: m in t.members[..i] && p in t.projects && FromMember(t, m, p, g)
    {
      var own := MemberGrants(t, t.members[i]);
      assert t.members[..i + 1] == t.members[..i] + [t.members[i]];
      grants := grants + own;
    }
    assert t.members[..|t.members|] == t.members;
    edges := [];
    for i := 0 to |t.oidc|
      invariant forall e :: e in edges <==> exists l :: l in t.oidc[..i] && e == OidcEdge(l)
    {
      assert t.oidc[..i + 1] == t.oidc[..i] + [t.oidc[i]];
      edges := edges + [OidcEdge(t.oidc[i])];
    }
    assert t.oidc[..|t.oidc|] == t.oidc;
    for i := 0 to |t.keys|
      invariant forall e :: e in edges <==>
        (exists l :: l in t.oidc && e == OidcEdge(l)) || (exists k :: k in t.keys[..i] && e == KeyEdge(k))
    {
      assert t.keys[..i + 1] == t.keys[..i] + [t.keys[i]];
      edges := edges + [KeyEdge(t.keys[i])];
    }
    assert t.keys[..|t.keys|] == t.keys;
  }

  ghost predicate VercelPart(t: Team, grants: seq<Grant>, edges: seq<PathEdge>) {
    && (forall g :: g in grants <==> exists m, p :: m in t.members && p in t.projects && FromMember(t, m, p, g))
    && (forall e :: e in edges <==>
          (exists l :: l in t.oidc && e == OidcEdge(l)) || (exists k :: k in t.keys && e == KeyEdge(k)))
  }

  /** Whatever the IAM side contributes (it grants no project and leads to no member), the assembled world is one the
      search's theorem covers. */
  lemma AssembledIsWellShaped(t: Team, iamGrants: seq<Grant>, iamEdges: seq<PathEdge>, grants: seq<Grant>,
                              edges: seq<PathEdge>, identities: seq<Node>)
    requires VercelPart(t, grants, edges)
    requires forall g <- iamGrants :: !g.targetKind.ProjectTarget?
    requires forall e <- iamEdges :: !e.to.Member?
    requires forall i <- identities :: !i.Project?
    ensures World(identities, iamEdges + edges, iamGrants + grants).WellShaped()
  {
  }

  /** The gates only hold roles some identity of the person was granted. */
  lemma {:induction false} GateIsAGrant(w: World, k: nat, p: string)
    requires k <= |w.identities|
    ensures p in w.GatesUpTo(k) ==>
      exists i, g :: 0 <= i < k && g in w.grants && g.identity == w.identities[i] && Opens(g) && g.target == p &&
          w.GatesUpTo(k)[p] == g
    ensures forall i, g :: 0 <= i < k && g in w.grants && g.identity == w.identities[i] && Opens(g) ==>
        g.target in w.GatesUpTo(k)
  {
    if k > 0 {
      GateIsAGrant(w, k - 1, p);
      var gs := GrantsOf(w.grants, w.identities[k - 1]);
      GrantsOfMembers(w.grants, w.identities[k - 1]);
      EnteredIsAGrant(w.GatesUpTo(k - 1), gs, p);
      forall i, g | 0 <= i < k && g in w.grants && g.identity == w.identities[i] && Opens(g)
        ensures g.target in w.GatesUpTo(k)
      {
        EnteredIsAGrant(w.GatesUpTo(k - 1), gs, g.target);
        if i < k - 1 {
          GateIsAGrant(w, k - 1, g.target);
        }
      }
    }
  }

  lemma {:induction false} EnteredIsAGrant(entry: map<string, Grant>, gs: seq<Grant>, p: string)
    ensures p in Entered(entry, gs) <==> p in entry || exists g <- gs :: Opens(g) && g.target == p
    ensures p in Entered(entry, gs) ==>
      || (p in entry && Entered(entry, gs)[p] == entry[p])
      || (Entered(entry, gs)[p] in gs && Opens(Entered(entry, gs)[p]) && Entered(entry, gs)[p].target == p)
  {
    if gs != [] {
      EnteredIsAGrant(entry, gs[..|gs| - 1], p);
      assert gs == gs[..|gs| - 1] + [gs[|gs| - 1]];
    }
  }

  /** A person with one Vercel member, in a team whose ids name one member each; the IAM side grants no project. */
  ghost predicate OneMember(t: Team, m: TeamMember, identities: seq<Node>, iamGrants: seq<Grant>) {
    && m in t.members && (forall x <- t.members :: x.id == m.id ==> x == m)
    && Member(m.id) in identities && (forall i <- identities :: i.Member? ==> i == Member(m.id))
    && (forall g <- iamGrants :: !g.targetKind.ProjectTarget?)
  }

  /** Their gate into a project is their role on it, and there is one exactly when they have a role. */
  lemma MemberGate(t: Team, iamGrants: seq<Grant>, iamEdges: seq<PathEdge>, grants: seq<Grant>, edges: seq<PathEdge>,
                   identities: seq<Node>, m: TeamMember, p: string)
    requires VercelPart(t, grants, edges) && OneMember(t, m, identities, iamGrants) && p in t.projects
    ensures var w := World(identities, iamEdges + edges, iamGrants + grants);
      var c := MemberCapability(t, m, p);
      && (p in w.Gates() <==> c.Some?)
      && (c.Some? ==> w.Gates()[p] == MemberGrant(m, p, c.value) && w.Gates()[p] in w.grants)
  {
    var w := World(identities, iamEdges + edges, iamGrants + grants);
    GateIsAGrant(w, |identities|, p);
    var c := MemberCapability(t, m, p);
    RolesByName(m.role, FindRole(t.projectRoles, m.uid, p));
    hide VercelCapability, Administers, Develops, Views, MemberCapability;
    if c.Some? {
      var g := MemberGrant(m, p, c.value);
      assert FromMember(t, m, p, g);
      assert g in grants && g in w.grants;
      var i :| 0 <= i < |identities| && identities[i] == Member(m.id);
      assert g.identity == w.identities[i] && Opens(g);
    }
    if p in w.Gates() {
      var g := w.Gates()[p];
      assert g in grants;
      var x, y :| x in t.members && y in t.projects && FromMember(t, x, y, g);
      assert x.id == m.id;
    }
  }

  /** A project's OIDC role is open to them exactly when their capability on the project deploys; the branch for
      preview-only deployment is never taken, because no role has it. */
  lemma OidcOpensToDeployers(t: Team, iamGrants: seq<Grant>, iamEdges: seq<PathEdge>, grants: seq<Grant>,
                             edges: seq<PathEdge>, identities: seq<Node>, m: TeamMember, l: OidcLink)
    requires VercelPart(t, grants, edges) && OneMember(t, m, identities, iamGrants) && l.project in t.projects
    ensures var w := World(identities, iamEdges + edges, iamGrants + grants);
      var c := MemberCapability(t, m, l.project);
      Crossable(w.Gates(), OidcEdge(l)) <==> c.Some? && c.value.deploy.Production?
  {
    MemberGate(t, iamGrants, iamEdges, grants, edges, identities, m, l.project);
    RolesByName(m.role, FindRole(t.projectRoles, m.uid, l.project));
    hide VercelCapability, Administers, Develops, Views;
  }

  /** The key in a project's variables is open to them exactly when they have any role on it: a viewer reads the
      variables. */
  lemma KeyOpensToViewers(t: Team, iamGrants: seq<Grant>, iamEdges: seq<PathEdge>, grants: seq<Grant>,
                          edges: seq<PathEdge>, identities: seq<Node>, m: TeamMember, k: KeyLink)
    requires VercelPart(t, grants, edges) && OneMember(t, m, identities, iamGrants) && k.project in t.projects
    ensures var w := World(identities, iamEdges + edges, iamGrants + grants);
      Crossable(w.Gates(), KeyEdge(k)) <==> MemberCapability(t, m, k.project).Some?
  {
    MemberGate(t, iamGrants, iamEdges, grants, edges, identities, m, k.project);
    RolesByName(m.role, FindRole(t.projectRoles, m.uid, k.project));
    hide VercelCapability, Administers, Develops, Views;
  }

  // ---- the account fold ---------------------------------------------------------------------------------------------

  function LevelOrder(l: string): nat {
    if l == "list" then 1 else if l == "read" then 2 else if l == "tagging" then 3 else if l == "write" then 4
    else if l == "permissions" then 5 else if l == "admin" then 6 else 0
  }

  /** From listing to administration, each grade above the one before; any other text is below them all. */
  lemma GradesAscend(other: string)
    ensures LevelOrder("list") < LevelOrder("read") < LevelOrder("tagging") < LevelOrder("write")
    ensures LevelOrder("write") < LevelOrder("permissions") < LevelOrder("admin")
    ensures other !in {"list", "read", "tagging", "write", "permissions", "admin"} ==>
      LevelOrder(other) < LevelOrder("list")
    ensures LevelOrder(other) == LevelOrder("none") <==>
      other !in {"list", "read", "tagging", "write", "permissions", "admin"}
  {
  }

  datatype AccountReach = AccountReach(level: string, admin: bool, every: bool, direct: bool, principals: seq<string>,
                                       writeServices: set<string>, own: map<string, ServiceLevel>,
                                       path: map<string, ServiceLevel>)

  /** An account grant held by a node that was reached; `mine` when the node is one of the person's identities. */
  datatype Held = Held(grant: Grant, mine: bool)

  function Keep(m: map<string, ServiceLevel>, x: ServiceLevel): map<string, ServiceLevel> {
    if x.service !in m then m[x.service := x]
    else
      var c := m[x.service];
      m[x.service := ServiceLevel(x.service, if LevelRank(x.top) > LevelRank(c.top) then x.top else c.top,
                                  c.scoped && x.scoped, c.conditional && x.conditional)]
  }

  /** What `keep` has folded for one service: the highest level offered, limited only if every offer was. */
  ghost predicate KeptFor(m: map<string, ServiceLevel>, xs: seq<ServiceLevel>, s: string) {
    && (s in m <==> exists x <- xs :: x.service == s)
    && (s in m ==>
          && m[s].service == s
          && (exists x <- xs :: x.service == s && x.top == m[s].top)
          && (forall x <- xs :: x.service == s ==> LevelRank(x.top) <= LevelRank(m[s].top))
          && (m[s].scoped <==> forall x <- xs :: x.service == s ==> x.scoped)
          && (m[s].conditional <==> forall x <- xs :: x.service == s ==> x.conditional))
  }

  ghost predicate KeptRight(m: map<string, ServiceLevel>, xs: seq<ServiceLevel>) {
    forall s :: KeptFor(m, xs, s)
  }

  lemma KeepsFor(m: map<string, ServiceLevel>, xs: seq<ServiceLevel>, x: ServiceLevel, s: string)
    requires KeptFor(m, xs, s)
    ensures KeptFor(Keep(m, x), xs + [x], s)
  {
    var ys, after := xs + [x], Keep(m, x);
    assert forall y :: y in ys <==> y in xs || y == x;
    if s in after {
      if s == x.service && (s !in m || LevelRank(x.top) > LevelRank(m[s].top)) {
        assert x in ys && x.top == after[s].top;
      } else {
        var y :| y in xs && y.service == s && y.top == m[s].top;
        assert y in ys && y.top == after[s].top;
      }
    }
  }

  lemma KeepKeeps(m: map<string, ServiceLevel>, xs: seq<ServiceLevel>, x: ServiceLevel)
    requires KeptRight(m, xs)
    ensures KeptRight(Keep(m, x), xs + [x])
  {
    forall s
      ensures KeptFor(Keep(m, x), xs + [x], s)
    {
      KeepsFor(m, xs, x, s);
    }
  }

  /** The service levels offered on account `a` by the held grants, own or reached through a path. */
  function Offered(hs: seq<Held>, a: string, mine: bool): seq<ServiceLevel> {
    if hs == [] then []
    else
      var h := hs[|hs| - 1];
      Offered(hs[..|hs| - 1], a, mine) + (if h.grant.target == a && h.mine == mine then h.grant.services else [])
  }

  ghost predicate At(hs: seq<Held>, a: string, h: Held) {
    h in hs && h.grant.target == a
  }

  /** One account's line, in terms of the grants held on it. */
  ghost predicate AccountRight(hs: seq<Held>, a: string, r: AccountReach) {
    && (exists h :: At(hs, a, h) && h.grant.level == r.level)
    && (forall h :: At(hs, a, h) ==> LevelOrder(h.grant.level) <= LevelOrder(r.level))
    && (r.admin <==> exists h :: At(hs, a, h) && h.grant.admin)
    && (r.every <==> exists h :: At(hs, a, h) && h.grant.every)
    && (r.direct <==> exists h :: At(hs, a, h) && h.mine)
    && (forall p :: p in r.principals <==> exists h :: At(hs, a, h) && h.grant.principal == Some(p))
    && (forall i, j :: 0 <= i < j < |r.principals| ==> r.principals[i] != r.principals[j])
    && (forall s :: s in r.writeServices <==> exists h :: At(hs, a, h) && s in h.grant.writeServices)
    && KeptRight(r.own, Offered(hs, a, true))
    && KeptRight(r.path, Offered(hs, a, false))
  }

  ghost predicate AccountsRight(hs: seq<Held>, accounts: map<string, AccountReach>) {
    && (forall a :: a in accounts <==> exists h :: At(hs, a, h))
    && (forall a <- accounts :: AccountRight(hs, a, accounts[a]))
  }

  method KeepAll(m: map<string, ServiceLevel>, xs: seq<ServiceLevel>, ghost before: seq<ServiceLevel>)
    returns (after: map<string, ServiceLevel>)
    requires KeptRight(m, before)
    ensures KeptRight(after, before + xs)
  {
    hide KeptRight;
    after := m;
    assert before + xs[..0] == before;
    for k := 0 to |xs|
      invariant KeptRight(after, before + xs[..k])
    {
      KeepKeeps(after, before + xs[..k], xs[k]);
      assert before + xs[..k] + [xs[k]] == before + xs[..k + 1];
      after := Keep(after, xs[k]);
    }
    assert xs[..|xs|] == xs;
  }

  function Scalars(c: Option<AccountReach>, h: Held): AccountReach {
    var g := h.grant;
    var a := if c.Some? then c.value else AccountReach(g.level, false, false, false, [], {}, map[], map[]);
    a.(level := if LevelOrder(g.level) > LevelOrder(a.level) then g.level else a.level,
       admin := a.admin || g.admin, every := a.every || g.every, direct := a.direct || h.mine,
       writeServices := a.writeServices + (set s <- g.writeServices),
       principals := if g.principal.Some? && g.principal.value !in a.principals
                     then a.principals + [g.principal.value] else a.principals)
  }

  lemma AtGrows(hs: seq<Held>, h: Held, a: string)
    ensures forall x :: At(hs + [h], a, x) <==> At(hs, a, x) || (x == h && h.grant.target == a)
  {
  }

  lemma ScalarsRight(hs: seq<Held>, h: Held, c: Option<AccountReach>, own: map<string, ServiceLevel>,
                     path: map<string, ServiceLevel>)
    requires c.Some? <==> exists x :: At(hs, h.grant.target, x)
    requires c.Some? ==> AccountRight(hs, h.grant.target, c.value)
    requires KeptRight(own, Offered(hs + [h], h.grant.target, true))
    requires KeptRight(path, Offered(hs + [h], h.grant.target, false))
    ensures AccountRight(hs + [h], h.grant.target, Scalars(c, h).(own := own, path := path))
  {
    hide KeptRight;
    var a := h.grant.target;
    AtGrows(hs, h, a);
    assert At(hs + [h], a, h);
  }

  lemma OtherAccountRight(hs: seq<Held>, h: Held, a: string, r: AccountReach)
    requires a != h.grant.target && AccountRight(hs, a, r)
    ensures AccountRight(hs + [h], a, r)
  {
    hide KeptRight;
    AtGrows(hs, h, a);
    assert (hs + [h])[..|hs|] == hs;
    assert Offered(hs + [h], a, true) == Offered(hs, a, true);
    assert Offered(hs + [h], a, false) == Offered(hs, a, false);
  }

  /** One held grant folded into its account. */
  method FoldOne(accounts: map<string, AccountReach>, h: Held, ghost hs: seq<Held>)
    returns (accountsAfter: map<string, AccountReach>)
    requires AccountsRight(hs, accounts)
    ensures AccountsRight(hs + [h], accountsAfter)
  {
    hide AccountRight, KeptRight;
    var t := h.grant.target;
    var c := if t in accounts then Some(accounts[t]) else None;
    var r := Scalars(c, h);
    assert (hs + [h])[..|hs|] == hs;
    NothingOffered(hs, t, c);
    var own, path := r.own, r.path;
    if h.mine {
      own := KeepAll(own, h.grant.services, Offered(hs, t, true));
      assert Offered(hs, t, false) + [] == Offered(hs, t, false);
    } else {
      path := KeepAll(path, h.grant.services, Offered(hs, t, false));
      assert Offered(hs, t, true) + [] == Offered(hs, t, true);
    }
    ScalarsRight(hs, h, c, own, path);
    accountsAfter := accounts[t := r.(own := own, path := path)];
    forall a
      ensures a in accountsAfter <==> exists x :: At(hs + [h], a, x)
      ensures a in accountsAfter ==> AccountRight(hs + [h], a, accountsAfter[a])
    {
      AtGrows(hs, h, a);
      assert a == t ==> At(hs + [h], a, h);
      if a != t && a in accounts {
        OtherAccountRight(hs, h, a, accounts[a]);
      }
    }
  }

  lemma {:induction false} NoneOffered(hs: seq<Held>, t: string, mine: bool)
    requires forall h <- hs :: h.grant.target != t
    ensures Offered(hs, t, mine) == []
  {
    if hs != [] {
      NoneOffered(hs[..|hs| - 1], t, mine);
    }
  }

  lemma NothingOffered(hs: seq<Held>, t: string, c: Option<AccountReach>)
    requires c.Some? <==> exists x :: At(hs, t, x)
    requires c.Some? ==> AccountRight(hs, t, c.value)
    ensures KeptRight(if c.Some? then c.value.own else map[], Offered(hs, t, true))
    ensures KeptRight(if c.Some? then c.value.path else map[], Offered(hs, t, false))
  {
    if c.None? {
      forall h | h in hs
        ensures h.grant.target != t
      {
        assert !At(hs, t, h);
      }
      NoneOffered(hs, t, true);
      NoneOffered(hs, t, false);
    }
  }

  ghost predicate HeldBy(nodes: seq<Node>, grants: seq<Grant>, own: set<Node>, h: Held) {
    h.grant in grants && h.grant.targetKind.AccountTarget? && h.grant.identity in nodes &&
        h.mine == (h.grant.identity in own)
  }

  /** The account fold over every node reached, in the order `best` was filled. */
  method FoldAccounts(order: seq<Node>, grants: seq<Grant>, own: set<Node>)
    returns (accounts: map<string, AccountReach>, ghost hs: seq<Held>)
    ensures forall h :: h in hs <==> HeldBy(order, grants, own, h)
    ensures AccountsRight(hs, accounts)
  {
    hide AccountRight;
    accounts, hs := map[], [];
    for i := 0 to |order|
      invariant AccountsRight(hs, accounts)
      invariant forall h :: h in hs <==> HeldBy(order[..i], grants, own, h)
    {
      var gs := GrantsOf(grants, order[i]);
      GrantsOfMembers(grants, order[i]);
      ghost var before := hs;
      for k := 0 to |gs|
        invariant AccountsRight(hs, accounts)
        invariant forall h :: h in hs <==>
          || h in before
          || (h.grant in gs[..k] && h.grant.targetKind.AccountTarget? && h.mine == (order[i] in own))
      {
        assert gs[..k + 1] == gs[..k] + [gs[k]];
        if gs[k].targetKind.AccountTarget? {
          var h := Held(gs[k], order[i] in own);
          accounts := FoldOne(accounts, h, hs);
          hs := hs + [h];
        }
      }
      assert gs[..|gs|] == gs;
      assert order[..i + 1] == order[..i] + [order[i]];
    }
    assert order[..|order|] == order;
  }

  /** The services only a path reaches, at write or above. */
  function PathServices(r: AccountReach): set<string> {
    set s | s in r.path && (s !in r.own || LevelRank(r.path[s].top) > LevelRank(r.own[s].top))
            && LevelRank(r.path[s].top) >= LevelRank(Write)
  }

  /** A service is listed as path-only exactly when some grant behind a path offers it at write or above, higher than
      every grant of the person's own. */
  lemma PathServicesMeaning(hs: seq<Held>, a: string, r: AccountReach, s: string)
    requires AccountRight(hs, a, r)
    ensures s in PathServices(r) <==> OnlyAPathOffers(Offered(hs, a, true), Offered(hs, a, false), s)
  {
    hide KeptFor, OnlyAPathOffers, At, Offered;
    assert KeptFor(r.path, Offered(hs, a, false), s) && KeptFor(r.own, Offered(hs, a, true), s);
    PathServicesFor(r, Offered(hs, a, true), Offered(hs, a, false), s);
  }

  /** Some path grant offers the service at write or above, higher than every own grant. */
  ghost predicate OnlyAPathOffers(own: seq<ServiceLevel>, path: seq<ServiceLevel>, s: string) {
    exists x <- path :: x.service == s && LevelRank(x.top) >= LevelRank(Write)
                        && forall y <- own :: y.service == s ==> LevelRank(y.top) < LevelRank(x.top)
  }

  lemma PathServicesFor(r: AccountReach, own: seq<ServiceLevel>, path: seq<ServiceLevel>, s: string)
    requires KeptFor(r.path, path, s) && KeptFor(r.own, own, s)
    ensures s in PathServices(r) <==> OnlyAPathOffers(own, path, s)
  {
    if s in PathServices(r) {
      var x :| x in path && x.service == s && x.top == r.path[s].top;
      assert forall y <- own :: y.service == s ==> LevelRank(y.top) < LevelRank(x.top);
    }
    if OnlyAPathOffers(own, path, s) {
      var x :| && x in path && x.service == s && LevelRank(x.top) >= LevelRank(Write)
               && forall y <- own :: y.service == s ==> LevelRank(y.top) < LevelRank(x.top);
      if s in r.own {
        var y :| y in own && y.service == s && y.top == r.own[s].top;
      }
    }
  }

  // ---- a person's accounts, end to end ------------------------------------------------------------------------------

  /** A usable walk that ends at a node holding grant `g`. */
  ghost predicate WalksTo(w: World, steps: seq<Step>, g: Grant) {
    Usable(w, steps) && EndOf(Last(steps)) == g.identity && g in w.grants && g.targetKind.AccountTarget?
  }

  /** The grant is on the account, and some usable walk ends at the principal that holds it. */
  ghost predicate ReachesGrant(w: World, a: string, g: Grant) {
    g.target == a && exists steps :: WalksTo(w, steps, g)
  }

  /** Such a grant offers the service level; of the person's own when an identity holds it. */
  ghost predicate Offers(w: World, a: string, mine: bool, x: ServiceLevel) {
    exists g :: ReachesGrant(w, a, g) && (g.identity in w.identities) == mine && x in g.services
  }

  /** What is kept of one service: the highest level offered, limited only if every offer was. */
  ghost predicate KeepsService(w: World, a: string, mine: bool, m: map<string, ServiceLevel>, s: string) {
    && (s in m <==> exists x :: Offers(w, a, mine, x) && x.service == s)
    && (s in m ==>
          && m[s].service == s
          && (exists x :: Offers(w, a, mine, x) && x.service == s && x.top == m[s].top)
          && (forall x :: Offers(w, a, mine, x) && x.service == s ==> LevelRank(x.top) <= LevelRank(m[s].top))
          && (m[s].scoped <==> forall x :: Offers(w, a, mine, x) && x.service == s ==> x.scoped)
          && (m[s].conditional <==> forall x :: Offers(w, a, mine, x) && x.service == s ==> x.conditional))
  }

  /** The rest of an account, in terms of the walks. */
  ghost predicate SaysWhatIsReached(w: World, a: string, r: AccountReach) {
    && (r.every <==> exists g :: ReachesGrant(w, a, g) && g.every)
    && (forall p :: p in r.principals <==> exists g :: ReachesGrant(w, a, g) && g.principal == Some(p))
    && (forall i, j :: 0 <= i < j < |r.principals| ==> r.principals[i] != r.principals[j])
    && (forall s :: s in r.writeServices <==> exists g :: ReachesGrant(w, a, g) && s in g.writeServices)
    && (forall s :: KeepsService(w, a, true, r.own, s) && KeepsService(w, a, false, r.path, s))
    && forall s :: s in PathServices(r) <==>
         exists x :: Offers(w, a, false, x) && x.service == s && LevelRank(x.top) >= LevelRank(Write)
                     && forall y :: Offers(w, a, true, y) && y.service == s ==> LevelRank(y.top) < LevelRank(x.top)
  }

  /** `reach` as far as the accounts: an account is listed exactly when some usable walk ends at a principal with a
      grant on it, as administrator exactly when one of those grants is, and at the highest level among them; its
      principals, write services, services and path-only services are those of such grants. */
  method Accounts(w: World) returns (accounts: map<string, AccountReach>)
    requires w.WellShaped()
    ensures forall a :: a in accounts <==> exists steps, g :: WalksTo(w, steps, g) && g.target == a
    ensures forall a <- accounts :: accounts[a].admin <==>
        exists steps, g :: WalksTo(w, steps, g) && g.target == a && g.admin
    ensures forall a <- accounts, steps, g :: WalksTo(w, steps, g) && g.target == a ==>
      LevelOrder(g.level) <= LevelOrder(accounts[a].level)
    ensures forall a <- accounts :: exists steps, g ::
        WalksTo(w, steps, g) && g.target == a && g.level == accounts[a].level
    ensures forall a <- accounts :: accounts[a].direct <==>
      exists g :: g in w.grants && g.targetKind.AccountTarget? && g.identity in w.identities && g.target == a
    ensures forall a <- accounts :: SaysWhatIsReached(w, a, accounts[a])
  {
    hide *;
    var best, order, log := Search(w);
    var own := set i <- w.identities;
    ghost var hs;
    accounts, hs := FoldAccounts(order, w.grants, own);
    FoldHolds(w, best, order, own, hs);
    FoldWalked(w, hs, accounts);
  }

  lemma FoldHolds(w: World, best: map<Node, ReachPath>, order: seq<Node>, own: set<Node>, hs: seq<Held>)
    requires StrongestPaths(w, best)
    requires forall n :: n in order <==> n in best
    requires own == set i <- w.identities
    requires forall h :: h in hs <==> HeldBy(order, w.grants, own, h)
    ensures FoldsWalks(w, hs)
  {
    hide StrongestPaths, HeldBy, WalksTo;
    forall h
      ensures h in hs <==> h.mine == (h.grant.identity in w.identities) && exists steps :: WalksTo(w, steps, h.grant)
    {
      HeldIffWalk(w, best, order, own, h);
    }
  }

  lemma FoldWalked(w: World, hs: seq<Held>, accounts: map<string, AccountReach>)
    requires FoldsWalks(w, hs) && AccountsRight(hs, accounts)
    ensures forall a :: a in accounts <==> exists steps, g :: WalksTo(w, steps, g) && g.target == a
    ensures forall a <- accounts :: accounts[a].admin <==>
        exists steps, g :: WalksTo(w, steps, g) && g.target == a && g.admin
    ensures forall a <- accounts, steps, g :: WalksTo(w, steps, g) && g.target == a ==>
      LevelOrder(g.level) <= LevelOrder(accounts[a].level)
    ensures forall a <- accounts :: exists steps, g ::
        WalksTo(w, steps, g) && g.target == a && g.level == accounts[a].level
    ensures forall a <- accounts :: accounts[a].direct <==>
      exists g :: g in w.grants && g.targetKind.AccountTarget? && g.identity in w.identities && g.target == a
    ensures forall a <- accounts :: SaysWhatIsReached(w, a, accounts[a])
  {
    hide SaysWhatIsReached, AccountRight, WalksTo;
    FoldedWalks(w, hs, accounts);
    forall a | a in accounts
      ensures SaysWhatIsReached(w, a, accounts[a])
    {
      FoldedOffers(w, hs, a, accounts[a]);
    }
  }

  lemma HeldIffWalk(w: World, best: map<Node, ReachPath>, order: seq<Node>, own: set<Node>, h: Held)
    requires StrongestPaths(w, best)
    requires forall n :: n in order <==> n in best
    requires own == set i <- w.identities
    ensures HeldBy(order, w.grants, own, h) <==>
      h.mine == (h.grant.identity in w.identities) && exists steps :: WalksTo(w, steps, h.grant)
  {
    hide StrongestPaths, StepFrom, Weakest;
    ReachedIffSomeWalk(w, best, h.grant.identity);
    if HeldBy(order, w.grants, own, h) {
      var steps :| Usable(w, steps) && EndOf(Last(steps)) == h.grant.identity;
      assert WalksTo(w, steps, h.grant);
    }
    if steps :| WalksTo(w, steps, h.grant) {
      assert Usable(w, steps) && EndOf(Last(steps)) == h.grant.identity;
    }
  }

  lemma IdentityWalks(w: World, g: Grant)
    requires g in w.grants && g.targetKind.AccountTarget? && g.identity in w.identities
    ensures WalksTo(w, [Start(g.identity)], g)
  {
    var steps := [Start(g.identity)];
    assert steps[..|steps| - 1] == [];
    assert Weakest(steps) == Allowed;
  }

  lemma FoldedWalks(w: World, hs: seq<Held>, accounts: map<string, AccountReach>)
    requires AccountsRight(hs, accounts)
    requires forall h :: h in hs <==>
        h.mine == (h.grant.identity in w.identities) && exists steps :: WalksTo(w, steps, h.grant)
    ensures forall a :: a in accounts <==> exists steps, g :: WalksTo(w, steps, g) && g.target == a
    ensures forall a <- accounts :: accounts[a].admin <==>
        exists steps, g :: WalksTo(w, steps, g) && g.target == a && g.admin
    ensures forall a <- accounts, steps, g :: WalksTo(w, steps, g) && g.target == a ==>
      LevelOrder(g.level) <= LevelOrder(accounts[a].level)
    ensures forall a <- accounts :: exists steps, g ::
        WalksTo(w, steps, g) && g.target == a && g.level == accounts[a].level
    ensures forall a <- accounts :: accounts[a].direct <==>
      exists g :: g in w.grants && g.targetKind.AccountTarget? && g.identity in w.identities && g.target == a
  {
    hide WalksTo, KeptRight;
    forall steps, g | WalksTo(w, steps, g)
      ensures At(hs, g.target, Held(g, g.identity in w.identities))
    {
    }
    forall a | a in accounts
      ensures accounts[a].direct <==>
        exists g :: g in w.grants && g.targetKind.AccountTarget? && g.identity in w.identities && g.target == a
    {
      if accounts[a].direct {
        var h :| At(hs, a, h) && h.mine;
        var steps :| WalksTo(w, steps, h.grant);
        WalkHolds(w, steps, h.grant);
      }
      if g :| g in w.grants && g.targetKind.AccountTarget? && g.identity in w.identities && g.target == a {
        IdentityWalks(w, g);
      }
    }
  }

  lemma WalkHolds(w: World, steps: seq<Step>, g: Grant)
    requires WalksTo(w, steps, g)
    ensures g in w.grants && g.targetKind.AccountTarget?
  {
  }

  // ---- from a Vercel role to the accounts ---------------------------------------------------------------------------

  /** From the member into the project by their role, and out of it over the edge. */
  function ThroughProject(m: TeamMember, p: string, c: Capability, e: PathEdge): seq<Step> {
    [Start(Member(m.id)), Enters(MemberGrant(m, p, c)), Crosses(e)]
  }

  lemma ThroughProjectIsUsable(w: World, m: TeamMember, p: string, c: Capability, e: PathEdge)
    requires Member(m.id) in w.identities && MemberGrant(m, p, c) in w.grants && Opens(MemberGrant(m, p, c))
    requires e in w.edges && e.from == Project(p) && !e.decision.Denied? && Crossable(w.Gates(), e)
    ensures Usable(w, ThroughProject(m, p, c, e)) && Weakest(ThroughProject(m, p, c, e)) == e.decision
  {
    var steps := ThroughProject(m, p, c, e);
    var two := [steps[0], steps[1]];
    WeakestGrows([], steps[0]);
    WeakestGrows([steps[0]], steps[1]);
    WeakestGrows(two, steps[2]);
    assert [] + [steps[0]] == [steps[0]] && [steps[0]] + [steps[1]] == two && two + [steps[2]] == steps;
  }

  lemma WeakestGrows(steps: seq<Step>, s: Step)
    ensures Weakest(steps + [s]) == Weaker(Weakest(steps), DecisionOf(s)) && Weakest([]) == Allowed
  {
    assert (steps + [s])[..|steps|] == steps;
  }

  /** The user whose key is in a project's variables is reached over that key exactly by who has a role on the
      project, by the roles' names: conditionally, in two steps from the member, and so is each account the user has. */
  lemma KeyReachesItsUser(t: Team, iamGrants: seq<Grant>, iamEdges: seq<PathEdge>, grants: seq<Grant>,
                          edges: seq<PathEdge>, identities: seq<Node>, m: TeamMember, k: KeyLink)
    requires VercelPart(t, grants, edges) && OneMember(t, m, identities, iamGrants)
    requires k in t.keys && k.project in t.projects
    ensures var w := World(identities, iamEdges + edges, iamGrants + grants);
      var team, project := m.role, FindRole(t.projectRoles, m.uid, k.project);
      var sees := Administers(team, project) || Develops(team, project) || Views(team, project);
      && ((exists steps :: Usable(w, steps) && Last(steps) == Crosses(KeyEdge(k))) <==> sees)
      && (sees ==>
            && (exists steps :: Usable(w, steps) && |steps| == 3 && Weakest(steps) == Conditional
                                && EndOf(Last(steps)) == Principal(k.userArn))
            && forall g :: g in w.grants && g.targetKind.AccountTarget? && g.identity == Principal(k.userArn) ==>
                 ReachesGrant(w, g.target, g))
  {
    var w := World(identities, iamEdges + edges, iamGrants + grants);
    var c := MemberCapability(t, m, k.project);
    MemberGate(t, iamGrants, iamEdges, grants, edges, identities, m, k.project);
    KeyOpensToViewers(t, iamGrants, iamEdges, grants, edges, identities, m, k);
    RolesByName(m.role, FindRole(t.projectRoles, m.uid, k.project));
    CrossedIsCrossable(w, KeyEdge(k));
    if c.Some? {
      assert KeyEdge(k) in edges;
      ProjectReaches(w, m, k.project, c.value, KeyEdge(k));
    }
    hide VercelCapability, Administers, Develops, Views, VercelPart, OneMember, Usable, Crossable;
  }

  /** And the role a project assumes exactly by who deploys it, without a condition. */
  lemma OidcReachesItsRole(t: Team, iamGrants: seq<Grant>, iamEdges: seq<PathEdge>, grants: seq<Grant>,
                           edges: seq<PathEdge>, identities: seq<Node>, m: TeamMember, l: OidcLink)
    requires VercelPart(t, grants, edges) && OneMember(t, m, identities, iamGrants)
    requires l in t.oidc && l.project in t.projects
    ensures var w := World(identities, iamEdges + edges, iamGrants + grants);
      var team, project := m.role, FindRole(t.projectRoles, m.uid, l.project);
      var deploys := Administers(team, project) || Develops(team, project);
      && ((exists steps :: Usable(w, steps) && Last(steps) == Crosses(OidcEdge(l))) <==> deploys)
      && (deploys ==>
            && (exists steps :: Usable(w, steps) && |steps| == 3 && Weakest(steps) == Allowed
                                && EndOf(Last(steps)) == Principal(l.roleArn))
            && forall g :: g in w.grants && g.targetKind.AccountTarget? && g.identity == Principal(l.roleArn) ==>
                 ReachesGrant(w, g.target, g))
  {
    var w := World(identities, iamEdges + edges, iamGrants + grants);
    var c := MemberCapability(t, m, l.project);
    MemberGate(t, iamGrants, iamEdges, grants, edges, identities, m, l.project);
    OidcOpensToDeployers(t, iamGrants, iamEdges, grants, edges, identities, m, l);
    RolesByName(m.role, FindRole(t.projectRoles, m.uid, l.project));
    CrossedIsCrossable(w, OidcEdge(l));
    if c.Some? && c.value.deploy.Production? {
      assert OidcEdge(l) in edges;
      ProjectReaches(w, m, l.project, c.value, OidcEdge(l));
    }
    hide VercelCapability, Administers, Develops, Views, VercelPart, OneMember, Usable, Crossable;
  }

  lemma CrossedIsCrossable(w: World, e: PathEdge)
    ensures forall steps :: Usable(w, steps) && Last(steps) == Crosses(e) ==> Crossable(w.Gates(), e)
  {
    forall steps | Usable(w, steps) && Last(steps) == Crosses(e)
      ensures Crossable(w.Gates(), e)
    {
      assert StepFrom(w, w.Gates(), EndOf(steps[|steps| - 2]), steps[|steps| - 1]);
    }
  }

  lemma ProjectReaches(w: World, m: TeamMember, p: string, c: Capability, e: PathEdge)
    requires Member(m.id) in w.identities && MemberGrant(m, p, c) in w.grants && !c.envVars.NoVars?
    requires e in w.edges && e.from == Project(p) && !e.decision.Denied? && Crossable(w.Gates(), e)
    ensures exists steps :: Usable(w, steps) && Last(steps) == Crosses(e)
    ensures exists steps ::
      Usable(w, steps) && |steps| == 3 && Weakest(steps) == e.decision && EndOf(Last(steps)) == e.to
    ensures forall g :: g in w.grants && g.targetKind.AccountTarget? && g.identity == e.to ==>
      ReachesGrant(w, g.target, g)
  {
    var steps := ThroughProject(m, p, c, e);
    ThroughProjectIsUsable(w, m, p, c, e);
    assert Last(steps) == Crosses(e) && EndOf(Last(steps)) == e.to && |steps| == 3;
    hide Usable;
    forall g | g in w.grants && g.targetKind.AccountTarget? && g.identity == e.to
      ensures ReachesGrant(w, g.target, g)
    {
      assert WalksTo(w, steps, g);
    }
  }

  /** The first role a member has on a project counts. */
  lemma {:induction false} FindRoleMeaning(roles: seq<ProjectRole>, uid: string, project: string)
    ensures match FindRole(roles, uid, project)
      case None => forall x <- roles :: !(x.uid == uid && x.project == project)
      case Some(role) => exists k ::
        && 0 <= k < |roles| && roles[k] == ProjectRole(project, uid, role)
        && forall j :: 0 <= j < k ==> !(roles[j].uid == uid && roles[j].project == project)
  {
    if roles != [] {
      FindRoleMeaning(roles[1..], uid, project);
      if roles[0].uid == uid && roles[0].project == project {
        assert roles[0] == ProjectRole(project, uid, roles[0].role);
      } else {
        var r := FindRole(roles[1..], uid, project);
        if r.Some? {
          var k :| && 0 <= k < |roles| - 1 && roles[1..][k] == ProjectRole(project, uid, r.value)
                   && forall j :: 0 <= j < k ==> !(roles[1..][j].uid == uid && roles[1..][j].project == project);
          assert roles[k + 1] == ProjectRole(project, uid, r.value);
          assert forall j :: 0 < j < k + 1 ==> roles[j] == roles[1..][j - 1];
        } else {
          assert roles == [roles[0]] + roles[1..];
        }
      }
    }
  }

  /** What a member's project grant says, by the roles' names. */
  lemma MemberGrantSays(t: Team, m: TeamMember, p: string, g: Grant)
    requires FromMember(t, m, p, g)
    ensures var team, project := m.role, FindRole(t.projectRoles, m.uid, p);
      && g.identity == Member(m.id) && g.target == p && g.targetKind == ProjectTarget && g.principal == None
      && (g.admin <==> Administers(team, project)) && !g.every && g.services == [] && g.writeServices == []
      && (g.level == "owner" <==> Named(team, "OWNER"))
      && (g.deploy == Production <==> Administers(team, project) || Develops(team, project))
      && (g.envVars == WriteVars <==> Administers(team, project))
  {
    RolesByName(m.role, FindRole(t.projectRoles, m.uid, p));
    hide VercelCapability, Named;
  }

  // from the grants held to the walks

  /** What was folded is what the walks reach. */
  ghost predicate FoldsWalks(w: World, hs: seq<Held>) {
    forall h :: h in hs <==> h.mine == (h.grant.identity in w.identities) && exists steps :: WalksTo(w, steps, h.grant)
  }

  lemma HeldReaches(w: World, hs: seq<Held>, a: string)
    requires FoldsWalks(w, hs)
    ensures forall h :: At(hs, a, h) <==>
      h.mine == (h.grant.identity in w.identities) && ReachesGrant(w, a, h.grant)
    ensures forall g :: ReachesGrant(w, a, g) <==> At(hs, a, Held(g, g.identity in w.identities))
  {
    hide WalksTo;
  }

  lemma {:induction false} OfferedAre(hs: seq<Held>, a: string, mine: bool, x: ServiceLevel)
    ensures x in Offered(hs, a, mine) <==> exists h :: At(hs, a, h) && h.mine == mine && x in h.grant.services
  {
    if hs != [] {
      var n := |hs| - 1;
      OfferedAre(hs[..n], a, mine, x);
      assert hs == hs[..n] + [hs[n]];
      if x in Offered(hs, a, mine) && x !in Offered(hs[..n], a, mine) {
        assert At(hs, a, hs[n]);
      }
      if h :| At(hs[..n], a, h) && h.mine == mine && x in h.grant.services {
        assert At(hs, a, h);
      }
    }
  }

  lemma OfferedIsOffers(w: World, hs: seq<Held>, a: string, mine: bool, x: ServiceLevel)
    requires FoldsWalks(w, hs)
    ensures x in Offered(hs, a, mine) <==> Offers(w, a, mine, x)
  {
    HeldReaches(w, hs, a);
    OfferedAre(hs, a, mine, x);
    hide WalksTo, ReachesGrant, Offered, FoldsWalks, At;
    if h :| At(hs, a, h) && h.mine == mine && x in h.grant.services {
      assert ReachesGrant(w, a, h.grant);
    }
    if g :| ReachesGrant(w, a, g) && (g.identity in w.identities) == mine && x in g.services {
      assert At(hs, a, Held(g, mine));
    }
  }

  lemma KeptIsKept(w: World, hs: seq<Held>, a: string, mine: bool, m: map<string, ServiceLevel>, s: string)
    requires FoldsWalks(w, hs) && KeptRight(m, Offered(hs, a, mine))
    ensures KeepsService(w, a, mine, m, s)
  {
    var xs := Offered(hs, a, mine);
    assert KeptFor(m, xs, s);
    forall x
      ensures x in xs <==> Offers(w, a, mine, x)
    {
      OfferedIsOffers(w, hs, a, mine, x);
    }
    hide Offers, Offered, FoldsWalks, KeptRight, LevelRank;
  }

  lemma OnlyAPathReaches(w: World, hs: seq<Held>, a: string, r: AccountReach, s: string)
    requires FoldsWalks(w, hs) && AccountRight(hs, a, r)
    ensures s in PathServices(r) <==>
      exists x :: Offers(w, a, false, x) && x.service == s && LevelRank(x.top) >= LevelRank(Write)
                  && forall y :: Offers(w, a, true, y) && y.service == s ==> LevelRank(y.top) < LevelRank(x.top)
  {
    PathServicesMeaning(hs, a, r, s);
    forall x
      ensures x in Offered(hs, a, true) <==> Offers(w, a, true, x)
      ensures x in Offered(hs, a, false) <==> Offers(w, a, false, x)
    {
      OfferedIsOffers(w, hs, a, true, x);
      OfferedIsOffers(w, hs, a, false, x);
    }
    hide Offers, Offered, FoldsWalks, AccountRight, PathServices;
  }

  lemma FoldedOffers(w: World, hs: seq<Held>, a: string, r: AccountReach)
    requires FoldsWalks(w, hs) && AccountRight(hs, a, r)
    ensures SaysWhatIsReached(w, a, r)
  {
    HeldReaches(w, hs, a);
    forall s
      ensures KeepsService(w, a, true, r.own, s) && KeepsService(w, a, false, r.path, s)
      ensures s in PathServices(r) <==>
        exists x :: Offers(w, a, false, x) && x.service == s && LevelRank(x.top) >= LevelRank(Write)
                    && forall y :: Offers(w, a, true, y) && y.service == s ==> LevelRank(y.top) < LevelRank(x.top)
    {
      KeptIsKept(w, hs, a, true, r.own, s);
      KeptIsKept(w, hs, a, false, r.path, s);
      OnlyAPathReaches(w, hs, a, r, s);
    }
    hide FoldsWalks, At, ReachesGrant, KeptRight, KeepsService, PathServices, Offers, Offered;
    FoldedScalars(w, hs, a, r);
  }

  lemma FoldedScalars(w: World, hs: seq<Held>, a: string, r: AccountReach)
    requires AccountRight(hs, a, r)
    requires forall h :: At(hs, a, h) <==> h.mine == (h.grant.identity in w.identities) && ReachesGrant(w, a, h.grant)
    requires forall g :: ReachesGrant(w, a, g) <==> At(hs, a, Held(g, g.identity in w.identities))
    ensures r.every <==> exists g :: ReachesGrant(w, a, g) && g.every
    ensures forall p :: p in r.principals <==> exists g :: ReachesGrant(w, a, g) && g.principal == Some(p)
    ensures forall s :: s in r.writeServices <==> exists g :: ReachesGrant(w, a, g) && s in g.writeServices
    ensures forall i, j :: 0 <= i < j < |r.principals| ==> r.principals[i] != r.principals[j]
  {
    hide At, ReachesGrant, KeptRight;
  }
}
