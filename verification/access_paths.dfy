/** The bounded strongest-path search of `src/access_paths.ts`: `reach` walks the path edges breadth first from a
    person's identities, at most four steps, overwriting what it holds for a node whenever a stronger (or equally
    strong and shorter) path turns up. */
module AccessPaths {
  import opened Options

  // ---- the graph ---------------------------------------------------------------------------------------------

  datatype Decision = Denied | Conditional | Allowed

  function Rank(d: Decision): nat {
    match d
    case Allowed => 2
    case Conditional => 1
    case Denied => 0
  }

  function Weaker(a: Decision, b: Decision): Decision {
    if a.Denied? || b.Denied? then Denied
    else if a.Conditional? || b.Conditional? then Conditional
    else Allowed
  }

  lemma WeakerIsMinimum(a: Decision, b: Decision)
    ensures Rank(Weaker(a, b)) == if Rank(a) <= Rank(b) then Rank(a) else Rank(b)
    ensures Weaker(a, b) == a || Weaker(a, b) == b
  {
  }

  /** A node id, tagged with the kind of thing it names; ids of two kinds never coincide. */
  datatype Node =
    | Principal(arn: string)
    | IdentityCenterUser(user: string)
    | Member(member: string)
    | Project(project: string)
    | Instance(instance: string)
    | Repository(repository: string)

  datatype EdgeKind = CanAssume | CanShellInto | RunsAs | HoldsKeyOf | CanAccess

  datatype PathEdge = PathEdge(from: Node, to: Node, kind: EdgeKind, via: string, decision: Decision,
                               environments: seq<string>)

  datatype TargetKind = AccountTarget | ProjectTarget | ClusterTarget
  datatype Deploy = Production | Preview | NoDeploy
  datatype EnvVars = WriteVars | PreviewVars | ReadVars | NoVars

  datatype Level = List | Read | Tagging | Write | Permissions

  function LevelRank(l: Level): nat {
    match l
    case List => 1
    case Read => 2
    case Tagging => 3
    case Write => 4
    case Permissions => 5
  }

  /** From listing to permissions, each level above the one before. */
  lemma LevelsAscend()
    ensures LevelRank(List) < LevelRank(Read) < LevelRank(Tagging) < LevelRank(Write) < LevelRank(Permissions)
  {
  }

  datatype ServiceLevel = ServiceLevel(service: string, top: Level, scoped: bool, conditional: bool)

  datatype Grant = Grant(identity: Node, target: string, targetKind: TargetKind, principal: Option<string>,
                         level: string, admin: bool, every: bool, services: seq<ServiceLevel>,
                         writeServices: seq<string>, deploy: Deploy, envVars: EnvVars)

  const VERCEL_OIDC := "Vercel OIDC"
  const PRODUCTION := "production"
  const MAX_STEPS := 4

  /** A grant that lets the walk enter its project. */
  predicate Opens(g: Grant) {
    g.targetKind.ProjectTarget? && (!g.deploy.NoDeploy? || !g.envVars.NoVars?)
  }

  /** Whether an edge may be taken, given the role each project was entered with. */
  predicate Crossable(entry: map<string, Grant>, e: PathEdge) {
    if e.kind.RunsAs? && e.via == VERCEL_OIDC then
      && e.from.Project? && e.from.project in entry
      && var g := entry[e.from.project];
      && !g.deploy.NoDeploy?
      && !(g.deploy.Preview? && forall x <- e.environments :: x == PRODUCTION)
    else if e.kind.HoldsKeyOf? then
      && e.from.Project? && e.from.project in entry
      && var g := entry[e.from.project];
      && !(g.deploy.NoDeploy? && g.envVars.NoVars?)
    else
      true
  }

  /** Which edges are open, role by role: a project's OIDC role to who deploys it to production, or previews it when
      the role is not for production alone; the key in its variables to who deploys it anywhere or sees its variables
      at all; every other edge to everyone. */
  lemma CrossableIff(entry: map<string, Grant>, e: PathEdge)
    ensures e.kind == RunsAs && e.via == "Vercel OIDC" ==>
      (Crossable(entry, e) <==>
         e.from.Project? && e.from.project in entry &&
         match entry[e.from.project].deploy
         case Production => true
         case Preview => exists x :: x in e.environments && x != "production"
         case NoDeploy => false)
    ensures e.kind == HoldsKeyOf ==>
      (Crossable(entry, e) <==>
         e.from.Project? && e.from.project in entry &&
         (entry[e.from.project].deploy in {Production, Preview} ||
          entry[e.from.project].envVars in {WriteVars, PreviewVars, ReadVars}))
    ensures e.kind in {CanAssume, CanShellInto, CanAccess} || (e.kind == RunsAs && e.via != "Vercel OIDC") ==>
      Crossable(entry, e)
  {
  }

  /** Which grants let the walk enter their project. */
  lemma OpensIff(g: Grant)
    ensures Opens(g) <==>
      g.targetKind == ProjectTarget &&
      (g.deploy in {Production, Preview} || g.envVars in {WriteVars, PreviewVars, ReadVars})
  {
  }

  function GrantsOf(grants: seq<Grant>, n: Node): seq<Grant> {
    if grants == [] then []
    else
      var rest := GrantsOf(grants[..|grants| - 1], n);
      if grants[|grants| - 1].identity == n then rest + [grants[|grants| - 1]] else rest
  }

  lemma GrantsOfMembers(grants: seq<Grant>, n: Node)
    ensures forall g :: g in GrantsOf(grants, n) <==> g in grants && g.identity == n
  {
    if grants != [] {
      GrantsOfMembers(grants[..|grants| - 1], n);
      assert grants == grants[..|grants| - 1] + [grants[|grants| - 1]];
    }
  }

  /** `projectEntry` after the opening grants among `gs` are written, the last one for a project winning. */
  function Entered(entry: map<string, Grant>, gs: seq<Grant>): map<string, Grant> {
    if gs == [] then entry
    else
      var e := Entered(entry, gs[..|gs| - 1]);
      var g := gs[|gs| - 1];
      if Opens(g) then e[g.target := g] else e
  }

  lemma EnteredNothing(entry: map<string, Grant>, gs: seq<Grant>)
    requires forall g <- gs :: !Opens(g)
    ensures Entered(entry, gs) == entry
  {
  }

  datatype World = World(identities: seq<Node>, edges: seq<PathEdge>, grants: seq<Grant>) {

    /** What the inventory guarantees: only Vercel members hold project roles, no step leads to a member, and a
        person's identities are not projects. So every project gate is written while the identities are expanded. */
    ghost predicate WellShaped() {
      && (forall e <- edges :: !e.to.Member?)
      && (forall g <- grants :: g.targetKind.ProjectTarget? ==> g.identity.Member?)
      && (forall i <- identities :: !i.Project?)
    }

    ghost function GatesUpTo(k: nat): map<string, Grant>
      requires k <= |identities|
    {
      if k == 0 then map[] else Entered(GatesUpTo(k - 1), GrantsOf(grants, identities[k - 1]))
    }

    ghost function Gates(): map<string, Grant> {
      GatesUpTo(|identities|)
    }
  }

  // ---- walks: the reference the search is compared with --------------------------------------------------------

  datatype Step = Start(node: Node) | Crosses(edge: PathEdge) | Enters(grant: Grant)

  function EndOf(s: Step): Node {
    match s
    case Start(n) => n
    case Crosses(e) => e.to
    case Enters(g) => Project(g.target)
  }

  function DecisionOf(s: Step): Decision {
    match s
    case Start(_) => Allowed
    case Crosses(e) => e.decision
    case Enters(_) => Allowed
  }

  ghost predicate StepFrom(w: World, entry: map<string, Grant>, n: Node, s: Step) {
    match s
    case Start(_) => false
    case Crosses(e) => e in w.edges && e.from == n && Crossable(entry, e)
    case Enters(g) => g in w.grants && g.identity == n && Opens(g)
  }

  function Last(steps: seq<Step>): Step
    requires steps != []
  {
    steps[|steps| - 1]
  }

  /** The weakest step: how strong a whole path is. */
  function Weakest(steps: seq<Step>): Decision {
    if steps == [] then Allowed
    else Weaker(Weakest(steps[..|steps| - 1]), DecisionOf(Last(steps)))
  }

  lemma {:induction false} WeakestIsTheLeast(steps: seq<Step>)
    ensures forall k :: 0 <= k < |steps| ==> Rank(Weakest(steps)) <= Rank(DecisionOf(steps[k]))
    ensures Weakest(steps) == Allowed || exists k :: 0 <= k < |steps| && Weakest(steps) == DecisionOf(steps[k])
  {
    if steps != [] {
      WeakestIsTheLeast(steps[..|steps| - 1]);
      WeakerIsMinimum(Weakest(steps[..|steps| - 1]), DecisionOf(Last(steps)));
      assert Weakest(steps) == Allowed || exists k :: 0 <= k < |steps| && Weakest(steps) == DecisionOf(steps[k]) by {
        if Weakest(steps) == DecisionOf(Last(steps)) {
          assert Weakest(steps) == DecisionOf(steps[|steps| - 1]);
        } else if Weakest(steps[..|steps| - 1]) != Allowed {
          var k :| 0 <= k < |steps| - 1 && Weakest(steps[..|steps| - 1]) == DecisionOf(steps[..|steps| - 1][k]);
          assert Weakest(steps) == DecisionOf(steps[k]);
        }
      }
    }
  }

  /** A walk from one of the person's identities through steps that may be taken. */
  ghost predicate IsWalk(w: World, steps: seq<Step>) {
    && steps != []
    && steps[0].Start? && steps[0].node in w.identities
    && forall k :: 1 <= k < |steps| ==> StepFrom(w, w.Gates(), EndOf(steps[k - 1]), steps[k])
  }

  /** A walk the search may follow: not denied, at most four steps after the identity. */
  ghost predicate Usable(w: World, steps: seq<Step>) {
    IsWalk(w, steps) && |steps| <= 5 && !Weakest(steps).Denied?
  }

  datatype ReachPath = ReachPath(steps: seq<Step>, decision: Decision)

  /** `p` is stronger than `q`, or as strong and no longer. */
  predicate AtLeastAsGood(p: ReachPath, q: ReachPath) {
    Rank(p.decision) > Rank(q.decision) || (Rank(p.decision) == Rank(q.decision) && |p.steps| <= |q.steps|)
  }

  /** The promise of `reach`: every node held is held by a real usable walk with its exact strength, and no usable
      walk to any node is stronger, or as strong and shorter, than the one held for that node. */
  ghost predicate StrongestPaths(w: World, best: map<Node, ReachPath>) {
    && (forall n <- best :: Usable(w, best[n].steps) && EndOf(Last(best[n].steps)) == n
                            && best[n].decision == Weakest(best[n].steps))
    && (forall steps :: Usable(w, steps) ==>
          EndOf(Last(steps)) in best && AtLeastAsGood(best[EndOf(Last(steps))], ReachPath(steps, Weakest(steps))))
  }

  /** The promise pins the answer down: the nodes, how strong each is and how many steps it takes. */
  lemma StrongestPathsUnique(w: World, a: map<Node, ReachPath>, b: map<Node, ReachPath>)
    requires StrongestPaths(w, a) && StrongestPaths(w, b)
    ensures a.Keys == b.Keys
    ensures forall n <- a :: a[n].decision == b[n].decision && |a[n].steps| == |b[n].steps|
  {
    forall n | n in a
      ensures n in b && AtLeastAsGood(b[n], a[n])
    {
      assert Usable(w, a[n].steps);
    }
    forall n | n in b
      ensures n in a && AtLeastAsGood(a[n], b[n])
    {
      assert Usable(w, b[n].steps);
    }
    forall n | n in a
      ensures a[n].decision == b[n].decision
    {
      assert Rank(a[n].decision) == Rank(b[n].decision);
    }
  }

  /** Reached exactly when some usable walk gets there; the decision is the best over those walks, and the path is the
      shortest among the walks attaining it. */
  lemma ReachedIffSomeWalk(w: World, best: map<Node, ReachPath>, n: Node)
    requires StrongestPaths(w, best)
    ensures n in best <==> exists steps :: Usable(w, steps) && EndOf(Last(steps)) == n
    ensures n in best ==> forall steps :: Usable(w, steps) && EndOf(Last(steps)) == n ==>
        && Rank(Weakest(steps)) <= Rank(best[n].decision)
        && (Weakest(steps) == best[n].decision ==> |best[n].steps| <= |steps|)
  {
    if n in best {
      assert Usable(w, best[n].steps) && EndOf(Last(best[n].steps)) == n;
    }
  }

  // ---- the worklist ------------------------------------------------------------------------------------------------

  datatype Entry = Entry(node: Node, path: ReachPath, depth: nat)

  /** The loop of `reach`: the strongest path to every node the person can get to. `log` is every entry ever queued:
      each a real usable walk as deep as it is long, depths never going down, and each entry after the identities' own
      beating all the earlier ones of its node. */
  method Search(w: World) returns (best: map<Node, ReachPath>, order: seq<Node>, ghost log: seq<Entry>)
    requires w.WellShaped()
    ensures StrongestPaths(w, best)
    ensures (forall i, j :: 0 <= i < j < |order| ==> order[i] != order[j]) && forall n :: n in order <==> n in best
    ensures (forall e <- log :: RealEntry(w, e)) && DepthSorted(log) && Improving(log)
  {
    hide *;
    var out := BuildOut(w.edges);
    var grantsOf := BuildGrantsOf(w.grants);
    var queue: seq<Entry>;
    best, order, queue, log := Begin(w);
    var projectEntry: map<string, Grant> := map[];
    ghost var done: nat, level: nat, levelEnd: nat := 0, 0, |log|;
    FrontierBegins(w, log);
    NoGateYet(w);
    while queue != []
      invariant done <= levelEnd <= |log| && queue == log[done..]
      invariant Frontier(w, log, done, level, levelEnd)
      invariant projectEntry == w.GatesUpTo(if done <= |w.identities| then done else |w.identities|)
      invariant Consistent(w, log, best, order)
      invariant forall j :: 0 <= j < done ==> Expanded(w, log, log[j])
      decreases MAX_STEPS + 1 - level, levelEnd - done
    {
      QueuedIsReal(w, log, best, order, done);
      if done == levelEnd {
        FrontierDeepens(w, log, done, level);
        level, levelEnd := level + 1, |log|;
      }
      var head := queue[0];
      queue := queue[1..];
      ghost var before, entry := log, projectEntry;
      FrontierHead(w, log, done, level, levelEnd);
      var next: seq<Step>;
      var es, gs := Lookup(out, head.node), Lookup(grantsOf, head.node);
      if head.depth >= MAX_STEPS {
        ExpandedAtTheBound(w, log, head);
        FrontierShifts(w, log, [], done, level, levelEnd);
        assert log + [] == log;
        done := done + 1;
        continue;
      }
      next, projectEntry := NextSteps(es, gs, projectEntry);
      GatesAgree(w, done, head, entry);
      NextAreStepsFrom(w, entry, head.node, es, gs, next);
      ghost var more;
      best, order, queue, more := Expand(w, head, next, best, order, queue, log);
      log := log + more;
      FrontierShifts(w, before, more, done, level, levelEnd);
      forall j | 0 <= j < done
        ensures Expanded(w, log, log[j])
      {
        ExpandedGrows(w, before, more, before[j]);
      }
      done := done + 1;
    }
    LogIsSound(w, log, best, order);
    IdentitiesFirst(w, log, done, level, levelEnd);
    Finished(w, log, best, order);
  }

  /** No visited set is needed: past the identities' own entries, a node is queued at most twice (once conditional,
      once allowed). */
  lemma QueuedAtMostTwice(w: World, log: seq<Entry>, i: nat, j: nat, k: nat)
    requires forall e <- log :: RealEntry(w, e)
    requires DepthSorted(log) && Improving(log)
    requires i < j < k < |log| && log[i].depth > 0
    ensures !(log[i].node == log[j].node == log[k].node)
  {
    assert RealEntry(w, log[i]) && RealEntry(w, log[j]) && RealEntry(w, log[k]);
  }

  /** An emptied worklist holds the strongest paths. */
  lemma Finished(w: World, log: seq<Entry>, best: map<Node, ReachPath>, order: seq<Node>)
    requires Consistent(w, log, best, order)
    requires |w.identities| <= |log|
    requires forall j :: 0 <= j < |w.identities| ==>
      log[j] == Entry(w.identities[j], ReachPath([Start(w.identities[j])], Allowed), 0)
    requires forall j :: 0 <= j < |log| ==> Expanded(w, log, log[j])
    ensures StrongestPaths(w, best)
  {
    hide RealEntry, Expanded, BestOf, StepFrom, Weakest, Improving, DepthSorted;
    forall i | i in w.identities
      ensures Covers(log, i, 0, Allowed)
    {
      var j :| 0 <= j < |w.identities| && w.identities[j] == i;
      assert log[j].node == i;
    }
    forall n | n in best
      ensures Usable(w, best[n].steps) && EndOf(Last(best[n].steps)) == n && best[n].decision == Weakest(best[n].steps)
    {
      HeldIsReal(w, log, best, n);
    }
    forall steps | Usable(w, steps)
      ensures EndOf(Last(steps)) in best && AtLeastAsGood(best[EndOf(Last(steps))], ReachPath(steps, Weakest(steps)))
    {
      WalkCovered(w, log, steps);
      CoveredIsHeld(w, log, best, EndOf(Last(steps)), ReachPath(steps, Weakest(steps)));
    }
  }

  function Lookup<T>(m: map<Node, seq<T>>, n: Node): seq<T> {
    if n in m then m[n] else []
  }

  /** The order of `out.get(id)`: an edge joins the group of its kind and target when there is one, else opens a group
      at the end. */
  function Grouped(es: seq<PathEdge>, e: PathEdge): seq<PathEdge> {
    if es == [] then [e]
    else if es[|es| - 1].kind == e.kind && es[|es| - 1].to == e.to then es + [e]
    else if exists x <- es :: x.kind == e.kind && x.to == e.to then
      Grouped(es[..|es| - 1], e) + [es[|es| - 1]]
    else es + [e]
  }

  lemma GroupedMembers(es: seq<PathEdge>, e: PathEdge)
    ensures forall x :: x in Grouped(es, e) <==> x in es || x == e
  {
    if es != [] {
      GroupedMembers(es[..|es| - 1], e);
      assert es == es[..|es| - 1] + [es[|es| - 1]];
    }
  }

  method BuildOut(edges: seq<PathEdge>) returns (out: map<Node, seq<PathEdge>>)
    ensures forall n, e :: e in Lookup(out, n) <==> e in edges && e.from == n
  {
    out := map[];
    for k := 0 to |edges|
      invariant forall n, e :: e in Lookup(out, n) <==> e in edges[..k] && e.from == n
    {
      var e := edges[k];
      GroupedMembers(Lookup(out, e.from), e);
      ghost var was := out;
      out := out[e.from := Grouped(Lookup(out, e.from), e)];
      assert edges[..k + 1] == edges[..k] + [e];
      forall n, x
        ensures x in Lookup(out, n) <==> x in edges[..k + 1] && x.from == n
      {
        assert x in Lookup(was, n) <==> x in edges[..k] && x.from == n;
        if n != e.from {
          assert Lookup(out, n) == Lookup(was, n);
        }
      }
    }
    assert edges[..|edges|] == edges;
  }

  method BuildGrantsOf(grants: seq<Grant>) returns (of: map<Node, seq<Grant>>)
    ensures forall n :: Lookup(of, n) == GrantsOf(grants, n)
  {
    of := map[];
    for k := 0 to |grants|
      invariant forall n :: Lookup(of, n) == GrantsOf(grants[..k], n)
    {
      var g := grants[k];
      of := of[g.identity := Lookup(of, g.identity) + [g]];
      assert grants[..k + 1][..k] == grants[..k];
    }
    assert grants[..|grants|] == grants;
  }

  /** Some entry ever queued reaches `n` in at most `depth` steps at least as strongly as `d`. */
  ghost predicate Covers(log: seq<Entry>, n: Node, depth: nat, d: Decision) {
    exists j :: 0 <= j < |log| && log[j].node == n && log[j].depth <= depth && Rank(log[j].path.decision) >= Rank(d)
  }

  lemma CoversGrows(log: seq<Entry>, more: seq<Entry>, n: Node, depth: nat, d: Decision)
    requires Covers(log, n, depth, d)
    ensures Covers(log + more, n, depth, d)
  {
    var j :| 0 <= j < |log| && log[j].node == n && log[j].depth <= depth && Rank(log[j].path.decision) >= Rank(d);
    assert (log + more)[j] == log[j];
  }

  /** Every entry queued is a usable walk with its exact strength, as deep as it is long. */
  ghost predicate RealEntry(w: World, e: Entry) {
    && Usable(w, e.path.steps)
    && EndOf(Last(e.path.steps)) == e.node
    && e.path.decision == Weakest(e.path.steps)
    && |e.path.steps| == e.depth + 1
  }

  /** One step out of entry `e` is accounted for. */
  ghost predicate StepCovered(w: World, log: seq<Entry>, e: Entry, s: Step) {
    StepFrom(w, w.Gates(), e.node, s) && !Weaker(e.path.decision, DecisionOf(s)).Denied? ==>
      Covers(log, EndOf(s), e.depth + 1, Weaker(e.path.decision, DecisionOf(s)))
  }

  ghost predicate Expanded(w: World, log: seq<Entry>, e: Entry) {
    e.depth < MAX_STEPS ==> forall s :: StepCovered(w, log, e, s)
  }

  lemma ExpandedAtTheBound(w: World, log: seq<Entry>, e: Entry)
    requires e.depth >= MAX_STEPS
    ensures Expanded(w, log, e)
  {
  }

  lemma AllStepsCovered(w: World, log: seq<Entry>, e: Entry, next: seq<Step>)
    requires forall s :: s in next <==> StepFrom(w, w.Gates(), e.node, s)
    requires forall m :: 0 <= m < |next| ==> StepCovered(w, log, e, next[m])
    ensures Expanded(w, log, e)
  {
    forall s
      ensures StepCovered(w, log, e, s)
    {
      if s in next {
        var m :| 0 <= m < |next| && next[m] == s;
      }
    }
  }

  lemma StepCoveredGrows(w: World, log: seq<Entry>, more: seq<Entry>, e: Entry, s: Step)
    requires StepCovered(w, log, e, s)
    ensures StepCovered(w, log + more, e, s)
  {
    var d := Weaker(e.path.decision, DecisionOf(s));
    if StepFrom(w, w.Gates(), e.node, s) && !d.Denied? {
      CoversGrows(log, more, EndOf(s), e.depth + 1, d);
    }
  }

  lemma ExpandedGrows(w: World, log: seq<Entry>, more: seq<Entry>, e: Entry)
    requires Expanded(w, log, e)
    ensures Expanded(w, log + more, e)
  {
    if e.depth < MAX_STEPS {
      forall s
        ensures StepCovered(w, log + more, e, s)
      {
        StepCoveredGrows(w, log, more, e, s);
      }
    }
  }

  /** What `best` holds of the entries queued so far: for each node, one of its entries, at least as good as all of
      them; and each entry but the identities' own beat every earlier one of its node. */
  ghost predicate BestOf(log: seq<Entry>, best: map<Node, ReachPath>) {
    && (forall j :: 0 <= j < |log| ==> log[j].node in best && AtLeastAsGood(best[log[j].node], log[j].path))
    && (forall n <- best :: exists j :: 0 <= j < |log| && log[j].node == n && log[j].path == best[n])
  }

  ghost predicate Improving(log: seq<Entry>) {
    forall i, j :: 0 <= i < j < |log| && log[i].node == log[j].node && log[j].depth > 0 ==>
      !AtLeastAsGood(log[i].path, log[j].path)
  }

  ghost predicate DepthSorted(log: seq<Entry>) {
    forall i, j :: 0 <= i < j < |log| ==> log[i].depth <= log[j].depth
  }

  /** A walk of the reference is matched, step by step, by entries the worklist queued and expanded. */
  lemma {:induction false} WalkCovered(w: World, log: seq<Entry>, steps: seq<Step>)
    requires Usable(w, steps)
    requires forall i <- w.identities :: Covers(log, i, 0, Allowed)
    requires forall e <- log :: Expanded(w, log, e)
    ensures Covers(log, EndOf(Last(steps)), |steps| - 1, Weakest(steps))
    decreases |steps|
  {
    var n := |steps|;
    if n == 1 {
      assert steps[..0] == [];
    } else {
      var before := steps[..n - 1];
      assert Weakest(steps) == Weaker(Weakest(before), DecisionOf(steps[n - 1]));
      WalkCovered(w, log, before);
      var j :| 0 <= j < |log| && log[j].node == EndOf(Last(before)) && log[j].depth <= n - 2
               && Rank(log[j].path.decision) >= Rank(Weakest(before));
      assert Expanded(w, log, log[j]);
      assert StepFrom(w, w.Gates(), EndOf(steps[n - 2]), steps[n - 1]);
      assert StepCovered(w, log, log[j], steps[n - 1]);
    }
  }

  /** The ways out of one node, as the loop collects them; the gates are read before this node's own project grants
      are written. */
  method NextSteps(es: seq<PathEdge>, gs: seq<Grant>, entry: map<string, Grant>)
    returns (next: seq<Step>, entryAfter: map<string, Grant>)
    ensures entryAfter == Entered(entry, gs)
    ensures forall s :: s in next <==>
      || (s.Crosses? && s.edge in es && Crossable(entry, s.edge))
      || (s.Enters? && s.grant in gs && Opens(s.grant))
  {
    next, entryAfter := [], entry;
    for k := 0 to |es|
      invariant forall s :: s in next <==> s.Crosses? && s.edge in es[..k] && Crossable(entry, s.edge)
    {
      assert es[..k + 1] == es[..k] + [es[k]];
      if Crossable(entry, es[k]) {
        next := next + [Crosses(es[k])];
      }
    }
    assert es[..|es|] == es;
    for k := 0 to |gs|
      invariant entryAfter == Entered(entry, gs[..k])
      invariant forall s :: s in next <==>
        || (s.Crosses? && s.edge in es && Crossable(entry, s.edge))
        || (s.Enters? && s.grant in gs[..k] && Opens(s.grant))
    {
      assert gs[..k + 1] == gs[..k] + [gs[k]];
      assert gs[..k + 1][..k] == gs[..k];
      if Opens(gs[k]) {
        entryAfter := entryAfter[gs[k].target := gs[k]];
        next := next + [Enters(gs[k])];
      }
    }
    assert gs[..|gs|] == gs;
  }

  /** Extending a usable walk by one step that may be taken. */
  lemma WalkExtends(w: World, e: Entry, s: Step)
    requires RealEntry(w, e) && e.depth < MAX_STEPS
    requires StepFrom(w, w.Gates(), e.node, s) && !Weaker(e.path.decision, DecisionOf(s)).Denied?
    ensures RealEntry(w, Entry(EndOf(s), ReachPath(e.path.steps + [s], Weaker(e.path.decision, DecisionOf(s))),
        e.depth + 1))
  {
    var steps := e.path.steps + [s];
    assert steps[..|steps| - 1] == e.path.steps;
    forall k | 1 <= k < |steps|
      ensures StepFrom(w, w.Gates(), EndOf(steps[k - 1]), steps[k])
    {
      if k < |steps| - 1 {
        assert StepFrom(w, w.Gates(), EndOf(e.path.steps[k - 1]), e.path.steps[k]);
      }
    }
  }

  lemma IdentityEntry(w: World, i: Node)
    requires i in w.identities
    ensures RealEntry(w, Entry(i, ReachPath([Start(i)], Allowed), 0))
  {
    assert [Start(i)][..0] == [];
    assert Weakest([Start(i)]) == Weaker(Weakest([]), Allowed);
    assert IsWalk(w, [Start(i)]);
  }

  /** A node reached by a step is never a member, so it brings no project role of its own. */
  lemma ReachedIsNoMember(w: World, e: Entry)
    requires w.WellShaped() && RealEntry(w, e) && e.depth > 0
    ensures !e.node.Member?
    ensures forall g <- GrantsOf(w.grants, e.node) :: !Opens(g)
  {
    var steps := e.path.steps;
    assert StepFrom(w, w.Gates(), EndOf(steps[|steps| - 2]), steps[|steps| - 1]);
    GrantsOfMembers(w.grants, e.node);
  }

  /** The gates read while the worklist runs decide every step as the final gates do: an identity is no project, and a
      node reached by a step writes no gate. */
  lemma GatesAgree(w: World, done: nat, e: Entry, entry: map<string, Grant>)
    requires w.WellShaped() && RealEntry(w, e)
    requires entry == w.GatesUpTo(if done <= |w.identities| then done else |w.identities|)
    requires if done < |w.identities| then e.node == w.identities[done] else e.depth > 0
    ensures Entered(entry, GrantsOf(w.grants, e.node)) ==
            w.GatesUpTo(if done + 1 <= |w.identities| then done + 1 else |w.identities|)
    ensures forall s :: StepFrom(w, entry, e.node, s) <==> StepFrom(w, w.Gates(), e.node, s)
  {
    hide RealEntry, Opens, Entered, GrantsOf;
    if done < |w.identities| {
      assert !e.node.Project?;
    } else {
      ReachedIsNoMember(w, e);
      EnteredNothing(entry, GrantsOf(w.grants, e.node));
    }
  }

  lemma NextAreStepsFrom(w: World, entry: map<string, Grant>, n: Node, es: seq<PathEdge>, gs: seq<Grant>,
                         next: seq<Step>)
    requires forall e :: e in es <==> e in w.edges && e.from == n
    requires gs == GrantsOf(w.grants, n)
    requires forall s :: s in next <==>
      || (s.Crosses? && s.edge in es && Crossable(entry, s.edge))
      || (s.Enters? && s.grant in gs && Opens(s.grant))
    ensures forall s :: s in next <==> StepFrom(w, entry, n, s)
  {
    GrantsOfMembers(w.grants, n);
  }

  /** `best` and the order of its keys, against everything ever queued. */
  ghost predicate Kept(log: seq<Entry>, best: map<Node, ReachPath>, order: seq<Node>) {
    && DepthSorted(log) && Improving(log) && BestOf(log, best)
    && (forall i, j :: 0 <= i < j < |order| ==> order[i] != order[j])
    && (forall n :: n in order <==> n in best)
  }

  /** The state of the worklist between two entries: `log` is everything ever queued. */
  ghost predicate Consistent(w: World, log: seq<Entry>, best: map<Node, ReachPath>, order: seq<Node>) {
    (forall e <- log :: RealEntry(w, e)) && Kept(log, best, order)
  }

  lemma QueuedIsReal(w: World, log: seq<Entry>, best: map<Node, ReachPath>, order: seq<Node>, j: nat)
    requires Consistent(w, log, best, order) && j < |log|
    ensures RealEntry(w, log[j]) && log[j].depth <= MAX_STEPS
  {
  }

  lemma LogIsSound(w: World, log: seq<Entry>, best: map<Node, ReachPath>, order: seq<Node>)
    requires Consistent(w, log, best, order)
    ensures (forall i, j :: 0 <= i < j < |order| ==> order[i] != order[j]) && forall n :: n in order <==> n in best
    ensures (forall e <- log :: RealEntry(w, e)) && DepthSorted(log) && Improving(log)
  {
  }

  lemma BestKept(log: seq<Entry>, best: map<Node, ReachPath>, e: Entry)
    requires BestOf(log, best) && Improving(log)
    requires e.node in best ==> !AtLeastAsGood(best[e.node], e.path)
    ensures BestOf(log + [e], best[e.node := e.path]) && Improving(log + [e])
  {
    var logAfter := log + [e];
    forall i, j | 0 <= i < j < |logAfter| && logAfter[i].node == logAfter[j].node && logAfter[j].depth > 0
      ensures !AtLeastAsGood(logAfter[i].path, logAfter[j].path)
    {
      assert logAfter[i] == log[i];
      if j < |log| {
        assert logAfter[j] == log[j];
      }
    }
    var bestAfter := best[e.node := e.path];
    forall x | x in bestAfter
      ensures exists j :: 0 <= j < |logAfter| && logAfter[j].node == x && logAfter[j].path == bestAfter[x]
    {
      if x == e.node {
        assert logAfter[|log|] == e;
      } else {
        var j :| 0 <= j < |log| && log[j].node == x && log[j].path == best[x];
        assert logAfter[j] == log[j];
      }
    }
  }

  lemma DroppedIsCovered(log: seq<Entry>, best: map<Node, ReachPath>, n: Node, p: ReachPath, depth: nat)
    requires BestOf(log, best) && n in best && AtLeastAsGood(best[n], p)
    requires forall j :: 0 <= j < |log| ==> log[j].depth <= depth
    ensures Covers(log, n, depth, p.decision)
  {
    var j :| 0 <= j < |log| && log[j].node == n && log[j].path == best[n];
  }

  lemma QueuedIsCovered(log: seq<Entry>, e: Entry)
    ensures Covers(log + [e], e.node, e.depth, e.path.decision)
  {
    assert (log + [e])[|log|] == e;
  }

  /** Offering one path to `best`: kept and queued when it beats what is held, dropped otherwise. */
  method Offer(w: World, from: Entry, s: Step, best: map<Node, ReachPath>, order: seq<Node>, queue: seq<Entry>,
               ghost log: seq<Entry>)
    returns (bestAfter: map<Node, ReachPath>, orderAfter: seq<Node>, queueAfter: seq<Entry>, ghost more: seq<Entry>)
    requires Consistent(w, log, best, order)
    requires RealEntry(w, from) && from.depth < MAX_STEPS && StepFrom(w, w.Gates(), from.node, s)
    requires forall j :: 0 <= j < |log| ==> log[j].depth <= from.depth + 1
    ensures queueAfter == queue + more && |more| <= 1 && forall e <- more :: e.depth == from.depth + 1
    ensures Consistent(w, log + more, bestAfter, orderAfter)
    ensures StepCovered(w, log + more, from, s)
  {
    hide BestOf, Improving, RealEntry, Covers, StepFrom;
    bestAfter, orderAfter, queueAfter, more := best, order, queue, [];
    var p := ReachPath(from.path.steps + [s], Weaker(from.path.decision, DecisionOf(s)));
    var n := EndOf(s);
    if p.decision.Denied? || (n in best && AtLeastAsGood(best[n], p)) {
      assert log + more == log;
      if !p.decision.Denied? {
        DroppedIsCovered(log, best, n, p, from.depth + 1);
      }
    } else {
      if n !in best {
        orderAfter := order + [n];
      }
      var e := Entry(n, p, from.depth + 1);
      bestAfter := best[n := p];
      queueAfter := queue + [e];
      more := [e];
      WalkExtends(w, from, s);
      QueuedIsCovered(log, e);
      BestKept(log, best, e);
    }
  }

  lemma IdentityKept(log: seq<Entry>, best: map<Node, ReachPath>, i: Node)
    requires BestOf(log, best) && Improving(log)
    requires forall e <- log :: e.depth == 0 && e.path == ReachPath([Start(e.node)], Allowed)
    ensures BestOf(log + [Entry(i, ReachPath([Start(i)], Allowed), 0)], best[i := ReachPath([Start(i)], Allowed)])
    ensures Improving(log + [Entry(i, ReachPath([Start(i)], Allowed), 0)])
  {
    var e := Entry(i, ReachPath([Start(i)], Allowed), 0);
    var bestAfter := best[i := e.path];
    forall x | x in bestAfter
      ensures exists j :: 0 <= j < |log + [e]| && (log + [e])[j].node == x && (log + [e])[j].path == bestAfter[x]
    {
      if x == i {
        assert (log + [e])[|log|].node == x;
      } else {
        var j :| 0 <= j < |log| && log[j].node == x && log[j].path == best[x];
        assert (log + [e])[j] == log[j];
      }
    }
  }

  lemma NothingQueued()
    ensures Kept([], map[], [])
  {
  }

  /** The identities themselves, allowed and one step long, in the person's order. */
  method Begin(w: World)
    returns (best: map<Node, ReachPath>, order: seq<Node>, queue: seq<Entry>, ghost log: seq<Entry>)
    ensures queue == log && |log| == |w.identities|
    ensures Consistent(w, log, best, order)
    ensures forall j :: 0 <= j < |w.identities| ==>
      log[j] == Entry(w.identities[j], ReachPath([Start(w.identities[j])], Allowed), 0)
  {
    hide RealEntry, BestOf, Improving;
    best, order, queue, log := map[], [], [], [];
    NothingQueued();
    for k := 0 to |w.identities|
      invariant queue == log && |log| == k
      invariant Kept(log, best, order)
      invariant forall j :: 0 <= j < k ==>
          log[j] == Entry(w.identities[j], ReachPath([Start(w.identities[j])], Allowed), 0)
    {
      var i := w.identities[k];
      var p := ReachPath([Start(i)], Allowed);
      if i !in best {
        order := order + [i];
      }
      IdentityKept(log, best, i);
      best := best[i := p];
      queue := queue + [Entry(i, p, 0)];
      log := log + [Entry(i, p, 0)];
    }
    forall e | e in log
      ensures RealEntry(w, e)
    {
      IdentityEntry(w, e.node);
    }
  }

  /** One node's ways out, each offered to `best` in turn. */
  method Expand(w: World, head: Entry, next: seq<Step>, best0: map<Node, ReachPath>, order0: seq<Node>,
                queue0: seq<Entry>, ghost log: seq<Entry>)
    returns (best: map<Node, ReachPath>, order: seq<Node>, queue: seq<Entry>, ghost more: seq<Entry>)
    requires Consistent(w, log, best0, order0)
    requires RealEntry(w, head) && head.depth < MAX_STEPS
    requires forall s :: s in next <==> StepFrom(w, w.Gates(), head.node, s)
    requires forall j :: 0 <= j < |log| ==> log[j].depth <= head.depth + 1
    ensures queue == queue0 + more && forall e <- more :: e.depth == head.depth + 1
    ensures Consistent(w, log + more, best, order)
    ensures Expanded(w, log + more, head)
  {
    hide *;
    best, order, queue, more := best0, order0, queue0, [];
    assert log + [] == log;
    for k := 0 to |next|
      invariant queue == queue0 + more
      invariant forall e <- more :: e.depth == head.depth + 1
      invariant Consistent(w, log + more, best, order)
      invariant forall m :: 0 <= m < k ==> StepCovered(w, log + more, head, next[m])
    {
      ghost var one;
      assert next[k] in next;
      best, order, queue, one := Offer(w, head, next[k], best, order, queue, log + more);
      forall m | 0 <= m < k
        ensures StepCovered(w, log + (more + one), head, next[m])
      {
        StepCoveredGrows(w, log + more, one, head, next[m]);
        assert (log + more) + one == log + (more + one);
      }
      assert (log + more) + one == log + (more + one);
      more := more + one;
    }
    AllStepsCovered(w, log + more, head, next);
  }

  /** The shape of the queue: the identities' entries first, then one level after the other; `done` entries are
      shifted, the rest of the current level ends at `levelEnd`, and everything behind it is one step deeper. */
  ghost predicate Frontier(w: World, log: seq<Entry>, done: nat, level: nat, levelEnd: nat) {
    && done <= levelEnd <= |log| && |w.identities| <= |log| && level <= MAX_STEPS
    && (forall j :: 0 <= j < |w.identities| ==>
          log[j] == Entry(w.identities[j], ReachPath([Start(w.identities[j])], Allowed), 0))
    && (forall j :: |w.identities| <= j < |log| ==> log[j].depth > 0)
    && (forall j :: 0 <= j < levelEnd ==> log[j].depth <= level)
    && (forall j :: done <= j < levelEnd ==> log[j].depth == level)
    && (forall j :: levelEnd <= j < |log| ==> log[j].depth == level + 1)
  }

  lemma FrontierBegins(w: World, log: seq<Entry>)
    requires |log| == |w.identities|
    requires forall j :: 0 <= j < |w.identities| ==>
      log[j] == Entry(w.identities[j], ReachPath([Start(w.identities[j])], Allowed), 0)
    ensures Frontier(w, log, 0, 0, |log|)
  {
  }

  lemma NoGateYet(w: World)
    ensures w.GatesUpTo(0) == map[]
  {
  }

  lemma FrontierDeepens(w: World, log: seq<Entry>, done: nat, level: nat)
    requires Frontier(w, log, done, level, done) && done < |log| && RealEntry(w, log[done]) &&
        log[done].depth <= MAX_STEPS
    ensures Frontier(w, log, done, level + 1, |log|)
  {
    assert log[done].depth == level + 1;
  }

  lemma FrontierHead(w: World, log: seq<Entry>, done: nat, level: nat, levelEnd: nat)
    requires Frontier(w, log, done, level, levelEnd) && done < levelEnd
    ensures log[done].depth == level
    ensures if done < |w.identities| then log[done].node == w.identities[done] else log[done].depth > 0
    ensures done < |w.identities| ==> log[done].depth < MAX_STEPS
    ensures forall j :: 0 <= j < |log| ==> log[j].depth <= level + 1
  {
  }

  lemma FrontierShifts(w: World, log: seq<Entry>, more: seq<Entry>, done: nat, level: nat, levelEnd: nat)
    requires Frontier(w, log, done, level, levelEnd) && done < levelEnd
    requires forall e <- more :: e.depth == level + 1
    ensures Frontier(w, log + more, done + 1, level, levelEnd)
  {
  }

  lemma IdentitiesFirst(w: World, log: seq<Entry>, done: nat, level: nat, levelEnd: nat)
    requires Frontier(w, log, done, level, levelEnd)
    ensures |w.identities| <= |log|
    ensures forall j :: 0 <= j < |w.identities| ==>
      log[j] == Entry(w.identities[j], ReachPath([Start(w.identities[j])], Allowed), 0)
  {
  }

  lemma HeldIsReal(w: World, log: seq<Entry>, best: map<Node, ReachPath>, n: Node)
    requires (forall e <- log :: RealEntry(w, e)) && BestOf(log, best) && n in best
    ensures Usable(w, best[n].steps) && EndOf(Last(best[n].steps)) == n && best[n].decision == Weakest(best[n].steps)
  {
    var j :| 0 <= j < |log| && log[j].node == n && log[j].path == best[n];
    assert RealEntry(w, log[j]);
  }

  lemma CoveredIsHeld(w: World, log: seq<Entry>, best: map<Node, ReachPath>, n: Node, p: ReachPath)
    requires (forall e <- log :: RealEntry(w, e)) && BestOf(log, best)
    requires p.steps != [] && Covers(log, n, |p.steps| - 1, p.decision)
    ensures n in best && AtLeastAsGood(best[n], p)
  {
    var j :| 0 <= j < |log| && log[j].node == n && log[j].depth <= |p.steps| - 1
             && Rank(log[j].path.decision) >= Rank(p.decision);
    assert RealEntry(w, log[j]);
  }
}
