/** A recommendation's chat thread, `src/chat.ts`: what its agent session has been told of the plan and of the steps'
    outcomes, although a resumed turn's brief says only what changed. */
module ChatSession {
  import opened Options

  // ---- what a brief says --------------------------------------------------------------------------------------------

  /** What is stored of a brief: the plan's resolution, without what the plan says, and the outcomes of its steps. */
  datatype Told = Told(resolutionId: Option<nat>, outcomes: string)

  datatype Progress = Progress(plan: nat, outcomes: string)

  /** A completed plan: its resolution and what it says, which another answer can overwrite. */
  datatype Plan = Plan(resolutionId: nat, text: string)

  /** The latest completed plan and the recommendation's recorded progress. */
  datatype World = World(plan: Option<Plan>, progress: Option<Progress>)

  function IdOf(plan: Option<Plan>): Option<nat> {
    if plan.None? then None else Some(plan.value.resolutionId)
  }

  function OutcomesForPlan(w: World): string {
    if w.plan.Some? && w.progress.Some? && w.progress.value.plan == w.plan.value.resolutionId
    then w.progress.value.outcomes else ""
  }

  /** The outcomes are those recorded for the world's own plan: nothing without a plan, without progress, or while the
      progress is that of another resolution. */
  predicate AreOutcomes(w: World, outcomes: string) {
    match w
    case World(Some(plan), Some(progress)) =>
      (progress.plan == plan.resolutionId ==> outcomes == progress.outcomes) &&
      (progress.plan != plan.resolutionId ==> outcomes == "")
    case _ => outcomes == ""
  }

  lemma OutcomesMeaning(w: World)
    ensures AreOutcomes(w, OutcomesForPlan(w))
    ensures IdOf(w.plan) == match w.plan case None => None case Some(plan) => Some(plan.resolutionId)
  {
  }

  function SessionStateFor(w: World): Told {
    Told(IdOf(w.plan), OutcomesForPlan(w))
  }

  datatype Line =
    | Heading
    | Facts
    | PlanIs(plan: Option<Plan>)
    | TriedIs(outcomes: string)
    | Conversation
    | NewMessage

  /** The whole brief, or with `resumed`, what the session was last told, only what differs from it. */
  function BriefFor(w: World, resumed: Option<Told>): seq<Line> {
    if resumed.None? then [Heading, Facts, PlanIs(w.plan), TriedIs(OutcomesForPlan(w)), Conversation, NewMessage]
    else
      var planChanged := IdOf(w.plan) != resumed.value.resolutionId;
      [Heading]
      + (if planChanged then [PlanIs(w.plan)] else [])
      + (if planChanged || OutcomesForPlan(w) != resumed.value.outcomes then [TriedIs(OutcomesForPlan(w))] else [])
      + [NewMessage]
  }

  // ---- what a session knows -----------------------------------------------------------------------------------------

  /** What the briefs of a session have said last, if anything. */
  datatype Knowledge = Knowledge(plan: Option<Option<Plan>>, outcomes: Option<string>)

  function Hear(k: Knowledge, line: Line): Knowledge {
    match line
    case PlanIs(p) => k.(plan := Some(p))
    case TriedIs(o) => k.(outcomes := Some(o))
    case _ => k
  }

  function HearAll(k: Knowledge, lines: seq<Line>): Knowledge
    decreases |lines|
  {
    if lines == [] then k else HearAll(Hear(k, lines[0]), lines[1..])
  }

  const NOTHING := Knowledge(None, None)

  /** The session was last told of this resolution's plan. */
  predicate KnowsPlan(k: Knowledge, resolutionId: Option<nat>) {
    k.plan.Some? && IdOf(k.plan.value) == resolutionId
  }

  /** And of these outcomes. */
  predicate Knows(k: Knowledge, t: Told) {
    KnowsPlan(k, t.resolutionId) && k.outcomes == Some(t.outcomes)
  }

  function KnowsAll(w: World): Knowledge {
    Knowledge(Some(w.plan), Some(OutcomesForPlan(w)))
  }

  lemma {:induction false} HearConcat(k: Knowledge, a: seq<Line>, b: seq<Line>)
    ensures HearAll(k, a + b) == HearAll(HearAll(k, a), b)
    decreases |a|
  {
    if a == [] {
      assert a + b == b;
    } else {
      assert (a + b)[1..] == a[1..] + b;
      HearConcat(Hear(k, a[0]), a[1..], b);
    }
  }

  lemma HearOne(k: Knowledge, line: Line)
    ensures HearAll(k, [line]) == Hear(k, line)
  {
    assert [line][1..] == [];
  }

  /** Whatever a session knew, the whole brief tells it everything. */
  lemma FullBriefTells(k: Knowledge, w: World)
    ensures HearAll(k, BriefFor(w, None)) == KnowsAll(w)
  {
    var plan, tried := PlanIs(w.plan), TriedIs(OutcomesForPlan(w));
    assert BriefFor(w, None) == [Heading] + ([Facts] + ([plan] + ([tried] + ([Conversation] + [NewMessage]))));
    HearConcat(k, [Heading], [Facts] + ([plan] + ([tried] + ([Conversation] + [NewMessage]))));
    HearOne(k, Heading);
    HearConcat(k, [Facts], [plan] + ([tried] + ([Conversation] + [NewMessage])));
    HearOne(k, Facts);
    HearConcat(k, [plan], [tried] + ([Conversation] + [NewMessage]));
    HearOne(k, plan);
    var k1 := Hear(k, plan);
    HearConcat(k1, [tried], [Conversation] + [NewMessage]);
    HearOne(k1, tried);
    var k2 := Hear(k1, tried);
    HearConcat(k2, [Conversation], [NewMessage]);
    HearOne(k2, Conversation);
    HearOne(k2, NewMessage);
  }

  /** What a follow-up leaves a session knowing. */
  lemma FollowUpTells(k: Knowledge, w: World, resumed: Told)
    ensures var planChanged := IdOf(w.plan) != resumed.resolutionId;
      HearAll(k, BriefFor(w, Some(resumed))) ==
      Knowledge(if planChanged then Some(w.plan) else k.plan,
                if planChanged || OutcomesForPlan(w) != resumed.outcomes then Some(OutcomesForPlan(w)) else k.outcomes)
  {
    var planChanged := IdOf(w.plan) != resumed.resolutionId;
    var a := if planChanged then [PlanIs(w.plan)] else [];
    var b := if planChanged || OutcomesForPlan(w) != resumed.outcomes then [TriedIs(OutcomesForPlan(w))] else [];
    assert BriefFor(w, Some(resumed)) == [Heading] + (a + (b + [NewMessage]));
    HearConcat(k, [Heading], a + (b + [NewMessage]));
    HearOne(k, Heading);
    HearConcat(k, a, b + [NewMessage]);
    HearOne(k, PlanIs(w.plan));
    var k1 := HearAll(k, a);
    HearConcat(k1, b, [NewMessage]);
    HearOne(k1, TriedIs(OutcomesForPlan(w)));
    HearOne(HearAll(k1, b), NewMessage);
  }

  /** A follow-up leaves the session knowing the current state exactly when, wherever the stored state is what it is
      now, the session knew it already; knowing the stored state is enough. It knows what the current plan says
      exactly when, where the stored resolution is the current one, it knew that already. */
  lemma FollowUpTellsIff(k: Knowledge, w: World, resumed: Told)
    ensures Knows(HearAll(k, BriefFor(w, Some(resumed))), SessionStateFor(w))
            <==> (IdOf(w.plan) == resumed.resolutionId ==> KnowsPlan(k, IdOf(w.plan)))
                 && (resumed == SessionStateFor(w) ==> k.outcomes == Some(OutcomesForPlan(w)))
    ensures Knows(k, resumed) ==> Knows(HearAll(k, BriefFor(w, Some(resumed))), SessionStateFor(w))
    ensures HearAll(k, BriefFor(w, Some(resumed))).plan == Some(w.plan)
            <==> (IdOf(w.plan) == resumed.resolutionId ==> k.plan == Some(w.plan))
  {
    FollowUpTells(k, w, resumed);
  }

  /** What a session knows after a brief: everything after a whole one; after a follow-up, what differed from what it
      was last told, and otherwise what it knew. */
  function Tells(k: Knowledge, w: World, resumed: Option<Told>): Knowledge {
    if resumed.None? || IdOf(w.plan) != resumed.value.resolutionId then KnowsAll(w)
    else if SessionStateFor(w) != resumed.value then k.(outcomes := Some(OutcomesForPlan(w)))
    else k
  }

  lemma BriefTells(k: Knowledge, w: World, resumed: Option<Told>)
    ensures HearAll(k, BriefFor(w, resumed)) == Tells(k, w, resumed)
  {
    hide HearAll, BriefFor;
    if resumed.None? {
      FullBriefTells(k, w);
    } else {
      FollowUpTells(k, w, resumed.value);
    }
  }

  /** The plan and the outcomes a brief says are the world's own. */
  lemma BriefSays(w: World, resumed: Option<Told>)
    ensures forall p :: PlanIs(p) in BriefFor(w, resumed) ==> p == w.plan
    ensures forall o :: TriedIs(o) in BriefFor(w, resumed) ==> AreOutcomes(w, o)
  {
    OutcomesMeaning(w);
    hide OutcomesForPlan, AreOutcomes, IdOf;
  }

  /** The brief of one turn. Whatever the session knew, hearing it leaves what `Tells` says; the plan is said exactly
      when nothing was told or another plan was, the outcomes exactly when what was told is not the current state, the
      facts and the conversation only to a new session; and it ends with the message. */
  method BuildChatPrompt(w: World, resumed: Option<Told>) returns (lines: seq<Line>)
    ensures forall k :: HearAll(k, lines) == Tells(k, w, resumed)
    ensures (exists p :: PlanIs(p) in lines) <==> resumed.None? || IdOf(w.plan) != resumed.value.resolutionId
    ensures (exists o :: TriedIs(o) in lines) <==> resumed.None? || SessionStateFor(w) != resumed.value
    ensures forall p :: PlanIs(p) in lines ==> p == w.plan
    ensures forall o :: TriedIs(o) in lines ==> AreOutcomes(w, o)
    ensures (Facts in lines <==> resumed.None?) && (Conversation in lines <==> resumed.None?)
    ensures lines != [] && lines[|lines| - 1] == NewMessage
  {
    var tried := OutcomesForPlan(w);
    lines := [Heading];
    if resumed.Some? {
      var planChanged := IdOf(w.plan) != resumed.value.resolutionId;
      if planChanged {
        lines := lines + [PlanIs(w.plan)];
        assert PlanIs(w.plan) in lines;
      }
      if planChanged || tried != resumed.value.outcomes {
        lines := lines + [TriedIs(tried)];
        assert TriedIs(tried) in lines;
      }
      lines := lines + [NewMessage];
    } else {
      lines := lines + [Facts, PlanIs(w.plan), TriedIs(tried), Conversation, NewMessage];
      assert lines[2] == PlanIs(w.plan) && lines[3] == TriedIs(tried) && lines[4] == Conversation;
    }
    assert lines == BriefFor(w, resumed);
    BriefSays(w, resumed);
    hide BriefFor, AreOutcomes;
    forall k
      ensures HearAll(k, lines) == Tells(k, w, resumed)
    {
      BriefTells(k, w, resumed);
    }
  }

  // ---- turns --------------------------------------------------------------------------------------------------------

  datatype Role = User | Agent
  datatype Status = Pending | Completed | Failed
  datatype Message = Message(role: Role, status: Status)

  /** How posting the request went: answered with a request id, not delivered, or delivered and then failed. */
  datatype Post = Answered | NotDelivered | Broken

  /** The thread's rows, the state of the world, and what every session has been told. */
  datatype Chat = Chat(messages: seq<Message>, session: Option<nat>, stored: Option<Told>, world: World, begun: nat,
                       knows: map<nat, Knowledge>)

  datatype Event = Change(world: World) | Turn(alive: bool, post: Post) | Reply(ok: bool)

  /** How many messages `listMessages` reads: the oldest ones. */
  const LIMIT := 300

  function Past(messages: seq<Message>): seq<Message> {
    if |messages| <= LIMIT then messages else messages[..LIMIT]
  }

  function LastAgent(messages: seq<Message>): Option<Message> {
    if messages == [] then None
    else if messages[|messages| - 1].role.Agent? then Some(messages[|messages| - 1])
    else LastAgent(messages[..|messages| - 1])
  }

  predicate Waiting(c: Chat) {
    exists m <- c.messages :: m.status.Pending?
  }

  predicate Resumes(c: Chat, alive: bool) {
    c.session.Some? && LastAgent(Past(c.messages)) == Some(Message(Agent, Completed)) && alive
  }

  function SessionId(c: Chat, alive: bool): nat {
    if Resumes(c, alive) then c.session.value else c.begun
  }

  function Brief(c: Chat, alive: bool): seq<Line> {
    BriefFor(c.world, if Resumes(c, alive) then Some(c.stored.GetOr(Told(None, ""))) else None)
  }

  function Known(c: Chat, session: nat): Knowledge {
    if session in c.knows then c.knows[session] else NOTHING
  }

  function AfterTurn(c: Chat, alive: bool, post: Post): Chat {
    if Waiting(c) then c
    else
      var id := SessionId(c, alive);
      var heard := if post.NotDelivered? then c.knows else c.knows[id := HearAll(Known(c, id), Brief(c, alive))];
      var asked := c.(messages := c.messages + [Message(User, Completed),
          Message(Agent, if post.Answered? then Pending else Failed)],
                      knows := heard,
                      begun := if Resumes(c, alive) then c.begun else c.begun + 1);
      if post.Answered? then asked.(session := Some(id), stored := Some(SessionStateFor(c.world))) else asked
  }

  function WithReply(messages: seq<Message>, ok: bool): seq<Message> {
    seq(|messages|, i requires 0 <= i < |messages| =>
          if messages[i].status.Pending? then messages[i].(status := if ok then Completed else Failed) else messages[i])
  }

  function After(c: Chat, e: Event): Chat {
    match e
    case Change(w) => c.(world := w)
    case Turn(alive, post) => AfterTurn(c, alive, post)
    case Reply(ok) => c.(messages := WithReply(c.messages, ok))
  }

  const START := Chat([], None, None, World(None, None), 0, map[])

  function Reached(events: seq<Event>): Chat {
    if events == [] then START else After(Reached(events[..|events| - 1]), events[|events| - 1])
  }

  // ---- what the session has been told -------------------------------------------------------------------------------

  /** The session, the stored state and the world agree on which plan it is and on its outcomes. */
  ghost predicate UpToDate(c: Chat) {
    && c.session.Some? && c.stored == Some(SessionStateFor(c.world))
    && Knows(Known(c, c.session.value), SessionStateFor(c.world))
  }

  /** The session knows what is stored. */
  ghost predicate InStep(c: Chat) {
    c.session.Some? ==> c.stored.Some? && Knows(Known(c, c.session.value), c.stored.value)
  }

  ghost predicate LastFailed(c: Chat) {
    LastAgent(c.messages).Some? && LastAgent(c.messages).value.status.Failed?
  }

  /** What every history keeps: sessions are numbered as they are opened, and the session is in step unless the last
      turn failed. */
  ghost predicate Sound(c: Chat) {
    && (c.session.Some? ==> c.session.value < c.begun)
    && (!LastFailed(c) ==> InStep(c))
  }

  /** A turn that is taken and answered. */
  ghost predicate TurnAnswered(c: Chat, e: Event) {
    e.Turn? && e.post.Answered? && !Waiting(c)
  }

  /** A session in step, or none resumed, is up to date after the turn. */
  lemma TurnTells(c: Chat, alive: bool)
    requires !Waiting(c) && (Resumes(c, alive) ==> InStep(c))
    ensures UpToDate(AfterTurn(c, alive, Answered))
  {
    hide HearAll, BriefFor, LastAgent;
    if Resumes(c, alive) {
      FollowUpTellsIff(Known(c, c.session.value), c.world, c.stored.value);
    } else {
      FullBriefTells(Known(c, c.begun), c.world);
    }
  }

  lemma LastOfTurn(messages: seq<Message>, status: Status)
    ensures LastAgent(messages + [Message(User, Completed), Message(Agent, status)]) == Some(Message(Agent, status))
  {
  }

  lemma {:induction false} LastOfReply(messages: seq<Message>, ok: bool)
    ensures var before, after := LastAgent(messages), LastAgent(WithReply(messages, ok));
      && (before.None? <==> after.None?)
      && (before.Some? && before.value.status.Failed? ==> after == before)
  {
    if messages != [] {
      var n := |messages| - 1;
      assert WithReply(messages, ok)[..n] == WithReply(messages[..n], ok);
      LastOfReply(messages[..n], ok);
    }
  }

  lemma TurnIsSound(c: Chat, alive: bool, post: Post)
    requires Sound(c) && (|c.messages| <= LIMIT || InStep(c))
    ensures Sound(AfterTurn(c, alive, post))
    ensures InStep(c) && !post.Broken? ==> InStep(AfterTurn(c, alive, post))
  {
    hide LastAgent, HearAll, BriefFor;
    if !Waiting(c) {
      LastOfTurn(c.messages, if post.Answered? then Pending else Failed);
      if post.Answered? {
        assert Past(c.messages) == c.messages || InStep(c);
        TurnTells(c, alive);
      }
    }
  }

  /** Up to 300 messages, and beyond them as long as no post broke off after it was delivered, a history is sound. */
  lemma {:induction false} HistoryIsSound(events: seq<Event>)
    ensures |Reached(events).messages| <= LIMIT + 2 ==> Sound(Reached(events))
    ensures NoneBroken(events) ==> Sound(Reached(events)) && InStep(Reached(events))
  {
    hide LastAgent, AfterTurn;
    if events != [] {
      var n := |events| - 1;
      var c := Reached(events[..n]);
      assert events == events[..n] + [events[n]];
      HistoryIsSound(events[..n]);
      match events[n]
      case Change(w) =>
      case Turn(alive, post) =>
        Grows(c, alive, post);
        if Sound(c) && (|c.messages| <= LIMIT || InStep(c)) {
          TurnIsSound(c, alive, post);
        }
      case Reply(ok) => LastOfReply(c.messages, ok);
    }
  }

  ghost predicate NoneBroken(events: seq<Event>) {
    forall e <- events :: e.Turn? ==> !e.post.Broken?
  }

  lemma Grows(c: Chat, alive: bool, post: Post)
    ensures |AfterTurn(c, alive, post).messages| == |c.messages| + if Waiting(c) then 0 else 2
    ensures Waiting(c) ==> AfterTurn(c, alive, post) == c
  {
    hide HearAll, BriefFor;
  }

  // ---- what went unnoticed ------------------------------------------------------------------------------------------

  function OtherPlans(missed: seq<World>, plan: Option<nat>): seq<World> {
    if missed == [] then []
    else OtherPlans(missed[..|missed| - 1], plan)
         + if IdOf(missed[|missed| - 1].plan) != plan then [missed[|missed| - 1]] else []
  }

  /** The worlds a history's broken posts told the thread's session without its being stored. A whole brief, or a
      follow-up with another plan, tells the session everything again; one with other outcomes of the stored plan
      leaves only the worlds of other plans. */
  function Missed(events: seq<Event>): seq<World> {
    if events == [] then []
    else
      var c, e := Reached(events[..|events| - 1]), events[|events| - 1];
      var before := Missed(events[..|events| - 1]);
      if !e.Turn? || Waiting(c) || e.post.NotDelivered? then before
      else if e.post.Broken? then if Resumes(c, e.alive) then before + [c.world] else before
      else if !Resumes(c, e.alive) || c.stored.None? || IdOf(c.world.plan) != c.stored.value.resolutionId then []
      else if SessionStateFor(c.world) == c.stored.value then before
      else OtherPlans(before, IdOf(c.world.plan))
  }

  predicate AllOfPlan(missed: seq<World>, plan: Option<nat>) {
    forall w <- missed :: IdOf(w.plan) == plan
  }

  predicate AllTold(missed: seq<World>, told: Told) {
    forall w <- missed :: SessionStateFor(w) == told
  }

  lemma {:induction false} OtherPlansMeaning(missed: seq<World>, plan: Option<nat>)
    ensures forall w :: w in OtherPlans(missed, plan) <==> w in missed && IdOf(w.plan) != plan
  {
    if missed != [] {
      var n := |missed| - 1;
      OtherPlansMeaning(missed[..n], plan);
      assert missed == missed[..n] + [missed[n]];
    }
  }

  /** How far the session's knowledge is from the stored state, read off the missed worlds. */
  ghost predicate Measured(c: Chat, missed: seq<World>) {
    c.session.Some? ==>
      && c.stored.Some? && c.session.value < c.begun
      && (KnowsPlan(Known(c, c.session.value), c.stored.value.resolutionId)
          <==> AllOfPlan(missed, c.stored.value.resolutionId))
      && (Knows(Known(c, c.session.value), c.stored.value) <==> AllTold(missed, c.stored.value))
  }

  lemma TurnMeasured(c: Chat, alive: bool, post: Post, missed: seq<World>)
    requires Measured(c, missed) && !Waiting(c)
    ensures Measured(AfterTurn(c, alive, post),
                     if post.NotDelivered? then missed
                     else if post.Broken? then if Resumes(c, alive) then missed + [c.world] else missed
                     else if !Resumes(c, alive) || c.stored.None? || IdOf(c.world.plan) != c.stored.value.resolutionId
                     then []
                     else if SessionStateFor(c.world) == c.stored.value then missed
                     else OtherPlans(missed, IdOf(c.world.plan)))
  {
    assert Resumes(c, alive) ==> c.session.Some?;
    var id := SessionId(c, alive);
    BriefTells(Known(c, id), c.world, if Resumes(c, alive) then Some(c.stored.GetOr(Told(None, ""))) else None);
    hide HearAll, BriefFor, LastAgent, Past, Resumes, Waiting;
    if post.Answered? {
      OtherPlansMeaning(missed, IdOf(c.world.plan));
      hide OtherPlans;
    } else if post.Broken? && Resumes(c, alive) {
      OneMoreMissed(missed, c.world);
      hide AllTold, AllOfPlan;
    }
  }

  lemma OneMoreMissed(missed: seq<World>, w: World)
    ensures forall id :: AllOfPlan(missed + [w], id) <==> AllOfPlan(missed, id) && IdOf(w.plan) == id
    ensures forall told :: AllTold(missed + [w], told) <==> AllTold(missed, told) && SessionStateFor(w) == told
  {
    hide SessionStateFor, IdOf;
    var more := missed + [w];
    assert w in more && forall x :: x in more <==> x in missed || x == w;
  }

  lemma {:induction false} HistoryMeasured(events: seq<Event>)
    ensures Measured(Reached(events), Missed(events))
  {
    hide AfterTurn, Resumes, LastAgent, OtherPlans;
    if events != [] {
      var n := |events| - 1;
      HistoryMeasured(events[..n]);
      var c, e := Reached(events[..n]), events[n];
      if e.Turn? {
        if Waiting(c) {
          Grows(c, e.alive, e.post);
        } else {
          TurnMeasured(c, e.alive, e.post, Missed(events[..n]));
        }
      }
    }
  }

  /** For every history of turns, changes of the plan or the outcomes, failed answers, broken posts and lost sessions:
      after the next answered turn the session has been told the current state, which is then also the stored one,
      exactly when the turn opens a session, or the stored state's plan is not the current one or every missed world
      had it, and the stored state is not the current one or every missed world was it. */
  lemma AnsweredTurnTellsIff(events: seq<Event>, alive: bool)
    requires !Waiting(Reached(events))
    ensures var c := Reached(events);
      UpToDate(Reached(events + [Turn(alive, Answered)])) <==>
        (Resumes(c, alive) ==>
           && c.stored.Some?
           && (IdOf(c.world.plan) == c.stored.value.resolutionId ==> AllOfPlan(Missed(events), IdOf(c.world.plan)))
           && (SessionStateFor(c.world) == c.stored.value ==> AllTold(Missed(events), c.stored.value)))
  {
    hide HearAll, BriefFor, LastAgent, Past, Missed;
    var c := Reached(events);
    HistoryMeasured(events);
    OneMore(events, Turn(alive, Answered));
    BriefTells(Known(c, SessionId(c, alive)), c.world,
               if Resumes(c, alive) then Some(c.stored.GetOr(Told(None, ""))) else None);
  }

  /** What up to date means, in the world's own fields: after such a turn the session was last told the outcomes
      recorded for the current plan, and none of another plan's, and that plan's resolution and these outcomes are
      stored. */
  lemma ToldIsOfThePlan(events: seq<Event>, alive: bool)
    requires !Waiting(Reached(events)) && UpToDate(Reached(events + [Turn(alive, Answered)]))
    ensures var after := Reached(events + [Turn(alive, Answered)]);
      && after.world == Reached(events).world
      && Known(after, after.session.value).outcomes.Some?
      && AreOutcomes(after.world, Known(after, after.session.value).outcomes.value)
      && after.stored.Some? && AreOutcomes(after.world, after.stored.value.outcomes)
      && (match after.world.plan
          case None => after.stored.value.resolutionId == None
          case Some(plan) => after.stored.value.resolutionId == Some(plan.resolutionId))
  {
    hide HearAll, BriefFor, LastAgent, Past, OutcomesForPlan, AreOutcomes;
    OneMore(events, Turn(alive, Answered));
    OutcomesMeaning(Reached(events).world);
  }

  lemma {:induction false} NothingMissed(events: seq<Event>)
    requires NoneBroken(events)
    ensures Missed(events) == []
  {
    hide Reached, Resumes, Waiting;
    if events != [] {
      assert events == events[..|events| - 1] + [events[|events| - 1]];
      NothingMissed(events[..|events| - 1]);
    }
  }

  /** So the session is told the current state by each answered turn that began with at most 300 messages, since a
      broken post is then the last turn and keeps it from being resumed; and beyond them while no post has broken off
      after it was delivered. */
  lemma EachTurnTells(events: seq<Event>, e: Event)
    requires TurnAnswered(Reached(events), e)
    requires |Reached(events).messages| <= LIMIT || NoneBroken(events)
    ensures UpToDate(Reached(events + [e]))
  {
    hide HearAll, BriefFor, Missed, AfterTurn, LastAgent;
    var c := Reached(events);
    HistoryMeasured(events);
    AnsweredTurnTellsIff(events, e.alive);
    HistoryIsSound(events);
    if NoneBroken(events) {
      NothingMissed(events);
    } else if Resumes(c, e.alive) {
      assert Past(c.messages) == c.messages;
      assert InStep(c);
    }
  }

  // ---- what the plan says -------------------------------------------------------------------------------------------

  /** The turn's brief reaches the thread's session and says the plan: it opens the session, or the stored resolution
      is another. */
  predicate Shows(c: Chat, e: Event) {
    && e.Turn? && !Waiting(c) && !e.post.NotDelivered?
    && (Resumes(c, e.alive) ==> IdOf(c.world.plan) != c.stored.GetOr(Told(None, "")).resolutionId)
    && (Resumes(c, e.alive) || e.post.Answered?)
  }

  /** The plan of the last brief that said one, as it was then. */
  function PlanShown(events: seq<Event>): Option<Option<Plan>> {
    if events == [] then None
    else if Shows(Reached(events[..|events| - 1]), events[|events| - 1])
    then Some(Reached(events[..|events| - 1]).world.plan) else PlanShown(events[..|events| - 1])
  }

  ghost predicate KnowsShown(c: Chat, shown: Option<Option<Plan>>) {
    c.session.Some? ==> c.session.value < c.begun && Known(c, c.session.value).plan == shown
  }

  lemma TurnShows(c: Chat, alive: bool, post: Post, shown: Option<Option<Plan>>)
    requires KnowsShown(c, shown) && !Waiting(c)
    ensures KnowsShown(AfterTurn(c, alive, post), if Shows(c, Turn(alive, post)) then Some(c.world.plan) else shown)
  {
    hide HearAll, BriefFor, LastAgent, Past;
    var id := SessionId(c, alive);
    BriefTells(Known(c, id), c.world, if Resumes(c, alive) then Some(c.stored.GetOr(Told(None, ""))) else None);
  }

  /** After every history, the thread's session knows the plan as it was last said. */
  lemma {:induction false} HistoryShown(events: seq<Event>)
    ensures KnowsShown(Reached(events), PlanShown(events))
  {
    hide AfterTurn, Resumes, LastAgent;
    if events != [] {
      var n := |events| - 1;
      HistoryShown(events[..n]);
      var c, e := Reached(events[..n]), events[n];
      if e.Turn? {
        if Waiting(c) {
          Grows(c, e.alive, e.post);
        } else {
          TurnShows(c, e.alive, e.post, PlanShown(events[..n]));
        }
      }
    }
  }

  /** For every history: after the next answered turn the session knows what the current plan says exactly when the
      turn opens a session, or the stored resolution is another, or the plan was the same when it was last said.
      Stored is only the resolution, so a plan that is overwritten under it is not said again. */
  lemma AnsweredTurnShowsIff(events: seq<Event>, alive: bool)
    requires !Waiting(Reached(events))
    ensures var c, after := Reached(events), Reached(events + [Turn(alive, Answered)]);
      && after.session.Some?
      && (Known(after, after.session.value).plan == Some(c.world.plan) <==>
            (Resumes(c, alive) && IdOf(c.world.plan) == c.stored.GetOr(Told(None, "")).resolutionId ==>
               PlanShown(events) == Some(c.world.plan)))
  {
    hide HearAll, BriefFor, LastAgent, Past, PlanShown;
    var c := Reached(events);
    HistoryShown(events);
    OneMore(events, Turn(alive, Answered));
    TurnShows(c, alive, Answered, PlanShown(events));
  }

  ghost predicate InHistory(events: seq<Event>, plan: Option<Plan>) {
    plan == None || exists e :: e in events && e.Change? && e.world.plan == plan
  }

  /** No plan of the history is overwritten: one resolution, one text. */
  ghost predicate OneText(events: seq<Event>) {
    forall e, f :: e in events && f in events && e.Change? && f.Change? && IdOf(e.world.plan) == IdOf(f.world.plan) ==>
      e.world.plan == f.world.plan
  }

  lemma {:induction false} PlansOfHistory(events: seq<Event>)
    ensures InHistory(events, Reached(events).world.plan)
    ensures PlanShown(events).Some? ==> InHistory(events, PlanShown(events).value)
  {
    hide Shows, LastAgent;
    if events != [] {
      var n := |events| - 1;
      PlansOfHistory(events[..n]);
      assert events == events[..n] + [events[n]];
      WorldChanges(Reached(events[..n]), events[n]);
      hide After;
    }
  }

  lemma WorldChanges(c: Chat, e: Event)
    ensures After(c, e).world == if e.Change? then e.world else c.world
  {
    hide HearAll, BriefFor, LastAgent;
  }

  /** So while no plan is overwritten, a session that is up to date knows what the current plan says too. */
  lemma OneTextIsShown(events: seq<Event>)
    requires OneText(events) && UpToDate(Reached(events))
    ensures var c := Reached(events); Known(c, c.session.value) == KnowsAll(c.world)
  {
    hide Reached, PlanShown;
    HistoryShown(events);
    PlansOfHistory(events);
  }

  /** A plan that was sent back is stored and told, and the retry's overwrites it under the same resolution. */
  function Overwritten(first: string, second: string): seq<Event> {
    [Change(World(Some(Plan(1, first)), None)), Turn(true, Answered), Reply(true),
     Change(World(Some(Plan(1, second)), None))]
  }

  /** Then the next turn leaves the session with the plan that was sent back: the stored state is the current one. */
  lemma OverwrittenPlanIsNotTold(first: string, second: string)
    ensures var c := Reached(Overwritten(first, second) + [Turn(true, Answered)]);
      && UpToDate(c) && c.world.plan == Some(Plan(1, second))
      && Known(c, c.session.value).plan == Some(Some(Plan(1, first)))
  {
    var told, now := World(Some(Plan(1, first)), None), World(Some(Plan(1, second)), None);
    assert SessionStateFor(told) == SessionStateFor(now);
    hide HearAll, BriefFor, AfterTurn, LastAgent, Past, SessionStateFor;
    var e1, e2, e3, e4 := Change(told), Turn(true, Answered), Reply(true), Change(now);
    FourMore([], e1, e2, e3, e4);
    assert [] + [e1, e2, e3] + [e4] == Overwritten(first, second);
    OneMore(Overwritten(first, second), e2);
    FirstTurn(told);
    AnsweredOnce(told);
    SecondTurn(told, now);
  }

  /** A thread of one answered turn, about this world. */
  function OneTurn(w: World, status: Status): Chat {
    Chat([Message(User, Completed), Message(Agent, status)], Some(0), Some(SessionStateFor(w)), w, 1,
         map[0 := KnowsAll(w)])
  }

  lemma FirstTurn(w: World)
    ensures After(After(Reached([]), Change(w)), Turn(true, Answered)) == OneTurn(w, Pending)
  {
    hide HearAll, BriefFor, LastAgent;
    FullBriefTells(NOTHING, w);
  }

  lemma AnsweredOnce(w: World)
    ensures After(OneTurn(w, Pending), Reply(true)) == OneTurn(w, Completed)
  {
    hide KnowsAll, SessionStateFor;
  }

  /** The next turn, with the same resolution and no outcomes, says nothing of the plan. */
  lemma SecondTurn(told: World, now: World)
    requires SessionStateFor(told) == SessionStateFor(now)
    ensures var c := AfterTurn(OneTurn(told, Completed).(world := now), true, Answered);
      && c.world == now && c.session == Some(0) && c.stored == Some(SessionStateFor(now))
      && Known(c, 0) == KnowsAll(told) && UpToDate(c)
  {
    hide HearAll, BriefFor, LastAgent;
    var c := OneTurn(told, Completed).(world := now);
    LastCompleted(c.messages);
    FollowUpTells(KnowsAll(told), now, SessionStateFor(now));
  }

  lemma LastCompleted(messages: seq<Message>)
    requires messages == [Message(User, Completed), Message(Agent, Completed)]
    ensures LastAgent(Past(messages)) == Some(Message(Agent, Completed))
  {
  }

  // ---- beyond 300 messages ------------------------------------------------------------------------------------------

  /** `n` turns that all go well. */
  function Calm(n: nat): seq<Event> {
    if n == 0 then [] else Calm(n - 1) + [Turn(true, Answered), Reply(true)]
  }

  ghost predicate AllCompleted(messages: seq<Message>, n: nat) {
    && |messages| == 2 * n
    && (forall m <- messages :: m.status.Completed?)
    && (forall i :: 0 <= i < n ==> messages[2 * i + 1].role.Agent?)
  }

  lemma {:induction false} CalmReaches(n: nat)
    ensures var c := Reached(Calm(n));
        AllCompleted(c.messages, n) && c.world == World(None, None) && NoneBroken(Calm(n))
    ensures n > 0 ==> UpToDate(Reached(Calm(n)))
  {
    hide AfterTurn, UpToDate, Reached, AllCompleted;
    if n == 0 {
      StartIsCalm();
    } else {
      var before := Calm(n - 1);
      var turn, reply := Turn(true, Answered), Reply(true);
      CalmReaches(n - 1);
      CalmTurn(Reached(before), n - 1);
      EachTurnTells(before, turn);
      OneMore(before, turn);
      OneMore(before + [turn], reply);
      ReplyKeeps(Reached(before + [turn]), true);
      assert Calm(n) == before + [turn] + [reply];
    }
  }

  lemma StartIsCalm()
    ensures Reached([]) == START && AllCompleted(START.messages, 0)
  {
  }

  lemma CalmTurn(c: Chat, n: nat)
    requires AllCompleted(c.messages, n)
    ensures !Waiting(c) && AfterTurn(c, true, Answered).world == c.world
    ensures AllCompleted(WithReply(AfterTurn(c, true, Answered).messages, true), n + 1)
  {
    hide HearAll, BriefFor;
    var asked := AfterTurn(c, true, Answered).messages;
    assert asked == c.messages + [Message(User, Completed), Message(Agent, Pending)];
    forall i | 0 <= i < |c.messages|
      ensures WithReply(asked, true)[i] == c.messages[i]
    {
      assert c.messages[i] in c.messages;
    }
  }

  lemma ReplyKeeps(c: Chat, ok: bool)
    ensures UpToDate(After(c, Reply(ok))) <==> UpToDate(c)
  {
  }

  /** A plan is written, a post about it breaks off after it was delivered, and the plan is withdrawn again. */
  function Mishap(plan: Plan): seq<Event> {
    [Change(World(Some(plan), None)), Turn(true, Broken), Change(World(None, None))]
  }

  /** The limit matters: after `n` calm turns a broken post is noticed by the next turn exactly when they were fewer
      than 150. Later, the session has been told a plan the stored state knows nothing of, and the next brief is a
      follow-up that says nothing of it. */
  lemma BrokenPostIsNoticedIff(n: nat, plan: Plan)
    ensures TurnAnswered(Reached(Calm(n) + Mishap(plan)), Turn(true, Answered))
    ensures UpToDate(Reached(Calm(n) + Mishap(plan) + [Turn(true, Answered)])) <==> 2 * n < LIMIT
  {
    hide HearAll, BriefFor, AfterTurn, LastAgent, UpToDate, AllCompleted;
    CalmReaches(n);
    var c0 := Reached(Calm(n));
    var e1, e2, e3, e4 := Change(World(Some(plan), None)), Turn(true, Broken), Change(World(None, None)),
        Turn(true, Answered);
    var c1 := After(c0, e1);
    var c3 := After(After(c1, e2), e3);
    FourMore(Calm(n), e1, e2, e3, e4);
    MishapAsks(c1, n);
    if 2 * n < LIMIT {
      EachTurnTells(Calm(n) + Mishap(plan), e4);
    } else {
      LastOfCalm(c0.messages, n);
      UpToDateMeans(c0);
      BrokenTurn(c1, n);
      NextTurn(c3);
    }
  }

  lemma UpToDateMeans(c: Chat)
    requires UpToDate(c) && c.world == World(None, None)
    ensures c.session.Some? && c.stored == Some(Told(None, ""))
  {
  }

  lemma MishapAsks(c: Chat, n: nat)
    requires AllCompleted(c.messages, n)
    ensures |c.messages| == 2 * n
    ensures !Waiting(AfterTurn(c, true, Broken)) && |AfterTurn(c, true, Broken).messages| == 2 * n + 2
  {
    hide HearAll, BriefFor, LastAgent;
  }

  lemma FourMore(events: seq<Event>, e1: Event, e2: Event, e3: Event, e4: Event)
    ensures Reached(events + [e1, e2, e3]) == After(After(After(Reached(events), e1), e2), e3)
    ensures Reached(events + [e1, e2, e3] + [e4]) == After(After(After(After(Reached(events), e1), e2), e3), e4)
  {
    hide After;
    var one := events + [e1];
    var two := one + [e2];
    var three := two + [e3];
    OneMore(events, e1);
    OneMore(one, e2);
    OneMore(two, e3);
    OneMore(three, e4);
    assert three == events + [e1, e2, e3];
  }

  lemma OneMore(events: seq<Event>, e: Event)
    ensures Reached(events + [e]) == After(Reached(events), e)
  {
    assert (events + [e])[..|events|] == events;
  }

  lemma LastOfCalm(messages: seq<Message>, n: nat)
    requires AllCompleted(messages, n) && 2 * n >= LIMIT
    ensures LastAgent(Past(messages)) == Some(Message(Agent, Completed))
  {
    var past := Past(messages);
    assert past[LIMIT - 1] == messages[2 * (LIMIT / 2 - 1) + 1];
    assert messages[LIMIT - 1] in messages;
  }

  lemma BrokenTurn(c: Chat, n: nat)
    requires AllCompleted(c.messages, n) && 2 * n >= LIMIT && c.world.plan.Some? && c.world.progress.None?
    requires LastAgent(Past(c.messages)) == Some(Message(Agent, Completed))
    requires c.session.Some? && c.stored == Some(Told(None, ""))
    ensures var after := AfterTurn(c, true, Broken);
      && !Waiting(after) && Past(after.messages) == Past(c.messages)
      && after.session == c.session && after.stored == c.stored
      && Known(after, c.session.value).plan == Some(c.world.plan)
  {
    hide HearAll, BriefFor, LastAgent;
    FollowUpTells(Known(c, c.session.value), c.world, Told(None, ""));
  }

  lemma NextTurn(c: Chat)
    requires !Waiting(c) && c.session.Some? && c.stored == Some(Told(None, "")) && c.world == World(None, None)
    requires LastAgent(Past(c.messages)) == Some(Message(Agent, Completed))
    requires Known(c, c.session.value).plan.Some? && Known(c, c.session.value).plan.value.Some?
    ensures !UpToDate(AfterTurn(c, true, Answered))
  {
    hide HearAll, BriefFor, LastAgent;
    FollowUpTells(Known(c, c.session.value), c.world, Told(None, ""));
  }

  // ---- the thread as it is updated ----------------------------------------------------------------------------------

  class ChatThread {
    var messages: seq<Message>
    var session: Option<nat>
    var stored: Option<Told>
    var world: World
    var begun: nat
    ghost var knows: map<nat, Knowledge>

    ghost function State(): Chat
      reads this
    {
      Chat(messages, session, stored, world, begun, knows)
    }

    constructor ()
      ensures State() == START
    {
      messages, session, stored, world, begun := [], None, None, World(None, None), 0;
      knows := map[];
    }

    /** One turn: refused while the agent is still answering. */
    method Ask(alive: bool, post: Post) returns (asked: bool)
      modifies this
      ensures State() == AfterTurn(old(State()), alive, post)
      ensures asked == (!Waiting(old(State())) && post.Answered?)
    {
      hide HearAll, BriefFor, LastAgent, Tells, Past, KnowsAll, SessionStateFor, IdOf;
      if exists m <- messages :: m.status.Pending? {
        return false;
      }
      assert !Waiting(State());
      hide Waiting;
      var resumed := session.Some? && LastAgent(Past(messages)) == Some(Message(Agent, Completed)) && alive;
      var id := if resumed then session.value else begun;
      if !resumed {
        begun := begun + 1;
      }
      messages := messages + [Message(User, Completed), Message(Agent, Pending)];
      ghost var told := if resumed then Some(stored.GetOr(Told(None, ""))) else None;
      var lines := BuildChatPrompt(world, if resumed then Some(stored.GetOr(Told(None, ""))) else None);
      BriefTells(if id in knows then knows[id] else NOTHING, world, told);
      if !post.NotDelivered? {
        knows := knows[id := HearAll(if id in knows then knows[id] else NOTHING, lines)];
      }
      if post.Answered? {
        session, stored := Some(id), Some(SessionStateFor(world));
      } else {
        messages := messages[|messages| - 1 := Message(Agent, Failed)];
      }
      asked := post.Answered?;
    }

    /** The agent's terminal payload completes or fails the pending message. */
    method CompleteChat(ok: bool)
      modifies this`messages
      ensures State() == After(old(State()), Reply(ok))
    {
      for i := 0 to |messages|
        modifies this`messages
        invariant |messages| == |old(messages)|
        invariant forall j :: 0 <= j < i ==> messages[j] == WithReply(old(messages), ok)[j]
        invariant forall j :: i <= j < |messages| ==> messages[j] == old(messages)[j]
      {
        if messages[i].status.Pending? {
          messages := messages[i := messages[i].(status := if ok then Completed else Failed)];
        }
      }
    }
  }
}
