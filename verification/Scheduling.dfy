/**
 * What every verb does to the agents' deadlines, over any stretch of time, and what the scheduler
 * makes of it: an overdue agent is passed over by each other agent at most once, unless a yes to a
 * request it is waiting for gives it a new deadline.
 */
module Scheduling {
  import opened Basics
  import opened Aman
  import opened Agents
  import opened Consent

  /** Why a deadline moved: a yes its agent was waiting for, or the agent's own step. */
  datatype Reset = Answered(agent: nat, at: nat, request: nat) | Continued(agent: nat, at: nat)

  /** Everything that survives from one verb to the next. Agents are numbered from one. */
  datatype World = World(
    agents: seq<Agent>,
    approvals: seq<Approval>,
    crossings: seq<Crossing>,
    slots: seq<Slot>,
    resets: seq<Reset>,
    now: nat)

  /** Where the last of these resets put the deadline of an agent. */
  function Moved(resets: seq<Reset>, agent: nat): (r: Option<nat>)
    ensures r.None? <==> forall k :: 0 <= k < |resets| ==> resets[k].agent != agent
    ensures r.Some? ==> exists k :: 0 <= k < |resets| && resets[k].agent == agent && resets[k].at == r.value
  {
    if resets == [] then None
    else
      var last := |resets| - 1;
      if resets[last].agent == agent then Some(resets[last].at) else Moved(resets[..last], agent)
  }

  lemma {:induction false} MovedLater(earlier: seq<Reset>, later: seq<Reset>, agent: nat)
    ensures Moved(earlier + later, agent) ==
              if Moved(later, agent).Some? then Moved(later, agent) else Moved(earlier, agent)
  {
    if later == [] {
      assert earlier + later == earlier;
    } else {
      var last := |later| - 1;
      assert (earlier + later)[..|earlier| + last] == earlier + later[..last];
      MovedLater(earlier, later[..last], agent);
    }
  }

  // ----- what one verb, or any number of them, may do -----

  /** A deadline is kept and nobody wakes up, or it is where the last reset put it. */
  predicate AgentAges(a: Agent, moved: Option<nat>, a': Agent) {
    if moved.Some? then a'.deadline == moved.value
    else a'.deadline == a.deadline && (a'.state == Runnable ==> a.state == Runnable)
  }

  ghost predicate Later(w: World, w': World) {
    w.now <= w'.now && w.resets <= w'.resets && |w.agents| <= |w'.agents|
  }

  ghost function News(w: World, w': World): seq<Reset>
    requires Later(w, w')
  {
    w'.resets[|w.resets|..]
  }

  /** Deadlines move by resets only, and never into the past; new agents are not overdue either. */
  ghost predicate Ages(w: World, w': World) {
    && Later(w, w')
    && (forall k :: 0 <= k < |News(w, w')| ==> News(w, w')[k].at >= w.now)
    && (forall i :: 0 <= i < |w.agents| ==> AgentAges(w.agents[i], Moved(News(w, w'), i + 1), w'.agents[i]))
    && (forall i :: |w.agents| <= i < |w'.agents| ==> w'.agents[i].deadline >= w.now)
  }

  /** Request `k` is this agent's, and was answered yes after the earlier list was taken. */
  predicate SaidYes(approvals: seq<Approval>, approvals': seq<Approval>, k: nat, agent: nat)
    requires k < |approvals'|
  {
    && approvals'[k].agent == agent
    && approvals'[k].answered == Some(true)
    && (k < |approvals| ==> approvals[k].answered.None?)
  }

  /** Behind every reset that was an answer stands a new yes to a request of that very agent. */
  ghost predicate Backed(w: World, w': World)
    requires Later(w, w')
  {
    forall k :: 0 <= k < |News(w, w')| && News(w, w')[k].Answered? ==> BackedBy(w, w', News(w, w')[k])
  }

  predicate BackedBy(w: World, w': World, r: Reset)
    requires r.Answered?
  {
    1 <= r.request <= |w'.approvals| && SaidYes(w.approvals, w'.approvals, r.request - 1, r.agent)
  }

  ghost predicate Onward(w: World, w': World) {
    && Ages(w, w')
    && Evolves(w.approvals, w'.approvals)
    && Backed(w, w')
    && w.crossings <= w'.crossings
    && SlotsEvolve(w.slots, w'.slots)
  }

  /** Only answers moved deadlines, as no agent's own step ended meanwhile. */
  ghost predicate OnlyAnswers(w: World, w': World) {
    Later(w, w') && forall k :: 0 <= k < |News(w, w')| ==> News(w, w')[k].Answered?
  }

  lemma NewsAddUp(a: World, b: World, c: World)
    requires Later(a, b) && Later(b, c)
    ensures Later(a, c) && News(a, c) == News(a, b) + News(b, c)
  {
  }

  lemma OnlyAnswersTransitive(a: World, b: World, c: World)
    requires OnlyAnswers(a, b) && OnlyAnswers(b, c)
    ensures OnlyAnswers(a, c)
  {
    NewsAddUp(a, b, c);
  }

  lemma AgesTransitive(a: World, b: World, c: World)
    requires Ages(a, b) && Ages(b, c)
    ensures Ages(a, c)
  {
    hide Moved;
    NewsAddUp(a, b, c);
    forall i | 0 <= i < |a.agents| ensures AgentAges(a.agents[i], Moved(News(a, c), i + 1), c.agents[i]) {
      MovedLater(News(a, b), News(b, c), i + 1);
      assert AgentAges(b.agents[i], Moved(News(b, c), i + 1), c.agents[i]);
    }
    forall i | |a.agents| <= i < |c.agents| ensures c.agents[i].deadline >= a.now {
      if i < |b.agents| {
        assert AgentAges(b.agents[i], Moved(News(b, c), i + 1), c.agents[i]);
      }
    }
  }

  lemma EvolvesTransitive(a: seq<Approval>, b: seq<Approval>, c: seq<Approval>)
    requires Evolves(a, b) && Evolves(b, c)
    ensures Evolves(a, c)
  {
    forall k | 0 <= k < |a| ensures ApprovalEvolves(a[k], c[k]) {
      assert ApprovalEvolves(a[k], b[k]) && ApprovalEvolves(b[k], c[k]);
    }
  }

  lemma SlotsEvolveTransitive(a: seq<Slot>, b: seq<Slot>, c: seq<Slot>)
    requires SlotsEvolve(a, b) && SlotsEvolve(b, c)
    ensures SlotsEvolve(a, c)
  {
  }

  /** A yes given in part of a stretch of time was given in the whole of it. */
  lemma SaidYesWithin(a: seq<Approval>, b: seq<Approval>, c: seq<Approval>, d: seq<Approval>, k: nat, agent: nat)
    requires Evolves(a, b) && Evolves(b, c) && Evolves(c, d) && k < |c| && SaidYes(b, c, k, agent)
    ensures SaidYes(a, d, k, agent)
  {
    assert ApprovalEvolves(c[k], d[k]);
    if k < |a| {
      assert ApprovalEvolves(a[k], b[k]);
    }
  }

  lemma EvolvesStill(approvals: seq<Approval>)
    ensures Evolves(approvals, approvals)
  {
  }

  lemma BackedTransitive(a: World, b: World, c: World)
    requires Later(a, b) && Later(b, c) && Backed(a, b) && Backed(b, c)
    requires Evolves(a.approvals, b.approvals) && Evolves(b.approvals, c.approvals)
    ensures Later(a, c) && Backed(a, c)
  {
    hide Evolves, SaidYes;
    NewsAddUp(a, b, c);
    EvolvesStill(a.approvals);
    EvolvesStill(c.approvals);
    EvolvesTransitive(a.approvals, b.approvals, c.approvals);
    var before := |News(a, b)|;
    forall k | 0 <= k < |News(a, c)| && News(a, c)[k].Answered? ensures BackedBy(a, c, News(a, c)[k]) {
      var r := News(a, c)[k];
      if k < before {
        assert r == News(a, b)[k];
        LongerList(a.approvals, b.approvals, c.approvals);
        SaidYesWithin(a.approvals, a.approvals, b.approvals, c.approvals, r.request - 1, r.agent);
      } else {
        assert r == News(b, c)[k - before];
        SaidYesWithin(a.approvals, b.approvals, c.approvals, c.approvals, r.request - 1, r.agent);
      }
    }
  }

  lemma LongerList(a: seq<Approval>, b: seq<Approval>, c: seq<Approval>)
    requires Evolves(a, b) && Evolves(b, c)
    ensures |a| <= |b| <= |c|
  {
  }

  lemma OnwardTransitive(a: World, b: World, c: World)
    requires Onward(a, b) && Onward(b, c)
    ensures Onward(a, c)
  {
    hide AgentAges, Evolves, SlotsEvolve, Backed, News;
    AgesTransitive(a, b, c);
    EvolvesTransitive(a.approvals, b.approvals, c.approvals);
    SlotsEvolveTransitive(a.slots, b.slots, c.slots);
    BackedTransitive(a, b, c);
  }

  // ----- the ways the world moves -----

  lemma OnwardStill(w: World, now: nat)
    requires w.now <= now
    ensures Onward(w, w.(now := now)) && OnlyAnswers(w, w.(now := now))
  {
  }

  lemma OnwardAgent(w: World, i: nat, a: Agent)
    requires i < |w.agents| && AgentAges(w.agents[i], None, a)
    ensures Onward(w, w.(agents := w.agents[i := a]))
  {
  }

  lemma OnwardNewAgent(w: World, a: Agent, now: nat)
    requires w.now <= now && a.deadline >= w.now
    ensures Onward(w, w.(agents := w.agents + [a], now := now))
  {
  }

  lemma OnwardApproval(w: World, k: nat, a: Approval)
    requires k < |w.approvals| && ApprovalEvolves(w.approvals[k], a)
    ensures Onward(w, w.(approvals := w.approvals[k := a]))
  {
  }

  lemma OnwardNewApproval(w: World, a: Approval)
    ensures Onward(w, w.(approvals := w.approvals + [a]))
  {
  }

  lemma OnwardCrossing(w: World, c: Crossing)
    ensures Onward(w, w.(crossings := w.crossings + [c]))
  {
  }

  lemma OnwardSlots(w: World, slots: seq<Slot>)
    requires SlotsEvolve(w.slots, slots)
    ensures Onward(w, w.(slots := slots))
  {
  }

  lemma MovedByOne(r: Reset, agent: nat)
    ensures Moved([r], agent) == if r.agent == agent then Some(r.at) else None
  {
  }

  /** An agent's own step may put its deadline anywhere but in the past. */
  lemma OnwardContinue(w: World, i: nat, a: Agent)
    requires i < |w.agents| && a.deadline >= w.now
    ensures Onward(w, w.(agents := w.agents[i := a], resets := w.resets + [Continued(i + 1, a.deadline)]))
  {
    hide Moved;
    var r := Continued(i + 1, a.deadline);
    var w' := w.(agents := w.agents[i := a], resets := w.resets + [r]);
    assert News(w, w') == [r];
    forall j | 0 <= j < |w.agents| ensures AgentAges(w.agents[j], Moved(News(w, w'), j + 1), w'.agents[j]) {
      MovedByOne(r, j + 1);
    }
  }

  /** A yes makes the agent that waits for it due at once. */
  lemma OnwardAnswer(w: World, k: nat, i: nat, a: Agent, now: nat)
    requires k < |w.approvals| && w.approvals[k].answered.None? && w.approvals[k].agent == i + 1
    requires i < |w.agents| && w.now <= now == a.deadline
    ensures var w' := w.(agents := w.agents[i := a],
              approvals := w.approvals[k := w.approvals[k].(answered := Some(true))],
                         resets := w.resets + [Answered(i + 1, now, k + 1)], now := now);
            Onward(w, w') && OnlyAnswers(w, w')
  {
    hide Moved;
    var r := Answered(i + 1, now, k + 1);
    var w' := w.(agents := w.agents[i := a], approvals := w.approvals[k := w.approvals[k].(answered := Some(true))],
                 resets := w.resets + [r], now := now);
    assert News(w, w') == [r];
    forall j | 0 <= j < |w.agents| ensures AgentAges(w.agents[j], Moved(News(w, w'), j + 1), w'.agents[j]) {
      MovedByOne(r, j + 1);
    }
  }

  // ----- turns of the scheduler -----

  /** One step of the scheduler: the world in front of it, the agent it chose, the world behind it. */
  datatype Turn = Turn(before: World, chosen: nat, progress: Progress, after: World)

  /** What an agent reports decides its state, unless its budget outranks the report. */
  predicate Ruled(progress: Progress, a: Agent) {
    || a.state == Suspended
    || match progress
       case Continue => !Exhausted(a.budget)
       case AwaitConsent => a.state == AwaitingConsent
       case Done => a.state == Finished
       case Failed => a.state == Killed
  }

  /** Not able to run before an agent whose deadline is `deadline`. */
  predicate Behind(a: Agent, deadline: nat) {
    a.state != Runnable || a.deadline > deadline
  }

  lemma BehindEarlier(a: Agent, deadline: nat, later: nat)
    requires deadline <= later && Behind(a, later)
    ensures Behind(a, deadline)
  {
  }

  /** In a turn only the chosen agent's own step ends; all else is up to the verbs called in it. */
  ghost predicate Stepped(turn: Turn) {
    && Earliest(turn.before.agents) == Some(turn.chosen)
    && Onward(turn.before, turn.after)
    && StepsOf(turn.before, turn.after, turn.chosen + 1)
    && Behind(turn.after.agents[turn.chosen], turn.before.now)
    && Ruled(turn.progress, turn.after.agents[turn.chosen])
  }

  /** The only agent whose own step ended meanwhile. */
  ghost predicate StepsOf(w: World, w': World, agent: nat) {
    Later(w, w') && forall k :: 0 <= k < |News(w, w')| && News(w, w')[k].Continued? ==> News(w, w')[k].agent == agent
  }

  ghost predicate Schedule(turns: seq<Turn>) {
    && (forall k :: 0 <= k < |turns| ==> Stepped(turns[k]))
    && (forall k :: 0 < k < |turns| ==> Follows(turns[k - 1], turns[k]))
  }

  predicate Follows(turn: Turn, next: Turn) {
    next.before == turn.after
  }

  /** A step that finished or failed its agent and was not suspended. */
  predicate Completes(turn: Turn)
    requires turn.chosen < |turn.after.agents|
  {
    (turn.progress == Done || turn.progress == Failed) && turn.after.agents[turn.chosen].state != Suspended
  }

  ghost function Completions(turns: seq<Turn>): nat
    requires Schedule(turns)
  {
    if turns == [] then 0
    else
      var last := |turns| - 1;
      Completions(turns[..last]) + if Completes(turns[last]) then 1 else 0
  }

  lemma NoTurns()
    ensures Schedule([]) && Completions([]) == 0
  {
  }

  lemma {:induction false} TurnAdds(turns: seq<Turn>, turn: Turn)
    requires Schedule(turns) && Stepped(turn)
    requires |turns| > 0 ==> Follows(turns[|turns| - 1], turn)
    ensures Schedule(turns + [turn]) && turn.chosen < |turn.after.agents|
    ensures Completions(turns + [turn]) == Completions(turns) + if Completes(turn) then 1 else 0
  {
    hide Ages, Ruled, Behind, Evolves, Backed;
    assert (turns + [turn])[..|turns|] == turns;
  }

  // ----- when a deadline moves -----

  /** Over any stretch of time an overdue agent's deadline moves exactly when there is a reset of it. */
  lemma DeadlineMovesIff(w: World, w': World, x: nat)
    requires Onward(w, w') && x < |w.agents| && w.agents[x].deadline < w.now
    ensures w'.agents[x].deadline != w.agents[x].deadline <==> Moved(News(w, w'), x + 1).Some?
    ensures w'.agents[x].deadline != w.agents[x].deadline ==> w'.agents[x].deadline >= w.now
  {
    hide Evolves, Backed, SlotsEvolve, Moved;
    var news := News(w, w');
    assert AgentAges(w.agents[x], Moved(news, x + 1), w'.agents[x]);
    if Moved(news, x + 1).Some? {
      var k :| 0 <= k < |news| && news[k].agent == x + 1 && news[k].at == Moved(news, x + 1).value;
      assert news[k].at >= w.now;
    }
  }

  /** No request of this agent was answered yes between two worlds. */
  ghost predicate NoYes(w: World, w': World, agent: nat) {
    forall k :: 0 <= k < |w'.approvals| ==> !SaidYes(w.approvals, w'.approvals, k, agent)
  }

  /** A yes reached this agent while it waited for it. */
  ghost predicate Woken(w: World, w': World, x: nat)
    requires Later(w, w')
  {
    exists k :: 0 <= k < |News(w, w')| && News(w, w')[k].Answered? && News(w, w')[k].agent == x + 1
  }

  /** In another agent's turn it moves exactly when such a yes arrives. */
  lemma OnlyYesMovesOthers(turn: Turn, x: nat)
    requires Stepped(turn) && x < |turn.before.agents| && x != turn.chosen
    requires turn.before.agents[x].deadline < turn.before.now
    ensures Later(turn.before, turn.after) && x < |turn.after.agents|
    ensures turn.after.agents[x].deadline != turn.before.agents[x].deadline <==> Woken(turn.before, turn.after, x)
    ensures NoYes(turn.before, turn.after, x + 1) ==>
              turn.after.agents[x].deadline == turn.before.agents[x].deadline
  {
    hide Earliest, Evolves, SaidYes, SlotsEvolve, AgentAges, Ages;
    Grown(turn.before, turn.after);
    DeadlineMovesIff(turn.before, turn.after, x);
    var news := News(turn.before, turn.after);
    if Moved(news, x + 1).Some? {
      var k :| 0 <= k < |news| && news[k].agent == x + 1;
      assert news[k].Answered?;
      assert BackedBy(turn.before, turn.after, news[k]);
    }
  }

  lemma Grown(w: World, w': World)
    requires Onward(w, w')
    ensures Later(w, w') && Evolves(w.approvals, w'.approvals)
  {
  }

  // ----- bounded bypass -----

  /** Agent `x` is ready, and passed over, in turns `a` up to `b`. */
  ghost predicate Waits(turns: seq<Turn>, x: nat, a: nat, b: nat)
    requires a < b <= |turns|
  {
    forall k :: a <= k < b ==> PassedOver(turns[k], x)
  }

  ghost predicate PassedOver(turn: Turn, x: nat) {
    x < |turn.before.agents| && turn.chosen != x && Ready(turn.before.agents[x])
  }

  lemma {:induction false} OnwardOver(turns: seq<Turn>, a: nat, k: nat)
    requires Schedule(turns) && a <= k < |turns|
    ensures Onward(turns[a].before, turns[k].before)
    decreases k
  {
    hide Onward, Earliest;
    if a == k {
      OnwardStill(turns[a].before, turns[a].before.now);
    } else {
      OnwardOver(turns, a, k - 1);
      assert Stepped(turns[k - 1]) && Follows(turns[k - 1], turns[k]);
      OnwardTransitive(turns[a].before, turns[k - 1].before, turns[k].before);
    }
  }

  /** An agent that is passed over does not step. */
  lemma {:induction false} NeverSteps(turns: seq<Turn>, x: nat, a: nat, b: nat, k: nat)
    requires Schedule(turns) && a <= k < b <= |turns| && Waits(turns, x, a, b)
    ensures Later(turns[a].before, turns[k].before)
    ensures var news := News(turns[a].before, turns[k].before);
            forall j :: 0 <= j < |news| && news[j].Continued? ==> news[j].agent != x + 1
    decreases k
  {
    hide Onward, Earliest, Ready, Behind, Ruled;
    if a < k {
      NeverSteps(turns, x, a, b, k - 1);
      assert Stepped(turns[k - 1]) && Follows(turns[k - 1], turns[k]) && PassedOver(turns[k - 1], x);
      NewsAddUp(turns[a].before, turns[k - 1].before, turns[k].before);
    }
  }

  /** Unless a request of its own is answered yes, an overdue agent that waits keeps its deadline. */
  lemma KeepsDeadline(turns: seq<Turn>, x: nat, a: nat, b: nat, k: nat)
    requires Schedule(turns) && a <= k < b <= |turns| && Waits(turns, x, a, b)
    requires Overdue(turns[a].before, x) && NoYes(turns[a].before, turns[b - 1].before, x + 1)
    ensures x < |turns[k].before.agents| && turns[k].before.agents[x].deadline == turns[a].before.agents[x].deadline
  {
    hide Schedule, Stepped, Waits, SaidYes, SlotsEvolve, Ages, Evolves;
    var w, w', end := turns[a].before, turns[k].before, turns[b - 1].before;
    OnwardOver(turns, a, k);
    OnwardOver(turns, k, b - 1);
    NeverSteps(turns, x, a, b, k);
    Grown(w, w');
    Grown(w', end);
    EvolvesStill(w.approvals);
    DeadlineMovesIff(w, w', x);
    var news := News(w, w');
    if Moved(news, x + 1).Some? {
      var j :| 0 <= j < |news| && news[j].agent == x + 1;
      assert news[j].Answered?;
      assert BackedBy(w, w', news[j]);
      LongerList(w.approvals, w'.approvals, end.approvals);
      SaidYesWithin(w.approvals, w.approvals, w'.approvals, end.approvals, news[j].request - 1, x + 1);
      assert false;
    }
  }

  predicate Overdue(w: World, x: nat) {
    x < |w.agents| && w.agents[x].deadline < w.now
  }

  /** Once behind an overdue agent, behind it for ever after; and so is every newcomer. */
  lemma StaysBehind(w: World, w': World, y: nat, deadline: nat)
    requires Onward(w, w') && deadline < w.now && y < |w'.agents|
    requires y < |w.agents| ==> Behind(w.agents[y], deadline)
    ensures Behind(w'.agents[y], deadline)
  {
    hide Evolves, Backed, SlotsEvolve, Moved;
    var news := News(w, w');
    if y < |w.agents| {
      assert AgentAges(w.agents[y], Moved(news, y + 1), w'.agents[y]);
      if Moved(news, y + 1).Some? {
        var k :| 0 <= k < |news| && news[k].agent == y + 1 && news[k].at == Moved(news, y + 1).value;
        assert news[k].at >= w.now;
      }
    }
  }

  /** The choice has no later deadline than any ready agent. */
  lemma ChoiceIsFirst(agents: seq<Agent>, x: nat, y: nat)
    requires x < |agents| && y < |agents| && Ready(agents[x]) && Behind(agents[y], agents[x].deadline)
    ensures Earliest(agents) != Some(y)
  {
  }

  /** While an overdue agent waits, the agent chosen at `p` is not chosen again. */
  lemma TakesOneStep(turns: seq<Turn>, x: nat, a: nat, b: nat, p: nat, q: nat)
    requires Schedule(turns) && a <= p < q < b <= |turns| && Waits(turns, x, a, b)
    requires Overdue(turns[a].before, x) && NoYes(turns[a].before, turns[b - 1].before, x + 1)
    ensures turns[p].chosen != turns[q].chosen
  {
    hide Onward, NoYes, Ready, Ruled, Earliest;
    var y, deadline := turns[p].chosen, turns[a].before.agents[x].deadline;
    assert Stepped(turns[p]) && Stepped(turns[q]) && PassedOver(turns[q], x) && Follows(turns[p], turns[p + 1]);
    KeepsDeadline(turns, x, a, b, q);
    OnwardOver(turns, a, p);
    OnwardOver(turns, a, p + 1);
    OnwardOver(turns, p + 1, q);
    Grown(turns[a].before, turns[p].before);
    Grown(turns[a].before, turns[p + 1].before);
    Grown(turns[p + 1].before, turns[q].before);
    StaysBehind(turns[p + 1].before, turns[q].before, y, deadline);
    ChoiceIsFirst(turns[q].before.agents, x, y);
  }

  /** Agents born while an overdue agent waits do not run before it. */
  lemma NewcomersWait(turns: seq<Turn>, x: nat, a: nat, b: nat, k: nat)
    requires Schedule(turns) && a <= k < b <= |turns| && Waits(turns, x, a, b)
    requires Overdue(turns[a].before, x) && NoYes(turns[a].before, turns[b - 1].before, x + 1)
    ensures turns[k].chosen < |turns[a].before.agents|
  {
    hide Onward, NoYes, Ready, Ruled;
    var y, deadline := turns[k].chosen, turns[a].before.agents[x].deadline;
    assert Stepped(turns[k]) && PassedOver(turns[k], x);
    KeepsDeadline(turns, x, a, b, k);
    OnwardOver(turns, a, k);
    if y >= |turns[a].before.agents| {
      StaysBehind(turns[a].before, turns[k].before, y, deadline);
      ChoiceIsFirst(turns[k].before.agents, x, y);
    }
  }

  /** The agents chosen from turn `a` up to `m`. */
  ghost function Chosen(turns: seq<Turn>, a: nat, m: nat): set<nat>
    requires a <= m <= |turns|
  {
    set k: nat | a <= k < m :: turns[k].chosen
  }

  lemma {:induction false} ChosenAllDiffer(turns: seq<Turn>, x: nat, a: nat, b: nat, m: nat)
    requires Schedule(turns) && a <= m <= b <= |turns| && a < b && Waits(turns, x, a, b)
    requires Overdue(turns[a].before, x) && NoYes(turns[a].before, turns[b - 1].before, x + 1)
    ensures |Chosen(turns, a, m)| == m - a
    decreases m
  {
    hide Schedule, Waits, Overdue, NoYes;
    if a < m {
      ChosenAllDiffer(turns, x, a, b, m - 1);
      forall p | a <= p < m - 1 ensures turns[p].chosen != turns[m - 1].chosen {
        TakesOneStep(turns, x, a, b, p, m - 1);
      }
      assert Chosen(turns, a, m) == Chosen(turns, a, m - 1) + {turns[m - 1].chosen};
    }
  }

  lemma {:induction false} SubsetOfRange(s: set<nat>, n: nat)
    requires forall i :: i in s ==> i < n
    ensures |s| <= n
  {
    if n > 0 {
      SubsetOfRange(s - {n - 1}, n - 1);
    } else {
      assert s == {};
    }
  }

  /**
   * Bounded bypass: while an overdue agent is ready and none of its requests is answered yes, it
   * keeps its deadline, every other agent takes at most one step before it, and those born
   * meanwhile take none; so fewer steps go to others than there were agents.
   */
  lemma BoundedBypass(turns: seq<Turn>, x: nat, a: nat, b: nat)
    requires Schedule(turns) && a < b <= |turns| && Waits(turns, x, a, b)
    requires Overdue(turns[a].before, x) && NoYes(turns[a].before, turns[b - 1].before, x + 1)
    ensures forall k :: a <= k < b ==>
              x < |turns[k].before.agents| && turns[k].before.agents[x].deadline == turns[a].before.agents[x].deadline
    ensures forall p, q :: a <= p < q < b ==> turns[p].chosen != turns[q].chosen
    ensures forall k :: a <= k < b ==> turns[k].chosen < |turns[a].before.agents| && turns[k].chosen != x
    ensures b - a < |turns[a].before.agents|
  {
    hide Schedule, NoYes, Ready;
    forall k | a <= k < b
      ensures x < |turns[k].before.agents| && turns[k].before.agents[x].deadline == turns[a].before.agents[x].deadline
    {
      KeepsDeadline(turns, x, a, b, k);
    }
    forall p, q | a <= p < q < b ensures turns[p].chosen != turns[q].chosen {
      TakesOneStep(turns, x, a, b, p, q);
    }
    forall k | a <= k < b ensures turns[k].chosen < |turns[a].before.agents| && turns[k].chosen != x {
      NewcomersWait(turns, x, a, b, k);
      assert PassedOver(turns[k], x);
    }
    ChosenAllDiffer(turns, x, a, b, b);
    SubsetOfRange(Chosen(turns, a, b) + {x}, |turns[a].before.agents|);
  }
}
