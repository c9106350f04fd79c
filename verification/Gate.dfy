/**
 * The one door between an agent and the world: the verbs, and the supervisor that schedules agents
 * through it. Every verb keeps the books balanced, the consents honoured and the table narrowing.
 */
module Gate {
  import opened Basics
  import opened Aman
  import opened Agents
  import opened Consent
  import opened Ledger
  import opened Scheduling

  /** What the kernel charges for exercising an authority once. */
  function PriceOf(a: Authority): u64 {
    match a
    case Fs(_, write) => if write then 40 else 10
    case Memory(_, write) => if write then 40 else 10
    case Model(Fast) => 50
    case Model(Private) => 80
    case Model(Arabic) => 150
    case Model(Frontier) => 300
    case Send(draftOnly) => if draftOnly then 20 else 200
    case Spend(_) => 0
  }

  /** The price list, in millionths of a dollar. */
  lemma PriceList(scope: Scope, amount: u64)
    ensures PriceOf(Fs(scope, false)) == PriceOf(Memory(scope, false)) == 10
    ensures PriceOf(Fs(scope, true)) == PriceOf(Memory(scope, true)) == 40
    ensures PriceOf(Model(Fast)) == 50 && PriceOf(Model(Private)) == 80
    ensures PriceOf(Model(Arabic)) == 150 && PriceOf(Model(Frontier)) == 300
    ensures PriceOf(Send(true)) == 20 && PriceOf(Send(false)) == 200 && PriceOf(Spend(amount)) == 0
  {
  }

  /** What is narrower never costs more, and only metered spending is free to try. */
  lemma NarrowerIsNoDearer(child: Authority, parent: Authority)
    requires forall action :: Permits(child, action) ==> Permits(parent, action)
    ensures PriceOf(child) <= PriceOf(parent)
    ensures PriceOf(child) == 0 <==> child.Spend?
  {
    hide Permits;
    SubsetIsInclusion(child, parent);
  }

  /** A clock that never runs backwards; each reading may find that time has passed. */
  class Clock {
    const advance: nat -> nat
    var now: nat
    var readings: nat

    constructor (advance: nat -> nat)
      ensures this.advance == advance
    {
      this.advance, now, readings := advance, 0, 0;
    }

    method Now() returns (t: nat)
      modifies this
      ensures t == now == old(now) + advance(old(readings)) && readings == old(readings) + 1
    {
      now := now + advance(readings);
      readings := readings + 1;
      return now;
    }
  }

  /** The books are about these agents: money in one, wall time in the other. */
  ghost predicate BooksMatch(agents: seq<Agent>, books: seq<Account>, times: seq<Account>) {
    && |agents| == |books| == |times|
    && forall i :: 0 <= i < |agents| ==>
         && Booked(agents[i].budget, books[i], times[i])
         && (books[i].funder.From? ==> books[i].funder.index < i)
         && times[i].funder == TimeFrom(agents, books[i].funder)
         && (times[i].funder.From? ==> agents[i].budget.wall != 0)
  }

  predicate Booked(b: Budget, money: Account, time: Account) {
    && b.microDollars == money.granted && b.spent == money.spent
    && b.wall == time.granted && b.used == time.spent && time.charged == Excess(b.used, b.wall)
  }

  /** Time is carved only from an agent whose time is bounded. */
  function TimeFrom(agents: seq<Agent>, funder: Origin): Origin {
    if funder.From? && funder.index < |agents| && agents[funder.index].budget.wall != 0 then funder else Kernel
  }

  lemma NewSlotEvolves(slots: seq<Slot>, s: Slot)
    ensures SlotsEvolve(slots, slots + [s])
  {
  }

  lemma BooksAfterAgent(agents: seq<Agent>, books: seq<Account>, times: seq<Account>, i: nat, a: Agent)
    requires BooksMatch(agents, books, times) && i < |agents| && a.budget == agents[i].budget
    ensures BooksMatch(agents[i := a], books, times)
  {
  }

  lemma BooksAfterBooking(agents: seq<Agent>, books: seq<Account>, times: seq<Account>, i: nat, a: Agent, b: Account)
    requires BooksMatch(agents, books, times) && i < |agents|
    requires a.budget == agents[i].budget.(spent := a.budget.spent)
    requires b.granted == books[i].granted && b.funder == books[i].funder && a.budget.spent == b.spent
    ensures BooksMatch(agents[i := a], books[i := b], times)
  {
  }

  lemma BooksAfterWork(agents: seq<Agent>, books: seq<Account>, times: seq<Account>, i: nat, a: Agent, elapsed: nat)
    requires BooksMatch(agents, books, times) && i < |agents|
    requires a.budget == agents[i].budget.(used := agents[i].budget.used + elapsed)
    ensures BooksMatch(agents[i := a], books, Worked(times, i, elapsed))
  {
  }

  lemma MatchedAccount(agents: seq<Agent>, books: seq<Account>, times: seq<Account>, i: nat)
    requires BooksMatch(agents, books, times) && i < |agents|
    ensures i < |books| == |times| && Booked(agents[i].budget, books[i], times[i])
  {
  }

  lemma BooksAfterNewAgent(agents: seq<Agent>, books: seq<Account>, times: seq<Account>, a: Agent)
    requires BooksMatch(agents, books, times)
    ensures BooksMatch(agents + [a], Opened(books, a.budget.microDollars, a.budget.spent),
              Opened(times, a.budget.wall, a.budget.used))
  {
  }

  /** A carved share of time; the time of an unbounded parent is not carved. */
  function TimeFunded(times: seq<Account>, i: nat, wall: nat): seq<Account>
    requires i < |times|
  {
    if times[i].granted == 0 then Opened(times, wall, 0) else Funded(times, i, wall)
  }

  lemma BooksAfterCarving(agents: seq<Agent>, books: seq<Account>, times: seq<Account>, i: nat, split: Split,
        money: u64, wall: nat,
                          child: Agent)
    requires BooksMatch(agents, books, times) && i < |agents|
    requires Carve(agents[i].budget, money, wall) == Some(split) && child.budget == split.child
    ensures BooksMatch(agents[i := agents[i].(budget := split.parent)] + [child], Funded(books, i, money),
              TimeFunded(times, i, wall))
  {
  }

  lemma TimeFundingBalances(agents: seq<Agent>, books: seq<Account>, times: seq<Account>, i: nat, money: u64, wall: nat)
    requires BooksMatch(agents, books, times) && Balanced(times) && i < |agents|
    requires Carve(agents[i].budget, money, wall).Some?
    ensures Balanced(TimeFunded(times, i, wall))
  {
    hide Balanced;
    if times[i].granted == 0 {
      OpeningBalances(times, wall, 0);
    } else {
      FundingBalances(times, i, wall);
    }
  }

  lemma SpentWithin(agents: seq<Agent>, books: seq<Account>, times: seq<Account>, i: nat, amount: u64)
    requires BooksMatch(agents, books, times) && Balanced(books) && i < |agents|
    requires amount <= Remaining(agents[i].budget)
    ensures i < |books| && books[i].spent + amount <= books[i].granted + books[i].charged
    ensures agents[i].budget.spent + amount < TWO_64
  {
  }

  // ----- one agent's share of a verb -----

  function Crossed(a: Agent, cost: u64, irreversible: bool): Agent
    requires cost <= Remaining(a.budget)
  {
    a.(crossings := a.crossings + 1, budget := a.budget.(spent := a.budget.spent + cost),
      awaiting := if irreversible then None else a.awaiting)
  }

  function Refused(a: Agent): Agent {
    a.(crossings := a.crossings + 1, state := Suspended)
  }

  function Used(a: Approval): Approval {
    a.(consumed := true)
  }

  /** A saturating 64-bit sum. */
  function Saturated(a: u64, b: u64): (r: u64)
    ensures r >= a && r - a <= b
  {
    if a + b < TWO_64 then a + b else TWO_64 - 1
  }

  function Overrun(b: Budget, amount: u64): Budget {
    b.(spent := Saturated(b.spent, amount))
  }

  /** Charged in full; the agent stops if that exhausts it. */
  function ChargedAgent(a: Agent, amount: u64): Agent {
    var budget := Overrun(a.budget, amount);
    a.(budget := budget, state := if Exhausted(budget) then Suspended else a.state)
  }

  /** All that a crossing may change, and when it succeeds. */
  ghost predicate CrossOutcome(w: World, agent: nat, capability: nat, authority: Authority, cost: u64, charged: bool,
        w': World) {
    var i := Find(w.agents, agent);
    var irreversible := RiskOf(authority) == Irreversible;
    && w'.slots == w.slots && w'.now == w.now
    && (charged <==> i.Some? && cost <= Remaining(w.agents[i.value].budget))
    && (i.None? ==> w' == w)
    && (i.Some? && !charged ==> w' == w.(agents := w.agents[i.value := Refused(w.agents[i.value])]))
    && (charged ==>
          && w'.agents == w.agents[i.value := Crossed(w.agents[i.value], cost, irreversible)]
          && w'.crossings == w.crossings +
               [Crossing(agent, capability, authority, if irreversible then w.agents[i.value].awaiting else None)]
          && (!irreversible ==> w'.approvals == w.approvals)
          && (irreversible ==>
                && w.agents[i.value].awaiting.Some?
                && 1 <= w.agents[i.value].awaiting.value <= |w.approvals|
                && var k := w.agents[i.value].awaiting.value - 1;
                   w'.approvals == w.approvals[k := Used(w.approvals[k])]))
  }

  /** All agents but one are as they were. */
  predicate OthersKept(agents: seq<Agent>, agents': seq<Agent>, i: nat) {
    |agents'| == |agents| && forall j :: 0 <= j < |agents| && j != i ==> agents'[j] == agents[j]
  }

  /**
   * What a crossing does to its agent, field by field: it counts, and either costs exactly its price
   * and takes the request with it if it was irreversible, or suspends an agent that cannot pay.
   */
  lemma CrossingPays(w: World, agent: nat, capability: nat, authority: Authority, cost: u64, charged: bool, w': World)
    requires CrossOutcome(w, agent, capability, authority, cost, charged, w') && Find(w.agents, agent).Some?
    ensures var i := Find(w.agents, agent).value;
            && OthersKept(w.agents, w'.agents, i)
            && var (a, a') := (w.agents[i], w'.agents[i]);
            && (charged <==> cost == 0 || a.budget.spent + cost <= a.budget.microDollars)
            && a'.crossings == a.crossings + 1
            && a'.state == (if charged then a.state else Suspended)
            && a'.budget.spent == (if charged then a.budget.spent + cost else a.budget.spent)
            && a'.awaiting == (if charged && RiskOf(authority) == Irreversible then None else a.awaiting)
            && a'.budget == a.budget.(spent := a'.budget.spent)
            && a' == a.(crossings := a'.crossings, state := a'.state, budget := a'.budget, awaiting := a'.awaiting)
    ensures |w'.approvals| == |w.approvals|
    ensures forall k :: 0 <= k < |w.approvals| ==>
              w'.approvals[k] == w.approvals[k].(consumed := w.approvals[k].consumed ||
                (charged && RiskOf(authority) == Irreversible
                 && w.agents[Find(w.agents, agent).value].awaiting == Some(k + 1)))
  {
  }

  /** What an answer does to the agent that waits for it, field by field, and to nobody else. */
  lemma AnswerReaches(w: World, request: nat, approved: bool, w': World, i: nat)
    requires NumberedAgents(w.agents) && Numbered(w.approvals) && AnswerOutcome(w, request, approved, w')
    requires 1 <= request <= |w.approvals| && w.approvals[request - 1].answered.None?
    requires w.approvals[request - 1].agent == i + 1 && i < |w.agents| && w.agents[i].awaiting == Some(request)
    ensures OthersKept(w.agents, w'.agents, i)
    ensures var (a, a') := (w.agents[i], w'.agents[i]);
            && a'.state == (if approved then Runnable else Killed)
            && a'.deadline == (if approved then w'.now else a.deadline)
            && a'.awaiting == (if approved then Some(request) else None)
            && a' == a.(state := a'.state, deadline := a'.deadline, awaiting := a'.awaiting)
    ensures w'.approvals == w.approvals[request - 1 := w.approvals[request - 1].(answered := Some(approved))]
  {
    RequestByNumber(w.approvals, request);
    FindByNumber(w.agents, i + 1);
  }

  lemma NumberOf(agents: seq<Agent>, i: nat)
    requires NumberedAgents(agents) && i < |agents|
    ensures agents[i].id == i + 1 && Find(agents, i + 1) == Some(i)
  {
    FindByNumber(agents, i + 1);
  }

  lemma WordsShown(agents: seq<Agent>, approvals: seq<Approval>, slots: seq<Slot>, k: nat)
    requires Consenting(agents, approvals, slots) && k < |approvals|
    ensures approvals[k].capability < |slots| && approvals[k].what == Describe(slots[approvals[k].capability].authority)
    ensures slots[approvals[k].capability].holder == approvals[k].agent
  {
    hide Describe, Asked, Awaited;
  }

  /** Granted, the agent is due now; rejected, it is finished and waits for nothing. */
  function AnsweredAgent(a: Agent, approved: bool, now: nat): Agent {
    if approved then a.(state := Runnable, deadline := now) else a.(awaiting := None, state := Killed)
  }

  /** All that an answer may change: its own request, and the agent parked on it, which a yes makes due now. */
  ghost predicate AnswerOutcome(w: World, request: nat, approved: bool, w': World) {
    var k := FindRequest(w.approvals, request);
    && w'.crossings == w.crossings && w'.slots == w.slots && w.now <= w'.now
    && if k.None? || w.approvals[k.value].answered.Some? then w' == w
       else
         var answer := w.approvals[k.value].(answered := Some(approved));
         var i := Find(w.agents, answer.agent);
         && w'.approvals == w.approvals[k.value := answer]
         && if i.Some? && w.agents[i.value].awaiting == Some(request) then
              && w'.agents == w.agents[i.value := AnsweredAgent(w.agents[i.value], approved, w'.now)]
              && w'.resets == if approved then w.resets + [Answered(answer.agent, w'.now, request)] else w.resets
            else w'.agents == w.agents && w'.resets == w.resets
  }

  /** An answer breaks nobody's wait but the one it ends. */
  lemma AnswerKeepsAwaited(agents: seq<Agent>, approvals: seq<Approval>, k: nat, answer: bool, agents': seq<Agent>)
    requires NumberedAgents(agents) && Numbered(approvals) && Awaited(agents, approvals) && k < |approvals|
    requires |agents'| == |agents| && forall j :: 0 <= j < |agents| ==> agents'[j].id == agents[j].id
    requires forall j :: 0 <= j < |agents| ==> agents'[j].awaiting == agents[j].awaiting || agents'[j].awaiting == None
    requires !answer ==> forall j :: 0 <= j < |agents| && agents[j].id == approvals[k].agent ==>
              agents'[j].awaiting != Some(k + 1)
    ensures Awaited(agents', approvals[k := approvals[k].(answered := Some(answer))])
  {
  }

  lemma AnswerKeeps(w: World, books: seq<Account>, times: seq<Account>, request: nat, approved: bool, w': World)
    requires Consenting(w.agents, w.approvals, w.slots) && Honoured(w.crossings, w.approvals)
    requires BooksMatch(w.agents, books, times)
    requires AnswerOutcome(w, request, approved, w')
    ensures Consenting(w'.agents, w'.approvals, w'.slots) && Honoured(w'.crossings, w'.approvals)
    ensures BooksMatch(w'.agents, books, times)
    ensures Onward(w, w') && OnlyAnswers(w, w')
  {
    hide Onward, Honoured, Asked, Awaited, Shown, BooksMatch;
    AnswerMovesOnward(w, request, approved, w');
    var k := FindRequest(w.approvals, request);
    if k.Some? && w.approvals[k.value].answered.None? {
      RequestByNumber(w.approvals, request);
      var answer := w.approvals[k.value].(answered := Some(approved));
      UnansweredIsUnused(w.approvals, k.value);
      var i := Find(w.agents, answer.agent);
      ApprovalChangeKeepsAsked(w.approvals, k.value, answer);
      ApprovalChangeKeepsShown(w.approvals, w.slots, k.value, answer);
      AnswerKeepsHonoured(w.crossings, w.approvals, k.value, answer);
      AnswerKeepsAwaited(w.agents, w.approvals, k.value, approved, w'.agents);
      if i.Some? && w.agents[i.value].awaiting == Some(request) {
        BooksAfterAgent(w.agents, books, times, i.value, AnsweredAgent(w.agents[i.value], approved, w'.now));
      }
    }
  }

  /** Same resets, so nothing but answers. */
  lemma NoResets(w: World, w': World)
    requires Onward(w, w') && w'.resets == w.resets
    ensures OnlyAnswers(w, w')
  {
    Grown(w, w');
  }

  lemma AnswerMovesOnward(w: World, request: nat, approved: bool, w': World)
    requires NumberedAgents(w.agents) && Numbered(w.approvals) && AnswerOutcome(w, request, approved, w')
    ensures Onward(w, w') && OnlyAnswers(w, w')
  {
    hide Onward, OnlyAnswers, NumberedAgents, Numbered;
    var k := FindRequest(w.approvals, request);
    if k.None? || w.approvals[k.value].answered.Some? {
      OnwardStill(w, w.now);
    } else {
      RequestByNumber(w.approvals, request);
      var answer := w.approvals[k.value].(answered := Some(approved));
      FindByNumber(w.agents, answer.agent);
      var i := answer.agent - 1;
      if 1 <= answer.agent <= |w.agents| && w.agents[i].awaiting == Some(request) && approved {
        OnwardAnswer(w, k.value, i, AnsweredAgent(w.agents[i], true, w'.now), w'.now);
      } else {
        var mid := w.(approvals := w'.approvals, now := w'.now);
        OnwardApproval(w, k.value, answer);
        OnwardStill(w.(approvals := w'.approvals), w'.now);
        OnwardTransitive(w, w.(approvals := w'.approvals), mid);
        if 1 <= answer.agent <= |w.agents| && w.agents[i].awaiting == Some(request) {
          OnwardAgent(mid, i, AnsweredAgent(w.agents[i], false, w'.now));
          OnwardTransitive(w, mid, w');
        }
        NoResets(w, w');
      }
    }
  }

  lemma UnansweredIsUnused(approvals: seq<Approval>, k: nat)
    requires Asked(approvals) && k < |approvals| && approvals[k].answered.None?
    ensures !approvals[k].consumed
  {
  }

  /** The verbs, as agent code would call them. */
  datatype Call =
    | CallSpawn(parent: nat, budget: Budget, deadline: nat)
    | CallGrant(agent: nat, authority: Authority)
    | CallDelegate(parent: nat, capability: nat, narrower: Authority, money: u64, wall: nat)
    | CallAttenuate(agent: nat, capability: nat, narrower: Authority)
    | CallInvoke(agent: nat, capability: nat)
    | CallSpend(agent: nat, capability: nat, amount: u64)
    | CallRequest(agent: nat, capability: nat)
    | CallAnswer(request: nat, approved: bool)
    | CallCharge(agent: nat, amount: u64)
    | CallRevoke(capability: nat)

  /** How a step leaves its agent: time is charged, and a suspension outranks what the agent reports. */
  function Ended(a: Agent, script: Script, elapsed: nat, now: nat): Agent {
    var worked := a.(cursor := script.cursor, budget := a.budget.(used := a.budget.used + elapsed));
    if a.state == Suspended then worked
    else
      match script.progress
      case Continue => if Exhausted(worked.budget) then worked.(state := Suspended) else worked.(deadline := now + 1)
      case AwaitConsent => worked.(state := AwaitingConsent)
      case Done => worked.(state := Finished)
      case Failed => worked.(state := Killed)
  }

  /** The state a report leads to: a suspension stays, and so does an agent that goes on and has means left. */
  function Reported(state: Agents.State, progress: Progress, hasLeft: bool): Agents.State {
    if state == Suspended then Suspended
    else
      match progress
      case Continue => if hasLeft then state else Suspended
      case AwaitConsent => AwaitingConsent
      case Done => Finished
      case Failed => Killed
  }

  /** Whether the step leaves its agent runnable, due just after it. */
  predicate Continues(a: Agent, script: Script, elapsed: nat) {
    && a.state != Suspended
    && script.progress == Continue
    && !Exhausted(a.budget.(used := a.budget.used + elapsed))
  }

  /** The world behind a step whose verbs have been called. */
  function AfterStep(w: World, i: nat, script: Script, elapsed: nat, now: nat): World
    requires i < |w.agents|
  {
    var a := Ended(w.agents[i], script, elapsed, now);
    w.(agents := w.agents[i := a], now := now,
       resets := w.resets + if Continues(w.agents[i], script, elapsed) then [Continued(i + 1, a.deadline)] else [])
  }

  lemma EndingIsOnward(w: World, i: nat, script: Script, elapsed: nat, now: nat)
    requires i < |w.agents| && w.now <= now
    ensures Onward(w, AfterStep(w, i, script, elapsed, now))
  {
    hide Onward;
    var a, mid := Ended(w.agents[i], script, elapsed, now), w.(now := now);
    OnwardStill(w, now);
    if Continues(w.agents[i], script, elapsed) {
      OnwardContinue(mid, i, a);
      OnwardTransitive(w, mid, mid.(agents := w.agents[i := a], resets := w.resets + [Continued(i + 1, a.deadline)]));
    } else {
      OnwardAgent(mid, i, a);
      OnwardTransitive(w, mid, mid.(agents := w.agents[i := a]));
      assert w.resets + [] == w.resets;
    }
  }

  /** Who may be chosen: runnable, with money and time left, and nobody else like that is due earlier. */
  predicate DueWithMeans(agents: seq<Agent>, x: nat) {
    && x < |agents| && agents[x].state == Runnable
    && agents[x].budget.spent < agents[x].budget.microDollars
    && (agents[x].budget.wall != 0 ==> agents[x].budget.used < agents[x].budget.wall)
    && forall j :: 0 <= j < |agents| && agents[j].state == Runnable && HasLeft(agents[j].budget) ==>
         agents[x].deadline < agents[j].deadline || (agents[x].deadline == agents[j].deadline && x <= j)
  }

  lemma ChosenIsDue(agents: seq<Agent>)
    ensures var chosen := Earliest(agents);
            if chosen.Some? then DueWithMeans(agents, chosen.value)
            else forall i :: 0 <= i < |agents| ==> agents[i].state != Runnable || !HasLeft(agents[i].budget)
  {
    forall i | 0 <= i < |agents|
      ensures Ready(agents[i]) <==> agents[i].state == Runnable && HasLeft(agents[i].budget)
    {
      ReadyIff(agents[i]);
    }
  }

  /** Verbs, and then the verdict on what the agent reported, make a turn. */
  lemma StepTaken(w: World, mid: World, i: nat, script: Script, elapsed: nat, now: nat)
    requires Earliest(w.agents) == Some(i) && Onward(w, mid) && OnlyAnswers(w, mid) && mid.now <= now
    ensures i < |mid.agents| && Stepped(Turn(w, i, script.progress, AfterStep(mid, i, script, elapsed, now)))
  {
    hide Onward, Earliest;
    Grown(w, mid);
    var w' := AfterStep(mid, i, script, elapsed, now);
    EndingIsOnward(mid, i, script, elapsed, now);
    OnwardTransitive(w, mid, w');
    NewsAddUp(w, mid, w');
    BehindEarlier(w'.agents[i], w.now, mid.now);
  }

  /** What agent code did in one step: the calls it made, where it stopped, and what it reported. */
  datatype Script = Script(calls: seq<Call>, cursor: nat, progress: Progress)

  /**
   * A yes costs an overdue agent that never parked its place: whoever it came before, if due
   * before the yes, now comes before it.
   */
  lemma AnswerCostsPlace(w: World, request: nat, w': World, x: nat, y: nat)
    requires NumberedAgents(w.agents) && Numbered(w.approvals) && AnswerOutcome(w, request, true, w')
    requires x < |w.agents| && y < |w.agents| && x != y && Ready(w.agents[x]) && Ready(w.agents[y])
    requires 1 <= request <= |w.approvals| && w.approvals[request - 1].answered.None?
    requires w.approvals[request - 1].agent == x + 1 && w.agents[x].awaiting == Some(request)
    ensures Ready(w'.agents[x]) && w'.agents[x].deadline == w'.now && w'.agents[y] == w.agents[y]
    ensures w.agents[x].deadline < w.agents[y].deadline ==> Earliest(w.agents) != Some(y)
    ensures w.agents[y].deadline < w'.now ==> Earliest(w'.agents) != Some(x)
  {
    RequestByNumber(w.approvals, request);
    FindByNumber(w.agents, x + 1);
  }

  function Worker(id: nat, deadline: nat, awaiting: Option<nat>): Agent {
    Agent(id, 0, Runnable, Budget(100, 0, 0, 0), deadline, [], 0, awaiting, 0)
  }

  /** The third of three agents has asked its human and goes on running, overdue like the others. */
  function AskedAndRunning(): World {
    var authority := Send(false);
    World([Worker(1, 3, None), Worker(2, 4, None), Worker(3, 5, Some(1))],
          [Approval(1, 3, 0, Describe(authority), None, false)], [], [Slot(authority, 3, None, false)], [], 10)
  }

  /** The same as it stands when its human says yes, in the second agent's step. */
  function SaidYesAt20(w: World): World
    requires |w.agents| == 3 && |w.approvals| == 1
  {
    w.(agents := w.agents[2 := AnsweredAgent(w.agents[2], true, 20)], now := 20,
      resets := w.resets + [Answered(3, 20, 1)],
       approvals := [w.approvals[0].(answered := Some(true))])
  }

  const GOES_ON: Script := Script([], 0, Continue)

  /**
   * The condition of the bound cannot be dropped: the third agent, ready and overdue all along, is
   * answered while the second runs, and the first, which already had its turn, goes again.
   */
  lemma AnswerDefersOverdueAgent() returns (turns: seq<Turn>, answered: World)
    ensures Schedule(turns) && |turns| == 3 && turns[0].before == AskedAndRunning()
    ensures Consenting(turns[0].before.agents, turns[0].before.approvals, turns[0].before.slots)
    ensures Waits(turns, 2, 0, 3) && forall k :: 0 <= k < 3 ==> Overdue(turns[k].before, 2)
    ensures AnswerOutcome(turns[1].before, 1, true, answered)
    ensures |answered.agents| == 3 && turns[1].after == AfterStep(answered, 1, GOES_ON, 20, 30)
    ensures turns[0].chosen == turns[2].chosen == 0
  {
    hide Onward, OnlyAnswers, Earliest, Stepped, Consenting, AnswerOutcome, Describe;
    var w0 := AskedAndRunning();
    AskedIsConsenting();
    OnwardStill(w0, w0.now);
    ThirdIsPassedOver(w0, w0, 0, 0, 10);
    var w1 := AfterStep(w0, 0, GOES_ON, 0, 10);
    answered := SaidYesAt20(w1);
    YesAt20(w1, answered);
    ThirdIsPassedOver(w1, answered, 1, 20, 30);
    var w2 := AfterStep(answered, 1, GOES_ON, 20, 30);
    OnwardStill(w2, w2.now);
    ThirdIsPassedOver(w2, w2, 0, 0, 30);
    turns := [Turn(w0, 0, Continue, w1), Turn(w1, 1, Continue, w2),
      Turn(w2, 0, Continue, AfterStep(w2, 0, GOES_ON, 0, 30))];
  }

  lemma ThirdIsPassedOver(w: World, mid: World, i: nat, elapsed: nat, now: nat)
    requires |w.agents| == 3 && i < 2 && Ready(w.agents[i]) && Ready(w.agents[2]) && w.agents[2].deadline < w.now
    requires forall j :: 0 <= j < 3 && j != i ==> w.agents[i].deadline < w.agents[j].deadline
    requires Onward(w, mid) && OnlyAnswers(w, mid) && mid.now <= now
    ensures |mid.agents| >= 3
    ensures var turn := Turn(w, i, Continue, AfterStep(mid, i, GOES_ON, elapsed, now));
            Stepped(turn) && PassedOver(turn, 2) && Overdue(w, 2)
  {
    hide Onward, OnlyAnswers, Earliest, Stepped;
    Grown(w, mid);
    ChosenIs(w.agents, i);
    StepTaken(w, mid, i, GOES_ON, elapsed, now);
  }

  lemma YesAt20(w: World, answered: World)
    requires |w.agents| == 3 && |w.approvals| == 1 && w.now <= 20 && answered == SaidYesAt20(w)
    requires NumberedAgents(w.agents) && Numbered(w.approvals) && w.agents[2].awaiting == Some(1)
    requires w.approvals[0].agent == 3 && w.approvals[0].answered == None
    ensures AnswerOutcome(w, 1, true, answered) && Onward(w, answered) && OnlyAnswers(w, answered)
  {
    hide Onward, OnlyAnswers;
    RequestByNumber(w.approvals, 1);
    FindByNumber(w.agents, 3);
    AnswerMovesOnward(w, 1, true, answered);
  }

  lemma AskedIsConsenting()
    ensures var w := AskedAndRunning(); Consenting(w.agents, w.approvals, w.slots)
  {
    hide Describe;
    var w := AskedAndRunning();
    assert forall agent :: PendingCount(w.approvals, agent) <= 1 + PendingCount(w.approvals[..0], agent);
  }

  lemma ChosenIs(agents: seq<Agent>, x: nat)
    requires x < |agents| && Ready(agents[x])
    requires forall i :: 0 <= i < |agents| && i != x && Ready(agents[i]) ==>
               agents[x].deadline < agents[i].deadline || (agents[x].deadline == agents[i].deadline && x < i)
    ensures Earliest(agents) == Some(x)
  {
  }

  class Supervisor {
    var agents: seq<Agent>
    var approvals: seq<Approval>
    var nextAgent: nat
    var nextApproval: nat
    const table: Table
    const clock: Clock
    ghost var books: seq<Account>
    ghost var times: seq<Account>
    ghost var crossings: seq<Crossing>
    ghost var resets: seq<Reset>

    ghost predicate Valid()
      reads this, table
    {
      && table.Valid()
      && nextAgent == |agents| + 1 && nextApproval == |approvals| + 1
      && BooksMatch(agents, books, times) && Balanced(books) && Balanced(times)
      && Consenting(agents, approvals, table.slots)
      && Honoured(crossings, approvals)
    }

    ghost function Snapshot(): World
      reads this, table, clock
    {
      World(agents, approvals, crossings, table.slots, resets, clock.now)
    }

    constructor (clock: Clock)
      ensures Valid() && fresh(table) && this.clock == clock
      ensures agents == [] && approvals == [] && crossings == [] && table.slots == [] && resets == []
    {
      agents, approvals, nextAgent, nextApproval := [], [], 1, 1;
      table := new Table();
      this.clock := clock;
      books, times, crossings, resets := [], [], [], [];
    }

    /** A new agent at the end of the list, due some time from now. */
    method Enlist(parent: nat, budget: Budget, deadline: nat) returns (id: nat)
      modifies this`agents, this`nextAgent, clock
      ensures id == old(nextAgent) && nextAgent == old(nextAgent) + 1 && clock.now >= old(clock.now)
      ensures agents == old(agents) + [Agent(id, parent, Runnable, budget, clock.now + deadline, [], 0, None, 0)]
    {
      id := nextAgent;
      nextAgent := nextAgent + 1;
      var now := clock.Now();
      agents := agents + [Agent(id, parent, Runnable, budget, now + deadline, [], 0, None, 0)];
    }

    /** Kernel side: the root agents are born here, with whatever budget they are given. */
    method Spawn(parent: nat, budget: Budget, deadline: nat) returns (id: nat)
      requires Valid()
      modifies this`agents, this`nextAgent, this`books, this`times, clock
      ensures Valid() && Onward(old(Snapshot()), Snapshot())
      ensures id == |old(agents)| + 1
      ensures agents == old(agents) + [Agent(id, parent, Runnable, budget, clock.now + deadline, [], 0, None, 0)]
      ensures books == Opened(old(books), budget.microDollars, budget.spent)
      ensures times == Opened(old(times), budget.wall, budget.used)
    {
      hide Onward, Consenting, Honoured, Balanced, BooksMatch;
      id := Enlist(parent, budget, deadline);
      OnwardNewAgent(old(Snapshot()), agents[id - 1], clock.now);
      NewAgentKeepsConsent(old(agents), approvals, table.slots, agents[id - 1]);
      OpeningBalances(books, budget.microDollars, budget.spent);
      OpeningBalances(times, budget.wall, budget.used);
      BooksAfterNewAgent(old(agents), books, times, agents[id - 1]);
      books := Opened(books, budget.microDollars, budget.spent);
      times := Opened(times, budget.wall, budget.used);
    }

    /** List a capability on an agent, if there is such an agent and it has room. */
    method List(agent: nat, capability: nat) returns (stored: bool)
      requires Valid()
      modifies this`agents
      ensures Valid() && Onward(old(Snapshot()), Snapshot())
      ensures var i := Find(old(agents), agent);
              && agents == (if i.None? then old(agents)
                   else old(agents)[i.value := Listed(old(agents)[i.value], capability)])
              && (stored <==> i.Some? && |old(agents)[i.value].capabilities| < 8)
    {
      hide Onward, Consenting, Honoured, Balanced, BooksMatch;
      var i := Find(agents, agent);
      if i.None? {
        OnwardStill(Snapshot(), clock.now);
        return false;
      }
      var a := Listed(agents[i.value], capability);
      OnwardAgent(Snapshot(), i.value, a);
      AgentChangeKeepsConsent(agents, approvals, table.slots, i.value, a);
      BooksAfterAgent(agents, books, times, i.value, a);
      stored := |agents[i.value].capabilities| < MAX_CAPABILITIES;
      agents := agents[i.value := a];
    }

    /** Kernel side: root authority for an agent. */
    method Grant(agent: nat, authority: Authority) returns (r: Option<nat>)
      requires Valid()
      modifies this`agents, table
      ensures Valid() && Onward(old(Snapshot()), Snapshot())
      ensures table.slots == old(table.slots) + [Slot(authority, agent, None, false)]
      ensures var i := Find(old(agents), agent);
              && r == (if i.Some?
              && |old(agents)[i.value].capabilities| < 8 then Some(|old(table.slots)|) else None)
              && agents == if i.None? then old(agents)
                   else old(agents)[i.value := Listed(old(agents)[i.value], |old(table.slots)|)]
    {
      hide Onward, Consenting, Honoured, Balanced, BooksMatch, Numbered, Asked, Awaited, SlotsEvolve, Shown;
      var capability := table.Mint(agent, authority);
      TableGrew(old(Snapshot()), Slot(authority, agent, None, false));
      label Minted:
      var stored := List(agent, capability);
      OnwardTransitive(old(Snapshot()), old@Minted(Snapshot()), Snapshot());
      if !stored {
        return None;
      }
      return Some(capability);
    }

    /** What a new slot leaves in order. */
    lemma TableGrew(before: World, s: Slot)
      requires before == Snapshot().(slots := before.slots) && table.slots == before.slots + [s]
      requires Consenting(agents, approvals, before.slots)
      ensures Consenting(agents, approvals, table.slots)
      ensures Onward(before, Snapshot())
    {
      hide Asked, Awaited, Onward, SlotsEvolve, Shown;
      NewSlotEvolves(before.slots, s);
      ShownAsTableGrows(approvals, before.slots, table.slots);
      OnwardSlots(before, table.slots);
    }

    /** Derive a weaker capability for the same agent. */
    method AttenuateVerb(agent: nat, capability: nat, narrower: Authority) returns (r: Result<nat, Denied>)
      requires Valid()
      modifies this`agents, table
      ensures Valid() && Onward(old(Snapshot()), Snapshot())
      ensures var may := MayDerive(old(table.slots), agent, capability, narrower);
              if may.Err? then r == Err(may.error) && Snapshot() == old(Snapshot())
              else
                && r == Ok(|old(table.slots)|)
                && table.slots == old(table.slots) + [Slot(narrower, agent, Some(capability), false)]
                && var i := Find(old(agents), agent);
                   agents == if i.None? then old(agents)
                     else old(agents)[i.value := Listed(old(agents)[i.value], r.value)]
    {
      hide Onward, Consenting, Honoured, Balanced, BooksMatch, IsSubsetOf, Numbered, Asked, Awaited, SlotsEvolve, Shown;
      r := table.Attenuate(agent, capability, narrower);
      if r.Err? {
        OnwardStill(Snapshot(), clock.now);
        return r;
      }
      TableGrew(old(Snapshot()), Slot(narrower, agent, Some(capability), false));
      label Derived:
      var stored := List(agent, r.value);
      OnwardTransitive(old(Snapshot()), old@Derived(Snapshot()), Snapshot());
    }

    /**
     * Spawn a child with a narrower capability and a carved budget. Everything is checked before
     * anything is created, so a refusal leaves no trace.
     */
    method DelegateVerb(parent: nat, capability: nat, narrower: Authority, money: u64, wall: nat)
      returns (r: Result<nat, Denied>)
      requires Valid()
      modifies this`agents, this`nextAgent, this`books, this`times, table, clock
      ensures Valid() && Onward(old(Snapshot()), Snapshot())
      ensures r.Err? ==>
                && Snapshot() == old(Snapshot())
                && books == old(books)
                && times == old(times)
                && nextAgent == old(nextAgent)
      ensures var may := MayDerive(old(table.slots), parent, capability, narrower);
              var i := Find(old(agents), parent);
              var split := if i.None? then None else Carve(old(agents)[i.value].budget, money, wall);
              if may.Err? then r == Err(may.error)
              else if split.None? then r == Err(BudgetExhausted)
              else
                && r == Ok(|old(agents)| + 1)
                && table.slots == old(table.slots) + [Slot(narrower, r.value, Some(capability), false)]
                && agents == old(agents)[i.value := old(agents)[i.value].(budget := split.value.parent)] +
                     [Agent(r.value, parent, Runnable, split.value.child,
                       clock.now + (if wall < 1000 then 1000 else wall), [|old(table.slots)|], 0, None, 0)]
                && books == Funded(old(books), i.value, money) && times == TimeFunded(old(times), i.value, wall)
    {
      hide Onward, Consenting, Honoured, Balanced, BooksMatch, IsSubsetOf, Numbered, Asked, Awaited, SlotsEvolve, Shown;
      hide ValidSlots, MayDerive, TimeFunded, Funded;
      var allowed := MayDerive(table.slots, parent, capability, narrower);
      if allowed.Err? {
        OnwardStill(Snapshot(), clock.now);
        return Err(allowed.error);
      }
      var i := Find(agents, parent);
      var split := if i.None? then None else Carve(agents[i.value].budget, money, wall);
      if split.None? {
        OnwardStill(Snapshot(), clock.now);
        return Err(BudgetExhausted);
      }
      var child := FundChild(i.value, split.value, money, wall);
      label Enlisted:
      HandOver(parent, child, capability, narrower);
      OnwardTransitive(old(Snapshot()), old@Enlisted(Snapshot()), Snapshot());
      LastUpdated(old(agents)[i.value := old(agents)[i.value].(budget := split.value.parent)],
        old@Enlisted(agents)[child - 1],
        agents[child - 1]);
      return Ok(child);
    }

    /** Derive the child's capability and list it: after the checks this cannot fail. */
    method HandOver(parent: nat, child: nat, capability: nat, narrower: Authority)
      requires Valid() && MayDerive(table.slots, parent, capability, narrower).Ok?
      requires 0 < child == |agents| && agents[child - 1].capabilities == []
      modifies this`agents, table
      ensures Valid() && Onward(old(Snapshot()), Snapshot())
      ensures table.slots == old(table.slots) + [Slot(narrower, child, Some(capability), false)]
      ensures agents == old(agents)[child - 1 := old(agents)[child - 1].(capabilities := [|old(table.slots)|])]
    {
      hide Onward, Consenting, Honoured, Balanced, BooksMatch, IsSubsetOf, Numbered, Asked, Awaited, SlotsEvolve, Shown;
      var derived := table.Delegate(parent, child, capability, narrower);
      TableGrew(old(Snapshot()), Slot(narrower, child, Some(capability), false));
      label Derived:
      ConsentingIsNumbered(agents, approvals, table.slots);
      FindByNumber(agents, child);
      assert [] + [derived.value] == [derived.value];
      var stored := List(child, derived.value);
      OnwardTransitive(old(Snapshot()), old@Derived(Snapshot()), Snapshot());
    }

    static lemma LastUpdated(others: seq<Agent>, last: Agent, later: Agent)
      ensures (others + [last])[|others| := later] == others + [later]
    {
    }

    /** Take the parent's share out of its budget and enlist the child with it. */
    method FundChild(i: nat, split: Split, money: u64, wall: nat) returns (child: nat)
      requires Valid() && i < |agents| && Carve(agents[i].budget, money, wall) == Some(split)
      modifies this`agents, this`nextAgent, this`books, this`times, clock
      ensures Valid() && Onward(old(Snapshot()), Snapshot())
      ensures child == |old(agents)| + 1 && books == Funded(old(books), i, money)
      ensures times == TimeFunded(old(times), i, wall)
      ensures agents == old(agents)[i := old(agents)[i].(budget := split.parent)] +
                [Agent(child, old(agents)[i].id, Runnable, split.child,
                  clock.now + (if wall < 1000 then 1000 else wall), [], 0, None, 0)]
    {
      hide Onward, Consenting, Honoured, Balanced, BooksMatch, ValidSlots, Carve;
      Fund(i, split, money, wall);
      agents := agents[i := agents[i].(budget := split.parent)];
      label Carved:
      child := Enlist(agents[i].id, split.child, if wall < 1000 then 1000 else wall);
      OnwardNewAgent(old@Carved(Snapshot()), agents[child - 1], clock.now);
      NewAgentKeepsConsent(old@Carved(agents), approvals, table.slots, agents[child - 1]);
      BooksAfterCarving(old(agents), books, times, i, split, money, wall, agents[child - 1]);
      books := Funded(books, i, money);
      times := TimeFunded(times, i, wall);
      OnwardTransitive(old(Snapshot()), old@Carved(Snapshot()), Snapshot());
    }

    /** What carving leaves in order, before and after the child is enlisted. */
    lemma Fund(i: nat, split: Split, money: u64, wall: nat)
      requires Valid() && i < |agents| && Carve(agents[i].budget, money, wall) == Some(split)
      ensures var parent := agents[i].(budget := split.parent);
              && Onward(Snapshot(), Snapshot().(agents := agents[i := parent]))
              && Consenting(agents[i := parent], approvals, table.slots)
              && i < |books| == |times| && Balanced(Funded(books, i, money)) && Balanced(TimeFunded(times, i, wall))
    {
      hide Onward, Consenting, Honoured, Balanced, BooksMatch, ValidSlots;
      var parent := agents[i].(budget := split.parent);
      MatchedAccount(agents, books, times, i);
      SpentWithin(agents, books, times, i, money);
      TimeFundingBalances(agents, books, times, i, money, wall);
      FundingBalances(books, i, money);
      OnwardAgent(Snapshot(), i, parent);
      AgentChangeKeepsConsent(agents, approvals, table.slots, i, parent);
    }

    /** Pay for an authorized crossing, and use up the yes if it needed one. */
    method Cross(agent: nat, capability: nat, authority: Authority, cost: u64) returns (charged: bool)
      requires Valid()
      requires Authorize(table.slots, agent, capability, Approved(agents, approvals, agent, capability)) ==
                Ok(authority)
      modifies this`agents, this`approvals, this`books, this`crossings
      ensures Valid() && Onward(old(Snapshot()), Snapshot())
      ensures CrossOutcome(old(Snapshot()), agent, capability, authority, cost, charged, Snapshot())
      ensures var i := Find(old(agents), agent);
              books == if charged then Paid(old(books), i.value, cost) else old(books)
    {
      hide Onward, Consenting, Honoured, Balanced, BooksMatch, ValidSlots, Backs;
      var i := Find(agents, agent);
      if i.None? {
        OnwardStill(Snapshot(), clock.now);
        return false;
      }
      var a := agents[i.value];
      if Remaining(a.budget) < cost {
        OnwardAgent(Snapshot(), i.value, Refused(a));
        AgentChangeKeepsConsent(agents, approvals, table.slots, i.value, Refused(a));
        BooksAfterAgent(agents, books, times, i.value, Refused(a));
        agents := agents[i.value := Refused(a)];
        return false;
      }
      SpentWithin(agents, books, times, i.value, cost);
      PayingBalances(books, i.value, cost);
      MatchedAccount(agents, books, times, i.value);
      BooksAfterBooking(agents, books, times, i.value, Crossed(a, cost, RiskOf(authority) == Irreversible),
        Paid(books, i.value, cost)[i.value]);
      if RiskOf(authority) != Irreversible {
        FreeCross(i.value, capability, authority, cost);
        agents := agents[i.value := Crossed(a, cost, false)];
        crossings := crossings + [Crossing(agent, capability, authority, None)];
      } else {
        ConsentedCross(i.value, capability, authority, cost);
        agents := agents[i.value := Crossed(a, cost, true)];
        crossings := crossings + [Crossing(agent, capability, authority, a.awaiting)];
        var k := FindRequest(approvals, a.awaiting.value);
        approvals := approvals[k.value := Used(approvals[k.value])];
      }
      books := Paid(books, i.value, cost);
      return true;
    }

    lemma FreeCross(i: nat, capability: nat, authority: Authority, cost: u64)
      requires Valid() && i < |agents| && cost <= Remaining(agents[i].budget) && RiskOf(authority) != Irreversible
      ensures var a := Crossed(agents[i], cost, false);
              var c := Crossing(agents[i].id, capability, authority, None);
              && Consenting(agents[i := a], approvals, table.slots)
              && Honoured(crossings + [c], approvals)
              && Onward(Snapshot(), Snapshot().(agents := agents[i := a], crossings := crossings + [c]))
    {
      hide Onward, Consenting, Honoured, Balanced, BooksMatch, ValidSlots, RiskOf;
      var a := Crossed(agents[i], cost, false);
      var c := Crossing(agents[i].id, capability, authority, None);
      AgentChangeKeepsConsent(agents, approvals, table.slots, i, a);
      FreeCrossingKeepsHonoured(crossings, approvals, c);
      OnwardAgent(Snapshot(), i, a);
      OnwardCrossing(Snapshot().(agents := agents[i := a]), c);
      OnwardTransitive(Snapshot(), Snapshot().(agents := agents[i := a]),
        Snapshot().(agents := agents[i := a], crossings := crossings + [c]));
    }

    /** The yes that is used up was given for this agent, this capability, and these words. */
    lemma ConsentedCross(i: nat, capability: nat, authority: Authority, cost: u64)
      requires Valid() && i < |agents| && cost <= Remaining(agents[i].budget) && RiskOf(authority) == Irreversible
      requires Authorize(table.slots, agents[i].id, capability,
                Approved(agents, approvals, agents[i].id, capability)) == Ok(authority)
      ensures agents[i].awaiting.Some? && 1 <= agents[i].awaiting.value <= |approvals|
      ensures FindRequest(approvals, agents[i].awaiting.value) == Some(agents[i].awaiting.value - 1)
      ensures var a := Crossed(agents[i], cost, true);
              var r := agents[i].awaiting.value;
              var used := approvals[r - 1 := Used(approvals[r - 1])];
              var c := Crossing(agents[i].id, capability, authority, Some(r));
              && Consenting(agents[i := a], used, table.slots)
              && Honoured(crossings + [c], used)
              && Onward(Snapshot(),
                   Snapshot().(agents := agents[i := a], approvals := used, crossings := crossings + [c]))
    {
      hide Onward, Consenting, Honoured, Balanced, BooksMatch, ValidSlots, Numbered, Approved;
      ConsentingIsNumbered(agents, approvals, table.slots);
      NumberOf(agents, i);
      ApprovedRequest(agents, approvals, agents[i].id, capability);
      var a := Crossed(agents[i], cost, true);
      var r := agents[i].awaiting.value;
      RequestByNumber(approvals, r);
      var used := approvals[r - 1 := Used(approvals[r - 1])];
      var c := Crossing(agents[i].id, capability, authority, Some(r));
      WordsShown(agents, approvals, table.slots, r - 1);
      UseKeepsConsent(agents, approvals, table.slots, i, a, r);
      UseKeepsHonoured(crossings, approvals, c, r);
      OnwardAgent(Snapshot(), i, a);
      OnwardCrossing(Snapshot().(agents := agents[i := a]), c);
      OnwardTransitive(Snapshot(), Snapshot().(agents := agents[i := a]),
        Snapshot().(agents := agents[i := a], crossings := crossings + [c]));
      OnwardApproval(Snapshot().(agents := agents[i := a], crossings := crossings + [c]), r - 1,
        Used(approvals[r - 1]));
      OnwardTransitive(Snapshot(), Snapshot().(agents := agents[i := a], crossings := crossings + [c]),
        Snapshot().(agents := agents[i := a], approvals := used, crossings := crossings + [c]));
    }

    /** The only way to touch anything. The kernel sets the price; a yes is consumed when used. */
    method Invoke(agent: nat, capability: nat) returns (r: Result<Authority, Denied>)
      requires Valid()
      modifies this`agents, this`approvals, this`books, this`crossings
      ensures Valid() && Onward(old(Snapshot()), Snapshot())
      ensures var allowed := Authorize(old(table.slots), agent, capability,
                Approved(old(agents), old(approvals), agent, capability));
              if allowed.Err? then r == Err(allowed.error) && Snapshot() == old(Snapshot())
              else
                && r == (if r.Ok? then allowed else Err(BudgetExhausted))
                && CrossOutcome(old(Snapshot()), agent, capability, allowed.value, PriceOf(allowed.value), r.Ok?,
                     Snapshot())
    {
      hide Onward, Consenting, Honoured, Balanced, BooksMatch, ValidSlots, CrossOutcome, PriceOf;
      var approved := Approved(agents, approvals, agent, capability);
      var allowed := Authorize(table.slots, agent, capability, approved);
      if allowed.Err? {
        OnwardStill(Snapshot(), clock.now);
        return allowed;
      }
      var charged := Cross(agent, capability, allowed.value, PriceOf(allowed.value));
      return if charged then allowed else Err(BudgetExhausted);
    }

    /** Exercise a spending capability for an amount under its own ceiling. */
    method SpendVerb(agent: nat, capability: nat, microDollars: u64) returns (r: Result<(), Denied>)
      requires Valid()
      modifies this`agents, this`approvals, this`books, this`crossings
      ensures Valid() && Onward(old(Snapshot()), Snapshot())
      ensures var allowed := Authorize(old(table.slots), agent, capability,
                Approved(old(agents), old(approvals), agent, capability));
              if allowed.Err? then r == Err(allowed.error) && Snapshot() == old(Snapshot())
              else if !Permits(allowed.value, Pay(microDollars)) then
                r == Err(NotASubset) && Snapshot() == old(Snapshot())
              else
                && r == (if r.Ok? then Ok(()) else Err(BudgetExhausted))
                && CrossOutcome(old(Snapshot()), agent, capability, allowed.value, microDollars, r.Ok?, Snapshot())
    {
      hide Onward, Consenting, Honoured, Balanced, BooksMatch, ValidSlots, CrossOutcome;
      var approved := Approved(agents, approvals, agent, capability);
      var allowed := Authorize(table.slots, agent, capability, approved);
      if allowed.Err? {
        OnwardStill(Snapshot(), clock.now);
        return Err(allowed.error);
      }
      if !allowed.value.Spend? || microDollars > allowed.value.microDollars {
        OnwardStill(Snapshot(), clock.now);
        return Err(NotASubset);
      }
      var charged := Cross(agent, capability, allowed.value, microDollars);
      return if charged then Ok(()) else Err(BudgetExhausted);
    }

    /**
     * Ask the human about one capability. Asking the same thing again gives the same question
     * back, and an agent may not queue more than four.
     */
    method RequestApproval(agent: nat, capability: nat) returns (r: Result<nat, Denied>)
      requires Valid()
      modifies this`agents, this`approvals, this`nextApproval
      ensures Valid() && Onward(old(Snapshot()), Snapshot())
      ensures var slot := Lookup(old(table.slots), capability, agent);
              var existing := FindOpen(old(approvals), agent, capability);
              if slot.Err? then r == Err(slot.error) && Snapshot() == old(Snapshot())
              else if existing.Some? then r == Ok(old(approvals)[existing.value].id) && Snapshot() == old(Snapshot())
              else if PendingCount(old(approvals), agent) >= 4 then
                r == Err(NotASubset) && Snapshot() == old(Snapshot())
              else
                && r == Ok(|old(approvals)| + 1)
                && approvals == old(approvals) +
                     [Approval(r.value, agent, capability, Describe(slot.value.authority), None, false)]
                && (var i := Find(old(agents), agent);
                    agents == if i.None? then old(agents)
                      else old(agents)[i.value := old(agents)[i.value].(awaiting := Some(r.value))])
    {
      hide Onward, Consenting, Honoured, Balanced, BooksMatch, ValidSlots, Describe, PendingCount;
      var slot := Lookup(table.slots, capability, agent);
      if slot.Err? {
        OnwardStill(Snapshot(), clock.now);
        return Err(slot.error);
      }
      var existing := FindOpen(approvals, agent, capability);
      if existing.Some? {
        OnwardStill(Snapshot(), clock.now);
        return Ok(approvals[existing.value].id);
      }
      if PendingCount(approvals, agent) >= MAX_PENDING_APPROVALS {
        OnwardStill(Snapshot(), clock.now);
        return Err(NotASubset);
      }
      var id := nextApproval;
      var request := Approval(id, agent, capability, Describe(slot.value.authority), None, false);
      Ask(request);
      nextApproval := nextApproval + 1;
      approvals := approvals + [request];
      var i := Find(agents, agent);
      if i.Some? {
        agents := agents[i.value := agents[i.value].(awaiting := Some(id))];
      }
      return Ok(id);
    }

    /** A new question, and the agent now waiting on it. */
    lemma Ask(request: Approval)
      requires Valid() && request.id == nextApproval && request.answered.None? && !request.consumed
      requires FindOpen(approvals, request.agent, request.capability).None?
      requires PendingCount(approvals, request.agent) < 4
      requires Lookup(table.slots, request.capability, request.agent).Ok?
      requires request.what == Describe(table.slots[request.capability].authority)
      ensures var i := Find(agents, request.agent);
              var asking := if i.None? then agents
                else agents[i.value := agents[i.value].(awaiting := Some(request.id))];
              && BooksMatch(asking, books, times)
              && Consenting(asking, approvals + [request], table.slots)
              && Honoured(crossings, approvals + [request])
              && Onward(Snapshot(), Snapshot().(agents := asking, approvals := approvals + [request]))
    {
      hide Onward, Consenting, Honoured, Balanced, BooksMatch, ValidSlots, Describe, PendingCount, FindOpen;
      var i := Find(agents, request.agent);
      var more := approvals + [request];
      RequestKeepsHonoured(crossings, approvals, request);
      AskingKeepsConsent(agents, approvals, table.slots, request);
      OnwardNewApproval(Snapshot(), request);
      if i.Some? {
        var a := agents[i.value].(awaiting := Some(request.id));
        BooksAfterAgent(agents, books, times, i.value, a);
        OnwardAgent(Snapshot().(approvals := more), i.value, a);
        OnwardTransitive(Snapshot(), Snapshot().(approvals := more),
          Snapshot().(approvals := more, agents := agents[i.value := a]));
      }
    }

    /** The human answers, once. A yes wakes the agent parked on it; a no ends it. */
    method AnswerApproval(request: nat, approved: bool)
      requires Valid()
      modifies this`agents, this`approvals, this`resets, clock
      ensures Valid() && Onward(old(Snapshot()), Snapshot()) && OnlyAnswers(old(Snapshot()), Snapshot())
      ensures AnswerOutcome(old(Snapshot()), request, approved, Snapshot())
    {
      hide Onward, Consenting, Honoured, Balanced, BooksMatch, ValidSlots;
      var k := FindRequest(approvals, request);
      if k.None? || approvals[k.value].answered.Some? {
        OnwardStill(Snapshot(), clock.now);
        return;
      }
      approvals := approvals[k.value := approvals[k.value].(answered := Some(approved))];
      var i := Find(agents, approvals[k.value].agent);
      if i.Some? && agents[i.value].awaiting == Some(request) {
        var now := clock.now;
        if approved {
          now := clock.Now();
          resets := resets + [Answered(agents[i.value].id, now, request)];
        }
        agents := agents[i.value := AnsweredAgent(agents[i.value], approved, now)];
      }
      AnswerKeeps(old(Snapshot()), books, times, request, approved, Snapshot());
    }

    /** Book what the kernel observed after the fact. */
    method Charge(agent: nat, amount: u64)
      requires Valid()
      modifies this`agents, this`books
      ensures Valid() && Onward(old(Snapshot()), Snapshot())
      ensures var i := Find(old(agents), agent);
              Snapshot() == if i.None? then old(Snapshot())
                else old(Snapshot()).(agents := old(agents)[i.value := ChargedAgent(old(agents)[i.value], amount)])
      ensures var i := Find(old(agents), agent);
              if i.None? then books == old(books)
              else
                var booked := agents[i.value].budget.spent - old(agents)[i.value].budget.spent;
                0 <= booked <= amount && books == Charged(old(books), i.value, booked, amount)
      ensures var i := Find(old(agents), agent);
              i.Some? ==>
                && OthersKept(old(agents), agents, i.value)
                && var (a, a') := (old(agents)[i.value], agents[i.value]);
                && a'.budget.spent == (if a.budget.spent + amount < TWO_64 then a.budget.spent + amount else TWO_64 - 1)
                && a'.budget == a.budget.(spent := a'.budget.spent)
                && a'.state == (if a'.budget.spent >= a'.budget.microDollars
                                  || (a'.budget.wall != 0 && a'.budget.used >= a'.budget.wall) then Suspended
                                else a.state)
                && a' == a.(budget := a'.budget, state := a'.state)
    {
      hide Onward, Consenting, Honoured, Balanced, BooksMatch, ValidSlots;
      var i := Find(agents, agent);
      if i.None? {
        OnwardStill(Snapshot(), clock.now);
        return;
      }
      var a := ChargedAgent(agents[i.value], amount);
      ghost var booked := a.budget.spent - agents[i.value].budget.spent;
      OnwardAgent(Snapshot(), i.value, a);
      AgentChangeKeepsConsent(agents, approvals, table.slots, i.value, a);
      MatchedAccount(agents, books, times, i.value);
      ChargingBalances(books, i.value, booked, amount);
      BooksAfterBooking(agents, books, times, i.value, a, Charged(books, i.value, booked, amount)[i.value]);
      books := Charged(books, i.value, booked, amount);
      agents := agents[i.value := a];
    }

    /** Take back a capability and everything derived from it. */
    method Revoke(capability: nat) returns (revoked: nat)
      requires Valid()
      modifies table
      ensures Valid() && Onward(old(Snapshot()), Snapshot())
      ensures RevokedTree(old(table.slots), table.slots, capability)
      ensures revoked == |NewlyRevoked(old(table.slots), table.slots)|
    {
      hide Onward, Honoured, Balanced, BooksMatch, RevokedTree, NewlyRevoked, NumberedAgents, Numbered, Asked, Awaited;
      hide Shown, SlotsEvolve;
      revoked := table.RevokeTree(capability);
      RevokingEvolves(old(table.slots), table.slots, capability);
      OnwardSlots(old(Snapshot()), table.slots);
      ShownAsTableGrows(approvals, old(table.slots), table.slots);
    }

    /** Any call that agent code, or the kernel around it, may make at the gate. */
    method Perform(call: Call)
      requires Valid()
      modifies this, table, clock
      ensures Valid() && Onward(old(Snapshot()), Snapshot()) && OnlyAnswers(old(Snapshot()), Snapshot())
    {
      hide Onward, Consenting, Honoured, Balanced, BooksMatch, ValidSlots, CrossOutcome, AnswerOutcome, RevokedTree;
      match call {
      case CallSpawn(parent, budget, deadline) => var _ := Spawn(parent, budget, deadline);
      case CallGrant(agent, authority) => var _ := Grant(agent, authority);
      case CallDelegate(parent, capability, narrower, money, wall) => var _ := DelegateVerb(parent, capability,
        narrower, money, wall);
      case CallAttenuate(agent, capability, narrower) => var _ := AttenuateVerb(agent, capability, narrower);
      case CallInvoke(agent, capability) => var _ := Invoke(agent, capability);
      case CallSpend(agent, capability, amount) => var _ := SpendVerb(agent, capability, amount);
      case CallRequest(agent, capability) => var _ := RequestApproval(agent, capability);
      case CallAnswer(request, approved) => AnswerApproval(request, approved);
      case CallCharge(agent, amount) => Charge(agent, amount);
      case CallRevoke(capability) => var _ := Revoke(capability);
      }
      Grown(old(Snapshot()), Snapshot());
    }

    method PerformAll(calls: seq<Call>)
      requires Valid()
      modifies this, table, clock
      ensures Valid() && Onward(old(Snapshot()), Snapshot()) && OnlyAnswers(old(Snapshot()), Snapshot())
    {
      hide Onward, OnlyAnswers, Valid;
      OnwardStill(Snapshot(), clock.now);
      for i := 0 to |calls|
        invariant Valid() && Onward(old(Snapshot()), Snapshot()) && OnlyAnswers(old(Snapshot()), Snapshot())
      {
        ghost var before := Snapshot();
        Perform(calls[i]);
        OnwardTransitive(old(Snapshot()), before, Snapshot());
        OnlyAnswersTransitive(old(Snapshot()), before, Snapshot());
      }
    }

    /** What comes back from the agent after a step, and what it reported, decides its state. */
    method EndStep(i: nat, script: Script, elapsed: nat) returns (completed: bool)
      requires Valid() && i < |agents|
      modifies this`agents, this`times, this`resets, clock
      ensures Valid() && Onward(old(Snapshot()), Snapshot())
      ensures i < |agents| && Behind(agents[i], old(clock.now)) && Ruled(script.progress, agents[i])
      ensures completed <==> (script.progress == Done || script.progress == Failed) && agents[i].state != Suspended
      ensures old(clock.now) <= clock.now && Snapshot() == AfterStep(old(Snapshot()), i, script, elapsed, clock.now)
      ensures i < |old(times)| && times == Worked(old(times), i, elapsed)
      ensures OthersKept(old(agents), agents, i)
      ensures var (a, a') := (old(agents)[i], agents[i]);
              && a'.budget == a.budget.(used := a.budget.used + elapsed) && a'.cursor == script.cursor
              && a'.state == Reported(a.state, script.progress, HasLeft(a'.budget))
              && a'.deadline == (if a.state != Suspended && script.progress == Continue && HasLeft(a'.budget)
                                 then clock.now + 1 else a.deadline)
              && a' == a.(budget := a'.budget, cursor := a'.cursor, state := a'.state, deadline := a'.deadline)
    {
      hide Onward, Consenting, Honoured, Balanced, BooksMatch, ValidSlots;
      MatchedAccount(agents, books, times, i);
      var a := agents[i].(cursor := script.cursor,
        budget := agents[i].budget.(used := agents[i].budget.used + elapsed));
      completed := false;
      if a.state != Suspended {
        match script.progress {
          case Continue =>
            if Exhausted(a.budget) {
              a := a.(state := Suspended);
            } else {
              var now := clock.Now();
              a := a.(deadline := now + 1);
            }
          case AwaitConsent => a := a.(state := AwaitingConsent);
          case Done => a := a.(state := Finished); completed := true;
          case Failed => a := a.(state := Killed); completed := true;
        }
      }
      EndingIsOnward(old(Snapshot()), i, script, elapsed, clock.now);
      AgentChangeKeepsConsent(agents, approvals, table.slots, i, a);
      BooksAfterWork(agents, books, times, i, a, elapsed);
      WorkingBalances(times, i, elapsed);
      times := Worked(times, i, elapsed);
      if Continues(agents[i], script, elapsed) {
        resets := resets + [Continued(i + 1, a.deadline)];
      }
      agents := agents[i := a];
      assert old(resets) + [] == old(resets);
    }

    /** Run agents, earliest deadline first, until none is ready. Agent code may call any verb. */
    method RunUntilIdle(maxSteps: nat, behaviour: nat -> Script) returns (completed: nat, ghost turns: seq<Turn>)
      requires Valid()
      modifies this, table, clock
      ensures Valid() && Onward(old(Snapshot()), Snapshot())
      ensures Schedule(turns) && completed == Completions(turns)
      ensures |turns| == maxSteps || (|turns| < maxSteps && Earliest(agents) == None)
      ensures |turns| < maxSteps ==>
                forall i :: 0 <= i < |agents| ==> agents[i].state != Runnable || !HasLeft(agents[i].budget)
      ensures forall k :: 0 <= k < |turns| ==> DueWithMeans(turns[k].before.agents, turns[k].chosen)
      ensures |turns| > 0 ==> turns[0].before == old(Snapshot()) && turns[|turns| - 1].after == Snapshot()
    {
      hide Onward, Valid, Schedule, Stepped, HasLeft, Earliest, DueWithMeans;
      completed, turns := 0, [];
      OnwardStill(Snapshot(), clock.now);
      NoTurns();
      for step := 0 to maxSteps
        invariant Valid() && Onward(old(Snapshot()), Snapshot())
        invariant Schedule(turns) && |turns| == step && completed == Completions(turns)
        invariant |turns| > 0 ==> turns[0].before == old(Snapshot()) && turns[|turns| - 1].after == Snapshot()
        invariant |turns| == 0 ==> Snapshot() == old(Snapshot())
        invariant forall k :: 0 <= k < |turns| ==> DueWithMeans(turns[k].before.agents, turns[k].chosen)
      {
        var chosen := Earliest(agents);
        if chosen.None? {
          break;
        }
        ChosenIsDue(agents);
        ghost var before := Snapshot();
        var script := behaviour(step);
        var ended, _, _ := Step(chosen.value, script);
        ghost var turn := Turn(before, chosen.value, script.progress, Snapshot());
        OnwardTransitive(old(Snapshot()), before, Snapshot());
        TurnAdds(turns, turn);
        turns := turns + [turn];
        if ended {
          completed := completed + 1;
        }
      }
    }

    /** One agent's step: its own calls, and then the verdict on what it reported. */
    method Step(i: nat, script: Script) returns (completed: bool, ghost called: World, ghost elapsed: nat)
      requires Valid() && Earliest(agents) == Some(i)
      modifies this, table, clock
      ensures Valid() && Onward(old(Snapshot()), Snapshot())
      ensures Stepped(Turn(old(Snapshot()), i, script.progress, Snapshot()))
      ensures completed <==> i < |agents| && Completes(Turn(old(Snapshot()), i, script.progress, Snapshot()))
      ensures i < |called.agents| && Snapshot() == AfterStep(called, i, script, elapsed, clock.now)
      ensures called.now == old(clock.now) + clock.advance(old(clock.readings)) + elapsed
    {
      hide Onward, OnlyAnswers, Valid, Ruled, Behind, Earliest;
      var started := clock.Now();
      OnwardStill(old(Snapshot()), clock.now);
      label Started:
      PerformAll(script.calls);
      OnwardTransitive(old(Snapshot()), old@Started(Snapshot()), Snapshot());
      OnlyAnswersTransitive(old(Snapshot()), old@Started(Snapshot()), Snapshot());
      label Called:
      var ended := clock.Now();
      OnwardStill(old@Called(Snapshot()), clock.now);
      OnwardTransitive(old(Snapshot()), old@Called(Snapshot()), Snapshot());
      OnlyAnswersTransitive(old(Snapshot()), old@Called(Snapshot()), Snapshot());
      label Timed:
      Grown(old(Snapshot()), Snapshot());
      OnwardTransitive(old@Started(Snapshot()), old@Called(Snapshot()), Snapshot());
      Grown(old@Started(Snapshot()), Snapshot());
      var spent := if ended >= started then ended - started else 0;
      called, elapsed := Snapshot(), spent;
      completed := EndStep(i, script, spent);
      StepTaken(old(Snapshot()), old@Timed(Snapshot()), i, script, spent, clock.now);
    }

    /**
     * Conservation: whatever happened, a delegation subtree has spent on its own behalf no more
     * than its root was granted, plus what the kernel charged its members after the fact.
     */
    lemma SubtreeNeverOverspends(root: nat)
      requires Valid() && root < |agents|
      ensures |books| == |agents|
      ensures OwnUnder(books, root, |books|) <= agents[root].budget.microDollars + ChargedUnder(books, root, |books|)
      ensures agents[root].budget.spent == books[root].own + Carved(books, root, |books|)
    {
      hide Consenting, Honoured, ValidSlots;
      MatchedAccount(agents, books, times, root);
      SubtreeWithinGrant(books, root);
    }

    /**
     * The same of wall time: the members of a delegation subtree whose root's time is bounded have
     * bounded time too, and have worked no longer altogether than the root was allowed, plus what
     * each took beyond its own share in its last step.
     */
    lemma SubtreeNeverOutlasts(root: nat)
      requires Valid() && root < |agents| && agents[root].budget.wall != 0
      ensures |books| == |times| == |agents|
      ensures forall i :: 0 <= i < |agents| ==> (Under(times, i, root) <==> Under(books, i, root))
      ensures forall i :: 0 <= i < |agents| && Under(books, i, root) ==> agents[i].budget.wall != 0
      ensures OwnUnder(times, root, |times|) <= agents[root].budget.wall + ChargedUnder(times, root, |times|)
      ensures agents[root].budget.used == times[root].own + Carved(times, root, |times|)
      ensures forall i :: 0 <= i < |agents| ==> times[i].charged == Excess(agents[i].budget.used, agents[i].budget.wall)
      ensures forall i :: 0 <= i < |agents| && Ready(agents[i]) && agents[i].budget.wall != 0 ==> times[i].charged == 0
    {
      hide Consenting, Honoured, ValidSlots;
      MatchedAccount(agents, books, times, root);
      SubtreeWithinGrant(times, root);
      forall i | 0 <= i < |agents|
        ensures Under(times, i, root) <==> Under(books, i, root)
        ensures Under(books, i, root) ==> agents[i].budget.wall != 0
      {
        SameTree(i, root);
      }
    }

    /** Under a root of bounded time, time is carved wherever money is. */
    lemma {:induction false} SameTree(i: nat, root: nat)
      requires Valid() && root < |agents| && agents[root].budget.wall != 0 && i < |agents| == |books| == |times|
      ensures Under(times, i, root) <==> Under(books, i, root)
      ensures Under(books, i, root) ==> agents[i].budget.wall != 0
      decreases i
    {
      hide Consenting, Honoured, ValidSlots;
      if i != root && books[i].funder.From? {
        SameTree(books[i].funder.index, root);
      }
    }

    /**
     * Consent: behind every irreversible crossing of any run stands a request of that agent for that
     * capability, shown in the words for that authority, answered yes, and used by no other crossing.
     */
    lemma IrreversibleNeedsItsOwnYes(i: nat)
      requires Valid() && i < |crossings| && RiskOf(crossings[i].authority) == Irreversible
      ensures crossings[i].approval.Some? && 1 <= crossings[i].approval.value <= |approvals|
      ensures Backs(approvals[crossings[i].approval.value - 1], crossings[i])
      ensures forall j :: 0 <= j < |crossings| && j != i ==> crossings[j].approval != crossings[i].approval
    {
      hide Consenting, Balanced, BooksMatch, ValidSlots, RiskOf, Backs;
    }
  }
}
