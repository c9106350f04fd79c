/**
 * Consent requests: what a human was asked, what they answered, and the crossings their answers
 * authorized. Answers are bound to one agent and one capability, and are used once.
 */
module Consent {
  import opened Basics
  import opened Aman
  import opened Agents

  const MAX_PENDING_APPROVALS: nat := 4

  datatype Approval = Approval(id: nat, agent: nat, capability: nat, what: string, answered: Option<bool>,
        consumed: bool)

  /** A successful exercise of a capability, and the request it consumed, if its risk called for one. */
  datatype Crossing = Crossing(agent: nat, capability: nat, authority: Authority, approval: Option<nat>)

  /** The unanswered request of this agent for this capability. */
  function FindOpen(approvals: seq<Approval>, agent: nat, capability: nat): (r: Option<nat>)
    ensures r.Some? ==> r.value < |approvals| && Asks(approvals[r.value], agent, capability)
    ensures r.None? ==> forall k :: 0 <= k < |approvals| ==> !Asks(approvals[k], agent, capability)
  {
    if approvals == [] then None
    else if Asks(approvals[0], agent, capability) then Some(0)
    else
      var rest := FindOpen(approvals[1..], agent, capability);
      if rest.None? then None else Some(rest.value + 1)
  }

  predicate Asks(a: Approval, agent: nat, capability: nat) {
    a.agent == agent && a.capability == capability && a.answered.None?
  }

  function FindRequest(approvals: seq<Approval>, id: nat): (r: Option<nat>)
    ensures r.Some? ==> r.value < |approvals| && approvals[r.value].id == id
    ensures r.None? ==> forall k :: 0 <= k < |approvals| ==> approvals[k].id != id
  {
    if approvals == [] then None
    else if approvals[0].id == id then Some(0)
    else
      var rest := FindRequest(approvals[1..], id);
      if rest.None? then None else Some(rest.value + 1)
  }

  /** How many questions of this agent are still unanswered. */
  function PendingCount(approvals: seq<Approval>, agent: nat): nat {
    if approvals == [] then 0
    else
      var last := |approvals| - 1;
      var pending := approvals[last].agent == agent && approvals[last].answered.None?;
      PendingCount(approvals[..last], agent) + if pending then 1 else 0
  }

  ghost function OpenQuestions(approvals: seq<Approval>, agent: nat): set<nat> {
    set k: nat | k < |approvals| && approvals[k].agent == agent && approvals[k].answered.None?
  }

  /** The count is of the agent's open questions, each once. */
  lemma {:induction false} PendingCountCounts(approvals: seq<Approval>, agent: nat)
    ensures PendingCount(approvals, agent) == |OpenQuestions(approvals, agent)|
  {
    if approvals != [] {
      var last := |approvals| - 1;
      PendingCountCounts(approvals[..last], agent);
      var before := OpenQuestions(approvals[..last], agent);
      var open := approvals[last].agent == agent && approvals[last].answered.None?;
      assert OpenQuestions(approvals, agent) == before + if open then {last} else {};
    }
  }

  /** A live yes for exactly this: request, agent and capability. */
  predicate Grants(a: Approval, request: nat, agent: nat, capability: nat) {
    && a.id == request
    && a.agent == agent
    && a.capability == capability
    && a.answered == Some(true)
    && !a.consumed
  }

  predicate Approved(agents: seq<Agent>, approvals: seq<Approval>, agent: nat, capability: nat) {
    var found := Find(agents, agent);
    && found.Some?
    && agents[found.value].awaiting.Some?
    && exists k :: 0 <= k < |approvals| && Grants(approvals[k], agents[found.value].awaiting.value, agent, capability)
  }

  // ----- what every run keeps -----

  ghost predicate NumberedAgents(agents: seq<Agent>) {
    forall i :: 0 <= i < |agents| ==> agents[i].id == i + 1
  }

  ghost predicate Numbered(approvals: seq<Approval>) {
    forall k :: 0 <= k < |approvals| ==> approvals[k].id == k + 1
  }

  /** The human saw the kernel's words for the capability the request names. */
  ghost predicate Shown(approvals: seq<Approval>, slots: seq<Slot>) {
    forall k :: 0 <= k < |approvals| ==>
      && approvals[k].capability < |slots|
      && slots[approvals[k].capability].holder == approvals[k].agent
      && approvals[k].what == Describe(slots[approvals[k].capability].authority)
  }

  /** Only a yes is used up, nobody is asked the same thing twice at once, and few things at once. */
  ghost predicate Asked(approvals: seq<Approval>) {
    && (forall k :: 0 <= k < |approvals| && approvals[k].consumed ==> approvals[k].answered == Some(true))
    && (forall j, k :: 0 <= j < k < |approvals| && approvals[j].answered.None? && approvals[k].answered.None? ==>
          approvals[j].agent != approvals[k].agent || approvals[j].capability != approvals[k].capability)
    && (forall agent :: PendingCount(approvals, agent) <= 4)
  }

  /** An agent waits only on a request of its own that is neither used up nor rejected. */
  ghost predicate Awaited(agents: seq<Agent>, approvals: seq<Approval>) {
    forall i :: 0 <= i < |agents| && agents[i].awaiting.Some? ==>
      && 1 <= agents[i].awaiting.value <= |approvals|
      && (var a := approvals[agents[i].awaiting.value - 1];
          a.agent == agents[i].id && !a.consumed && a.answered != Some(false))
  }

  ghost predicate Consenting(agents: seq<Agent>, approvals: seq<Approval>, slots: seq<Slot>) {
    && NumberedAgents(agents) && Numbered(approvals)
    && Shown(approvals, slots) && Asked(approvals) && Awaited(agents, approvals)
  }

  lemma ConsentingIsNumbered(agents: seq<Agent>, approvals: seq<Approval>, slots: seq<Slot>)
    requires Consenting(agents, approvals, slots)
    ensures NumberedAgents(agents) && Numbered(approvals)
  {
    hide Shown, Asked, Awaited;
  }

  /** The request behind a crossing: answered yes, for the same agent, the same capability, in those words. */
  ghost predicate Backs(a: Approval, c: Crossing) {
    && a.answered == Some(true)
    && a.consumed
    && a.agent == c.agent
    && a.capability == c.capability
    && a.what == Describe(c.authority)
  }

  /**
   * One yes, one action: no two irreversible crossings share a request, and there are as many of
   * them as there are requests used up, so they are matched one to one.
   */
  ghost predicate Honoured(crossings: seq<Crossing>, approvals: seq<Approval>) {
    && (forall i :: 0 <= i < |crossings| ==>
         (crossings[i].approval.Some? <==> RiskOf(crossings[i].authority) == Irreversible))
    && (forall i :: 0 <= i < |crossings| && crossings[i].approval.Some? ==>
          && 1 <= crossings[i].approval.value <= |approvals|
          && Backs(approvals[crossings[i].approval.value - 1], crossings[i]))
    && (forall i, j :: 0 <= i < j < |crossings| && crossings[i].approval.Some? ==>
         crossings[i].approval != crossings[j].approval)
    && IrreversibleCount(crossings) == UsedCount(approvals)
  }

  function IrreversibleCount(crossings: seq<Crossing>): nat {
    if crossings == [] then 0
    else
      var last := |crossings| - 1;
      IrreversibleCount(crossings[..last]) + if RiskOf(crossings[last].authority) == Irreversible then 1 else 0
  }

  function UsedCount(approvals: seq<Approval>): nat {
    if approvals == [] then 0
    else
      var last := |approvals| - 1;
      UsedCount(approvals[..last]) + if approvals[last].consumed then 1 else 0
  }

  /** Requests are appended; an answer, once given, and a use, once made, stay. */
  ghost predicate Evolves(approvals: seq<Approval>, approvals': seq<Approval>) {
    && |approvals| <= |approvals'|
    && forall k :: 0 <= k < |approvals| ==> ApprovalEvolves(approvals[k], approvals'[k])
  }

  predicate ApprovalEvolves(a: Approval, a': Approval) {
    && a'.id == a.id && a'.agent == a.agent && a'.capability == a.capability && a'.what == a.what
    && (a.answered.Some? ==> a'.answered == a.answered)
    && (a.consumed ==> a'.consumed)
  }

  // ----- how the pieces change -----

  lemma FindByNumber(agents: seq<Agent>, id: nat)
    requires NumberedAgents(agents)
    ensures Find(agents, id) == if 1 <= id <= |agents| then Some(id - 1) else None
  {
    if 1 <= id <= |agents| {
      assert agents[id - 1].id == id;
    }
  }

  lemma RequestByNumber(approvals: seq<Approval>, id: nat)
    requires Numbered(approvals)
    ensures FindRequest(approvals, id) == if 1 <= id <= |approvals| then Some(id - 1) else None
  {
    if 1 <= id <= |approvals| {
      assert approvals[id - 1].id == id;
    }
  }

  /** An approved agent waits on the very request that grants. */
  lemma ApprovedRequest(agents: seq<Agent>, approvals: seq<Approval>, agent: nat, capability: nat)
    requires NumberedAgents(agents) && Numbered(approvals)
    ensures Approved(agents, approvals, agent, capability) <==>
              && 1 <= agent <= |agents|
              && agents[agent - 1].awaiting.Some?
              && var r := agents[agent - 1].awaiting.value;
                 1 <= r <= |approvals| && Grants(approvals[r - 1], r, agent, capability)
  {
    FindByNumber(agents, agent);
  }

  lemma {:induction false} AnsweringReleases(approvals: seq<Approval>, k: nat, a: Approval, agent: nat)
    requires k < |approvals| && a.agent == approvals[k].agent
    requires a.answered.None? ==> approvals[k].answered.None?
    ensures PendingCount(approvals[k := a], agent) <= PendingCount(approvals, agent)
    decreases |approvals|
  {
    var last := |approvals| - 1;
    if k < last {
      assert approvals[k := a][..last] == approvals[..last][k := a];
      AnsweringReleases(approvals[..last], k, a, agent);
    } else {
      assert approvals[k := a][..last] == approvals[..last];
    }
  }

  /** Answering or using up one request keeps the asking rules. */
  lemma ApprovalChangeKeepsAsked(approvals: seq<Approval>, k: nat, a: Approval)
    requires Asked(approvals) && k < |approvals| && ApprovalEvolves(approvals[k], a)
    requires a.consumed ==> a.answered == Some(true)
    ensures Asked(approvals[k := a])
  {
    var changed := approvals[k := a];
    forall agent ensures PendingCount(changed, agent) <= 4 {
      AnsweringReleases(approvals, k, a, agent);
    }
  }

  lemma NewRequestKeepsAsked(approvals: seq<Approval>, a: Approval)
    requires Asked(approvals) && a.answered.None? && !a.consumed
    requires PendingCount(approvals, a.agent) < 4
    requires forall k :: 0 <= k < |approvals| ==> !Asks(approvals[k], a.agent, a.capability)
    ensures Asked(approvals + [a])
  {
    var longer := approvals + [a];
    assert longer[..|approvals|] == approvals;
    assert forall agent ::
      PendingCount(longer, agent) <= PendingCount(approvals, agent) + if a.agent == agent then 1 else 0;
    forall j, k | 0 <= j < k < |longer| && longer[j].answered.None? && longer[k].answered.None?
      ensures longer[j].agent != longer[k].agent || longer[j].capability != longer[k].capability
    {
      if k == |approvals| {
        assert !Asks(approvals[j], a.agent, a.capability);
      }
    }
  }

  lemma ShownAsTableGrows(approvals: seq<Approval>, slots: seq<Slot>, slots': seq<Slot>)
    requires Shown(approvals, slots) && SlotsEvolve(slots, slots')
    ensures Shown(approvals, slots')
  {
  }

  /** An agent whose wait is unchanged or over breaks no rule. */
  lemma AgentChangeKeepsConsent(agents: seq<Agent>, approvals: seq<Approval>, slots: seq<Slot>, i: nat, a: Agent)
    requires Consenting(agents, approvals, slots) && i < |agents|
    requires a.id == agents[i].id && (a.awaiting == agents[i].awaiting || a.awaiting == None)
    ensures Consenting(agents[i := a], approvals, slots)
  {
    hide Shown, Asked;
  }

  lemma NewAgentKeepsConsent(agents: seq<Agent>, approvals: seq<Approval>, slots: seq<Slot>, a: Agent)
    requires Consenting(agents, approvals, slots) && a.id == |agents| + 1 && a.awaiting == None
    ensures Consenting(agents + [a], approvals, slots)
  {
    hide Shown, Asked;
  }

  lemma ApprovalChangeKeepsShown(approvals: seq<Approval>, slots: seq<Slot>, k: nat, a: Approval)
    requires Shown(approvals, slots) && k < |approvals| && ApprovalEvolves(approvals[k], a)
    ensures Shown(approvals[k := a], slots)
  {
    hide Describe;
  }

  /** No other agent waits on a request of this one. */
  lemma UseKeepsAwaited(agents: seq<Agent>, approvals: seq<Approval>, i: nat, a: Agent, request: nat)
    requires NumberedAgents(agents) && Awaited(agents, approvals) && i < |agents|
    requires a.awaiting == None && agents[i].awaiting == Some(request)
    requires 1 <= request <= |approvals|
    ensures Awaited(agents[i := a], approvals[request - 1 := approvals[request - 1].(consumed := true)])
  {
  }

  /** A new question keeps the rules, and may become what its agent waits on. */
  lemma AskingKeepsConsent(agents: seq<Agent>, approvals: seq<Approval>, slots: seq<Slot>, a: Approval)
    requires Consenting(agents, approvals, slots)
    requires a.id == |approvals| + 1 && a.answered.None? && !a.consumed
    requires FindOpen(approvals, a.agent, a.capability).None? && PendingCount(approvals, a.agent) < 4
    requires Lookup(slots, a.capability, a.agent).Ok? && a.what == Describe(slots[a.capability].authority)
    ensures var i := Find(agents, a.agent);
            Consenting(if i.None? then agents
              else agents[i.value := agents[i.value].(awaiting := Some(a.id))], approvals + [a], slots)
  {
    hide Asked, Describe, PendingCount;
    NewRequestKeepsAsked(approvals, a);
  }

  /** Using up the request an agent waits on, together with its wait. */
  lemma UseKeepsConsent(agents: seq<Agent>, approvals: seq<Approval>, slots: seq<Slot>, i: nat, a: Agent, request: nat)
    requires Consenting(agents, approvals, slots) && i < |agents|
    requires a.id == agents[i].id && a.awaiting == None && agents[i].awaiting == Some(request)
    requires 1 <= request <= |approvals| && approvals[request - 1].answered == Some(true)
    ensures Consenting(agents[i := a], approvals[request - 1 := approvals[request - 1].(consumed := true)], slots)
  {
    hide Asked, Shown, Awaited;
    UseKeepsAwaited(agents, approvals, i, a, request);
    ApprovalChangeKeepsShown(approvals, slots, request - 1, approvals[request - 1].(consumed := true));
    ApprovalChangeKeepsAsked(approvals, request - 1, approvals[request - 1].(consumed := true));
  }

  lemma {:induction false} UsedCountAfterChange(approvals: seq<Approval>, k: nat, a: Approval)
    requires k < |approvals|
    ensures UsedCount(approvals[k := a]) + (if approvals[k].consumed then 1 else 0) == UsedCount(approvals) +
              if a.consumed then 1 else 0
    decreases |approvals|
  {
    var last := |approvals| - 1;
    if k < last {
      assert approvals[k := a][..last] == approvals[..last][k := a];
      UsedCountAfterChange(approvals[..last], k, a);
    } else {
      assert approvals[k := a][..last] == approvals[..last];
    }
  }

  /** A crossing that uses up a live yes keeps the matching one to one. */
  lemma UseKeepsHonoured(crossings: seq<Crossing>, approvals: seq<Approval>, c: Crossing, request: nat)
    requires Honoured(crossings, approvals) && 1 <= request <= |approvals|
    requires c.approval == Some(request) && RiskOf(c.authority) == Irreversible
    requires Grants(approvals[request - 1], request, c.agent, c.capability)
    requires approvals[request - 1].what == Describe(c.authority)
    ensures Honoured(crossings + [c], approvals[request - 1 := approvals[request - 1].(consumed := true)])
  {
    hide Describe, RiskOf;
    assert (crossings + [c])[..|crossings|] == crossings;
    UsedCountAfterChange(approvals, request - 1, approvals[request - 1].(consumed := true));
  }

  lemma FreeCrossingKeepsHonoured(crossings: seq<Crossing>, approvals: seq<Approval>, c: Crossing)
    requires Honoured(crossings, approvals) && c.approval == None && RiskOf(c.authority) != Irreversible
    ensures Honoured(crossings + [c], approvals)
  {
    hide Backs, RiskOf;
    assert (crossings + [c])[..|crossings|] == crossings;
  }

  /** A new request changes nothing about crossings already made. */
  lemma RequestKeepsHonoured(crossings: seq<Crossing>, approvals: seq<Approval>, a: Approval)
    requires Honoured(crossings, approvals) && !a.consumed
    ensures Honoured(crossings, approvals + [a])
  {
    hide RiskOf, Describe;
    assert (approvals + [a])[..|approvals|] == approvals;
  }

  /** Nor does an answer to a request that had none. */
  lemma AnswerKeepsHonoured(crossings: seq<Crossing>, approvals: seq<Approval>, k: nat, a: Approval)
    requires Honoured(crossings, approvals) && k < |approvals| && !a.consumed
    requires approvals[k].answered.None? && !approvals[k].consumed
    ensures Honoured(crossings, approvals[k := a])
  {
    hide RiskOf, Describe;
    UsedCountAfterChange(approvals, k, a);
  }
}
