/**
 * The agent control block, and the scheduler's choice over a list of them: earliest deadline
 * first among the agents that can run.
 */
module Agents {
  import opened Basics

  datatype State = Runnable | AwaitingConsent | Suspended | Finished | Killed

  datatype Progress = Continue | AwaitConsent | Done | Failed

  /** Money is a 64-bit counter; time is not allowed to wrap here. */
  datatype Budget = Budget(microDollars: u64, spent: u64, wall: nat, used: nat)

  function Remaining(b: Budget): (r: u64)
    ensures r == 0 <==> b.spent >= b.microDollars
  {
    if b.spent <= b.microDollars then b.microDollars - b.spent else 0
  }

  predicate Exhausted(b: Budget) {
    Remaining(b) == 0 || (b.wall != 0 && b.used >= b.wall)
  }

  /** Money is left of the grant, and time where it is bounded. */
  predicate HasLeft(b: Budget) {
    b.spent < b.microDollars && (b.wall == 0 || b.used < b.wall)
  }

  function RemainingWall(b: Budget): nat {
    if b.used <= b.wall then b.wall - b.used else 0
  }

  datatype Split = Split(parent: Budget, child: Budget)

  /** A child's share of both resources, out of what remains; never on credit. */
  function Carve(b: Budget, money: u64, wall: nat): (r: Option<Split>)
    ensures r.Some? <==> money <= Remaining(b) && (b.wall != 0 ==> 0 < wall <= RemainingWall(b))
    ensures r.Some? ==> Remaining(r.value.parent) + Remaining(r.value.child) == Remaining(b)
    ensures r.Some? && b.wall != 0 ==> RemainingWall(r.value.parent) + RemainingWall(r.value.child) == RemainingWall(b)
  {
    if money > Remaining(b) then None
    else
      var child := Budget(money, 0, wall, 0);
      if b.wall == 0 then Some(Split(b.(spent := b.spent + money), child))
      else if wall == 0 || wall > RemainingWall(b) then None
      else Some(Split(b.(spent := b.spent + money, used := b.used + wall), child))
  }

  const MAX_CAPABILITIES: nat := 8

  datatype Agent = Agent(
    id: nat,
    parent: nat,
    state: State,
    budget: Budget,
    deadline: nat,
    capabilities: seq<nat>,
    crossings: nat,
    awaiting: Option<nat>,
    cursor: nat)

  /** Capabilities beyond the eighth are not listed on the agent. */
  function Listed(a: Agent, capability: nat): (listed: Agent)
    ensures listed == a.(capabilities := listed.capabilities)
    ensures listed.capabilities == if |a.capabilities| < 8 then a.capabilities + [capability] else a.capabilities
  {
    if |a.capabilities| < MAX_CAPABILITIES then a.(capabilities := a.capabilities + [capability]) else a
  }

  /** The first agent with this id. */
  function Find(agents: seq<Agent>, id: nat): (r: Option<nat>)
    ensures r.Some? ==> r.value < |agents| && agents[r.value].id == id
    ensures r.None? ==> forall i :: 0 <= i < |agents| ==> agents[i].id != id
    ensures r.Some? ==> forall i :: 0 <= i < r.value ==> agents[i].id != id
  {
    if agents == [] then None
    else if agents[0].id == id then Some(0)
    else
      var rest := Find(agents[1..], id);
      if rest.None? then None else Some(rest.value + 1)
  }

  // ----- the choice -----

  predicate Ready(a: Agent) {
    a.state == Runnable && !Exhausted(a.budget)
  }

  /** Ready is: runnable, with money and time left. */
  lemma ReadyIff(a: Agent)
    ensures Ready(a) <==>
              && a.state == Runnable && a.budget.spent < a.budget.microDollars
              && (a.budget.wall != 0 ==> a.budget.used < a.budget.wall)
    ensures Ready(a) <==> a.state == Runnable && HasLeft(a.budget)
  {
  }

  /** The earlier deadline, or the same one and the earlier place. */
  predicate Precedes(agents: seq<Agent>, x: nat, y: nat)
    requires x < |agents| && y < |agents|
  {
    agents[x].deadline < agents[y].deadline || (agents[x].deadline == agents[y].deadline && x <= y)
  }

  /** The ready agent with the least deadline, the first of them when several tie. */
  function Earliest(agents: seq<Agent>): (r: Option<nat>)
    ensures r.None? <==> forall i :: 0 <= i < |agents| ==> !Ready(agents[i])
    ensures r.Some? ==> r.value < |agents| && Ready(agents[r.value])
    ensures r.Some? ==> forall i :: 0 <= i < |agents| && Ready(agents[i]) ==> Precedes(agents, r.value, i)
    ensures r.Some? ==> agents[r.value].state == Runnable && HasLeft(agents[r.value].budget)
    ensures forall i :: 0 <= i < |agents| && agents[i].state == Runnable && HasLeft(agents[i].budget) ==>
              r.Some? && agents[r.value].deadline <= agents[i].deadline
  {
    if agents == [] then None
    else
      var last := |agents| - 1;
      var before := Earliest(agents[..last]);
      if !Ready(agents[last]) then before
      else if before.Some? && agents[before.value].deadline <= agents[last].deadline then before
      else Some(last)
  }
}
