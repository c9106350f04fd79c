/**
 * The capability broker: authorities, what they permit, and the append-only table through which
 * agents hold them.
 */
module Aman {
  import opened Basics

  // ----- scopes -----

  const SLASH: byte := 0x2f
  const SCOPE_BYTES: nat := 40

  /** A path or namespace that fits its label; a longer one is refused, never trimmed. */
  type Scope = s: seq<byte> | |s| <= SCOPE_BYTES

  predicate EndsWithSlash(path: seq<byte>) {
    path != [] && path[|path| - 1] == SLASH
  }

  /** A textual prefix that ends at a component boundary. */
  predicate IsWithin(child: seq<byte>, parent: seq<byte>) {
    && parent <= child
    && (var rest := child[|parent|..]; rest == [] || EndsWithSlash(parent) || rest[0] == SLASH)
  }

  /** The components of a path: what stands between its slashes. */
  function Components(path: seq<byte>): (parts: seq<seq<byte>>)
    ensures |parts| > 0
  {
    if path == [] then [[]]
    else
      var rest := Components(path[1..]);
      if path[0] == SLASH then [[]] + rest else [[path[0]] + rest[0]] + rest[1..]
  }

  /** Containment said by components: a trailing slash asks for something below. */
  predicate Contains(parent: seq<byte>, child: seq<byte>) {
    var (above, below) := (Components(parent), Components(child));
    if EndsWithSlash(parent) then above[..|above| - 1] < below else above <= below
  }

  lemma {:induction false} SlashSplits(path: seq<byte>)
    ensures EndsWithSlash(path) ==> |Components(path)| > 1
    ensures Components(path) == [[]] <==> path == []
    ensures Components(path)[0] == [] <==> path == [] || path[0] == SLASH
  {
    if path != [] {
      SlashSplits(path[1..]);
    }
  }

  lemma PrefixOfCons<T>(x: T, xs: seq<T>, y: T, ys: seq<T>)
    ensures [x] + xs <= [y] + ys <==> x == y && xs <= ys
    ensures [x] + xs < [y] + ys <==> x == y && xs < ys
  {
    if [x] + xs <= [y] + ys {
      assert ([x] + xs)[0] == ([y] + ys)[0];
      assert xs == ([x] + xs)[1..] && ys == ([y] + ys)[1..];
    }
    if x == y && xs <= ys {
      assert ys == xs + ys[|xs|..];
      assert [y] + ys == [x] + xs + ys[|xs|..];
    }
  }

  /** Dropping an equal first byte from both paths changes nothing, unless the parent is "/". */
  lemma ContainsBelow(child: seq<byte>, parent: seq<byte>)
    requires parent != [] && child != [] && parent[0] == child[0]
    requires parent != [SLASH]
    ensures Contains(parent, child) <==> Contains(parent[1..], child[1..])
  {
    var (c, p) := (Components(child[1..]), Components(parent[1..]));
    SlashSplits(parent);
    SlashSplits(parent[1..]);
    assert EndsWithSlash(parent) <==> EndsWithSlash(parent[1..]);
    assert p == [p[0]] + p[1..] && c == [c[0]] + c[1..];
    if EndsWithSlash(parent) {
      var up := p[..|p| - 1];
      assert up == [p[0]] + up[1..];
      if parent[0] == SLASH {
        assert Components(parent)[..|p|] == [[]] + up;
        PrefixOfCons([], up, [], c);
      } else {
        assert Components(parent)[..|p| - 1] == [[parent[0]] + p[0]] + up[1..];
        PrefixOfCons([parent[0]] + p[0], up[1..], [parent[0]] + c[0], c[1..]);
        PrefixOfCons(p[0], up[1..], c[0], c[1..]);
        SameAfterHead(parent[0], p[0], c[0]);
      }
    } else if parent[0] == SLASH {
      PrefixOfCons([], p, [], c);
    } else {
      PrefixOfCons([parent[0]] + p[0], p[1..], [parent[0]] + c[0], c[1..]);
      PrefixOfCons(p[0], p[1..], c[0], c[1..]);
      SameAfterHead(parent[0], p[0], c[0]);
    }
  }

  lemma SameAfterHead(h: byte, x: seq<byte>, y: seq<byte>)
    ensures [h] + x == [h] + y <==> x == y
  {
    assert x == ([h] + x)[1..] && y == ([h] + y)[1..];
  }

  /** Paths that differ in their first byte contain nothing of each other. */
  lemma ContainsApart(child: seq<byte>, parent: seq<byte>)
    requires parent != [] && child != [] && parent[0] != child[0]
    ensures !Contains(parent, child)
  {
    SlashSplits(parent);
    SlashSplits(child);
    var (above, below) := (Components(parent), Components(child));
    assert above[0] != below[0] by {
      if parent[0] != SLASH && child[0] != SLASH {
        assert above[0][0] == parent[0] && below[0][0] == child[0];
      }
    }
    assert EndsWithSlash(parent) ==> above[..|above| - 1][0] == above[0];
  }

  /** The byte-level test is containment of component lists: `/inbox-old` is not in `/inbox`. */
  lemma {:induction false} WithinIsContainment(child: seq<byte>, parent: seq<byte>)
    ensures IsWithin(child, parent) <==> Contains(parent, child)
    decreases |child|
  {
    SlashSplits(child);
    SlashSplits(parent);
    if parent == [] {
      assert Components(parent) <= Components(child) <==> Components(child)[0] == [];
    } else if child == [] {
      assert Components(child) == [[]];
    } else if parent[0] != child[0] {
      ContainsApart(child, parent);
    } else if parent == [SLASH] {
      assert Components(parent) == [[]] + [[]];
      SlashSplits(child);
    } else {
      var (c, p) := (child[1..], parent[1..]);
      WithinIsContainment(c, p);
      ContainsBelow(child, parent);
      assert parent == [parent[0]] + p && child == [child[0]] + c;
      PrefixOfCons(parent[0], p, child[0], c);
      if p <= c {
        assert child[|parent|..] == c[|p|..];
      }
    }
  }

  lemma WithinIsTransitive(c: seq<byte>, b: seq<byte>, a: seq<byte>)
    requires IsWithin(c, b) && IsWithin(b, a)
    ensures IsWithin(c, a)
  {
    var (up, down) := (b[|a|..], c[|b|..]);
    assert c == b + down && b == a + up;
    assert c[|a|..] == up + down;
  }

  // ----- authorities and what they permit -----

  datatype ModelClass = Fast | Private | Frontier | Arabic

  datatype Authority =
    | Fs(prefix: Scope, write: bool)
    | Model(class_: ModelClass)
    | Memory(namespace: Scope, write: bool)
    | Send(draftOnly: bool)
    | Spend(microDollars: u64)

  datatype Risk = Benign | Reversible | Irreversible

  function RiskOf(a: Authority): Risk {
    match a
    case Fs(_, write) => if write then Reversible else Benign
    case Memory(_, write) => if write then Reversible else Benign
    case Model(_) => Benign
    case Send(draftOnly) => if draftOnly then Reversible else Irreversible
    case Spend(_) => Irreversible
  }

  function Rank(r: Risk): nat {
    match r case Benign => 0 case Reversible => 1 case Irreversible => 2
  }

  predicate IsSubsetOf(child: Authority, parent: Authority) {
    match (child, parent)
    case (Fs(c, cw), Fs(p, pw)) => IsWithin(c, p) && (!cw || pw)
    case (Model(c), Model(p)) => c == p
    case (Memory(c, cw), Memory(p, pw)) => IsWithin(c, p) && (!cw || pw)
    case (Send(c), Send(p)) => c || !p
    case (Spend(c), Spend(p)) => c <= p
    case _ => false
  }

  /** The things an agent might do, one at a time. */
  datatype Action =
    | ReadFile(path: seq<byte>)
    | WriteFile(path: seq<byte>)
    | Ask(class_: ModelClass)
    | Recall(key: seq<byte>)
    | Remember(key: seq<byte>)
    | Draft
    | Deliver
    | Pay(amount: u64)

  predicate Permits(a: Authority, action: Action) {
    match (a, action)
    case (Fs(prefix, _), ReadFile(path)) => Contains(prefix, path)
    case (Fs(prefix, write), WriteFile(path)) => write && Contains(prefix, path)
    case (Model(c), Ask(d)) => c == d
    case (Memory(namespace, _), Recall(key)) => Contains(namespace, key)
    case (Memory(namespace, write), Remember(key)) => write && Contains(namespace, key)
    case (Send(_), Draft) => true
    case (Send(draftOnly), Deliver) => !draftOnly
    case (Spend(limit), Pay(amount)) => amount <= limit
    case _ => false
  }

  lemma ContainsIsTransitive(a: seq<byte>, b: seq<byte>, c: seq<byte>)
    requires Contains(a, b) && Contains(b, c)
    ensures Contains(a, c)
  {
    hide Contains, IsWithin;
    WithinIsContainment(b, a);
    WithinIsContainment(c, b);
    WithinIsTransitive(c, b, a);
    WithinIsContainment(c, a);
  }

  lemma ContainsItself(a: seq<byte>)
    ensures Contains(a, a)
  {
    hide Contains;
    WithinIsContainment(a, a);
  }

  /** Some action the authority permits that shows how wide it is. */
  function Widest(a: Authority): Action {
    match a
    case Fs(prefix, write) => if write then WriteFile(prefix) else ReadFile(prefix)
    case Model(c) => Ask(c)
    case Memory(namespace, write) => if write then Remember(namespace) else Recall(namespace)
    case Send(draftOnly) => if draftOnly then Draft else Deliver
    case Spend(limit) => Pay(limit)
  }

  lemma SubsetPermitsLess(child: Authority, parent: Authority, action: Action)
    requires IsSubsetOf(child, parent) && Permits(child, action)
    ensures Permits(parent, action)
  {
    hide Contains, IsWithin;
    match (child, action)
    case (Fs(prefix, _), ReadFile(path)) =>
      WithinIsContainment(prefix, parent.prefix);
      ContainsIsTransitive(parent.prefix, prefix, path);
    case (Fs(prefix, _), WriteFile(path)) =>
      WithinIsContainment(prefix, parent.prefix);
      ContainsIsTransitive(parent.prefix, prefix, path);
    case (Memory(namespace, _), Recall(key)) =>
      WithinIsContainment(namespace, parent.namespace);
      ContainsIsTransitive(parent.namespace, namespace, key);
    case (Memory(namespace, _), Remember(key)) =>
      WithinIsContainment(namespace, parent.namespace);
      ContainsIsTransitive(parent.namespace, namespace, key);
    case _ =>
  }

  lemma PermitsWidest(a: Authority)
    ensures Permits(a, Widest(a))
  {
    hide Contains;
    if a.Fs? {
      ContainsItself(a.prefix);
    } else if a.Memory? {
      ContainsItself(a.namespace);
    }
  }

  /** The delegation law is inclusion of what is permitted: no more and no less. */
  lemma SubsetIsInclusion(child: Authority, parent: Authority)
    ensures IsSubsetOf(child, parent) <==> forall action :: Permits(child, action) ==> Permits(parent, action)
  {
    hide Contains, IsWithin, Permits, IsSubsetOf;
    forall action | IsSubsetOf(child, parent) && Permits(child, action) ensures Permits(parent, action) {
      SubsetPermitsLess(child, parent, action);
    }
    PermitsWidest(child);
    if Permits(parent, Widest(child)) {
      WidestDecides(child, parent);
    }
  }

  lemma WidestDecides(child: Authority, parent: Authority)
    requires Permits(parent, Widest(child))
    ensures IsSubsetOf(child, parent)
  {
    hide Contains, IsWithin;
    if child.Fs? && parent.Fs? {
      WithinIsContainment(child.prefix, parent.prefix);
    } else if child.Memory? && parent.Memory? {
      WithinIsContainment(child.namespace, parent.namespace);
    }
  }

  lemma SubsetIsTransitive(a: Authority, b: Authority, c: Authority)
    requires IsSubsetOf(a, b) && IsSubsetOf(b, c)
    ensures IsSubsetOf(a, c)
  {
    hide Contains, IsWithin, Permits, IsSubsetOf;
    SubsetIsInclusion(a, b);
    SubsetIsInclusion(b, c);
    SubsetIsInclusion(a, c);
  }

  /** Narrowing never raises the risk, so it never escapes a consent the parent did not need. */
  lemma NarrowingNeverRaisesRisk(child: Authority, parent: Authority)
    requires forall action :: Permits(child, action) ==> Permits(parent, action)
    ensures Rank(RiskOf(child)) <= Rank(RiskOf(parent))
    ensures RiskOf(parent) != Irreversible ==> !Permits(child, Deliver) && forall amount :: !Permits(child, Pay(amount))
  {
    hide Contains, IsWithin, Permits;
    SubsetIsInclusion(child, parent);
    RiskIsWhatIsPermitted(parent);
  }

  /** Consent is asked exactly for what can be sent or paid. */
  lemma RiskIsWhatIsPermitted(a: Authority)
    ensures RiskOf(a) == Irreversible <==> Permits(a, Deliver) || exists amount: u64 :: Permits(a, Pay(amount))
  {
    PermitsWidest(a);
    if a.Spend? {
      assert Permits(a, Pay(a.microDollars));
    }
  }

  /** The kernel's own words for an authority. */
  function Describe(a: Authority): string {
    match a
    case Fs(_, write) => if write then "fs:write" else "fs:read"
    case Model(Fast) => "model:fast"
    case Model(Private) => "model:private"
    case Model(Frontier) => "model:frontier"
    case Model(Arabic) => "model:arabic"
    case Memory(_, write) => if write then "memory:write" else "memory:read"
    case Send(draftOnly) => if draftOnly then "send:draft-only" else "send"
    case Spend(_) => "spend"
  }

  predicate SameKind(a: Authority, b: Authority) {
    match (a, b)
    case (Fs(_, aw), Fs(_, bw)) => aw == bw
    case (Memory(_, aw), Memory(_, bw)) => aw == bw
    case (Model(c), Model(d)) => c == d
    case (Send(d), Send(e)) => d == e
    case (Spend(_), Spend(_)) => true
    case _ => false
  }

  /** The words tell one kind of authority from every other, so a yes to harmless words is no yes to a payment. */
  lemma WordsTellKinds(a: Authority, b: Authority)
    ensures Describe(a) == Describe(b) <==> SameKind(a, b)
    ensures Describe(a) == Describe(b) ==> RiskOf(a) == RiskOf(b)
    ensures RiskOf(a) == Irreversible <==> Describe(a) == "send" || Describe(a) == "spend"
  {
    assert "send"[1] == 'e' && "spend"[1] == 'p';
    assert "fs:write"[3] == 'w' && "fs:read"[3] == 'r' && "memory:write"[7] == 'w' && "memory:read"[7] == 'r';
    assert "model:fast"[6] == 'f' && "model:fast"[7] == 'a' && "model:frontier"[6] == 'f' && "model:frontier"[7] == 'r';
    assert "model:private"[6] == 'p' && "model:arabic"[6] == 'a';
  }

  // ----- the table -----

  type AgentId = nat

  datatype Slot = Slot(authority: Authority, holder: AgentId, parent: Option<nat>, revoked: bool)

  datatype Denied = NotHeld | Revoked | NotASubset | NeedsApproval | BudgetExhausted

  /** Parents come first, grant at least as much, and take their descendants down with them. */
  ghost predicate ValidSlots(slots: seq<Slot>) {
    forall i :: 0 <= i < |slots| && slots[i].parent.Some? ==>
      && slots[i].parent.value < i
      && IsSubsetOf(slots[i].authority, slots[slots[i].parent.value].authority)
      && (slots[slots[i].parent.value].revoked ==> slots[i].revoked)
  }

  ghost predicate ParentsFirst(slots: seq<Slot>) {
    forall i :: 0 <= i < |slots| && slots[i].parent.Some? ==> slots[i].parent.value < i
  }

  /** Slot `i` was derived, in any number of steps, from slot `ancestor`. */
  ghost predicate Descends(slots: seq<Slot>, i: nat, ancestor: nat)
    requires ParentsFirst(slots) && i < |slots|
  {
    i == ancestor || (slots[i].parent.Some? && Descends(slots, slots[i].parent.value, ancestor))
  }

  lemma {:induction false} DescendsUpwards(slots: seq<Slot>, i: nat, ancestor: nat)
    requires ParentsFirst(slots) && i < |slots| && Descends(slots, i, ancestor)
    ensures ancestor <= i
    decreases i
  {
    if i != ancestor {
      DescendsUpwards(slots, slots[i].parent.value, ancestor);
    }
  }

  /** Every capability is contained in each of its ancestors, all the way up to its mint. */
  lemma {:induction false} LineageAttenuates(slots: seq<Slot>, i: nat, ancestor: nat)
    requires ValidSlots(slots) && i < |slots| && Descends(slots, i, ancestor)
    ensures ancestor <= i && IsSubsetOf(slots[i].authority, slots[ancestor].authority)
    ensures slots[ancestor].revoked ==> slots[i].revoked
    decreases i
  {
    hide IsSubsetOf, Permits;
    if i == ancestor {
      SubsetIsInclusion(slots[i].authority, slots[i].authority);
    } else {
      var up := slots[i].parent.value;
      LineageAttenuates(slots, up, ancestor);
      SubsetIsTransitive(slots[i].authority, slots[up].authority, slots[ancestor].authority);
    }
  }

  function Lookup(slots: seq<Slot>, capability: nat, agent: AgentId): Result<Slot, Denied> {
    if capability >= |slots| then Err(NotHeld)
    else if slots[capability].holder != agent then Err(NotHeld)
    else if slots[capability].revoked then Err(Revoked)
    else Ok(slots[capability])
  }

  /** What `can_delegate` answers, and what both deriving verbs check first. */
  function MayDerive(slots: seq<Slot>, agent: AgentId, capability: nat, narrower: Authority): Result<(), Denied> {
    var slot :- Lookup(slots, capability, agent);
    if IsSubsetOf(narrower, slot.authority) then Ok(()) else Err(NotASubset)
  }

  function Authorize(slots: seq<Slot>, agent: AgentId, capability: nat, approved: bool): Result<Authority, Denied> {
    var slot :- Lookup(slots, capability, agent);
    if RiskOf(slot.authority) == Irreversible && !approved then Err(NeedsApproval) else Ok(slot.authority)
  }

  /** Exercised by its holder, unrevoked, and with a yes where sending or paying could follow; nothing else. */
  lemma AuthorizedIff(slots: seq<Slot>, agent: AgentId, capability: nat, approved: bool)
    ensures Authorize(slots, agent, capability, approved).Ok? <==>
              && capability < |slots| && slots[capability].holder == agent && !slots[capability].revoked
              && (approved || (!Permits(slots[capability].authority, Deliver)
                               && forall amount: u64 :: !Permits(slots[capability].authority, Pay(amount))))
    ensures var r := Authorize(slots, agent, capability, approved);
            if r.Ok? then r.value == slots[capability].authority
            else r.error == if capability >= |slots| || slots[capability].holder != agent then NotHeld
                            else if slots[capability].revoked then Revoked else NeedsApproval
  {
    hide Permits;
    if capability < |slots| {
      RiskIsWhatIsPermitted(slots[capability].authority);
    }
  }

  /** What is authorized was held, is permitted by every ancestor, none of which is revoked. */
  lemma AuthorizedByLineage(slots: seq<Slot>, agent: AgentId, capability: nat, approved: bool, ancestor: nat,
        action: Action)
    requires ValidSlots(slots) && Authorize(slots, agent, capability, approved).Ok?
    requires Descends(slots, capability, ancestor)
    requires Permits(Authorize(slots, agent, capability, approved).value, action)
    ensures ancestor < |slots| && !slots[ancestor].revoked && Permits(slots[ancestor].authority, action)
    ensures slots[capability].holder == agent
  {
    hide IsSubsetOf, Permits;
    LineageAttenuates(slots, capability, ancestor);
    SubsetIsInclusion(slots[capability].authority, slots[ancestor].authority);
  }

  /** The slots after revoking: nothing changes but the flag of the subtree. */
  ghost predicate RevokedTree(slots: seq<Slot>, slots': seq<Slot>, capability: nat)
    requires ParentsFirst(slots)
  {
    && |slots'| == |slots|
    && forall i :: 0 <= i < |slots| ==>
         slots'[i] == slots[i].(revoked := slots[i].revoked || Descends(slots, i, capability))
  }

  ghost function NewlyRevoked(slots: seq<Slot>, slots': seq<Slot>): set<nat>
    requires |slots'| == |slots|
  {
    set i: nat | i < |slots| && slots'[i].revoked && !slots[i].revoked
  }

  lemma RevokingKeepsValid(slots: seq<Slot>, slots': seq<Slot>, capability: nat)
    requires ValidSlots(slots) && RevokedTree(slots, slots', capability)
    ensures ValidSlots(slots')
  {
    hide IsSubsetOf;
  }

  /** After a revocation every descendant is refused, and nothing else notices. */
  lemma RevocationRefusesDescendants(slots: seq<Slot>, slots': seq<Slot>, capability: nat, i: nat, agent: AgentId,
        approved: bool)
    requires ValidSlots(slots) && RevokedTree(slots, slots', capability)
    ensures i < |slots| && Descends(slots, i, capability) ==> Authorize(slots', agent, i, approved).Err?
    ensures !(i < |slots| && Descends(slots, i, capability)) ==>
              Authorize(slots', agent, i, approved) == Authorize(slots, agent, i, approved)
  {
    hide ValidSlots, Descends;
  }

  /** The pass has decided every slot below `index` and touched none of the others. */
  ghost predicate PassedUpTo(before: seq<Slot>, now: seq<Slot>, capability: nat, index: nat, done: set<nat>) {
    && ValidSlots(before) && |now| == |before|
    && (forall i :: 0 <= i < |now| && i < index ==>
         now[i] == before[i].(revoked := before[i].revoked || Descends(before, i, capability)))
    && (forall i :: index <= i < |now| ==> now[i] == before[i])
    && (forall i: nat :: i in done <==> i < |now| && i < index && now[i].revoked && !before[i].revoked)
  }

  lemma PassStarts(slots: seq<Slot>, capability: nat)
    requires ValidSlots(slots)
    ensures PassedUpTo(slots, slots, capability, capability, {})
  {
    hide IsSubsetOf;
    forall i: nat | i < capability && i < |slots| ensures !Descends(slots, i, capability) {
      if Descends(slots, i, capability) {
        DescendsUpwards(slots, i, capability);
      }
    }
  }

  /** The parent is decided before the child, so its flag alone decides the child. */
  lemma PassStep(before: seq<Slot>, now: seq<Slot>, capability: nat, index: nat, done: set<nat>)
    requires capability <= index < |now| && PassedUpTo(before, now, capability, index, done)
    ensures now[index].parent.Some? ==> now[index].parent.value < index
    ensures index !in done
    ensures var hit := index == capability || (now[index].parent.Some? && now[now[index].parent.value].revoked);
            if hit && !now[index].revoked then
              PassedUpTo(before, now[index := now[index].(revoked := true)], capability, index + 1, done + {index})
            else PassedUpTo(before, now, capability, index + 1, done)
  {
    hide IsSubsetOf;
    assert now[index] == before[index];
    var up := now[index].parent;
    assert Descends(before, index, capability) <==>
      index == capability || (up.Some? && Descends(before, up.value, capability));
    if up.Some? {
      assert now[up.value].revoked <==> before[up.value].revoked || Descends(before, up.value, capability);
    }
  }

  lemma PassEnds(before: seq<Slot>, now: seq<Slot>, capability: nat, index: nat, done: set<nat>)
    requires index >= |now| && PassedUpTo(before, now, capability, index, done)
    ensures RevokedTree(before, now, capability)
    ensures done == NewlyRevoked(before, now)
  {
    hide IsSubsetOf, Descends;
  }

  /** Slots are appended and flagged, never edited. */
  ghost predicate SlotsEvolve(slots: seq<Slot>, slots': seq<Slot>) {
    && |slots| <= |slots'|
    && forall i :: 0 <= i < |slots| ==>
         && slots'[i].authority == slots[i].authority
         && slots'[i].holder == slots[i].holder
         && slots'[i].parent == slots[i].parent
         && (slots[i].revoked ==> slots'[i].revoked)
  }

  lemma RevokingEvolves(slots: seq<Slot>, slots': seq<Slot>, capability: nat)
    requires ParentsFirst(slots) && RevokedTree(slots, slots', capability)
    ensures SlotsEvolve(slots, slots')
  {
    hide Descends;
  }

  class Table {
    var slots: seq<Slot>

    ghost predicate Valid()
      reads this
    {
      ValidSlots(slots)
    }

    constructor ()
      ensures Valid() && slots == []
    {
      slots := [];
    }

    /** Root authority: the one way in. */
    method Mint(holder: AgentId, authority: Authority) returns (capability: nat)
      requires Valid()
      modifies this
      ensures Valid()
      ensures slots == old(slots) + [Slot(authority, holder, None, false)] && capability == |old(slots)|
    {
      hide IsSubsetOf;
      slots := slots + [Slot(authority, holder, None, false)];
      return |slots| - 1;
    }

    /** Derive a narrower capability for the same holder. */
    method Attenuate(agent: AgentId, capability: nat, narrower: Authority) returns (r: Result<nat, Denied>)
      requires Valid()
      modifies this
      ensures Valid()
      ensures var may := MayDerive(old(slots), agent, capability, narrower);
              if may.Err? then r == Err(may.error) && slots == old(slots)
              else r == Ok(|old(slots)|) && slots == old(slots) + [Slot(narrower, agent, Some(capability), false)]
    {
      r := Derive(agent, agent, capability, narrower);
    }

    /** Hand a narrower capability to a child: the only way a child gains authority. */
    method Delegate(parent: AgentId, child: AgentId, capability: nat, narrower: Authority)
      returns (r: Result<nat, Denied>)
      requires Valid()
      modifies this
      ensures Valid()
      ensures var may := MayDerive(old(slots), parent, capability, narrower);
              if may.Err? then r == Err(may.error) && slots == old(slots)
              else r == Ok(|old(slots)|) && slots == old(slots) + [Slot(narrower, child, Some(capability), false)]
    {
      r := Derive(parent, child, capability, narrower);
    }

    method Derive(agent: AgentId, holder: AgentId, capability: nat, narrower: Authority)
      returns (r: Result<nat, Denied>)
      requires Valid()
      modifies this
      ensures Valid()
      ensures var may := MayDerive(old(slots), agent, capability, narrower);
              if may.Err? then r == Err(may.error) && slots == old(slots)
              else r == Ok(|old(slots)|) && slots == old(slots) + [Slot(narrower, holder, Some(capability), false)]
    {
      hide IsSubsetOf;
      var slot :- Lookup(slots, capability, agent);
      if !IsSubsetOf(narrower, slot.authority) {
        return Err(NotASubset);
      }
      slots := slots + [Slot(narrower, holder, Some(capability), false)];
      return Ok(|slots| - 1);
    }

    /**
     * One forward pass closes the whole subtree, because a child always stands after its parent.
     * It revokes exactly the old set and the descendants, and counts the new ones.
     */
    method RevokeTree(capability: nat) returns (revoked: nat)
      requires Valid()
      modifies this
      ensures Valid()
      ensures RevokedTree(old(slots), slots, capability)
      ensures revoked == |NewlyRevoked(old(slots), slots)|
    {
      hide ValidSlots, Descends, PassedUpTo, RevokedTree, NewlyRevoked;
      ghost var before := slots;
      revoked := 0;
      var index := capability;
      ghost var done: set<nat> := {};
      PassStarts(before, capability);
      while index < |slots|
        invariant capability <= index
        invariant PassedUpTo(before, slots, capability, index, done)
        invariant revoked == |done|
      {
        PassStep(before, slots, capability, index, done);
        var isTarget := index == capability;
        var parentRevoked := slots[index].parent.Some? && slots[slots[index].parent.value].revoked;
        if (isTarget || parentRevoked) && !slots[index].revoked {
          slots := slots[index := slots[index].(revoked := true)];
          revoked := revoked + 1;
          done := done + {index};
        }
        index := index + 1;
      }
      PassEnds(before, slots, capability, index, done);
      RevokingKeepsValid(before, slots, capability);
    }
  }
}
