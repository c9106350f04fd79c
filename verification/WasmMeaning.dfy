/**
 * What a tree means with no meter and no ceiling, and the proof that the meter changes nothing
 * but when a run stops. `n` bounds loop turns and calls only so that the functions terminate;
 * `None` says the bound was reached.
 */
module WasmMeaning {
  import opened Basics
  import opened WasmSyntax
  import opened WasmNumeric
  import opened WasmMachine
  import opened WasmStructured

  datatype Here = Here(stack: seq<Value>, locals: seq<Value>, memory: seq<byte>, trace: seq<HostCall>)

  datatype Meant = Meant(signal: Signal, here: Here)

  datatype Effect = Effect(reply: Reply, memory: seq<byte>, trace: seq<HostCall>)

  function Leaving(m: Meant, height: nat, gives: bool): Meant {
    match m.signal
    case Branching(0) => Meant(Next, m.here.(stack := Unwind(m.here.stack, height, gives)))
    case Branching(depth) => Meant(Branching(depth - 1), m.here)
    case _ => m
  }

  function Mean(p: Program, n: nat, code: Code, h: Here): Option<Meant>
    decreases n, 0, code, 0
  {
    match code
    case Nil => Some(Meant(Next, h))
    case Cons(head, tail) =>
      var m :- MeanInstr(p, n, head, h);
      if m.signal.Next? then Mean(p, n, tail, m.here) else Some(m)
  }

  function MeanInstr(p: Program, n: nat, instr: Instr, h: Here): Option<Meant>
    decreases n, 0, instr, 0
  {
    match instr
    case Do(plain) => (
      match PlainStep(plain, Work(h.stack, h.locals, h.memory))
      case Err(trap) => Some(Meant(Trapped(trap), h))
      case Ok(w) => Some(Meant(Next, Here(w.stack, w.locals, w.memory, h.trace))))
    case Block(blockType, body) =>
      var m :- Mean(p, n, body, h);
      Some(Leaving(m, |h.stack|, blockType != EMPTY_BLOCK))
    case Loop(_, body) => MeanLoop(p, n, |h.stack|, body, h)
    case If(blockType, thn, els) =>
      if |h.stack| == 0 then Some(Meant(Trapped(Faulted), h))
      else
        var h1 := h.(stack := Pop(h.stack));
        var taken := if Top(h.stack).AsI32() != 0 then Some(thn) else els;
        if taken.None? then Some(Meant(Next, h1))
        else if Top(h.stack).AsI32() != 0 then
          var m :- Mean(p, n, thn, h1);
          Some(Leaving(m, |h1.stack|, blockType != EMPTY_BLOCK))
        else
          var m :- Mean(p, n, els.value, h1);
          Some(Leaving(m, |h1.stack|, blockType != EMPTY_BLOCK))
    case Br(k) => Some(Meant(Branching(k), h))
    case BrIf(k) =>
      if |h.stack| == 0 then Some(Meant(Trapped(Faulted), h))
      else Some(Meant(if Top(h.stack).AsI32() != 0 then Branching(k) else Next, h.(stack := Pop(h.stack))))
    case Return => Some(Meant(Returning, h))
    case Call(index) => if n == 0 then None else MeanCallSite(p, n - 1, index, h)
  }

  function MeanLoop(p: Program, n: nat, height: nat, body: Code, h: Here): Option<Meant>
    decreases n, 0, body, 1
  {
    var m :- Mean(p, n, body, h);
    if m.signal == Branching(0) then
      if n == 0 then None else MeanLoop(p, n - 1, height, body, Leaving(m, height, false).here)
    else
      Some(Leaving(m, height, false))
  }

  function MeanCallSite(p: Program, n: nat, index: u32, h: Here): Option<Meant>
    decreases n, 2
  {
    var signature := p.m.FunctionType(index);
    if signature.None? then Some(Meant(Trapped(Malformed), h))
    else
      var count := |signature.value.params|;
      if |h.stack| < count then Some(Meant(Trapped(Faulted), h))
      else
        var base := |h.stack| - count;
        var e :- MeanCall(p, n, index, h.stack[base..], h.memory, h.trace);
        var h1 := Here(h.stack[..base], h.locals, e.memory, e.trace);
        match e.reply
        case Err(trap) => Some(Meant(Trapped(trap), h1))
        case Ok(result) => Some(Meant(Next, if result.Some? then h1.(stack := h1.stack + [result.value]) else h1))
  }

  function MeanCall(p: Program, n: nat, index: u32, arguments: seq<Value>, memory: seq<byte>,
        trace: seq<HostCall>): Option<Effect>
    decreases n, 1
  {
    if index < |p.m.imports| then
      var asked := trace + [HostCall(index, arguments)];
      Some(Effect(p.oracle(asked), memory, asked))
    else if index - |p.m.imports| >= |p.m.functions| || index - |p.m.imports| >= |p.bodies| then
      Some(Effect(Err(Malformed), memory, trace))
    else
      var function' := p.m.functions[index - |p.m.imports|];
      if function'.typeIndex >= |p.m.types| then
        Some(Effect(Err(Malformed), memory, trace))
      else
        var signature := p.m.types[function'.typeIndex];
        if |arguments| != |signature.params| then
          Some(Effect(Err(Faulted), memory, trace))
        else
          var h := Here([], InitialLocals(arguments, function'.locals), memory, trace);
          var m :- Mean(p, n, p.bodies[index - |p.m.imports|], h);
          Some(Effect(if m.signal.Trapped? then Err(m.signal.trap) else Answer(signature.results != [], m.here.stack),
                      m.here.memory, m.here.trace))
  }

  // ----- the meaning is one thing, however large the bound -----

  lemma {:induction false} MeanGrows(p: Program, n: nat, k: nat, code: Code, h: Here)
    requires n <= k && Mean(p, n, code, h).Some?
    ensures Mean(p, k, code, h) == Mean(p, n, code, h)
    decreases n, 0, code, 0
  {
    match code
    case Nil =>
    case Cons(head, tail) =>
      hide MeanInstr;
      MeanInstrGrows(p, n, k, head, h);
      var m := MeanInstr(p, n, head, h).value;
      if m.signal.Next? {
        MeanGrows(p, n, k, tail, m.here);
      }
  }

  lemma {:induction false} MeanInstrGrows(p: Program, n: nat, k: nat, instr: Instr, h: Here)
    requires n <= k && MeanInstr(p, n, instr, h).Some?
    ensures MeanInstr(p, k, instr, h) == MeanInstr(p, n, instr, h)
    decreases n, 0, instr, 0
  {
    hide Mean, PlainStep, Leaving;
    match instr
    case Block(_, body) => MeanGrows(p, n, k, body, h);
    case Loop(_, body) => MeanLoopGrows(p, n, k, |h.stack|, body, h);
    case If(_, thn, els) =>
      if |h.stack| > 0 {
        var h1 := h.(stack := Pop(h.stack));
        if Top(h.stack).AsI32() != 0 {
          MeanGrows(p, n, k, thn, h1);
        } else if els.Some? {
          MeanGrows(p, n, k, els.value, h1);
        }
      }
    case Call(index) => MeanCallSiteGrows(p, n - 1, k - 1, index, h);
    case _ =>
  }

  lemma {:induction false} MeanLoopGrows(p: Program, n: nat, k: nat, height: nat, body: Code, h: Here)
    requires n <= k && MeanLoop(p, n, height, body, h).Some?
    ensures MeanLoop(p, k, height, body, h) == MeanLoop(p, n, height, body, h)
    decreases n, 0, body, 1
  {
    hide Mean;
    MeanGrows(p, n, k, body, h);
    var m := Mean(p, n, body, h).value;
    if m.signal == Branching(0) {
      MeanLoopGrows(p, n - 1, k - 1, height, body, Leaving(m, height, false).here);
    }
  }

  lemma {:induction false} MeanCallSiteGrows(p: Program, n: nat, k: nat, index: u32, h: Here)
    requires n <= k && MeanCallSite(p, n, index, h).Some?
    ensures MeanCallSite(p, k, index, h) == MeanCallSite(p, n, index, h)
    decreases n, 2
  {
    hide MeanCall;
    var signature := p.m.FunctionType(index);
    if signature.Some? && |h.stack| >= |signature.value.params| {
      MeanCallGrows(p, n, k, index, h.stack[|h.stack| - |signature.value.params|..], h.memory, h.trace);
    }
  }

  lemma {:induction false} MeanCallGrows(
      p: Program, n: nat, k: nat, index: u32, arguments: seq<Value>, memory: seq<byte>, trace: seq<HostCall>)
    requires n <= k && MeanCall(p, n, index, arguments, memory, trace).Some?
    ensures MeanCall(p, k, index, arguments, memory, trace) == MeanCall(p, n, index, arguments, memory, trace)
    decreases n, 1
  {
    hide Mean;
    if |p.m.imports| <= index < |p.m.imports| + |p.m.functions| && index - |p.m.imports| < |p.bodies| {
      var f := p.m.functions[index - |p.m.imports|];
      if f.typeIndex < |p.m.types| && |arguments| == |p.m.types[f.typeIndex].params| {
        MeanGrows(p, n, k, p.bodies[index - |p.m.imports|],
          Here([], InitialLocals(arguments, f.locals), memory, trace));
      }
    }
  }

  // ----- the meter only ever stops a run -----

  function Erase(s: State): Here {
    Here(s.stack, s.locals, s.machine.memory, s.machine.trace)
  }

  predicate Stopped(reply: Reply) {
    reply == Err(OutOfFuel) || reply == Err(StackOverflow)
  }

  predicate Halted(signal: Signal) {
    signal == Trapped(OutOfFuel) || signal == Trapped(StackOverflow)
  }

  function Erased(r: Ran): Meant {
    Meant(r.signal, Erase(r.state))
  }

  lemma {:induction false} EvalMeans(p: Program, depth: nat, labels: nat, code: Code, s: State, n: nat)
    requires n >= s.machine.fuel
    ensures var r := Eval(p, depth, labels, code, s);
            !Halted(r.signal) ==> Mean(p, n, code, Erase(s)) == Some(Erased(r))
    decreases s.machine.fuel, 0, code
  {
    hide EvalInstr, MeanInstr;
    match code
    case Nil =>
    case Cons(head, tail) =>
      EvalInstrMeans(p, depth, labels, head, s, n);
      var r := EvalInstr(p, depth, labels, head, s);
      if r.signal.Next? {
        EvalMeans(p, depth, labels, tail, r.state, n);
      }
  }

  lemma {:induction false} EvalInstrMeans(p: Program, depth: nat, labels: nat, instr: Instr, s: State, n: nat)
    requires n >= s.machine.fuel
    ensures var r := EvalInstr(p, depth, labels, instr, s);
            !Halted(r.signal) ==> MeanInstr(p, n, instr, Erase(s)) == Some(Erased(r))
    decreases s.machine.fuel, 0, instr
  {
    hide Eval, Mean, PlainStep, Count, MeanLoop, EvalLoop;
    var paid := Tick(s, labels);
    if paid.signal.Next? {
      var s1 := paid.state;
      match instr
      case Block(blockType, body) =>
        var scanned := Charge(s1, Count(body) + 1);
        if scanned.signal.Next? {
          EvalMeans(p, depth, labels + 1, body, scanned.state, n);
        }
      case Loop(_, body) => EvalLoopMeans(p, depth, labels, |s1.stack|, body, s1, n);
      case If(blockType, thn, els) => EvalIfMeans(p, depth, labels, blockType, thn, els, s1, n);
      case Call(index) => EvalCallSiteMeans(p, depth, index, s1, n - 1);
      case _ =>
    }
  }

  lemma {:induction false} EvalLoopMeans(p: Program, depth: nat, labels: nat, height: nat, body: Code, s: State, n: nat)
    requires n >= s.machine.fuel
    ensures var r := EvalLoop(p, depth, labels, height, body, s);
            !Halted(r.signal) ==> MeanLoop(p, n, height, body, Erase(s)) == Some(Erased(r))
    decreases s.machine.fuel, 1, body
  {
    hide Eval, Mean;
    EvalMeans(p, depth, labels + 1, body, s, n);
    var r := Eval(p, depth, labels + 1, body, s);
    if r.signal == Branching(0) {
      EvalLoopMeans(p, depth, labels, height, body, Close(r, height, false).state, n - 1);
    }
  }

  lemma {:induction false} EvalIfMeans(p: Program, depth: nat, labels: nat, blockType: byte, thn: Code,
        els: Option<Code>, s: State, n: nat)
    requires n > s.machine.fuel
    ensures var r := EvalIf(p, depth, labels, blockType != EMPTY_BLOCK, thn, els, s);
            !Halted(r.signal) ==> MeanInstr(p, n, If(blockType, thn, els), Erase(s)) == Some(Erased(r))
    decreases s.machine.fuel, 2
  {
    hide Eval, Mean, Count;
    var scanned := Charge(s, CountArms(thn, els));
    if scanned.signal.Next? && |s.stack| > 0 {
      var s1 := scanned.state.(stack := Pop(s.stack));
      if Top(s.stack).AsI32() != 0 {
        EvalMeans(p, depth, labels + 1, thn, s1, n);
      } else {
        var again := Charge(s1, CountArms(thn, els));
        if again.signal.Next? && els.Some? {
          EvalMeans(p, depth, labels + 1, els.value, again.state, n);
        }
      }
    }
  }

  lemma {:induction false} EvalCallSiteMeans(p: Program, depth: nat, index: u32, s: State, n: nat)
    requires n >= s.machine.fuel
    ensures var r := EvalCallSite(p, depth, index, s);
            !Halted(r.signal) ==> MeanCallSite(p, n, index, Erase(s)) == Some(Erased(r))
    decreases s.machine.fuel, 2
  {
    hide EvalCall, MeanCall;
    var signature := p.m.FunctionType(index);
    if signature.Some? && |s.stack| >= |signature.value.params| {
      EvalCallMeans(p, index, s.stack[|s.stack| - |signature.value.params|..], depth + 1, s.machine, n);
    }
  }

  lemma {:induction false} EvalCallMeans(p: Program, index: u32, arguments: seq<Value>, depth: nat, mc: Machine, n: nat)
    requires n >= mc.fuel
    ensures var o := EvalCall(p, index, arguments, depth, mc);
            !Stopped(o.reply) ==>
              MeanCall(p, n, index, arguments, mc.memory, mc.trace) ==
                Some(Effect(o.reply, o.machine.memory, o.machine.trace))
    decreases mc.fuel, 1
  {
    hide Eval, Mean;
    var known := if |p.m.functions| < |p.bodies| then |p.m.functions| else |p.bodies|;
    if depth < MAX_FRAMES && |p.m.imports| <= index < |p.m.imports| + known {
      var f := p.m.functions[index - |p.m.imports|];
      if f.typeIndex < |p.m.types| && |arguments| == |p.m.types[f.typeIndex].params| {
        EvalMeans(p, depth, 0, p.bodies[index - |p.m.imports|], State([], InitialLocals(arguments, f.locals), mc), n);
      }
    }
  }

  // ----- and enough fuel always lets it finish -----

  function Put(h: Here, fuel: nat): State {
    State(h.stack, h.locals, Machine(h.memory, h.trace, fuel))
  }

  /** Either a ceiling was hit, or the run did what it means and burned all but `left`. */
  predicate Agrees(r: Ran, m: Meant, left: nat) {
    r.signal == Trapped(StackOverflow) || r == Ran(m.signal, Put(m.here, left))
  }

  ghost predicate CodeCosts(p: Program, depth: nat, labels: nat, code: Code, h: Here, m: Meant, cost: nat) {
    forall fuel: nat {:trigger Put(h, fuel)} :: fuel >= cost ==>
      Agrees(Eval(p, depth, labels, code, Put(h, fuel)), m, fuel - cost)
  }

  ghost predicate InstrCosts(p: Program, depth: nat, labels: nat, instr: Instr, h: Here, m: Meant, cost: nat) {
    forall fuel: nat {:trigger Put(h, fuel)} :: fuel >= cost ==>
      Agrees(EvalInstr(p, depth, labels, instr, Put(h, fuel)), m, fuel - cost)
  }

  ghost predicate LoopCosts(p: Program, depth: nat, labels: nat, height: nat, body: Code, h: Here, m: Meant,
        cost: nat) {
    forall fuel: nat {:trigger Put(h, fuel)} :: fuel >= cost ==>
      Agrees(EvalLoop(p, depth, labels, height, body, Put(h, fuel)), m, fuel - cost)
  }

  ghost predicate CallSiteCosts(p: Program, depth: nat, index: u32, h: Here, m: Meant, cost: nat) {
    forall fuel: nat {:trigger Put(h, fuel)} :: fuel >= cost ==>
      Agrees(EvalCallSite(p, depth, index, Put(h, fuel)), m, fuel - cost)
  }

  ghost predicate CallCosts(
      p: Program, index: u32, arguments: seq<Value>, depth: nat, memory: seq<byte>, trace: seq<HostCall>, e: Effect,
        cost: nat)
  {
    forall fuel: nat {:trigger Machine(memory, trace, fuel)} :: fuel >= cost ==>
      var o := EvalCall(p, index, arguments, depth, Machine(memory, trace, fuel));
      o.reply == Err(StackOverflow) || o == Outcome(e.reply, Machine(e.memory, e.trace, fuel - cost))
  }

  lemma {:induction false} CodeFinishes(p: Program, depth: nat, labels: nat, n: nat, code: Code, h: Here)
    returns (cost: nat)
    requires Mean(p, n, code, h).Some?
    ensures CodeCosts(p, depth, labels, code, h, Mean(p, n, code, h).value, cost)
    decreases n, 0, code, 0
  {
    match code
    case Nil => cost := 0;
    case Cons(head, tail) =>
      hide EvalInstr, MeanInstr;
      cost := InstrFinishes(p, depth, labels, n, head, h);
      var m := MeanInstr(p, n, head, h).value;
      if m.signal.Next? {
        var more := CodeFinishes(p, depth, labels, n, tail, m.here);
        forall fuel: nat {:trigger Put(h, fuel)} | fuel >= cost + more
          ensures Agrees(Eval(p, depth, labels, code, Put(h, fuel)), Mean(p, n, code, h).value, fuel - cost - more)
        {
          var rest := Put(m.here, fuel - cost);
        }
        cost := cost + more;
      }
  }

  /** The body of a block, its `end` and the label between them. */
  lemma {:induction false} BodyFinishes(p: Program, depth: nat, labels: nat, n: nat, body: Code, height: nat,
        gives: bool, h: Here)
    returns (cost: nat)
    requires Mean(p, n, body, h).Some?
    ensures forall fuel: nat {:trigger Put(h, fuel)} :: fuel >= cost ==>
              Agrees(EvalBlock(p, depth, labels, height, gives, body, Put(h, fuel)),
                     Leaving(Mean(p, n, body, h).value, height, gives), fuel - cost)
    decreases n, 0, body, 1
  {
    hide Eval, Mean, Unwind;
    cost := CodeFinishes(p, depth, labels + 1, n, body, h);
    if Mean(p, n, body, h).value.signal.Next? {
      cost := cost + 1;
    }
  }

  lemma {:induction false} InstrFinishes(p: Program, depth: nat, labels: nat, n: nat, instr: Instr, h: Here)
    returns (cost: nat)
    requires MeanInstr(p, n, instr, h).Some?
    ensures InstrCosts(p, depth, labels, instr, h, MeanInstr(p, n, instr, h).value, cost)
    decreases n, 0, instr, 1
  {
    hide Eval, Mean, PlainStep, Count, EvalBlock, EvalLoop, MeanLoop, EvalIf, EvalCallSite, MeanCallSite, Leaving;
    var m := MeanInstr(p, n, instr, h).value;
    match instr
    case Block(blockType, body) =>
      var inner := BodyFinishes(p, depth, labels, n, body, |h.stack|, blockType != EMPTY_BLOCK, h);
      cost := 1 + (Count(body) + 1) + inner;
      forall fuel: nat {:trigger Put(h, fuel)} | fuel >= cost
        ensures Agrees(EvalInstr(p, depth, labels, instr, Put(h, fuel)), m, fuel - cost)
      {
        var scanned := Put(h, fuel - 1 - (Count(body) + 1));
      }
    case Loop(_, body) =>
      var inner := LoopFinishes(p, depth, labels, n, |h.stack|, body, h);
      cost := 1 + inner;
      forall fuel: nat {:trigger Put(h, fuel)} | fuel >= cost
        ensures Agrees(EvalInstr(p, depth, labels, instr, Put(h, fuel)), m, fuel - cost)
      {
        var paid := Put(h, fuel - 1);
      }
    case If(blockType, thn, els) =>
      var inner := IfFinishes(p, depth, labels, n, blockType, thn, els, h);
      cost := 1 + inner;
      forall fuel: nat {:trigger Put(h, fuel)} | fuel >= cost
        ensures Agrees(EvalInstr(p, depth, labels, instr, Put(h, fuel)), m, fuel - cost)
      {
        var paid := Put(h, fuel - 1);
      }
    case Call(index) =>
      var inner := CallSiteFinishes(p, depth, n - 1, index, h);
      cost := 1 + inner;
      forall fuel: nat {:trigger Put(h, fuel)} | fuel >= cost
        ensures Agrees(EvalInstr(p, depth, labels, instr, Put(h, fuel)), m, fuel - cost)
      {
        var paid := Put(h, fuel - 1);
      }
    case _ =>
      cost := 1;
  }

  lemma {:induction false} IfFinishes(
      p: Program, depth: nat, labels: nat, n: nat, blockType: byte, thn: Code, els: Option<Code>, h: Here)
        returns (cost: nat)
    requires MeanInstr(p, n, If(blockType, thn, els), h).Some?
    ensures forall fuel: nat {:trigger Put(h, fuel)} :: fuel >= cost ==>
              Agrees(EvalIf(p, depth, labels, blockType != EMPTY_BLOCK, thn, els, Put(h, fuel)),
                     MeanInstr(p, n, If(blockType, thn, els), h).value, fuel - cost)
    decreases n, 0, If(blockType, thn, els), 0
  {
    hide Eval, Mean, Count, EvalBlock, Unwind;
    var gives := blockType != EMPTY_BLOCK;
    var arms := CountArms(thn, els);
    cost := arms;
    if |h.stack| > 0 {
      var h1 := h.(stack := Pop(h.stack));
      var m := MeanInstr(p, n, If(blockType, thn, els), h).value;
      if Top(h.stack).AsI32() != 0 {
        var inner := CodeFinishes(p, depth, labels + 1, n, thn, h1);
        var close := if !Mean(p, n, thn, h1).value.signal.Next? then 0
          else if els.Some? then 2 + Count(els.value) else 1;
        cost := arms + inner + close;
        forall fuel: nat {:trigger Put(h, fuel)} | fuel >= cost
          ensures Agrees(EvalIf(p, depth, labels, gives, thn, els, Put(h, fuel)), m, fuel - cost)
        {
          var start := Put(h1, fuel - arms);
        }
      } else if els.Some? {
        var inner := BodyFinishes(p, depth, labels, n, els.value, |h1.stack|, gives, h1);
        cost := arms + arms + inner;
        forall fuel: nat {:trigger Put(h, fuel)} | fuel >= cost
          ensures Agrees(EvalIf(p, depth, labels, gives, thn, els, Put(h, fuel)), m, fuel - cost)
        {
          var start := Put(h1, fuel - arms - arms);
        }
      } else {
        cost := arms + arms;
      }
    }
  }

  lemma {:induction false} LoopFinishes(p: Program, depth: nat, labels: nat, n: nat, height: nat, body: Code, h: Here)
    returns (cost: nat)
    requires MeanLoop(p, n, height, body, h).Some?
    ensures LoopCosts(p, depth, labels, height, body, h, MeanLoop(p, n, height, body, h).value, cost)
    decreases n, 0, body, 1
  {
    hide Eval, Mean, Unwind;
    cost := CodeFinishes(p, depth, labels + 1, n, body, h);
    var m := Mean(p, n, body, h).value;
    if m.signal.Next? {
      cost := cost + 1;
    } else if m.signal == Branching(0) {
      var again := Leaving(m, height, false).here;
      var more := LoopFinishes(p, depth, labels, n - 1, height, body, again);
      forall fuel: nat {:trigger Put(h, fuel)} | fuel >= cost + more
        ensures Agrees(EvalLoop(p, depth, labels, height, body, Put(h, fuel)), MeanLoop(p, n, height, body, h).value,
                  fuel - cost - more)
      {
        var rest := Put(again, fuel - cost);
      }
      cost := cost + more;
    }
  }

  lemma {:induction false} CallSiteFinishes(p: Program, depth: nat, n: nat, index: u32, h: Here) returns (cost: nat)
    requires MeanCallSite(p, n, index, h).Some?
    ensures CallSiteCosts(p, depth, index, h, MeanCallSite(p, n, index, h).value, cost)
    decreases n, 2
  {
    hide EvalCall, MeanCall;
    cost := 0;
    var signature := p.m.FunctionType(index);
    if signature.Some? && |h.stack| >= |signature.value.params| {
      var arguments := h.stack[|h.stack| - |signature.value.params|..];
      cost := CallFinishes(p, n, index, arguments, depth + 1, h.memory, h.trace);
    }
  }

  /**
   * Whatever a call means, every run with at least `cost` fuel does exactly that, unless it runs
   * into the stack or frame ceiling.
   */
  lemma {:induction false} CallFinishes(
      p: Program, n: nat, index: u32, arguments: seq<Value>, depth: nat, memory: seq<byte>, trace: seq<HostCall>)
    returns (cost: nat)
    requires MeanCall(p, n, index, arguments, memory, trace).Some?
    ensures CallCosts(p, index, arguments, depth, memory, trace, MeanCall(p, n, index, arguments, memory, trace).value,
              cost)
    decreases n, 1
  {
    hide Eval, Mean;
    cost := 0;
    if |p.m.imports| <= index < |p.m.imports| + |p.m.functions| && index - |p.m.imports| < |p.bodies| {
      var f := p.m.functions[index - |p.m.imports|];
      if f.typeIndex < |p.m.types| && |arguments| == |p.m.types[f.typeIndex].params| {
        var h := Here([], InitialLocals(arguments, f.locals), memory, trace);
        var body := p.bodies[index - |p.m.imports|];
        cost := CodeFinishes(p, depth, 0, n, body, h);
        if Mean(p, n, body, h).value.signal.Next? {
          cost := cost + 1;
        }
        forall fuel: nat {:trigger Machine(memory, trace, fuel)} | fuel >= cost
          ensures var o := EvalCall(p, index, arguments, depth, Machine(memory, trace, fuel));
                  var e := MeanCall(p, n, index, arguments, memory, trace).value;
                  o.reply == Err(StackOverflow) || o == Outcome(e.reply, Machine(e.memory, e.trace, fuel - cost))
        {
          var start := Put(h, fuel);
        }
      }
    }
  }
}
