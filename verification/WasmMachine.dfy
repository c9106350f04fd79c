/**
 * The interpreter as it runs on raw bytes: a program counter, an operand stack, a label stack,
 * and a scanner that hunts for the matching `end`. The functions say what one run computes; the
 * class `Instance` is the dispatch loop itself, proved to compute exactly that.
 */
module WasmMachine {
  import opened Basics
  import opened WasmSyntax
  import opened WasmNumeric

  const MAX_STACK: nat := 256
  const MAX_FRAMES: nat := 32

  /** Where a branch to this label lands. */
  datatype Label = Label(target: nat, height: nat, isLoop: bool, returnsValue: bool)

  datatype HostCall = HostCall(importIndex: nat, arguments: seq<Value>)

  type Reply = Result<Option<Value>, Trap>

  /** A host may answer in any way that depends on everything it has been asked so far. */
  type Oracle = seq<HostCall> -> Reply

  datatype Machine = Machine(memory: seq<byte>, trace: seq<HostCall>, fuel: nat)

  datatype Frame = Frame(at: nat, stack: seq<Value>, labels: seq<Label>, locals: seq<Value>)

  datatype Outcome = Outcome(reply: Reply, machine: Machine)

  /** What stays fixed while one function body runs. `code` ends where the body ends. */
  datatype Env = Env(m: Module, oracle: Oracle, code: seq<byte>, depth: nat, returnsValue: bool)

  // ----- the scanner -----

  datatype Found = Found(elseAt: Option<nat>, end: nat)

  datatype Scanned = Scanned(found: Result<Found, Trap>, fuel: nat)

  function Scan(code: seq<byte>, at: nat, depth: nat, wantElse: bool, elseAt: Option<nat>, fuel: nat): (r: Scanned)
    requires elseAt.Some? ==> elseAt.value <= |code|
    ensures r.fuel <= fuel
    ensures r.found.Ok? ==> r.found.value.end <= |code|
    ensures r.found.Ok? && r.found.value.elseAt.Some? ==> r.found.value.elseAt.value <= |code|
    decreases fuel
  {
    if at >= |code| then Scanned(Err(Malformed), fuel)
    else if fuel == 0 then Scanned(Err(OutOfFuel), 0)
    else
      var b := code[at];
      if 0x02 <= b <= 0x04 then
        if at + 1 >= |code| then Scanned(Err(Malformed), fuel - 1)
        else Scan(code, at + 2, depth + 1, wantElse, elseAt, fuel - 1)
      else if b == 0x05 && depth == 0 && wantElse && elseAt.None? then
        Scan(code, at + 1, depth, wantElse, Some(at + 1), fuel - 1)
      else if b == 0x0b then
        if depth == 0 then Scanned(Ok(Found(elseAt, at + 1)), fuel - 1)
        else Scan(code, at + 1, depth - 1, wantElse, elseAt, fuel - 1)
      else
        match Skip(code, at)
        case Err(trap) => Scanned(Err(trap), fuel - 1)
        case Ok(next) => Scan(code, next, depth, wantElse, elseAt, fuel - 1)
  }

  function FindEnd(code: seq<byte>, at: nat, fuel: nat): (r: Scanned)
    ensures r.fuel <= fuel
    ensures r.found.Ok? ==> r.found.value.end <= |code|
  {
    Scan(code, at, 0, false, None, fuel)
  }

  function FindElse(code: seq<byte>, at: nat, fuel: nat): (r: Scanned)
    ensures r.fuel <= fuel
    ensures r.found.Ok? ==> r.found.value.end <= |code|
    ensures r.found.Ok? && r.found.value.elseAt.Some? ==> r.found.value.elseAt.value <= |code|
  {
    Scan(code, at, 0, true, None, fuel)
  }

  // ----- one dispatch -----

  datatype Step =
    | Continue(frame: Frame, machine: Machine)
    | Leave(reply: Reply, machine: Machine)
    | Invoke(index: u32, arguments: seq<Value>, frame: Frame, machine: Machine)

  function Answer(returnsValue: bool, stack: seq<Value>): Reply {
    Ok(if returnsValue && |stack| > 0 then Some(Top(stack)) else None)
  }

  /** Cut the operand stack back to the label's height, keeping the block's value on top. */
  function Unwind(stack: seq<Value>, height: nat, carries: bool): (r: seq<Value>)
    ensures |r| <= |stack|
  {
    var carried := carries && |stack| > 0;
    var rest := if carried then Pop(stack) else stack;
    var base := if height < |rest| then rest[..height] else rest;
    if carried then base + [Top(stack)] else base
  }

  function TakeBranch(env: Env, fr: Frame, depthIndex: nat, mc: Machine): (s: Step)
    ensures s.machine.fuel <= mc.fuel
  {
    if depthIndex >= |fr.labels| then
      Leave(Answer(env.returnsValue, fr.stack), mc)
    else
      var landing := fr.labels[|fr.labels| - 1 - depthIndex];
      var keep := |fr.labels| - depthIndex - if landing.isLoop then 0 else 1;
      var stack := Unwind(fr.stack, landing.height, landing.returnsValue && !landing.isLoop);
      if landing.target > |env.code| then Leave(Err(Malformed), mc)
      else Continue(fr.(at := landing.target, stack := stack, labels := fr.labels[..keep]), mc)
  }

  function Enter(env: Env, kind: BlockKind, blockType: byte, fr: Frame, mc: Machine): (s: Step)
    ensures s.machine.fuel <= mc.fuel && s.machine.memory == mc.memory && s.machine.trace == mc.trace
  {
    var scanned := if kind.LoopKind? then Scanned(Ok(Found(None, fr.at)), mc.fuel)
      else FindEnd(env.code, fr.at, mc.fuel);
    var mc' := mc.(fuel := scanned.fuel);
    match scanned.found
    case Err(trap) => Leave(Err(trap), mc')
    case Ok(found) =>
      var gives := blockType != EMPTY_BLOCK;
      if !kind.IfKind? then
        Continue(fr.(labels := fr.labels + [Label(found.end, |fr.stack|, kind.LoopKind?, gives)]), mc')
      else if |fr.stack| == 0 then
        Leave(Err(Faulted), mc')
      else
        var stack := Pop(fr.stack);
        var labels := fr.labels + [Label(found.end, |stack|, false, gives)];
        if Top(fr.stack).AsI32() != 0 then
          Continue(fr.(stack := stack, labels := labels), mc')
        else
          var again := FindElse(env.code, fr.at, mc'.fuel);
          match again.found
          case Err(trap) => Leave(Err(trap), mc'.(fuel := again.fuel))
          case Ok(both) =>
            match both.elseAt
            case Some(position) => Continue(fr.(at := position, stack := stack, labels := labels),
              mc'.(fuel := again.fuel))
            case None => Continue(fr.(at := both.end, stack := stack), mc'.(fuel := again.fuel))
  }

  /** `fr.at` is already past the instruction; `mc` has already paid for it. */
  function Dispatch(env: Env, op: Op, fr: Frame, mc: Machine): (s: Step)
    ensures s.machine.fuel <= mc.fuel && |s.machine.memory| == |mc.memory| && s.machine.trace == mc.trace
  {
    match op
    case Plain(plain) => (
      match PlainStep(plain, Work(fr.stack, fr.locals, mc.memory))
      case Err(trap) => Leave(Err(trap), mc)
      case Ok(w) => Continue(fr.(stack := w.stack, locals := w.locals), mc.(memory := w.memory)))
    case Enter(kind, blockType) => Enter(env, kind, blockType, fr, mc)
    case Else => (
      var scanned := FindEnd(env.code, fr.at, mc.fuel);
      var mc' := mc.(fuel := scanned.fuel);
      match scanned.found
      case Err(trap) => Leave(Err(trap), mc')
      case Ok(found) =>
        if |fr.labels| == 0 then Leave(Err(Malformed), mc')
        else Continue(fr.(at := found.end, labels := fr.labels[..|fr.labels| - 1]), mc'))
    case End =>
      if |fr.labels| == 0 then Leave(Answer(env.returnsValue, fr.stack), mc)
      else Continue(fr.(labels := fr.labels[..|fr.labels| - 1]), mc)
    case Br(n) => TakeBranch(env, fr, n, mc)
    case BrIf(n) =>
      if |fr.stack| == 0 then Leave(Err(Faulted), mc)
      else
        var fr' := fr.(stack := Pop(fr.stack));
        if Top(fr.stack).AsI32() != 0 then TakeBranch(env, fr', n, mc) else Continue(fr', mc)
    case Return => Leave(Answer(env.returnsValue, fr.stack), mc)
    case Call(index) =>
      var signature := env.m.FunctionType(index);
      if signature.None? then Leave(Err(Malformed), mc)
      else
        var count := |signature.value.params|;
        if |fr.stack| < count then Leave(Err(Faulted), mc)
        else
          var base := |fr.stack| - count;
          Invoke(index, fr.stack[base..], fr.(stack := fr.stack[..base]), mc)
  }

  // ----- whole runs -----

  /** The dispatch loop from `fr` on, until the function gives or traps. */
  function Run(env: Env, fr: Frame, mc: Machine): (o: Outcome)
    requires env.m.BodiesInBounds()
    ensures o.machine.fuel <= mc.fuel && |o.machine.memory| == |mc.memory|
    decreases mc.fuel, 0
  {
    if mc.fuel == 0 then
      Outcome(Err(OutOfFuel), mc)
    else
      var paid := mc.(fuel := mc.fuel - 1);
      if |fr.stack| > MAX_STACK || |fr.labels| > MAX_STACK then
        Outcome(Err(StackOverflow), paid)
      else
        match Fetch(env.code, fr.at)
        case Err(trap) => Outcome(Err(trap), paid)
        case Ok(read) =>
          match Dispatch(env, read.value, fr.(at := read.next), paid)
          case Leave(reply, mc') => Outcome(reply, mc')
          case Continue(fr', mc') => Run(env, fr', mc')
          case Invoke(index, arguments, fr', mc') =>
            var called := CallFunction(env.m, env.oracle, index, arguments, env.depth + 1, mc');
            match called.reply
            case Err(trap) => called
            case Ok(result) => Run(env, PushResult(fr', result), called.machine)
  }

  function PushResult(fr: Frame, result: Option<Value>): Frame {
    if result.Some? then fr.(stack := fr.stack + [result.value]) else fr
  }

  function InitialLocals(arguments: seq<Value>, types: seq<ValueType>): seq<Value> {
    arguments + seq(|types|, i requires 0 <= i < |types| => Value.Zero(types[i]))
  }

  function CallFunction(m: Module, oracle: Oracle, index: u32, arguments: seq<Value>, depth: nat,
        mc: Machine): (o: Outcome)
    requires m.BodiesInBounds()
    ensures o.machine.fuel <= mc.fuel && |o.machine.memory| == |mc.memory|
    decreases mc.fuel, 1
  {
    if depth >= MAX_FRAMES then
      Outcome(Err(StackOverflow), mc)
    else if index < |m.imports| then
      var trace := mc.trace + [HostCall(index, arguments)];
      Outcome(oracle(trace), mc.(trace := trace))
    else if index - |m.imports| >= |m.functions| then
      Outcome(Err(Malformed), mc)
    else
      var function' := m.functions[index - |m.imports|];
      if function'.typeIndex >= |m.types| then
        Outcome(Err(Malformed), mc)
      else
        var signature := m.types[function'.typeIndex];
        if |arguments| != |signature.params| then
          Outcome(Err(Faulted), mc)
        else if function'.start > function'.end then
          Outcome(Err(Malformed), mc)
        else
          var env := Env(m, oracle, m.bytes[..function'.end], depth, signature.results != []);
          Run(env, Frame(function'.start, [], [], InitialLocals(arguments, function'.locals)), mc)
  }

  /** What follows one dispatch. */
  function Follow(env: Env, step: Step): Outcome
    requires env.m.BodiesInBounds()
  {
    match step
    case Leave(reply, mc) => Outcome(reply, mc)
    case Continue(fr, mc) => Run(env, fr, mc)
    case Invoke(index, arguments, fr, mc) =>
      var called := CallFunction(env.m, env.oracle, index, arguments, env.depth + 1, mc);
      match called.reply
      case Err(_) => called
      case Ok(result) => Run(env, PushResult(fr, result), called.machine)
  }

  /** The dispatch loop, one instruction at a time. */
  lemma RunOnce(env: Env, fr: Frame, mc: Machine)
    requires env.m.BodiesInBounds()
    requires mc.fuel > 0 && |fr.stack| <= MAX_STACK && |fr.labels| <= MAX_STACK
    ensures var paid := mc.(fuel := mc.fuel - 1);
            var read := Fetch(env.code, fr.at);
            Run(env, fr, mc)
              == if read.Err? then Outcome(Err(read.error), paid)
                 else Follow(env, Dispatch(env, read.value.value, fr.(at := read.value.next), paid))
  {
    hide Fetch, Dispatch, CallFunction;
  }

  /** The two ways a run ends before it dispatches anything more. */
  lemma RunStops(env: Env, fr: Frame, mc: Machine)
    requires env.m.BodiesInBounds()
    ensures mc.fuel == 0 ==> Run(env, fr, mc) == Outcome(Err(OutOfFuel), mc)
    ensures mc.fuel > 0 && (|fr.stack| > MAX_STACK || |fr.labels| > MAX_STACK) ==>
              Run(env, fr, mc) == Outcome(Err(StackOverflow), mc.(fuel := mc.fuel - 1))
  {
  }
}
