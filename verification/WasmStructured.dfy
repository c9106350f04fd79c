/**
 * The structured reading of a function body: a tree of nested blocks with branches that unwind
 * them (the control part of section 4.4 of the WebAssembly Core Specification), carrying the
 * interpreter's fuel meter and its two ceilings.
 */
module WasmStructured {
  import opened Basics
  import opened WasmSyntax
  import opened WasmNumeric
  import opened WasmMachine

  datatype Code = Nil | Cons(head: Instr, tail: Code)

  datatype Instr =
    | Do(plain: PlainOp)
    | Block(blockType: byte, body: Code)
    | Loop(blockType: byte, body: Code)
    | If(blockType: byte, thn: Code, els: Option<Code>)
    | Br(target: u32)
    | BrIf(target: u32)
    | Return
    | Call(index: u32)

  // ----- when a byte range is a tree -----

  function Expect(bytes: seq<byte>, at: nat, op: Op): (next: Option<nat>)
    ensures next.Some? ==> at < next.value <= |bytes|
  {
    var read := Fetch(bytes, at);
    if read.Ok? && read.value.value == op then Some(read.value.next) else None
  }

  /** If the bytes at `at` spell `code`, the position just past it. */
  function ParseCode(bytes: seq<byte>, at: nat, code: Code): (next: Option<nat>)
    ensures next.Some? ==> at <= next.value && (at <= |bytes| ==> next.value <= |bytes|)
    decreases code, 0
  {
    match code
    case Nil => Some(at)
    case Cons(head, tail) =>
      var next :- ParseInstr(bytes, at, head);
      ParseCode(bytes, next, tail)
  }

  function ParseInstr(bytes: seq<byte>, at: nat, instr: Instr): (next: Option<nat>)
    ensures next.Some? ==> at < next.value <= |bytes|
    decreases instr, 0
  {
    match instr
    case Do(plain) => Expect(bytes, at, Op.Plain(plain))
    case Block(blockType, body) => ParseBlock(bytes, at, BlockKind, blockType, body)
    case Loop(blockType, body) => ParseBlock(bytes, at, LoopKind, blockType, body)
    case If(blockType, thn, els) => (
      var start :- Expect(bytes, at, Op.Enter(IfKind, blockType));
      var middle :- ParseCode(bytes, start, thn);
      match els
      case None => Expect(bytes, middle, Op.End)
      case Some(alternative) =>
        var second :- Expect(bytes, middle, Op.Else);
        var end :- ParseCode(bytes, second, alternative);
        Expect(bytes, end, Op.End))
    case Br(n) => Expect(bytes, at, Op.Br(n))
    case BrIf(n) => Expect(bytes, at, Op.BrIf(n))
    case Return => Expect(bytes, at, Op.Return)
    case Call(index) => Expect(bytes, at, Op.Call(index))
  }

  function ParseBlock(bytes: seq<byte>, at: nat, kind: BlockKind, blockType: byte, body: Code): (next: Option<nat>)
    ensures next.Some? ==> at < next.value <= |bytes|
    decreases body, 1
  {
    var start :- Expect(bytes, at, Op.Enter(kind, blockType));
    var end :- ParseCode(bytes, start, body);
    Expect(bytes, end, Op.End)
  }

  /** How many instructions, markers included, the scanner steps over. */
  function Count(code: Code): nat {
    match code
    case Nil => 0
    case Cons(head, tail) => CountInstr(head) + Count(tail)
  }

  function CountInstr(instr: Instr): (n: nat)
    ensures n > 0
  {
    match instr
    case Block(_, body) => 2 + Count(body)
    case Loop(_, body) => 2 + Count(body)
    case If(_, thn, None) => 2 + Count(thn)
    case If(_, thn, Some(els)) => 3 + Count(thn) + Count(els)
    case _ => 1
  }

  /** Both arms of an `if`, its `else` and its `end`. */
  function CountArms(thn: Code, els: Option<Code>): nat {
    Count(thn) + (if els.Some? then 1 + Count(els.value) else 0) + 1
  }

  // ----- metered structured evaluation -----

  datatype Signal = Next | Branching(depth: nat) | Returning | Trapped(trap: Trap)

  datatype State = State(stack: seq<Value>, locals: seq<Value>, machine: Machine)

  datatype Ran = Ran(signal: Signal, state: State)

  /** A module whose bodies are known as trees. */
  datatype Program = Program(m: Module, oracle: Oracle, bodies: seq<Code>)

  function WithFuel(s: State, fuel: nat): State {
    s.(machine := s.machine.(fuel := fuel))
  }

  /** Pay for one dispatch under `labels` open labels. */
  function Tick(s: State, labels: nat): (r: Ran)
    ensures r.state.machine.fuel <= s.machine.fuel
    ensures r.signal.Next? ==> s.machine.fuel > 0 && r.state == WithFuel(s, s.machine.fuel - 1)
  {
    if s.machine.fuel == 0 then Ran(Trapped(OutOfFuel), s)
    else if |s.stack| > MAX_STACK ||
      labels > MAX_STACK then Ran(Trapped(StackOverflow), WithFuel(s, s.machine.fuel - 1))
    else Ran(Next, WithFuel(s, s.machine.fuel - 1))
  }

  /** Pay for `steps` steps of the scanner. */
  function Charge(s: State, steps: nat): (r: Ran)
    ensures r.state.machine.fuel <= s.machine.fuel
  {
    if s.machine.fuel < steps then Ran(Trapped(OutOfFuel), WithFuel(s, 0))
    else Ran(Next, WithFuel(s, s.machine.fuel - steps))
  }

  /** What leaving a block means: its own label is innermost, and a branch to it lands after it. */
  function Close(r: Ran, height: nat, gives: bool): (closed: Ran)
    requires !r.signal.Next?
    ensures closed.state.machine == r.state.machine
  {
    match r.signal
    case Branching(depth) =>
      if depth == 0 then Ran(Next, r.state.(stack := Unwind(r.state.stack, height, gives)))
      else Ran(Branching(depth - 1), r.state)
    case _ => r
  }

  function Eval(p: Program, depth: nat, labels: nat, code: Code, s: State): (r: Ran)
    ensures r.state.machine.fuel <= s.machine.fuel
    ensures r.signal.Branching? ==> r.state.machine.fuel < s.machine.fuel
    decreases s.machine.fuel, 0, code
  {
    match code
    case Nil => Ran(Next, s)
    case Cons(head, tail) =>
      var r := EvalInstr(p, depth, labels, head, s);
      if r.signal.Next? then Eval(p, depth, labels, tail, r.state) else r
  }

  function EvalInstr(p: Program, depth: nat, labels: nat, instr: Instr, s: State): (r: Ran)
    ensures r.state.machine.fuel <= s.machine.fuel
    ensures r.signal.Branching? ==> r.state.machine.fuel < s.machine.fuel
    decreases s.machine.fuel, 0, instr
  {
    var paid := Tick(s, labels);
    if !paid.signal.Next? then paid
    else
      var s1 := paid.state;
      match instr
      case Do(plain) => (
        match PlainStep(plain, Work(s1.stack, s1.locals, s1.machine.memory))
        case Err(trap) => Ran(Trapped(trap), s1)
        case Ok(w) => Ran(Next, State(w.stack, w.locals, s1.machine.(memory := w.memory))))
      case Block(blockType, body) =>
        var scanned := Charge(s1, Count(body) + 1);
        if !scanned.signal.Next? then scanned
        else EvalBlock(p, depth, labels, |s1.stack|, blockType != EMPTY_BLOCK, body, scanned.state)
      case Loop(blockType, body) => EvalLoop(p, depth, labels, |s1.stack|, body, s1)
      case If(blockType, thn, els) => EvalIf(p, depth, labels, blockType != EMPTY_BLOCK, thn, els, s1)
      case Br(n) => Ran(Branching(n), s1)
      case BrIf(n) =>
        if |s1.stack| == 0 then Ran(Trapped(Faulted), s1)
        else
          var s2 := s1.(stack := Pop(s1.stack));
          Ran(if Top(s1.stack).AsI32() != 0 then Branching(n) else Next, s2)
      case Return => Ran(Returning, s1)
      case Call(index) => EvalCallSite(p, depth, index, s1)
  }

  function EvalBlock(p: Program, depth: nat, labels: nat, height: nat, gives: bool, body: Code, s: State): (r: Ran)
    ensures r.state.machine.fuel <= s.machine.fuel
    decreases s.machine.fuel, 1, body
  {
    var r := Eval(p, depth, labels + 1, body, s);
    if r.signal.Next? then Tick(r.state, labels + 1) else Close(r, height, gives)
  }

  function EvalLoop(p: Program, depth: nat, labels: nat, height: nat, body: Code, s: State): (r: Ran)
    ensures r.state.machine.fuel <= s.machine.fuel
    decreases s.machine.fuel, 1, body
  {
    var r := Eval(p, depth, labels + 1, body, s);
    if r.signal.Next? then Tick(r.state, labels + 1)
    else if r.signal == Branching(0) then EvalLoop(p, depth, labels, height, body, Close(r, height, false).state)
    else Close(r, height, false)
  }

  function EvalIf(p: Program, depth: nat, labels: nat, gives: bool, thn: Code, els: Option<Code>, s: State): (r: Ran)
    ensures r.state.machine.fuel <= s.machine.fuel
    decreases s.machine.fuel, 2
  {
    var scanned := Charge(s, CountArms(thn, els));
    if !scanned.signal.Next? then scanned
    else if |s.stack| == 0 then Ran(Trapped(Faulted), scanned.state)
    else
      var s1 := scanned.state.(stack := Pop(s.stack));
      if Top(s.stack).AsI32() != 0 then
        EvalThen(p, depth, labels, |s1.stack|, gives, thn, els, s1)
      else
        var again := Charge(s1, CountArms(thn, els));
        if !again.signal.Next? || els.None? then again
        else EvalBlock(p, depth, labels, |s1.stack|, gives, els.value, again.state)
  }

  /** Falling out of the first arm meets `else`, which scans for the end and closes the label. */
  function EvalThen(p: Program, depth: nat, labels: nat, height: nat, gives: bool, thn: Code, els: Option<Code>,
        s: State): (r: Ran)
    ensures r.state.machine.fuel <= s.machine.fuel
    decreases s.machine.fuel, 1, thn
  {
    var r := Eval(p, depth, labels + 1, thn, s);
    if !r.signal.Next? then Close(r, height, gives)
    else
      var marker := Tick(r.state, labels + 1);
      if !marker.signal.Next? || els.None? then marker else Charge(marker.state, Count(els.value) + 1)
  }

  function EvalCallSite(p: Program, depth: nat, index: u32, s: State): (r: Ran)
    ensures r.state.machine.fuel <= s.machine.fuel && !r.signal.Branching?
    decreases s.machine.fuel, 2
  {
    var signature := p.m.FunctionType(index);
    if signature.None? then Ran(Trapped(Malformed), s)
    else
      var count := |signature.value.params|;
      if |s.stack| < count then Ran(Trapped(Faulted), s)
      else
        var base := |s.stack| - count;
        var called := EvalCall(p, index, s.stack[base..], depth + 1, s.machine);
        var s1 := State(s.stack[..base], s.locals, called.machine);
        match called.reply
        case Err(trap) => Ran(Trapped(trap), s1)
        case Ok(result) => Ran(Next, if result.Some? then s1.(stack := s1.stack + [result.value]) else s1)
  }

  function EvalCall(p: Program, index: u32, arguments: seq<Value>, depth: nat, mc: Machine): (o: Outcome)
    ensures o.machine.fuel <= mc.fuel
    decreases mc.fuel, 1
  {
    if depth >= MAX_FRAMES then
      Outcome(Err(StackOverflow), mc)
    else if index < |p.m.imports| then
      var trace := mc.trace + [HostCall(index, arguments)];
      Outcome(p.oracle(trace), mc.(trace := trace))
    else if index - |p.m.imports| >= |p.m.functions| || index - |p.m.imports| >= |p.bodies| then
      Outcome(Err(Malformed), mc)
    else
      var function' := p.m.functions[index - |p.m.imports|];
      if function'.typeIndex >= |p.m.types| then
        Outcome(Err(Malformed), mc)
      else
        var signature := p.m.types[function'.typeIndex];
        if |arguments| != |signature.params| then
          Outcome(Err(Faulted), mc)
        else
          var s := State([], InitialLocals(arguments, function'.locals), mc);
          FinishCall(signature.results != [], Eval(p, depth, 0, p.bodies[index - |p.m.imports|], s))
  }

  /** A function's `end` is one more dispatch; a branch past every label is a return. */
  function FinishCall(returnsValue: bool, r: Ran): (o: Outcome)
    ensures o.machine.fuel <= r.state.machine.fuel
  {
    var last := if r.signal.Next? then Tick(r.state, 0) else r;
    match last.signal
    case Trapped(trap) => Outcome(Err(trap), last.state.machine)
    case _ => Outcome(Answer(returnsValue, last.state.stack), last.state.machine)
  }
}
