/** Running the bytes of a tree is the tree's structured evaluation, instruction for instruction. */
module WasmSimulation {
  import opened Basics
  import opened WasmSyntax
  import opened WasmNumeric
  import opened WasmMachine
  import opened WasmStructured

  // ----- the scanner over a tree -----

  function ScanAfter(bytes: seq<byte>, at: nat, depth: nat, wantElse: bool, elseAt: Option<nat>, fuel: nat,
        steps: nat): Scanned
    requires elseAt.Some? ==> elseAt.value <= |bytes|
  {
    if fuel < steps then Scanned(Err(OutOfFuel), 0) else Scan(bytes, at, depth, wantElse, elseAt, fuel - steps)
  }

  // One step of the scanner on each kind of instruction.

  lemma ScanEnter(bytes: seq<byte>, at: nat, kind: BlockKind, blockType: byte, depth: nat, wantElse: bool,
        elseAt: Option<nat>, fuel: nat)
    requires elseAt.Some? ==> elseAt.value <= |bytes|
    requires Expect(bytes, at, Op.Enter(kind, blockType)).Some?
    ensures Expect(bytes, at, Op.Enter(kind, blockType)) == Some(at + 2)
    ensures Scan(bytes, at, depth, wantElse, elseAt, fuel)
         == ScanAfter(bytes, at + 2, depth + 1, wantElse, elseAt, fuel, 1)
  {
    hide Skip;
    SameWidth(bytes, at);
  }

  lemma ScanEnd(bytes: seq<byte>, at: nat, depth: nat, wantElse: bool, elseAt: Option<nat>, fuel: nat)
    requires elseAt.Some? ==> elseAt.value <= |bytes|
    requires Expect(bytes, at, Op.End).Some?
    ensures Expect(bytes, at, Op.End) == Some(at + 1)
    ensures fuel == 0 ==> Scan(bytes, at, depth, wantElse, elseAt, fuel) == Scanned(Err(OutOfFuel), 0)
    ensures fuel > 0 && depth == 0 ==>
              Scan(bytes, at, depth, wantElse, elseAt, fuel) == Scanned(Ok(Found(elseAt, at + 1)), fuel - 1)
    ensures depth > 0 ==>
              Scan(bytes, at, depth, wantElse, elseAt, fuel) ==
                ScanAfter(bytes, at + 1, depth - 1, wantElse, elseAt, fuel, 1)
  {
    hide Skip;
    SameWidth(bytes, at);
  }

  lemma ScanElse(bytes: seq<byte>, at: nat, depth: nat, wantElse: bool, elseAt: Option<nat>, fuel: nat)
    requires elseAt.Some? ==> elseAt.value <= |bytes|
    requires Expect(bytes, at, Op.Else).Some?
    ensures Expect(bytes, at, Op.Else) == Some(at + 1)
    ensures var reported := if depth == 0 && wantElse && elseAt.None? then Some(at + 1) else elseAt;
            Scan(bytes, at, depth, wantElse, elseAt, fuel)
              == ScanAfter(bytes, at + 1, depth, wantElse, reported, fuel, 1)
  {
    SameWidth(bytes, at);
  }

  lemma ScanOther(bytes: seq<byte>, at: nat, op: Op, depth: nat, wantElse: bool, elseAt: Option<nat>, fuel: nat)
    requires elseAt.Some? ==> elseAt.value <= |bytes|
    requires !IsMarker(op) && Expect(bytes, at, op).Some?
    ensures Scan(bytes, at, depth, wantElse, elseAt, fuel)
         == ScanAfter(bytes, Expect(bytes, at, op).value, depth, wantElse, elseAt, fuel, 1)
  {
    hide Skip;
    SameWidth(bytes, at);
    hide Fetch;
  }

  lemma {:induction false} ScanStepsOverCode(
      bytes: seq<byte>, at: nat, code: Code, next: nat, depth: nat, wantElse: bool, elseAt: Option<nat>, fuel: nat)
    requires elseAt.Some? ==> elseAt.value <= |bytes|
    requires at <= |bytes| && ParseCode(bytes, at, code) == Some(next)
    ensures Scan(bytes, at, depth, wantElse, elseAt, fuel)
         == ScanAfter(bytes, next, depth, wantElse, elseAt, fuel, Count(code))
    decreases Count(code), 1
  {
    hide Scan, ParseInstr, CountInstr;
    match code
    case Nil =>
    case Cons(head, tail) =>
      var middle := ParseInstr(bytes, at, head).value;
      ScanStepsOverInstr(bytes, at, head, middle, depth, wantElse, elseAt, fuel);
      if fuel >= CountInstr(head) {
        ScanStepsOverCode(bytes, middle, tail, next, depth, wantElse, elseAt, fuel - CountInstr(head));
      }
  }

  lemma {:induction false} ScanStepsOverInstr(
      bytes: seq<byte>, at: nat, instr: Instr, next: nat, depth: nat, wantElse: bool, elseAt: Option<nat>, fuel: nat)
    requires elseAt.Some? ==> elseAt.value <= |bytes|
    requires ParseInstr(bytes, at, instr) == Some(next)
    ensures Scan(bytes, at, depth, wantElse, elseAt, fuel)
         == ScanAfter(bytes, next, depth, wantElse, elseAt, fuel, CountInstr(instr))
    decreases CountInstr(instr), 0
  {
    hide Scan, Expect;
    match instr
    case Block(blockType, body) =>
      ScanEnter(bytes, at, BlockKind, blockType, depth, wantElse, elseAt, fuel);
      if fuel > 0 { ScanStepsOverArms(bytes, at + 2, body, None, next, depth, wantElse, elseAt, fuel - 1); }
    case Loop(blockType, body) =>
      ScanEnter(bytes, at, LoopKind, blockType, depth, wantElse, elseAt, fuel);
      if fuel > 0 { ScanStepsOverArms(bytes, at + 2, body, None, next, depth, wantElse, elseAt, fuel - 1); }
    case If(blockType, thn, els) =>
      ScanEnter(bytes, at, IfKind, blockType, depth, wantElse, elseAt, fuel);
      if fuel > 0 { ScanStepsOverArms(bytes, at + 2, thn, els, next, depth, wantElse, elseAt, fuel - 1); }
    case Do(plain) => ScanOther(bytes, at, Op.Plain(plain), depth, wantElse, elseAt, fuel);
    case Br(n) => ScanOther(bytes, at, Op.Br(n), depth, wantElse, elseAt, fuel);
    case BrIf(n) => ScanOther(bytes, at, Op.BrIf(n), depth, wantElse, elseAt, fuel);
    case Return => ScanOther(bytes, at, Op.Return, depth, wantElse, elseAt, fuel);
    case Call(index) => ScanOther(bytes, at, Op.Call(index), depth, wantElse, elseAt, fuel);
  }

  /** The arms of a block, from just past its header to just past its `end`. */
  predicate ParsesArms(bytes: seq<byte>, at: nat, thn: Code, els: Option<Code>, next: nat) {
    var middle := ParseCode(bytes, at, thn);
    && middle.Some?
    && match els
       case None => Expect(bytes, middle.value, Op.End) == Some(next)
       case Some(alternative) =>
         var second := Expect(bytes, middle.value, Op.Else);
         && second.Some?
         && var end := ParseCode(bytes, second.value, alternative);
         && end.Some?
         && Expect(bytes, end.value, Op.End) == Some(next)
  }

  /** Inside an enclosing block, the scanner passes a whole inner block and reports nothing. */
  lemma {:induction false} ScanStepsOverArms(
      bytes: seq<byte>, at: nat, thn: Code, els: Option<Code>, next: nat, outer: nat, wantElse: bool,
        elseAt: Option<nat>, fuel: nat)
    requires elseAt.Some? ==> elseAt.value <= |bytes|
    requires at <= |bytes| && ParsesArms(bytes, at, thn, els, next)
    ensures Scan(bytes, at, outer + 1, wantElse, elseAt, fuel)
         == ScanAfter(bytes, next, outer, wantElse, elseAt, fuel, CountArms(thn, els))
    decreases CountArms(thn, els), 0
  {
    hide Scan, Expect, ParseCode;
    var middle := ParseCode(bytes, at, thn).value;
    ScanStepsOverCode(bytes, at, thn, middle, outer + 1, wantElse, elseAt, fuel);
    if fuel >= Count(thn) {
      var left := fuel - Count(thn);
      match els
      case None => ScanEnd(bytes, middle, outer + 1, wantElse, elseAt, left);
      case Some(alternative) =>
        ScanElse(bytes, middle, outer + 1, wantElse, elseAt, left);
        if left > 0 {
          var end := ParseCode(bytes, middle + 1, alternative).value;
          ScanStepsOverCode(bytes, middle + 1, alternative, end, outer + 1, wantElse, elseAt, left - 1);
          if left - 1 >= Count(alternative) {
            ScanEnd(bytes, end, outer + 1, wantElse, elseAt, left - 1 - Count(alternative));
          }
        }
    }
  }

  function OwnElse(bytes: seq<byte>, at: nat, thn: Code, els: Option<Code>, wantElse: bool): Option<nat> {
    if wantElse && els.Some? then
      var middle :- ParseCode(bytes, at, thn);
      Some(middle + 1)
    else
      None
  }

  /**
   * From just past a block's header, both searches stop just past the `end` that closes it and
   * have paid for every step; only the block's own `else` is reported, at any nesting depth.
   */
  lemma FindsMatchingEnd(bytes: seq<byte>, at: nat, thn: Code, els: Option<Code>, next: nat, wantElse: bool, fuel: nat)
    requires at <= |bytes| && ParsesArms(bytes, at, thn, els, next)
    ensures Scan(bytes, at, 0, wantElse, None, fuel)
         == if fuel < CountArms(thn, els) then Scanned(Err(OutOfFuel), 0)
            else Scanned(Ok(Found(OwnElse(bytes, at, thn, els, wantElse), next)), fuel - CountArms(thn, els))
  {
    hide Scan, Expect, ParseCode;
    var middle := ParseCode(bytes, at, thn).value;
    ScanStepsOverCode(bytes, at, thn, middle, 0, wantElse, None, fuel);
    if fuel >= Count(thn) {
      var left := fuel - Count(thn);
      match els
      case None => ScanEnd(bytes, middle, 0, wantElse, None, left);
      case Some(alternative) =>
        ScanElse(bytes, middle, 0, wantElse, None, left);
        if left > 0 {
          var own := OwnElse(bytes, at, thn, els, wantElse);
          var end := ParseCode(bytes, middle + 1, alternative).value;
          ScanStepsOverCode(bytes, middle + 1, alternative, end, 0, wantElse, own, left - 1);
          if left - 1 >= Count(alternative) {
            ScanEnd(bytes, end, 0, wantElse, own, left - 1 - Count(alternative));
          }
        }
    }
  }

  // ----- the simulation -----

  /** Each body of the program is what its module's bytes spell, closed by the function's `end`. */
  ghost predicate Spells(p: Program) {
    && p.m.BodiesInBounds()
    && |p.bodies| == |p.m.functions|
    && forall i :: 0 <= i < |p.bodies| ==> SpellsBody(p.m, p.m.functions[i], p.bodies[i])
  }

  predicate SpellsBody(m: Module, f: Function, body: Code) {
    && f.start <= f.end <= |m.bytes|
    && var end := ParseCode(m.bytes[..f.end], f.start, body);
    && end.Some?
    && Expect(m.bytes[..f.end], end.value, Op.End).Some?
  }

  ghost predicate Inside(p: Program, env: Env) {
    env.m == p.m && env.oracle == p.oracle && Spells(p)
  }

  ghost predicate LabelsLand(env: Env, labels: seq<Label>) {
    forall i :: 0 <= i < |labels| ==> labels[i].target <= |env.code|
  }

  /** How the byte machine goes on after a tree has run from state to signal. */
  function Resume(env: Env, labels: seq<Label>, next: nat, r: Ran): Outcome
    requires env.m.BodiesInBounds()
  {
    var fr := Frame(next, r.state.stack, labels, r.state.locals);
    match r.signal
    case Next => Run(env, fr, r.state.machine)
    case Branching(n) => (
      match TakeBranch(env, fr, n, r.state.machine)
      case Leave(reply, mc) => Outcome(reply, mc)
      case Continue(landed, mc) => Run(env, landed, mc)
      case Invoke(_, _, _, mc) => Outcome(Err(Malformed), mc))
    case Returning => Outcome(Answer(env.returnsValue, r.state.stack), r.state.machine)
    case Trapped(trap) => Outcome(Err(trap), r.state.machine)
  }

  function Start(labels: seq<Label>, at: nat, s: State): Frame {
    Frame(at, s.stack, labels, s.locals)
  }

  /** The dispatch loop on one instruction: pay, then do it. */
  lemma RunStep(env: Env, labels: seq<Label>, at: nat, op: Op, s: State)
    requires env.m.BodiesInBounds()
    requires Expect(env.code, at, op).Some?
    ensures var next := Expect(env.code, at, op).value;
            var paid := Tick(s, |labels|);
            Run(env, Start(labels, at, s), s.machine)
              == if paid.signal.Next? then
                Follow(env, Dispatch(env, op, Start(labels, next, paid.state), paid.state.machine))
                 else Resume(env, labels, next, paid)
  {
    hide Fetch, Dispatch, CallFunction;
  }

  // Signals that the enclosing block handles: what the machine does once its body has run.

  function Opened(labels: seq<Label>, target: nat, height: nat, isLoop: bool, gives: bool): seq<Label> {
    labels + [Label(target, height, isLoop, gives)]
  }

  /** A branch inside a block either lands on its label or carries on outward. */
  lemma BranchLeaves(env: Env, labels: seq<Label>, target: nat, height: nat, isLoop: bool, gives: bool, at: nat,
        next: nat, r: Ran)
    requires env.m.BodiesInBounds() && target <= |env.code| && !r.signal.Next?
    ensures var closed := Close(r, height, gives && !isLoop);
            Resume(env, Opened(labels, target, height, isLoop, gives), at, r)
              == if r.signal != Branching(0) then Resume(env, labels, next, closed)
                 else if isLoop then Run(env,
                   Start(Opened(labels, target, height, isLoop, gives), target, closed.state), r.state.machine)
                 else Run(env, Start(labels, target, closed.state), r.state.machine)
  {
    hide Run, Unwind;
    var inner := Opened(labels, target, height, isLoop, gives);
    if r.signal.Branching? {
      var n := r.signal.depth;
      if n == 0 {
        assert inner[..|inner|] == inner;
        assert inner[..|inner| - 1] == labels;
      } else if n < |inner| {
        assert inner[|inner| - 1 - n] == labels[|labels| - 1 - (n - 1)];
        var keep := |inner| - n - if labels[|labels| - n].isLoop then 0 else 1;
        assert inner[..keep] == labels[..keep];
      }
    }
  }

  /** Run a block's body under its label, then close it. `at` is where the body starts. */
  lemma {:induction false} RunsBlockBody(
      p: Program, env: Env, labels: seq<Label>, gives: bool, body: Code, at: nat, end: nat, s: State)
    requires Inside(p, env) && LabelsLand(env, labels)
    requires at <= |env.code| && ParseCode(env.code, at, body) == Some(end)
    requires Expect(env.code, end, Op.End).Some?
    ensures var next := end + 1;
            Run(env, Start(Opened(labels, next, |s.stack|, false, gives), at, s), s.machine)
              == Resume(env, labels, next, EvalBlock(p, env.depth, |labels|, |s.stack|, gives, body, s))
    decreases s.machine.fuel, 1, body
  {
    hide Run, Eval;
    var next := end + 1;
    var inner := Opened(labels, next, |s.stack|, false, gives);
    ExpectMarker(env.code, end);
    RunsCode(p, env, inner, body, at, end, s);
    var r := Eval(p, env.depth, |labels| + 1, body, s);
    if r.signal.Next? {
      RunStep(env, inner, end, Op.End, r.state);
      assert inner[..|inner| - 1] == labels;
    } else {
      BranchLeaves(env, labels, next, |s.stack|, false, gives, end, next, r);
    }
  }

  lemma ExpectMarker(code: seq<byte>, at: nat)
    ensures Expect(code, at, Op.End).Some? ==> Expect(code, at, Op.End) == Some(at + 1)
    ensures Expect(code, at, Op.Else).Some? ==> Expect(code, at, Op.Else) == Some(at + 1)
  {
    if at < |code| && Fetch(code, at).Ok? {
      SameWidth(code, at);
    }
  }

  lemma {:induction false} RunsLoop(p: Program, env: Env, labels: seq<Label>, gives: bool, height: nat, body: Code,
        at: nat, end: nat, s: State)
    requires Inside(p, env) && LabelsLand(env, labels)
    requires at <= |env.code| && ParseCode(env.code, at, body) == Some(end)
    requires Expect(env.code, end, Op.End).Some?
    ensures var next := end + 1;
            Run(env, Start(Opened(labels, at, height, true, gives), at, s), s.machine)
              == Resume(env, labels, next, EvalLoop(p, env.depth, |labels|, height, body, s))
    decreases s.machine.fuel, 1, body
  {
    hide Run, Eval;
    var next := end + 1;
    var inner := Opened(labels, at, height, true, gives);
    ExpectMarker(env.code, end);
    RunsCode(p, env, inner, body, at, end, s);
    var r := Eval(p, env.depth, |labels| + 1, body, s);
    if r.signal.Next? {
      RunStep(env, inner, end, Op.End, r.state);
      assert inner[..|inner| - 1] == labels;
    } else {
      BranchLeaves(env, labels, at, height, true, gives, end, next, r);
      if r.signal == Branching(0) {
        RunsLoop(p, env, labels, gives, height, body, at, end, Close(r, height, false).state);
      }
    }
  }

  lemma {:induction false} RunsCode(p: Program, env: Env, labels: seq<Label>, code: Code, at: nat, next: nat, s: State)
    requires Inside(p, env) && LabelsLand(env, labels)
    requires at <= |env.code| && ParseCode(env.code, at, code) == Some(next)
    ensures Run(env, Start(labels, at, s), s.machine)
         == Resume(env, labels, next, Eval(p, env.depth, |labels|, code, s))
    decreases s.machine.fuel, 0, code
  {
    hide Run, ParseInstr, EvalInstr;
    match code
    case Nil =>
    case Cons(head, tail) =>
      var middle := ParseInstr(env.code, at, head).value;
      RunsInstr(p, env, labels, head, at, middle, s);
      var r := EvalInstr(p, env.depth, |labels|, head, s);
      if r.signal.Next? {
        RunsCode(p, env, labels, tail, middle, next, r.state);
      }
  }

  lemma {:induction false} RunsInstr(p: Program, env: Env, labels: seq<Label>, instr: Instr, at: nat, next: nat,
        s: State)
    requires Inside(p, env) && LabelsLand(env, labels)
    requires ParseInstr(env.code, at, instr) == Some(next)
    ensures Run(env, Start(labels, at, s), s.machine)
         == Resume(env, labels, next, EvalInstr(p, env.depth, |labels|, instr, s))
    decreases s.machine.fuel, 0, instr
  {
    hide Run, Expect, Scan, PlainStep;
    var paid := Tick(s, |labels|);
    var s1 := paid.state;
    match instr
    case Do(plain) => RunStep(env, labels, at, Op.Plain(plain), s);
    case Br(n) => RunStep(env, labels, at, Op.Br(n), s);
    case BrIf(n) => RunStep(env, labels, at, Op.BrIf(n), s);
    case Return => RunStep(env, labels, at, Op.Return, s);
    case Call(index) =>
      RunStep(env, labels, at, Op.Call(index), s);
      if paid.signal.Next? {
        RunsCallSite(p, env, labels, index, next, s1);
      }
    case Block(blockType, body) =>
      RunStep(env, labels, at, Op.Enter(BlockKind, blockType), s);
      if paid.signal.Next? {
        RunsBlock(p, env, labels, blockType, body, Expect(env.code, at, Op.Enter(BlockKind, blockType)).value, next,
          s1);
      }
    case Loop(blockType, body) =>
      RunStep(env, labels, at, Op.Enter(LoopKind, blockType), s);
      if paid.signal.Next? {
        var start := Expect(env.code, at, Op.Enter(LoopKind, blockType)).value;
        var end := ParseCode(env.code, start, body).value;
        ExpectMarker(env.code, end);
        RunsLoop(p, env, labels, blockType != EMPTY_BLOCK, |s1.stack|, body, start, end, s1);
      }
    case If(blockType, thn, els) =>
      RunStep(env, labels, at, Op.Enter(IfKind, blockType), s);
      if paid.signal.Next? {
        RunsIf(p, env, labels, blockType, thn, els, Expect(env.code, at, Op.Enter(IfKind, blockType)).value, next, s1);
      }
  }

  lemma {:induction false} RunsBlock(
      p: Program, env: Env, labels: seq<Label>, blockType: byte, body: Code, at: nat, next: nat, s: State)
    requires Inside(p, env) && LabelsLand(env, labels)
    requires at <= |env.code| && ParsesArms(env.code, at, body, None, next)
    ensures var scanned := Charge(s, Count(body) + 1);
            var r := if !scanned.signal.Next? then scanned
                     else EvalBlock(p, env.depth, |labels|, |s.stack|, blockType != EMPTY_BLOCK, body, scanned.state);
            Follow(env, Dispatch(env, Op.Enter(BlockKind, blockType), Start(labels, at, s), s.machine))
              == Resume(env, labels, next, r)
    decreases s.machine.fuel, 2
  {
    hide Run, Expect, Scan, EvalBlock;
    FindsMatchingEnd(env.code, at, body, None, next, false, s.machine.fuel);
    var scanned := Charge(s, Count(body) + 1);
    var end := ParseCode(env.code, at, body).value;
    ExpectMarker(env.code, end);
    if scanned.signal.Next? {
      RunsBlockBody(p, env, labels, blockType != EMPTY_BLOCK, body, at, end, scanned.state);
    }
  }

  lemma {:induction false} RunsIf(
      p: Program, env: Env, labels: seq<Label>, blockType: byte, thn: Code, els: Option<Code>, at: nat, next: nat,
        s: State)
    requires Inside(p, env) && LabelsLand(env, labels)
    requires at <= |env.code| && ParsesArms(env.code, at, thn, els, next)
    ensures Follow(env, Dispatch(env, Op.Enter(IfKind, blockType), Start(labels, at, s), s.machine))
         == Resume(env, labels, next, EvalIf(p, env.depth, |labels|, blockType != EMPTY_BLOCK, thn, els, s))
    decreases s.machine.fuel, 3
  {
    hide Run, Expect, Scan, EvalBlock, EvalThen, ParseCode;
    var gives := blockType != EMPTY_BLOCK;
    FindsMatchingEnd(env.code, at, thn, els, next, false, s.machine.fuel);
    var scanned := Charge(s, CountArms(thn, els));
    if scanned.signal.Next? && |s.stack| > 0 {
      var s1 := scanned.state.(stack := Pop(s.stack));
      if Top(s.stack).AsI32() != 0 {
        RunsThen(p, env, labels, gives, thn, els, at, next, s1);
      } else {
        FindsMatchingEnd(env.code, at, thn, els, next, true, s1.machine.fuel);
        var again := Charge(s1, CountArms(thn, els));
        if again.signal.Next? && els.Some? {
          var second := ParseCode(env.code, at, thn).value + 1;
          ExpectMarker(env.code, second - 1);
          var end := ParseCode(env.code, second, els.value).value;
          ExpectMarker(env.code, end);
          RunsBlockBody(p, env, labels, gives, els.value, second, end, again.state);
        }
      }
    }
  }

  /** The taken arm: it ends at `end`, or at an `else` that scans past the other arm. */
  lemma {:induction false} RunsThen(
      p: Program, env: Env, labels: seq<Label>, gives: bool, thn: Code, els: Option<Code>, at: nat, next: nat, s: State)
    requires Inside(p, env) && LabelsLand(env, labels)
    requires at <= |env.code| && next <= |env.code| && ParsesArms(env.code, at, thn, els, next)
    ensures Run(env, Start(Opened(labels, next, |s.stack|, false, gives), at, s), s.machine)
         == Resume(env, labels, next, EvalThen(p, env.depth, |labels|, |s.stack|, gives, thn, els, s))
    decreases s.machine.fuel, 2
  {
    hide Run, Eval, Scan, Expect, ParseCode;
    var inner := Opened(labels, next, |s.stack|, false, gives);
    var middle := ParseCode(env.code, at, thn).value;
    ExpectMarker(env.code, middle);
    RunsCode(p, env, inner, thn, at, middle, s);
    var r := Eval(p, env.depth, |labels| + 1, thn, s);
    assert inner[..|inner| - 1] == labels;
    if !r.signal.Next? {
      BranchLeaves(env, labels, next, |s.stack|, false, gives, middle, next, r);
    } else if els.None? {
      RunStep(env, inner, middle, Op.End, r.state);
    } else {
      RunStep(env, inner, middle, Op.Else, r.state);
      var marker := Tick(r.state, |inner|);
      if marker.signal.Next? {
        FindsMatchingEnd(env.code, middle + 1, els.value, None, next, false, marker.state.machine.fuel);
      }
    }
  }

  lemma {:induction false} RunsCallSite(p: Program, env: Env, labels: seq<Label>, index: u32, next: nat, s: State)
    requires Inside(p, env)
    ensures Follow(env, Dispatch(env, Op.Call(index), Start(labels, next, s), s.machine))
         == Resume(env, labels, next, EvalCallSite(p, env.depth, index, s))
    decreases s.machine.fuel, 3
  {
    hide Run, CallFunction, EvalCall;
    var signature := p.m.FunctionType(index);
    if signature.Some? && |s.stack| >= |signature.value.params| {
      var base := |s.stack| - |signature.value.params|;
      RunsCall(p, index, s.stack[base..], env.depth + 1, s.machine);
    }
  }

  /** A whole body from the function's start: its tree, and then its `end`. */
  lemma {:induction false} RunsBody(p: Program, env: Env, f: Function, body: Code, s: State)
    requires Inside(p, env) && SpellsBody(p.m, f, body) && env.code == p.m.bytes[..f.end]
    ensures Run(env, Start([], f.start, s), s.machine) == FinishCall(env.returnsValue, Eval(p, env.depth, 0, body, s))
    decreases s.machine.fuel, 1
  {
    hide Run, Eval;
    var end := ParseCode(env.code, f.start, body).value;
    RunsCode(p, env, [], body, f.start, end, s);
    var r := Eval(p, env.depth, 0, body, s);
    if r.signal.Next? {
      RunStep(env, [], end, Op.End, r.state);
    }
  }

  /**
   * The simulation: calling a function of a module whose bytes spell a program gives exactly
   * what the program's trees mean: same reply, same memory, same host calls, same fuel left.
   */
  lemma {:induction false} RunsCall(p: Program, index: u32, arguments: seq<Value>, depth: nat, mc: Machine)
    requires Spells(p)
    ensures CallFunction(p.m, p.oracle, index, arguments, depth, mc) == EvalCall(p, index, arguments, depth, mc)
    decreases mc.fuel, 2
  {
    hide Run, Eval, FinishCall, SpellsBody, InitialLocals;
    if depth < MAX_FRAMES && index >= |p.m.imports| && index - |p.m.imports| < |p.m.functions| {
      var i := index - |p.m.imports|;
      var f := p.m.functions[i];
      if f.typeIndex < |p.m.types| && |arguments| == |p.m.types[f.typeIndex].params| {
        var env := Env(p.m, p.oracle, p.m.bytes[..f.end], depth, p.m.types[f.typeIndex].results != []);
        assert SpellsBody(p.m, f, p.bodies[i]);
        StartsInside(p, f, p.bodies[i]);
        RunsBody(p, env, f, p.bodies[i], State([], InitialLocals(arguments, f.locals), mc));
      }
    }
  }

  lemma StartsInside(p: Program, f: Function, body: Code)
    requires SpellsBody(p.m, f, body)
    ensures f.start <= f.end <= |p.m.bytes|
  {
  }
}
