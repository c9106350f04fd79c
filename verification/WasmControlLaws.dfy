/**
 * Laws of branches, blocks and calls: what they leave on the operand stack, said with the stacks
 * themselves and without naming how the interpreter cuts them.
 */
module WasmControlLaws {
  import opened Basics
  import opened WasmSyntax
  import opened WasmNumeric
  import opened WasmMachine
  import opened WasmStructured
  import opened WasmMeaning
  import Leb

  // ----- branches on the label stack -----

  lemma CutsBack(base: seq<Value>, junk: seq<Value>, v: Value, stack: seq<Value>, carries: bool)
    ensures Unwind(base + junk + [v], |base|, true) == base + [v]
    ensures Unwind(base + junk, |base|, false) == base
    ensures |stack| <= |base| ==> Unwind(stack, |base|, carries) == stack
  {
    assert Pop(base + junk + [v]) == base + junk;
    assert (base + junk)[..|base|] == base;
    if stack != [] {
      assert Pop(stack) + [Top(stack)] == stack;
    }
  }

  /**
   * A taken branch to a label that gives a value keeps what was below the label and the value on
   * top, and closes the label with everything inside it. Without a value the top is cut off too,
   * and a loop keeps its own label. A stack that never reached the label's height stays as it is.
   */
  lemma BranchKeepsItsValue(env: Env, fr: Frame, depthIndex: nat, mc: Machine, base: seq<Value>, junk: seq<Value>,
        v: Value)
    requires depthIndex < |fr.labels|
    requires fr.labels[|fr.labels| - 1 - depthIndex].target <= |env.code|
    ensures var landing := fr.labels[|fr.labels| - 1 - depthIndex];
            var outer := fr.labels[..|fr.labels| - 1 - depthIndex];
            && (landing.height == |base| && fr.stack == base + junk + [v] && landing.returnsValue && !landing.isLoop ==>
                  TakeBranch(env, fr, depthIndex, mc)
                    == Continue(Frame(landing.target, base + [v], outer, fr.locals), mc))
            && (landing.height == |base| && fr.stack == base + junk && !landing.returnsValue && !landing.isLoop ==>
                  TakeBranch(env, fr, depthIndex, mc) == Continue(Frame(landing.target, base, outer, fr.locals), mc))
            && (landing.height == |base| && fr.stack == base + junk && landing.isLoop ==>
                  TakeBranch(env, fr, depthIndex, mc)
                    == Continue(Frame(landing.target, base, outer + [landing], fr.locals), mc))
            && (landing.height == |base| >= |fr.stack| ==>
                  TakeBranch(env, fr, depthIndex, mc)
                    == Continue(Frame(landing.target, fr.stack, outer + if landing.isLoop then [landing] else [],
                         fr.locals), mc))
  {
    var at := |fr.labels| - 1 - depthIndex;
    var landing := fr.labels[at];
    assert fr.labels[..at + 1] == fr.labels[..at] + [landing];
    assert fr.labels[..at] + [] == fr.labels[..at];
    CutsBack(base, junk, v, fr.stack, landing.returnsValue && !landing.isLoop);
  }

  // ----- blocks -----

  /**
   * `out` is what a block makes of what its body did. `base` stands for the operands that were
   * there when the block was entered: a branch to the block leaves them and the value it carries.
   */
  ghost predicate Closes(m: Option<Meant>, gives: bool, base: seq<Value>, junk: seq<Value>, v: Value,
        out: Option<Meant>)
  {
    match m
    case None => out == None
    case Some(inner) =>
      match inner.signal
      case Branching(0) =>
        && (gives && inner.here.stack == base + junk + [v] ==>
              out == Some(Meant(Next, inner.here.(stack := base + [v]))))
        && (!gives && inner.here.stack == base + junk ==> out == Some(Meant(Next, inner.here.(stack := base))))
        && (|inner.here.stack| <= |base| ==> out == Some(Meant(Next, inner.here)))
      case Branching(depth) => out == Some(Meant(Branching(depth - 1), inner.here))
      case _ => out == m
  }

  lemma LeavingCloses(m: Meant, gives: bool, base: seq<Value>, junk: seq<Value>, v: Value)
    ensures Closes(Some(m), gives, base, junk, v, Some(Leaving(m, |base|, gives)))
  {
    if m.signal == Branching(0) {
      CutsBack(base, junk, v, m.here.stack, gives);
    }
  }

  /** Falling out of a block changes nothing, and a branch to it lands after it with its value on top. */
  lemma BlockKeepsItsValue(p: Program, n: nat, blockType: byte, body: Code, h: Here, base: seq<Value>,
        junk: seq<Value>, v: Value)
    requires |base| == |h.stack|
    ensures Closes(Mean(p, n, body, h), blockType != EMPTY_BLOCK, base, junk, v,
              MeanInstr(p, n, Block(blockType, body), h))
  {
    hide Mean, Leaving;
    var m := Mean(p, n, body, h);
    if m.Some? {
      LeavingCloses(m.value, blockType != EMPTY_BLOCK, base, junk, v);
    }
  }

  /** An `if` is the block of the arm its condition picks, on the operands below the condition. */
  lemma IfIsTheChosenBlock(p: Program, n: nat, blockType: byte, thn: Code, els: Option<Code>, h: Here, c: i32)
    ensures MeanInstr(p, n, If(blockType, thn, els), h.(stack := h.stack + [I32(c)]))
         == if c != 0 then MeanInstr(p, n, Block(blockType, thn), h)
            else if els.Some? then MeanInstr(p, n, Block(blockType, els.value), h)
            else Some(Meant(Next, h))
    ensures MeanInstr(p, n, If(blockType, thn, els), h.(stack := [])) == Some(Meant(Trapped(Faulted), h.(stack := [])))
  {
    hide Mean, Leaving;
    assert Pop(h.stack + [I32(c)]) == h.stack;
  }

  /** A branch to a loop starts it again on the operands that were there when it was entered. */
  lemma LoopStartsAgain(p: Program, n: nat, blockType: byte, body: Code, h: Here, base: seq<Value>, junk: seq<Value>)
    requires |base| == |h.stack|
    ensures var m := Mean(p, n + 1, body, h);
            var out := MeanInstr(p, n + 1, Loop(blockType, body), h);
            if m.Some? && m.value.signal == Branching(0) then
              && (m.value.here.stack == base + junk ==>
                    out == MeanInstr(p, n, Loop(blockType, body), m.value.here.(stack := base)))
              && (|m.value.here.stack| <= |base| ==> out == MeanLoop(p, n, |base|, body, m.value.here))
            else Closes(m, false, base, junk, I32(0), out)
  {
    hide Mean, Leaving;
    var m := Mean(p, n + 1, body, h);
    if m.Some? {
      LeavingCloses(m.value, false, base, junk, I32(0));
      if m.value.signal == Branching(0) {
        LoopAgain(p, n, body, h, base);
      }
    }
  }

  lemma LoopAgain(p: Program, n: nat, body: Code, h: Here, base: seq<Value>)
    requires |base| == |h.stack|
    requires Mean(p, n + 1, body, h).Some? && Mean(p, n + 1, body, h).value.signal == Branching(0)
    ensures MeanLoop(p, n + 1, |h.stack|, body, h)
         == MeanLoop(p, n, |h.stack|, body, Leaving(Mean(p, n + 1, body, h).value, |base|, false).here)
  {
    hide Mean, Leaving;
  }

  // ----- calls -----

  /** What a call leaves: the operands below its arguments, and its result if it has one. */
  function Returned(base: seq<Value>, h: Here, e: Effect): Meant {
    match e.reply
    case Err(trap) => Meant(Trapped(trap), Here(base, h.locals, e.memory, e.trace))
    case Ok(None) => Meant(Next, Here(base, h.locals, e.memory, e.trace))
    case Ok(Some(v)) => Meant(Next, Here(base + [v], h.locals, e.memory, e.trace))
  }

  /** The type a function index is declared with: imports come first, then the module's own functions. */
  ghost predicate DeclaredWith(m: Module, index: u32, signature: FuncType) {
    exists t: u32 :: t < |m.types| && m.types[t] == signature && TypedBy(m, index, t)
  }

  predicate TypedBy(m: Module, index: u32, t: u32) {
    if index < |m.imports| then m.imports[index].typeIndex == t
    else index < |m.imports| + |m.functions| && m.functions[index - |m.imports|].typeIndex == t
  }

  /** A call takes as many operands as its callee's own type has parameters, the last one from the top. */
  lemma CallTakesItsArguments(p: Program, n: nat, index: u32, h: Here, signature: FuncType, base: seq<Value>,
        arguments: seq<Value>)
    requires DeclaredWith(p.m, index, signature)
    requires h.stack == base + arguments
    ensures |arguments| == |signature.params| ==>
              var e := MeanCall(p, n, index, arguments, h.memory, h.trace);
              MeanInstr(p, n + 1, Instr.Call(index), h) == if e.None? then None else Some(Returned(base, h, e.value))
    ensures |h.stack| < |signature.params| ==>
              MeanInstr(p, n + 1, Instr.Call(index), h) == Some(Meant(Trapped(Faulted), h))
  {
    hide MeanCall;
    var t: u32 :| t < |p.m.types| && p.m.types[t] == signature && TypedBy(p.m, index, t);
    assert p.m.FunctionType(index) == Some(signature);
    if |arguments| == |signature.params| {
      assert h.stack[|base|..] == arguments && h.stack[..|base|] == base;
    }
  }

  /** How a function starts: no operands, its arguments in order, then a zero of each declared type. */
  ghost predicate Begins(h: Here, arguments: seq<Value>, types: seq<ValueType>) {
    && h.stack == [] && |h.locals| == |arguments| + |types|
    && (forall i :: 0 <= i < |arguments| ==> h.locals[i] == arguments[i])
    && forall i :: |arguments| <= i < |h.locals| ==>
         h.locals[i] == match types[i - |arguments|] case TypeI32 => I32(0) case TypeI64 => I64(0)
  }

  /** What a function gives back when its body has ended, returned or branched out of every block. */
  ghost predicate GivesBack(m: Meant, signature: FuncType, reply: Reply) {
    if m.signal.Trapped? then reply == Err(m.signal.trap)
    else if signature.results == [] || m.here.stack == [] then reply == Ok(None)
    else reply == Ok(Some(m.here.stack[|m.here.stack| - 1]))
  }

  /** Calling a function of the module runs its body from its arguments and gives back the top operand. */
  lemma CallRunsItsBody(p: Program, n: nat, i: nat, arguments: seq<Value>, h: Here)
    requires i < |p.m.functions| == |p.bodies| && |p.m.imports| + i < TWO_32
    requires p.m.functions[i].typeIndex < |p.m.types|
    requires Begins(h, arguments, p.m.functions[i].locals)
    ensures var signature := p.m.types[p.m.functions[i].typeIndex];
            var m := Mean(p, n, p.bodies[i], h);
            var e := MeanCall(p, n, |p.m.imports| + i, arguments, h.memory, h.trace);
            if |arguments| != |signature.params| then e == Some(Effect(Err(Faulted), h.memory, h.trace))
            else if m.None? then e == None
            else
              && e.Some? && e.value.memory == m.value.here.memory && e.value.trace == m.value.here.trace
              && GivesBack(m.value, signature, e.value.reply)
  {
    hide Mean;
    assert InitialLocals(arguments, p.m.functions[i].locals) == h.locals;
    assert h == Here([], h.locals, h.memory, h.trace);
  }

  // ----- what was there before stays there -----

  function Over(below: seq<Value>, h: Here): Here {
    h.(stack := below + h.stack)
  }

  /** The same outcome with more operands underneath. */
  function LiftedOver(below: seq<Value>, m: Meant): Meant {
    Meant(m.signal, Over(below, m.here))
  }

  lemma OverTop(below: seq<Value>, stack: seq<Value>)
    requires stack != []
    ensures Pop(below + stack) == below + Pop(stack) && Top(below + stack) == Top(stack)
  {
    assert (below + stack)[..|below| + |stack| - 1] == below + Pop(stack);
  }

  lemma PushOver(below: seq<Value>, stack: seq<Value>, v: Value)
    ensures below + stack + [v] == below + (stack + [v])
  {
  }

  lemma NumericOver(opcode: byte, stack: seq<Value>, below: seq<Value>)
    requires IsNumeric(opcode) && NumericStep(opcode, stack).Ok?
    ensures NumericStep(opcode, below + stack) == Ok(below + NumericStep(opcode, stack).value)
  {
    hide Compare32, Compare64, Arithmetic32, Arithmetic64, Truth, WrapI32, ToU32;
    OverTop(below, stack);
    var rest, result := Pop(stack), NumericStep(opcode, stack).value;
    PushOver(below, rest, Top(result));
    if rest != [] {
      OverTop(below, rest);
      PushOver(below, Pop(rest), Top(result));
    }
  }

  lemma PlainOver(op: PlainOp, w: Work, below: seq<Value>)
    requires PlainStep(op, w).Ok?
    ensures var after := PlainStep(op, w).value;
            PlainStep(op, w.(stack := below + w.stack)) == Ok(after.(stack := below + after.stack))
  {
    hide NumericStep, Address, LeValue, LeBytes, WrapI32, ToU32;
    match op
    case Numeric(opcode) => NumericOver(opcode, w.stack, below);
    case Select =>
      var base := w.stack[..|w.stack| - 3];
      assert (below + w.stack)[..|below + w.stack| - 3] == below + base;
      PushOver(below, base, Top(PlainStep(op, w).value.stack));
      OverTop(below, w.stack);
    case Store(_, _, _) =>
      OverTop(below, w.stack);
      OverTop(below, Pop(w.stack));
    case Load(_, _, _) =>
      OverTop(below, w.stack);
      PushOver(below, Pop(w.stack), Top(PlainStep(op, w).value.stack));
    case Drop => OverTop(below, w.stack);
    case LocalSet(_) => OverTop(below, w.stack);
    case LocalTee(_) => OverTop(below, w.stack);
    case LocalGet(n) => PushOver(below, w.stack, w.locals[n]);
    case MemorySize(_) => PushOver(below, w.stack, I32(WrapI32(|w.memory| / PAGE_BYTES)));
    case Const32(v) => PushOver(below, w.stack, I32(v));
    case Const64(v) => PushOver(below, w.stack, I64(v));
    case _ =>
  }

  lemma LeavingOver(m: Meant, height: nat, gives: bool, below: seq<Value>)
    ensures Leaving(LiftedOver(below, m), |below| + height, gives) == LiftedOver(below, Leaving(m, height, gives))
  {
    var stack := m.here.stack;
    if m.signal == Branching(0) {
      if stack != [] {
        OverTop(below, stack);
        var rest := if gives then Pop(stack) else stack;
        assert height < |rest| ==> (below + rest)[..|below| + height] == below + rest[..height];
      } else if below != [] {
        assert Pop(below) + [Top(below)] == below;
      }
    }
  }

  /**
   * Code touches only what it pushed or was given: whatever it means on a stack, short of a trap,
   * it means the same above any further operands, and leaves those as they were.
   */
  lemma {:induction false} CodeLeavesTheRest(p: Program, n: nat, code: Code, h: Here, below: seq<Value>)
    requires Mean(p, n, code, h).Some? && !Mean(p, n, code, h).value.signal.Trapped?
    ensures Mean(p, n, code, Over(below, h)) == Some(LiftedOver(below, Mean(p, n, code, h).value))
    decreases n, 0, code, 0
  {
    match code
    case Nil =>
    case Cons(head, tail) =>
      hide MeanInstr;
      InstrLeavesTheRest(p, n, head, h, below);
      var m := MeanInstr(p, n, head, h).value;
      if m.signal.Next? {
        CodeLeavesTheRest(p, n, tail, m.here, below);
      }
  }

  lemma {:induction false} InstrLeavesTheRest(p: Program, n: nat, instr: Instr, h: Here, below: seq<Value>)
    requires MeanInstr(p, n, instr, h).Some? && !MeanInstr(p, n, instr, h).value.signal.Trapped?
    ensures MeanInstr(p, n, instr, Over(below, h)) == Some(LiftedOver(below, MeanInstr(p, n, instr, h).value))
    decreases n, 0, instr, 0
  {
    hide Mean, Unwind, PlainStep, MeanLoop, MeanCallSite;
    if h.stack != [] {
      OverTop(below, h.stack);
    }
    match instr
    case Do(plain) => PlainOver(plain, Work(h.stack, h.locals, h.memory), below);
    case Block(blockType, body) => BodyLeavesTheRest(p, n, body, h, below, blockType != EMPTY_BLOCK);
    case Loop(_, body) => LoopLeavesTheRest(p, n, |h.stack|, body, h, below);
    case If(blockType, thn, els) =>
      var h1 := h.(stack := Pop(h.stack));
      assert Over(below, h).(stack := Pop(Over(below, h).stack)) == Over(below, h1);
      if Top(h.stack).AsI32() != 0 {
        BodyLeavesTheRest(p, n, thn, h1, below, blockType != EMPTY_BLOCK);
      } else if els.Some? {
        BodyLeavesTheRest(p, n, els.value, h1, below, blockType != EMPTY_BLOCK);
      }
    case Call(index) => CallSiteLeavesTheRest(p, n - 1, index, h, below);
    case _ =>
  }

  lemma {:induction false} BodyLeavesTheRest(p: Program, n: nat, body: Code, h: Here, below: seq<Value>, gives: bool)
    requires Mean(p, n, body, h).Some? && !Mean(p, n, body, h).value.signal.Trapped?
    ensures var height := |Over(below, h).stack|;
            var over := Mean(p, n, body, Over(below, h));
            && over.Some?
            && Leaving(over.value, height, gives) ==
                 LiftedOver(below, Leaving(Mean(p, n, body, h).value, |h.stack|, gives))
    decreases n, 0, body, 1
  {
    hide Mean, Leaving, LiftedOver;
    CodeLeavesTheRest(p, n, body, h, below);
    LeavingOver(Mean(p, n, body, h).value, |h.stack|, gives, below);
  }

  lemma {:induction false} LoopLeavesTheRest(p: Program, n: nat, height: nat, body: Code, h: Here, below: seq<Value>)
    requires MeanLoop(p, n, height, body, h).Some? && !MeanLoop(p, n, height, body, h).value.signal.Trapped?
    ensures MeanLoop(p, n, |below| + height, body, Over(below, h))
         == Some(LiftedOver(below, MeanLoop(p, n, height, body, h).value))
    decreases n, 0, body, 1
  {
    hide Mean, Unwind;
    var m := Mean(p, n, body, h);
    CodeLeavesTheRest(p, n, body, h, below);
    LeavingOver(m.value, height, false, below);
    if m.value.signal == Branching(0) {
      LoopLeavesTheRest(p, n - 1, height, body, Leaving(m.value, height, false).here, below);
    }
  }

  lemma CallSiteLeavesTheRest(p: Program, n: nat, index: u32, h: Here, below: seq<Value>)
    requires MeanCallSite(p, n, index, h).Some? && !MeanCallSite(p, n, index, h).value.signal.Trapped?
    ensures MeanCallSite(p, n, index, Over(below, h)) == Some(LiftedOver(below, MeanCallSite(p, n, index, h).value))
  {
    hide MeanCall;
    var base := |h.stack| - |p.m.FunctionType(index).value.params|;
    var e := MeanCall(p, n, index, h.stack[base..], h.memory, h.trace).value;
    if e.reply.Ok? && e.reply.value.Some? {
      PushOver(below, h.stack[..base], e.reply.value.value);
    }
    assert (below + h.stack)[|below| + base..] == h.stack[base..];
    assert (below + h.stack)[..|below| + base] == below + h.stack[..base];
  }

  // ----- the scanner and the reader on single opcodes -----

  /** Opcodes the interpreter has an instruction for, in the order of the specification. */
  predicate Known(b: byte) {
    || b <= 0x05 || b == 0x0b || b == 0x0c || b == 0x0d || b == 0x0f || b == 0x10 || b == 0x1a || b == 0x1b
    || 0x20 <= b <= 0x22 || b == 0x28 || b == 0x2d || b == 0x2f || b == 0x36 || b == 0x3a || b == 0x3f
    || b == 0x41 || b == 0x42 || 0x45 <= b <= 0x5a || 0x6a <= b <= 0x76 || 0x7c <= b <= 0x88
    || b == 0xa7 || b == 0xac || b == 0xad
  }

  /** An opcode is refused as unsupported exactly when it is unknown or opens a block of an unknown type. */
  lemma UnsupportedIff(code: seq<byte>, at: nat)
    ensures Fetch(code, at) == Err(Unsupported) <==>
              && at < |code|
              && (!Known(code[at]) ||
                  (0x02 <= code[at] <= 0x04 && at + 1 < |code| && code[at + 1] !in {0x40, 0x7f, 0x7e}))
  {
  }

  /**
   * What the scanner steps over in one turn: indices, offsets and constants with their opcode, as
   * their encodings end, also for instructions the interpreter does not have. A branch table stops it.
   */
  lemma ScannerPasses(code: seq<byte>, at: nat, b: byte, first: u32, second: u32, depth: nat, wantElse: bool, fuel: nat)
    requires fuel > 0 && at < |code| && code[at] == b
    ensures b == 0x0e ==> Scan(code, at, depth, wantElse, None, fuel) == Scanned(Err(Unsupported), fuel - 1)
    ensures (b == 0x0c || b == 0x0d || b == 0x10 || 0x20 <= b <= 0x24) &&
              Holds(code, at + 1, Leb.EncodeUnsigned(first)) ==>
              Scan(code, at, depth, wantElse, None, fuel)
                == Scan(code, at + 1 + |Leb.EncodeUnsigned(first)|, depth, wantElse, None, fuel - 1)
    ensures 0x28 <= b <= 0x3e && Holds(code, at + 1, Leb.EncodeUnsigned(first) + Leb.EncodeUnsigned(second)) ==>
              Scan(code, at, depth, wantElse, None, fuel)
                == Scan(code, at + 1 + |Leb.EncodeUnsigned(first) + Leb.EncodeUnsigned(second)|, depth, wantElse, None,
                     fuel - 1)
    ensures (b == 0x3f || b == 0x40) && at + 1 < |code| ==>
              Scan(code, at, depth, wantElse, None, fuel) == Scan(code, at + 2, depth, wantElse, None, fuel - 1)
  {
    hide Leb.U32, Leb.Signed, Leb.EncodeUnsigned, Holds;
    if Holds(code, at + 1, Leb.EncodeUnsigned(first)) {
      Leb.U32Undoes(code, at + 1, first);
    }
    if Holds(code, at + 1, Leb.EncodeUnsigned(first) + Leb.EncodeUnsigned(second)) {
      HoldsSplit(code, at + 1, Leb.EncodeUnsigned(first), Leb.EncodeUnsigned(second));
      Leb.U32Undoes(code, at + 1, first);
      Leb.U32Undoes(code, at + 1 + |Leb.EncodeUnsigned(first)|, second);
    }
  }

  // ----- ceilings -----

  /**
   * The ceilings: 256 operands and 256 open labels are allowed and one more stops the run, after
   * it has paid; 32 frames are allowed, and the call that would be the next one does nothing.
   */
  lemma Ceilings(env: Env, fr: Frame, mc: Machine, index: u32, arguments: seq<Value>, depth: nat)
    requires env.m.BodiesInBounds() && mc.fuel > 0
    ensures |fr.stack| > 256 || |fr.labels| > 256 ==>
              Run(env, fr, mc) == Outcome(Err(StackOverflow), mc.(fuel := mc.fuel - 1))
    ensures |fr.stack| <= 256 && |fr.labels| <= 256 && Fetch(env.code, fr.at).Ok? ==>
              var read := Fetch(env.code, fr.at).value;
              Run(env, fr, mc)
                == Follow(env, Dispatch(env, read.value, fr.(at := read.next), mc.(fuel := mc.fuel - 1)))
    ensures depth >= 32 ==>
              CallFunction(env.m, env.oracle, index, arguments, depth, mc) == Outcome(Err(StackOverflow), mc)
    ensures depth < 32 && index < |env.m.imports| ==>
              var asked := mc.trace + [HostCall(index, arguments)];
              CallFunction(env.m, env.oracle, index, arguments, depth, mc)
                == Outcome(env.oracle(asked), mc.(trace := asked))
  {
    hide Fetch, Dispatch, Run, Follow;
    RunStops(env, fr, mc);
    if |fr.stack| <= 256 && |fr.labels| <= 256 {
      RunOnce(env, fr, mc);
    }
  }
}
