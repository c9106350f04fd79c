/** From a structured program to bytes, through the decoder, to the run and back to its meaning. */
module WasmProgram {
  import opened Basics
  import opened WasmSyntax
  import opened WasmMachine
  import opened WasmStructured
  import opened WasmSimulation
  import opened WasmMeaning
  import Leb
  import M = WasmModule
  import A = WasmAssembler

  // ----- printing trees -----

  function PrintPlain(op: PlainOp): seq<byte> {
    match op
    case Unreachable => [0x00]
    case Nop => [0x01]
    case Drop => [0x1a]
    case Select => [0x1b]
    case LocalGet(n) => [0x20] + Leb.EncodeUnsigned(n)
    case LocalSet(n) => [0x21] + Leb.EncodeUnsigned(n)
    case LocalTee(n) => [0x22] + Leb.EncodeUnsigned(n)
    case Load(opcode, align, offset) => [opcode] + (Leb.EncodeUnsigned(align) + Leb.EncodeUnsigned(offset))
    case Store(opcode, align, offset) => [opcode] + (Leb.EncodeUnsigned(align) + Leb.EncodeUnsigned(offset))
    case MemorySize(reserved) => [0x3f] + [reserved]
    case Const32(v) => [0x41] + Leb.EncodeSigned(v)
    case Const64(v) => [0x42] + Leb.EncodeSigned(v)
    case Numeric(opcode) => [opcode]
  }

  function PrintCode(code: Code): seq<byte> {
    match code
    case Nil => []
    case Cons(head, tail) => PrintInstr(head) + PrintCode(tail)
  }

  function PrintInstr(instr: Instr): seq<byte> {
    match instr
    case Do(plain) => PrintPlain(plain)
    case Block(blockType, body) => [0x02, blockType] + (PrintCode(body) + [0x0b])
    case Loop(blockType, body) => [0x03, blockType] + (PrintCode(body) + [0x0b])
    case If(blockType, thn, None) => [0x04, blockType] + (PrintCode(thn) + [0x0b])
    case If(blockType, thn, Some(els)) => [0x04, blockType] + (PrintCode(thn) + ([0x05] + (PrintCode(els) + [0x0b])))
    case Br(n) => [0x0c] + Leb.EncodeUnsigned(n)
    case BrIf(n) => [0x0d] + Leb.EncodeUnsigned(n)
    case Return => [0x0f]
    case Call(index) => [0x10] + Leb.EncodeUnsigned(index)
  }

  /** The opcodes the interpreter implements, and the block types it knows. */
  predicate Implemented(op: PlainOp) {
    match op
    case Load(opcode, _, _) => IsLoad(opcode)
    case Store(opcode, _, _) => IsStore(opcode)
    case Numeric(opcode) => IsNumeric(opcode)
    case _ => true
  }

  predicate WellFormed(code: Code) {
    match code
    case Nil => true
    case Cons(head, tail) => WellFormedInstr(head) && WellFormed(tail)
  }

  predicate WellFormedInstr(instr: Instr) {
    match instr
    case Do(plain) => Implemented(plain)
    case Block(blockType, body) => IsBlockType(blockType) && WellFormed(body)
    case Loop(blockType, body) => IsBlockType(blockType) && WellFormed(body)
    case If(blockType, thn, None) => IsBlockType(blockType) && WellFormed(thn)
    case If(blockType, thn, Some(els)) => IsBlockType(blockType) && WellFormed(thn) && WellFormed(els)
    case _ => true
  }

  lemma FirstByte(bytes: seq<byte>, at: nat, b: byte, rest: seq<byte>)
    requires Holds(bytes, at, [b] + rest)
    ensures at < |bytes| && bytes[at] == b && Holds(bytes, at + 1, rest)
  {
    HoldsSplit(bytes, at, [b], rest);
    assert bytes[at..at + 1][0] == b;
  }

  lemma OnlyByte(bytes: seq<byte>, at: nat, b: byte)
    requires Holds(bytes, at, [b])
    ensures at < |bytes| && bytes[at] == b
  {
    assert bytes[at..at + 1][0] == b;
  }

  lemma PlainParses(bytes: seq<byte>, at: nat, op: PlainOp)
    requires Implemented(op) && Holds(bytes, at, PrintPlain(op))
    ensures Expect(bytes, at, Op.Plain(op)) == Some(at + |PrintPlain(op)|)
  {
    hide Holds, Leb.U32, Leb.I32, Leb.Signed, Leb.EncodeUnsigned, Leb.EncodeSigned;
    match op
    case LocalGet(n) => IndexParses(bytes, at, 0x20, n);
    case LocalSet(n) => IndexParses(bytes, at, 0x21, n);
    case LocalTee(n) => IndexParses(bytes, at, 0x22, n);
    case Load(opcode, align, offset) => PairParses(bytes, at, opcode, align, offset);
    case Store(opcode, align, offset) => PairParses(bytes, at, opcode, align, offset);
    case MemorySize(reserved) =>
      FirstByte(bytes, at, 0x3f, [reserved]);
      OnlyByte(bytes, at + 1, reserved);
    case Const32(v) =>
      FirstByte(bytes, at, 0x41, Leb.EncodeSigned(v));
      Leb.I32Undoes(bytes, at + 1, v);
    case Const64(v) =>
      FirstByte(bytes, at, 0x42, Leb.EncodeSigned(v));
      Leb.I64Undoes(bytes, at + 1, v);
    case _ => OnlyByte(bytes, at, PrintPlain(op)[0]);
  }

  lemma IndexParses(bytes: seq<byte>, at: nat, b: byte, n: u32)
    requires Holds(bytes, at, [b] + Leb.EncodeUnsigned(n))
    ensures at < |bytes| && bytes[at] == b
    ensures Leb.U32(bytes, at + 1) == Ok(Leb.Read(n, at + |[b] + Leb.EncodeUnsigned(n)|))
  {
    FirstByte(bytes, at, b, Leb.EncodeUnsigned(n));
    Leb.U32Undoes(bytes, at + 1, n);
  }

  lemma PairParses(bytes: seq<byte>, at: nat, b: byte, align: u32, offset: u32)
    requires Holds(bytes, at, [b] + (Leb.EncodeUnsigned(align) + Leb.EncodeUnsigned(offset)))
    ensures at < |bytes| && bytes[at] == b
    ensures var second := at + 1 + |Leb.EncodeUnsigned(align)|;
            && Leb.U32(bytes, at + 1) == Ok(Leb.Read(align, second))
            && Leb.U32(bytes, second) == Ok(Leb.Read(offset, second + |Leb.EncodeUnsigned(offset)|))
  {
    hide Holds, Leb.U32, Leb.EncodeUnsigned;
    FirstByte(bytes, at, b, Leb.EncodeUnsigned(align) + Leb.EncodeUnsigned(offset));
    HoldsSplit(bytes, at + 1, Leb.EncodeUnsigned(align), Leb.EncodeUnsigned(offset));
    Leb.U32Undoes(bytes, at + 1, align);
    Leb.U32Undoes(bytes, at + 1 + |Leb.EncodeUnsigned(align)|, offset);
  }

  lemma MarkerParses(bytes: seq<byte>, at: nat, isElse: bool)
    requires Holds(bytes, at, [if isElse then 0x05 else 0x0b])
    ensures Expect(bytes, at, if isElse then Op.Else else Op.End) == Some(at + 1)
  {
    var b: byte := if isElse then 0x05 else 0x0b;
    OnlyByte(bytes, at, b);
  }

  lemma HeaderParses(bytes: seq<byte>, at: nat, kind: BlockKind, b: byte, blockType: byte, rest: seq<byte>)
    requires b == (if kind.BlockKind? then 0x02 else if kind.LoopKind? then 0x03 else 0x04) && IsBlockType(blockType)
    requires Holds(bytes, at, [b, blockType] + rest)
    ensures Expect(bytes, at, Op.Enter(kind, blockType)) == Some(at + 2) && Holds(bytes, at + 2, rest)
  {
    HoldsSplit(bytes, at, [b, blockType], rest);
    assert bytes[at..at + 2] == [b, blockType];
    assert bytes[at] == bytes[at..at + 2][0] && bytes[at + 1] == bytes[at..at + 2][1];
  }

  /** Printed trees parse back, wherever they stand in the bytes. */
  lemma {:induction false} CodeParses(bytes: seq<byte>, at: nat, code: Code)
    requires WellFormed(code) && Holds(bytes, at, PrintCode(code))
    ensures ParseCode(bytes, at, code) == Some(at + |PrintCode(code)|)
    decreases code, 0
  {
    hide Holds, PrintInstr, ParseInstr, WellFormedInstr;
    match code
    case Nil =>
    case Cons(head, tail) =>
      HoldsSplit(bytes, at, PrintInstr(head), PrintCode(tail));
      InstrParses(bytes, at, head);
      CodeParses(bytes, at + |PrintInstr(head)|, tail);
  }

  lemma {:induction false} BodyParses(bytes: seq<byte>, at: nat, body: Code)
    requires WellFormed(body) && Holds(bytes, at, PrintCode(body) + [0x0b])
    ensures ParseCode(bytes, at, body) == Some(at + |PrintCode(body)|)
    ensures Expect(bytes, at + |PrintCode(body)|, Op.End) == Some(at + |PrintCode(body)| + 1)
    decreases body, 1
  {
    hide Holds, Expect;
    HoldsSplit(bytes, at, PrintCode(body), [0x0b]);
    CodeParses(bytes, at, body);
    MarkerParses(bytes, at + |PrintCode(body)|, false);
  }

  lemma {:induction false} InstrParses(bytes: seq<byte>, at: nat, instr: Instr)
    requires WellFormedInstr(instr) && Holds(bytes, at, PrintInstr(instr))
    ensures ParseInstr(bytes, at, instr) == Some(at + |PrintInstr(instr)|)
    decreases instr, 0
  {
    hide Holds, PrintCode, ParseCode, WellFormed, PrintPlain, Implemented, Expect, Leb.EncodeUnsigned;
    match instr
    case Do(plain) => PlainParses(bytes, at, plain);
    case Block(blockType, body) =>
      HeaderParses(bytes, at, BlockKind, 0x02, blockType, PrintCode(body) + [0x0b]);
      BodyParses(bytes, at + 2, body);
    case Loop(blockType, body) =>
      HeaderParses(bytes, at, LoopKind, 0x03, blockType, PrintCode(body) + [0x0b]);
      BodyParses(bytes, at + 2, body);
    case If(blockType, thn, None) =>
      HeaderParses(bytes, at, IfKind, 0x04, blockType, PrintCode(thn) + [0x0b]);
      BodyParses(bytes, at + 2, thn);
    case If(blockType, thn, Some(els)) =>
      var rest := PrintCode(els) + [0x0b];
      HeaderParses(bytes, at, IfKind, 0x04, blockType, PrintCode(thn) + ([0x05] + rest));
      HoldsSplit(bytes, at + 2, PrintCode(thn), [0x05] + rest);
      CodeParses(bytes, at + 2, thn);
      var middle := at + 2 + |PrintCode(thn)|;
      HoldsSplit(bytes, middle, [0x05], rest);
      MarkerParses(bytes, middle, true);
      BodyParses(bytes, middle + 1, els);
    case Br(n) => JumpParses(bytes, at, 0x0c, n);
    case BrIf(n) => JumpParses(bytes, at, 0x0d, n);
    case Return => ReturnParses(bytes, at);
    case Call(index) => JumpParses(bytes, at, 0x10, index);
  }

  lemma JumpParses(bytes: seq<byte>, at: nat, b: byte, n: u32)
    requires b == 0x0c || b == 0x0d || b == 0x10
    requires Holds(bytes, at, [b] + Leb.EncodeUnsigned(n))
    ensures Expect(bytes, at, if b == 0x0c then Op.Br(n) else if b == 0x0d then Op.BrIf(n) else Op.Call(n))
         == Some(at + |[b] + Leb.EncodeUnsigned(n)|)
  {
    hide Holds, Leb.U32, Leb.EncodeUnsigned;
    IndexParses(bytes, at, b, n);
  }

  lemma ReturnParses(bytes: seq<byte>, at: nat)
    requires Holds(bytes, at, [0x0f])
    ensures Expect(bytes, at, Op.Return) == Some(at + 1)
  {
    OnlyByte(bytes, at, 0x0f);
  }

  // ----- end to end -----

  /** The program a module was assembled from. */
  ghost predicate AssembledFrom(a: A.Assembly, bodies: seq<Code>) {
    && A.Acceptable(a) && A.NearData(a.data)
    && |bodies| == |a.functions|
    && forall i :: 0 <= i < |bodies| ==> WellFormed(bodies[i]) && a.functions[i].code == PrintCode(bodies[i])
  }

  lemma DecodedSpells(a: A.Assembly, bodies: seq<Code>, oracle: Oracle)
    requires AssembledFrom(a, bodies)
    ensures M.Decode(A.Finish(a)).Ok?
    ensures Spells(Program(M.Decode(A.Finish(a)).value, oracle, bodies))
  {
    hide M.Decode, A.Finish, A.Acceptable, Holds, PrintCode, WellFormed, SpellsBody;
    A.DecodeUndoesFinish(a);
    var bytes := A.Finish(a);
    M.AcceptedIsBounded(bytes);
    var m := M.Decode(bytes).value;
    forall i | 0 <= i < |bodies| ensures SpellsBody(m, m.functions[i], bodies[i]) {
      assert A.FoundIn(bytes, a.functions[i], m.functions[i].start, m.functions[i].end, m.functions[i].locals);
      SpelledBody(m, m.functions[i], bodies[i]);
    }
  }

  lemma SpelledBody(m: Module, f: Function, body: Code)
    requires WellFormed(body) && f.end <= |m.bytes|
    requires Holds(m.bytes, f.start, PrintCode(body) + [0x0b]) && f.end == f.start + |PrintCode(body)| + 1
    ensures SpellsBody(m, f, body)
  {
    hide PrintCode, WellFormed, ParseCode;
    var code := m.bytes[..f.end];
    assert code[f.start..f.end] == m.bytes[f.start..f.end];
    BodyParses(code, f.start, body);
  }

  /** Both readings of a call agree: running the decoded bytes, and what the trees mean. */
  ghost predicate RunsAsMeant(p: Program, index: u32, arguments: seq<Value>, memory: seq<byte>)
    requires p.m.BodiesInBounds()
  {
    && (forall fuel: nat ::
          var o := CallFunction(p.m, p.oracle, index, arguments, 0, Machine(memory, [], fuel));
          Stopped(o.reply) || Means(p, index, arguments, memory, Effect(o.reply, o.machine.memory, o.machine.trace)))
    && (forall e :: Means(p, index, arguments, memory, e) ==>
          exists cost: nat :: EnoughFor(p, index, arguments, memory, e, cost))
  }

  ghost predicate Means(p: Program, index: u32, arguments: seq<Value>, memory: seq<byte>, e: Effect) {
    exists n: nat :: MeanCall(p, n, index, arguments, memory, []) == Some(e)
  }

  ghost predicate EnoughFor(p: Program, index: u32, arguments: seq<Value>, memory: seq<byte>, e: Effect, cost: nat)
    requires p.m.BodiesInBounds()
  {
    forall fuel: nat :: fuel >= cost ==>
      var o := CallFunction(p.m, p.oracle, index, arguments, 0, Machine(memory, [], fuel));
      o.reply == Err(StackOverflow) || o == Outcome(e.reply, Machine(e.memory, e.trace, fuel - cost))
  }

  lemma SpelledRunsAsMeant(p: Program, index: u32, arguments: seq<Value>, memory: seq<byte>)
    requires Spells(p)
    ensures RunsAsMeant(p, index, arguments, memory)
  {
    hide CallFunction, EvalCall, MeanCall;
    forall fuel: nat
      ensures var o := CallFunction(p.m, p.oracle, index, arguments, 0, Machine(memory, [], fuel));
              Stopped(o.reply) || Means(p, index, arguments, memory, Effect(o.reply, o.machine.memory, o.machine.trace))
    {
      RunsCall(p, index, arguments, 0, Machine(memory, [], fuel));
      EvalCallMeans(p, index, arguments, 0, Machine(memory, [], fuel), fuel);
    }
    forall e | Means(p, index, arguments, memory, e)
      ensures exists cost: nat :: EnoughFor(p, index, arguments, memory, e, cost)
    {
      var n: nat :| MeanCall(p, n, index, arguments, memory, []) == Some(e);
      var cost := CallFinishes(p, n, index, arguments, 0, memory, []);
      forall fuel: nat | fuel >= cost
        ensures var o := CallFunction(p.m, p.oracle, index, arguments, 0, Machine(memory, [], fuel));
                o.reply == Err(StackOverflow) || o == Outcome(e.reply, Machine(e.memory, e.trace, fuel - cost))
      {
        RunsCall(p, index, arguments, 0, Machine(memory, [], fuel));
      }
      assert EnoughFor(p, index, arguments, memory, e, cost);
    }
  }

  /** A call means at most one thing. */
  lemma MeaningIsUnique(p: Program, index: u32, arguments: seq<Value>, memory: seq<byte>, e1: Effect, e2: Effect)
    requires Means(p, index, arguments, memory, e1) && Means(p, index, arguments, memory, e2)
    ensures e1 == e2
  {
    hide MeanCall;
    var n1: nat :| MeanCall(p, n1, index, arguments, memory, []) == Some(e1);
    var n2: nat :| MeanCall(p, n2, index, arguments, memory, []) == Some(e2);
    if n1 <= n2 {
      MeanCallGrows(p, n1, n2, index, arguments, memory, []);
    } else {
      MeanCallGrows(p, n2, n1, index, arguments, memory, []);
    }
  }

  /**
   * Print a structured program, decode the bytes, run any function on any host: the outcome is
   * what the trees mean, unless the meter or a ceiling stopped the run; and whatever the trees
   * mean, every run with enough fuel arrives at it.
   */
  lemma AssembledRunsAsMeant(a: A.Assembly, bodies: seq<Code>, oracle: Oracle, index: u32, arguments: seq<Value>,
        memory: seq<byte>)
    requires AssembledFrom(a, bodies)
    ensures M.Decode(A.Finish(a)).Ok? && M.Decode(A.Finish(a)).value.BodiesInBounds()
    ensures RunsAsMeant(Program(M.Decode(A.Finish(a)).value, oracle, bodies), index, arguments, memory)
  {
    hide M.Decode, A.Finish, RunsAsMeant;
    DecodedSpells(a, bodies, oracle);
    SpelledRunsAsMeant(Program(M.Decode(A.Finish(a)).value, oracle, bodies), index, arguments, memory);
  }
}
