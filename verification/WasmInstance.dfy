/** The interpreter itself: the loops of `scan` and `execute` over a moving reader. */
module WasmInstance {
  import opened Basics
  import opened WasmSyntax
  import opened WasmNumeric
  import opened WasmMachine
  import Leb

  /** The other side of the gate. It may remember everything it was asked. */
  class Host {
    const oracle: Oracle
    var calls: seq<HostCall>

    constructor (oracle: Oracle)
      ensures this.oracle == oracle && calls == []
    {
      this.oracle := oracle;
      calls := [];
    }

    method Call(importIndex: nat, arguments: seq<Value>) returns (reply: Reply)
      modifies this
      ensures calls == old(calls) + [HostCall(importIndex, arguments)]
      ensures reply == oracle(calls)
    {
      calls := calls + [HostCall(importIndex, arguments)];
      reply := oracle(calls);
    }
  }

  method FetchIndex(reader: Leb.Reader) returns (r: Result<u32, Trap>)
    modifies reader
    ensures r.Ok? ==> Leb.U32(reader.bytes, old(reader.position)) == Ok(Leb.Read(r.value, reader.position))
    ensures r.Err? ==> r.error == Malformed && Leb.U32(reader.bytes, old(reader.position)).Err?
  {
    var index := reader.ReadU32();
    r := OrMalformed(index);
  }

  /** Read one instruction off the cursor, immediates and all. */
  method FetchOp(reader: Leb.Reader) returns (r: Result<Op, Trap>)
    modifies reader
    ensures r.Ok? ==> Fetch(reader.bytes, old(reader.position)) == Ok(Leb.Read(r.value, reader.position))
    ensures r.Err? ==> Fetch(reader.bytes, old(reader.position)) == Err(r.error)
  {
    var first := reader.ReadByte();
    var b :- OrMalformed(first);
    match b {
      case 0x00 => return Ok(Plain(Unreachable));
      case 0x01 => return Ok(Plain(Nop));
      case 0x05 => return Ok(Else);
      case 0x0b => return Ok(End);
      case 0x0c => {
        var n :- FetchIndex(reader);
        return Ok(Br(n));
      }
      case 0x0d => {
        var n :- FetchIndex(reader);
        return Ok(BrIf(n));
      }
      case 0x0f => return Ok(Return);
      case 0x10 => {
        var n :- FetchIndex(reader);
        return Ok(Call(n));
      }
      case 0x1a => return Ok(Plain(Drop));
      case 0x1b => return Ok(Plain(Select));
      case 0x20 => {
        var n :- FetchIndex(reader);
        return Ok(Plain(LocalGet(n)));
      }
      case 0x21 => {
        var n :- FetchIndex(reader);
        return Ok(Plain(LocalSet(n)));
      }
      case 0x22 => {
        var n :- FetchIndex(reader);
        return Ok(Plain(LocalTee(n)));
      }
      case 0x3f => {
        var next := reader.ReadByte();
        var reserved :- OrMalformed(next);
        return Ok(Plain(MemorySize(reserved)));
      }
      case 0x41 => {
        Pow2At31();
        var constant := reader.ReadSigned(32);
        var value :- OrMalformed(constant);
        return Ok(Plain(Const32(value)));
      }
      case 0x42 => {
        var constant := reader.ReadSigned(64);
        var value :- OrMalformed(constant);
        return Ok(Plain(Const64(value)));
      }
      case _ => {
        if 0x02 <= b <= 0x04 {
          var next := reader.ReadByte();
          var blockType :- OrMalformed(next);
          if !IsBlockType(blockType) {
            return Err(Unsupported);
          }
          return Ok(Op.Enter(if b == 0x02 then BlockKind else if b == 0x03 then LoopKind else IfKind, blockType));
        } else if IsLoad(b) || IsStore(b) {
          var align :- FetchIndex(reader);
          var offset :- FetchIndex(reader);
          return Ok(Plain(if IsLoad(b) then Load(b, align, offset) else Store(b, align, offset)));
        } else if IsNumeric(b) {
          return Ok(Plain(Numeric(b)));
        }
        return Err(Unsupported);
      }
    }
  }

  /** The scanner's own reading of immediates: they are consumed so they are never taken for opcodes. */
  method SkipImmediates(reader: Leb.Reader, b: byte) returns (r: Result<(), Trap>)
    requires 0 < reader.position <= |reader.bytes| && reader.bytes[reader.position - 1] == b
    modifies reader
    ensures r.Ok? ==> Skip(reader.bytes, old(reader.position) - 1) == Ok(reader.position)
    ensures r.Err? ==> Skip(reader.bytes, old(reader.position) - 1) == Err(r.error)
  {
    if b == 0x0c || b == 0x0d || b == 0x10 || 0x20 <= b <= 0x24 {
      var _ :- FetchIndex(reader);
    } else if 0x28 <= b <= 0x3e {
      var _ :- FetchIndex(reader);
      var _ :- FetchIndex(reader);
    } else if b == 0x3f || b == 0x40 {
      var next := reader.ReadByte();
      var _ :- OrMalformed(next);
    } else if b == 0x41 {
      var constant := reader.ReadSigned(32);
      var _ :- OrMalformed(constant);
    } else if b == 0x42 {
      var constant := reader.ReadSigned(64);
      var _ :- OrMalformed(constant);
    } else if b == 0x0e {
      return Err(Unsupported);
    }
    return Ok(());
  }

  function Copied(segment: (u32, seq<byte>), memory: seq<byte>): (after: seq<byte>)
    requires segment.0 + |segment.1| <= |memory|
    ensures |after| == |memory|
  {
    memory[..segment.0] + segment.1 + memory[segment.0 + |segment.1|..]
  }

  /** Zeroed pages with each data segment copied in, later segments over earlier ones. */
  function Loaded(data: seq<(u32, seq<byte>)>, memory: seq<byte>): (r: Result<seq<byte>, Trap>)
    ensures r.Ok? ==> |r.value| == |memory|
    ensures r.Err? ==> r.error == OutOfBounds
    ensures r.Ok? <==> forall i :: 0 <= i < |data| ==> data[i].0 + |data[i].1| <= |memory|
  {
    if data == [] then Ok(memory)
    else
      var (offset, content) := data[0];
      if offset + |content| > |memory| then Err(OutOfBounds)
      else
        assert forall i :: 0 < i < |data| ==> data[i] == data[1..][i - 1];
        Loaded(data[1..], Copied(data[0], memory))
  }

  function InitialMemory(m: Module): (r: Result<seq<byte>, Trap>)
    ensures r.Ok? ==> |r.value| == PAGE_BYTES * if m.memoryPages.Some? then m.memoryPages.value.0 else 0
  {
    Loaded(m.data, Repeat(PAGE_BYTES * if m.memoryPages.Some? then m.memoryPages.value.0 else 0, 0))
  }

  predicate Covers(segment: (u32, seq<byte>), i: nat) {
    segment.0 <= i < segment.0 + |segment.1|
  }

  /** Segment `k` is the last one to write byte `i`. */
  ghost predicate LastOver(data: seq<(u32, seq<byte>)>, k: nat, i: nat) {
    k < |data| && Covers(data[k], i) && forall j :: k < j < |data| ==> !Covers(data[j], i)
  }

  /** Every byte is that of the last segment that covers it, and what was there before if none does. */
  ghost predicate ShowsLast(data: seq<(u32, seq<byte>)>, before: seq<byte>, after: seq<byte>) {
    && |after| == |before|
    && (forall i, k :: 0 <= i < |after| && 0 <= k && LastOver(data, k, i) ==> after[i] == data[k].1[i - data[k].0])
    && forall i :: 0 <= i < |after| && (forall k :: 0 <= k < |data| ==> !Covers(data[k], i)) ==> after[i] == before[i]
  }

  lemma OneMoreShown(data: seq<(u32, seq<byte>)>, segment: (u32, seq<byte>), before: seq<byte>, memory: seq<byte>)
    requires ShowsLast(data, before, memory) && segment.0 + |segment.1| <= |memory|
    ensures ShowsLast(data + [segment], before, Copied(segment, memory))
  {
    var longer, after := data + [segment], Copied(segment, memory);
    assert longer[|data|] == segment;
    assert forall j :: 0 <= j < |data| ==> longer[j] == data[j];
    forall i, k | 0 <= i < |after| && 0 <= k && LastOver(longer, k, i)
      ensures after[i] == longer[k].1[i - longer[k].0]
    {
      if k < |data| {
        assert !Covers(longer[|data|], i);
        assert LastOver(data, k, i);
      }
    }
    forall i | 0 <= i < |after| && forall k :: 0 <= k < |longer| ==> !Covers(longer[k], i)
      ensures after[i] == before[i]
    {
      assert !Covers(longer[|data|], i);
      assert forall k :: 0 <= k < |data| ==> !Covers(longer[k], i);
    }
  }

  lemma NothingShown(before: seq<byte>)
    ensures ShowsLast([], before, before)
  {
  }

  lemma LoadedTurn(data: seq<(u32, seq<byte>)>, i: nat, memory: seq<byte>)
    requires i < |data|
    ensures Loaded(data[i..], memory)
         == if data[i].0 + |data[i].1| <= |memory| then Loaded(data[i + 1..], Copied(data[i], memory))
            else Err(OutOfBounds)
  {
    assert data[i..][1..] == data[i + 1..];
  }

  method LoadMemory(m: Module) returns (r: Result<seq<byte>, Trap>)
    ensures r == InitialMemory(m)
    ensures r.Ok? ==> ShowsLast(m.data, Repeat(|r.value|, 0), r.value)
    ensures r.Ok? <==> forall k :: 0 <= k < |m.data| ==>
              m.data[k].0 + |m.data[k].1| <= PAGE_BYTES * if m.memoryPages.Some? then m.memoryPages.value.0 else 0
  {
    hide ShowsLast, Loaded, Copied;
    var memory: seq<byte> := Repeat(PAGE_BYTES * if m.memoryPages.Some? then m.memoryPages.value.0 else 0, 0);
    ghost var before := memory;
    NothingShown(before);
    assert m.data[0..] == m.data;
    for i := 0 to |m.data|
      invariant Loaded(m.data, before) == Loaded(m.data[i..], memory)
      invariant ShowsLast(m.data[..i], before, memory) && |memory| == |before|
    {
      var (offset, content) := m.data[i];
      LoadedTurn(m.data, i, memory);
      if offset + |content| > |memory| {
        return Err(OutOfBounds);
      }
      OneMoreShown(m.data[..i], m.data[i], before, memory);
      assert m.data[..i] + [m.data[i]] == m.data[..i + 1];
      memory := Copied(m.data[i], memory);
    }
    assert m.data[..|m.data|] == m.data;
    NothingLoaded(memory);
    return Ok(memory);
  }

  lemma NothingLoaded(memory: seq<byte>)
    ensures Loaded([], memory) == Ok(memory)
  {
  }

  class Instance {
    const m: Module
    var memory: seq<byte>
    var fuel: nat

    // What the meter has paid for, and how far each ceiling was approached.
    ghost var dispatches: nat
    ghost var scanSteps: nat
    ghost var tallest: nat
    ghost var deepest: nat

    constructor (m: Module, memory: seq<byte>, fuel: nat)
      ensures this.m == m && this.memory == memory && this.fuel == fuel
      ensures dispatches == 0 && scanSteps == 0 && tallest == 0 && deepest == 0
    {
      this.m := m;
      this.memory := memory;
      this.fuel := fuel;
      dispatches, scanSteps, tallest, deepest := 0, 0, 0, 0;
    }

    ghost predicate UnderCeilings()
      reads this
    {
      tallest <= MAX_STACK + 1 && deepest <= MAX_FRAMES
    }

    /** `scan`: walk forward to the `end` that closes the block, counting nested blocks. */
    method ScanBlock(code: seq<byte>, position: nat, wantElse: bool) returns (r: Result<Found, Trap>)
      modifies this`fuel, this`scanSteps
      ensures Scanned(r, fuel) == Scan(code, position, 0, wantElse, None, old(fuel))
      ensures fuel <= old(fuel) && scanSteps - old(scanSteps) == old(fuel) - fuel
    {
      var reader := new Leb.Reader(code);
      var sought := reader.Seek(position);
      var _ :- OrMalformed(sought);
      var depth := 0;
      var elseAt: Option<nat> := None;
      while reader.position < |code|
        invariant fresh(reader) && reader.bytes == code && reader.position <= |code|
        invariant elseAt.Some? ==> elseAt.value <= |code|
        invariant fuel <= old(fuel) && scanSteps - old(scanSteps) == old(fuel) - fuel
        invariant Scan(code, position, 0, wantElse, None, old(fuel))
               == Scan(code, reader.position, depth, wantElse, elseAt, fuel)
        decreases fuel
      {
        if fuel == 0 {
          return Err(OutOfFuel);
        }
        fuel := fuel - 1;
        scanSteps := scanSteps + 1;
        var next := reader.ReadByte();
        var b := next.value;
        if 0x02 <= b <= 0x04 {
          var header := reader.ReadByte();
          var _ :- OrMalformed(header);
          depth := depth + 1;
        } else if b == 0x05 && depth == 0 && wantElse && elseAt.None? {
          elseAt := Some(reader.position);
        } else if b == 0x0b {
          if depth == 0 {
            return Ok(Found(elseAt, reader.position));
          }
          depth := depth - 1;
        } else {
          var _ :- SkipImmediates(reader, b);
        }
      }
      return Err(Malformed);
    }

    /** `call_export`: every step it takes is paid for, and every ceiling holds, whatever the bytes. */
    method CallExport(name: seq<byte>, arguments: seq<Value>, host: Host) returns (reply: Reply)
      requires m.BodiesInBounds() && UnderCeilings()
      modifies this, host
      ensures var index := m.ExportFrom(name, 0);
              Outcome(reply, Machine(memory, host.calls, fuel))
                == if index.None? then Outcome(Err(Malformed), old(Machine(memory, host.calls, fuel)))
                   else WasmMachine.CallFunction(m, host.oracle, index.value, arguments, 0,
                     old(Machine(memory, host.calls, fuel)))
      ensures (dispatches - old(dispatches)) + (scanSteps - old(scanSteps)) == old(fuel) - fuel
      ensures |host.calls| - |old(host.calls)| <= dispatches - old(dispatches) + 1
      ensures UnderCeilings()
    {
      var i := 0;
      while i < |m.exports|
        invariant i <= |m.exports| && m.ExportFrom(name, 0) == m.ExportFrom(name, i)
      {
        if m.exports[i].name == name {
          reply := CallFunction(host, m.exports[i].functionIndex, arguments, 0);
          return;
        }
        i := i + 1;
      }
      return Err(Malformed);
    }

    method CallFunction(host: Host, index: u32, arguments: seq<Value>, depth: nat) returns (reply: Reply)
      requires m.BodiesInBounds() && UnderCeilings()
      modifies this, host
      ensures Outcome(reply, Machine(memory, host.calls, fuel))
           == WasmMachine.CallFunction(m, host.oracle, index, arguments, depth, old(Machine(memory, host.calls, fuel)))
      ensures (dispatches - old(dispatches)) + (scanSteps - old(scanSteps)) == old(fuel) - fuel
      ensures dispatches >= old(dispatches) && scanSteps >= old(scanSteps)
      ensures |host.calls| - |old(host.calls)| <= dispatches - old(dispatches) + if index < |m.imports| then 1 else 0
      ensures UnderCeilings()
      decreases fuel, 2
    {
      if depth >= MAX_FRAMES {
        return Err(StackOverflow);
      }
      if index < |m.imports| {
        reply := host.Call(index, arguments);
        return;
      }
      if index - |m.imports| >= |m.functions| {
        return Err(Malformed);
      }
      var function' := m.functions[index - |m.imports|];
      if function'.typeIndex >= |m.types| {
        return Err(Malformed);
      }
      var signature := m.types[function'.typeIndex];
      if |arguments| != |signature.params| {
        return Err(Faulted);
      }
      var locals := InitialLocals(arguments, function'.locals);
      reply := Execute(host, function', locals, depth, signature.results != []);
    }

    /** `block`, `loop` and `if`: find the end, consume an `if`'s condition, open a label. */
    method EnterBlock(
        reader: Leb.Reader, kind: BlockKind, blockType: byte, stack0: seq<Value>, labels0: seq<Label>,
        ghost env: Env, ghost locals: seq<Value>, ghost calls: seq<HostCall>)
      returns (r: Result<(seq<Value>, seq<Label>), Trap>)
      requires env.code == reader.bytes && reader.position <= |reader.bytes|
      modifies this`fuel, this`scanSteps, reader
      ensures fuel <= old(fuel) && scanSteps - old(scanSteps) == old(fuel) - fuel
      ensures var step := WasmMachine.Enter(env, kind, blockType, Frame(old(reader.position), stack0, labels0, locals),
                                            Machine(memory, calls, old(fuel)));
              step == if r.Err? then Leave(Err(r.error), Machine(memory, calls, fuel))
                      else Continue(Frame(reader.position, r.value.0, r.value.1, locals), Machine(memory, calls, fuel))
      ensures r.Ok? ==> |r.value.0| <= |stack0| && |r.value.1| <= |labels0| + 1 && reader.position <= |reader.bytes|
    {
      hide Scan;
      var stack, labels := stack0, labels0;
      var target := reader.position;
      if !kind.LoopKind? {
        var found :- ScanBlock(reader.bytes, reader.position, false);
        target := found.end;
      }
      if kind.IfKind? {
        if |stack| == 0 {
          return Err(Faulted);
        }
        var condition := Top(stack).AsI32();
        stack := Pop(stack);
        if condition == 0 {
          var both :- ScanBlock(reader.bytes, reader.position, true);
          if both.elseAt.None? {
            var skipped := reader.Seek(both.end);
            return Ok((stack, labels));
          }
          var moved := reader.Seek(both.elseAt.value);
        }
      }
      return Ok((stack, labels + [Label(target, |stack|, kind.LoopKind?, blockType != EMPTY_BLOCK)]));
    }

    /** A taken branch to an open label: unwind the operands, close the labels it leaves, jump. */
    method Branch(
        reader: Leb.Reader, depthIndex: nat, stack0: seq<Value>, labels0: seq<Label>,
        ghost env: Env, ghost locals: seq<Value>, ghost mc: Machine)
      returns (r: Result<(seq<Value>, seq<Label>), Trap>)
      requires env.code == reader.bytes && depthIndex < |labels0|
      modifies reader
      ensures TakeBranch(env, Frame(old(reader.position), stack0, labels0, locals), depthIndex, mc)
           == if r.Err? then Leave(Err(r.error), mc)
             else Continue(Frame(reader.position, r.value.0, r.value.1, locals), mc)
      ensures r.Ok? ==> |r.value.0| <= |stack0| && |r.value.1| <= |labels0| && reader.position <= |reader.bytes|
    {
      var stack := stack0;
      var landing := labels0[|labels0| - 1 - depthIndex];
      var carried := None;
      if landing.returnsValue && !landing.isLoop && |stack| > 0 {
        carried := Some(Top(stack));
        stack := Pop(stack);
      }
      if landing.height < |stack| {
        stack := stack[..landing.height];
      }
      if carried.Some? {
        stack := stack + [carried.value];
      }
      var labels := labels0[..|labels0| - depthIndex - if landing.isLoop then 0 else 1];
      var moved := reader.Seek(landing.target);
      var _ :- OrMalformed(moved);
      return Ok((stack, labels));
    }

    /** One dispatch. The instruction has been fetched and paid for; `done` says the function is over. */
    method Perform(
        host: Host, reader: Leb.Reader, op: Op, stack0: seq<Value>, labels0: seq<Label>, locals0: seq<Value>,
        depth: nat, returnsValue: bool, ghost env: Env)
      returns (done: Option<Reply>, stack: seq<Value>, labels: seq<Label>, locals: seq<Value>)
      requires m.BodiesInBounds() && UnderCeilings()
      requires env == Env(m, host.oracle, reader.bytes, depth, returnsValue) && reader.position <= |reader.bytes|
      modifies this, host, reader
      ensures var step := Dispatch(env, op, Frame(old(reader.position), stack0, labels0, locals0),
                                   old(Machine(memory, host.calls, fuel)));
              Follow(env, step)
                == if done.Some? then Outcome(done.value, Machine(memory, host.calls, fuel))
                   else Run(env, Frame(reader.position, stack, labels, locals), Machine(memory, host.calls, fuel))
      ensures done.None? ==> |stack| <= |stack0| + 1 && |labels| <= |labels0| + 1 && reader.position <= |reader.bytes|
      ensures fuel <= old(fuel) && (dispatches - old(dispatches)) + (scanSteps - old(scanSteps)) == old(fuel) - fuel
      ensures dispatches >= old(dispatches) && scanSteps >= old(scanSteps)
      ensures |host.calls| - |old(host.calls)| <= dispatches - old(dispatches) + 1
      ensures UnderCeilings()
      decreases fuel, 4
    {
      hide Run, Scan, PlainStep, WasmMachine.CallFunction, Unwind, WasmMachine.Enter, TakeBranch;
      done, stack, labels, locals := None, stack0, labels0, locals0;
      match op {
        case Plain(plain) => {
          match PlainStep(plain, Work(stack, locals, memory)) {
            case Ok(w) => stack, locals, memory := w.stack, w.locals, w.memory;
            case Err(trap) => done := Some(Err(trap));
          }
        }
        case Enter(kind, blockType) => {
          var entered := EnterBlock(reader, kind, blockType, stack, labels, env, locals, host.calls);
          match entered {
            case Ok(new') => stack, labels := new'.0, new'.1;
            case Err(trap) => done := Some(Err(trap));
          }
        }
        case Else => {
          var found := ScanBlock(reader.bytes, reader.position, false);
          if found.Err? {
            done := Some(Err(found.error));
          } else {
            var moved := reader.Seek(found.value.end);
            if |labels| == 0 {
              done := Some(Err(Malformed));
            } else {
              labels := labels[..|labels| - 1];
            }
          }
        }
        case End => {
          if |labels| == 0 {
            done := Some(Answer(returnsValue, stack));
          } else {
            labels := labels[..|labels| - 1];
          }
        }
        case Return => {
          done := Some(Answer(returnsValue, stack));
        }
        case Call(index) => {
          done, stack := CallSite(host, index, stack, labels, locals, depth, env, reader.position);
        }
        case _ => {
          done, stack, labels := BranchSite(reader, op, stack, labels, locals, returnsValue, env,
            Machine(memory, host.calls, fuel));
        }
      }
    }

    method BranchSite(
        reader: Leb.Reader, op: Op, stack0: seq<Value>, labels0: seq<Label>, ghost locals: seq<Value>,
        returnsValue: bool, ghost env: Env, ghost mc: Machine)
      returns (done: Option<Reply>, stack: seq<Value>, labels: seq<Label>)
      requires op.Br? || op.BrIf?
      requires env.m.BodiesInBounds() && env.code == reader.bytes && env.returnsValue == returnsValue
      modifies reader
      ensures Follow(env, Dispatch(env, op, Frame(old(reader.position), stack0, labels0, locals), mc))
           == if done.Some? then Outcome(done.value, mc)
             else Run(env, Frame(reader.position, stack, labels, locals), mc)
      ensures |stack| <= |stack0| && |labels| <= |labels0|
      ensures done.None? && old(reader.position) <= |reader.bytes| ==> reader.position <= |reader.bytes|
    {
      hide Run, Unwind;
      done, stack, labels := None, stack0, labels0;
      var take := true;
      if op.BrIf? {
        if |stack| == 0 {
          done := Some(Err(Faulted));
          return;
        }
        take := Top(stack).AsI32() != 0;
        stack := Pop(stack);
      }
      if take {
        if op.target >= |labels| {
          done := Some(Answer(returnsValue, stack));
          return;
        }
        var landed := Branch(reader, op.target, stack, labels, env, locals, mc);
        match landed {
          case Ok(new') => stack, labels := new'.0, new'.1;
          case Err(trap) => done := Some(Err(trap));
        }
      }
    }

    method CallSite(
        host: Host, index: u32, stack0: seq<Value>, ghost labels: seq<Label>, ghost locals: seq<Value>,
        depth: nat, ghost env: Env, ghost position: nat)
      returns (done: Option<Reply>, stack: seq<Value>)
      requires m.BodiesInBounds() && UnderCeilings()
      requires env.m == m && env.oracle == host.oracle && env.depth == depth
      modifies this, host
      ensures Follow(env, Dispatch(env, Op.Call(index), Frame(position, stack0, labels, locals),
                old(Machine(memory, host.calls, fuel))))
           == if done.Some? then Outcome(done.value, Machine(memory, host.calls, fuel))
              else Run(env, Frame(position, stack, labels, locals), Machine(memory, host.calls, fuel))
      ensures done.None? ==> |stack| <= |stack0| + 1
      ensures fuel <= old(fuel) && (dispatches - old(dispatches)) + (scanSteps - old(scanSteps)) == old(fuel) - fuel
      ensures dispatches >= old(dispatches) && scanSteps >= old(scanSteps)
      ensures |host.calls| - |old(host.calls)| <= dispatches - old(dispatches) + 1
      ensures UnderCeilings()
      decreases fuel, 3
    {
      hide Run, WasmMachine.CallFunction;
      done, stack := None, stack0;
      var signature := m.FunctionType(index);
      if signature.None? {
        done := Some(Err(Malformed));
        return;
      }
      var count := |signature.value.params|;
      if |stack| < count {
        done := Some(Err(Faulted));
        return;
      }
      var arguments := stack[|stack| - count..];
      stack := stack[..|stack| - count];
      var reply := CallFunction(host, index, arguments, depth + 1);
      match reply {
        case Err(_) => done := Some(reply);
        case Ok(None) =>
        case Ok(Some(result)) => stack := stack + [result];
      }
    }

    /** One turn of the dispatch loop: pay, check the ceilings, fetch, perform. */
    method Turn(
        host: Host, reader: Leb.Reader, stack0: seq<Value>, labels0: seq<Label>, locals0: seq<Value>,
        depth: nat, returnsValue: bool, ghost env: Env)
      returns (done: Option<Reply>, stack: seq<Value>, labels: seq<Label>, locals: seq<Value>)
      requires m.BodiesInBounds() && UnderCeilings()
      requires |stack0| <= MAX_STACK + 1 && |labels0| <= MAX_STACK + 1
      requires env == Env(m, host.oracle, reader.bytes, depth, returnsValue) && reader.position <= |reader.bytes|
      modifies this, host, reader
      ensures Run(env, Frame(old(reader.position), stack0, labels0, locals0), old(Machine(memory, host.calls, fuel)))
           == if done.Some? then Outcome(done.value, Machine(memory, host.calls, fuel))
              else Run(env, Frame(reader.position, stack, labels, locals), Machine(memory, host.calls, fuel))
      ensures done.None? ==> reader.position <= |reader.bytes| && |stack| <= MAX_STACK + 1 && |labels| <= MAX_STACK + 1
      ensures done.None? ==> fuel < old(fuel)
      ensures (dispatches - old(dispatches)) + (scanSteps - old(scanSteps)) == old(fuel) - fuel
      ensures dispatches >= old(dispatches) && scanSteps >= old(scanSteps)
      ensures |host.calls| - |old(host.calls)| <= dispatches - old(dispatches)
      ensures UnderCeilings()
      decreases fuel, 0
    {
      hide Run, Fetch, Dispatch, Follow;
      done, stack, labels, locals := None, stack0, labels0, locals0;
      tallest := if |stack| > tallest then |stack| else tallest;
      tallest := if |labels| > tallest then |labels| else tallest;
      RunStops(env, Frame(reader.position, stack, labels, locals), Machine(memory, host.calls, fuel));
      if fuel == 0 {
        done := Some(Err(OutOfFuel));
        return;
      }
      fuel := fuel - 1;
      dispatches := dispatches + 1;
      if |stack| > MAX_STACK || |labels| > MAX_STACK {
        done := Some(Err(StackOverflow));
        return;
      }
      RunOnce(env, Frame(reader.position, stack, labels, locals), Machine(memory, host.calls, fuel + 1));
      var op := FetchOp(reader);
      match op {
        case Ok(op) =>
          done, stack, labels, locals := Perform(host, reader, op, stack, labels, locals, depth, returnsValue, env);
        case Err(trap) =>
          done := Some(Err(trap));
      }
    }

    method Execute(host: Host, function': Function, initial: seq<Value>, depth: nat, returnsValue: bool)
      returns (reply: Reply)
      requires m.BodiesInBounds() && function'.end <= |m.bytes| && depth < MAX_FRAMES && UnderCeilings()
      modifies this, host
      ensures var start := old(Machine(memory, host.calls, fuel));
              Outcome(reply, Machine(memory, host.calls, fuel))
                == if function'.start > function'.end then Outcome(Err(Malformed), start)
                   else Run(Env(m, host.oracle, m.bytes[..function'.end], depth, returnsValue),
                            Frame(function'.start, [], [], initial), start)
      ensures (dispatches - old(dispatches)) + (scanSteps - old(scanSteps)) == old(fuel) - fuel
      ensures dispatches >= old(dispatches) && scanSteps >= old(scanSteps)
      ensures |host.calls| - |old(host.calls)| <= dispatches - old(dispatches)
      ensures UnderCeilings()
      decreases fuel, 1
    {
      hide Run;
      var reader := new Leb.Reader(m.bytes[..function'.end]);
      var sought := reader.Seek(function'.start);
      if sought.Err? {
        return Err(Malformed);
      }
      var stack: seq<Value> := [];
      var labels: seq<Label> := [];
      var locals := initial;
      deepest := if depth + 1 > deepest then depth + 1 else deepest;
      ghost var env := Env(m, host.oracle, reader.bytes, depth, returnsValue);
      ghost var answer := Run(env, Frame(reader.position, stack, labels, locals), Machine(memory, host.calls, fuel));
      while true
        invariant fresh(reader) && reader.bytes == env.code && reader.position <= |reader.bytes|
        invariant |stack| <= MAX_STACK + 1 && |labels| <= MAX_STACK + 1 && UnderCeilings()
        invariant fuel <= old(fuel)
        invariant (dispatches - old(dispatches)) + (scanSteps - old(scanSteps)) == old(fuel) - fuel
        invariant dispatches >= old(dispatches) && scanSteps >= old(scanSteps)
        invariant |host.calls| - |old(host.calls)| <= dispatches - old(dispatches)
        invariant answer == Run(env, Frame(reader.position, stack, labels, locals), Machine(memory, host.calls, fuel))
        decreases fuel
      {
        var done: Option<Reply>;
        done, stack, labels, locals := Turn(host, reader, stack, labels, locals, depth, returnsValue, env);
        if done.Some? {
          return done.value;
        }
      }
    }
  }
}
