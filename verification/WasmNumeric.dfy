/** What a single non-branching instruction does to operands, locals and linear memory. */
module WasmNumeric {
  import opened Basics
  import opened WasmSyntax

  const PAGE_BYTES: nat := 0x1_0000

  datatype Work = Work(stack: seq<Value>, locals: seq<Value>, memory: seq<byte>)

  function Top(stack: seq<Value>): Value
    requires |stack| > 0
  {
    stack[|stack| - 1]
  }

  function Pop(stack: seq<Value>): (rest: seq<Value>)
    requires |stack| > 0
    ensures |rest| == |stack| - 1
  {
    stack[..|stack| - 1]
  }

  function Truth(b: bool): Value {
    I32(if b then 1 else 0)
  }

  /** Rust's `wrapping_div` and `wrapping_rem`: toward zero. */
  function TruncatedQuotient(left: int, right: int): int
    requires right != 0
  {
    var magnitude := (if left < 0 then -left else left) / (if right < 0 then -right else right);
    if (left < 0) == (right < 0) then magnitude else -magnitude
  }

  function TruncatedRemainder(left: int, right: int): int
    requires right != 0
  {
    left - TruncatedQuotient(left, right) * right
  }

  function Compare32(opcode: byte, left: i32, right: i32): bool {
    match opcode
    case 0x46 => left == right
    case 0x47 => left != right
    case 0x48 => left < right
    case 0x49 => ToU32(left) < ToU32(right)
    case 0x4a => left > right
    case 0x4b => ToU32(left) > ToU32(right)
    case 0x4c => left <= right
    case 0x4d => ToU32(left) <= ToU32(right)
    case 0x4e => left >= right
    case _ => ToU32(left) >= ToU32(right)
  }

  function Compare64(opcode: byte, left: i64, right: i64): bool {
    match opcode
    case 0x51 => left == right
    case 0x52 => left != right
    case 0x53 => left < right
    case 0x54 => ToU64(left) < ToU64(right)
    case 0x55 => left > right
    case 0x56 => ToU64(left) > ToU64(right)
    case 0x57 => left <= right
    case 0x58 => ToU64(left) <= ToU64(right)
    case 0x59 => left >= right
    case _ => ToU64(left) >= ToU64(right)
  }

  /** The bitwise operations: what each place of the result holds. */
  datatype Bitwise = And | Or | Xor {
    predicate Of(a: bool, b: bool) {
      match this
      case And => a && b
      case Or => a || b
      case Xor => a != b
    }
  }

  /** Combine the low `width` bits place by place. */
  function Combine(rule: Bitwise, l: nat, r: nat, width: nat): (bits: nat)
    ensures bits < Pow2(width)
  {
    if width == 0 then 0
    else (if rule.Of(l % 2 == 1, r % 2 == 1) then 1 else 0) + 2 * Combine(rule, l / 2, r / 2, width - 1)
  }

  function Arithmetic32(opcode: byte, left: i32, right: i32): Result<i32, Trap> {
    var (l, r) := (ToU32(left), ToU32(right));
    match opcode
    case 0x6a => Ok(WrapI32(left + right))
    case 0x6b => Ok(WrapI32(left - right))
    case 0x6c => Ok(WrapI32(left * right))
    case 0x6d => if right == 0 then Err(Faulted) else Ok(WrapI32(TruncatedQuotient(left, right)))
    case 0x6e => if right == 0 then Err(Faulted) else Ok(WrapI32(l / r))
    case 0x6f => if right == 0 then Err(Faulted) else Ok(WrapI32(TruncatedRemainder(left, right)))
    case 0x70 => if right == 0 then Err(Faulted) else Ok(WrapI32(l % r))
    case 0x71 => Ok(WrapI32(Combine(And, l, r, 32)))
    case 0x72 => Ok(WrapI32(Combine(Or, l, r, 32)))
    case 0x73 => Ok(WrapI32(Combine(Xor, l, r, 32)))
    case 0x74 => Ok(WrapI32(left * Pow2(r % 32)))
    case 0x75 => Ok(WrapI32(left / Pow2(r % 32)))
    case _ => Ok(WrapI32(l / Pow2(r % 32)))
  }

  function Arithmetic64(opcode: byte, left: i64, right: i64): Result<i64, Trap> {
    var (l, r) := (ToU64(left), ToU64(right));
    match opcode
    case 0x7c => Ok(WrapI64(left + right))
    case 0x7d => Ok(WrapI64(left - right))
    case 0x7e => Ok(WrapI64(left * right))
    case 0x7f => if right == 0 then Err(Faulted) else Ok(WrapI64(TruncatedQuotient(left, right)))
    case 0x80 => if right == 0 then Err(Faulted) else Ok(WrapI64(l / r))
    case 0x83 => Ok(WrapI64(Combine(And, l, r, 64)))
    case 0x84 => Ok(WrapI64(Combine(Or, l, r, 64)))
    case 0x85 => Ok(WrapI64(Combine(Xor, l, r, 64)))
    case 0x86 => Ok(WrapI64(left * Pow2(r % 64)))
    case 0x87 => Ok(WrapI64(left / Pow2(r % 64)))
    case 0x88 => Ok(WrapI64(l / Pow2(r % 64)))
    case _ => Err(Unsupported)
  }

  /** The value an arithmetic, comparison or conversion instruction leaves in place of its operands. */
  function NumericStep(opcode: byte, stack: seq<Value>): (r: Result<seq<Value>, Trap>)
    requires IsNumeric(opcode)
    ensures r.Ok? ==> |r.value| <= |stack|
  {
    if |stack| == 0 then
      Err(Faulted)
    else
      var top, rest := Top(stack), Pop(stack);
      if opcode == 0x45 then Ok(rest + [Truth(top.AsI32() == 0)])
      else if opcode == 0x50 then Ok(rest + [Truth(top.AsI64() == 0)])
      else if opcode == 0xa7 then Ok(rest + [I32(WrapI32(top.AsI64()))])
      else if opcode == 0xac then Ok(rest + [I64(top.AsI32())])
      else if opcode == 0xad then Ok(rest + [I64(ToU32(top.AsI32()))])
      else if |rest| == 0 then Err(Faulted)
      else
        var left, base := Top(rest), Pop(rest);
        if opcode <= 0x4f then Ok(base + [Truth(Compare32(opcode, left.AsI32(), top.AsI32()))])
        else if opcode <= 0x5a then Ok(base + [Truth(Compare64(opcode, left.AsI64(), top.AsI64()))])
        else if opcode <= 0x76 then
          var value :- Arithmetic32(opcode, left.AsI32(), top.AsI32());
          Ok(base + [I32(value)])
        else
          var value :- Arithmetic64(opcode, left.AsI64(), top.AsI64());
          Ok(base + [I64(value)])
  }

  /** `base + offset` must not leave 32 bits, and all `width` bytes must lie in memory. */
  function Address(base: i32, offset: u32, width: nat, memory: seq<byte>): (r: Result<nat, Trap>)
    ensures r.Ok? ==> r.value + width <= |memory|
  {
    var address := ToU32(base) + offset;
    if address >= TWO_32 || address + width > |memory| then Err(OutOfBounds) else Ok(address)
  }

  function Width(opcode: byte): nat {
    if opcode == 0x28 || opcode == 0x36 then 4 else if opcode == 0x2f then 2 else 1
  }

  function PlainStep(op: PlainOp, w: Work): (r: Result<Work, Trap>)
    ensures r.Ok? ==> |r.value.memory| == |w.memory| && |r.value.locals| == |w.locals|
                      && |r.value.stack| <= |w.stack| + 1
  {
    match op
    case Unreachable => Err(Faulted)
    case Nop => Ok(w)
    case Drop => if |w.stack| == 0 then Err(Faulted) else Ok(w.(stack := Pop(w.stack)))
    case Select =>
      if |w.stack| < 3 then Err(Faulted)
      else
        var base := w.stack[..|w.stack| - 3];
        var chosen := if Top(w.stack).AsI32() != 0 then w.stack[|w.stack| - 3] else w.stack[|w.stack| - 2];
        Ok(w.(stack := base + [chosen]))
    case LocalGet(n) => if n >= |w.locals| then Err(Faulted) else Ok(w.(stack := w.stack + [w.locals[n]]))
    case LocalSet(n) =>
      if |w.stack| == 0 || n >= |w.locals| then Err(Faulted)
      else Ok(w.(stack := Pop(w.stack), locals := w.locals[n := Top(w.stack)]))
    case LocalTee(n) =>
      if |w.stack| == 0 || n >= |w.locals| then Err(Faulted) else Ok(w.(locals := w.locals[n := Top(w.stack)]))
    case Load(opcode, _, offset) =>
      if |w.stack| == 0 then Err(Faulted)
      else
        var at :- Address(Top(w.stack).AsI32(), offset, Width(opcode), w.memory);
        Ok(w.(stack := Pop(w.stack) + [I32(WrapI32(LeValue(w.memory[at..at + Width(opcode)])))]))
    case Store(opcode, _, offset) =>
      if |w.stack| < 2 then Err(Faulted)
      else
        var rest := Pop(w.stack);
        var at :- Address(Top(rest).AsI32(), offset, Width(opcode), w.memory);
        var bytes := LeBytes(ToU32(Top(w.stack).AsI32()), Width(opcode));
        Ok(w.(stack := Pop(rest), memory := w.memory[..at] + bytes + w.memory[at + Width(opcode)..]))
    case MemorySize(_) => Ok(w.(stack := w.stack + [I32(WrapI32(|w.memory| / PAGE_BYTES))]))
    case Const32(v) => Ok(w.(stack := w.stack + [I32(v)]))
    case Const64(v) => Ok(w.(stack := w.stack + [I64(v)]))
    case Numeric(opcode) =>
      if !IsNumeric(opcode) then Err(Unsupported)
      else
        var stack :- NumericStep(opcode, w.stack);
        Ok(w.(stack := stack))
  }
}
