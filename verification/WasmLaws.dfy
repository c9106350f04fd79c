/**
 * Laws of the instructions that do not branch: what memory, locals, division, order and conversions
 * promise, said without naming how each instruction computes.
 */
module WasmLaws {
  import opened Basics
  import opened WasmSyntax
  import opened WasmNumeric

  // ----- memory -----

  /** Where an access of `width` bytes at `base + offset` is allowed: no 32-bit wrap, all in memory. */
  predicate Accessible(base: i32, offset: u32, width: nat, memory: seq<byte>) {
    ToU32(base) + offset < TWO_32 && ToU32(base) + offset + width <= |memory|
  }

  /** A store changes exactly the bytes it names and takes its two operands, or traps. */
  lemma StoreChangesOnlyItsBytes(base: i32, value: i32, opcode: byte, align: u32, offset: u32, w: Work)
    requires opcode == 0x36 || opcode == 0x3a
    ensures var width := if opcode == 0x36 then 4 else 1;
            var after := PlainStep(Store(opcode, align, offset), w.(stack := w.stack + [I32(base), I32(value)]));
            if !Accessible(base, offset, width, w.memory) then after == Err(OutOfBounds)
            else
              && after.Ok? && after.value.stack == w.stack && after.value.locals == w.locals
              && |after.value.memory| == |w.memory|
              && forall i: nat :: i < |w.memory| && !(ToU32(base) + offset <= i < ToU32(base) + offset + width) ==>
                   after.value.memory[i] == w.memory[i]
  {
    hide LeBytes;
    var stack := w.stack + [I32(base), I32(value)];
    assert Pop(stack) == w.stack + [I32(base)] && Pop(Pop(stack)) == w.stack;
  }

  /** A load reads back what a store of the same width left, from the same address. */
  lemma LoadReadsStore(base: i32, value: i32, align: u32, align': u32, offset: u32, w: Work)
    requires Accessible(base, offset, 4, w.memory)
    ensures var stored := PlainStep(Store(0x36, align, offset), w.(stack := w.stack + [I32(base), I32(value)]));
            && stored.Ok?
            && var loaded := PlainStep(Load(0x28, align', offset), stored.value.(stack := w.stack + [I32(base)]));
               loaded == Ok(stored.value.(stack := w.stack + [I32(value)]))
  {
    hide LeBytes, LeValue, Pow2;
    var stack := w.stack + [I32(base), I32(value)];
    assert Pop(stack) == w.stack + [I32(base)] && Pop(Pop(stack)) == w.stack;
    var at := ToU32(base) + offset;
    var bytes := LeBytes(ToU32(value), 4);
    var memory := w.memory[..at] + bytes + w.memory[at + 4..];
    assert memory[at..at + 4] == bytes;
    Pow2At31();
    LeRoundTrip(ToU32(value), 4);
    assert Pop(w.stack + [I32(base)]) == w.stack;
  }

  /** A stored byte is the value's lowest eight bits, and reads back as that number. */
  lemma ByteLoadReadsByteStore(base: i32, value: i32, align: u32, align': u32, offset: u32, w: Work)
    requires Accessible(base, offset, 1, w.memory)
    ensures var stored := PlainStep(Store(0x3a, align, offset), w.(stack := w.stack + [I32(base), I32(value)]));
            && stored.Ok?
            && PlainStep(Load(0x2d, align', offset), stored.value.(stack := w.stack + [I32(base)]))
                 == Ok(stored.value.(stack := w.stack + [I32(value % 0x100)]))
  {
    var stack := w.stack + [I32(base), I32(value)];
    assert Pop(stack) == w.stack + [I32(base)] && Pop(Pop(stack)) == w.stack;
    assert Pop(w.stack + [I32(base)]) == w.stack;
    LowByte(value);
    var stored := PlainStep(Store(0x3a, align, offset), w.(stack := stack)).value;
    assert stored.memory[ToU32(base) + offset] == value % 0x100;
    NarrowLoadsHaveNoSign(base, 0x2d, align', offset, stored.(stack := w.stack));
    hide PlainStep;
  }

  lemma LowByte(value: i32)
    ensures LeBytes(ToU32(value), 1) == [value % 0x100]
  {
    assert LeBytes(ToU32(value) / 0x100, 0) == [];
  }

  function HalfWord(low: byte, high: byte): i32 {
    var l: int := low;
    l + 0x100 * high
  }

  /** The narrow loads give the byte or the half word without a sign. */
  lemma NarrowLoadsHaveNoSign(base: i32, opcode: byte, align: u32, offset: u32, w: Work)
    requires opcode == 0x2d || opcode == 0x2f
    requires Accessible(base, offset, if opcode == 0x2d then 1 else 2, w.memory)
    ensures var (at, after) := (ToU32(base) + offset,
              PlainStep(Load(opcode, align, offset), w.(stack := w.stack + [I32(base)])));
            after == Ok(w.(stack := w.stack +
              [I32(if opcode == 0x2d then w.memory[at] else HalfWord(w.memory[at], w.memory[at + 1]))]))
  {
    hide Pow2;
    assert Pop(w.stack + [I32(base)]) == w.stack;
    var at := ToU32(base) + offset;
    if opcode == 0x2d {
      OneByteValue(w.memory[at..at + 1]);
    } else {
      OneByteValue(w.memory[at..at + 2][1..]);
    }
  }

  lemma OneByteValue(bytes: seq<byte>)
    requires |bytes| == 1
    ensures LeValue(bytes) == bytes[0]
  {
    assert bytes[1..] == [];
  }

  /** What memory has grown to is told in pages of 64 KiB. */
  lemma SizeIsInPages(pages: nat, reserved: byte, w: Work)
    requires |w.memory| == 0x1_0000 * pages && pages < 0x8000_0000
    ensures PlainStep(MemorySize(reserved), w) == Ok(w.(stack := w.stack + [I32(pages)]))
  {
    WrapKeepsRange(pages);
  }

  // ----- locals -----

  /** Setting a local is seen by the next get of it and by no other. */
  lemma LocalsReadBack(v: Value, n: u32, m: u32, w: Work)
    requires n < |w.locals| && m < |w.locals|
    ensures var after := PlainStep(LocalSet(n), w.(stack := w.stack + [v]));
            && after.Ok? && after.value.stack == w.stack
            && PlainStep(LocalGet(m), after.value) ==
                 Ok(after.value.(stack := w.stack + [if m == n then v else w.locals[m]]))
            && PlainStep(LocalTee(n), w.(stack := w.stack + [v])) == Ok(after.value.(stack := w.stack + [v]))
  {
    assert Pop(w.stack + [v]) == w.stack;
  }

  /** What needs no operand or only loses one, and the locals that are not there. */
  lemma ConstantsAndDrop(v: Value, a: i32, b: i64, n: u32, w: Work)
    ensures PlainStep(Unreachable, w) == Err(Faulted) && PlainStep(Nop, w) == Ok(w)
    ensures PlainStep(Const32(a), w) == Ok(w.(stack := w.stack + [I32(a)]))
    ensures PlainStep(Const64(b), w) == Ok(w.(stack := w.stack + [I64(b)]))
    ensures PlainStep(Drop, w.(stack := w.stack + [v])) == Ok(w)
    ensures PlainStep(LocalGet(n), w).Err? <==> n >= |w.locals|
    ensures PlainStep(LocalSet(n), w.(stack := w.stack + [v])).Err? <==> n >= |w.locals|
    ensures w.stack == [] ==>
              forall op :: op in {Drop, Select, LocalSet(n), LocalTee(n), Numeric(0x45)} ==>
                PlainStep(op, w) == Err(Faulted)
  {
    assert Pop(w.stack + [v]) == w.stack;
  }

  /** Of the two operands below the condition the lower one is chosen unless the condition is zero. */
  lemma SelectPicks(a: Value, b: Value, c: i32, w: Work)
    ensures PlainStep(Select, w.(stack := w.stack + [a, b, I32(c)]))
         == Ok(w.(stack := w.stack + [if c != 0 then a else b]))
  {
    assert (w.stack + [a, b, I32(c)])[..|w.stack|] == w.stack;
  }

  /** Negating the condition chooses between the same two operands the other way round. */
  lemma NegationSwapsChoice(a: Value, b: Value, c: i32, w: Work)
    ensures var negated := PlainStep(Numeric(0x45), w.(stack := w.stack + [b, a, I32(c)]));
            && negated.Ok?
            && PlainStep(Select, negated.value) == PlainStep(Select, w.(stack := w.stack + [a, b, I32(c)]))
            && PlainStep(Select, negated.value).Ok?
  {
    var stack := w.stack + [b, a, I32(c)];
    var negated := w.stack + [b, a, Truth(c == 0)];
    assert Pop(stack) + [Truth(c == 0)] == negated;
    assert (w.stack + [a, b, I32(c)])[..|w.stack|] == w.stack == negated[..|w.stack|];
  }

  // ----- numbers -----

  /** The instruction that says the same of swapped operands. */
  function Converse(opcode: byte): Option<byte> {
    match opcode
    case 0x48 => Some(0x4a) case 0x4a => Some(0x48) case 0x49 => Some(0x4b) case 0x4b => Some(0x49)
    case 0x4c => Some(0x4e) case 0x4e => Some(0x4c) case 0x4d => Some(0x4f) case 0x4f => Some(0x4d)
    case 0x53 => Some(0x55) case 0x55 => Some(0x53) case 0x54 => Some(0x56) case 0x56 => Some(0x54)
    case 0x57 => Some(0x59) case 0x59 => Some(0x57) case 0x58 => Some(0x5a) case 0x5a => Some(0x58)
    case 0x46 => Some(0x46) case 0x47 => Some(0x47) case 0x51 => Some(0x51) case 0x52 => Some(0x52)
    case 0x6a => Some(0x6a) case 0x6c => Some(0x6c)
    case 0x71 => Some(0x71) case 0x72 => Some(0x72) case 0x73 => Some(0x73)
    case 0x7c => Some(0x7c) case 0x7e => Some(0x7e)
    case 0x83 => Some(0x83) case 0x84 => Some(0x84) case 0x85 => Some(0x85)
    case _ => None
  }

  /** The one value that two operands become. */
  function Applied(opcode: byte, left: Value, right: Value): Result<Value, Trap> {
    if opcode <= 0x4f then Ok(Truth(Compare32(opcode, left.AsI32(), right.AsI32())))
    else if opcode <= 0x5a then Ok(Truth(Compare64(opcode, left.AsI64(), right.AsI64())))
    else if opcode <= 0x76 then
      var value :- Arithmetic32(opcode, left.AsI32(), right.AsI32());
      Ok(I32(value))
    else
      var value :- Arithmetic64(opcode, left.AsI64(), right.AsI64());
      Ok(I64(value))
  }

  lemma AppliesToTwo(opcode: byte, a: Value, b: Value, stack: seq<Value>)
    requires IsNumeric(opcode) && opcode != 0x45 && opcode != 0x50 && opcode < 0xa7
    ensures NumericStep(opcode, stack + [a, b]) ==
              match Applied(opcode, a, b) case Ok(v) => Ok(stack + [v]) case Err(e) => Err(e)
  {
    hide Compare32, Compare64, Arithmetic32, Arithmetic64, Truth;
    assert Pop(stack + [a, b]) == stack + [a];
    assert Pop(stack + [a]) == stack;
  }

  lemma ConverseApplies(opcode: byte, a: Value, b: Value)
    requires Converse(opcode).Some?
    ensures IsNumeric(opcode) && opcode != 0x45 && opcode != 0x50 && opcode < 0xa7
    ensures Applied(opcode, a, b) == Applied(Converse(opcode).value, b, a) && Applied(opcode, a, b).Ok?
  {
    hide WrapI32, WrapI64, ToU32, ToU64, Arithmetic32, Arithmetic64;
    if 0x5a < opcode <= 0x76 {
      Commutes32(opcode, a.AsI32(), b.AsI32());
    } else if 0x76 < opcode {
      Commutes64(opcode, a.AsI64(), b.AsI64());
    }
  }

  lemma Commutes32(opcode: byte, a: i32, b: i32)
    requires opcode in {0x6a, 0x6c, 0x71, 0x72, 0x73}
    ensures Arithmetic32(opcode, a, b) == Arithmetic32(opcode, b, a) && Arithmetic32(opcode, a, b).Ok?
  {
    hide WrapI32, ToU32, Pow2, TruncatedQuotient, TruncatedRemainder, Combine;
    Commute(a, b);
    BitsCommute(And, ToU32(a), ToU32(b), 32);
    BitsCommute(Or, ToU32(a), ToU32(b), 32);
    BitsCommute(Xor, ToU32(a), ToU32(b), 32);
  }

  lemma Commutes64(opcode: byte, a: i64, b: i64)
    requires opcode in {0x7c, 0x7e, 0x83, 0x84, 0x85}
    ensures Arithmetic64(opcode, a, b) == Arithmetic64(opcode, b, a) && Arithmetic64(opcode, a, b).Ok?
  {
    hide WrapI64, ToU64, Pow2, TruncatedQuotient, Combine;
    Commute(a, b);
    BitsCommute(And, ToU64(a), ToU64(b), 64);
    BitsCommute(Or, ToU64(a), ToU64(b), 64);
    BitsCommute(Xor, ToU64(a), ToU64(b), 64);
  }

  lemma Commute(a: int, b: int)
    ensures a * b == b * a && a + b == b + a
  {
  }

  lemma ConverseOfConverse(opcode: byte)
    requires Converse(opcode).Some?
    ensures Converse(Converse(opcode).value) == Some(opcode)
  {
  }

  /**
   * Addition, multiplication, the bitwise operations and equality do not care about the order of
   * their operands; the other comparisons turn round with it.
   */
  lemma OperandsSwap(opcode: byte, a: Value, b: Value, stack: seq<Value>)
    requires Converse(opcode).Some?
    ensures IsNumeric(opcode) && IsNumeric(Converse(opcode).value)
    ensures NumericStep(opcode, stack + [a, b]) == NumericStep(Converse(opcode).value, stack + [b, a])
    ensures NumericStep(opcode, stack + [a, b]).Ok?
  {
    hide Applied, Converse, IsNumeric, NumericStep;
    ConverseOfConverse(opcode);
    ConverseApplies(opcode, a, b);
    ConverseApplies(Converse(opcode).value, b, a);
    AppliesToTwo(opcode, a, b, stack);
    AppliesToTwo(Converse(opcode).value, b, a, stack);
  }

  lemma {:induction false} BitsCommute(rule: Bitwise, l: nat, r: nat, width: nat)
    ensures Combine(rule, l, r, width) == Combine(rule, r, l, width)
  {
    if width > 0 {
      BitsCommute(rule, l / 2, r / 2, width - 1);
    }
  }

  lemma WrapKeepsRange(x: int)
    ensures -0x8000_0000 <= x < 0x8000_0000 ==> WrapI32(x) == x
    ensures 0 <= x < 0x1_0000_0000 ==> ToU32(WrapI32(x)) == x
  {
  }

  lemma WrapForgetsWraps(a: i32, b: i32, c: i64, d: i64)
    ensures WrapI32(WrapI32(a + b) - b) == a
    ensures WrapI64(WrapI64(c + d) - d) == c
  {
  }

  /** Addition and subtraction undo each other in both widths, across every wrap. */
  lemma SubtractionUndoesAddition(a: i32, b: i32, c: i64, d: i64)
    ensures var sum := Arithmetic32(0x6a, a, b); sum.Ok? && Arithmetic32(0x6b, sum.value, b) == Ok(a)
    ensures var sum := Arithmetic64(0x7c, c, d); sum.Ok? && Arithmetic64(0x7d, sum.value, d) == Ok(c)
  {
    hide WrapI32, WrapI64, ToU32, ToU64;
    WrapForgetsWraps(a, b, c, d);
  }

  /** On the stack: what was added last is taken off again, and the lower operand stays. */
  lemma SubtractionTakesTheTop(a: i32, b: i32, c: i64, d: i64, stack: seq<Value>)
    ensures var sum := NumericStep(0x6a, stack + [I32(a), I32(b)]);
            sum.Ok? && NumericStep(0x6b, sum.value + [I32(b)]) == Ok(stack + [I32(a)])
    ensures var sum := NumericStep(0x7c, stack + [I64(c), I64(d)]);
            sum.Ok? && NumericStep(0x7d, sum.value + [I64(d)]) == Ok(stack + [I64(c)])
  {
    hide NumericStep, WrapI32, WrapI64, ToU32, ToU64, Pow2, TruncatedQuotient, TruncatedRemainder, Combine;
    SubtractionUndoesAddition(a, b, c, d);
    AppliesToTwo(0x6a, I32(a), I32(b), stack);
    AppliesToTwo(0x7c, I64(c), I64(d), stack);
    var s32, s64 := I32(WrapI32(a + b)), I64(WrapI64(c + d));
    AppliesToTwo(0x6b, s32, I32(b), stack);
    AppliesToTwo(0x7d, s64, I64(d), stack);
    assert (stack + [s32]) + [I32(b)] == stack + [s32, I32(b)];
    assert (stack + [s64]) + [I64(d)] == stack + [s64, I64(d)];
  }

  lemma ProductGrows(q: int, s: int)
    requires s >= 1
    ensures q >= 0 ==> q * s >= q
    ensures q <= 0 ==> q * s <= q
    ensures s >= 2 && q >= 0 ==> q * s >= 2 * q
  {
    if q >= 0 {
      assert q * (s - 1) >= 0;
      if s >= 2 {
        assert q * (s - 2) >= 0;
      }
    } else {
      assert -q * (s - 1) >= 0;
    }
  }

  /** What a pair of division and remainder promises: one value, and a small rest with the dividend's sign. */
  ghost predicate Divides(left: int, right: int, quotient: int, rest: int) {
    && left == quotient * right + rest
    && (if rest < 0 then -rest else rest) < (if right < 0 then -right else right)
    && (rest != 0 ==> (rest < 0 <==> left < 0))
  }

  /** Signs do not matter to a product of magnitudes. */
  lemma SignsOfProduct(q: int, b: int)
    ensures -q * b == -(q * b) && q * -b == -(q * b) && -q * -b == q * b
  {
  }

  /** The rest has the dividend's sign, and the magnitude of the rest of the magnitudes. */
  lemma RestOfMagnitudes(left: int, right: int)
    requires right != 0
    ensures var (a, b) := (if left < 0 then -left else left, if right < 0 then -right else right);
            TruncatedRemainder(left, right) == if left < 0 then -(a % b) else a % b
  {
    var (a, b) := (if left < 0 then -left else left, if right < 0 then -right else right);
    assert a == a / b * b + a % b;
    SignsOfProduct(a / b, b);
  }

  lemma TruncationDivides(left: int, right: int)
    requires right != 0
    ensures Divides(left, right, TruncatedQuotient(left, right), TruncatedRemainder(left, right))
  {
    RestOfMagnitudes(left, right);
    var (a, b) := (if left < 0 then -left else left, if right < 0 then -right else right);
    assert 0 <= a % b < b;
    hide TruncatedQuotient;
  }

  /** Only the least number divided by -1 has a quotient outside the range. */
  lemma QuotientIsSmall(left: int, right: int, bound: int)
    requires bound > 0 && right != 0 && -bound <= left < bound && -bound <= right < bound
    ensures -bound <= TruncatedQuotient(left, right) <= bound
    ensures TruncatedQuotient(left, right) == bound <==> left == -bound && right == -1
    ensures -bound <= TruncatedRemainder(left, right) < bound
  {
    var a: int := if left < 0 then 0 - left else left;
    var b: int := if right < 0 then 0 - right else right;
    MagnitudeShrinks(a, b);
    RestOfMagnitudes(left, right);
    hide TruncatedRemainder;
  }

  lemma MagnitudeShrinks(a: nat, b: nat)
    requires b > 0
    ensures 0 <= a / b <= a && (b > 1 && a > 0 ==> a / b < a) && 0 <= a % b < b && (b == 1 ==> a / b == a)
  {
    var q := a / b;
    assert a == q * b + a % b;
    ProductGrows(q, b);
  }

  /** Division traps exactly on zero; otherwise it is division toward zero, but for the one quotient that wraps. */
  lemma SignedDivision(left: i32, right: i32)
    ensures Arithmetic32(0x6d, left, right).Err? <==> right == 0
    ensures Arithmetic32(0x6f, left, right).Err? <==> right == 0
    ensures right != 0 && !(left == -0x8000_0000 && right == -1) ==>
              Divides(left, right, Arithmetic32(0x6d, left, right).value, Arithmetic32(0x6f, left, right).value)
    ensures left == -0x8000_0000 && right == -1 ==>
              Arithmetic32(0x6d, left, right) == Ok(left) && Arithmetic32(0x6f, left, right) == Ok(0)
  {
    hide TruncatedQuotient, TruncatedRemainder, WrapI32, ToU32;
    if right != 0 {
      TruncationDivides(left, right);
      QuotientIsSmall(left, right, 0x8000_0000);
      WrapKeepsRange(TruncatedQuotient(left, right));
      WrapKeepsRange(TruncatedRemainder(left, right));
      OneWrap();
    }
  }

  lemma OneWrap()
    ensures WrapI32(0x8000_0000) == -0x8000_0000
    ensures TruncatedQuotient(-0x8000_0000, -1) == 0x8000_0000 && TruncatedRemainder(-0x8000_0000, -1) == 0
  {
  }

  lemma QuotientOfNaturals(l: nat, r: nat)
    requires r > 0
    ensures 0 <= l / r <= l && 0 <= l % r < r && Divides(l, r, l / r, l % r)
  {
    var q := l / r;
    assert l == q * r + l % r;
    ProductGrows(q, r);
  }

  /** The unsigned pair, on the unsigned readings. */
  lemma UnsignedDivision(left: i32, right: i32)
    ensures Arithmetic32(0x6e, left, right).Err? <==> right == 0
    ensures Arithmetic32(0x70, left, right).Err? <==> right == 0
    ensures right != 0 ==>
              Divides(ToU32(left), ToU32(right), ToU32(Arithmetic32(0x6e, left, right).value),
                ToU32(Arithmetic32(0x70, left, right).value))
  {
    if right != 0 {
      var (l, r) := (ToU32(left), ToU32(right));
      hide Divides, WrapI32, ToU32;
      QuotientOfNaturals(l, r);
      WrapKeepsRange(l / r);
      WrapKeepsRange(l % r);
    }
  }

  /** The comparisons are one order each for signed and unsigned readings, and equality with its denial. */
  lemma ComparisonsAreOrders(a: i32, b: i32)
    ensures Compare32(0x46, a, b) == (a == b) && Compare32(0x47, a, b) == !Compare32(0x46, a, b)
    ensures Compare32(0x48, a, b) == (a < b)
    ensures Compare32(0x4c, a, b) == !Compare32(0x4a, a, b) && Compare32(0x4e, a, b) == !Compare32(0x48, a, b)
    ensures Compare32(0x4d, a, b) == !Compare32(0x4b, a, b) && Compare32(0x4f, a, b) == !Compare32(0x49, a, b)
    ensures Compare32(0x4a, a, b) == Compare32(0x48, b, a) && Compare32(0x4b, a, b) == Compare32(0x49, b, a)
    ensures (a < 0) == (b < 0) ==> Compare32(0x48, a, b) == Compare32(0x49, a, b)
    ensures a < 0 <= b ==> !Compare32(0x49, a, b) && Compare32(0x49, b, a)
  {
  }

  lemma ComparisonsAreOrders64(c: i64, d: i64)
    ensures Compare64(0x51, c, d) == (c == d) && Compare64(0x52, c, d) == !Compare64(0x51, c, d)
    ensures Compare64(0x53, c, d) == (c < d)
    ensures Compare64(0x57, c, d) == !Compare64(0x55, c, d) && Compare64(0x59, c, d) == !Compare64(0x53, c, d)
    ensures Compare64(0x58, c, d) == !Compare64(0x56, c, d) && Compare64(0x5a, c, d) == !Compare64(0x54, c, d)
    ensures Compare64(0x55, c, d) == Compare64(0x53, d, c) && Compare64(0x56, c, d) == Compare64(0x54, d, c)
    ensures (c < 0) == (d < 0) ==> Compare64(0x53, c, d) == Compare64(0x54, c, d)
    ensures c < 0 <= d ==> !Compare64(0x54, c, d) && Compare64(0x54, d, c)
  {
  }

  /** Widening and narrowing again is nothing; the signed widening keeps the value, the other its bits. */
  lemma NarrowingUndoesWidening(v: i32, stack: seq<Value>)
    ensures NumericStep(0xac, stack + [I32(v)]) == Ok(stack + [I64(v)])
    ensures NumericStep(0xad, stack + [I32(v)]) == Ok(stack + [I64(if v < 0 then v + TWO_32 else v)])
    ensures NumericStep(0xa7, stack + [I64(v)]) == Ok(stack + [I32(v)])
    ensures NumericStep(0xa7, stack + [I64(if v < 0 then v + TWO_32 else v)]) == Ok(stack + [I32(v)])
  {
    assert Pop(stack + [I32(v)]) == stack && Pop(stack + [I64(v)]) == stack;
    assert Pop(stack + [I64(if v < 0 then v + TWO_32 else v)]) == stack;
  }

  /**
   * Operands are not typed: one of the other width is read as the conversion instructions would
   * leave it, the wide one cut to its low half and the narrow one with its sign.
   */
  lemma WidthsConvert(opcode: byte, v: i32, w: i64, x: Value, stack: seq<Value>)
    requires IsNumeric(opcode) && opcode != 0x45 && opcode != 0x50 && opcode < 0xa7
    ensures var narrowed := NumericStep(0xa7, stack + [x] + [I64(w)]);
            narrowed.Ok? && (opcode <= 0x4f || 0x6a <= opcode <= 0x76 ==>
                               NumericStep(opcode, stack + [x] + [I64(w)]) == NumericStep(opcode, narrowed.value))
    ensures var widened := NumericStep(0xac, stack + [x] + [I32(v)]);
            widened.Ok? && (0x51 <= opcode <= 0x5a || 0x7c <= opcode ==>
                              NumericStep(opcode, stack + [x] + [I32(v)]) == NumericStep(opcode, widened.value))
  {
    hide NumericStep, Compare32, Compare64, Arithmetic32, Arithmetic64, Truth;
    NarrowingIsReading(x, v, w, stack);
    assert stack + [x] + [I64(w)] == stack + [x, I64(w)] && stack + [x] + [I32(v)] == stack + [x, I32(v)];
    assert stack + [x] + [I32(WrapI32(w))] == stack + [x, I32(WrapI32(w))] &&
      stack + [x] + [I64(v)] == stack + [x, I64(v)];
    AppliesToTwo(opcode, x, I64(w), stack);
    AppliesToTwo(opcode, x, I32(v), stack);
    AppliesToTwo(opcode, x, I32(WrapI32(w)), stack);
    AppliesToTwo(opcode, x, I64(v), stack);
  }

  lemma NarrowingIsReading(x: Value, v: i32, w: i64, stack: seq<Value>)
    ensures NumericStep(0xa7, stack + [x] + [I64(w)]) == Ok(stack + [x] + [I32(WrapI32(w))])
    ensures NumericStep(0xac, stack + [x] + [I32(v)]) == Ok(stack + [x] + [I64(v)])
  {
    assert Pop(stack + [x] + [I64(w)]) == stack + [x] && Pop(stack + [x] + [I32(v)]) == stack + [x];
  }

  /** Shifting right by the masked count divides, rounding down: with the sign, or without it. */
  lemma ShiftsDivide(a: i32, count: i32)
    ensures var scale := Pow2(ToU32(count) % 32);
            && (var s := Arithmetic32(0x75, a, count); s.Ok? && s.value * scale <= a < (s.value + 1) * scale)
            && (var u := Arithmetic32(0x76, a, count);
                u.Ok? && ToU32(u.value) * scale <= ToU32(a) < (ToU32(u.value) + 1) * scale)
  {
    hide Pow2, WrapI32, ToU32;
    var scale := Pow2(ToU32(count) % 32);
    RoundsDown(a, scale);
    RoundsDown(ToU32(a), scale);
    WrapKeepsRange(a / scale);
    WrapKeepsRange(ToU32(a) / scale);
  }

  lemma RoundsDown(a: int, scale: int)
    requires scale > 0
    ensures a / scale * scale <= a < (a / scale + 1) * scale
    ensures a >= 0 ==> 0 <= a / scale <= a
    ensures a < 0 ==> a <= a / scale < 0
  {
    var q := a / scale;
    assert a == q * scale + a % scale;
    assert (q + 1) * scale == q * scale + scale;
    ProductGrows(q, scale);
    ProductGrows(q + 1, scale);
  }
}
