/**
 * More laws of numbers: multiplication, the bitwise operations, shifts to the left, and for 64-bit
 * operands what `WasmLaws` says of 32-bit ones.
 */
module WasmNumberLaws {
  import opened Basics
  import opened WasmSyntax
  import opened WasmNumeric
  import opened WasmLaws

  // ----- two operands on the stack -----

  /** Comparisons and arithmetic take the two operands on top, the right one last, and leave one value. */
  lemma TwoOperands(opcode: byte, a: i32, b: i32, c: i64, d: i64, stack: seq<Value>)
    ensures 0x46 <= opcode <= 0x4f ==>
              NumericStep(opcode, stack + [I32(a), I32(b)])
                == Ok(stack + [I32(if Compare32(opcode, a, b) then 1 else 0)])
    ensures 0x51 <= opcode <= 0x5a ==>
              NumericStep(opcode, stack + [I64(c), I64(d)])
                == Ok(stack + [I32(if Compare64(opcode, c, d) then 1 else 0)])
    ensures 0x6a <= opcode <= 0x76 ==>
              var value := Arithmetic32(opcode, a, b);
              NumericStep(opcode, stack + [I32(a), I32(b)])
                == if value.Ok? then Ok(stack + [I32(value.value)]) else Err(value.error)
    ensures 0x7c <= opcode <= 0x88 ==>
              var value := Arithmetic64(opcode, c, d);
              NumericStep(opcode, stack + [I64(c), I64(d)])
                == if value.Ok? then Ok(stack + [I64(value.value)]) else Err(value.error)
  {
    hide NumericStep, Compare32, Compare64, Arithmetic32, Arithmetic64;
    if 0x46 <= opcode <= 0x4f || 0x6a <= opcode <= 0x76 {
      AppliesToTwo(opcode, I32(a), I32(b), stack);
    } else if 0x51 <= opcode <= 0x5a || 0x7c <= opcode <= 0x88 {
      AppliesToTwo(opcode, I64(c), I64(d), stack);
    }
  }

  /** With fewer operands than it takes, an instruction faults; zero tests are comparisons with zero. */
  lemma ZeroTestsCompare(opcode: byte, v: i32, w: i64, x: Value, stack: seq<Value>)
    requires IsNumeric(opcode)
    ensures NumericStep(0x45, stack + [I32(v)]) == NumericStep(0x46, stack + [I32(v), I32(0)])
    ensures NumericStep(0x50, stack + [I64(w)]) == NumericStep(0x51, stack + [I64(w), I64(0)])
    ensures NumericStep(opcode, []) == Err(Faulted)
    ensures NumericStep(opcode, [x]) == Err(Faulted) <==> opcode !in {0x45, 0x50, 0xa7, 0xac, 0xad}
  {
    TwoOperands(0x46, v, 0, w, 0, stack);
    TwoOperands(0x51, v, 0, w, 0, stack);
    assert Pop(stack + [I32(v)]) == stack && Pop(stack + [I64(w)]) == stack;
  }

  // ----- multiplication -----

  lemma WrapsInStages(x: int, y: int)
    ensures WrapI32(WrapI32(x) + y) == WrapI32(x + y)
    ensures WrapI64(WrapI64(x) + y) == WrapI64(x + y)
  {
    Same32(WrapI32(x) + y, x + y, WrapI32(x) - x);
    Same64(WrapI64(x) + y, x + y, WrapI64(x) - x);
  }

  lemma Same32(x: int, y: int, gap: int)
    requires x - y == gap && -gap % 0x1_0000_0000 == 0
    ensures WrapI32(x) == WrapI32(y)
  {
    assert x == y - -gap / 0x1_0000_0000 * 0x1_0000_0000;
  }

  lemma Same64(x: int, y: int, gap: int)
    requires x - y == gap && -gap % 0x1_0000_0000_0000_0000 == 0
    ensures WrapI64(x) == WrapI64(y)
  {
    assert x == y - -gap / 0x1_0000_0000_0000_0000 * 0x1_0000_0000_0000_0000;
  }

  /** Multiplication is repeated addition, across every wrap and for operands of either sign. */
  lemma MultiplicationRepeatsAddition(a: i32, b: i32, c: i64, d: i64)
    ensures Arithmetic32(0x6c, a, 0) == Ok(0) && Arithmetic64(0x7e, c, 0) == Ok(0)
    ensures b < 0x7fff_ffff ==>
              var product := Arithmetic32(0x6c, a, b);
              product.Ok? && Arithmetic32(0x6c, a, b + 1) == Arithmetic32(0x6a, product.value, a)
    ensures d < 0x7fff_ffff_ffff_ffff ==>
              var product := Arithmetic64(0x7e, c, d);
              product.Ok? && Arithmetic64(0x7e, c, d + 1) == Arithmetic64(0x7c, product.value, c)
  {
    Distributes(a, b);
    Distributes(c, d);
    WrapsInStages(a * b, a);
    WrapsInStages(c * d, c);
    assert WrapI32(0) == 0 && WrapI64(0) == 0;
    hide WrapI32, WrapI64, ToU32, ToU64, Pow2, TruncatedQuotient, TruncatedRemainder;
  }

  lemma Distributes(a: int, b: int)
    ensures a * (b + 1) == a * b + a && a * 0 == 0
  {
  }

  // ----- bits -----

  /** The bit in place `k`, counted from the low end. */
  predicate Bit(x: nat, k: nat) {
    x / Pow2(k) % 2 == 1
  }

  lemma NextPlace(x: nat, low: nat, k: nat)
    requires low <= 1
    ensures Bit(low + 2 * x, 0) == (low == 1) && Bit(low + 2 * x, k + 1) == Bit(x, k)
  {
    assert Pow2(0) == 1 && Pow2(k + 1) == 2 * Pow2(k);
    HalvesFirst(low + 2 * x, Pow2(k));
    hide Pow2;
  }

  lemma HalvesFirst(x: nat, power: int)
    requires power > 0
    ensures x / (2 * power) == x / 2 / power
  {
    var q := x / 2 / power;
    assert x / 2 == q * power + x / 2 % power;
    assert x == q * (2 * power) + (2 * (x / 2 % power) + x % 2);
    QuotientIs(x, 2 * power, q, 2 * (x / 2 % power) + x % 2);
  }

  lemma QuotientIs(x: nat, d: int, q: int, r: int)
    requires d > 0 && x == q * d + r && 0 <= r < d
    ensures x / d == q
  {
    var gap := x / d - q;
    assert x == x / d * d + x % d;
    assert gap * d == r - x % d;
    MultiplesAreFar(gap, d);
  }

  lemma {:induction false} CombinedBit(rule: Bitwise, l: nat, r: nat, width: nat, k: nat)
    requires k < width
    ensures Bit(Combine(rule, l, r, width), k) == rule.Of(Bit(l, k), Bit(r, k))
  {
    hide Bit;
    NextPlace(l / 2, l % 2, if k == 0 then 0 else k - 1);
    NextPlace(r / 2, r % 2, if k == 0 then 0 else k - 1);
    NextPlace(Combine(rule, l / 2, r / 2, width - 1), if rule.Of(l % 2 == 1, r % 2 == 1) then 1 else 0,
      if k == 0 then 0 else k - 1);
    if k > 0 {
      CombinedBit(rule, l / 2, r / 2, width - 1, k - 1);
    }
  }

  lemma ReadsBack(x: u32, y: u64)
    ensures ToU32(WrapI32(x)) == x && ToU64(WrapI64(y)) == y
  {
  }

  lemma CombinedReadsBack(rule: Bitwise, a: i32, b: i32, c: i64, d: i64)
    ensures ToU32(WrapI32(Combine(rule, ToU32(a), ToU32(b), 32))) == Combine(rule, ToU32(a), ToU32(b), 32)
    ensures ToU64(WrapI64(Combine(rule, ToU64(c), ToU64(d), 64))) == Combine(rule, ToU64(c), ToU64(d), 64)
  {
    hide ToU32, ToU64, WrapI32, WrapI64, Combine, Pow2;
    Pow2At31();
    Pow2At63();
    ReadsBack(Combine(rule, ToU32(a), ToU32(b), 32), Combine(rule, ToU64(c), ToU64(d), 64));
  }

  predicate Bit32(v: i32, k: nat) {
    Bit(ToU32(v), k)
  }

  predicate Bit64(v: i64, k: nat) {
    Bit(ToU64(v), k)
  }

  /** Each bit of what a bitwise operation gives depends on the two bits in its place. */
  lemma BitwiseBitByBit32(a: i32, b: i32, k: nat)
    requires k < 32
    ensures var r := Arithmetic32(0x71, a, b); r.Ok? && (Bit32(r.value, k) <==> Bit32(a, k) && Bit32(b, k))
    ensures var r := Arithmetic32(0x72, a, b); r.Ok? && (Bit32(r.value, k) <==> Bit32(a, k) || Bit32(b, k))
    ensures var r := Arithmetic32(0x73, a, b); r.Ok? && (Bit32(r.value, k) <==> Bit32(a, k) != Bit32(b, k))
  {
    hide ToU32, WrapI32, Pow2, TruncatedQuotient, TruncatedRemainder, Combine, Bit;
    CombinedReadsBack(And, a, b, 0, 0);
    CombinedReadsBack(Or, a, b, 0, 0);
    CombinedReadsBack(Xor, a, b, 0, 0);
    CombinedBit(And, ToU32(a), ToU32(b), 32, k);
    CombinedBit(Or, ToU32(a), ToU32(b), 32, k);
    CombinedBit(Xor, ToU32(a), ToU32(b), 32, k);
  }

  lemma BitwiseBitByBit64(a: i64, b: i64, k: nat)
    requires k < 64
    ensures var r := Arithmetic64(0x83, a, b); r.Ok? && (Bit64(r.value, k) <==> Bit64(a, k) && Bit64(b, k))
    ensures var r := Arithmetic64(0x84, a, b); r.Ok? && (Bit64(r.value, k) <==> Bit64(a, k) || Bit64(b, k))
    ensures var r := Arithmetic64(0x85, a, b); r.Ok? && (Bit64(r.value, k) <==> Bit64(a, k) != Bit64(b, k))
  {
    hide ToU64, WrapI64, Pow2, TruncatedQuotient, Combine, Bit;
    CombinedReadsBack(And, 0, 0, a, b);
    CombinedReadsBack(Or, 0, 0, a, b);
    CombinedReadsBack(Xor, 0, 0, a, b);
    CombinedBit(And, ToU64(a), ToU64(b), 64, k);
    CombinedBit(Or, ToU64(a), ToU64(b), 64, k);
    CombinedBit(Xor, ToU64(a), ToU64(b), 64, k);
  }

  // ----- shifts -----

  /** Shifting left by a masked count of zero is nothing, and by one more doubles what was shifted. */
  lemma LeftShiftsDouble32(a: i32, count: i32)
    ensures ToU32(count) % 32 == 0 ==> Arithmetic32(0x74, a, count) == Ok(a)
    ensures ToU32(count) % 32 < 31 ==>
              var s := Arithmetic32(0x74, a, count);
              s.Ok? && count < 0x7fff_ffff && Arithmetic32(0x74, a, count + 1) == Arithmetic32(0x6a, s.value, s.value)
  {
    hide Arithmetic32, WrapI32, ToU32, Pow2;
    NextCount32(count);
    LeftShift32(a, count);
    if ToU32(count) % 32 < 31 {
      LeftShift32(a, count + 1);
      DoubledPower(a, ToU32(count) % 32);
    }
    NoPlaces(a, a);
  }

  lemma LeftShiftsDouble64(a: i64, count: i64)
    ensures ToU64(count) % 64 == 0 ==> Arithmetic64(0x86, a, count) == Ok(a)
    ensures ToU64(count) % 64 < 63 ==>
              var s := Arithmetic64(0x86, a, count);
              && s.Ok? && count < 0x7fff_ffff_ffff_ffff
              && Arithmetic64(0x86, a, count + 1) == Arithmetic64(0x7c, s.value, s.value)
  {
    hide Arithmetic64, WrapI64, ToU64, Pow2;
    NextCount64(count);
    LeftShift64(a, count);
    if ToU64(count) % 64 < 63 {
      LeftShift64(a, count + 1);
      DoubledPower(a, ToU64(count) % 64);
    }
    NoPlaces(a, a);
  }

  lemma LeftShift32(a: i32, count: i32)
    ensures Arithmetic32(0x74, a, count) == Ok(WrapI32(a * Pow2(ToU32(count) % 32)))
    ensures var s := WrapI32(a * Pow2(ToU32(count) % 32)); Arithmetic32(0x6a, s, s) == Ok(WrapI32(s + s))
  {
    hide WrapI32, ToU32, Pow2, TruncatedQuotient, TruncatedRemainder, Combine;
  }

  lemma NextCount32(count: i32)
    ensures ToU32(count) % 32 < 31 ==> count < 0x7fff_ffff && ToU32(count + 1) % 32 == ToU32(count) % 32 + 1
  {
  }

  lemma LeftShift64(a: i64, count: i64)
    ensures Arithmetic64(0x86, a, count) == Ok(WrapI64(a * Pow2(ToU64(count) % 64)))
    ensures var s := WrapI64(a * Pow2(ToU64(count) % 64)); Arithmetic64(0x7c, s, s) == Ok(WrapI64(s + s))
  {
    hide WrapI64, ToU64, Pow2, TruncatedQuotient, Combine;
  }

  lemma NextCount64(count: i64)
    ensures ToU64(count) % 64 < 63 ==>
              count < 0x7fff_ffff_ffff_ffff && ToU64(count + 1) % 64 == ToU64(count) % 64 + 1
  {
  }

  lemma NoPlaces(x: int, y: int)
    ensures -0x8000_0000 <= x < 0x8000_0000 ==> WrapI32(x * Pow2(0)) == x
    ensures -TWO_63 <= y < TWO_63 ==> WrapI64(y * Pow2(0)) == y
  {
    assert Pow2(0) == 1;
  }

  lemma DoubledPower(a: int, count: nat)
    ensures WrapI32(a * Pow2(count + 1)) == WrapI32(WrapI32(a * Pow2(count)) + WrapI32(a * Pow2(count)))
    ensures WrapI64(a * Pow2(count + 1)) == WrapI64(WrapI64(a * Pow2(count)) + WrapI64(a * Pow2(count)))
  {
    var x := a * Pow2(count);
    Doubles(a, Pow2(count));
    WrapsInStages(x, x);
    WrapsInStages(x, WrapI32(x));
    WrapsInStages(x, WrapI64(x));
    hide WrapI32, WrapI64;
  }

  lemma Doubles(a: int, power: int)
    ensures a * (2 * power) == a * power + a * power
  {
  }

  /** The right shifts of 64-bit values divide as those of 32-bit values do. */
  lemma ShiftsDivide64(a: i64, count: i64)
    ensures var scale := Pow2(ToU64(count) % 64);
            && (var s := Arithmetic64(0x87, a, count); s.Ok? && s.value * scale <= a < (s.value + 1) * scale)
            && (var u := Arithmetic64(0x88, a, count);
                u.Ok? && ToU64(u.value) * scale <= ToU64(a) < (ToU64(u.value) + 1) * scale)
  {
    hide Pow2, WrapI64, ToU64;
    var scale := Pow2(ToU64(count) % 64);
    RoundsDown(a, scale);
    RoundsDown(ToU64(a), scale);
    WrapKeepsRange64(a / scale);
    WrapKeepsRange64(ToU64(a) / scale);
  }

  lemma WrapKeepsRange64(x: int)
    ensures -TWO_63 <= x < TWO_63 ==> WrapI64(x) == x
    ensures 0 <= x < TWO_64 ==> ToU64(WrapI64(x)) == x
  {
  }

  // ----- 64-bit division -----

  /** Signed division traps exactly on zero and goes toward zero, but for the one quotient that wraps. */
  lemma SignedDivision64(left: i64, right: i64)
    ensures Arithmetic64(0x7f, left, right).Err? <==> right == 0
    ensures right != 0 && !(left == -TWO_63 && right == -1) ==>
              var q := Arithmetic64(0x7f, left, right).value;
              Divides(left, right, q, left - q * right)
    ensures left == -TWO_63 && right == -1 ==> Arithmetic64(0x7f, left, right) == Ok(left)
  {
    hide TruncatedQuotient, WrapI64, ToU64;
    if right != 0 {
      TruncationDivides(left, right);
      QuotientIsSmall(left, right, TWO_63);
      WrapKeepsRange64(TruncatedQuotient(left, right));
      OneWrap64();
    }
  }

  lemma OneWrap64()
    ensures WrapI64(TWO_63) == -TWO_63 && TruncatedQuotient(-TWO_63, -1) == TWO_63
  {
  }

  lemma UnsignedDivision64(left: i64, right: i64)
    ensures Arithmetic64(0x80, left, right).Err? <==> right == 0
    ensures right != 0 ==>
              var (l, r) := (ToU64(left), ToU64(right));
              var q := ToU64(Arithmetic64(0x80, left, right).value);
              Divides(l, r, q, l - q * r)
  {
    if right != 0 {
      var (l, r) := (ToU64(left), ToU64(right));
      QuotientOfNaturals(l, r);
      WrapKeepsRange64(l / r);
      assert l % r == l - l / r * r;
      hide Divides, WrapI64, ToU64;
    }
  }
}
