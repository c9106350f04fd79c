/** Shared vocabulary: results, options, bytes, and powers of two. */
module Basics {

  datatype Option<+T> = None | Some(value: T) {
    predicate IsFailure() {
      None?
    }

    function PropagateFailure<U>(): Option<U>
      requires None?
    {
      None
    }

    function Extract(): T
      requires Some?
    {
      value
    }
  }

  datatype Result<+T, +E> = Ok(value: T) | Err(error: E) {
    predicate IsFailure() {
      Err?
    }

    function PropagateFailure<U>(): Result<U, E>
      requires Err?
    {
      Err(error)
    }

    function Extract(): T
      requires Ok?
    {
      value
    }
  }

  type byte = x: int | 0 <= x < 0x100

  const TWO_32: int := 0x1_0000_0000
  const TWO_63: int := 0x8000_0000_0000_0000
  const TWO_64: int := 0x1_0000_0000_0000_0000

  type u32 = x: int | 0 <= x < 0x1_0000_0000
  type u64 = x: int | 0 <= x < 0x1_0000_0000_0000_0000
  type i32 = x: int | -0x8000_0000 <= x < 0x8000_0000
  type i64 = x: int | -0x8000_0000_0000_0000 <= x < 0x8000_0000_0000_0000

  function Pow2(n: nat): (p: int)
    ensures p > 0
  {
    if n == 0 then 1 else 2 * Pow2(n - 1)
  }

  /** The two's-complement reading of the low 32 (64) bits of any integer. */
  function WrapI32(x: int): (r: i32)
    ensures (x - r) % 0x1_0000_0000 == 0
  {
    var u := x % 0x1_0000_0000;
    if u < 0x8000_0000 then u else u - TWO_32
  }

  function WrapI64(x: int): (r: i64)
    ensures (x - r) % 0x1_0000_0000_0000_0000 == 0
  {
    var u := x % 0x1_0000_0000_0000_0000;
    if u < TWO_63 then u else u - TWO_64
  }

  function ToU32(x: i32): (r: u32)
    ensures WrapI32(r) == x
  {
    x % 0x1_0000_0000
  }

  function ToU64(x: i64): (r: u64)
    ensures WrapI64(r) == x
  {
    x % 0x1_0000_0000_0000_0000
  }

  lemma ScaleLess(a: int, b: int, scale: int)
    requires scale > 0 && a <= b
    ensures a * scale <= b * scale
  {
  }

  lemma {:induction false} Pow2Add(a: nat, b: nat)
    ensures Pow2(a + b) == Pow2(a) * Pow2(b)
  {
    if b == 0 {
    } else {
      Pow2Add(a, b - 1);
      assert a + b - 1 == a + (b - 1);
    }
  }

  lemma Pow2Seven()
    ensures Pow2(7) == 128
  {
    assert Pow2(3) == 8;
  }

  lemma {:induction false} Pow2Monotone(a: nat, b: nat)
    requires a <= b
    ensures Pow2(a) <= Pow2(b)
  {
    if a < b {
      Pow2Monotone(a, b - 1);
    }
  }

  lemma Pow2At31()
    ensures Pow2(31) == 0x8000_0000 && Pow2(32) == TWO_32
  {
    assert Pow2(8) == 0x100;
    Pow2Add(8, 8);
    Pow2Add(16, 8);
    Pow2Add(24, 7);
    Pow2Seven();
  }

  lemma Pow2At63()
    ensures Pow2(63) == TWO_63 && Pow2(64) == TWO_64
  {
    Pow2At31();
    Pow2Add(32, 31);
  }

  function CeilDiv(n: nat, d: nat): (q: nat)
    requires d > 0
    ensures (q - 1) * d < n <= q * d || (n == 0 && q == 0)
  {
    (n + d - 1) / d
  }

  lemma MultiplesAreFar(d: int, m: int)
    requires m > 0
    ensures d >= 1 ==> d * m >= m
    ensures d <= -1 ==> d * m <= -m
    ensures d == 0 ==> d * m == 0
  {
    if d >= 1 {
      assert (d - 1) * m >= 0;
    } else if d <= -1 {
      assert (-d - 1) * m >= 0;
    }
  }

  function Repeat<T>(n: nat, x: T): (r: seq<T>)
    ensures |r| == n
    ensures forall i :: 0 <= i < n ==> r[i] == x
  {
    seq(n, _ => x)
  }

  /** Does `part` occur in `whole` starting at `at`? */
  predicate Holds<T(==)>(whole: seq<T>, at: nat, part: seq<T>) {
    at + |part| <= |whole| && whole[at..at + |part|] == part
  }

  lemma HoldsSplit<T>(whole: seq<T>, at: nat, left: seq<T>, right: seq<T>)
    ensures Holds(whole, at, left + right) <==> Holds(whole, at, left) && Holds(whole, at + |left|, right)
    ensures Holds(whole, at, left + right) ==> at + |left| + |right| <= |whole|
  {
    if Holds(whole, at, left + right) {
      var both := whole[at..at + |left| + |right|];
      assert both == left + right;
      assert whole[at..at + |left|] == both[..|left|] == left;
      assert whole[at + |left|..at + |left| + |right|] == both[|left|..] == right;
    }
  }

  // ----- little-endian integers -----

  function LeBytes(value: nat, width: nat): (out: seq<byte>)
    ensures |out| == width
  {
    if width == 0 then [] else [value % 0x100] + LeBytes(value / 0x100, width - 1)
  }

  function LeValue(bytes: seq<byte>): (value: nat)
    ensures value < Pow2(8 * |bytes|)
  {
    if bytes == [] then
      0
    else
      Pow2Add(8 * |bytes[1..]|, 8);
      assert Pow2(8) == 0x100;
      bytes[0] + 0x100 * LeValue(bytes[1..])
  }

  lemma {:induction false} LeRoundTrip(value: nat, width: nat)
    requires value < Pow2(8 * width)
    ensures LeValue(LeBytes(value, width)) == value
  {
    if width > 0 {
      Pow2Add(8 * (width - 1), 8);
      assert Pow2(8) == 0x100;
      LeRoundTrip(value / 0x100, width - 1);
      assert LeBytes(value, width)[1..] == LeBytes(value / 0x100, width - 1);
    }
  }

  lemma {:induction false} LeBytesOfValue(bytes: seq<byte>)
    ensures LeBytes(LeValue(bytes), |bytes|) == bytes
  {
    if bytes != [] {
      LeBytesOfValue(bytes[1..]);
    }
  }
}
