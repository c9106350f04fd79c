/** LEB128: the cursor that untrusted bytes meet first, and the encoders it must invert. */
module Leb {
  import opened Basics

  datatype Error = Truncated | Overlong | Malformed

  /** What one decoding step leaves behind: a value and the position after it. */
  datatype Read<+T> = Read(value: T, next: nat)

  function Byte(bytes: seq<byte>, at: nat): (r: Result<Read<byte>, Error>)
    ensures r.Ok? <==> at < |bytes|
    ensures r.Ok? ==> r.value.next == at + 1
  {
    if at < |bytes| then Ok(Read(bytes[at], at + 1)) else Err(Truncated)
  }

  /**
   * Unsigned LEB128 of at most `bits` bits, from the byte at `at` on, with `shift` bits already
   * gathered in `sum`. The source gathers with `|=` into a u64; the bits of `sum` lie below
   * `shift`, so that is an addition here.
   */
  function UnsignedFrom(bytes: seq<byte>, at: nat, bits: nat, shift: nat, sum: nat): (r: Result<Read<nat>, Error>)
    requires shift < bits + 7
    requires sum < Pow2(if shift < bits then shift else bits)
    ensures r.Ok? ==> at < r.value.next <= |bytes| && r.value.value < Pow2(bits)
    decreases bits + 7 - shift
  {
    if at >= |bytes| then
      Err(Truncated)
    else
      var payload := bytes[at] % 128;
      if shift >= bits && payload != 0 then
        Err(Overlong)
      else if shift < bits < shift + 7 && payload >= Pow2(bits - shift) then
        Err(Overlong)
      else
        GatherStays(bits, shift, sum, payload);
        var gathered := if shift >= bits then sum else sum + payload * Pow2(shift);
        if bytes[at] < 128 then
          Ok(Read(gathered, at + 1))
        else if shift + 7 >= bits + 7 then
          Err(Overlong)
        else
          UnsignedFrom(bytes, at + 1, bits, shift + 7, gathered)
  }

  lemma AddScaled(a: int, b: int, scale: int)
    ensures (a + b) * scale == a * scale + b * scale
  {
  }

  lemma AddOne(a: int, scale: int)
    ensures (a + 1) * scale == a * scale + scale
  {
  }

  lemma GatherStays(bits: nat, shift: nat, sum: nat, payload: nat)
    requires sum < Pow2(if shift < bits then shift else bits) && payload < 128
    requires shift >= bits ==> payload == 0
    requires shift < bits < shift + 7 ==> payload < Pow2(bits - shift)
    ensures shift < bits ==> sum + payload * Pow2(shift) < Pow2(if shift + 7 < bits then shift + 7 else bits)
    ensures shift < bits ==> sum + payload * Pow2(shift) < Pow2(bits)
  {
    if shift < bits {
      var room := if shift + 7 < bits then 7 else bits - shift;
      Pow2Seven();
      Pow2Add(shift, room);
      ScaleLess(payload + 1, Pow2(room), Pow2(shift));
      AddOne(payload, Pow2(shift));
      Pow2Monotone(shift + room, bits);
    }
  }

  function Unsigned(bytes: seq<byte>, at: nat, bits: nat): (r: Result<Read<nat>, Error>)
    ensures r.Ok? ==> at < r.value.next <= |bytes| && r.value.value < Pow2(bits)
  {
    UnsignedFrom(bytes, at, bits, 0, 0)
  }

  function U32(bytes: seq<byte>, at: nat): (r: Result<Read<u32>, Error>)
    ensures r.Ok? ==> at < r.value.next <= |bytes|
  {
    Pow2At31();
    var read :- Unsigned(bytes, at, 32);
    Ok(Read(read.value, read.next))
  }

  /** The value once the last byte is in: its sign bit, if it has a place, is spread upwards. */
  function Extended(gathered: int, payload: nat, shift: nat): i64 {
    WrapI64(if shift + 7 < 64 && payload >= 64 then gathered - Pow2(shift + 7) else gathered)
  }

  /**
   * Signed LEB128, sign-extended into an i64. `WrapI64` is the register width: only the tenth
   * byte of a 64-bit value can push bits out of it.
   */
  function SignedFrom(bytes: seq<byte>, at: nat, bits: nat, shift: nat, sum: int): (r: Result<Read<i64>, Error>)
    ensures r.Ok? ==> at < r.value.next <= |bytes|
    ensures r.Ok? && 1 <= bits < 64 ==> -Pow2(bits - 1) <= r.value.value < Pow2(bits - 1)
    decreases bits + 7 - shift
  {
    if at >= |bytes| then
      Err(Truncated)
    else if shift >= bits then
      Err(Overlong)
    else
      var payload := bytes[at] % 128;
      var gathered := sum + payload * Pow2(shift);
      if bytes[at] < 128 then
        var extended := Extended(gathered, payload, shift);
        if 1 <= bits < 64 && !(-Pow2(bits - 1) <= extended < Pow2(bits - 1)) then
          Err(Overlong)
        else
          Ok(Read(extended, at + 1))
      else
        SignedFrom(bytes, at + 1, bits, shift + 7, WrapI64(gathered))
  }

  function Signed(bytes: seq<byte>, at: nat, bits: nat): (r: Result<Read<i64>, Error>)
    ensures r.Ok? ==> at < r.value.next <= |bytes|
    ensures r.Ok? && 1 <= bits < 64 ==> -Pow2(bits - 1) <= r.value.value < Pow2(bits - 1)
  {
    SignedFrom(bytes, at, bits, 0, 0)
  }

  function I32(bytes: seq<byte>, at: nat): (r: Result<Read<i32>, Error>)
    ensures r.Ok? ==> at < r.value.next <= |bytes|
  {
    Pow2At31();
    var read :- Signed(bytes, at, 32);
    Ok(Read(read.value, read.next))
  }

  // ----- the encoders -----

  function EncodeUnsigned(value: nat): (out: seq<byte>)
    ensures |out| > 0
  {
    if value < 128 then [value] else [value % 128 + 128] + EncodeUnsigned(value / 128)
  }

  predicate LastSignedByte(value: int) {
    -64 <= value < 64
  }

  function EncodeSigned(value: int): (out: seq<byte>)
    ensures |out| > 0
    decreases if value < 0 then -value else value
  {
    if LastSignedByte(value) then [value % 128] else [value % 128 + 128] + EncodeSigned(value / 128)
  }

  /** The assembler's `unsigned`, which shifts its argument down in place. */
  method BuildUnsigned(start: u64) returns (out: seq<byte>)
    ensures out == EncodeUnsigned(start)
  {
    var value: nat := start;
    out := [];
    while true
      invariant EncodeUnsigned(start) == out + EncodeUnsigned(value)
      decreases value
    {
      var low := value % 128;
      var rest := value / 128;
      if rest != 0 {
        out := out + [low + 128];
      } else {
        out := out + [low];
        return;
      }
      value := rest;
    }
  }

  /** The assembler's `signed`: stop once the rest is nothing but copies of the sign bit. */
  method BuildSigned(start: i64) returns (out: seq<byte>)
    ensures out == EncodeSigned(start)
  {
    var value: int := start;
    out := [];
    while true
      invariant EncodeSigned(start) == out + EncodeSigned(value)
      decreases if value < 0 then -value else value
    {
      var low := value % 128;
      var rest := value / 128;
      var signBit := low >= 64;
      if (rest == 0 && !signBit) || (rest == -1 && signBit) {
        out := out + [low];
        return;
      }
      out := out + [low + 128];
      value := rest;
    }
  }

  // ----- decoding undoes encoding -----

  lemma SplitAtSeven(value: int, scale: int)
    ensures value * scale == (value % 128) * scale + (value / 128) * (128 * scale)
  {
    assert value == value % 128 + 128 * (value / 128);
    assert value * scale == (value % 128 + 128 * (value / 128)) * scale;
    assert (128 * (value / 128)) * scale == (value / 128) * (128 * scale);
  }

  lemma Pow2Zero()
    ensures Pow2(0) == 1
  {
  }

  lemma QuotientIsSmaller(value: nat, bound: nat)
    requires value < bound * 128
    ensures value / 128 < bound
  {
  }

  lemma {:induction false} UnsignedUndoesFrom(bytes: seq<byte>, at: nat, bits: nat, shift: nat, sum: nat, value: nat)
    requires shift <= bits && sum < Pow2(shift)
    requires value < Pow2(bits - shift)
    requires Holds(bytes, at, EncodeUnsigned(value))
    ensures sum < Pow2(if shift < bits then shift else bits)
    ensures UnsignedFrom(bytes, at, bits, shift, sum)
         == Ok(Read(sum + value * Pow2(shift), at + |EncodeUnsigned(value)|))
    decreases value
  {
    hide Pow2;
    var code := EncodeUnsigned(value);
    assert bytes[at] == code[0] by { assert bytes[at..at + |code|][0] == code[0]; }
    Pow2Seven();
    Pow2Zero();
    if value < 128 {
      if shift == bits {
        assert value == 0;
      }
    } else {
      if bits - shift <= 7 {
        Pow2Monotone(bits - shift, 7);
        assert false;
      }
      Pow2Add(bits - shift - 7, 7);
      Pow2Add(shift, 7);
      QuotientIsSmaller(value, Pow2(bits - shift - 7));
      SplitAtSeven(value, Pow2(shift));
      HoldsSplit(bytes, at, [value % 128 + 128], EncodeUnsigned(value / 128));
      GatherStays(bits, shift, sum, value % 128);
      UnsignedUndoesFrom(bytes, at + 1, bits, shift + 7, sum + (value % 128) * Pow2(shift), value / 128);
    }
  }

  /** Section 5.2.2 of the WebAssembly Core Specification: reading back what was written. */
  lemma UnsignedUndoes(bytes: seq<byte>, at: nat, bits: nat, value: nat)
    requires value < Pow2(bits)
    requires Holds(bytes, at, EncodeUnsigned(value))
    ensures Unsigned(bytes, at, bits) == Ok(Read(value, at + |EncodeUnsigned(value)|))
  {
    UnsignedUndoesFrom(bytes, at, bits, 0, 0, value);
  }

  lemma U32Undoes(bytes: seq<byte>, at: nat, value: u32)
    requires Holds(bytes, at, EncodeUnsigned(value))
    ensures U32(bytes, at) == Ok(Read(value, at + |EncodeUnsigned(value)|))
  {
    Pow2At31();
    UnsignedUndoes(bytes, at, 32, value);
  }

  lemma {:induction false} SignedUndoesFrom(bytes: seq<byte>, at: nat, bits: nat, shift: nat, sum: nat, value: int)
    requires 1 <= bits <= 64 && shift < bits && sum < Pow2(shift)
    requires -Pow2(bits - 1 - shift) <= value < Pow2(bits - 1 - shift)
    requires Holds(bytes, at, EncodeSigned(value))
    ensures -TWO_63 <= sum + value * Pow2(shift) < TWO_63
    ensures SignedFrom(bytes, at, bits, shift, sum)
         == Ok(Read(sum + value * Pow2(shift), at + |EncodeSigned(value)|))
    decreases bits - shift
  {
    var code := EncodeSigned(value);
    assert bytes[at] == code[0] by { assert bytes[at..at + |code|][0] == code[0]; }
    if LastSignedByte(value) {
      SignedStops(bytes, at, bits, shift, sum, value);
    } else {
      var gathered := sum + (value % 128) * Pow2(shift);
      MoreBytesFollow(bits, shift, sum, value);
      HoldsSplit(bytes, at, [value % 128 + 128], EncodeSigned(value / 128));
      SignedUndoesFrom(bytes, at + 1, bits, shift + 7, gathered, value / 128);
      SignedContinues(bytes, at, bits, shift, sum, value % 128, gathered);
    }
  }

  lemma SignedStops(bytes: seq<byte>, at: nat, bits: nat, shift: nat, sum: nat, value: int)
    requires 1 <= bits <= 64 && shift < bits && sum < Pow2(shift)
    requires LastSignedByte(value) && at < |bytes| && bytes[at] == value % 128
    requires -Pow2(bits - 1 - shift) <= value < Pow2(bits - 1 - shift)
    ensures -TWO_63 <= sum + value * Pow2(shift) < TWO_63
    ensures SignedFrom(bytes, at, bits, shift, sum) == Ok(Read(sum + value * Pow2(shift), at + 1))
  {
    hide Extended, Pow2;
    var payload := value % 128;
    assert bytes[at] % 128 == payload;
    LastByteExtends(bits, shift, sum, value, payload);
  }

  lemma SignedContinues(bytes: seq<byte>, at: nat, bits: nat, shift: nat, sum: int, payload: int, gathered: i64)
    requires at < |bytes| && shift < bits && 0 <= payload < 128 && bytes[at] == payload + 128
    requires gathered == sum + payload * Pow2(shift) && WrapI64(gathered) == gathered
    ensures SignedFrom(bytes, at, bits, shift, sum) == SignedFrom(bytes, at + 1, bits, shift + 7, gathered)
  {
    assert bytes[at] % 128 == payload;
  }

  /** A value too wide for one byte leaves room for the next one, and no bit is lost on the way. */
  lemma MoreBytesFollow(bits: nat, shift: nat, sum: nat, value: int)
    requires 1 <= bits <= 64 && shift < bits && sum < Pow2(shift)
    requires !LastSignedByte(value)
    requires -Pow2(bits - 1 - shift) <= value < Pow2(bits - 1 - shift)
    ensures shift + 7 < bits
    ensures var gathered := sum + (value % 128) * Pow2(shift);
            && 0 <= gathered < Pow2(shift + 7) && WrapI64(gathered) == gathered
            && gathered + (value / 128) * Pow2(shift + 7) == sum + value * Pow2(shift)
    ensures -Pow2(bits - 1 - (shift + 7)) <= value / 128 < Pow2(bits - 1 - (shift + 7))
  {
    RoomForSeven(bits - 1 - shift, value);
    Pow2Seven();
    Pow2Add(shift, 7);
    SplitAtSeven(value, Pow2(shift));
    GatheredFits(shift, sum, value % 128);
  }

  lemma RoomForSeven(room: nat, value: int)
    requires !LastSignedByte(value) && -Pow2(room) <= value < Pow2(room)
    ensures room >= 7 && -Pow2(room - 7) <= value / 128 < Pow2(room - 7)
  {
    assert Pow2(6) == 64;
    if room <= 6 {
      Pow2Monotone(room, 6);
    }
    Pow2Seven();
    Pow2Add(room - 7, 7);
  }

  lemma GatheredFits(shift: nat, sum: nat, payload: nat)
    requires shift + 7 <= 63 && sum < Pow2(shift) && payload < 128
    ensures var gathered := sum + payload * Pow2(shift);
            0 <= gathered < Pow2(shift + 7) && WrapI64(gathered) == gathered
  {
    hide Pow2, WrapI64;
    var gathered := sum + payload * Pow2(shift);
    PayloadFits(shift, sum, payload);
    Pow2At63();
    Pow2Monotone(shift + 7, 63);
    WrapDropsMultiples(gathered, 0);
  }

  lemma PayloadFits(shift: nat, sum: nat, payload: nat)
    requires sum < Pow2(shift) && payload < 128
    ensures 0 <= sum + payload * Pow2(shift) < Pow2(shift + 7)
  {
    hide Pow2;
    Pow2Seven();
    Pow2Add(shift, 7);
    ScaleLess(payload + 1, 128, Pow2(shift));
    AddOne(payload, Pow2(shift));
  }

  lemma TotalFits(bits: nat, shift: nat, sum: nat, value: int)
    requires 1 <= bits <= 64 && shift < bits && sum < Pow2(shift)
    requires -Pow2(bits - 1 - shift) <= value < Pow2(bits - 1 - shift)
    ensures -Pow2(bits - 1) <= sum + value * Pow2(shift) < Pow2(bits - 1)
  {
    Pow2Add(shift, bits - 1 - shift);
    ScaleLess(value + 1, Pow2(bits - 1 - shift), Pow2(shift));
    ScaleLess(-Pow2(bits - 1 - shift), value, Pow2(shift));
    AddOne(value, Pow2(shift));
  }

  /** The final byte, sign-extended: its bit 6 stands for every bit above it. */
  lemma LastByteExtends(bits: nat, shift: nat, sum: nat, value: int, payload: int)
    requires 1 <= bits <= 64 && shift < bits && sum < Pow2(shift)
    requires LastSignedByte(value) && payload == value % 128
    requires -Pow2(bits - 1 - shift) <= value < Pow2(bits - 1 - shift)
    ensures -Pow2(bits - 1) <= sum + value * Pow2(shift) < Pow2(bits - 1) <= TWO_63
    ensures Extended(sum + payload * Pow2(shift), payload, shift) == sum + value * Pow2(shift)
  {
    TotalFits(bits, shift, sum, value);
    Pow2At63();
    Pow2Monotone(bits - 1, 63);
    var total: i64 := sum + value * Pow2(shift);
    if value >= 0 {
      assert payload == value;
      WrapDropsMultiples(total, 0);
    } else {
      SignBitWeighs(shift, sum, value);
      if shift + 7 < 64 {
        WrapDropsMultiples(total, 0);
      } else {
        Pow2Add(64, shift + 7 - 64);
        WrapDropsMultiples(total, Pow2(shift + 7 - 64));
      }
    }
  }

  lemma SignBitWeighs(shift: nat, sum: nat, value: int)
    requires -64 <= value < 0
    ensures value % 128 == value + 128
    ensures sum + (value % 128) * Pow2(shift) == sum + value * Pow2(shift) + Pow2(shift + 7)
  {
    AddScaled(value, 128, Pow2(shift));
    Pow2Seven();
    Pow2Add(shift, 7);
  }

  lemma WrapDropsMultiples(x: i64, times: int)
    ensures WrapI64(x + TWO_64 * times) == x
  {
    assert (x + TWO_64 * times) % 0x1_0000_0000_0000_0000 == x % 0x1_0000_0000_0000_0000;
  }

  lemma SignedUndoes(bytes: seq<byte>, at: nat, bits: nat, value: int)
    requires 1 <= bits <= 64
    requires -Pow2(bits - 1) <= value < Pow2(bits - 1)
    requires Holds(bytes, at, EncodeSigned(value))
    ensures Signed(bytes, at, bits) == Ok(Read(value, at + |EncodeSigned(value)|))
  {
    SignedUndoesFrom(bytes, at, bits, 0, 0, value);
  }

  lemma I32Undoes(bytes: seq<byte>, at: nat, value: i32)
    requires Holds(bytes, at, EncodeSigned(value))
    ensures I32(bytes, at) == Ok(Read(value, at + |EncodeSigned(value)|))
  {
    Pow2At31();
    SignedUndoes(bytes, at, 32, value);
  }

  lemma I64Undoes(bytes: seq<byte>, at: nat, value: i64)
    requires Holds(bytes, at, EncodeSigned(value))
    ensures Signed(bytes, at, 64) == Ok(Read(value, at + |EncodeSigned(value)|))
  {
    Pow2At63();
    SignedUndoes(bytes, at, 64, value);
  }

  /** Reading 32 bits is reading 35, except that the result must fit: both stop after five bytes. */
  lemma {:induction false} NarrowRead(bytes: seq<byte>, at: nat, shift: nat, sum: int)
    requires shift % 7 == 0 && shift <= 28
    requires SignedFrom(bytes, at, 35, shift, sum).Ok?
    ensures var wide := SignedFrom(bytes, at, 35, shift, sum).value;
            SignedFrom(bytes, at, 32, shift, sum)
              == if -Pow2(31) <= wide.value < Pow2(31) then Ok(wide) else Err(Overlong)
    decreases 35 - shift
  {
    if bytes[at] >= 128 && shift < 28 {
      NarrowRead(bytes, at + 1, shift + 7, WrapI64(sum + (bytes[at] % 128) * Pow2(shift)));
    }
  }

  lemma I32Refuses(bytes: seq<byte>, at: nat, value: u32)
    requires value >= 0x8000_0000
    requires Holds(bytes, at, EncodeSigned(value))
    ensures I32(bytes, at) == Err(Overlong)
  {
    Pow2At31();
    Pow2Monotone(32, 34);
    SignedUndoes(bytes, at, 35, value);
    NarrowRead(bytes, at, 0, 0);
  }

  /** The cursor over module bytes. Every read is checked against the bytes it was given. */
  class Reader {
    const bytes: seq<byte>
    var position: nat

    constructor (bytes: seq<byte>)
      ensures this.bytes == bytes && position == 0
    {
      this.bytes := bytes;
      position := 0;
    }

    method Seek(target: nat) returns (r: Result<(), Error>)
      modifies this
      ensures r == if target <= |bytes| then Ok(()) else Err(Truncated)
      ensures position == if r.Ok? then target else old(position)
    {
      if target > |bytes| {
        return Err(Truncated);
      }
      position := target;
      return Ok(());
    }

    method ReadByte() returns (r: Result<byte, Error>)
      modifies this
      ensures r.Ok? <==> Byte(bytes, old(position)).Ok?
      ensures r.Ok? ==> Byte(bytes, old(position)) == Ok(Read(r.value, position))
      ensures r.Err? ==> r.error == Truncated && position == old(position)
    {
      if position >= |bytes| {
        return Err(Truncated);
      }
      r := Ok(bytes[position]);
      position := position + 1;
    }

    method ReadSlice(length: nat) returns (r: Result<seq<byte>, Error>)
      modifies this
      ensures r.Ok? <==> old(position) + length <= |bytes|
      ensures r.Ok? ==> r.value == bytes[old(position)..old(position) + length] && position == old(position) + length
      ensures r.Err? ==> r.error == Truncated && position == old(position)
    {
      if position + length > |bytes| {
        return Err(Truncated);
      }
      r := Ok(bytes[position..position + length]);
      position := position + length;
    }

    method ReadUnsigned(bits: nat) returns (r: Result<nat, Error>)
      modifies this
      ensures r.Ok? ==> Unsigned(bytes, old(position), bits) == Ok(Read(r.value, position))
      ensures r.Err? ==> Unsigned(bytes, old(position), bits) == Err(r.error)
    {
      var sum: nat := 0;
      var shift: nat := 0;
      ghost var answer := Unsigned(bytes, position, bits);
      while true
        invariant shift < bits + 7 && sum < Pow2(if shift < bits then shift else bits)
        invariant answer == UnsignedFrom(bytes, position, bits, shift, sum)
        decreases bits + 7 - shift
      {
        var next :- ReadByte();
        var payload := next % 128;
        if shift >= bits {
          if payload != 0 {
            return Err(Overlong);
          }
        } else {
          if shift + 7 > bits && payload >= Pow2(bits - shift) {
            return Err(Overlong);
          }
          GatherStays(bits, shift, sum, payload);
          sum := sum + payload * Pow2(shift);
        }
        if next < 128 {
          return Ok(sum);
        }
        shift := shift + 7;
        if shift >= bits + 7 {
          return Err(Overlong);
        }
      }
    }

    method ReadSigned(bits: nat) returns (r: Result<i64, Error>)
      modifies this
      ensures r.Ok? ==> Signed(bytes, old(position), bits) == Ok(Read(r.value, position))
      ensures r.Err? ==> Signed(bytes, old(position), bits) == Err(r.error)
    {
      var sum: i64 := 0;
      var shift: nat := 0;
      ghost var answer := Signed(bytes, position, bits);
      while true
        invariant answer == SignedFrom(bytes, position, bits, shift, sum)
        decreases bits + 7 - shift
      {
        var next :- ReadByte();
        if shift >= bits {
          return Err(Overlong);
        }
        var payload := next % 128;
        var gathered := sum + payload * Pow2(shift);
        shift := shift + 7;
        if next < 128 {
          var extended := WrapI64(if shift < 64 && payload >= 64 then gathered - Pow2(shift) else gathered);
          if 1 <= bits < 64 {
            var limit := Pow2(bits - 1);
            if extended >= limit || extended < -limit {
              return Err(Overlong);
            }
          }
          return Ok(extended);
        }
        sum := WrapI64(gathered);
      }
    }

    method ReadU32() returns (r: Result<u32, Error>)
      modifies this
      ensures r.Ok? ==> U32(bytes, old(position)) == Ok(Read(r.value, position))
      ensures r.Err? ==> U32(bytes, old(position)) == Err(r.error)
    {
      Pow2At31();
      var value :- ReadUnsigned(32);
      return Ok(value);
    }
  }
}
