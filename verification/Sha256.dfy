/** SHA-256 as a machine that takes its message in pieces, and FIPS 180-4 as the function of the whole. */
module Sha256 {
  import opened Basics

  const BLOCK_BYTES: nat := 64
  const DIGEST_BYTES: nat := 32

  function RoundConstant(index: nat): u32
    requires index < 64
  {
    if index < 16 then (
      match index
      case 0 => 0x428a_2f98 case 1 => 0x7137_4491 case 2 => 0xb5c0_fbcf case 3 => 0xe9b5_dba5
      case 4 => 0x3956_c25b case 5 => 0x59f1_11f1 case 6 => 0x923f_82a4 case 7 => 0xab1c_5ed5
      case 8 => 0xd807_aa98 case 9 => 0x1283_5b01 case 10 => 0x2431_85be case 11 => 0x550c_7dc3
      case 12 => 0x72be_5d74 case 13 => 0x80de_b1fe case 14 => 0x9bdc_06a7 case _ => 0xc19b_f174)
    else if index < 32 then (
      match index
      case 16 => 0xe49b_69c1 case 17 => 0xefbe_4786 case 18 => 0x0fc1_9dc6 case 19 => 0x240c_a1cc
      case 20 => 0x2de9_2c6f case 21 => 0x4a74_84aa case 22 => 0x5cb0_a9dc case 23 => 0x76f9_88da
      case 24 => 0x983e_5152 case 25 => 0xa831_c66d case 26 => 0xb003_27c8 case 27 => 0xbf59_7fc7
      case 28 => 0xc6e0_0bf3 case 29 => 0xd5a7_9147 case 30 => 0x06ca_6351 case _ => 0x1429_2967)
    else if index < 48 then (
      match index
      case 32 => 0x27b7_0a85 case 33 => 0x2e1b_2138 case 34 => 0x4d2c_6dfc case 35 => 0x5338_0d13
      case 36 => 0x650a_7354 case 37 => 0x766a_0abb case 38 => 0x81c2_c92e case 39 => 0x9272_2c85
      case 40 => 0xa2bf_e8a1 case 41 => 0xa81a_664b case 42 => 0xc24b_8b70 case 43 => 0xc76c_51a3
      case 44 => 0xd192_e819 case 45 => 0xd699_0624 case 46 => 0xf40e_3585 case _ => 0x106a_a070)
    else
      match index
      case 48 => 0x19a4_c116 case 49 => 0x1e37_6c08 case 50 => 0x2748_774c case 51 => 0x34b0_bcb5
      case 52 => 0x391c_0cb3 case 53 => 0x4ed8_aa4a case 54 => 0x5b9c_ca4f case 55 => 0x682e_6ff3
      case 56 => 0x748f_82ee case 57 => 0x78a5_636f case 58 => 0x84c8_7814 case 59 => 0x8cc7_0208
      case 60 => 0x90be_fffa case 61 => 0xa450_6ceb case 62 => 0xbef9_a3f7 case _ => 0xc671_78f2
  }

  const INITIAL_STATE: State := State(
    0x6a09e667, 0xbb67ae85, 0x3c6ef372, 0xa54ff53a, 0x510e527f, 0x9b05688c, 0x1f83d9ab, 0x5be0cd19)

  datatype State = State(a: u32, b: u32, c: u32, d: u32, e: u32, f: u32, g: u32, h: u32)

  // ----- words: numbers to add, bits to mix -----

  type Word = bv32

  function Bits(x: u32): Word {
    x as bv32
  }

  function Number(x: Word): u32 {
    x as int
  }

  function Add(x: int, y: int): u32 {
    (x + y) % 0x1_0000_0000
  }

  function ShiftRight(x: Word, n: bv6): Word
    requires n <= 32
  {
    x >> n
  }

  function RotateRight(x: Word, n: bv6): Word
    requires n <= 32
  {
    (x >> n) | (x << (32 - n))
  }

  function BigEndianWord(b0: byte, b1: byte, b2: byte, b3: byte): u32 {
    ((b0 * 0x100 + b1) * 0x100 + b2) * 0x100 + b3
  }

  function WordBytes(x: u32): (r: seq<byte>)
    ensures |r| == 4
  {
    [x / 0x100_0000, x / 0x1_0000 % 0x100, x / 0x100 % 0x100, x % 0x100]
  }

  // ----- mixing (section 4.1.2 of FIPS 180-4) -----

  function Parity(x: Word, y: Word, z: Word): Word {
    x ^ y ^ z
  }

  function SmallSigma0(x: Word): Word {
    Parity(RotateRight(x, 7), RotateRight(x, 18), ShiftRight(x, 3))
  }

  function SmallSigma1(x: Word): Word {
    Parity(RotateRight(x, 17), RotateRight(x, 19), ShiftRight(x, 10))
  }

  function BigSigma0(x: Word): Word {
    Parity(RotateRight(x, 2), RotateRight(x, 13), RotateRight(x, 22))
  }

  function BigSigma1(x: Word): Word {
    Parity(RotateRight(x, 6), RotateRight(x, 11), RotateRight(x, 25))
  }

  function Choose(e: Word, f: Word, g: Word): Word {
    (e & f) ^ (!e & g)
  }

  function Majority(a: Word, b: Word, c: Word): Word {
    (a & b) ^ (a & c) ^ (b & c)
  }

  // ----- one block (section 6.2.2 of FIPS 180-4) -----

  /** A word of the schedule from the four that it looks back at. */
  function NextWord(back16: u32, back15: u32, back7: u32, back2: u32): u32 {
    Add(Add(Add(back16, Number(SmallSigma0(Bits(back15)))), back7), Number(SmallSigma1(Bits(back2))))
  }

  /** The message schedule up to word `n`. */
  function Schedule(block: seq<byte>, n: nat): (w: seq<u32>)
    requires |block| == BLOCK_BYTES && n <= 64
    ensures |w| == n
  {
    if n == 0 then []
    else
      var w := Schedule(block, n - 1);
      var i := n - 1;
      if i < 16 then
        w + [BigEndianWord(block[4 * i], block[4 * i + 1], block[4 * i + 2], block[4 * i + 3])]
      else
        w + [NextWord(w[i - 16], w[i - 15], w[i - 7], w[i - 2])]
  }

  function Round(s: State, k: u32, w: u32): State {
    var s1 := Number(BigSigma1(Bits(s.e)));
    var choose := Number(Choose(Bits(s.e), Bits(s.f), Bits(s.g)));
    var temp1 := Add(Add(Add(Add(s.h, s1), choose), k), w);
    var s0 := Number(BigSigma0(Bits(s.a)));
    var majority := Number(Majority(Bits(s.a), Bits(s.b), Bits(s.c)));
    var temp2 := Add(s0, majority);
    State(Add(temp1, temp2), s.a, s.b, s.c, Add(s.d, temp1), s.e, s.f, s.g)
  }

  function Rounds(s: State, w: seq<u32>, n: nat): State
    requires |w| == 64 && n <= 64
  {
    if n == 0 then s else Round(Rounds(s, w, n - 1), RoundConstant(n - 1), w[n - 1])
  }

  function Sum(s: State, t: State): State {
    State(Add(s.a, t.a), Add(s.b, t.b), Add(s.c, t.c), Add(s.d, t.d), Add(s.e, t.e), Add(s.f, t.f), Add(s.g, t.g),
      Add(s.h, t.h))
  }

  function Compress(s: State, block: seq<byte>): State
    requires |block| == BLOCK_BYTES
  {
    Sum(s, Rounds(s, Schedule(block, 64), 64))
  }

  // ----- a whole message -----

  /** The state after the first `n` blocks of `data`. */
  function Fold(s: State, data: seq<byte>, n: nat): State
    requires 64 * n <= |data|
  {
    hide Compress;
    if n == 0 then s else Compress(Fold(s, data, n - 1), data[64 * (n - 1)..64 * n])
  }

  function BigEndian(value: nat, width: nat): (r: seq<byte>)
    ensures |r| == width
  {
    if width == 0 then [] else BigEndian(value / 0x100, width - 1) + [value % 0x100]
  }

  /** How many zero bytes separate the 1 bit from the length: the least that fills a block. */
  function ZeroBytes(length: nat): (k: nat)
    ensures k < 64 && (length + 1 + k + 8) % 64 == 0
  {
    (119 - length % 64) % 64
  }

  /** Section 5.1.1 of FIPS 180-4, with the bit length in the 64 bits the source gives it. */
  function Padding(length: nat): (r: seq<byte>)
    ensures |r| == 1 + ZeroBytes(length) + 8
  {
    [0x80] + Repeat(ZeroBytes(length), 0 as byte) + BigEndian(length * 8 % 0x1_0000_0000_0000_0000, 8)
  }

  function Padded(message: seq<byte>): seq<byte> {
    message + Padding(|message|)
  }

  function DigestBytes(s: State): (r: seq<byte>)
    ensures |r| == DIGEST_BYTES
  {
    WordBytes(s.a) + WordBytes(s.b) + WordBytes(s.c) + WordBytes(s.d)
      + WordBytes(s.e) + WordBytes(s.f) + WordBytes(s.g) + WordBytes(s.h)
  }

  function Hash(message: seq<byte>): (r: seq<byte>)
    ensures |r| == DIGEST_BYTES
  {
    hide Fold;
    DigestBytes(Fold(INITIAL_STATE, Padded(message), |Padded(message)| / 64))
  }

  lemma PaddingIsLeast(length: nat, k: nat)
    requires (length + 1 + k + 8) % 64 == 0
    ensures ZeroBytes(length) <= k
  {
  }

  /** Only the blocks folded so far matter. */
  lemma {:induction false} FoldPrefix(s: State, data: seq<byte>, more: seq<byte>, n: nat)
    requires 64 * n <= |data|
    ensures Fold(s, data + more, n) == Fold(s, data, n)
  {
    hide Compress;
    if n > 0 {
      FoldPrefix(s, data, more, n - 1);
      assert (data + more)[64 * (n - 1)..64 * n] == data[64 * (n - 1)..64 * n];
    }
  }

  lemma BitLengthWraps(length: nat, total: nat)
    requires total == length % 0x1_0000_0000_0000_0000
    ensures total * 8 % 0x1_0000_0000_0000_0000 == length * 8 % 0x1_0000_0000_0000_0000
  {
    var turns := length / 0x1_0000_0000_0000_0000;
    assert length * 8 == total * 8 + 0x1_0000_0000_0000_0000 * (8 * turns);
  }

  lemma TotalWraps(length: nat, total: nat, more: nat)
    requires total == length % 0x1_0000_0000_0000_0000
    ensures (total + more) % 0x1_0000_0000_0000_0000 == (length + more) % 0x1_0000_0000_0000_0000
  {
  }

  // ----- the streaming machine -----

  /** `compress`: fill the schedule, run the rounds, add the result in. */
  method CompressBlock(state: State, block: seq<byte>) returns (r: State)
    requires |block| == BLOCK_BYTES
    ensures r == Compress(state, block)
  {
    hide BigEndianWord, Round, RoundConstant, NextWord;
    var schedule := new u32[64];
    for index := 0 to 16
      invariant schedule[..index] == Schedule(block, index)
    {
      schedule[index] := BigEndianWord(block[4 * index], block[4 * index + 1], block[4 * index + 2],
        block[4 * index + 3]);
      assert schedule[..index + 1] == schedule[..index] + [schedule[index]];
    }
    for index := 16 to 64
      invariant schedule[..index] == Schedule(block, index)
    {
      ghost var w := schedule[..index];
      schedule[index] := NextWord(schedule[index - 16], schedule[index - 15], schedule[index - 7], schedule[index - 2]);
      assert schedule[..index] == w;
      assert schedule[..index + 1] == w + [schedule[index]];
    }
    var w := schedule[..];
    assert w == schedule[..64];
    var s := state;
    for index := 0 to 64
      invariant s == Rounds(state, w, index)
    {
      s := Round(s, RoundConstant(index), w[index]);
    }
    r := Sum(state, s);
  }

  class Hasher {
    var state: State
    const buffer: array<byte>
    var buffered: nat
    var totalBytes: u64
    /** Everything fed in so far, and how many whole blocks of it are already in the state. */
    ghost var message: seq<byte>
    ghost var blocks: nat

    constructor ()
      ensures Valid() && fresh(buffer) && message == []
    {
      state := INITIAL_STATE;
      buffer := new byte[64](_ => 0);
      buffered := 0;
      totalBytes := 0;
      message := [];
      blocks := 0;
    }

    /** The state holds whole blocks of the message; the buffer holds a prefix of the rest. */
    ghost predicate Holding(whole: seq<byte>)
      reads this, buffer
    {
      hide Fold;
      && buffer.Length == 64
      && buffered < 64
      && 64 * blocks + buffered <= |whole|
      && state == Fold(INITIAL_STATE, whole, blocks)
      && buffer[..buffered] == whole[64 * blocks..64 * blocks + buffered]
    }

    ghost predicate Valid()
      reads this, buffer
    {
      && Holding(message)
      && |message| == 64 * blocks + buffered
      && totalBytes == |message| % 0x1_0000_0000_0000_0000
    }

    /** Top up a partial block, compress whole blocks straight from the data, keep the rest. */
    method Update(input: seq<byte>)
      requires Valid()
      modifies this, buffer
      ensures Valid() && message == old(message) + input
    {
      hide Fold, Compress;
      Lengthen(input);
      var data := input;
      if buffered > 0 {
        data := TopUp(data);
      }
      if buffered == 0 {
        data := AbsorbBlocks(data);
        Fill(data, message);
      }
    }

    method Lengthen(input: seq<byte>)
      requires Valid()
      modifies this`totalBytes, this`message
      ensures Holding(message) && message == old(message) + input
      ensures totalBytes == |message| % 0x1_0000_0000_0000_0000
      ensures message[64 * blocks + buffered..] == input
    {
      hide Fold;
      TotalWraps(|message|, totalBytes, |input|);
      totalBytes := (totalBytes + |input|) % 0x1_0000_0000_0000_0000;
      FoldPrefix(INITIAL_STATE, message, input, blocks);
      message := message + input;
      assert buffer[..buffered] == message[64 * blocks..64 * blocks + buffered];
    }

    /** Finish the block that an earlier update left open. */
    method TopUp(input: seq<byte>) returns (data: seq<byte>)
      requires Holding(message) && message[64 * blocks + buffered..] == input
      modifies this`state, this`buffered, this`blocks, buffer
      ensures Holding(message) && message[64 * blocks + buffered..] == data
      ensures buffered != 0 ==> data == []
    {
      hide Fold, Compress;
      var room := 64 - buffered;
      var take := if room < |input| then room else |input|;
      Fill(input[..take], message);
      data := input[take..];
      if buffered == 64 {
        CompressBuffer(message);
      }
    }

    /** Copy bytes behind what is already buffered. */
    method Fill(data: seq<byte>, ghost whole: seq<byte>)
      requires Holding(whole) && buffered + |data| <= 64
      requires 64 * blocks + buffered + |data| <= |whole|
      requires whole[64 * blocks + buffered..64 * blocks + buffered + |data|] == data
      modifies this`buffered, buffer
      ensures buffered == old(buffered) + |data|
      ensures buffer[..buffered] == whole[64 * blocks..64 * blocks + buffered]
    {
      hide Fold;
      forall i | 0 <= i < |data| {
        buffer[buffered + i] := data[i];
      }
      assert buffer[..buffered] == old(buffer[..buffered]);
      assert buffer[..buffered + |data|] == buffer[..buffered] + data;
      buffered := buffered + |data|;
    }

    method CompressBuffer(ghost whole: seq<byte>)
      requires buffer.Length == 64 && buffered == 64 && 64 * blocks + 64 <= |whole|
      requires state == Fold(INITIAL_STATE, whole, blocks)
      requires buffer[..buffered] == whole[64 * blocks..64 * blocks + buffered]
      modifies this`state, this`buffered, this`blocks
      ensures Holding(whole) && buffered == 0 && blocks == old(blocks) + 1
    {
      hide Compress;
      assert buffer[..] == buffer[..64];
      state := CompressBlock(state, buffer[..]);
      blocks := blocks + 1;
      buffered := 0;
    }

    /** With the buffer empty, whole blocks go straight from the data into the state. */
    method AbsorbBlocks(input: seq<byte>) returns (data: seq<byte>)
      requires Holding(message) && buffered == 0 && message[64 * blocks..] == input
      modifies this`state, this`blocks
      ensures Holding(message) && |data| < 64 && message[64 * blocks..] == data
    {
      hide Compress;
      data := input;
      while |data| >= 64
        invariant Holding(message) && message[64 * blocks..] == data
        decreases |data|
      {
        assert data[..64] == message[64 * blocks..64 * (blocks + 1)];
        state := CompressBlock(state, data[..64]);
        data := data[64..];
        blocks := blocks + 1;
      }
    }

    /** Pad, compress what is left, and read the digest out of the state. */
    method Finish() returns (digest: seq<byte>)
      requires Valid()
      modifies this, buffer
      ensures digest == Hash(old(message))
    {
      hide Fold, Compress, Padding;
      var bitLength := totalBytes * 8 % 0x1_0000_0000_0000_0000;
      var zeros := if buffered < 56 then 55 - buffered else 119 - buffered;
      var padding := [0x80] + Repeat(zeros, 0 as byte) + BigEndian(bitLength, 8);
      BitLengthWraps(|message|, totalBytes);
      PaddingIs(message, blocks, buffered, zeros, padding, bitLength);
      ghost var whole := Padded(message);
      FoldPrefix(INITIAL_STATE, message, padding, blocks);
      assert buffer[..buffered] == whole[64 * blocks..64 * blocks + buffered];
      var index: nat := 0;
      while index < |padding|
        invariant index <= |padding| && Holding(whole)
        invariant 64 * blocks + buffered == |message| + index
        invariant message == old(message)
      {
        var room := 64 - buffered;
        var take := if room < |padding| - index then room else |padding| - index;
        assert whole[64 * blocks + buffered..64 * blocks + buffered + take] == padding[index..index + take];
        Fill(padding[index..index + take], whole);
        index := index + take;
        if buffered == 64 {
          CompressBuffer(whole);
        }
      }
      LastBlockIsFull(|whole|, blocks, buffered);
      digest := DigestBytes(state);
    }
  }

  lemma PaddingIs(message: seq<byte>, blocks: nat, buffered: nat, zeros: nat, padding: seq<byte>, bitLength: nat)
    requires |message| == 64 * blocks + buffered && buffered < 64
    requires zeros == if buffered < 56 then 55 - buffered else 119 - buffered
    requires bitLength == |message| * 8 % 0x1_0000_0000_0000_0000
    requires padding == [0x80] + Repeat(zeros, 0 as byte) + BigEndian(bitLength, 8)
    ensures padding == Padding(|message|) && |Padded(message)| % 64 == 0
  {
    hide BigEndian;
    ZerosAre(|message|, blocks, buffered);
  }

  lemma ZerosAre(length: nat, blocks: nat, buffered: nat)
    requires length == 64 * blocks + buffered && buffered < 64
    ensures ZeroBytes(length) == if buffered < 56 then 55 - buffered else 119 - buffered
    ensures (length + (1 + ZeroBytes(length) + 8)) % 64 == 0
  {
    assert length % 64 == buffered;
    if buffered < 56 {
      assert 119 - buffered == 64 + (55 - buffered);
      assert length + (1 + (55 - buffered) + 8) == 64 * (blocks + 1);
    } else {
      assert length + (1 + (119 - buffered) + 8) == 64 * (blocks + 2);
    }
  }

  lemma LastBlockIsFull(length: nat, blocks: nat, buffered: nat)
    requires length == 64 * blocks + buffered && buffered < 64 && length % 64 == 0
    ensures buffered == 0 && length / 64 == blocks
  {
  }

  /** `digest`: the whole message in one piece. */
  method Digest(data: seq<byte>) returns (digest: seq<byte>)
    ensures digest == Hash(data)
  {
    hide Hash;
    var hasher := new Hasher();
    hasher.Update(data);
    assert [] + data == data;
    digest := hasher.Finish();
  }

  function Joined(pieces: seq<seq<byte>>): seq<byte> {
    if pieces == [] then [] else Joined(pieces[..|pieces| - 1]) + pieces[|pieces| - 1]
  }

  /** However a message is cut into pieces, the digest is that of the whole. */
  method DigestPieces(pieces: seq<seq<byte>>) returns (digest: seq<byte>)
    ensures digest == Hash(Joined(pieces))
  {
    hide Hash, Fold;
    var hasher := new Hasher();
    for i := 0 to |pieces|
      invariant hasher.Valid() && fresh(hasher) && fresh(hasher.buffer) && hasher.message == Joined(pieces[..i])
    {
      assert pieces[..i + 1][..i] == pieces[..i];
      hasher.Update(pieces[i]);
    }
    assert pieces[..|pieces|] == pieces;
    digest := hasher.Finish();
  }
}
