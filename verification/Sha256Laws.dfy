/**
 * What SHA-256 is made of, said a second time: constants as roots of primes, mixing bit by bit, the
 * rounds as two registers with a memory, padding and digest as big-endian numbers.
 */
module Sha256Laws {
  import opened Basics
  import opened Sha256

  // ----- the constants (sections 4.2.2 and 5.3.3 of FIPS 180-4) -----

  /** `x` is the cube root of `p` with 32 bits of fraction, rounded down. */
  predicate IsCubeRoot(p: nat, x: nat) {
    x * x * x <= p * 0x1_0000_0000_0000_0000_0000_0000 < (x + 1) * (x + 1) * (x + 1)
  }

  predicate IsSquareRoot(p: nat, x: nat) {
    x * x <= p * TWO_64 < (x + 1) * (x + 1)
  }

  function WholeCubeRoot(p: nat): nat {
    if p < 8 then 1 else if p < 27 then 2 else if p < 64 then 3 else if p < 125 then 4 else if p < 216 then 5 else 6
  }

  function WholeSquareRoot(p: nat): nat {
    if p < 4 then 1 else if p < 9 then 2 else if p < 16 then 3 else 4
  }

  /** The round constant is the fraction of the cube root of `p`. */
  predicate FromCubeRoot(index: nat, p: nat)
    requires index < 64
  {
    IsCubeRoot(p, WholeCubeRoot(p) * TWO_32 + RoundConstant(index))
  }

  lemma RowOfConstants0()
    ensures FromCubeRoot(0, 2) && FromCubeRoot(1, 3) && FromCubeRoot(2, 5) && FromCubeRoot(3, 7)
    ensures FromCubeRoot(4, 11) && FromCubeRoot(5, 13) && FromCubeRoot(6, 17) && FromCubeRoot(7, 19)
  {
  }

  lemma RowOfConstants1()
    ensures FromCubeRoot(8, 23) && FromCubeRoot(9, 29) && FromCubeRoot(10, 31) && FromCubeRoot(11, 37)
    ensures FromCubeRoot(12, 41) && FromCubeRoot(13, 43) && FromCubeRoot(14, 47) && FromCubeRoot(15, 53)
  {
  }

  lemma RowOfConstants2()
    ensures FromCubeRoot(16, 59) && FromCubeRoot(17, 61) && FromCubeRoot(18, 67) && FromCubeRoot(19, 71)
    ensures FromCubeRoot(20, 73) && FromCubeRoot(21, 79) && FromCubeRoot(22, 83) && FromCubeRoot(23, 89)
  {
  }

  lemma RowOfConstants3()
    ensures FromCubeRoot(24, 97) && FromCubeRoot(25, 101) && FromCubeRoot(26, 103) && FromCubeRoot(27, 107)
    ensures FromCubeRoot(28, 109) && FromCubeRoot(29, 113) && FromCubeRoot(30, 127) && FromCubeRoot(31, 131)
  {
  }

  lemma RowOfConstants4()
    ensures FromCubeRoot(32, 137) && FromCubeRoot(33, 139) && FromCubeRoot(34, 149) && FromCubeRoot(35, 151)
    ensures FromCubeRoot(36, 157) && FromCubeRoot(37, 163) && FromCubeRoot(38, 167) && FromCubeRoot(39, 173)
  {
  }

  lemma RowOfConstants5()
    ensures FromCubeRoot(40, 179) && FromCubeRoot(41, 181) && FromCubeRoot(42, 191) && FromCubeRoot(43, 193)
    ensures FromCubeRoot(44, 197) && FromCubeRoot(45, 199) && FromCubeRoot(46, 211) && FromCubeRoot(47, 223)
  {
  }

  lemma RowOfConstants6()
    ensures FromCubeRoot(48, 227) && FromCubeRoot(49, 229) && FromCubeRoot(50, 233) && FromCubeRoot(51, 239)
    ensures FromCubeRoot(52, 241) && FromCubeRoot(53, 251) && FromCubeRoot(54, 257) && FromCubeRoot(55, 263)
  {
  }

  lemma RowOfConstants7()
    ensures FromCubeRoot(56, 269) && FromCubeRoot(57, 271) && FromCubeRoot(58, 277) && FromCubeRoot(59, 281)
    ensures FromCubeRoot(60, 283) && FromCubeRoot(61, 293) && FromCubeRoot(62, 307) && FromCubeRoot(63, 311)
  {
  }

  /** The first 64 primes. */
  function Prime(index: nat): nat
    requires index < 64
  {
    match index
    case 0 => 2 case 1 => 3 case 2 => 5 case 3 => 7 case 4 => 11 case 5 => 13
    case 6 => 17 case 7 => 19 case 8 => 23 case 9 => 29 case 10 => 31 case 11 => 37
    case 12 => 41 case 13 => 43 case 14 => 47 case 15 => 53 case 16 => 59 case 17 => 61
    case 18 => 67 case 19 => 71 case 20 => 73 case 21 => 79 case 22 => 83 case 23 => 89
    case 24 => 97 case 25 => 101 case 26 => 103 case 27 => 107 case 28 => 109 case 29 => 113
    case 30 => 127 case 31 => 131 case 32 => 137 case 33 => 139 case 34 => 149 case 35 => 151
    case 36 => 157 case 37 => 163 case 38 => 167 case 39 => 173 case 40 => 179 case 41 => 181
    case 42 => 191 case 43 => 193 case 44 => 197 case 45 => 199 case 46 => 211 case 47 => 223
    case 48 => 227 case 49 => 229 case 50 => 233 case 51 => 239 case 52 => 241 case 53 => 251
    case 54 => 257 case 55 => 263 case 56 => 269 case 57 => 271 case 58 => 277 case 59 => 281
    case 60 => 283 case 61 => 293 case 62 => 307 case _ => 311
  }

  /** The round constants, in order, are the fractions of the cube roots of the first 64 primes. */
  lemma ConstantsAreCubeRoots(index: nat)
    requires index < 64
    ensures FromCubeRoot(index, Prime(index))
  {
    hide FromCubeRoot;
    RowOfConstants0(); RowOfConstants1(); RowOfConstants2(); RowOfConstants3();
    RowOfConstants4(); RowOfConstants5(); RowOfConstants6(); RowOfConstants7();
  }

  predicate FromSquareRoot(word: u32, p: nat) {
    IsSquareRoot(p, WholeSquareRoot(p) * TWO_32 + word)
  }

  /** The state starts as the fractions of the square roots of the first eight primes. */
  lemma InitialStateIsSquareRoots()
    ensures FromSquareRoot(INITIAL_STATE.a, 2) && FromSquareRoot(INITIAL_STATE.b, 3)
    ensures FromSquareRoot(INITIAL_STATE.c, 5) && FromSquareRoot(INITIAL_STATE.d, 7)
    ensures FromSquareRoot(INITIAL_STATE.e, 11) && FromSquareRoot(INITIAL_STATE.f, 13)
    ensures FromSquareRoot(INITIAL_STATE.g, 17) && FromSquareRoot(INITIAL_STATE.h, 19)
  {
  }

  // ----- the mixing functions, bit by bit (section 4.1.2) -----

  /** Where `e` has a one the choice is `f`, elsewhere `g`. */
  lemma ChooseSelects(e: Word, f: Word, g: Word)
    ensures Choose(e, f, g) & e == f & e && Choose(e, f, g) & !e == g & !e
  {
  }

  /** Where the first two agree, the majority is what they agree on, and elsewhere the third decides. */
  lemma MajorityVotes(a: Word, b: Word, c: Word)
    ensures Majority(a, b, c) & !(a ^ b) == a & !(a ^ b)
    ensures Majority(a, b, c) & (a ^ b) == c & (a ^ b)
  {
    AgreedBits(a, b, c);
    DecidedBits(a, b, c);
    hide Majority;
  }

  lemma AgreedBits(a: Word, b: Word, c: Word)
    ensures Majority(a, b, c) & !(a ^ b) == a & !(a ^ b)
  {
  }

  lemma DecidedBits(a: Word, b: Word, c: Word)
    ensures Majority(a, b, c) & (a ^ b) == c & (a ^ b)
  {
  }

  /** Bit `k`, counted from the low end. */
  predicate Bit(word: Word, k: bv6)
    requires k < 32
  {
    (word >> k) & 1 == 1
  }

  /** The bit that many places further up, going round. */
  predicate BitUp(word: Word, k: bv6, places: bv6)
    requires k < 32 && places < 32
  {
    Bit(word, (k + places) & 31)
  }

  lemma TurnedBy2(x: Word, k: bv6)
    requires k < 32
    ensures Bit(RotateRight(x, 2), k) == BitUp(x, k, 2)
  {
  }

  lemma TurnedBy6(x: Word, k: bv6)
    requires k < 32
    ensures Bit(RotateRight(x, 6), k) == BitUp(x, k, 6)
  {
  }

  lemma TurnedBy7(x: Word, k: bv6)
    requires k < 32
    ensures Bit(RotateRight(x, 7), k) == BitUp(x, k, 7)
  {
  }

  lemma TurnedBy11(x: Word, k: bv6)
    requires k < 32
    ensures Bit(RotateRight(x, 11), k) == BitUp(x, k, 11)
  {
  }

  lemma TurnedBy13(x: Word, k: bv6)
    requires k < 32
    ensures Bit(RotateRight(x, 13), k) == BitUp(x, k, 13)
  {
  }

  lemma TurnedBy17(x: Word, k: bv6)
    requires k < 32
    ensures Bit(RotateRight(x, 17), k) == BitUp(x, k, 17)
  {
  }

  lemma TurnedBy18(x: Word, k: bv6)
    requires k < 32
    ensures Bit(RotateRight(x, 18), k) == BitUp(x, k, 18)
  {
  }

  lemma TurnedBy19(x: Word, k: bv6)
    requires k < 32
    ensures Bit(RotateRight(x, 19), k) == BitUp(x, k, 19)
  {
  }

  lemma TurnedBy22(x: Word, k: bv6)
    requires k < 32
    ensures Bit(RotateRight(x, 22), k) == BitUp(x, k, 22)
  {
  }

  lemma TurnedBy25(x: Word, k: bv6)
    requires k < 32
    ensures Bit(RotateRight(x, 25), k) == BitUp(x, k, 25)
  {
  }

  lemma ShiftedBy3(x: Word, k: bv6)
    requires k < 32
    ensures Bit(ShiftRight(x, 3), k) == (k < 29 && Bit(x, k + 3))
  {
  }

  lemma ShiftedBy10(x: Word, k: bv6)
    requires k < 32
    ensures Bit(ShiftRight(x, 10), k) == (k < 22 && Bit(x, k + 10))
  {
  }

  lemma ThreeBits(x: Word, y: Word, z: Word, k: bv6)
    requires k < 32
    ensures Bit(x ^ y ^ z, k) == (Bit(x, k) != (Bit(y, k) != Bit(z, k)))
  {
  }

  lemma ParityOfThree(x: Word, y: Word, z: Word, k: bv6)
    requires k < 32
    ensures Bit(Parity(x, y, z), k) == (Bit(x, k) != (Bit(y, k) != Bit(z, k)))
  {
    hide Bit;
    ThreeBits(x, y, z, k);
  }

  // Each bit of a mixed word is the parity of three bits of the word; a shift brings nothing in from above.

  lemma BigSigma0Mixes(x: Word, k: bv6)
    requires k < 32
    ensures Bit(BigSigma0(x), k) == (BitUp(x, k, 2) != (BitUp(x, k, 13) != BitUp(x, k, 22)))
  {
    hide Bit, BitUp, RotateRight, ShiftRight, Parity;
    TurnedBy2(x, k);
    TurnedBy13(x, k);
    TurnedBy22(x, k);
    ParityOfThree(RotateRight(x, 2), RotateRight(x, 13), RotateRight(x, 22), k);
  }

  lemma BigSigma1Mixes(x: Word, k: bv6)
    requires k < 32
    ensures Bit(BigSigma1(x), k) == (BitUp(x, k, 6) != (BitUp(x, k, 11) != BitUp(x, k, 25)))
  {
    hide Bit, BitUp, RotateRight, ShiftRight, Parity;
    TurnedBy6(x, k);
    TurnedBy11(x, k);
    TurnedBy25(x, k);
    ParityOfThree(RotateRight(x, 6), RotateRight(x, 11), RotateRight(x, 25), k);
  }

  lemma SmallSigma0Mixes(x: Word, k: bv6)
    requires k < 32
    ensures Bit(SmallSigma0(x), k) == (BitUp(x, k, 7) != (BitUp(x, k, 18) != (k < 29 && Bit(x, k + 3))))
  {
    hide Bit, BitUp, RotateRight, ShiftRight, Parity;
    TurnedBy7(x, k);
    TurnedBy18(x, k);
    ShiftedBy3(x, k);
    ParityOfThree(RotateRight(x, 7), RotateRight(x, 18), ShiftRight(x, 3), k);
  }

  lemma SmallSigma1Mixes(x: Word, k: bv6)
    requires k < 32
    ensures Bit(SmallSigma1(x), k) == (BitUp(x, k, 17) != (BitUp(x, k, 19) != (k < 22 && Bit(x, k + 10))))
  {
    hide Bit, BitUp, RotateRight, ShiftRight, Parity;
    TurnedBy17(x, k);
    TurnedBy19(x, k);
    ShiftedBy10(x, k);
    ParityOfThree(RotateRight(x, 17), RotateRight(x, 19), ShiftRight(x, 10), k);
  }

  // ----- one block as two registers with a memory -----

  /** Every value the registers `a` and `e` take, behind the four each starts with. */
  datatype Histories = Histories(a: seq<u32>, e: seq<u32>)

  /**
   * The rounds without shuffling eight registers: each round looks back over the last four values
   * of `a` and of `e` and adds one to each, every sum taken once and cut to 32 bits at the end.
   */
  function Remembered(s: State, w: seq<u32>, n: nat): (h: Histories)
    requires |w| == 64 && n <= 64
    ensures |h.a| == |h.e| == n + 4
  {
    if n == 0 then Histories([s.d, s.c, s.b, s.a], [s.h, s.g, s.f, s.e])
    else
      var h := Remembered(s, w, n - 1);
      var (a1, a2, a3, a4) := (h.a[n + 2], h.a[n + 1], h.a[n], h.a[n - 1]);
      var (e1, e2, e3, e4) := (h.e[n + 2], h.e[n + 1], h.e[n], h.e[n - 1]);
      var first := e4 + Number(BigSigma1(Bits(e1))) + Number(Choose(Bits(e1), Bits(e2), Bits(e3)))
                   + RoundConstant(n - 1) + w[n - 1];
      var second := Number(BigSigma0(Bits(a1))) + Number(Majority(Bits(a1), Bits(a2), Bits(a3)));
      Histories(h.a + [(first + second) % 0x1_0000_0000], h.e + [(a4 + first) % 0x1_0000_0000])
  }

  lemma SumsOnce(h: int, s1: int, choose: int, k: int, w: int, s0: int, majority: int, d: int)
    ensures var temp1 := Add(Add(Add(Add(h, s1), choose), k), w);
            && Add(temp1, Add(s0, majority)) == (h + s1 + choose + k + w + (s0 + majority)) % 0x1_0000_0000
            && Add(d, temp1) == (d + (h + s1 + choose + k + w)) % 0x1_0000_0000
  {
  }

  /** The eight registers after `n` rounds are the last four values of each of the two. */
  lemma {:induction false} RoundsRemember(s: State, w: seq<u32>, n: nat)
    requires |w| == 64 && n <= 64
    ensures var h := Remembered(s, w, n);
            Rounds(s, w, n) == State(h.a[n + 3], h.a[n + 2], h.a[n + 1], h.a[n],
              h.e[n + 3], h.e[n + 2], h.e[n + 1], h.e[n])
  {
    hide Bits, Number, BigSigma0, BigSigma1, Choose, Majority, Add, RoundConstant;
    if n > 0 {
      RoundsRemember(s, w, n - 1);
      var t := Rounds(s, w, n - 1);
      SumsOnce(t.h, Number(BigSigma1(Bits(t.e))), Number(Choose(Bits(t.e), Bits(t.f), Bits(t.g))), RoundConstant(n - 1),
        w[n - 1], Number(BigSigma0(Bits(t.a))), Number(Majority(Bits(t.a), Bits(t.b), Bits(t.c))), t.d);
    }
  }

  /** The number that bytes spell, the most significant first. */
  function BeValue(bytes: seq<byte>): nat {
    if bytes == [] then 0 else 0x100 * BeValue(bytes[..|bytes| - 1]) + bytes[|bytes| - 1]
  }

  lemma WordValue(b0: byte, b1: byte, b2: byte, b3: byte)
    ensures BigEndianWord(b0, b1, b2, b3) == BeValue([b0, b1, b2, b3])
  {
    LastByte([], b0);
    LastByte([b0], b1);
    LastByte([b0, b1], b2);
    LastByte([b0, b1, b2], b3);
    assert [] + [b0] == [b0] && [b0] + [b1] == [b0, b1] && [b0, b1] + [b2] == [b0, b1, b2];
    assert [b0, b1, b2] + [b3] == [b0, b1, b2, b3];
    assert BeValue([]) == 0;
    hide BeValue;
  }

  lemma LastByte(bytes: seq<byte>, b: byte)
    ensures BeValue(bytes + [b]) == 0x100 * BeValue(bytes) + b
  {
    assert (bytes + [b])[..|bytes|] == bytes;
  }

  /** What the schedule holds in place `i`: a word of the block, or a sum over the four it looks back at. */
  ghost predicate Scheduled(block: seq<byte>, w: seq<u32>, i: nat)
    requires |block| == BLOCK_BYTES && i < |w| <= 64
  {
    w[i] == if i < 16 then BeValue(block[4 * i..4 * i + 4])
            else (w[i - 16] + Number(SmallSigma0(Bits(w[i - 15]))) + w[i - 7]
                  + Number(SmallSigma1(Bits(w[i - 2])))) % 0x1_0000_0000
  }

  lemma LooksBackOnce(back16: u32, back15: u32, back7: u32, back2: u32)
    ensures NextWord(back16, back15, back7, back2)
         == (back16 + Number(SmallSigma0(Bits(back15))) + back7 + Number(SmallSigma1(Bits(back2)))) % 0x1_0000_0000
  {
    hide Bits, Number, SmallSigma0, SmallSigma1;
  }

  lemma NewWordScheduled(block: seq<byte>, n: nat)
    requires |block| == BLOCK_BYTES && n < 64
    ensures Scheduled(block, Schedule(block, n + 1), n)
  {
    hide Bits, Number, SmallSigma0, SmallSigma1, BeValue, BigEndianWord, NextWord;
    var w := Schedule(block, n);
    if n < 16 {
      WordValue(block[4 * n], block[4 * n + 1], block[4 * n + 2], block[4 * n + 3]);
      assert block[4 * n..4 * n + 4] == [block[4 * n], block[4 * n + 1], block[4 * n + 2], block[4 * n + 3]];
    } else {
      LooksBackOnce(w[n - 16], w[n - 15], w[n - 7], w[n - 2]);
    }
  }

  lemma {:induction false} ScheduleLooksBack(block: seq<byte>, n: nat, i: nat)
    requires |block| == BLOCK_BYTES && i < n <= 64
    ensures Scheduled(block, Schedule(block, n), i)
  {
    hide Bits, Number, SmallSigma0, SmallSigma1, BeValue, BigEndianWord, NextWord;
    if i < n - 1 {
      ScheduleLooksBack(block, n - 1, i);
    } else {
      NewWordScheduled(block, i);
    }
  }

  /** A block is folded in by adding the registers after its rounds to the state before it. */
  lemma BlockAdds(s: State, block: seq<byte>)
    requires |block| == BLOCK_BYTES
    ensures var (after, h) := (Compress(s, block), Remembered(s, Schedule(block, 64), 64));
            && after.a == (s.a + h.a[67]) % 0x1_0000_0000 && after.b == (s.b + h.a[66]) % 0x1_0000_0000
            && after.c == (s.c + h.a[65]) % 0x1_0000_0000 && after.d == (s.d + h.a[64]) % 0x1_0000_0000
            && after.e == (s.e + h.e[67]) % 0x1_0000_0000 && after.f == (s.f + h.e[66]) % 0x1_0000_0000
            && after.g == (s.g + h.e[65]) % 0x1_0000_0000 && after.h == (s.h + h.e[64]) % 0x1_0000_0000
  {
    hide Schedule, Rounds, Remembered;
    RoundsRemember(s, Schedule(block, 64), 64);
  }

  // ----- padding and the digest -----

  lemma {:induction false} BigEndianValue(value: nat, width: nat)
    requires value < Pow2(8 * width)
    ensures BeValue(BigEndian(value, width)) == value
  {
    if width > 0 {
      Pow2Add(8 * (width - 1), 8);
      assert Pow2(8) == 0x100;
      BigEndianValue(value / 0x100, width - 1);
      var out := BigEndian(value, width);
      assert out[..width - 1] == BigEndian(value / 0x100, width - 1);
    }
  }

  /** The padded message: itself, a one bit, zeros, and its length in bits as the last eight bytes. */
  lemma PaddedSaysLength(message: seq<byte>)
    ensures var (padded, end) := (Padded(message), |Padded(message)|);
            && end % 64 == 0 && end >= |message| + 9
            && padded[..|message|] == message && padded[|message|] == 0x80
            && (forall i :: |message| < i < end - 8 ==> padded[i] == 0)
            && BeValue(padded[end - 8..]) == |message| * 8 % TWO_64
  {
    hide BigEndian, ZeroBytes;
    var padded := Padded(message);
    Pow2At63();
    BigEndianValue(|message| * 8 % TWO_64, 8);
    assert padded[|padded| - 8..] == BigEndian(|message| * 8 % TWO_64, 8);
  }

  lemma FourBytesAdd(x: u32)
    ensures BigEndianWord(x / 0x100_0000, x / 0x1_0000 % 0x100, x / 0x100 % 0x100, x % 0x100) == x
  {
    assert x / 0x1_0000 == x / 0x100_0000 * 0x100 + x / 0x1_0000 % 0x100;
    assert x / 0x100 == x / 0x1_0000 * 0x100 + x / 0x100 % 0x100;
  }

  lemma FourBytesValue(x: u32)
    ensures BeValue(WordBytes(x)) == x
  {
    hide BeValue, BigEndianWord;
    FourBytesAdd(x);
    WordValue(x / 0x100_0000, x / 0x1_0000 % 0x100, x / 0x100 % 0x100, x % 0x100);
  }

  /** The digest is the state, register by register, each with its most significant byte first. */
  lemma DigestIsState(s: State)
    ensures var d := DigestBytes(s);
            && BeValue(d[0..4]) == s.a && BeValue(d[4..8]) == s.b && BeValue(d[8..12]) == s.c
            && BeValue(d[12..16]) == s.d && BeValue(d[16..20]) == s.e && BeValue(d[20..24]) == s.f
            && BeValue(d[24..28]) == s.g && BeValue(d[28..32]) == s.h
  {
    hide WordBytes, BeValue;
    var d := DigestBytes(s);
    assert d[0..4] == WordBytes(s.a) && d[4..8] == WordBytes(s.b) && d[8..12] == WordBytes(s.c);
    assert d[12..16] == WordBytes(s.d) && d[16..20] == WordBytes(s.e) && d[20..24] == WordBytes(s.f);
    assert d[24..28] == WordBytes(s.g) && d[28..32] == WordBytes(s.h);
    FourBytesValue(s.a);
    FourBytesValue(s.b);
    FourBytesValue(s.c);
    FourBytesValue(s.d);
    FourBytesValue(s.e);
    FourBytesValue(s.f);
    FourBytesValue(s.g);
    FourBytesValue(s.h);
  }
}
