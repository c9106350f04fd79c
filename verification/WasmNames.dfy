/** What the names of imports and exports may be: exactly the UTF-8 encodings of Unicode text. */
module WasmNames {
  import opened Basics
  import opened WasmModule

  /** A Unicode scalar value: a code point that is not a surrogate. */
  type Scalar = c: int | 0 <= c < 0x11_0000 && !(0xd800 <= c < 0xe000)

  function EncodeScalar(c: Scalar): seq<byte> {
    if c < 0x80 then [c]
    else if c < 0x800 then [0xc0 + c / 0x40, 0x80 + c % 0x40]
    else if c < 0x1_0000 then [0xe0 + c / 0x1000, 0x80 + c / 0x40 % 0x40, 0x80 + c % 0x40]
    else [0xf0 + c / 0x4_0000, 0x80 + c / 0x1000 % 0x40, 0x80 + c / 0x40 % 0x40, 0x80 + c % 0x40]
  }

  function EncodeText(text: seq<Scalar>): seq<byte> {
    if text == [] then [] else EncodeScalar(text[0]) + EncodeText(text[1..])
  }

  /** What follows a well-formed sequence does not matter to it. */
  lemma PrefixIsUtf8(first: seq<byte>, rest: seq<byte>)
    requires IsUtf8(rest) && first != [] && IsUtf8(first)
    requires var b := first[0];
             |first| == if b < 0x80 then 1 else if b < 0xe0 then 2 else if b < 0xf0 then 3 else 4
    ensures IsUtf8(first + rest)
  {
    var text := first + rest;
    assert text[|first|..] == rest;
  }

  lemma ScalarAlone(c: Scalar)
    ensures IsUtf8(EncodeScalar(c))
  {
    var text := EncodeScalar(c);
    assert text[|text|..] == [];
  }

  lemma ScalarIsUtf8(c: Scalar, rest: seq<byte>)
    requires IsUtf8(rest)
    ensures IsUtf8(EncodeScalar(c) + rest)
  {
    ScalarAlone(c);
    hide IsUtf8;
    PrefixIsUtf8(EncodeScalar(c), rest);
  }

  // The scalar value that two, three or four bytes spell.

  lemma TwoBytes(b0: byte, b1: byte) returns (c: Scalar)
    requires 0xc2 <= b0 <= 0xdf && 0x80 <= b1 <= 0xbf
    ensures EncodeScalar(c) == [b0, b1]
  {
    c := 0x40 * b0 + b1 - 0x3080;
  }

  lemma ThreeBytes(b0: byte, b1: byte, b2: byte) returns (c: Scalar)
    requires 0xe0 <= b0 <= 0xef && 0x80 <= b1 <= 0xbf && 0x80 <= b2 <= 0xbf
    requires (b0 == 0xe0 ==> b1 >= 0xa0) && (b0 == 0xed ==> b1 <= 0x9f)
    ensures EncodeScalar(c) == [b0, b1, b2]
  {
    c := 0x1000 * b0 + 0x40 * b1 + b2 - 0xe_2080;
  }

  lemma FourBytes(b0: byte, b1: byte, b2: byte, b3: byte) returns (c: Scalar)
    requires 0xf0 <= b0 <= 0xf4 && 0x80 <= b1 <= 0xbf && 0x80 <= b2 <= 0xbf && 0x80 <= b3 <= 0xbf
    requires (b0 == 0xf0 ==> b1 >= 0x90) && (b0 == 0xf4 ==> b1 <= 0x8f)
    ensures EncodeScalar(c) == [b0, b1, b2, b3]
  {
    c := 0x4_0000 * b0 + 0x1000 * b1 + 0x40 * b2 + b3 - 0x3c8_2080;
    Split(c, 0x4_0000, b0 - 0xf0, 0x1000 * b1 + 0x40 * b2 + b3 - 0x8_2080);
    Split(c, 0x1000, 0x40 * (b0 - 0xf0) + (b1 - 0x80), 0x40 * b2 + b3 - 0x2080);
    Split(c, 0x40, 0x1000 * (b0 - 0xf0) + 0x40 * (b1 - 0x80) + (b2 - 0x80), b3 - 0x80);
  }

  lemma Split(c: nat, scale: nat, q: int, r: int)
    requires scale in {0x40, 0x1000, 0x4_0000} && c == q * scale + r && 0 <= r < scale
    ensures c / scale == q && c % scale == r
  {
  }

  lemma FirstScalar(bytes: seq<byte>) returns (c: Scalar)
    requires bytes != [] && IsUtf8(bytes)
    ensures |EncodeScalar(c)| <= |bytes| && EncodeScalar(c) == bytes[..|EncodeScalar(c)|]
    ensures IsUtf8(bytes[|EncodeScalar(c)|..])
  {
    var b := bytes[0];
    if b < 0x80 {
      c := b;
      return;
    }
    hide EncodeScalar;
    if b < 0xe0 {
      c := TwoBytes(b, bytes[1]);
    } else if b < 0xf0 {
      c := ThreeBytes(b, bytes[1], bytes[2]);
    } else {
      c := FourBytes(b, bytes[1], bytes[2], bytes[3]);
    }
  }

  lemma {:induction false} TextOf(bytes: seq<byte>) returns (text: seq<Scalar>)
    requires IsUtf8(bytes)
    ensures EncodeText(text) == bytes
  {
    if bytes == [] {
      text := [];
    } else {
      hide IsUtf8;
      var c := FirstScalar(bytes);
      var rest := TextOf(bytes[|EncodeScalar(c)|..]);
      text := [c] + rest;
    }
  }

  lemma {:induction false} TextIsUtf8(text: seq<Scalar>)
    ensures IsUtf8(EncodeText(text))
  {
    if text != [] {
      TextIsUtf8(text[1..]);
      ScalarIsUtf8(text[0], EncodeText(text[1..]));
    }
  }

  /** A name is accepted exactly when it encodes some text. */
  lemma Utf8Iff(bytes: seq<byte>)
    ensures IsUtf8(bytes) <==> exists text :: EncodeText(text) == bytes
  {
    hide IsUtf8, EncodeText;
    if IsUtf8(bytes) {
      var text := TextOf(bytes);
    }
    if text :| EncodeText(text) == bytes {
      TextIsUtf8(text);
    }
  }
}
