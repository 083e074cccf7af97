/** Bytes and the UTF-8 text encoding that `String.getBytes()` and `new String(bytes)`
    use for a seed phrase on the platform. */
module Text {

  /** One octet of a file or of a cipher stream. */
  type byte = x: int | 0 <= x < 256

  /** True if `b` is a UTF-8 continuation byte (10xxxxxx). */
  predicate IsContinuation(b: byte) { 0x80 <= b < 0xC0 }

  /** The UTF-8 encoding of a single Unicode scalar value. */
  function EncodeChar(c: char): (r: seq<byte>)
    ensures 1 <= |r| <= 4
    ensures (c as int < 0x80) <==> |r| == 1
    ensures forall i :: 1 <= i < |r| ==> IsContinuation(r[i])
  {
    var v := c as int;
    if v < 0x80 then [v]
    else if v < 0x800 then [0xC0 + v / 64, 0x80 + v % 64]
    else if v < 0x1_0000 then [0xE0 + v / 4096, 0x80 + (v / 64) % 64, 0x80 + v % 64]
    else [0xF0 + v / 262144, 0x80 + (v / 4096) % 64, 0x80 + (v / 64) % 64, 0x80 + v % 64]
  }

  /** `String.getBytes()`: the UTF-8 encoding of a string, character by character. */
  function Encode(s: string): (r: seq<byte>)
    ensures |s| <= |r| <= 4 * |s|
  {
    if s == [] then [] else EncodeChar(s[0]) + Encode(s[1..])
  }

  const REPLACEMENT: char := '�'

  /** True if `v` may be the value of a `char`, that is, a Unicode scalar value. */
  predicate IsScalar(v: int) { 0 <= v < 0xD800 || 0xE000 <= v < 0x11_0000 }

  /** The byte at `i` as an integer, or 0 past the end. */
  function At(b: seq<byte>, i: nat): int { if i < |b| then b[i] as int else 0 }

  /** The first character of a non-empty byte sequence and the number of bytes it takes.
      A malformed or overlong sequence decodes to U+FFFD and consumes one byte. */
  function DecodeFirst(b: seq<byte>): (r: (char, nat))
    requires |b| > 0
    ensures 1 <= r.1 <= |b|
  {
    var b0, b1, b2, b3 := b[0] as int, At(b, 1), At(b, 2), At(b, 3);
    if b0 < 0x80 then (b0 as char, 1)
    else if 0xC0 <= b0 < 0xE0 && |b| >= 2 && IsContinuation(b[1]) then
      var v := (b0 - 0xC0) * 64 + (b1 - 0x80);
      if 0x80 <= v then (v as char, 2) else (REPLACEMENT, 1)
    else if 0xE0 <= b0 < 0xF0 && |b| >= 3 && IsContinuation(b[1]) && IsContinuation(b[2]) then
      var v := (b0 - 0xE0) * 4096 + (b1 - 0x80) * 64 + (b2 - 0x80);
      if 0x800 <= v && IsScalar(v) then (v as char, 3) else (REPLACEMENT, 1)
    else if 0xF0 <= b0 < 0xF8 && |b| >= 4 && IsContinuation(b[1]) && IsContinuation(b[2]) && IsContinuation(b[3]) then
      var v := (b0 - 0xF0) * 262144 + (b1 - 0x80) * 4096 + (b2 - 0x80) * 64 + (b3 - 0x80);
      if 0x1_0000 <= v && IsScalar(v) then (v as char, 4) else (REPLACEMENT, 1)
    else (REPLACEMENT, 1)
  }

  /** `new String(bytes)`: decodes UTF-8, replacing malformed input by U+FFFD. */
  function Decode(b: seq<byte>): (s: string)
    ensures |s| <= |b|
    decreases |b|
  {
    if b == [] then [] else
      var (c, n) := DecodeFirst(b);
      [c] + Decode(b[n..])
  }

  lemma DecodeTwo(c: char, e: seq<byte>)
    requires 0x80 <= c as int < 0x800 && |e| >= 2
    requires e[0] == 0xC0 + (c as int) / 64 && e[1] == 0x80 + (c as int) % 64
    ensures DecodeFirst(e) == (c, 2)
  {
    var v := c as int;
    assert v == 64 * (v / 64) + v % 64;
    assert (e[0] as int - 0xC0) * 64 + (e[1] as int - 0x80) == v;
  }

  lemma DecodeThree(c: char, e: seq<byte>)
    requires 0x800 <= c as int < 0x1_0000 && |e| >= 3
    requires e[0] == 0xE0 + (c as int) / 4096 && e[1] == 0x80 + ((c as int) / 64) % 64
    requires e[2] == 0x80 + (c as int) % 64
    ensures DecodeFirst(e) == (c, 3)
  {
    var v := c as int;
    var q := v / 64;
    assert v == 64 * q + v % 64;
    assert q == 64 * (q / 64) + q % 64;
    assert q / 64 == v / 4096;
    assert (e[0] as int - 0xE0) * 4096 + (e[1] as int - 0x80) * 64 + (e[2] as int - 0x80) == v;
  }

  lemma DecodeFour(c: char, e: seq<byte>)
    requires 0x1_0000 <= c as int && |e| >= 4
    requires e[0] == 0xF0 + (c as int) / 262144 && e[1] == 0x80 + ((c as int) / 4096) % 64
    requires e[2] == 0x80 + ((c as int) / 64) % 64 && e[3] == 0x80 + (c as int) % 64
    ensures DecodeFirst(e) == (c, 4)
  {
    var v := c as int;
    var q := v / 64;
    var r := q / 64;
    assert v == 64 * q + v % 64;
    assert q == 64 * r + q % 64;
    assert r == 64 * (r / 64) + r % 64;
    assert r == v / 4096 && r / 64 == v / 262144;
    assert (e[0] as int - 0xF0) * 262144 + (e[1] as int - 0x80) * 4096 + (e[2] as int - 0x80) * 64 + (e[3] as int - 0x80) == v;
  }

  /** Decoding the encoding of one character gives that character back, consuming exactly its bytes. */
  lemma DecodeEncodeChar(c: char, rest: seq<byte>)
    ensures DecodeFirst(EncodeChar(c) + rest) == (c, |EncodeChar(c)|)
  {
    var v := c as int;
    var e := EncodeChar(c) + rest;
    if v < 0x80 {
    } else if v < 0x800 {
      DecodeTwo(c, e);
    } else if v < 0x1_0000 {
      DecodeThree(c, e);
    } else {
      DecodeFour(c, e);
    }
  }

  /** Round trip: a seed phrase read back from its bytes is the phrase that was written. */
  lemma {:induction false} DecodeEncode(s: string)
    ensures Decode(Encode(s)) == s
  {
    if s != [] {
      var e := EncodeChar(s[0]);
      DecodeEncodeChar(s[0], Encode(s[1..]));
      assert (e + Encode(s[1..]))[|e|..] == Encode(s[1..]);
      DecodeEncode(s[1..]);
    }
  }
}
