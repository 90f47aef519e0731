/**
 * UTF-8 for a single character. A Dafny `char` is a Unicode scalar value, so
 * every character has an encoding of one to four bytes.
 */
module Utf8Char {
  import opened Optional

  type byte = b: int | 0 <= b < 256

  /** The code points a `char` can hold: everything below U+110000 except the surrogates. */
  predicate IsScalar(n: int) {
    0 <= n < 0xD800 || 0xE000 <= n < 0x11_0000
  }

  /** A continuation byte `10xxxxxx`. */
  predicate IsContinuation(b: byte) {
    0x80 <= b < 0xC0
  }

  /** The number of bytes UTF-8 spends on code point `n`. */
  function EncodedLength(n: int): nat {
    if n < 0x80 then 1 else if n < 0x800 then 2 else if n < 0x1_0000 then 3 else 4
  }

  function EncodeChar(c: char): (bs: seq<byte>)
    ensures |bs| == EncodedLength(c as int)
    ensures |bs| == 1 <==> bs[0] < 0x80
    ensures forall i :: 1 <= i < |bs| ==> IsContinuation(bs[i])
  {
    var n := c as int;
    var n1 := n / 64;
    var n2 := n1 / 64;
    var n3 := n2 / 64;
    if n < 0x80 then
      [n]
    else if n < 0x800 then
      [0xC0 + n1, 0x80 + n % 64]
    else if n < 0x1_0000 then
      [0xE0 + n2, 0x80 + n1 % 64, 0x80 + n % 64]
    else
      [0xF0 + n3, 0x80 + n2 % 64, 0x80 + n1 % 64, 0x80 + n % 64]
  }

  /** Appends the six payload bits of continuation byte `b` to `high`. */
  function Join(high: int, b: int): int {
    high * 64 + (b - 0x80)
  }

  /** Reads one character from the front of `bs`, with the number of bytes it used. */
  function DecodeChar(bs: seq<byte>): (r: Option<(char, nat)>)
    requires bs != []
    ensures r.Some? ==> 1 <= r.value.1 <= |bs|
  {
    var b0: int := bs[0];
    var b1: int := if |bs| > 1 then bs[1] else 0;
    var b2: int := if |bs| > 2 then bs[2] else 0;
    var b3: int := if |bs| > 3 then bs[3] else 0;
    if b0 < 0x80 then
      Some((b0 as char, 1))
    else if 0xC0 <= b0 < 0xE0 && |bs| >= 2 && IsContinuation(bs[1]) then
      var n := Join(b0 - 0xC0, b1);
      if IsScalar(n) then Some((n as char, 2)) else None
    else if 0xE0 <= b0 < 0xF0 && |bs| >= 3 && IsContinuation(bs[1]) && IsContinuation(bs[2]) then
      var n := Join(Join(b0 - 0xE0, b1), b2);
      if IsScalar(n) then Some((n as char, 3)) else None
    else if 0xF0 <= b0 < 0xF8 && |bs| >= 4 && IsContinuation(bs[1]) && IsContinuation(bs[2]) && IsContinuation(bs[3]) then
      var n := Join(Join(Join(b0 - 0xF0, b1), b2), b3);
      if IsScalar(n) then Some((n as char, 4)) else None
    else
      None
  }

  /** Splitting off the low six bits of `n` and joining them back gives `n`. */
  lemma JoinSplit(n: int)
    requires n >= 0
    ensures Join(n / 64, 0x80 + n % 64) == n
  {
  }

  /** Each character's encoding reads back as that character, whatever follows it. */
  lemma DecodeEncodeChar(c: char, rest: seq<byte>)
    ensures DecodeChar(EncodeChar(c) + rest) == Some((c, |EncodeChar(c)|))
  {
    var n := c as int;
    var n1 := n / 64;
    var n2 := n1 / 64;
    var bs := EncodeChar(c) + rest;
    JoinSplit(n);
    JoinSplit(n1);
    JoinSplit(n2);
    if n < 0x80 {
    } else if n < 0x800 {
      assert bs[..2] == [0xC0 + n1, 0x80 + n % 64];
    } else if n < 0x1_0000 {
      assert bs[..3] == [0xE0 + n2, 0x80 + n1 % 64, 0x80 + n % 64];
    } else {
      assert n2 / 64 <= 4;
      assert bs[..4] == [0xF0 + n2 / 64, 0x80 + n2 % 64, 0x80 + n1 % 64, 0x80 + n % 64];
    }
  }
}
