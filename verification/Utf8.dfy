/** `Text.Bytes` is the length in UTF-8: text encoded byte by byte (section 3 of RFC 3629) has that many
    bytes, and a decoder that refuses longer forms than necessary gives the text back. */
module Utf8 {
  import opened Text

  function Tail(n: nat): int { 0x80 + n % 64 }

  /** The bytes of one scalar value. */
  function EncodeChar(c: char): (bs: seq<int>)
    ensures |bs| == CharBytes(c)
  {
    var n := c as int;
    match CharBytes(c)
    case 1 => [n]
    case 2 => [0xC0 + n / 64, Tail(n)]
    case 3 => [0xE0 + n / 64 / 64, Tail(n / 64), Tail(n)]
    case 4 => [0xF0 + n / 64 / 64 / 64, Tail(n / 64 / 64), Tail(n / 64), Tail(n)]
  }

  function Encode(s: string): seq<int> { if s == [] then [] else EncodeChar(s[0]) + Encode(s[1..]) }

  /** The first scalar value and its bytes, or nothing. */
  datatype First = Malformed | Scalar(value: int, length: nat)

  predicate IsTail(bs: seq<int>, i: nat) { i < |bs| && 0x80 <= bs[i] < 0xC0 }

  /** `value` from `length` bytes, unless it fits in fewer. */
  function AtLeast(value: int, least: int, length: nat): First {
    if least <= value <= 0x10FFFF then Scalar(value, length) else Malformed
  }

  function DecodeFirst(bs: seq<int>): (f: First)
    ensures f.Scalar? ==> 1 <= f.length <= |bs|
  {
    if bs == [] then Malformed
    else if 0 <= bs[0] < 0x80 then Scalar(bs[0], 1)
    else if 0xC0 <= bs[0] < 0xE0 && IsTail(bs, 1) then AtLeast(64 * (bs[0] - 0xC0) + (bs[1] - 0x80), 0x80, 2)
    else if 0xE0 <= bs[0] < 0xF0 && IsTail(bs, 1) && IsTail(bs, 2) then
      AtLeast(64 * (64 * (bs[0] - 0xE0) + (bs[1] - 0x80)) + (bs[2] - 0x80), 0x800, 3)
    else if 0xF0 <= bs[0] < 0xF8 && IsTail(bs, 1) && IsTail(bs, 2) && IsTail(bs, 3) then
      AtLeast(64 * (64 * (64 * (bs[0] - 0xF0) + (bs[1] - 0x80)) + (bs[2] - 0x80)) + (bs[3] - 0x80), 0x10000, 4)
    else Malformed
  }

  /** The scalar values of well-formed bytes. */
  function Decode(bs: seq<int>): (values: seq<int>) {
    match DecodeFirst(bs)
    case Malformed => []
    case Scalar(value, length) => [value] + Decode(bs[length..])
  }

  function Values(s: string): seq<int> { seq(|s|, i requires 0 <= i < |s| => s[i] as int) }

  lemma Digit(n: nat)
    ensures 64 * (n / 64) + (Tail(n) - 0x80) == n && 0x80 <= Tail(n) < 0xC0
  {
  }

  lemma CharDecodes(c: char, rest: seq<int>)
    ensures DecodeFirst(EncodeChar(c) + rest) == Scalar(c as int, CharBytes(c))
  {
    var n := c as int;
    Digit(n);
    Digit(n / 64);
    Digit(n / 64 / 64);
    hide Tail;
  }

  lemma {:induction false} EncodeLength(s: string)
    ensures |Encode(s)| == Bytes(s)
  {
    if s != [] { EncodeLength(s[1..]); }
  }

  /** Encoding has as many bytes as `Bytes` says, and decoding it gives the text back. */
  lemma {:induction false} EncodeDecodes(s: string)
    ensures |Encode(s)| == Bytes(s) && Decode(Encode(s)) == Values(s)
  {
    EncodeLength(s);
    if s != [] {
      hide DecodeFirst, EncodeChar;
      EncodeDecodes(s[1..]);
      var bs := EncodeChar(s[0]) + Encode(s[1..]);
      CharDecodes(s[0], Encode(s[1..]));
      assert bs[CharBytes(s[0])..] == Encode(s[1..]);
      assert Values(s) == [s[0] as int] + Values(s[1..]);
    }
  }
}
