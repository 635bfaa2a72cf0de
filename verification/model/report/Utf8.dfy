/** UTF-8 as section 4 of RFC 3629 defines it, and the validator of the JSON writer. */
module Utf8 {
  import opened Bytes

  /** A Unicode scalar value: a code point that is not a surrogate. */
  type Scalar = c: int | 0 <= c < 0xD800 || 0xE000 <= c < 0x110000

  /** The UTF-8 encoding of one scalar value (the table in section 3 of RFC 3629). */
  function Encode(c: Scalar): (s: bytes)
    ensures 1 <= |s| <= 4
  {
    if c < 0x80 then [c]
    else if c < 0x800 then [0xC0 + c / 64, 0x80 + c % 64]
    else if c < 0x10000 then [0xE0 + c / 4096, 0x80 + c / 64 % 64, 0x80 + c % 64]
    else [0xF0 + c / 262144, 0x80 + c / 4096 % 64, 0x80 + c / 64 % 64, 0x80 + c % 64]
  }

  function EncodeAll(cs: seq<Scalar>): bytes {
    if cs == [] then [] else Encode(cs[0]) + EncodeAll(cs[1..])
  }

  /** What it means to be UTF-8: some sequence of scalar values encodes to these bytes. */
  ghost predicate IsUtf8(s: bytes) {
    exists cs: seq<Scalar> :: s == EncodeAll(cs)
  }

  predicate IsContinuation(b: byte) {
    0x80 <= b <= 0xBF
  }

  /** The length of the encoded character s starts with, or 0 when it starts with none. */
  function CharLength(s: bytes): (n: nat)
    ensures n <= 4 && n <= |s|
  {
    if s == [] then 0
    else if s[0] <= 0x7F then 1
    else if 0xC2 <= s[0] <= 0xDF then
      if |s| >= 2 && IsContinuation(s[1]) then 2 else 0
    else if 0xE0 <= s[0] <= 0xEF then
      if |s| >= 3 && SecondOfThree(s[0], s[1]) && IsContinuation(s[2]) then 3 else 0
    else if 0xF0 <= s[0] <= 0xF4 then
      if |s| >= 4 && SecondOfFour(s[0], s[1]) && IsContinuation(s[2]) && IsContinuation(s[3]) then 4 else 0
    else 0
  }

  /** No overlong three-byte forms and no surrogates. */
  predicate SecondOfThree(first: byte, second: byte) {
    || (first == 0xE0 && 0xA0 <= second <= 0xBF)
    || (first == 0xED && 0x80 <= second <= 0x9F)
    || ((0xE1 <= first <= 0xEC || 0xEE <= first <= 0xEF) && IsContinuation(second))
  }

  /** No overlong four-byte forms and nothing beyond 10FFFF. */
  predicate SecondOfFour(first: byte, second: byte) {
    || (first == 0xF0 && 0x90 <= second <= 0xBF)
    || (first == 0xF4 && 0x80 <= second <= 0x8F)
    || (0xF1 <= first <= 0xF3 && IsContinuation(second))
  }

  predicate Valid(s: bytes) {
    s == [] || (CharLength(s) > 0 && Valid(s[CharLength(s)..]))
  }

  function Scalar3(a: int, b: int, c: int): int {
    (a - 0xE0) * 4096 + (b - 0x80) * 64 + (c - 0x80)
  }

  function Scalar4(a: int, b: int, c: int, d: int): int {
    (a - 0xF0) * 262144 + (b - 0x80) * 4096 + (c - 0x80) * 64 + (d - 0x80)
  }

  lemma SixBitDigits(h: nat, b: nat, c: nat, d: nat)
    requires b < 64 && c < 64 && d < 64
    ensures var x := h * 262144 + b * 4096 + c * 64 + d;
            x / 262144 == h && x / 4096 % 64 == b && x / 64 % 64 == c && x % 64 == d
  {
    var x := h * 262144 + b * 4096 + c * 64 + d;
    assert x / 64 == h * 4096 + b * 64 + c;
    assert x / 4096 == h * 64 + b;
  }

  lemma EncodeScalar3(a: byte, b: byte, c: byte)
    requires 0xE0 <= a <= 0xEF && SecondOfThree(a, b) && IsContinuation(c)
    ensures var x := Scalar3(a, b, c); 0x800 <= x < 0x10000 && !(0xD800 <= x < 0xE000) && Encode(x) == [a, b, c]
  {
    Scalar3Range(a, b, c);
    SixBitDigits(0, a - 0xE0, b - 0x80, c - 0x80);
    EncodeDigits3(Scalar3(a, b, c), a - 0xE0, b - 0x80, c - 0x80);
  }

  lemma Scalar3Range(a: byte, b: byte, c: byte)
    requires 0xE0 <= a <= 0xEF && SecondOfThree(a, b) && IsContinuation(c)
    ensures var x := Scalar3(a, b, c); 0x800 <= x < 0x10000 && !(0xD800 <= x < 0xE000)
  {
  }

  lemma EncodeDigits3(x: Scalar, i: int, j: int, k: int)
    requires 0x800 <= x < 0x10000 && x / 4096 % 64 == i < 16 && x / 64 % 64 == j && x % 64 == k
    ensures Encode(x) == [0xE0 + i, 0x80 + j, 0x80 + k]
  {
    assert x / 4096 < 16;
  }

  lemma Scalar4Range(a: byte, b: byte, c: byte, d: byte)
    requires 0xF0 <= a <= 0xF4 && SecondOfFour(a, b) && IsContinuation(c) && IsContinuation(d)
    ensures 0x10000 <= Scalar4(a, b, c, d) < 0x110000
  {
  }

  lemma EncodeScalar4(a: byte, b: byte, c: byte, d: byte)
    requires 0xF0 <= a <= 0xF4 && SecondOfFour(a, b) && IsContinuation(c) && IsContinuation(d)
    ensures 0x10000 <= Scalar4(a, b, c, d) < 0x110000 && Encode(Scalar4(a, b, c, d)) == [a, b, c, d]
  {
    Scalar4Range(a, b, c, d);
    SixBitDigits(a - 0xF0, b - 0x80, c - 0x80, d - 0x80);
    EncodeDigits4(Scalar4(a, b, c, d), a - 0xF0, b - 0x80, c - 0x80, d - 0x80);
  }

  lemma EncodeDigits4(x: Scalar, h: int, i: int, j: int, k: int)
    requires x >= 0x10000 && x / 262144 == h && x / 4096 % 64 == i && x / 64 % 64 == j && x % 64 == k
    ensures Encode(x) == [0xF0 + h, 0x80 + i, 0x80 + j, 0x80 + k]
  {
  }

  /** The scalar value a leading character encodes. */
  function Decode(s: bytes): (c: Scalar)
    requires CharLength(s) > 0
    ensures Encode(c) == s[..CharLength(s)]
  {
    if s[0] <= 0x7F then s[0]
    else if s[0] <= 0xDF then
      var a: int, b: int := s[0], s[1];
      (a - 0xC0) * 64 + (b - 0x80)
    else if s[0] <= 0xEF then
      EncodeScalar3(s[0], s[1], s[2]);
      Scalar3(s[0], s[1], s[2])
    else
      EncodeScalar4(s[0], s[1], s[2], s[3]);
      Scalar4(s[0], s[1], s[2], s[3])
  }

  lemma EncodeIsOneChar(c: Scalar)
    ensures CharLength(Encode(c)) == |Encode(c)|
  {
    if c >= 0x10000 {
      assert c / 4096 / 64 == c / 262144;
    } else if c >= 0x800 {
      assert c / 64 / 64 == c / 4096;
    }
  }

  lemma CharLengthAppend(s: bytes, rest: bytes)
    requires CharLength(s) > 0
    ensures CharLength(s + rest) == CharLength(s)
  {
  }

  lemma CharLengthOfEncode(c: Scalar, rest: bytes)
    ensures CharLength(Encode(c) + rest) == |Encode(c)|
  {
    EncodeIsOneChar(c);
    CharLengthAppend(Encode(c), rest);
  }

  /** The recursive check accepts exactly the encodings of scalar value sequences. */
  lemma {:induction false} ValidIffUtf8(s: bytes)
    ensures Valid(s) <==> IsUtf8(s)
  {
    if Valid(s) {
      var cs := DecodeAll(s);
    }
    if IsUtf8(s) {
      var cs: seq<Scalar> :| s == EncodeAll(cs);
      EncodeAllValid(cs);
    }
  }

  function DecodeAll(s: bytes): (cs: seq<Scalar>)
    requires Valid(s)
    ensures EncodeAll(cs) == s
  {
    if s == [] then [] else [Decode(s)] + DecodeAll(s[CharLength(s)..])
  }

  lemma {:induction false} EncodeAllValid(cs: seq<Scalar>)
    ensures Valid(EncodeAll(cs))
  {
    if cs != [] {
      EncodeAllValid(cs[1..]);
      ValidPrepend(cs[0], EncodeAll(cs[1..]));
    }
  }

  lemma ValidPrepend(c: Scalar, rest: bytes)
    requires Valid(rest)
    ensures Valid(Encode(c) + rest)
  {
    CharLengthOfEncode(c, rest);
    assert (Encode(c) + rest)[|Encode(c)|..] == rest;
  }

  lemma {:induction false} ValidConcat(s: bytes, t: bytes)
    requires Valid(s) && Valid(t)
    ensures Valid(s + t)
  {
    if s == [] {
      assert s + t == t;
    } else {
      var c, n := Decode(s), CharLength(s);
      var tail := s[n..];
      ValidConcat(tail, t);
      ValidPrepend(c, tail + t);
      ConcatAssociative(s, n, Encode(c), tail, t);
    }
  }

  lemma ConcatAssociative(s: bytes, n: nat, head: bytes, tail: bytes, t: bytes)
    requires n <= |s| && head == s[..n] && tail == s[n..]
    ensures head + (tail + t) == s + t
  {
  }

  lemma {:induction false} AsciiValid(s: bytes)
    requires forall i :: 0 <= i < |s| ==> s[i] < 128
    ensures Valid(s)
  {
    if s != [] {
      AsciiValid(s[1..]);
    }
  }

  /** is_valid_utf8 of the JSON writer: one pass, one character a turn. */
  method IsValidUtf8(value: bytes) returns (valid: bool)
    ensures valid <==> IsUtf8(value)
  {
    ValidIffUtf8(value);
    var index := 0;
    while index < |value|
      invariant 0 <= index <= |value|
      invariant Valid(value) == Valid(value[index..])
    {
      ghost var rest := value[index..];
      var first := value[index];
      if first <= 0x7F {
        index := index + 1;
        assert value[index..] == rest[1..];
        continue;
      }
      if first >= 0xC2 && first <= 0xDF {
        if index + 1 >= |value| || !IsContinuation(value[index + 1]) {
          return false;
        }
        index := index + 2;
        assert value[index..] == rest[2..];
        continue;
      }
      if first >= 0xE0 && first <= 0xEF {
        if index + 2 >= |value| {
          return false;
        }
        if !SecondOfThree(first, value[index + 1]) || !IsContinuation(value[index + 2]) {
          return false;
        }
        index := index + 3;
        assert value[index..] == rest[3..];
        continue;
      }
      if first >= 0xF0 && first <= 0xF4 {
        if index + 3 >= |value| {
          return false;
        }
        if !SecondOfFour(first, value[index + 1]) || !IsContinuation(value[index + 2])
           || !IsContinuation(value[index + 3]) {
          return false;
        }
        index := index + 4;
        assert value[index..] == rest[4..];
        continue;
      }
      return false;
    }
    return true;
  }
}
