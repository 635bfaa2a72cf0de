/** Byte strings and the ASCII and decimal text the report protocol is written in. */
module Bytes {
  type byte = x: int | 0 <= x < 256
  type bytes = seq<byte>

  /** The bytes of an ASCII literal; anything outside ASCII becomes a question mark. */
  function Ascii(s: string): (b: bytes)
    ensures |b| == |s|
    ensures forall i :: 0 <= i < |b| ==> b[i] < 128
  {
    if s == [] then [] else [if s[0] as int < 128 then s[0] as int else 63] + Ascii(s[1..])
  }

  predicate IsAscii(s: string) {
    forall i :: 0 <= i < |s| ==> s[i] as int < 128
  }

  lemma {:induction false} AsciiInjective(s: string, t: string)
    requires IsAscii(s) && IsAscii(t)
    ensures Ascii(s) == Ascii(t) <==> s == t
  {
    if s != [] && t != [] {
      AsciiInjective(s[1..], t[1..]);
      assert s == [s[0]] + s[1..] && t == [t[0]] + t[1..];
      assert Ascii(s)[1..] == Ascii(s[1..]) && Ascii(t)[1..] == Ascii(t[1..]);
      assert Ascii(s) == Ascii(t) ==> Ascii(s)[0] == Ascii(t)[0];
    }
  }

  predicate IsDigit(b: byte) {
    0x30 <= b <= 0x39
  }

  predicate AllDigits(s: bytes) {
    forall i :: 0 <= i < |s| ==> IsDigit(s[i])
  }

  /** Decimal text without leading zeros, as std::to_chars and Python's str write it. */
  function Decimal(n: nat): (s: bytes)
    ensures s != [] && AllDigits(s)
    ensures s[0] == 0x30 ==> n == 0 && |s| == 1
  {
    if n < 10 then [0x30 + n] else Decimal(n / 10) + [0x30 + n % 10]
  }

  /** The number a digit string denotes. */
  function DecimalValue(s: bytes): nat
    requires AllDigits(s)
  {
    if s == [] then 0 else 10 * DecimalValue(s[..|s| - 1]) + (s[|s| - 1] - 0x30)
  }

  lemma {:induction false} DecimalRoundTrip(n: nat)
    ensures DecimalValue(Decimal(n)) == n
  {
    if n >= 10 {
      DecimalRoundTrip(n / 10);
      assert Decimal(n)[..|Decimal(n)| - 1] == Decimal(n / 10);
    }
  }

  /** Digit strings without a leading zero are exactly the decimal texts. */
  lemma {:induction false} DecimalCanonical(s: bytes)
    requires s != [] && AllDigits(s) && (s[0] != 0x30 || |s| == 1)
    ensures Decimal(DecimalValue(s)) == s
  {
    if |s| > 1 {
      DecimalCanonical(s[..|s| - 1]);
      DecimalPositive(s[..|s| - 1]);
    } else {
      assert s[..0] == [];
    }
  }

  lemma {:induction false} DecimalPositive(s: bytes)
    requires s != [] && AllDigits(s) && s[0] != 0x30
    ensures DecimalValue(s) >= 1
  {
    if |s| > 1 {
      DecimalPositive(s[..|s| - 1]);
    } else {
      assert s[..0] == [];
    }
  }

  function Pow10(k: nat): (p: nat)
    ensures p >= 1
  {
    if k == 0 then 1 else 10 * Pow10(k - 1)
  }

  /** A decimal text has at most k digits exactly when its number is below 10^k. */
  lemma {:induction false} DecimalLength(n: nat, k: nat)
    requires k >= 1
    ensures |Decimal(n)| <= k <==> n < Pow10(k)
  {
    if k == 1 {
      assert Pow10(1) == 10 * Pow10(0);
    } else if n >= 10 {
      DecimalLength(n / 10, k - 1);
    } else {
      assert Pow10(k) == 10 * Pow10(k - 1);
    }
  }

  /** The digits in front. */
  function LeadingDigits(s: bytes): (n: nat)
    ensures n <= |s| && AllDigits(s[..n])
    ensures n < |s| ==> !IsDigit(s[n])
  {
    if s == [] || !IsDigit(s[0]) then 0
    else
      var n := 1 + LeadingDigits(s[1..]);
      assert s[..n] == [s[0]] + s[1..][..n - 1];
      n
  }

  lemma {:induction false} LeadingDigitsAppend(s: bytes, rest: bytes)
    requires LeadingDigits(s) < |s| || rest == [] || !IsDigit(rest[0])
    ensures LeadingDigits(s + rest) == LeadingDigits(s)
  {
    if s != [] && IsDigit(s[0]) {
      LeadingDigitsAppend(s[1..], rest);
      assert (s + rest)[1..] == s[1..] + rest;
    } else if s == [] {
      assert s + rest == rest;
    }
  }

  lemma {:induction false} DigitsLead(s: bytes)
    requires AllDigits(s)
    ensures LeadingDigits(s) == |s|
  {
    if s != [] {
      DigitsLead(s[1..]);
    }
  }
}
