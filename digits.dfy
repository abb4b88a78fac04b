/**
 * Decimal digit strings: PHP's integer-to-string conversion, `str_pad` with
 * STR_PAD_LEFT, and reading a digit string back as a number.
 */
module Digits {
  import opened Decimal

  predicate IsDigit(c: char)
  {
    '0' <= c <= '9'
  }

  predicate AllDigits(s: string)
  {
    forall i :: 0 <= i < |s| ==> IsDigit(s[i])
  }

  function DigitChar(d: nat): (c: char)
    requires d < 10
    ensures IsDigit(c)
  {
    ('0' as int + d) as char
  }

  function DigitValue(c: char): (d: nat)
    requires IsDigit(c)
    ensures d < 10
  {
    c as int - '0' as int
  }

  /** The decimal text of a non-negative integer, without leading zeros ("0" for zero). */
  function NatToString(n: nat): (s: string)
    ensures 1 <= |s| && AllDigits(s)
    decreases n
  {
    if n < 10 then [DigitChar(n)] else NatToString(n / 10) + [DigitChar(n % 10)]
  }

  /** `count` copies of `c`. */
  function Repeat(c: char, count: nat): (s: string)
    ensures |s| == count
    ensures forall i :: 0 <= i < count ==> s[i] == c
  {
    if count == 0 then [] else Repeat(c, count - 1) + [c]
  }

  /**
   * `str_pad($s, $length, $pad, STR_PAD_LEFT)` with a one-character pad: pad
   * on the left up to `length`; a string already that long is returned as is.
   */
  function StrPadLeft(s: string, length: nat, pad: char): (r: string)
    ensures |r| == if |s| >= length then |s| else length
    ensures r[|r| - |s|..] == s
    ensures forall i :: 0 <= i < |r| - |s| ==> r[i] == pad
  {
    if |s| >= length then s else Repeat(pad, length - |s|) + s
  }

  /** The value of a digit string, most significant digit first; the empty string reads as zero. */
  function ParseDigits(s: string): (v: nat)
    requires AllDigits(s)
    ensures v == 0 <==> forall i :: 0 <= i < |s| ==> s[i] == '0'
  {
    if s == [] then 0 else ParseDigits(s[..|s| - 1]) * 10 + DigitValue(s[|s| - 1])
  }

  /** `n` written with at least `width` digits, zero-padded on the left. */
  function PadDigits(n: nat, width: nat): (p: string)
    ensures |p| >= width && AllDigits(p)
  {
    StrPadLeft(NatToString(n), width, '0')
  }

  /** Reading the decimal text of n gives back n. */
  lemma {:induction false} ParseNatToString(n: nat)
    ensures ParseDigits(NatToString(n)) == n
    decreases n
  {
    var s := NatToString(n);
    if n >= 10 {
      ParseNatToString(n / 10);
      assert s[..|s| - 1] == NatToString(n / 10);
    }
  }

  /** A number below 10^k has at most k digits. */
  lemma {:induction false} NatToStringLength(n: nat, k: nat)
    requires 1 <= k && n < Pow10(k)
    ensures |NatToString(n)| <= k
    decreases k
  {
    if n >= 10 {
      assert k >= 2;
      assert n / 10 < Pow10(k - 1);
      NatToStringLength(n / 10, k - 1);
    }
  }

  /** Leading zeros do not change the value of a digit string. */
  lemma {:induction false} ParseLeadingZeros(zeros: string, s: string)
    requires forall i :: 0 <= i < |zeros| ==> zeros[i] == '0'
    requires AllDigits(s)
    ensures AllDigits(zeros + s)
    ensures ParseDigits(zeros + s) == ParseDigits(s)
    decreases |s|
  {
    var t := zeros + s;
    assert forall i :: 0 <= i < |t| ==> IsDigit(t[i]);
    if s == [] {
      assert t == zeros;
      AllZeros(zeros);
    } else {
      assert t[..|t| - 1] == zeros + s[..|s| - 1];
      ParseLeadingZeros(zeros, s[..|s| - 1]);
    }
  }

  lemma {:induction false} AllZeros(zeros: string)
    requires forall i :: 0 <= i < |zeros| ==> zeros[i] == '0'
    ensures AllDigits(zeros) && ParseDigits(zeros) == 0
    decreases |zeros|
  {
    if zeros != [] {
      AllZeros(zeros[..|zeros| - 1]);
    }
  }

  /**
   * Zero-padding round-trips: a number below 10^width padded to width digits
   * is exactly width digits long and reads back as the number.
   */
  lemma PadDigitsRoundTrip(n: nat, width: nat)
    requires 1 <= width && n < Pow10(width)
    ensures |PadDigits(n, width)| == width
    ensures AllDigits(PadDigits(n, width))
    ensures ParseDigits(PadDigits(n, width)) == n
  {
    var s := NatToString(n);
    NatToStringLength(n, width);
    var zeros := Repeat('0', width - |s|);
    assert PadDigits(n, width) == zeros + s;
    ParseNatToString(n);
    ParseLeadingZeros(zeros, s);
  }

  /** Different numbers below 10^width get different padded texts. */
  lemma PadDigitsInjective(m: nat, n: nat, width: nat)
    requires 1 <= width && m < Pow10(width) && n < Pow10(width)
    requires PadDigits(m, width) == PadDigits(n, width)
    ensures m == n
  {
    PadDigitsRoundTrip(m, width);
    PadDigitsRoundTrip(n, width);
  }
}
