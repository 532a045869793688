/** Decimal numerals as text: printing a number and reading it back. */
module Digits {
  predicate IsDigit(c: char) { '0' <= c <= '9' }

  predicate AllDigits(s: string) {
    forall i :: 0 <= i < |s| ==> IsDigit(s[i])
  }

  function DigitChar(d: nat): (c: char)
    requires d < 10
    ensures IsDigit(c) && DigitValue(c) == d
  {
    '0' + d as char
  }

  function DigitValue(c: char): (d: nat)
    requires IsDigit(c)
    ensures d < 10
  {
    (c - '0') as nat
  }

  function PrintNat(n: nat): (s: string)
    ensures |s| > 0 && AllDigits(s)
  {
    if n < 10 then [DigitChar(n)] else PrintNat(n / 10) + [DigitChar(n % 10)]
  }

  /** Exactly `width` digits, leading zeros included. */
  function PrintPadded(n: nat, width: nat): (s: string)
    ensures |s| == width && AllDigits(s)
  {
    if width == 0 then "" else PrintPadded(n / 10, width - 1) + [DigitChar(n % 10)]
  }

  function ReadNat(s: string): nat
    requires AllDigits(s)
  {
    if s == "" then 0 else 10 * ReadNat(s[..|s| - 1]) + DigitValue(s[|s| - 1])
  }

  function Pow10(k: nat): (p: nat)
    ensures p > 0
  {
    if k == 0 then 1 else 10 * Pow10(k - 1)
  }

  lemma {:induction false} ReadPrint(n: nat)
    ensures ReadNat(PrintNat(n)) == n
  {
    if n >= 10 {
      ReadPrint(n / 10);
      assert PrintNat(n)[..|PrintNat(n)| - 1] == PrintNat(n / 10);
    }
  }

  lemma {:induction false} ReadPadded(n: nat, width: nat)
    requires n < Pow10(width)
    ensures ReadNat(PrintPadded(n, width)) == n
  {
    if width > 0 {
      ReadPadded(n / 10, width - 1);
      assert PrintPadded(n, width)[..width - 1] == PrintPadded(n / 10, width - 1);
    }
  }

  /** `n` without its last `k` digits. */
  function Upper(n: nat, k: nat): nat {
    if k == 0 then n else Upper(n / 10, k - 1)
  }

  /** Printing in two parts, the last `width` digits apart, loses nothing. */
  lemma {:induction false} ReadInParts(n: nat, width: nat)
    ensures ReadNat(PrintNat(Upper(n, width)) + PrintPadded(n, width)) == n
  {
    var upper, lower := PrintNat(Upper(n, width)), PrintPadded(n, width);
    if width == 0 {
      assert upper + lower == upper;
      ReadPrint(n);
    } else {
      ReadInParts(n / 10, width - 1);
      assert (upper + lower)[..|upper + lower| - 1] == upper + PrintPadded(n / 10, width - 1);
    }
  }
}
