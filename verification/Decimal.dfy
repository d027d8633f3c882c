/** Decimal notation of integers, as template literals, toString and BigInt produce and read it. */
module Decimal {

  function Digit(d: nat): char
    requires d < 10
  {
    (('0' as int) + d) as char
  }

  predicate IsDigit(c: char) {
    '0' <= c <= '9'
  }

  function DigitValue(c: char): nat
    requires IsDigit(c)
  {
    (c as int) - ('0' as int)
  }

  predicate AllDigits(s: string) {
    forall i :: 0 <= i < |s| ==> IsDigit(s[i])
  }

  function PrintNat(n: nat): string {
    if n < 10 then [Digit(n)] else PrintNat(n / 10) + [Digit(n % 10)]
  }

  function PrintInt(n: int): string {
    if n < 0 then "-" + PrintNat(-n) else PrintNat(n)
  }

  /** Reads a string of digits; the empty string reads as zero. */
  function ParseNat(s: string): nat
    requires AllDigits(s)
  {
    if s == [] then 0 else 10 * ParseNat(s[..|s| - 1]) + DigitValue(s[|s| - 1])
  }

  lemma {:induction false} PrintDigits(n: nat)
    ensures AllDigits(PrintNat(n)) && PrintNat(n) != []
  {
    if n >= 10 {
      PrintDigits(n / 10);
    }
  }

  lemma {:induction false} ParsePrint(n: nat)
    ensures AllDigits(PrintNat(n)) && ParseNat(PrintNat(n)) == n
  {
    PrintDigits(n);
    if n < 10 {
      assert PrintNat(n)[..0] == [];
    } else {
      ParsePrint(n / 10);
      assert PrintNat(n)[..|PrintNat(n)| - 1] == PrintNat(n / 10);
    }
  }

  /** An integer prints with a sign exactly if it is negative, and its digits read as its size. */
  lemma PrintIntReads(n: int)
    ensures n < 0 ==> PrintInt(n)[0] == '-' && AllDigits(PrintInt(n)[1..]) && ParseNat(PrintInt(n)[1..]) == -n
    ensures n >= 0 ==> AllDigits(PrintInt(n)) && ParseNat(PrintInt(n)) == n
  {
    if n < 0 {
      ParsePrint(-n);
      assert PrintInt(n)[1..] == PrintNat(-n);
    } else {
      ParsePrint(n);
    }
  }

  function Zeros(k: nat): string {
    seq(k, _ => '0')
  }

  /** padStart(width, "0") */
  function PadStart(s: string, width: nat): string {
    if |s| < width then Zeros(width - |s|) + s else s
  }

  /** padEnd(width, "0") */
  function PadEnd(s: string, width: nat): string {
    if |s| < width then s + Zeros(width - |s|) else s
  }

  lemma {:induction false} ParseLeadingZeros(k: nat, s: string)
    requires AllDigits(s)
    ensures AllDigits(Zeros(k) + s) && ParseNat(Zeros(k) + s) == ParseNat(s)
    decreases |s|, k
  {
    var t := Zeros(k) + s;
    if s == [] {
      if k > 0 {
        assert t[..|t| - 1] == Zeros(k - 1) + s;
        ParseLeadingZeros(k - 1, s);
      }
    } else {
      assert t[..|t| - 1] == Zeros(k) + s[..|s| - 1];
      assert t[|t| - 1] == s[|s| - 1];
      ParseLeadingZeros(k, s[..|s| - 1]);
    }
  }

  lemma {:induction false} ParseTrailingZeros(s: string, k: nat)
    requires AllDigits(s)
    ensures AllDigits(s + Zeros(k)) && ParseNat(s + Zeros(k)) == ParseNat(s) * Pow10(k)
  {
    if k == 0 {
      assert s + Zeros(0) == s;
    } else {
      ParseTrailingZeros(s, k - 1);
      var t := s + Zeros(k - 1);
      assert s + Zeros(k) == t + ['0'];
      ParsePush(t, '0');
      TimesTen(ParseNat(s), Pow10(k - 1));
      hide ParseNat;
    }
  }

  lemma ParsePush(s: string, c: char)
    requires AllDigits(s) && IsDigit(c)
    ensures AllDigits(s + [c]) && ParseNat(s + [c]) == 10 * ParseNat(s) + DigitValue(c)
  {
    assert (s + [c])[..|s|] == s;
  }

  lemma TimesTen(p: nat, q: nat)
    ensures 10 * (p * q) == p * (10 * q)
  {
  }

  lemma {:induction false} PrintLength(n: nat, width: nat)
    requires width > 0 && n < Pow10(width)
    ensures |PrintNat(n)| <= width
    decreases width
  {
    if n >= 10 {
      assert width > 1;
      PrintLength(n / 10, width - 1);
    }
  }

  function Pow10(k: nat): nat {
    if k == 0 then 1 else 10 * Pow10(k - 1)
  }
}
