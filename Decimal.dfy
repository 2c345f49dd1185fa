/**
 * Decimal rendering of non-negative integers, as Python's `str(n)` (used in the
 * index lines and the pagination query) and `%04d` (used in the file names)
 * produce it, together with the parser that reads such text back.
 */
module Decimal {

  predicate IsDigit(c: char) {
    '0' <= c <= '9'
  }

  predicate AllDigits(s: string) {
    forall i :: 0 <= i < |s| ==> IsDigit(s[i])
  }

  function DigitChar(d: nat): (c: char)
    requires d < 10
    ensures IsDigit(c) && c as int - '0' as int == d
  {
    ('0' as int + d) as char
  }

  function DigitValue(c: char): (d: nat)
    requires IsDigit(c)
    ensures d < 10
  {
    c as int - '0' as int
  }

  /** `str(n)`: the shortest decimal numeral of n, with no sign and no leading zero. */
  function NatToString(n: nat): (s: string)
    ensures |s| >= 1 && AllDigits(s)
    ensures s[0] == '0' ==> n == 0
  {
    if n < 10 then [DigitChar(n)] else NatToString(n / 10) + [DigitChar(n % 10)]
  }

  /** The value of a numeral; leading zeros contribute nothing. */
  function ParseDecimal(s: string): nat
    requires AllDigits(s)
  {
    if s == [] then 0 else ParseDecimal(s[..|s| - 1]) * 10 + DigitValue(s[|s| - 1])
  }

  function Zeros(k: nat): (s: string)
    ensures |s| == k && AllDigits(s)
    ensures forall i :: 0 <= i < k ==> s[i] == '0'
  {
    if k == 0 then [] else Zeros(k - 1) + ['0']
  }

  /** `%04d` applied to n: at least four digits, zero-padded on the left. */
  function Pad4(n: nat): (s: string)
    ensures |s| == if |NatToString(n)| >= 4 then |NatToString(n)| else 4
    ensures AllDigits(s)
    ensures |NatToString(n)| >= 4 ==> s == NatToString(n)
  {
    var digits := NatToString(n);
    if |digits| >= 4 then digits else Zeros(4 - |digits|) + digits
  }

  lemma {:induction false} ParseNatToString(n: nat)
    ensures ParseDecimal(NatToString(n)) == n
  {
    if n >= 10 {
      var s := NatToString(n);
      assert s[..|s| - 1] == NatToString(n / 10);
      ParseNatToString(n / 10);
    }
  }

  lemma {:induction false} ParseZeros(k: nat)
    ensures ParseDecimal(Zeros(k)) == 0
  {
    if k > 0 {
      assert Zeros(k)[..k - 1] == Zeros(k - 1);
      ParseZeros(k - 1);
    }
  }

  lemma {:induction false} ParseLeadingZeros(k: nat, s: string)
    requires AllDigits(s)
    ensures ParseDecimal(Zeros(k) + s) == ParseDecimal(s)
  {
    if s == [] {
      assert Zeros(k) + s == Zeros(k);
      ParseZeros(k);
    } else {
      var t := Zeros(k) + s;
      assert t[..|t| - 1] == Zeros(k) + s[..|s| - 1];
      ParseLeadingZeros(k, s[..|s| - 1]);
    }
  }

  /** Reading a `%04d` field back gives the number that was written. */
  lemma Pad4RoundTrip(n: nat)
    ensures ParseDecimal(Pad4(n)) == n
  {
    var digits := NatToString(n);
    if |digits| < 4 {
      ParseLeadingZeros(4 - |digits|, digits);
    }
    ParseNatToString(n);
  }

  /** Distinct numbers have distinct numerals. */
  lemma NatToStringInjective(a: nat, b: nat)
    requires NatToString(a) == NatToString(b)
    ensures a == b
  {
    ParseNatToString(a);
    ParseNatToString(b);
  }

  /** Distinct numbers have distinct `%04d` renderings. */
  lemma Pad4Injective(a: nat, b: nat)
    requires Pad4(a) == Pad4(b)
    ensures a == b
  {
    Pad4RoundTrip(a);
    Pad4RoundTrip(b);
  }

  /** Numbers up to 9999 render in exactly four characters. */
  lemma {:induction false} Pad4FixedWidth(n: nat)
    requires n <= 9999
    ensures |Pad4(n)| == 4
  {
    NatToStringLength(n);
  }

  lemma {:induction false} NatToStringLength(n: nat)
    ensures n < 10000 ==> |NatToString(n)| <= 4
    ensures n < 1000 ==> |NatToString(n)| <= 3
    ensures n < 100 ==> |NatToString(n)| <= 2
  {
    if n >= 10 {
      NatToStringLength(n / 10);
    }
  }
}
