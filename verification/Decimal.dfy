/** Decimal numerals, and the zero-padded directory names made of them. */
module Decimal {
  predicate IsDigit(c: char) {
    '0' <= c <= '9'
  }

  predicate AllDigits(s: string) {
    forall i :: 0 <= i < |s| ==> IsDigit(s[i])
  }

  /** `name.isdigit()` for ASCII names. */
  predicate IsNumeral(s: string) {
    |s| > 0 && AllDigits(s)
  }

  function Parse(s: string): nat
    requires AllDigits(s)
  {
    if s == [] then 0
    else
      var last := s[|s| - 1];
      assert IsDigit(last);
      10 * Parse(s[..|s| - 1]) + (last as int - '0' as int)
  }

  function DigitChar(d: nat): (c: char)
    requires d < 10
    ensures IsDigit(c) && c as int - '0' as int == d
  {
    ('0' as int + d) as char
  }

  /** The numeral of a number, without leading zeros. */
  function Print(n: nat): (s: string)
    ensures IsNumeral(s)
  {
    if n < 10 then [DigitChar(n)] else Print(n / 10) + [DigitChar(n % 10)]
  }

  lemma {:induction false} ParsePrint(n: nat)
    ensures Parse(Print(n)) == n
  {
    if n < 10 {
      assert [DigitChar(n)][..0] == [];
    } else {
      ParsePrint(n / 10);
      assert (Print(n / 10) + [DigitChar(n % 10)])[..|Print(n / 10)|] == Print(n / 10);
    }
  }

  function Zeros(k: nat): (s: string)
    ensures |s| == k && AllDigits(s) && forall i :: 0 <= i < k ==> s[i] == '0'
  {
    seq(k, _ => '0')
  }

  /** `f"{n:04d}"` */
  function Pad4(n: nat): (s: string)
    ensures IsNumeral(s) && |s| >= 4
  {
    if |Print(n)| >= 4 then Print(n) else Zeros(4 - |Print(n)|) + Print(n)
  }

  /** Four characters, unless the number needs more. */
  lemma Pad4Length(n: nat)
    ensures |Pad4(n)| == 4 <==> n < 10_000
    ensures n >= 10_000 ==> Pad4(n) == Print(n)
  {
    DigitsOf(n);
    DigitsOf(n / 10);
    DigitsOf(n / 100);
    DigitsOf(n / 1000);
    DigitsOf(n / 10_000);
  }

  lemma DigitsOf(n: nat)
    ensures |Print(n)| == if n < 10 then 1 else |Print(n / 10)| + 1
  {
  }

  lemma {:induction false} LeadingZeros(k: nat, s: string)
    requires AllDigits(s)
    ensures Parse(Zeros(k) + s) == Parse(s)
    decreases |s|, k
  {
    if s == [] {
      assert Zeros(k) + s == Zeros(k);
      if k > 0 {
        assert Zeros(k)[..k - 1] == Zeros(k - 1) + [];
        LeadingZeros(k - 1, []);
        assert Zeros(k - 1) + [] == Zeros(k - 1);
      }
    } else {
      var last := |s| - 1;
      assert (Zeros(k) + s)[..k + last] == Zeros(k) + s[..last];
      LeadingZeros(k, s[..last]);
    }
  }

  /** Reading a padded name gives the number back. */
  lemma ParsePad4(n: nat)
    ensures Parse(Pad4(n)) == n
  {
    ParsePrint(n);
    if |Print(n)| < 4 {
      LeadingZeros(4 - |Print(n)|, Print(n));
    }
  }
}
