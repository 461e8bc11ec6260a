/** Decimal numbers as the plan and the output names write them.

    Reading takes any string of digits, leading zeros included; printing gives the shortest string, and
    the padded form puts zeros in front up to a width and never cuts. Printing and then reading gives the
    number back, so printed numbers are different when the numbers are, at every width. Names built
    from a prefix, a padded number and a suffix are therefore distinct as well. */
module Decimal {
  predicate IsDigit(c: char) { '0' <= c <= '9' }

  predicate AllDigits(s: string) {
    forall i :: 0 <= i < |s| ==> IsDigit(s[i])
  }

  function Value(s: string): nat
    requires AllDigits(s)
  {
    if s == [] then 0 else 10 * Value(s[..|s| - 1]) + (s[|s| - 1] as int - '0' as int)
  }

  function DigitChar(d: nat): (c: char)
    requires d < 10
    ensures IsDigit(c) && c as int - '0' as int == d
  {
    ('0' as int + d) as char
  }

  /** str(n) */
  function Print(n: nat): (s: string)
    ensures s != [] && AllDigits(s)
  {
    if n < 10 then [DigitChar(n)] else Print(n / 10) + [DigitChar(n % 10)]
  }

  lemma {:induction false} ValuePrint(n: nat)
    ensures Value(Print(n)) == n
  {
    if n < 10 {
      assert [DigitChar(n)][..0] == [];
    } else {
      ValuePrint(n / 10);
      var s := Print(n);
      assert s[..|s| - 1] == Print(n / 10);
    }
  }

  function Pow10(k: nat): nat { if k == 0 then 1 else 10 * Pow10(k - 1) }

  lemma {:induction false} PrintLength(n: nat, k: nat)
    requires 1 <= k && n < Pow10(k)
    ensures |Print(n)| <= k
    decreases k
  {
    if n >= 10 {
      PrintLength(n / 10, k - 1);
    }
  }

  /** `{n:0width}` */
  function Padded(n: nat, width: nat): (s: string)
    ensures s != [] && AllDigits(s)
  {
    var digits := Print(n);
    seq(if |digits| < width then width - |digits| else 0, _ => '0') + digits
  }

  lemma {:induction false} ValueLeadingZeros(k: nat, s: string)
    requires AllDigits(s)
    ensures AllDigits(seq(k, _ => '0') + s) && Value(seq(k, _ => '0') + s) == Value(s)
    decreases |s|, k
  {
    var zeros := seq(k, _ => '0');
    if s == [] {
      assert zeros + s == zeros;
      if k > 0 {
        assert zeros[..k - 1] == seq(k - 1, _ => '0') + [];
        ValueLeadingZeros(k - 1, []);
      }
    } else {
      var init := s[..|s| - 1];
      ValueLeadingZeros(k, init);
      assert (zeros + s)[..|zeros + s| - 1] == zeros + init;
    }
  }

  /** Padded numbers of any width determine the number. */
  lemma PaddedInjective(m: nat, n: nat, width: nat)
    requires Padded(m, width) == Padded(n, width)
    ensures m == n
  {
    ValuePadded(m, width);
    ValuePadded(n, width);
  }

  lemma ValuePadded(n: nat, width: nat)
    ensures Value(Padded(n, width)) == n
  {
    var digits := Print(n);
    ValueLeadingZeros(if |digits| < width then width - |digits| else 0, digits);
    ValuePrint(n);
  }

  /** A padded number has the width, unless its digits are more, and begins with zeros up to them. */
  lemma PaddedWidth(n: nat, width: nat)
    ensures |Padded(n, width)| == if |Print(n)| < width then width else |Print(n)|
    ensures var s, k := Padded(n, width), |Padded(n, width)| - |Print(n)|;
            s[k..] == Print(n) && forall i :: 0 <= i < k ==> s[i] == '0'
  {
  }
}
