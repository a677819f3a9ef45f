/** Decimal digit text: PHP's conversion of a non-negative integer to a string,
    fixed-width zero-padded digit groups, and the value a string of digits denotes. */
module Digits {

  predicate IsDigit(ch: char) {
    '0' <= ch <= '9'
  }

  predicate AllDigits(s: string) {
    forall i :: 0 <= i < |s| ==> IsDigit(s[i])
  }

  function Pow10(k: nat): (p: nat)
    ensures p >= 1
  {
    if k == 0 then 1 else 10 * Pow10(k - 1)
  }

  function DigitChar(d: nat): (ch: char)
    requires d < 10
    ensures IsDigit(ch) && ch as int - '0' as int == d
  {
    ('0' as int + d) as char
  }

  function DigitValue(ch: char): (d: nat)
    requires IsDigit(ch)
    ensures d < 10 && DigitChar(d) == ch
  {
    ch as int - '0' as int
  }

  /** The shortest decimal text of n: no leading zero unless n is 0 itself. */
  function NatToText(n: nat): (s: string)
    ensures |s| >= 1 && AllDigits(s)
    ensures (s[0] == '0') <==> (n == 0)
    decreases n
  {
    if n < 10 then [DigitChar(n)] else NatToText(n / 10) + [DigitChar(n % 10)]
  }

  /** The last k decimal digits of r, padded on the left with zeros. */
  function PadDigits(r: nat, k: nat): (s: string)
    ensures |s| == k && AllDigits(s)
  {
    if k == 0 then [] else PadDigits(r / 10, k - 1) + [DigitChar(r % 10)]
  }

  /** The number a string of decimal digits denotes (the empty string denotes 0). */
  function Value(s: string): nat
    requires AllDigits(s)
  {
    if s == [] then 0 else Value(s[..|s| - 1]) * 10 + DigitValue(s[|s| - 1])
  }

  lemma {:induction false} ValueOfNatToText(n: nat)
    ensures Value(NatToText(n)) == n
    decreases n
  {
    if n >= 10 {
      var s := NatToText(n);
      assert s[..|s| - 1] == NatToText(n / 10);
      ValueOfNatToText(n / 10);
    }
  }

  lemma {:induction false} ValueOfPadDigits(r: nat, k: nat)
    requires r < Pow10(k)
    ensures Value(PadDigits(r, k)) == r
  {
    if k > 0 {
      var s := PadDigits(r, k);
      assert s[..|s| - 1] == PadDigits(r / 10, k - 1);
      DropLastDigit(r, Pow10(k - 1));
      ValueOfPadDigits(r / 10, k - 1);
    }
  }

  /** Dropping the last decimal digit of a number below 10 * p leaves one below p. */
  lemma DropLastDigit(r: nat, p: nat)
    requires r < 10 * p
    ensures r / 10 < p && (r / 10) * 10 + r % 10 == r
  {
  }

  /** Writing q * 10^k + r (with q >= 1 and r < 10^k) gives q's digits followed by the
      k-digit zero-padded text of r: the split behind thousands grouping. */
  lemma {:induction false} NatToTextSplit(q: nat, r: nat, k: nat)
    requires q >= 1 && r < Pow10(k)
    ensures NatToText(q * Pow10(k) + r) == NatToText(q) + PadDigits(r, k)
  {
    if k > 0 {
      var m := q * Pow10(k - 1);
      var n := q * Pow10(k) + r;
      ShiftOneDigit(q, Pow10(k - 1), r);
      assert n / 10 == m + r / 10 && n % 10 == r % 10;
      assert n >= 10;
      NatToTextSplit(q, r / 10, k - 1);
    }
  }

  /** The arithmetic of one step of NatToTextSplit, kept apart from the sequence reasoning. */
  lemma ShiftOneDigit(q: nat, p: nat, r: nat)
    requires q >= 1 && p >= 1 && r < 10 * p
    ensures (q * (10 * p) + r) / 10 == q * p + r / 10
    ensures (q * (10 * p) + r) % 10 == r % 10
    ensures q * (10 * p) + r >= 10
    ensures r / 10 < p
  {
    assert q * (10 * p) == (q * p) * 10;
    assert q * p >= 1 by { assert q * p >= 1 * p; }
  }

  /** Numbers below 10^k have at most k digits (for k >= 1: 0 itself is written "0"). */
  lemma {:induction false} NatToTextLength(n: nat, k: nat)
    requires k >= 1 && n < Pow10(k)
    ensures |NatToText(n)| <= k
    decreases n
  {
    if n >= 10 {
      assert k >= 2;
      assert n / 10 < Pow10(k - 1);
      NatToTextLength(n / 10, k - 1);
    }
  }
}
