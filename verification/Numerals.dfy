/**
 * Decimal texts of natural numbers, as `BigInt(text)` and `String(number)` read and print them.
 * A text is canonical when it is what the printer itself would print: digits only, at least one,
 * and no leading zero unless it is "0".
 */
module Numerals {

  predicate IsDigit(c: char) {
    '0' <= c <= '9'
  }

  predicate AllDigits(text: string) {
    forall i | 0 <= i < |text| :: IsDigit(text[i])
  }

  predicate Canonical(text: string) {
    && |text| > 0
    && AllDigits(text)
    && (text[0] == '0' ==> |text| == 1)
  }

  function DigitChar(d: nat): char
    requires d < 10
  {
    (('0' as int) + d) as char
  }

  function DigitValue(c: char): nat
    requires IsDigit(c)
  {
    (c as int) - ('0' as int)
  }

  function NatOf(text: string): nat
    requires AllDigits(text)
  {
    if text == "" then 0 else 10 * NatOf(text[..|text| - 1]) + DigitValue(text[|text| - 1])
  }

  function TextOf(n: nat): string
    decreases n
  {
    if n < 10 then [DigitChar(n)] else TextOf(n / 10) + [DigitChar(n % 10)]
  }

  /** Reading back a printed number gives the number, and the printed text is canonical. */
  lemma {:induction false} PrintedReadsBack(n: nat)
    ensures Canonical(TextOf(n))
    ensures n > 0 ==> TextOf(n)[0] != '0'
    ensures NatOf(TextOf(n)) == n
  {
    if n < 10 {
      assert NatOf(TextOf(n)[..0]) == 0;
    } else {
      var front := TextOf(n / 10);
      PrintedReadsBack(n / 10);
      assert TextOf(n)[..|front|] == front;
    }
  }

  /** Printing the value of a canonical text gives the text: canonical texts and naturals are in bijection. */
  lemma {:induction false} CanonicalPrintsBack(text: string)
    requires Canonical(text)
    ensures TextOf(NatOf(text)) == text
    ensures text[0] != '0' ==> NatOf(text) > 0
  {
    var front, last := text[..|text| - 1], text[|text| - 1];
    assert text == front + [last];
    if |text| == 1 {
      assert front == "";
    } else {
      assert Canonical(front);
      CanonicalPrintsBack(front);
      assert NatOf(front) > 0;
    }
  }

  function Pow10(k: nat): nat {
    if k == 0 then 1 else 10 * Pow10(k - 1)
  }

  /** A text of k digits is below 10^k. */
  lemma {:induction false} BoundedByLength(text: string)
    requires AllDigits(text)
    ensures NatOf(text) < Pow10(|text|)
  {
    if text != "" {
      BoundedByLength(text[..|text| - 1]);
    }
  }

  lemma {:induction false} PowerMonotone(a: nat, b: nat)
    requires a <= b
    ensures Pow10(a) <= Pow10(b)
  {
    if a < b {
      PowerMonotone(a, b - 1);
    }
  }
}
