/** Exact decimals with four places, held as integers scaled by 10^4. */
module Decimals {
  import opened Wrappers
  import opened Numerals

  const SCALE := 10_000

  type Scaled = int

  predicate IsSpace(c: char) {
    c == ' ' || c == '\t' || c == '\n' || c == '\r'
  }

  function TrimLeft(text: string): string {
    if text != "" && IsSpace(text[0]) then TrimLeft(text[1..]) else text
  }

  function TrimRight(text: string): string {
    if text != "" && IsSpace(text[|text| - 1]) then TrimRight(text[..|text| - 1]) else text
  }

  function Trim(text: string): string { TrimRight(TrimLeft(text)) }

  /** The position of the first point, or the length of the text. */
  function PointAt(text: string): nat
    ensures PointAt(text) <= |text|
  {
    if text == "" || text[0] == '.' then 0 else 1 + PointAt(text[1..])
  }

  function PadEnd(text: string, width: nat): string
    decreases width - |text|
  {
    if |text| >= width then text else PadEnd(text + "0", width)
  }

  lemma {:induction false} PadEndDigits(text: string, width: nat)
    requires AllDigits(text)
    ensures AllDigits(PadEnd(text, width))
    decreases width - |text|
  {
    if |text| < width {
      PadEndDigits(text + "0", width);
    }
  }

  function Magnitude(text: string): Option<nat> {
    var point := PointAt(text);
    var whole := text[..point];
    if !AllDigits(whole) || whole == "" then None
    else if point == |text| then Some(NatOf(whole) * SCALE)
    else
      var fraction := text[point + 1..];
      if !AllDigits(fraction) || !(1 <= |fraction| <= 4) then None
      else
        PadEndDigits(fraction, 4);
        Some(NatOf(whole) * SCALE + NatOf(PadEnd(fraction, 4)))
  }

  /** The exact reading of a decimal text: optional minus, digits, and at most four digits after a point. */
  function FromText(value: string): Option<Scaled> {
    var text := Trim(value);
    var negative := text != "" && text[0] == '-';
    match Magnitude(if negative then text[1..] else text)
    case None => None
    case Some(m) =>
      var magnitude: int := m;
      Some(if negative then -magnitude else magnitude)
  }

  function Absolute(x: int): nat { if x < 0 then -x else x }

  /** The last `width` decimal digits, with leading zeros. */
  function Digits(n: nat, width: nat): string {
    if width == 0 then "" else Digits(n / 10, width - 1) + [DigitChar(n % 10)]
  }

  function FourDigits(n: nat): string { Digits(n, 4) }

  function Unsigned(magnitude: nat): string {
    TextOf(magnitude / SCALE) + "." + FourDigits(magnitude % SCALE)
  }

  function ToText(x: Scaled): string {
    if x < 0 then "-" + Unsigned(Absolute(x)) else Unsigned(Absolute(x))
  }

  // ---------------------------------------------------------------- printing and reading back

  lemma {:induction false} DigitsRead(n: nat, width: nat)
    requires n < Pow10(width)
    ensures AllDigits(Digits(n, width)) && NatOf(Digits(n, width)) == n && |Digits(n, width)| == width
    decreases width
  {
    if width > 0 {
      DigitsRead(n / 10, width - 1);
      assert Digits(n, width)[..width - 1] == Digits(n / 10, width - 1);
    }
  }

  lemma FourDigitsRead(n: nat)
    requires n < SCALE
    ensures AllDigits(FourDigits(n)) && NatOf(FourDigits(n)) == n && |FourDigits(n)| == 4
  {
    assert Pow10(4) == 10 * (10 * (10 * (10 * Pow10(0))));
    DigitsRead(n, 4);
  }

  lemma {:induction false} PointAfterDigits(whole: string, rest: string)
    requires AllDigits(whole)
    ensures PointAt(whole + "." + rest) == |whole|
  {
    if whole != "" {
      assert (whole + "." + rest)[1..] == whole[1..] + "." + rest;
      PointAfterDigits(whole[1..], rest);
    } else {
      assert whole + "." + rest == "." + rest;
    }
  }

  lemma TrimKeeps(text: string)
    requires text != "" && !IsSpace(text[0]) && !IsSpace(text[|text| - 1])
    ensures Trim(text) == text
  {
  }

  lemma MagnitudeReads(whole: nat, fraction: nat)
    requires fraction < SCALE
    ensures Magnitude(TextOf(whole) + "." + FourDigits(fraction)) == Some(whole * SCALE + fraction)
  {
    var text := TextOf(whole) + "." + FourDigits(fraction);
    PrintedReadsBack(whole);
    FourDigitsRead(fraction);
    PointAfterDigits(TextOf(whole), FourDigits(fraction));
    assert text[..|TextOf(whole)|] == TextOf(whole);
    assert text[|TextOf(whole)| + 1..] == FourDigits(fraction);
  }

  lemma SignedReads(unsigned: string, magnitude: nat)
    requires unsigned != "" && IsDigit(unsigned[0]) && IsDigit(unsigned[|unsigned| - 1])
    requires Magnitude(unsigned) == Some(magnitude)
    ensures FromText(unsigned) == Some(magnitude) && FromText("-" + unsigned) == Some(-(magnitude as int))
  {
    hide Magnitude;
    TrimKeeps(unsigned);
    TrimKeeps("-" + unsigned);
    assert ("-" + unsigned)[1..] == unsigned;
  }

  lemma UnsignedReads(magnitude: nat)
    ensures var text := Unsigned(magnitude);
            text != "" && IsDigit(text[0]) && IsDigit(text[|text| - 1]) && Magnitude(text) == Some(magnitude)
  {
    MagnitudeReads(magnitude / SCALE, magnitude % SCALE);
    DigitsAtEnds(magnitude / SCALE, magnitude % SCALE);
  }

  /** Every value survives printing and reading back, so results may be passed on as texts. */
  lemma TextRoundTrip(x: Scaled)
    ensures FromText(ToText(x)) == Some(x)
  {
    hide Unsigned, FromText, Magnitude;
    UnsignedReads(Absolute(x));
    SignedReads(Unsigned(Absolute(x)), Absolute(x));
  }

  lemma DigitsAtEnds(whole: nat, fraction: nat)
    requires fraction < SCALE
    ensures var text := TextOf(whole) + "." + FourDigits(fraction);
            text != "" && IsDigit(text[0]) && IsDigit(text[|text| - 1])
  {
    PrintedReadsBack(whole);
    FourDigitsRead(fraction);
  }

  // ---------------------------------------------------------------- rounded arithmetic

  function RoundedQuotient(a: nat, b: nat): nat
    requires b != 0
  {
    if a % b * 2 >= b then a / b + 1 else a / b
  }

  /** Quotient rounded to the nearest integer, halves away from zero. */
  function Rounded(dividend: int, divisor: int): int
    requires divisor != 0
  {
    var rounded: int := RoundedQuotient(Absolute(dividend), Absolute(divisor));
    if (dividend < 0) != (divisor < 0) then -rounded else rounded
  }

  function Multiply(x: Scaled, y: Scaled): Scaled { Rounded(x * y, SCALE) }

  function Divide(x: Scaled, y: Scaled): Scaled
    requires y != 0
  {
    Rounded(x * SCALE, y)
  }

  lemma QuotientIsNearest(a: nat, b: nat)
    requires b != 0
    ensures 2 * Absolute(RoundedQuotient(a, b) * b - a) <= b
    ensures 2 * (RoundedQuotient(a, b) * b - a) + b > 0
  {
    var quotient, remainder := a / b, a % b;
    assert a == quotient * b + remainder;
    assert (quotient + 1) * b == quotient * b + b;
  }

  lemma Signs(r: int, b: int)
    ensures -r * b == -(r * b) && r * -b == -(r * b) && -r * -b == r * b
  {
  }

  /**
   * It is a nearest integer: off by at most half the divisor, never by half toward zero, and symmetric in the
   * sign of the dividend.
   */
  lemma RoundedIsNearest(dividend: int, divisor: int)
    requires divisor != 0
    ensures 2 * Absolute(Rounded(dividend, divisor) * divisor - dividend) <= Absolute(divisor)
    ensures 2 * Absolute(Rounded(dividend, divisor) * divisor - dividend) == Absolute(divisor) ==>
              Absolute(Rounded(dividend, divisor) * divisor) > Absolute(dividend)
    ensures Rounded(-dividend, divisor) == -Rounded(dividend, divisor)
  {
    QuotientIsNearest(Absolute(dividend), Absolute(divisor));
    var r: int := RoundedQuotient(Absolute(dividend), Absolute(divisor));
    Signs(r, divisor);
  }

  /** A product is nearest to the true one, a quotient nearest to the true one; one is neutral for both. */
  lemma ArithmeticIsNearest(x: Scaled, y: Scaled)
    ensures 2 * Absolute(Multiply(x, y) * 10_000 - x * y) <= 10_000
    ensures y != 0 ==> 2 * Absolute(Divide(x, y) * y - x * 10_000) <= Absolute(y)
    ensures Multiply(x, 10_000) == x && Divide(x, 10_000) == x
  {
    RoundedIsNearest(x * y, SCALE);
    RoundedIsNearest(x * SCALE, SCALE);
    if y != 0 {
      RoundedIsNearest(x * SCALE, y);
    }
  }

  // ---------------------------------------------------------------- which texts read, and as what

  /** Digits, and after a point one to four more. */
  predicate Plain(text: string) {
    (text != "" && AllDigits(text)) || exists p | 0 < p < |text| :: PointedAt(text, p)
  }

  predicate PointedAt(text: string, p: nat)
    requires p < |text|
  {
    text[p] == '.' && AllDigits(text[..p]) && AllDigits(text[p + 1..]) && 1 <= |text[p + 1..]| <= 4
  }

  lemma {:induction false} PointIsFirst(text: string, p: nat)
    requires p < |text| && text[p] == '.' && AllDigits(text[..p])
    ensures PointAt(text) == p
  {
    if p > 0 {
      assert IsDigit(text[..p][0]);
      assert text[1..][..p - 1] == text[..p][1..];
      PointIsFirst(text[1..], p - 1);
    }
  }

  lemma {:induction false} PointIsPoint(text: string)
    ensures PointAt(text) < |text| ==> text[PointAt(text)] == '.'
    ensures AllDigits(text) ==> PointAt(text) == |text|
  {
    if text != "" {
      PointIsPoint(text[1..]);
    }
  }

  /** A text reads exactly when, trimmed and without a leading minus, it is digits with at most four decimals. */
  lemma ReadsExactly(value: string)
    ensures var text := Trim(value);
            FromText(value).Some? <==> Plain(if text != "" && text[0] == '-' then text[1..] else text)
  {
    hide Trim;
    var text := Trim(value);
    MagnitudeReadsExactly(if text != "" && text[0] == '-' then text[1..] else text);
  }

  lemma MagnitudeReadsExactly(text: string)
    ensures Magnitude(text).Some? <==> Plain(text)
  {
    PointIsPoint(text);
    var p := PointAt(text);
    assert p == |text| ==> text[..p] == text;
    if p < |text| && Magnitude(text).Some? {
      assert PointedAt(text, p);
    }
    if Plain(text) && !AllDigits(text) {
      var q :| 0 < q < |text| && PointedAt(text, q);
      PointIsFirst(text, q);
    }
  }

  /** Fewer than four decimals stand for tenths, hundredths and thousandths. */
  lemma FractionsHaveTheirPlace(whole: nat, fraction: string)
    requires AllDigits(fraction) && 1 <= |fraction| <= 4
    ensures var text := TextOf(whole) + "." + fraction;
            && FromText(text) == Some(whole * 10_000 + NatOf(fraction) * Pow10(4 - |fraction|))
            && FromText("-" + text) == Some(-(whole * 10_000 + NatOf(fraction) * Pow10(4 - |fraction|)))
  {
    hide FromText, Magnitude;
    PlacesRead(whole, fraction);
    SignedReads(TextOf(whole) + "." + fraction, whole * SCALE + NatOf(fraction) * Pow10(4 - |fraction|));
  }

  lemma PlacesRead(whole: nat, fraction: string)
    requires AllDigits(fraction) && 1 <= |fraction| <= 4
    ensures var text := TextOf(whole) + "." + fraction;
            && text != "" && IsDigit(text[0]) && IsDigit(text[|text| - 1])
            && Magnitude(text) == Some(whole * 10_000 + NatOf(fraction) * Pow10(4 - |fraction|))
  {
    hide TextOf, PadEnd, Pow10, PointAt, NatOf, Magnitude;
    PrintedReadsBack(whole);
    PointedReads(TextOf(whole), fraction);
    PaddedReads(fraction, 4);
  }

  lemma PointedReads(whole: string, fraction: string)
    requires AllDigits(whole) && whole != "" && AllDigits(fraction) && 1 <= |fraction| <= 4
    ensures AllDigits(PadEnd(fraction, 4))
    ensures Magnitude(whole + "." + fraction) == Some(NatOf(whole) * SCALE + NatOf(PadEnd(fraction, 4)))
  {
    hide PadEnd, PointAt, NatOf, AllDigits;
    var text := whole + "." + fraction;
    PointAfterDigits(whole, fraction);
    PadEndDigits(fraction, 4);
    assert text[..|whole|] == whole && text[|whole| + 1..] == fraction;
  }

  lemma {:induction false} PaddedReads(text: string, width: nat)
    requires AllDigits(text) && |text| <= width
    ensures AllDigits(PadEnd(text, width)) && NatOf(PadEnd(text, width)) == NatOf(text) * Pow10(width - |text|)
    decreases width - |text|
  {
    hide NatOf;
    if |text| < width {
      ZeroAddsPlace(text);
      PaddedReads(text + "0", width);
      PlaceMoves(NatOf(text), width - |text|);
    }
  }

  lemma ZeroAddsPlace(text: string)
    requires AllDigits(text)
    ensures NatOf(text + "0") == 10 * NatOf(text)
  {
    assert (text + "0")[..|text|] == text;
  }

  lemma PlaceMoves(n: nat, places: nat)
    requires places > 0
    ensures 10 * n * Pow10(places - 1) == n * Pow10(places)
  {
  }

  /** Blanks around a text do not matter. */
  lemma BlanksAreIgnored(text: string, blank: char)
    requires blank in {' ', '\t', '\n', '\r'}
    ensures FromText([blank] + text) == FromText(text) == FromText(text + [blank])
  {
    assert ([blank] + text)[1..] == text;
    TrimIgnoresEnd(text, blank);
    hide Magnitude, TrimRight;
  }

  lemma {:induction false} TrimIgnoresEnd(text: string, blank: char)
    requires IsSpace(blank)
    ensures Trim(text + [blank]) == Trim(text)
    ensures TrimLeft(text + [blank]) == if TrimLeft(text) == "" then "" else TrimLeft(text) + [blank]
  {
    if text == "" {
      assert text + [blank] == [blank];
    } else if IsSpace(text[0]) {
      assert (text + [blank])[1..] == text[1..] + [blank];
      TrimIgnoresEnd(text[1..], blank);
    } else {
      assert (text + [blank])[..|text|] == text;
    }
  }
}
