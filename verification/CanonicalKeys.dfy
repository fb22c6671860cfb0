/**
 * Why an object enumerates some of its keys by number: the array indices among the keys are exactly the numbers below
 * 2^32 - 1 without leading zeros, and they come first, in the order of their values.
 */
module CanonicalKeys {
  import opened Numerals
  import opened CanonicalJson

  const INDEX_LIMIT := 0xFFFF_FFFF

  lemma ReadsOn(s: string, i: nat)
    requires i < |s| && Numerals.AllDigits(s)
    ensures NatOf(s[..i + 1]) == 10 * NatOf(s[..i]) + DigitValue(s[i])
  {
    assert s[..i + 1][..i] == s[..i];
  }

  /** Of two equally long texts the one earlier in the order of units is the smaller number. */
  lemma {:induction false} TextsFollowValues(a: string, b: string)
    requires Numerals.AllDigits(a) && Numerals.AllDigits(b) && |a| == |b|
    ensures Before(Units(a), Units(b)) <==> NatOf(a) < NatOf(b)
    ensures a == b <==> NatOf(a) == NatOf(b)
  {
    if a != "" {
      var n := |a| - 1;
      assert Numerals.AllDigits(a[..n]) && Numerals.AllDigits(b[..n]) && a[..n + 1] == a && b[..n + 1] == b;
      assert 48 <= a[n] as int <= 57 && 48 <= b[n] as int <= 57;
      assert DigitValue(a[n]) == a[n] as int - 48 && DigitValue(b[n]) == b[n] as int - 48;
      hide *;
      TextsFollowValues(a[..n], b[..n]);
      ReadsOn(a, n);
      ReadsOn(b, n);
      LastUnit(a);
      LastUnit(b);
      SameLength(Units(a[..n]), Units(b[..n]), a[n] as int, b[n] as int);
      SameUnits(a[..n], b[..n]);
      assert a == a[..n] + [a[n]] && b == b[..n] + [b[n]];
    }
  }

  lemma LastUnit(s: string)
    requires s != "" && Numerals.AllDigits(s)
    ensures Units(s) == Units(s[..|s| - 1]) + [s[|s| - 1] as int]
  {
  }

  lemma SameUnits(a: string, b: string)
    requires Numerals.AllDigits(a) && Numerals.AllDigits(b)
    ensures Units(a) == Units(b) <==> a == b
  {
    if Units(a) == Units(b) {
      assert forall i | 0 <= i < |a| :: a[i] as int == Units(a)[i] == Units(b)[i] == b[i] as int;
    }
  }

  lemma {:induction false} SameLength(a: Text, b: Text, x: Unit, y: Unit)
    requires |a| == |b|
    ensures Before(a + [x], b + [y]) <==> Before(a, b) || (a == b && x < y)
  {
    if a != [] {
      assert (a + [x])[1..] == a[1..] + [x] && (b + [y])[1..] == b[1..] + [y];
      assert a == [a[0]] + a[1..] && b == [b[0]] + b[1..];
      SameLength(a[1..], b[1..], x, y);
    }
  }

  // ---------------------------------------------------------------- lengths and values

  lemma {:induction false} ValueOfLength(text: string)
    requires Numerals.Canonical(text) && text[0] != '0'
    ensures Pow10(|text| - 1) <= NatOf(text) < Pow10(|text|)
  {
    BoundedByLength(text);
    var n := |text| - 1;
    if n > 0 {
      ValueOfLength(text[..n]);
    } else {
      assert text[..0] == "" && NatOf("") == 0;
    }
  }

  lemma TenDigits()
    ensures Pow10(9) == 1_000_000_000 && Pow10(10) == 10_000_000_000
  {
    assert Pow10(3) == 1_000;
    assert Pow10(6) == 10 * 10 * 10 * Pow10(3);
    assert Pow10(9) == 10 * 10 * 10 * Pow10(6);
  }

  lemma LastIndexValue()
    ensures NatOf("4294967294") == 0xFFFF_FFFE
  {
    var s := "4294967294";
    hide NatOf;
    ReadsOn(s, 0);
    ReadsOn(s, 1);
    ReadsOn(s, 2);
    ReadsOn(s, 3);
    ReadsOn(s, 4);
    ReadsOn(s, 5);
    ReadsOn(s, 6);
    ReadsOn(s, 7);
    ReadsOn(s, 8);
    ReadsOn(s, 9);
    assert NatOf(s[..0]) == 0 by {
      ReadsNothing();
    }
    assert s[..10] == s;
  }

  lemma ReadsNothing()
    ensures NatOf("") == 0
  {
  }

  // ---------------------------------------------------------------- index keys

  lemma IndexShape(s: string)
    requires Numerals.Canonical(s)
    ensures IsIndex(Units(s)) <==> |s| < 10 || (|s| == 10 && !Before(Units("4294967294"), Units(s)))
  {
    hide Before;
    LargestIndex(0);
    assert forall i | 0 <= i < |s| :: Units(s)[i] == s[i] as int;
  }

  /** A printed number is an index key exactly below 2^32 - 1. */
  lemma IndexKeysExactly(n: nat)
    ensures IsIndex(Units(TextOf(n))) <==> n < INDEX_LIMIT
  {
    var s := TextOf(n);
    PrintedReadsBack(n);
    IndexShape(s);
    TenDigits();
    assert n < 10 ==> |s| == 1;
    hide IsIndex, Units, Before, TextOf, NatOf, Pow10;
    if n > 0 {
      ValueOfLength(s);
      if |s| < 10 {
        PowerMonotone(|s|, 9);
      } else if |s| > 10 {
        PowerMonotone(10, |s| - 1);
      } else {
        LastIndexValue();
        TextsFollowValues("4294967294", s);
      }
    }
  }

  /** There are no other index keys. */
  lemma IndexKeysAreNumbers(key: Text)
    requires IsIndex(key)
    ensures exists n: nat :: n < INDEX_LIMIT && key == Units(TextOf(n))
  {
    var s := seq(|key|, i requires 0 <= i < |key| => key[i] as char);
    assert key == Units(s);
    CanonicalPrintsBack(s);
    IndexKeysExactly(NatOf(s));
  }

  /** And they are enumerated by number, before all other keys. */
  lemma IndexKeysByNumber(m: nat, n: nat, other: Text)
    requires m < INDEX_LIMIT && n < INDEX_LIMIT && !IsIndex(other)
    ensures KeyBefore(Units(TextOf(m)), Units(TextOf(n))) <==> m < n
    ensures KeyBefore(Units(TextOf(m)), other) && !KeyBefore(other, Units(TextOf(m)))
  {
    IndexKeysExactly(m);
    IndexKeysExactly(n);
    PrintedReadsBack(m);
    PrintedReadsBack(n);
    var a, b := TextOf(m), TextOf(n);
    hide IsIndex, Units, Before;
    if |a| == |b| {
      TextsFollowValues(a, b);
    } else {
      LengthsFollowValues(m, n);
    }
  }

  lemma LengthsFollowValues(m: nat, n: nat)
    requires |TextOf(m)| != |TextOf(n)|
    ensures |TextOf(m)| < |TextOf(n)| <==> m < n
  {
    PrintedReadsBack(m);
    PrintedReadsBack(n);
    var a, b := TextOf(m), TextOf(n);
    if m > 0 {
      ValueOfLength(a);
    }
    if n > 0 {
      ValueOfLength(b);
    }
    if |a| < |b| {
      PowerMonotone(|a|, |b| - 1);
    } else {
      PowerMonotone(|b|, |a| - 1);
    }
  }
}
