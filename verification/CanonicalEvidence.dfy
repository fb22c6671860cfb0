/** Reading canonical text back, and so when two values have one text. */
module CanonicalEvidence {
  import opened Wrappers
  import opened CanonicalJson

  // ---------------------------------------------------------------- a reader

  function HexValue(u: Unit): Option<nat> {
    if 48 <= u <= 57 then Some(u - 48) else if 97 <= u <= 102 then Some(u - 87) else None
  }

  function Unescaped(letter: Unit): Option<Unit> {
    if letter == QUOTE || letter == BACKSLASH then Some(letter)
    else if letter == 98 then Some(8)
    else if letter == 116 then Some(9)
    else if letter == 110 then Some(10)
    else if letter == 102 then Some(12)
    else if letter == 114 then Some(13)
    else None
  }

  function ReadHex(s: Text): Option<Unit> {
    if |s| < 4 then None
    else
      var a, b, c, d := HexValue(s[0]), HexValue(s[1]), HexValue(s[2]), HexValue(s[3]);
      if a.None? || b.None? || c.None? || d.None? then None
      else Some(a.value * 4096 + b.value * 256 + c.value * 16 + d.value)
  }

  /** One unit of a string literal, and what follows it. */
  function ReadUnit(s: Text): (r: Option<(Unit, Text)>)
    requires s != []
    ensures r.Some? ==> |r.value.1| < |s|
  {
    if s[0] != BACKSLASH then Some((s[0], s[1..]))
    else if |s| < 2 then None
    else if s[1] == LETTER_U then
      (match ReadHex(s[2..])
       case None => None
       case Some(u) => Some((u, s[6..])))
    else
      match Unescaped(s[1])
      case None => None
      case Some(u) => Some((u, s[2..]))
  }

  /** The rest of a string literal up to its closing quote. */
  function ReadLiteral(s: Text): (r: Option<(Text, Text)>)
    ensures r.Some? ==> |r.value.1| < |s|
    decreases |s|
  {
    if s == [] then None
    else if s[0] == QUOTE then Some(([], s[1..]))
    else
      match ReadUnit(s)
      case None => None
      case Some((u, rest)) =>
        match ReadLiteral(rest)
        case None => None
        case Some((text, after)) => Some(([u] + text, after))
  }

  function NumberLength(s: Text): (n: nat)
    ensures n <= |s|
  {
    if s == [] || !IsNumberUnit(s[0]) then 0 else 1 + NumberLength(s[1..])
  }

  predicate Begins(s: Text, start: Text) {
    start == [] || (s != [] && s[0] == start[0] && Begins(s[1..], start[1..]))
  }

  lemma {:induction false} BeginsWithItself(start: Text, after: Text)
    ensures Begins(start + after, start) && (start + after)[|start|..] == after
  {
    if start != [] {
      assert (start + after)[1..] == start[1..] + after;
      BeginsWithItself(start[1..], after);
    }
  }

  lemma {:induction false} BeginsIsNoShorter(s: Text, start: Text)
    requires Begins(s, start)
    ensures |start| <= |s|
  {
    if start != [] {
      BeginsIsNoShorter(s[1..], start[1..]);
    }
  }

  function ReadValue(s: Text): (r: Option<(Json, Text)>)
    ensures r.Some? ==> |r.value.1| < |s|
    decreases |s|, 0
  {
    if s == [] then None
    else if s[0] == QUOTE then
      (match ReadLiteral(s[1..])
       case None => None
       case Some((text, after)) => Some((Str(text), after)))
    else if s[0] == OPEN_ARRAY then
      if |s| > 1 && s[1] == CLOSE_ARRAY then Some((Arr(NoItem), s[2..]))
      else
        (match ReadItems(s[1..])
         case None => None
         case Some((items, after)) => Some((Arr(items), after)))
    else if s[0] == OPEN_OBJECT then
      if |s| > 1 && s[1] == CLOSE_OBJECT then Some((Obj(NoField), s[2..]))
      else
        (match ReadFields(s[1..])
         case None => None
         case Some((fields, after)) => Some((Obj(fields), after)))
    else if Begins(s, NULL_TEXT) then
      BeginsIsNoShorter(s, NULL_TEXT);
      Some((Null, s[4..]))
    else if Begins(s, TRUE_TEXT) then
      BeginsIsNoShorter(s, TRUE_TEXT);
      Some((Bool(true), s[4..]))
    else if Begins(s, FALSE_TEXT) then
      BeginsIsNoShorter(s, FALSE_TEXT);
      Some((Bool(false), s[5..]))
    else
      var n := NumberLength(s);
      if n == 0 then None else Some((Num(s[..n]), s[n..]))
  }

  /** A first item and those after it, up to the closing bracket. */
  function ReadItems(s: Text): (r: Option<(Items, Text)>)
    ensures r.Some? ==> |r.value.1| < |s|
    decreases |s|, 1
  {
    match ReadValue(s)
    case None => None
    case Some((head, after)) =>
      if after == [] then None
      else if after[0] == CLOSE_ARRAY then Some((Item(head, NoItem), after[1..]))
      else if after[0] != COMMA then None
      else
        match ReadItems(after[1..])
        case None => None
        case Some((tail, rest)) => Some((Item(head, tail), rest))
  }

  function ReadFields(s: Text): (r: Option<(Fields, Text)>)
    ensures r.Some? ==> |r.value.1| < |s|
    decreases |s|, 1
  {
    if s == [] || s[0] != QUOTE then None
    else
      match ReadLiteral(s[1..])
      case None => None
      case Some((key, colon)) =>
        if colon == [] || colon[0] != COLON then None
        else
          match ReadValue(colon[1..])
          case None => None
          case Some((value, after)) =>
            if after == [] then None
            else if after[0] == CLOSE_OBJECT then Some((Field(key, value, NoField), after[1..]))
            else if after[0] != COMMA then None
            else
              match ReadFields(after[1..])
              case None => None
              case Some((fields, rest)) => Some((Field(key, value, fields), rest))
  }

  // ---------------------------------------------------------------- strings read back

  lemma HexDigitReadsBack(d: nat)
    requires d < 16
    ensures HexValue(HexDigit(d)) == Some(d)
  {
  }

  lemma Nibbles(u: Unit)
    ensures u == u / 16 / 16 / 16 * 4096 + u / 16 / 16 % 16 * 256 + u / 16 % 16 * 16 + u % 16
  {
  }

  lemma ReadNibbles(a: nat, b: nat, c: nat, d: nat, after: Text)
    requires a < 16 && b < 16 && c < 16 && d < 16
    ensures ReadHex([HexDigit(a), HexDigit(b), HexDigit(c), HexDigit(d)] + after) ==
              Some(a * 4096 + b * 256 + c * 16 + d)
  {
    hide HexDigit, HexValue;
    HexDigitReadsBack(a);
    HexDigitReadsBack(b);
    HexDigitReadsBack(c);
    HexDigitReadsBack(d);
  }

  lemma HexReadsBack(u: Unit, after: Text)
    ensures ReadUnit(HexEscape(u) + after) == Some((u, after))
  {
    hide ReadHex, HexDigit;
    var a, b, c, d := u / 16 / 16 / 16, u / 16 / 16 % 16, u / 16 % 16, u % 16;
    var s := HexEscape(u) + after;
    assert s[2..] == [HexDigit(a), HexDigit(b), HexDigit(c), HexDigit(d)] + after;
    ReadNibbles(a, b, c, d, after);
    Nibbles(u);
    assert s[6..] == after;
  }

  lemma EscapedReadsBack(u: Unit, after: Text)
    ensures ReadUnit(Escaped(u) + after) == Some((u, after)) && (Escaped(u) + after)[0] != QUOTE
  {
    hide HexEscape, ReadHex;
    if ShortEscape(u).Some? {
      assert (Escaped(u) + after)[2..] == after;
    } else if u < 0x20 || IsHigh(u) || IsLow(u) {
      HexReadsBack(u, after);
      HexStarts(u);
    }
  }

  lemma HexStarts(u: Unit)
    ensures HexEscape(u) != [] && HexEscape(u)[0] == BACKSLASH
  {
  }

  /** Every text, lone surrogates included, is read back from its literal. */
  lemma {:induction false} LiteralReadsBack(text: Text, after: Text)
    ensures ReadLiteral(Literal(text, after)) == Some((text, after))
  {
    hide Escaped, ReadUnit;
    if text == [] {
    } else if |text| >= 2 && IsHigh(text[0]) && IsLow(text[1]) {
      var rest := Literal(text[2..], after);
      LiteralReadsBack(text[2..], after);
      PairReadsBack(text[0], text[1], text[2..], rest, after);
      assert text == [text[0], text[1]] + text[2..];
    } else {
      LiteralReadsBack(text[1..], after);
      EscapedReadsBack(text[0], Literal(text[1..], after));
      assert text == [text[0]] + text[1..];
    }
  }

  lemma PairReadsBack(high: Unit, low: Unit, text: Text, rest: Text, after: Text)
    requires IsHigh(high) && IsLow(low) && ReadLiteral(rest) == Some((text, after))
    ensures ReadLiteral([high, low] + rest) == Some(([high, low] + text, after))
  {
    var s := [high, low] + rest;
    assert s[1..][1..] == rest;
    assert ReadLiteral(s[1..]) == Some(([low] + text, after));
    assert [high] + ([low] + text) == [high, low] + text;
  }

  // ---------------------------------------------------------------- values read back

  /** Nothing that could continue a number follows. */
  predicate Ends(after: Text) {
    after == [] || !IsNumberUnit(after[0])
  }

  lemma {:induction false} NumberReadsBack(digits: Text, after: Text)
    requires (forall i | 0 <= i < |digits| :: IsNumberUnit(digits[i])) && Ends(after)
    ensures NumberLength(digits + after) == |digits|
  {
    if digits == [] {
      assert digits + after == after;
    } else {
      assert (digits + after)[1..] == digits[1..] + after;
      NumberReadsBack(digits[1..], after);
    }
  }

  lemma NumberValueReadsBack(digits: Text, after: Text)
    requires IsNumberText(digits) && Ends(after)
    ensures ReadValue(digits + after) == Some((Num(digits), after))
  {
    NumberReadsBack(digits, after);
    var s := digits + after;
    assert s[0] == digits[0];
    assert !Begins(s, NULL_TEXT) && !Begins(s, TRUE_TEXT) && !Begins(s, FALSE_TEXT);
    assert s[..|digits|] == digits && s[|digits|..] == after;
  }

  lemma WordsReadBack(after: Text)
    ensures ReadValue(NULL_TEXT + after) == Some((Null, after)) && (NULL_TEXT + after)[0] != CLOSE_ARRAY
    ensures ReadValue(TRUE_TEXT + after) == Some((Bool(true), after)) && (TRUE_TEXT + after)[0] != CLOSE_ARRAY
    ensures ReadValue(FALSE_TEXT + after) == Some((Bool(false), after)) && (FALSE_TEXT + after)[0] != CLOSE_ARRAY
  {
    BeginsWithItself(NULL_TEXT, after);
    BeginsWithItself(TRUE_TEXT, after);
    BeginsWithItself(FALSE_TEXT, after);
  }

  lemma LeafReadsBack(v: Json, after: Text)
    requires IsNormal(v) && Ends(after) && !v.Arr? && !v.Obj?
    ensures ReadValue(Print(v, after)) == Some((v, after))
    ensures Print(v, after) != [] && Print(v, after)[0] != CLOSE_ARRAY
  {
    hide IsNumberText, Begins, NumberLength, ReadLiteral, Literal, ReadItems, ReadFields;
    match v
    case Null => WordsReadBack(after);
    case Bool(_) => WordsReadBack(after);
    case Str(text) => LiteralReadsBack(text, after);
    case Num(digits) =>
      NumberValueReadsBack(digits, after);
      NumberStarts(digits);
  }

  lemma EmptiesReadBack(after: Text)
    ensures ReadValue(Print(Arr(NoItem), after)) == Some((Arr(NoItem), after))
    ensures ReadValue(Print(Obj(NoField), after)) == Some((Obj(NoField), after))
  {
    assert Print(Arr(NoItem), after) == [OPEN_ARRAY, CLOSE_ARRAY] + after;
    assert Print(Obj(NoField), after) == [OPEN_OBJECT, CLOSE_OBJECT] + after;
  }

  /** A canonical text, whatever follows it, reads back as the value it was printed from. */
  lemma {:induction false} PrintReadsBack(v: Json, after: Text)
    requires IsNormal(v) && Ends(after)
    ensures ReadValue(Print(v, after)) == Some((v, after))
    ensures Print(v, after) != [] && Print(v, after)[0] != CLOSE_ARRAY
  {
    hide Begins, NumberLength, ReadLiteral, Literal, ReadItems, ReadFields, PrintItems, PrintFields;
    match v
    case Arr(items) =>
      if items.Item? {
        ItemsReadBack(items, after);
      } else {
        EmptiesReadBack(after);
      }
    case Obj(fields) =>
      if fields.Field? {
        FieldsReadBack(fields, after);
      } else {
        EmptiesReadBack(after);
      }
    case _ => LeafReadsBack(v, after);
  }

  lemma NumberStarts(digits: Text)
    requires IsNumberText(digits)
    ensures digits != [] && digits[0] != CLOSE_ARRAY
  {
  }

  lemma {:induction false} ItemsReadBack(items: Items, after: Text)
    requires items.Item? && NormalItemList(items) && Ends(after)
    ensures ReadItems(PrintItems(items, true, after)) == Some((items, after))
    ensures PrintItems(items, true, after) != [] && PrintItems(items, true, after)[0] != CLOSE_ARRAY
  {
    hide IsNormal, ReadValue, Print;
    PrintReadsBack(items.head, PrintItems(items.tail, false, after));
    if items.tail.Item? {
      ItemsReadBack(items.tail, after);
    }
  }

  lemma {:induction false} FieldsReadBack(fields: Fields, after: Text)
    requires fields.Field? && NormalFieldList(fields) && Ends(after)
    ensures ReadFields(PrintFields(fields, true, after)) == Some((fields, after))
    ensures PrintFields(fields, true, after) != [] && PrintFields(fields, true, after)[0] == QUOTE
  {
    hide IsNormal, ReadValue, Print, KeyBefore, ReadLiteral, Literal;
    var rest := PrintFields(fields.rest, false, after);
    PrintReadsBack(fields.value, rest);
    LiteralReadsBack(fields.key, [COLON] + Print(fields.value, rest));
    if fields.rest.Field? {
      FieldsReadBack(fields.rest, after);
    }
  }

  // ---------------------------------------------------------------- when two values have one text

  /** A value is refused exactly when it holds something JSON cannot carry, at any depth. */
  lemma CanonicalExists(v: Json)
    requires Proper(v)
    ensures Canonical(v).Some? <==> Supported(v)
  {
    NormalIsFaithful(v);
  }

  /** Two values have one canonical text exactly when they are equal up to the order of object keys, at every depth. */
  lemma SameTextSameMeaning(a: Json, b: Json)
    requires Proper(a) && Proper(b) && Supported(a) && Supported(b)
    ensures Canonical(a) == Canonical(b) <==> Means(a) == Means(b)
  {
    hide IsNormal, Means, Print, ReadValue, Normal;
    NormalIsFaithful(a);
    NormalIsFaithful(b);
    var m, n := Normal(a).value, Normal(b).value;
    PrintReadsBack(m, []);
    PrintReadsBack(n, []);
    if Means(a) == Means(b) {
      SameMeaningSameNormal(m, n);
    }
  }

  /** The text can be read back to a value that means what was printed. */
  lemma CanonicalRoundTrip(v: Json)
    requires Proper(v) && Supported(v)
    ensures Canonical(v).Some?
    ensures var read := ReadValue(Canonical(v).value);
            read.Some? && read.value.1 == [] && Means(read.value.0) == Means(v)
  {
    hide IsNormal, Means, Print, ReadValue, Normal;
    NormalIsFaithful(v);
    PrintReadsBack(Normal(v).value, []);
  }
}
