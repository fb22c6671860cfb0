/**
 * Canonical evidence: values are normalised (dates become their ISO texts, object keys are put in one order) and
 * printed as JSON. Texts are sequences of UTF-16 code units.
 */
module CanonicalJson {
  import opened Wrappers

  type Unit = n: int | 0 <= n < 0x1_0000

  type Text = seq<Unit>

  /** An ASCII literal as code units. */
  function Units(s: string): (text: Text)
    ensures |text| == |s|
    ensures forall i | 0 <= i < |s| :: text[i] == s[i] as int % 0x1_0000
  {
    seq(|s|, i requires 0 <= i < |s| => s[i] as int % 0x1_0000)
  }

  /** A number is its canonical number text, so 0 and -0 are one value. An invalid date is unsupported. */
  datatype Json =
    | Null
    | Bool(b: bool)
    | Str(text: Text)
    | Num(digits: Text)
    | Date(iso: Text)
    | NonFinite
    | Unsupported
    | Arr(items: Items)
    | Obj(fields: Fields)

  datatype Items = NoItem | Item(head: Json, tail: Items)

  /** The properties of an object in the order they enumerate. */
  datatype Fields = NoField | Field(key: Text, value: Json, rest: Fields)

  // ---------------------------------------------------------------- key order

  predicate Before(a: Text, b: Text) {
    b != [] && (a == [] || a[0] < b[0] || (a[0] == b[0] && Before(a[1..], b[1..])))
  }

  predicate AllDigits(key: Text) {
    forall i | 0 <= i < |key| :: 48 <= key[i] <= 57
  }

  /** "4294967294", the largest array index. */
  const LAST_INDEX: Text := [52, 50, 57, 52, 57, 54, 55, 50, 57, 52]

  /** Canonical array indices: no leading zero, at most the largest. */
  predicate IsIndex(key: Text) {
    && key != [] && AllDigits(key) && (key[0] == 48 ==> |key| == 1)
    && (|key| < 10 || (|key| == 10 && !Before(LAST_INDEX, key)))
  }

  /**
   * Keys are sorted by code units, but an object enumerates its index keys first, by number. Without leading
   * zeros the smaller number is the shorter text, or of two equally long ones the earlier.
   */
  predicate KeyBefore(a: Text, b: Text) {
    if IsIndex(a) && IsIndex(b) then |a| < |b| || (|a| == |b| && Before(a, b))
    else if IsIndex(a) || IsIndex(b) then IsIndex(a)
    else Before(a, b)
  }

  lemma {:induction false} BeforeIsStrict(a: Text, b: Text)
    ensures !(Before(a, b) && Before(b, a)) && !Before(a, a)
    ensures a == b || Before(a, b) || Before(b, a)
  {
    if a != [] && b != [] {
      BeforeIsStrict(a[1..], b[1..]);
      BeforeIsStrict(a[1..], a[1..]);
      assert a == [a[0]] + a[1..] && b == [b[0]] + b[1..];
    } else if a != [] {
      BeforeIsStrict(a[1..], a[1..]);
    }
  }

  lemma {:induction false} BeforeIsTransitive(a: Text, b: Text, c: Text)
    requires Before(a, b) && Before(b, c)
    ensures Before(a, c)
  {
    if a != [] && a[0] == b[0] == c[0] {
      BeforeIsTransitive(a[1..], b[1..], c[1..]);
    }
  }

  lemma KeyOrderIsStrict(a: Text, b: Text)
    ensures !(KeyBefore(a, b) && KeyBefore(b, a)) && !KeyBefore(a, a)
    ensures a == b || KeyBefore(a, b) || KeyBefore(b, a)
  {
    hide Before, IsIndex;
    BeforeIsStrict(a, b);
    BeforeIsStrict(a, a);
  }

  lemma KeyOrderIsTransitive(a: Text, b: Text, c: Text)
    requires KeyBefore(a, b) && KeyBefore(b, c)
    ensures KeyBefore(a, c)
  {
    hide Before, IsIndex;
    if Before(a, b) && Before(b, c) {
      BeforeIsTransitive(a, b, c);
    }
  }

  // ---------------------------------------------------------------- normalising

  function Place(key: Text, value: Json, fields: Fields): Fields {
    match fields
    case NoField => Field(key, value, NoField)
    case Field(k, v, rest) =>
      if KeyBefore(key, k) then Field(key, value, fields) else Field(k, v, Place(key, value, rest))
  }

  /** None when the value holds something JSON cannot carry. */
  function Normal(v: Json): Option<Json> {
    match v
    case Date(iso) => Some(Str(iso))
    case NonFinite => None
    case Unsupported => None
    case Arr(items) =>
      (match NormalItems(items)
       case None => None
       case Some(normal) => Some(Arr(normal)))
    case Obj(fields) =>
      (match NormalFields(fields)
       case None => None
       case Some(normal) => Some(Obj(normal)))
    case _ => Some(v)
  }

  function NormalItems(items: Items): Option<Items> {
    match items
    case NoItem => Some(NoItem)
    case Item(head, tail) =>
      var first, others := Normal(head), NormalItems(tail);
      if first.None? || others.None? then None else Some(Item(first.value, others.value))
  }

  function NormalFields(fields: Fields): Option<Fields> {
    match fields
    case NoField => Some(NoField)
    case Field(key, value, rest) =>
      var first, others := Normal(value), NormalFields(rest);
      if first.None? || others.None? then None else Some(Place(key, first.value, others.value))
  }

  // ---------------------------------------------------------------- printing

  const QUOTE: Unit := 34
  const BACKSLASH: Unit := 92
  const COMMA: Unit := 44
  const COLON: Unit := 58
  const OPEN_ARRAY: Unit := 91
  const CLOSE_ARRAY: Unit := 93
  const OPEN_OBJECT: Unit := 123
  const CLOSE_OBJECT: Unit := 125
  const LETTER_U: Unit := 117

  predicate IsHigh(u: Unit) { 0xD800 <= u < 0xDC00 }

  predicate IsLow(u: Unit) { 0xDC00 <= u < 0xE000 }

  function HexDigit(d: nat): Unit
    requires d < 16
  {
    if d < 10 then 48 + d else 87 + d
  }

  function HexEscape(u: Unit): Text {
    [BACKSLASH, LETTER_U, HexDigit(u / 16 / 16 / 16), HexDigit(u / 16 / 16 % 16), HexDigit(u / 16 % 16),
     HexDigit(u % 16)]
  }

  /** The letter of a short escape, if the unit has one. */
  function ShortEscape(u: Unit): Option<Unit> {
    if u == QUOTE || u == BACKSLASH then Some(u)
    else if u == 8 then Some(98)
    else if u == 9 then Some(116)
    else if u == 10 then Some(110)
    else if u == 12 then Some(102)
    else if u == 13 then Some(114)
    else None
  }

  /** One unit inside a string literal; a surrogate that reaches here stands alone. */
  function Escaped(u: Unit): Text {
    if ShortEscape(u).Some? then [BACKSLASH, ShortEscape(u).value]
    else if u < 0x20 || IsHigh(u) || IsLow(u) then HexEscape(u)
    else [u]
  }

  /** The rest of a string literal with its closing quote, in front of what follows. */
  function Literal(text: Text, after: Text): Text {
    if text == [] then [QUOTE] + after
    else if |text| >= 2 && IsHigh(text[0]) && IsLow(text[1]) then [text[0], text[1]] + Literal(text[2..], after)
    else Escaped(text[0]) + Literal(text[1..], after)
  }

  const NULL_TEXT: Text := [110, 117, 108, 108]
  const TRUE_TEXT: Text := [116, 114, 117, 101]
  const FALSE_TEXT: Text := [102, 97, 108, 115, 101]

  /** A value's text in front of what follows; a normal value has no other cases. */
  function Print(v: Json, after: Text): Text {
    match v
    case Null => NULL_TEXT + after
    case Bool(b) => (if b then TRUE_TEXT else FALSE_TEXT) + after
    case Str(text) => [QUOTE] + Literal(text, after)
    case Num(digits) => digits + after
    case Arr(items) => [OPEN_ARRAY] + PrintItems(items, true, after)
    case Obj(fields) => [OPEN_OBJECT] + PrintFields(fields, true, after)
    case _ => after
  }

  function PrintItems(items: Items, first: bool, after: Text): Text {
    match items
    case NoItem => [CLOSE_ARRAY] + after
    case Item(head, tail) =>
      var text := Print(head, PrintItems(tail, false, after));
      if first then text else [COMMA] + text
  }

  function PrintFields(fields: Fields, first: bool, after: Text): Text {
    match fields
    case NoField => [CLOSE_OBJECT] + after
    case Field(key, value, rest) =>
      var text := [QUOTE] + Literal(key, [COLON] + Print(value, PrintFields(rest, false, after)));
      if first then text else [COMMA] + text
  }

  function Canonical(v: Json): Option<Text> {
    match Normal(v)
    case None => None
    case Some(normal) => Some(Print(normal, []))
  }

  // ---------------------------------------------------------------- what a value means

  /** A value with its objects as unordered maps. */
  datatype Meaning =
    | Nothing
    | Truth(b: bool)
    | Words(text: Text)
    | Number(digits: Text)
    | List(items: seq<Meaning>)
    | Record(fields: map<Text, Meaning>)

  function Means(v: Json): Meaning {
    match v
    case Bool(b) => Truth(b)
    case Str(text) => Words(text)
    case Date(iso) => Words(iso)
    case Num(digits) => Number(digits)
    case Arr(items) => List(ItemsMean(items))
    case Obj(fields) => Record(FieldsMean(fields))
    case _ => Nothing
  }

  function ItemsMean(items: Items): seq<Meaning> {
    match items
    case NoItem => []
    case Item(head, tail) => [Means(head)] + ItemsMean(tail)
  }

  function FieldsMean(fields: Fields): map<Text, Meaning> {
    match fields
    case NoField => map[]
    case Field(key, value, rest) => FieldsMean(rest)[key := Means(value)]
  }

  // ---------------------------------------------------------------- which values there are

  predicate IsNumberUnit(u: Unit) {
    48 <= u <= 57 || u == 43 || u == 45 || u == 46 || u == 101
  }

  /** Number texts begin with a digit or a minus sign. */
  predicate IsNumberText(digits: Text) {
    digits != [] && (48 <= digits[0] <= 57 || digits[0] == 45) &&
      forall i | 0 <= i < |digits| :: IsNumberUnit(digits[i])
  }

  function Keys(fields: Fields): set<Text> {
    match fields
    case NoField => {}
    case Field(key, _, rest) => {key} + Keys(rest)
  }

  /** A JavaScript value: number texts are numbers, and an object has each key once. */
  predicate Proper(v: Json) {
    match v
    case Num(digits) => IsNumberText(digits)
    case Arr(items) => ProperItems(items)
    case Obj(fields) => ProperFields(fields)
    case _ => true
  }

  predicate ProperItems(items: Items) {
    items.Item? ==> Proper(items.head) && ProperItems(items.tail)
  }

  predicate ProperFields(fields: Fields) {
    fields.Field? ==> Proper(fields.value) && fields.key !in Keys(fields.rest) && ProperFields(fields.rest)
  }

  /** Holds nothing that JSON cannot carry, at any depth. */
  predicate Supported(v: Json) {
    match v
    case NonFinite => false
    case Unsupported => false
    case Arr(items) => SupportedItems(items)
    case Obj(fields) => SupportedFields(fields)
    case _ => true
  }

  predicate SupportedItems(items: Items) {
    items.Item? ==> Supported(items.head) && SupportedItems(items.tail)
  }

  predicate SupportedFields(fields: Fields) {
    fields.Field? ==> Supported(fields.value) && SupportedFields(fields.rest)
  }

  // ---------------------------------------------------------------- normal forms

  predicate IsNormal(v: Json) {
    match v
    case Date(_) => false
    case NonFinite => false
    case Unsupported => false
    case Num(digits) => IsNumberText(digits)
    case Arr(items) => NormalItemList(items)
    case Obj(fields) => NormalFieldList(fields)
    case _ => true
  }

  predicate NormalItemList(items: Items) {
    items.Item? ==> IsNormal(items.head) && NormalItemList(items.tail)
  }

  predicate NormalFieldList(fields: Fields) {
    fields.Field? ==>
      IsNormal(fields.value) && NormalFieldList(fields.rest) &&
        (fields.rest.Field? ==> KeyBefore(fields.key, fields.rest.key))
  }

  lemma {:induction false} PlaceAdds(key: Text, value: Json, fields: Fields)
    requires key !in Keys(fields)
    ensures Keys(Place(key, value, fields)) == Keys(fields) + {key}
    ensures FieldsMean(Place(key, value, fields)) == FieldsMean(fields)[key := Means(value)]
  {
    hide KeyBefore, Means;
    if fields.Field? && !KeyBefore(key, fields.key) {
      PlaceAdds(key, value, fields.rest);
    }
  }

  lemma {:induction false} PlaceKeepsNormal(key: Text, value: Json, fields: Fields)
    requires IsNormal(value) && NormalFieldList(fields) && key !in Keys(fields)
    ensures NormalFieldList(Place(key, value, fields))
  {
    hide KeyBefore, IsNormal;
    if fields.Field? {
      KeyOrderIsStrict(key, fields.key);
      if !KeyBefore(key, fields.key) {
        PlaceKeepsNormal(key, value, fields.rest);
      }
    }
  }

  /**
   * A value has a normal form exactly when it is supported; the form means the same, and normalising it again
   * changes nothing.
   */
  lemma {:induction false} NormalIsFaithful(v: Json)
    requires Proper(v)
    ensures Normal(v).Some? <==> Supported(v)
    ensures Normal(v).Some? ==> IsNormal(Normal(v).value) && Means(Normal(v).value) == Means(v)
  {
    match v
    case Arr(items) => NormalItemsAreFaithful(items);
    case Obj(fields) => NormalFieldsAreFaithful(fields);
    case _ =>
  }

  lemma {:induction false} NormalItemsAreFaithful(items: Items)
    requires ProperItems(items)
    ensures NormalItems(items).Some? <==> SupportedItems(items)
    ensures NormalItems(items).Some? ==>
              NormalItemList(NormalItems(items).value) && ItemsMean(NormalItems(items).value) == ItemsMean(items)
  {
    if items.Item? {
      NormalIsFaithful(items.head);
      NormalItemsAreFaithful(items.tail);
    }
  }

  lemma {:induction false} NormalFieldsAreFaithful(fields: Fields)
    requires ProperFields(fields)
    ensures NormalFields(fields).Some? <==> SupportedFields(fields)
    ensures NormalFields(fields).Some? ==>
              && NormalFieldList(NormalFields(fields).value)
              && FieldsMean(NormalFields(fields).value) == FieldsMean(fields)
              && Keys(NormalFields(fields).value) == Keys(fields)
  {
    hide Place, KeyBefore;
    if fields.Field? {
      NormalIsFaithful(fields.value);
      NormalFieldsAreFaithful(fields.rest);
      if NormalFields(fields).Some? {
        PlaceAdds(fields.key, Normal(fields.value).value, NormalFields(fields.rest).value);
        PlaceKeepsNormal(fields.key, Normal(fields.value).value, NormalFields(fields.rest).value);
      }
    }
  }

  lemma {:induction false} NormalIsStable(v: Json)
    requires IsNormal(v)
    ensures Normal(v) == Some(v)
  {
    match v
    case Arr(items) => NormalItemsAreStable(items);
    case Obj(fields) => NormalFieldsAreStable(fields);
    case _ =>
  }

  lemma {:induction false} NormalItemsAreStable(items: Items)
    requires NormalItemList(items)
    ensures NormalItems(items) == Some(items)
  {
    if items.Item? {
      NormalIsStable(items.head);
      NormalItemsAreStable(items.tail);
    }
  }

  lemma {:induction false} NormalFieldsAreStable(fields: Fields)
    requires NormalFieldList(fields)
    ensures NormalFields(fields) == Some(fields)
  {
    if fields.Field? {
      NormalIsStable(fields.value);
      NormalFieldsAreStable(fields.rest);
    }
  }

  /** Normalising twice is normalising once. */
  lemma NormalTwice(v: Json)
    requires Proper(v) && Normal(v).Some?
    ensures Normal(Normal(v).value) == Normal(v)
  {
    NormalIsFaithful(v);
    NormalIsStable(Normal(v).value);
  }

  // ---------------------------------------------------------------- one normal form per meaning

  lemma {:induction false} HeadIsFirst(fields: Fields, key: Text)
    requires NormalFieldList(fields) && fields.Field? && key in FieldsMean(fields.rest)
    ensures KeyBefore(fields.key, key)
  {
    hide KeyBefore, IsNormal, Means;
    if key != fields.rest.key {
      HeadIsFirst(fields.rest, key);
      KeyOrderIsTransitive(fields.key, fields.rest.key, key);
    }
  }

  lemma HeadNotInRest(fields: Fields)
    requires NormalFieldList(fields) && fields.Field?
    ensures fields.key !in FieldsMean(fields.rest)
  {
    hide KeyBefore, IsNormal, Means;
    KeyOrderIsStrict(fields.key, fields.key);
    if fields.key in FieldsMean(fields.rest) {
      HeadIsFirst(fields, fields.key);
    }
  }

  lemma {:induction false} SameMeaningSameNormal(a: Json, b: Json)
    requires IsNormal(a) && IsNormal(b) && Means(a) == Means(b)
    ensures a == b
  {
    match a
    case Arr(items) => SameItemsMeaning(items, b.items);
    case Obj(fields) => SameFieldsMeaning(fields, b.fields);
    case _ =>
  }

  lemma {:induction false} SameItemsMeaning(a: Items, b: Items)
    requires NormalItemList(a) && NormalItemList(b) && ItemsMean(a) == ItemsMean(b)
    ensures a == b
  {
    hide IsNormal;
    if a.Item? {
      assert ItemsMean(b) != [] && b.Item?;
      assert ItemsMean(a)[0] == ItemsMean(b)[0];
      assert ItemsMean(a)[1..] == ItemsMean(a.tail) && ItemsMean(b)[1..] == ItemsMean(b.tail);
      SameMeaningSameNormal(a.head, b.head);
      SameItemsMeaning(a.tail, b.tail);
    }
  }

  lemma SameHead(a: Fields, b: Fields)
    requires NormalFieldList(a) && NormalFieldList(b) && FieldsMean(a) == FieldsMean(b) && a.Field?
    ensures b.Field? && a.key == b.key
    ensures FieldsMean(a.rest) == FieldsMean(b.rest) && Means(a.value) == Means(b.value)
  {
    hide KeyBefore, IsNormal, Means;
    assert a.key in FieldsMean(b);
    assert b.key in FieldsMean(a);
    if a.key != b.key {
      HeadIsFirst(b, a.key);
      HeadIsFirst(a, b.key);
      KeyOrderIsStrict(a.key, b.key);
    }
    HeadNotInRest(a);
    HeadNotInRest(b);
    assert FieldsMean(a.rest) == FieldsMean(a) - {a.key};
    assert FieldsMean(b.rest) == FieldsMean(b) - {b.key};
    assert FieldsMean(a)[a.key] == FieldsMean(b)[a.key];
  }

  lemma {:induction false} SameFieldsMeaning(a: Fields, b: Fields)
    requires NormalFieldList(a) && NormalFieldList(b) && FieldsMean(a) == FieldsMean(b)
    ensures a == b
  {
    hide KeyBefore, IsNormal;
    if a.Field? {
      SameHead(a, b);
      SameMeaningSameNormal(a.value, b.value);
      SameFieldsMeaning(a.rest, b.rest);
    } else if b.Field? {
      SameHead(b, a);
    }
  }

  // ---------------------------------------------------------------- the text in characters

  lemma Lexemes()
    ensures NULL_TEXT == Units("null") && TRUE_TEXT == Units("true") && FALSE_TEXT == Units("false")
    ensures [QUOTE] == Units("\"") && [BACKSLASH] == Units("\\") && [COMMA] == Units(",") && [COLON] == Units(":")
    ensures [OPEN_ARRAY] == Units("[") && [CLOSE_ARRAY] == Units("]")
    ensures [OPEN_OBJECT] == Units("{") && [CLOSE_OBJECT] == Units("}")
  {
  }

  /** Words and punctuation of the text are those of JSON (sections 3 to 7 of RFC 8259), without any blanks. */
  lemma PrintsJson(text: Text, b: bool, after: Text)
    ensures Print(Null, after) == Units("null") + after
    ensures Print(Bool(b), after) == Units(if b then "true" else "false") + after
    ensures Print(Str(text), after) == Units("\"") + Literal(text, after)
    ensures Literal([], after) == Units("\"") + after
  {
    Lexemes();
    hide Units;
  }

  lemma PrintsJsonArray(first: Json, second: Json, after: Text)
    ensures Print(Arr(NoItem), after) == Units("[") + (Units("]") + after)
    ensures Print(Arr(Item(first, Item(second, NoItem))), after) ==
              Units("[") + Print(first, Units(",") + Print(second, Units("]") + after))
  {
    Lexemes();
    hide Units;
    assert PrintItems(NoItem, false, after) == Units("]") + after;
    assert PrintItems(Item(second, NoItem), false, after) == Units(",") + Print(second, Units("]") + after);
  }

  lemma PrintsJsonObject(k: Text, first: Json, l: Text, second: Json, after: Text)
    ensures Print(Obj(NoField), after) == Units("{") + (Units("}") + after)
    ensures Print(Obj(Field(k, first, Field(l, second, NoField))), after) ==
              Units("{") + (Units("\"") + Literal(k, Units(":") + Print(first,
                Units(",") + (Units("\"") + Literal(l, Units(":") + Print(second, Units("}") + after))))))
  {
    Lexemes();
    hide Units, Literal;
    assert PrintFields(NoField, false, after) == Units("}") + after;
    assert PrintFields(Field(l, second, NoField), false, after) ==
           Units(",") + (Units("\"") + Literal(l, Units(":") + Print(second, Units("}") + after)));
  }

  /** Quotes, backslashes and controls are escaped, in short where there is a letter for it; lone surrogates in hex. */
  lemma EscapesAsJson(u: Unit)
    ensures Escaped(u) == [u] <==> 0x20 <= u && u != 34 && u != 92 && !(0xD800 <= u <= 0xDFFF)
    ensures u == 34 ==> Escaped(u) == Units("\\\"")
    ensures u == 92 ==> Escaped(u) == Units("\\\\")
    ensures u == 8 ==> Escaped(u) == Units("\\b")
    ensures u == 9 ==> Escaped(u) == Units("\\t")
    ensures u == 10 ==> Escaped(u) == Units("\\n")
    ensures u == 12 ==> Escaped(u) == Units("\\f")
    ensures u == 13 ==> Escaped(u) == Units("\\r")
  {
  }

  lemma EscapesInHex()
    ensures Escaped(0) == Units("\\u0000") && Escaped(31) == Units("\\u001f") && Escaped(0xDABC) == Units("\\udabc")
  {
    assert HexEscape(0) == [92, 117, 48, 48, 48, 48];
    assert HexEscape(31) == [92, 117, 48, 48, 49, 102];
    assert HexEscape(0xDABC) == [92, 117, 100, 97, 98, 99];
  }

  /** A surrogate pair stands for itself. */
  lemma PairsStandForThemselves(high: Unit, low: Unit, rest: Text, after: Text)
    requires 0xD800 <= high <= 0xDBFF && 0xDC00 <= low <= 0xDFFF
    ensures Literal([high, low] + rest, after) == [high, low] + Literal(rest, after)
  {
    assert ([high, low] + rest)[2..] == rest;
  }

  /** A number text is made of digits, signs, a point and an exponent. */
  lemma NumberUnits(u: Unit)
    ensures IsNumberUnit(u) <==> u in Units("0123456789+-.e")
  {
    var units := Units("0123456789+-.e");
    if IsNumberUnit(u) {
      var i := if 48 <= u <= 57 then u - 48
               else if u == 43 then 10 else if u == 45 then 11 else if u == 46 then 12 else 13;
      NumberUnitAt(i);
      assert units[i] == u;
    }
    forall i | 0 <= i < 14
      ensures IsNumberUnit(units[i])
    {
      NumberUnitAt(i);
    }
  }

  lemma NumberUnitAt(i: nat)
    requires i < 14
    ensures Units("0123456789+-.e")[i] ==
              if i < 10 then 48 + i
              else if i == 10 then 43 else if i == 11 then 45 else if i == 12 then 46 else 101
  {
    hide *;
    assert "0123456789+-.e"[i] as int < 0x1_0000;
  }

  /** Array indices are the numbers without leading zeros up to 2^32 - 2. */
  lemma LargestIndex(d: nat)
    requires d < 10
    ensures LAST_INDEX == Units("4294967294")
    ensures IsIndex([48 + d])
    ensures IsIndex(LAST_INDEX[9 := 48 + d]) <==> d <= 4
    ensures !IsIndex([]) && !IsIndex([48, 48 + d]) && !IsIndex(LAST_INDEX + [48 + d])
  {
    BeforeAtEnd(LAST_INDEX[..9], 52, 48 + d);
    assert LAST_INDEX[..9] + [52] == LAST_INDEX && LAST_INDEX[..9] + [48 + d] == LAST_INDEX[9 := 48 + d];
  }

  lemma {:induction false} BeforeAtEnd(text: Text, a: Unit, b: Unit)
    ensures Before(text + [a], text + [b]) <==> a < b
  {
    if text != [] {
      assert (text + [a])[1..] == text[1..] + [a] && (text + [b])[1..] == text[1..] + [b];
      BeforeAtEnd(text[1..], a, b);
    }
  }

  /** Shorter indices are smaller, any index comes before any other key, and those compare by their first difference. */
  lemma KeysInOrder(a: Text, b: Text, same: Text, c: Unit, d: Unit)
    requires IsIndex(a)
    ensures IsIndex(b) && |a| < |b| ==> KeyBefore(a, b)
    ensures !IsIndex(b) ==> KeyBefore(a, b) && !KeyBefore(b, a)
    ensures IsIndex(same + [c]) == IsIndex(same + [d]) && c < d ==> KeyBefore(same + [c], same + [d])
    ensures !IsIndex(same) && !IsIndex(same + [c]) ==> KeyBefore(same, same + [c])
  {
    BeforeAtEnd(same, c, d);
    BeginningComesFirst(same, c);
  }

  lemma {:induction false} BeginningComesFirst(text: Text, c: Unit)
    ensures Before(text, text + [c])
  {
    if text != [] {
      assert (text + [c])[1..] == text[1..] + [c];
      BeginningComesFirst(text[1..], c);
    }
  }
}
