/** JSON values as the application computes with them: JavaScript's conversions, and its order of object keys. */
module JsValues {
  import opened Text
  import opened Numerals
  import opened Json

  /* ---------- conversions ---------- */

  /** `String(x)`; an array is joined by commas, with null as the empty text. */
  function ToText(j: Json): string
    decreases j, 1
  {
    match j
    case JNull => "null"
    case JBool(b) => if b then "true" else "false"
    case JNum(n) => IntText(n)
    case JStr(s) => s
    case JArr(items) => ItemsText(items)
    case JObj(_) => "[object Object]"
  }

  function ItemsText(items: seq<Json>): string
    decreases items, 0
  {
    if items == [] then ""
    else
      var first := if items[0] == JNull then "" else ToText(items[0]);
      if |items| == 1 then first else first + "," + ItemsText(items[1..])
  }

  /** `Boolean(x)`. */
  predicate Truthy(j: Json) {
    match j
    case JNull => false
    case JBool(b) => b
    case JNum(n) => n != 0
    case JStr(s) => s != ""
    case _ => true
  }

  /** `obj?.key`, null counting as absent: what `??` falls back from. */
  function Member(j: Option<Json>, key: string): Option<Json> {
    match j
    case None => None
    case Some(obj) => if Get(obj, key) == Some(JNull) then None else Get(obj, key)
  }

  /** `String(x ?? otherwise)`. */
  function TextOf(j: Option<Json>, otherwise: string): string { if j.Some? then ToText(j.value) else otherwise }

  function DigitOf(c: char): nat {
    if '0' <= c <= '9' then c as int - '0' as int
    else if 'a' <= c <= 'f' then c as int - 'a' as int + 10
    else 16
  }

  /** Digits in a base up to 16. */
  function RadixValue(s: string, base: nat): Option<int> {
    if s == "" then Some(0)
    else
      match RadixValue(s[..|s| - 1], base)
      case None => None
      case Some(n) => if DigitOf(s[|s| - 1]) < base then Some(n * base + DigitOf(s[|s| - 1])) else None
  }

  function SignOf(s: string): int { if IsNegative(s) then -1 else 1 }

  function WithoutSign(s: string): string { if s != "" && (s[0] == '-' || s[0] == '+') then s[1..] else s }

  /** digits * 10^exponent, when it is an integer. */
  function Scaled(digits: nat, exponent: int): Option<int> {
    if exponent >= 0 then Some(digits * Pow10(exponent))
    else if digits % Pow10(-exponent) == 0 then Some(digits / Pow10(-exponent))
    else None
  }

  /** A decimal literal: sign, digits with an optional point, an optional exponent. */
  function DecimalValue(s: string): Option<int> {
    var parts := Split(WithoutSign(s), 'e');
    var mantissa := Split(parts[0], '.');
    var exponent := if |parts| == 2 then parts[1] else "0";
    var whole, fraction := mantissa[0], if |mantissa| == 2 then mantissa[1] else "";
    if |parts| > 2 || |mantissa| > 2 || !AllDigits(whole) || !AllDigits(fraction) || whole + fraction == "" then None
    else if WithoutSign(exponent) == "" || !AllDigits(WithoutSign(exponent)) then None
    else
      match Scaled(NatVal(whole + fraction), SignOf(exponent) * NatVal(WithoutSign(exponent)) - |fraction|)
      case None => None
      case Some(n) => Some(SignOf(s) * n)
  }

  /** `Number(text)`, when that is an integer. */
  function ReadNumber(text: string): Option<int> {
    var t := Lower(Trim(text));
    if t == "" then Some(0)
    else if |t| > 2 && t[0] == '0' && t[1] == 'x' then RadixValue(t[2..], 16)
    else if |t| > 2 && t[0] == '0' && t[1] == 'o' then RadixValue(t[2..], 8)
    else if |t| > 2 && t[0] == '0' && t[1] == 'b' then RadixValue(t[2..], 2)
    else DecimalValue(t)
  }

  /** `Number(x)`, when that is an integer; no other result equals an integer. */
  function ToNumber(j: Option<Json>): Option<int> {
    match j
    case None => None
    case Some(JNull) => Some(0)
    case Some(JBool(b)) => Some(if b then 1 else 0)
    case Some(JNum(n)) => Some(n)
    case Some(JStr(s)) => ReadNumber(s)
    case Some(JArr(items)) => ReadNumber(ItemsText(items))
    case Some(JObj(_)) => None
  }

  /* ---------- the text of a JSONB value ---------- */

  const HEX := "0123456789abcdef"

  /** A character inside a JSON string as PostgreSQL prints it. */
  function Escaped(c: char): string {
    var n := c as int;
    if c == '"' then "\\\"" else if c == '\\' then "\\\\"
    else if n == 8 then "\\b" else if n == 9 then "\\t" else if n == 10 then "\\n"
    else if n == 12 then "\\f" else if n == 13 then "\\r"
    else if n < 32 then "\\u00" + [HEX[n / 16], HEX[n % 16]]
    else [c]
  }

  function EscapedText(s: string): string {
    if s == "" then "" else Escaped(s[0]) + EscapedText(s[1..])
  }

  /** `jsonb::text`. */
  function Printed(j: Json): string
    decreases j, 1
  {
    match j
    case JStr(s) => "\"" + EscapedText(s) + "\""
    case JArr(items) => "[" + PrintedItems(items) + "]"
    case JObj(fields) => "{" + PrintedFields(fields) + "}"
    case _ => ToText(j)
  }

  function PrintedItems(items: seq<Json>): string
    decreases items, 0
  {
    if items == [] then ""
    else Printed(items[0]) + (if |items| == 1 then "" else ", " + PrintedItems(items[1..]))
  }

  function PrintedFields(fields: seq<Field>): string
    decreases fields, 0
  {
    if fields == [] then ""
    else
      "\"" + EscapedText(fields[0].key) + "\": " + Printed(fields[0].value)
      + (if |fields| == 1 then "" else ", " + PrintedFields(fields[1..]))
  }

  /** `column->>'key'`: a string's own text, the printed form of anything else, NULL for an absent member or null. */
  function MemberText(j: Json, key: string): Option<string> {
    match Member(Some(j), key)
    case None => None
    case Some(JStr(s)) => Some(s)
    case Some(v) => Some(Printed(Jsonb(v)))
  }

  /* ---------- the order of object keys ---------- */

  /** An array index: the canonical text of an integer below 2^32 - 1. */
  predicate IsIndex(key: string) { HasNoLeadingZero(key) && AllDigits(key) && NatVal(key) < 0xFFFF_FFFF }

  /** A JavaScript object lists index keys first, ascending; the others follow in the order they were added. */
  function Place(fs: seq<Field>, f: Field): seq<Field> {
    if fs == [] then [f]
    else if IsIndex(f.key) && (!IsIndex(fs[0].key) || NatVal(f.key) < NatVal(fs[0].key)) then [f] + fs
    else if f.key == fs[0].key then [f] + fs[1..]
    else [fs[0]] + Place(fs[1..], f)
  }

  /** `JSON.parse` of a JSON text. */
  function Parsed(j: Json): Json
    decreases j, 1
  {
    match j
    case JArr(items) => JArr(ParsedItems(items))
    case JObj(fields) => JObj(ParsedFields(fields))
    case _ => j
  }

  function ParsedItems(items: seq<Json>): seq<Json>
    decreases items, 0
  {
    if items == [] then [] else [Parsed(items[0])] + ParsedItems(items[1..])
  }

  function ParsedFields(fields: seq<Field>): seq<Field>
    decreases fields, 0
  {
    if fields == [] then []
    else
      var last := fields[|fields| - 1];
      Place(ParsedFields(fields[..|fields| - 1]), Field(last.key, Parsed(last.value)))
  }

  /** What the application reads back from a JSONB column. */
  function ReadBack(j: Json): Json { Parsed(Jsonb(j)) }
}

/** When a value survives the way through a JSONB column. */
module JsLaws {
  import opened Text
  import opened Numerals
  import opened Json
  import opened JsValues

  /** The order in which a value read back lists its keys: indexes ascending, then the others by length and bytes. */
  predicate JsLess(a: string, b: string) {
    if IsIndex(a) && IsIndex(b) then NatVal(a) < NatVal(b)
    else if IsIndex(a) || IsIndex(b) then IsIndex(a)
    else KeyLess(a, b)
  }

  predicate JsIncreasing(fs: seq<Field>) {
    forall i, j :: 0 <= i < j < |fs| ==> JsLess(fs[i].key, fs[j].key)
  }

  /** Every object in the value lists its keys in that order: a caller can check this before posting. */
  predicate InReadOrder(j: Json)
    decreases j
  {
    match j
    case JArr(items) => forall i :: 0 <= i < |items| ==> InReadOrder(items[i])
    case JObj(fields) => JsIncreasing(fields) && forall i :: 0 <= i < |fields| ==> InReadOrder(fields[i].value)
    case _ => true
  }

  /* ---------- the two orders agree on indexes ---------- */

  lemma {:induction false} AsciiLength(s: string)
    requires forall i :: 0 <= i < |s| ==> s[i] as int < 0x80
    ensures Utf8Length(s) == |s|
  {
    if s == "" {
    } else {
      AsciiLength(s[1..]);
    }
  }

  lemma FirstDigit(s: string)
    requires s != "" && AllDigits(s)
    ensures NatVal(s) == Digit(s[0]) * Pow10(|s| - 1) + NatVal(s[1..]) && NatVal(s[1..]) < Pow10(|s| - 1)
  {
    var head := [s[0]];
    assert s == head + s[1..];
    assert NatVal(head[..0]) == 0;
    assert NatVal(head) == Digit(s[0]);
    NatValAppend(head, s[1..]);
    NatValBound(s[1..]);
  }

  lemma DigitsDecide(d: nat, e: nat, x: nat, y: nat, m: nat)
    requires x < m && y < m
    ensures d < e ==> d * m + x < e * m + y
    ensures d == e ==> (d * m + x < e * m + y <==> x < y)
  {
    if d < e { assert e * m == d * m + (e - d) * m && (e - d) * m >= m by { AtLeastOnce(e - d, m); } }
  }

  lemma AtLeastOnce(k: nat, m: nat)
    requires k >= 1
    ensures k * m >= m
  {
    assert k * m == m + (k - 1) * m;
  }

  /** At equal width, byte order is numeric order. */
  lemma {:induction false} LexIsNumeric(a: string, b: string)
    requires AllDigits(a) && AllDigits(b) && |a| == |b|
    ensures LexLess(a, b) <==> NatVal(a) < NatVal(b)
  {
    if a == "" {
    } else {
      FirstDigit(a);
      FirstDigit(b);
      LexIsNumeric(a[1..], b[1..]);
      DigitsDecide(Digit(a[0]), Digit(b[0]), NatVal(a[1..]), NatVal(b[1..]), Pow10(|a| - 1));
      DigitsDecide(Digit(b[0]), Digit(a[0]), NatVal(b[1..]), NatVal(a[1..]), Pow10(|a| - 1));
    }
  }

  lemma {:induction false} Pow10Grows(a: nat, b: nat)
    requires a <= b
    ensures Pow10(a) <= Pow10(b)
  {
    if a == b {
    } else {
      Pow10Grows(a, b - 1);
    }
  }

  lemma ShorterIsSmaller(a: string, b: string)
    requires AllDigits(a) && AllDigits(b) && HasNoLeadingZero(b) && 1 <= |a| < |b|
    ensures NatVal(a) < NatVal(b)
  {
    NatValBound(a);
    Pow10Grows(|a|, |b| - 1);
    FirstDigit(b);
    assert Digit(b[0]) >= 1;
    AtLeastOnce(Digit(b[0]), Pow10(|b| - 1));
  }

  /** On array indexes, JSONB's order of keys is the numeric one. */
  lemma IndexOrder(a: string, b: string)
    requires IsIndex(a) && IsIndex(b)
    ensures KeyLess(a, b) <==> NatVal(a) < NatVal(b)
  {
    AsciiLength(a);
    AsciiLength(b);
    if |a| == |b| {
      LexIsNumeric(a, b);
    } else if |a| < |b| {
      ShorterIsSmaller(a, b);
    } else {
      ShorterIsSmaller(b, a);
    }
  }

  lemma JsOrder(a: string, b: string)
    ensures !JsLess(a, a) && !(JsLess(a, b) && JsLess(b, a))
  {
    hide KeyLess, IsIndex;
    KeyOrder(a, b, a);
    KeyOrder(a, a, a);
  }

  /* ---------- members ---------- */

  /** Placing a field that comes last in JSONB order keeps JavaScript's order. */
  lemma {:induction false} PlaceKeepsOrder(fs: seq<Field>, f: Field)
    requires JsIncreasing(fs) && forall i :: 0 <= i < |fs| ==> KeyLess(fs[i].key, f.key)
    ensures JsIncreasing(Place(fs, f))
    ensures forall g :: g in Place(fs, f) <==> g in fs || g == f
  {
    hide KeyLess, IsIndex;
    if fs == [] {
    } else {
      KeyOrder(f.key, f.key, f.key);
      if IsIndex(f.key) && IsIndex(fs[0].key) { IndexOrder(fs[0].key, f.key); }
      var before := IsIndex(f.key) && !IsIndex(fs[0].key);
      if before {
        assert Place(fs, f) == [f] + fs;
        forall i | 0 <= i < |fs| ensures JsLess(f.key, fs[i].key) {
          assert i > 0 ==> JsLess(fs[0].key, fs[i].key);
        }
      } else {
        var rest := fs[1..];
        PlaceKeepsOrder(rest, f);
        assert Place(fs, f) == [fs[0]] + Place(rest, f);
        assert JsLess(fs[0].key, f.key);
        forall i | 0 <= i < |Place(rest, f)| ensures JsLess(fs[0].key, Place(rest, f)[i].key) {
          var g := Place(rest, f)[i];
          assert g in Place(rest, f);
          if g != f {
            var k :| 0 <= k < |rest| && rest[k] == g;
            assert g == fs[k + 1];
          }
        }
        assert fs == [fs[0]] + rest;
      }
    }
  }

  function ParsedField(f: Field): Field { Field(f.key, Parsed(f.value)) }

  function StoredField(f: Field): Field { Field(f.key, Jsonb(f.value)) }

  function ReadField(f: Field): Field { Field(f.key, ReadBack(f.value)) }

  /** Parsing an object whose keys are in JSONB order. */
  lemma {:induction false} ParsedFieldsAre(fs: seq<Field>)
    requires KeysIncrease(fs)
    ensures JsIncreasing(ParsedFields(fs))
    ensures forall g :: g in ParsedFields(fs) ==> exists f :: f in fs && g == ParsedField(f)
    ensures forall f :: f in fs ==> ParsedField(f) in ParsedFields(fs)
  {
    hide KeyLess, JsLess, Place, Parsed;
    if fs == [] {
    } else {
      var n := |fs| - 1;
      var front := ParsedFields(fs[..n]);
      ParsedFieldsAre(fs[..n]);
      assert fs == fs[..n] + [fs[n]];
      forall j | 0 <= j < |front| ensures KeyLess(front[j].key, fs[n].key) {
        assert front[j] in front;
        var f :| f in fs[..n] && front[j] == ParsedField(f);
        var i :| 0 <= i < n && fs[..n][i] == f;
        assert fs[i] == f;
      }
      PlaceKeepsOrder(front, ParsedField(fs[n]));
    }
  }

  lemma {:induction false} InsertMembers(fs: seq<Field>, f: Field)
    ensures f in Insert(fs, f)
    ensures forall g :: g in fs && g.key != f.key ==> g in Insert(fs, f)
    ensures forall g :: g in Insert(fs, f) ==> g == f || g in fs
  {
    hide KeyLess;
    if fs == [] {
    } else {
      InsertMembers(fs[1..], f);
      assert fs == [fs[0]] + fs[1..];
    }
  }

  predicate DistinctKeys(fs: seq<Field>) { forall i, j :: 0 <= i < j < |fs| ==> fs[i].key != fs[j].key }

  /** A JSONB object holds only fields of the original. */
  lemma {:induction false} StoredComesFrom(fs: seq<Field>)
    ensures forall g :: g in JsonbFields(fs) ==> exists f :: f in fs && g == StoredField(f)
  {
    hide Insert, Jsonb;
    if fs == [] {
    } else {
      var n := |fs| - 1;
      StoredComesFrom(fs[..n]);
      assert fs == fs[..n] + [fs[n]];
      InsertMembers(JsonbFields(fs[..n]), StoredField(fs[n]));
    }
  }

  /** And all of them, if their keys are distinct. */
  lemma {:induction false} StoredIsAll(fs: seq<Field>, f: Field)
    requires DistinctKeys(fs) && f in fs
    ensures StoredField(f) in JsonbFields(fs)
  {
    hide Insert, Jsonb;
    var n := |fs| - 1;
    InsertMembers(JsonbFields(fs[..n]), StoredField(fs[n]));
    if f == fs[n] {
    } else {
      assert fs == fs[..n] + [fs[n]];
      StoredIsAll(fs[..n], f);
      var i :| 0 <= i < n && fs[i] == f;
    }
  }

  /* ---------- the fixed point ---------- */

  /** Two lists in one strict order with the same members are equal. */
  lemma {:induction false} SameMembers(a: seq<Field>, b: seq<Field>)
    requires JsIncreasing(a) && JsIncreasing(b) && forall g :: g in a <==> g in b
    ensures a == b
  {
    hide JsLess;
    if a == [] {
      if b != [] { SomeMember(b); }
    } else {
      assert a[0] in b && b != [];
      assert b[0] in a;
      var j :| 0 <= j < |b| && b[j] == a[0];
      var i :| 0 <= i < |a| && a[i] == b[0];
      JsOrder(a[0].key, b[0].key);
      assert a[0] == b[0];
      assert a == [a[0]] + a[1..] && b == [b[0]] + b[1..];
      HeadIsNotInTail(a);
      HeadIsNotInTail(b);
      forall g ensures g in a[1..] <==> g in b[1..] {
        assert g in a <==> g == a[0] || g in a[1..];
        assert g in b <==> g == b[0] || g in b[1..];
      }
      SameMembers(a[1..], b[1..]);
    }
  }

  lemma SomeMember(a: seq<Field>)
    requires a != []
    ensures exists g :: g in a
  {
    assert a[0] in a;
  }

  lemma HeadIsNotInTail(a: seq<Field>)
    requires a != [] && JsIncreasing(a)
    ensures a[0] !in a[1..]
  {
    hide JsLess;
    JsOrder(a[0].key, a[0].key);
    assert forall i :: 0 <= i < |a| - 1 ==> a[1..][i] == a[i + 1];
  }

  lemma {:induction false} ItemsRead(items: seq<Json>)
    ensures |ParsedItems(JsonbItems(items))| == |items|
    ensures forall i :: 0 <= i < |items| ==> ParsedItems(JsonbItems(items))[i] == ReadBack(items[i])
  {
    hide Parsed, Jsonb;
    if items == [] {
    } else {
      ItemsRead(items[1..]);
      assert JsonbItems(items)[1..] == JsonbItems(items[1..]);
    }
  }

  /** What is read back from an object: its keys in order, its members' values read back. */
  lemma FieldsRead(fields: seq<Field>)
    ensures var r := ParsedFields(JsonbFields(fields));
            && JsIncreasing(r)
            && (forall g :: g in r ==> exists f :: f in fields && g == ReadField(f))
            && (DistinctKeys(fields) ==> forall f :: f in fields ==> ReadField(f) in r)
  {
    hide Parsed, Jsonb, KeyLess, JsLess, JsonbFields, ParsedFields, InJsonbOrder, DistinctKeys;
    var stored := JsonbFields(fields);
    FieldsOrdered(fields);
    ParsedFieldsAre(stored);
    StoredComesFrom(fields);
    forall g | g in ParsedFields(stored) ensures exists f :: f in fields && g == ReadField(f) {
      var h :| h in stored && g == ParsedField(h);
      var f :| f in fields && h == StoredField(f);
      assert g == ReadField(f);
    }
    if DistinctKeys(fields) {
      forall f | f in fields ensures ReadField(f) in ParsedFields(stored) {
        StoredIsAll(fields, f);
        assert ParsedField(StoredField(f)) in ParsedFields(stored);
      }
    }
  }

  /** What is read back is always in read order. */
  lemma {:induction false} ReadBackIsOrdered(j: Json)
    ensures InReadOrder(ReadBack(j))
    decreases j
  {
    hide JsLess, JsonbFields, ParsedFields, JsonbItems, ParsedItems;
    match j
    case JArr(items) =>
      ItemsRead(items);
      forall i | 0 <= i < |items| ensures InReadOrder(ParsedItems(JsonbItems(items))[i]) { ReadBackIsOrdered(items[i]); }
    case JObj(fields) =>
      FieldsRead(fields);
      var r := ParsedFields(JsonbFields(fields));
      forall k | 0 <= k < |r| ensures InReadOrder(r[k].value) {
        assert r[k] in r;
        var f :| f in fields && r[k] == ReadField(f);
        ReadBackIsOrdered(f.value);
      }
    case _ =>
  }

  lemma {:induction false} OrderedReadsBack(j: Json)
    requires InReadOrder(j)
    ensures ReadBack(j) == j
    decreases j
  {
    hide JsLess, JsonbFields, ParsedFields, JsonbItems, ParsedItems;
    match j
    case JArr(items) =>
      ItemsRead(items);
      forall i | 0 <= i < |items| ensures ReadBack(items[i]) == items[i] { OrderedReadsBack(items[i]); }
      assert ParsedItems(JsonbItems(items)) == items;
    case JObj(fields) =>
      forall i | 0 <= i < |fields| ensures ReadBack(fields[i].value) == fields[i].value { OrderedReadsBack(fields[i].value); }
      FieldsSame(fields);
    case _ =>
  }

  lemma FieldsSame(fields: seq<Field>)
    requires JsIncreasing(fields) && forall i :: 0 <= i < |fields| ==> ReadBack(fields[i].value) == fields[i].value
    ensures ParsedFields(JsonbFields(fields)) == fields
  {
    hide JsLess, JsonbFields, ParsedFields, ReadBack;
    assert forall f :: f in fields ==> ReadField(f) == f;
    forall i, j | 0 <= i < j < |fields| ensures fields[i].key != fields[j].key { JsOrder(fields[i].key, fields[j].key); }
    FieldsRead(fields);
    var r := ParsedFields(JsonbFields(fields));
    forall g ensures g in r <==> g in fields {
      if g in fields { assert ReadField(g) in r; }
    }
    SameMembers(r, fields);
  }

  /**
   * A value comes back from a JSONB column as the application wrote it exactly when its keys were in read order; what
   * comes back is a fixed point.
   */
  lemma ReadBackFixedIff(j: Json)
    ensures ReadBack(j) == j <==> InReadOrder(j)
    ensures ReadBack(ReadBack(j)) == ReadBack(j)
  {
    hide ReadBack;
    ReadBackIsOrdered(j);
    OrderedReadsBack(ReadBack(j));
    if InReadOrder(j) { OrderedReadsBack(j); }
  }

  /** The array indexes are the numerals of the numbers below 2^32 - 1. */
  lemma IndexIff(key: string)
    ensures IsIndex(key) <==> exists n: nat :: n < 4294967295 && key == Numeral(n)
  {
    if IsIndex(key) {
      NumeralIsUnique(key);
      assert key == Numeral(NatVal(key));
    }
    forall n: nat | n < 4294967295 && key == Numeral(n) ensures IsIndex(key) {
      NatValNumeral(n);
      NumeralHasNoLeadingZero(n);
    }
  }

  /** `column->>'key'` by cases. */
  lemma MemberTextCases(j: Json, key: string)
    ensures match Get(j, key)
            case None => MemberText(j, key) == None
            case Some(JNull) => MemberText(j, key) == None
            case Some(JStr(s)) => MemberText(j, key) == Some(s)
            case Some(JNum(n)) => MemberText(j, key) == Some(IntText(n))
            case Some(JBool(b)) => MemberText(j, key) == Some(if b then "true" else "false")
            case Some(_) => MemberText(j, key).Some?
  {
    hide Lookup, IntText;
  }

  /* ---------- members and their texts, read back ---------- */

  lemma {:induction false} LookupWhere(fs: seq<Field>, key: string)
    ensures match Lookup(fs, key)
            case None => forall f :: f in fs ==> f.key != key
            case Some(v) => Field(key, v) in fs
  {
    if fs == [] {
    } else {
      var n := |fs| - 1;
      LookupWhere(fs[..n], key);
      assert fs == fs[..n] + [fs[n]];
    }
  }

  lemma LookupDistinct(fs: seq<Field>, f: Field)
    requires DistinctKeys(fs) && f in fs
    ensures Lookup(fs, f.key) == Some(f.value)
  {
    LookupWhere(fs, f.key);
  }

  lemma IncreasingIsDistinct(fs: seq<Field>)
    requires KeysIncrease(fs) || JsIncreasing(fs)
    ensures DistinctKeys(fs)
  {
    hide KeyLess, JsLess;
    forall i, j | 0 <= i < j < |fs| ensures fs[i].key != fs[j].key {
      KeyOrder(fs[i].key, fs[i].key, fs[i].key);
      JsOrder(fs[i].key, fs[i].key);
    }
  }

  /** Two lists of fields have the same members under one key, up to a change of their values. */
  lemma SameLookup(fs: seq<Field>, gs: seq<Field>, key: string, change: Json -> Json)
    requires DistinctKeys(gs) && forall g :: g in gs ==> exists f :: f in fs && f.key == g.key
    requires Lookup(fs, key).Some? ==> Field(key, change(Lookup(fs, key).value)) in gs
    ensures Lookup(gs, key) == match Lookup(fs, key) { case None => None case Some(v) => Some(change(v)) }
  {
    LookupWhere(fs, key);
    LookupWhere(gs, key);
    if Lookup(fs, key).Some? { LookupDistinct(gs, Field(key, change(Lookup(fs, key).value))); }
  }

  /** A JSONB object keeps, of each key, the last value. */
  lemma {:induction false} StoredLookup(fields: seq<Field>, key: string)
    requires Lookup(fields, key).Some?
    ensures Field(key, Jsonb(Lookup(fields, key).value)) in JsonbFields(fields)
  {
    hide Insert, Jsonb;
    var n := |fields| - 1;
    InsertMembers(JsonbFields(fields[..n]), StoredField(fields[n]));
    if fields[n].key != key { StoredLookup(fields[..n], key); }
  }

  function MemberReadBack(member: Option<Json>): Option<Json> {
    match member case None => None case Some(v) => Some(ReadBack(v))
  }

  /** The member of a value read back is the member of the value, read back. */
  lemma GetReadBack(j: Json, key: string)
    ensures Get(ReadBack(j), key) == MemberReadBack(Get(j, key))
  {
    hide Lookup, JsonbFields, ParsedFields, JsIncreasing, DistinctKeys, KeysIncrease;
    if j.JObj? {
      FieldsRead(j.fields);
      var r := ParsedFields(JsonbFields(j.fields));
      IncreasingIsDistinct(r);
      if Lookup(j.fields, key).Some? {
        StoredLookup(j.fields, key);
        FieldsOrdered(j.fields);
        ParsedFieldsAre(JsonbFields(j.fields));
        assert ParsedField(Field(key, Jsonb(Lookup(j.fields, key).value))) in r;
      }
      SameLookup(j.fields, r, key, v => ReadBack(v));
    }
  }

  /** The text of an array: its items' texts joined by commas, null being the empty one. */
  lemma {:induction false} ArrayText(items: seq<Json>, texts: seq<string>)
    requires |texts| == |items|
    requires forall i :: 0 <= i < |items| ==> texts[i] == if items[i] == JNull then "" else ToText(items[i])
    ensures ToText(JArr(items)) == Join(texts, ',')
  {
    if |items| <= 1 {
    } else {
      ArrayText(items[1..], texts[1..]);
    }
  }

  /** The way through a JSONB column and back does not change a value's text. */
  lemma {:induction false} TextReadsBack(j: Json)
    ensures ToText(ReadBack(j)) == ToText(j)
    decreases j
  {
    match j
    case JArr(items) =>
      ItemsRead(items);
      var texts := seq(|items|, i requires 0 <= i < |items| => if items[i] == JNull then "" else ToText(items[i]));
      forall i | 0 <= i < |items| ensures texts[i] == (if ReadBack(items[i]) == JNull then "" else ToText(ReadBack(items[i]))) {
        TextReadsBack(items[i]);
      }
      ArrayText(items, texts);
      ArrayText(ParsedItems(JsonbItems(items)), texts);
    case _ =>
  }

  /* ---------- numbers ---------- */

  /** A printed integer reads as itself. */
  lemma ReadsIntText(n: int)
    ensures ReadNumber(IntText(n)) == Some(n)
  {
    hide DecimalValue, RadixValue, IsSpace, Trim, Lower, Numeral;
    var m: nat := if n < 0 then -n else n;
    NumeralIsPlain(n < 0, Numeral(m));
    ReadsDigits(n < 0, Numeral(m));
    NatValNumeral(m);
  }

  lemma NumeralIsPlain(negative: bool, digits: string)
    requires digits != "" && AllDigits(digits)
    ensures var t := if negative then "-" + digits else digits;
            Lower(Trim(t)) == t && t != "" && (|t| > 1 ==> IsDigit(t[1]))
  {
    hide Trim, IsSpace, Lower;
    var t := if negative then "-" + digits else digits;
    assert forall i :: 0 <= i < |t| ==> t[i] == '-' || IsDigit(t[i]);
    PlainText(t);
    TrimTrims(t);
  }

  lemma PlainText(t: string)
    requires forall i :: 0 <= i < |t| ==> t[i] == '-' || IsDigit(t[i])
    ensures Lower(t) == t && IsTrimmed(t)
  {
  }

  lemma ReadsDigits(negative: bool, digits: string)
    requires digits != "" && AllDigits(digits)
    ensures DecimalValue(if negative then "-" + digits else digits) == Some(Sign(negative, NatVal(digits)))
  {
    hide NatVal, Split;
    var t := if negative then "-" + digits else digits;
    assert IsDigit(digits[0]);
    assert WithoutSign(t) == digits;
    SplitWhole(digits, 'e');
    SplitWhole(digits, '.');
    assert digits + "" == digits;
    ZeroExponent();
    assert NatVal(digits) * 1 == NatVal(digits);
  }

  lemma ZeroExponent()
    ensures WithoutSign("0") == "0" && AllDigits("0") && NatVal("0") == 0 && SignOf("0") == 1
  {
    var s := "0";
    assert s[..0] == "";
  }

  /** `Number(x)`: an absent member and an object are no number, null and blank text are 0, integers are themselves. */
  lemma NumberCases(n: int, s: string, fields: seq<Field>)
    ensures ToNumber(None) == None && ToNumber(Some(JObj(fields))) == None && ToNumber(Some(JNull)) == Some(0)
    ensures ToNumber(Some(JNum(n))) == Some(n) && ToNumber(Some(JStr(IntText(n)))) == Some(n)
    ensures ToNumber(Some(JBool(true))) == Some(1) && ToNumber(Some(JBool(false))) == Some(0)
    ensures Blank(s) ==> ToNumber(Some(JStr(s))) == Some(0)
  {
    ReadsIntText(n);
    TrimBlank(s);
  }
}
