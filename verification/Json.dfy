/** JSON values as the routes send them and as a PostgreSQL JSONB column gives them back. */
module Json {
  import opened Text

  datatype Json =
    | JNull
    | JBool(b: bool)
    | JNum(n: int)
    | JStr(s: string)
    | JArr(items: seq<Json>)
    | JObj(fields: seq<Field>)

  datatype Field = Field(key: string, value: Json)

  function Utf8Width(c: char): nat {
    var n := c as int;
    if n < 0x80 then 1 else if n < 0x800 then 2 else if n < 0x10000 then 3 else 4
  }

  function Utf8Length(s: string): nat {
    if s == "" then 0 else Utf8Width(s[0]) + Utf8Length(s[1..])
  }

  /** Code point order, which is the byte order of the UTF-8 forms. */
  predicate LexLess(a: string, b: string) {
    if b == "" then false
    else if a == "" then true
    else if a[0] != b[0] then a[0] < b[0]
    else LexLess(a[1..], b[1..])
  }

  /** JSONB keeps object keys by length in bytes, then by bytes. */
  predicate KeyLess(a: string, b: string) {
    Utf8Length(a) < Utf8Length(b) || (Utf8Length(a) == Utf8Length(b) && LexLess(a, b))
  }

  function Insert(fs: seq<Field>, f: Field): seq<Field> {
    if fs == [] then [f]
    else if KeyLess(f.key, fs[0].key) then [f] + fs
    else if f.key == fs[0].key then [f] + fs[1..]
    else [fs[0]] + Insert(fs[1..], f)
  }

  /** What storing a value in a JSONB column and reading it back gives: keys sorted, the last duplicate kept. */
  function Jsonb(j: Json): Json
    decreases j, 1
  {
    match j
    case JArr(items) => JArr(JsonbItems(items))
    case JObj(fields) => JObj(JsonbFields(fields))
    case _ => j
  }

  function JsonbItems(items: seq<Json>): seq<Json>
    decreases items, 0
  {
    if items == [] then [] else [Jsonb(items[0])] + JsonbItems(items[1..])
  }

  function JsonbFields(fields: seq<Field>): seq<Field>
    decreases fields, 0
  {
    if fields == [] then []
    else
      var last := fields[|fields| - 1];
      Insert(JsonbFields(fields[..|fields| - 1]), Field(last.key, Jsonb(last.value)))
  }

  predicate KeysIncrease(fs: seq<Field>) {
    forall i, j :: 0 <= i < j < |fs| ==> KeyLess(fs[i].key, fs[j].key)
  }

  /** Every object in the value already has its keys in JSONB order: a caller can check this before posting. */
  predicate InJsonbOrder(j: Json)
    decreases j
  {
    match j
    case JArr(items) => forall i :: 0 <= i < |items| ==> InJsonbOrder(items[i])
    case JObj(fields) => KeysIncrease(fields) && forall i :: 0 <= i < |fields| ==> InJsonbOrder(fields[i].value)
    case _ => true
  }

  /** The member of an object under a key, as `obj.key` or `obj->'key'` reads it. */
  function Get(j: Json, key: string): Option<Json> {
    if j.JObj? then Lookup(j.fields, key) else None
  }

  function Lookup(fs: seq<Field>, key: string): Option<Json> {
    if fs == [] then None
    else if fs[|fs| - 1].key == key then Some(fs[|fs| - 1].value)
    else Lookup(fs[..|fs| - 1], key)
  }

  lemma {:induction false} LexTotal(a: string, b: string)
    ensures a == b || LexLess(a, b) || LexLess(b, a)
    ensures !(LexLess(a, b) && LexLess(b, a)) && !LexLess(a, a)
  {
    if a == "" || b == "" || a[0] != b[0] {
    } else {
      LexTotal(a[1..], b[1..]);
      assert a == [a[0]] + a[1..] && b == [b[0]] + b[1..];
    }
    if a == "" {
    } else {
      LexTotal(a[1..], a[1..]);
    }
  }

  lemma {:induction false} LexTransitive(a: string, b: string, c: string)
    requires LexLess(a, b) && LexLess(b, c)
    ensures LexLess(a, c)
  {
    if a == "" || a[0] != b[0] || b[0] != c[0] {
    } else {
      LexTransitive(a[1..], b[1..], c[1..]);
    }
  }

  lemma KeyOrder(a: string, b: string, c: string)
    ensures a == b || KeyLess(a, b) || KeyLess(b, a)
    ensures !KeyLess(a, a) && !(KeyLess(a, b) && KeyLess(b, a))
    ensures KeyLess(a, b) && KeyLess(b, c) ==> KeyLess(a, c)
  {
    LexTotal(a, b);
    LexTotal(a, a);
    if LexLess(a, b) && LexLess(b, c) { LexTransitive(a, b, c); }
  }

  lemma {:induction false} InsertKeepsOrder(fs: seq<Field>, f: Field)
    requires KeysIncrease(fs)
    ensures var r := Insert(fs, f);
            && KeysIncrease(r)
            && forall i :: 0 <= i < |r| ==> r[i] == f || r[i] in fs
  {
    if fs == [] {
    } else {
      var r := Insert(fs, f);
      if KeyLess(f.key, fs[0].key) {
        forall j | 0 <= j < |fs| ensures KeyLess(f.key, fs[j].key) {
          if j > 0 { KeyOrder(f.key, fs[0].key, fs[j].key); }
        }
      } else if f.key != fs[0].key {
        KeyOrder(f.key, fs[0].key, f.key);
        assert KeysIncrease(fs[1..]);
        InsertKeepsOrder(fs[1..], f);
        var rest := Insert(fs[1..], f);
        forall j | 0 <= j < |rest| ensures KeyLess(fs[0].key, rest[j].key) {
          if rest[j] != f {
            var k :| 0 <= k < |fs[1..]| && fs[1..][k] == rest[j];
            assert rest[j] == fs[k + 1];
          }
        }
      }
    }
  }

  lemma {:induction false} InsertAtEnd(fs: seq<Field>, f: Field)
    requires forall i :: 0 <= i < |fs| ==> KeyLess(fs[i].key, f.key)
    ensures Insert(fs, f) == fs + [f]
  {
    if fs == [] {
    } else {
      KeyOrder(fs[0].key, f.key, fs[0].key);
      InsertAtEnd(fs[1..], f);
    }
  }

  /** What a JSONB column gives back is always in JSONB order. */
  lemma {:induction false} JsonbIsOrdered(j: Json)
    ensures InJsonbOrder(Jsonb(j))
    decreases j, 1
  {
    match j
    case JArr(items) => ItemsOrdered(items);
    case JObj(fields) => FieldsOrdered(fields);
    case _ =>
  }

  lemma {:induction false} ItemsOrdered(items: seq<Json>)
    ensures forall i :: 0 <= i < |JsonbItems(items)| ==> InJsonbOrder(JsonbItems(items)[i])
    decreases items, 0
  {
    if items == [] {
    } else {
      JsonbIsOrdered(items[0]);
      ItemsOrdered(items[1..]);
    }
  }

  lemma {:induction false} FieldsOrdered(fields: seq<Field>)
    ensures KeysIncrease(JsonbFields(fields))
    ensures forall i :: 0 <= i < |JsonbFields(fields)| ==> InJsonbOrder(JsonbFields(fields)[i].value)
    decreases fields, 0
  {
    if fields == [] {
    } else {
      var n := |fields| - 1;
      FieldsOrdered(fields[..n]);
      JsonbIsOrdered(fields[n].value);
      InsertKeepsOrder(JsonbFields(fields[..n]), Field(fields[n].key, Jsonb(fields[n].value)));
    }
  }

  /** A value already in JSONB order comes back unchanged. */
  lemma {:induction false} OrderedIsFixed(j: Json)
    requires InJsonbOrder(j)
    ensures Jsonb(j) == j
    decreases j, 1
  {
    match j
    case JArr(items) => ItemsFixed(items);
    case JObj(fields) => FieldsFixed(fields);
    case _ =>
  }

  lemma {:induction false} ItemsFixed(items: seq<Json>)
    requires forall i :: 0 <= i < |items| ==> InJsonbOrder(items[i])
    ensures JsonbItems(items) == items
    decreases items, 0
  {
    if items == [] {
    } else {
      OrderedIsFixed(items[0]);
      ItemsFixed(items[1..]);
    }
  }

  lemma {:induction false} FieldsFixed(fields: seq<Field>)
    requires KeysIncrease(fields)
    requires forall i :: 0 <= i < |fields| ==> InJsonbOrder(fields[i].value)
    ensures JsonbFields(fields) == fields
    decreases fields, 0
  {
    if fields == [] {
    } else {
      var n := |fields| - 1;
      FieldsFixed(fields[..n]);
      OrderedIsFixed(fields[n].value);
      InsertAtEnd(fields[..n], fields[n]);
    }
  }

  /** A JSONB column returns a value as it was written exactly when its keys were in JSONB order. */
  lemma JsonbFixedIff(j: Json)
    ensures Jsonb(j) == j <==> InJsonbOrder(j)
    ensures Jsonb(Jsonb(j)) == Jsonb(j)
  {
    JsonbIsOrdered(j);
    OrderedIsFixed(Jsonb(j));
    if InJsonbOrder(j) { OrderedIsFixed(j); }
  }
}
