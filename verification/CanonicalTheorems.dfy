/** Faithfulness of the canonical printer. */
module CanonicalTheorems {
  import opened JsonText
  import opened CanonicalJson

  /** Which constructor a printed value announces by its first code unit; null and undefined
      print alike. */
  function Kind(v: Json): nat {
    match v
    case Undefined => 0
    case Null => 0
    case Bool(b) => if b then 1 else 2
    case Num(_) => 3
    case Str(_) => 4
    case Arr(_) => 5
    case Obj(_) => 6
  }

  function KindOfHead(c: CodeUnit): nat {
    if c == 110 then 0
    else if c == 116 then 1
    else if c == 102 then 2
    else if c == QUOTE then 4
    else if c == LEFT_BRACKET then 5
    else if c == LEFT_BRACE then 6
    else if c == MINUS || IsDigit(c) then 3
    else 7
  }

  lemma PrintHead(v: Json, x: Text)
    ensures Print(v) != [] && (Print(v) + x)[0] == Print(v)[0] && KindOfHead(Print(v)[0]) == Kind(v)
  {
    if v.Num? {
      SignReadable(v.n, []);
    }
  }

  /** What follows an element of a list: a comma and the rest of the list, or its end. */
  function Continue(more: bool, rest: Text, close: CodeUnit, x: Text): (t: Text)
    requires close == RIGHT_BRACKET || close == RIGHT_BRACE
    ensures EndsNumber(t)
  {
    if more then [COMMA] + (rest + [close] + x) else [close] + x
  }

  lemma ContinueReadable(more: bool, rest: Text, more': bool, rest': Text, close: CodeUnit, x: Text, y: Text)
    requires close == RIGHT_BRACKET || close == RIGHT_BRACE
    requires Continue(more, rest, close, x) == Continue(more', rest', close, y)
    ensures more == more'
    ensures if more then rest + [close] + x == rest' + [close] + y else x == y
  {
    var s, t := Continue(more, rest, close, x), Continue(more', rest', close, y);
    assert s[0] == t[0];
    assert s[1..] == (if more then rest + [close] + x else x);
    assert t[1..] == (if more' then rest' + [close] + y else y);
  }

  function AfterItem(items: seq<Json>, x: Text): (t: Text)
    requires items != []
    ensures EndsNumber(t)
  {
    Continue(|items| > 1, PrintItems(items[1..]), RIGHT_BRACKET, x)
  }

  lemma Reassociate(a: Text, b: Text, c: Text, x: Text)
    ensures (a + [COMMA] + b) + c + x == a + ([COMMA] + (b + c + x))
  {
  }

  lemma ItemsUnfold(items: seq<Json>, x: Text)
    requires items != []
    ensures PrintItems(items) + [RIGHT_BRACKET] + x == Print(items[0]) + AfterItem(items, x)
  {
    hide Print;
    if |items| == 1 {
      assert PrintItems(items) + [RIGHT_BRACKET] + x == Print(items[0]) + ([RIGHT_BRACKET] + x);
    } else {
      Reassociate(Print(items[0]), PrintItems(items[1..]), [RIGHT_BRACKET], x);
    }
  }

  lemma ItemsHead(items: seq<Json>, x: Text)
    ensures (PrintItems(items) + [RIGHT_BRACKET] + x)[0] == RIGHT_BRACKET <==> items == []
    ensures items == [] ==> (PrintItems(items) + [RIGHT_BRACKET] + x)[1..] == x
  {
    if items != [] {
      ItemsUnfold(items, x);
      PrintHead(items[0], AfterItem(items, x));
    }
  }

  function AfterField(fields: seq<Field>, keys: seq<Text>, x: Text): (t: Text)
    requires keys != [] && forall k :: k in keys ==> Has(fields, k)
    ensures EndsNumber(t)
  {
    Continue(|keys| > 1, PrintFields(fields, keys[1..]), RIGHT_BRACE, x)
  }

  /** The value an object holds under a key. */
  function ValueOf(fields: seq<Field>, key: Text): Json
    requires Has(fields, key)
  {
    fields[IndexOf(fields, key)].value
  }

  lemma AppendTwo(a: Text, b: Text, c: Text)
    ensures (a + b) + c == a + (b + c)
  {
  }

  lemma FieldThen(key: Text, value: Text, after: Text)
    ensures (key + [COLON] + value) + after == key + ([COLON] + value + after)
  {
  }

  lemma FieldsUnfold(fields: seq<Field>, keys: seq<Text>, x: Text)
    requires keys != [] && forall k :: k in keys ==> Has(fields, k)
    ensures PrintFields(fields, keys) + [RIGHT_BRACE] + x
         == PrintString(keys[0]) + ([COLON] + Print(ValueOf(fields, keys[0])) + AfterField(fields, keys, x))
  {
    hide Print, PrintString, IndexOf, Has;
    var field := PrintField(fields, keys[0]);
    if |keys| == 1 {
      AppendTwo(field, [RIGHT_BRACE], x);
    } else {
      Reassociate(field, PrintFields(fields, keys[1..]), [RIGHT_BRACE], x);
    }
    FieldThen(PrintString(keys[0]), Print(ValueOf(fields, keys[0])), AfterField(fields, keys, x));
  }

  lemma FieldsHead(fields: seq<Field>, keys: seq<Text>, x: Text)
    requires forall k :: k in keys ==> Has(fields, k)
    ensures (PrintFields(fields, keys) + [RIGHT_BRACE] + x)[0] == RIGHT_BRACE <==> keys == []
    ensures keys == [] ==> (PrintFields(fields, keys) + [RIGHT_BRACE] + x)[1..] == x
  {
  }

  /** In a well-formed object the index of a defined field is found again. */
  lemma {:induction false} IndexOfUnique(fields: seq<Field>, i: nat)
    requires forall p, q :: 0 <= p < q < |fields| ==> fields[p].key != fields[q].key
    requires i < |fields| && !fields[i].value.Undefined?
    ensures Has(fields, fields[i].key) && IndexOf(fields, fields[i].key) == i
  {
  }

  /** A printed value can be read off any continuation, up to equivalence. */
  lemma {:induction false} PrintReadable(a: Json, b: Json, x: Text, y: Text)
    requires WellFormed(a) && WellFormed(b) && EndsNumber(x) && EndsNumber(y)
    requires Print(a) + x == Print(b) + y
    ensures Equiv(a, b) && x == y
    decreases a, 1
  {
    hide PrintInt, PrintString, PrintItems, PrintFields, SortKeys, DefinedKeys;
    var whole := Print(a) + x;
    PrintHead(a, x);
    PrintHead(b, y);
    match a
    case Undefined => assert x == whole[4..] == y;
    case Null => assert x == whole[4..] == y;
    case Bool(p) => assert x == whole[|Print(a)|..] == y;
    case Num(m) => IntReadable(m, b.n, x, y);
    case Str(s) => StringReadable(s, b.s, x, y);
    case Arr(xs) =>
      assert whole[1..] == PrintItems(xs) + [RIGHT_BRACKET] + x;
      assert whole[1..] == PrintItems(b.items) + [RIGHT_BRACKET] + y;
      ItemsReadable(xs, b.items, x, y);
    case Obj(fs) => ObjectReadable(a, b, x, y);
  }

  lemma {:induction false} ItemsReadable(xs: seq<Json>, ys: seq<Json>, x: Text, y: Text)
    requires (forall i :: 0 <= i < |xs| ==> WellFormed(xs[i])) && (forall i :: 0 <= i < |ys| ==> WellFormed(ys[i]))
    requires PrintItems(xs) + [RIGHT_BRACKET] + x == PrintItems(ys) + [RIGHT_BRACKET] + y
    ensures |xs| == |ys| && (forall i :: 0 <= i < |xs| ==> Equiv(xs[i], ys[i])) && x == y
    decreases xs, 0
  {
    hide Print, PrintItems, Continue, WellFormed, Equiv;
    var whole := PrintItems(xs) + [RIGHT_BRACKET] + x;
    ItemsHead(xs, x);
    ItemsHead(ys, y);
    if xs == [] {
      assert x == whole[1..] == y;
    } else {
      ItemsUnfold(xs, x);
      ItemsUnfold(ys, y);
      PrintReadable(xs[0], ys[0], AfterItem(xs, x), AfterItem(ys, y));
      ContinueReadable(|xs| > 1, PrintItems(xs[1..]), |ys| > 1, PrintItems(ys[1..]), RIGHT_BRACKET, x, y);
      if |xs| > 1 {
        ItemsReadable(xs[1..], ys[1..], x, y);
      }
      assert forall i :: 1 <= i < |xs| ==> xs[i] == xs[1..][i - 1] && ys[i] == ys[1..][i - 1];
    }
  }

  lemma KeyReadable(k: Text, l: Text, v: Text, w: Text, s: Text, t: Text)
    requires PrintString(k) + ([COLON] + v + s) == PrintString(l) + ([COLON] + w + t)
    ensures k == l && v + s == w + t
  {
    StringReadable(k, l, [COLON] + v + s, [COLON] + w + t);
    assert ([COLON] + v + s)[1..] == v + s;
    assert ([COLON] + w + t)[1..] == w + t;
  }

  lemma {:induction false} FieldsReadable(
      fs: seq<Field>, ks: seq<Text>, gs: seq<Field>, ls: seq<Text>, x: Text, y: Text)
    requires (forall k :: k in ks ==> Has(fs, k)) && (forall k :: k in ls ==> Has(gs, k))
    requires (forall i :: 0 <= i < |fs| ==> WellFormed(fs[i].value))
    requires (forall i :: 0 <= i < |gs| ==> WellFormed(gs[i].value))
    requires PrintFields(fs, ks) + [RIGHT_BRACE] + x == PrintFields(gs, ls) + [RIGHT_BRACE] + y
    ensures ks == ls && x == y
    ensures forall k :: k in ks ==> Equiv(ValueOf(fs, k), ValueOf(gs, k))
    decreases fs, 0, |ks|
  {
    hide Print, PrintFields, IndexOf, Continue, Has, WellFormed, Equiv;
    var whole := PrintFields(fs, ks) + [RIGHT_BRACE] + x;
    FieldsHead(fs, ks, x);
    FieldsHead(gs, ls, y);
    if ks == [] {
      assert x == whole[1..] == y;
    } else {
      FieldsUnfold(fs, ks, x);
      FieldsUnfold(gs, ls, y);
      var v, w := ValueOf(fs, ks[0]), ValueOf(gs, ls[0]);
      KeyReadable(ks[0], ls[0], Print(v), Print(w), AfterField(fs, ks, x), AfterField(gs, ls, y));
      PrintReadable(v, w, AfterField(fs, ks, x), AfterField(gs, ls, y));
      ContinueReadable(|ks| > 1, PrintFields(fs, ks[1..]), |ls| > 1, PrintFields(gs, ls[1..]), RIGHT_BRACE, x, y);
      if |ks| > 1 {
        FieldsReadable(fs, ks[1..], gs, ls[1..], x, y);
      }
      assert ks == [ks[0]] + ks[1..] && ls == [ls[0]] + ls[1..];
    }
  }

  lemma ObjectUnfold(fields: seq<Field>, x: Text)
    ensures forall k :: k in SortKeys(DefinedKeys(fields)) <==> Has(fields, k)
    ensures (Print(Obj(fields)) + x)[1..] == PrintFields(fields, SortKeys(DefinedKeys(fields))) + [RIGHT_BRACE] + x
  {
    hide SortKeys, DefinedKeys, Has;
    forall k ensures k in SortKeys(DefinedKeys(fields)) <==> Has(fields, k) {
      SortedKeysAreHeld(fields, k);
    }
  }

  lemma {:induction false} ObjectReadable(a: Json, b: Json, x: Text, y: Text)
    requires a.Obj? && b.Obj? && WellFormed(a) && WellFormed(b)
    requires Print(a) + x == Print(b) + y
    ensures Equiv(a, b) && x == y
    decreases a, 0
  {
    hide Print, PrintFields, SortKeys, DefinedKeys, Has, IndexOf;
    var fs, gs := a.fields, b.fields;
    var ks, ls := SortKeys(DefinedKeys(fs)), SortKeys(DefinedKeys(gs));
    ObjectUnfold(fs, x);
    ObjectUnfold(gs, y);
    FieldsReadable(fs, ks, gs, ls, x, y);
    forall i, j | 0 <= i < |fs| && 0 <= j < |gs| && fs[i].key == gs[j].key
                  && !fs[i].value.Undefined? && !gs[j].value.Undefined?
      ensures Equiv(fs[i].value, gs[j].value)
    {
      IndexOfUnique(fs, i);
      IndexOfUnique(gs, j);
    }
  }

  // ---- the converse ----

  lemma {:induction false} DefinedKeysDistinct(fields: seq<Field>)
    requires forall i, j :: 0 <= i < j < |fields| ==> fields[i].key != fields[j].key
    ensures Distinct(DefinedKeys(fields))
  {
    if fields != [] {
      DefinedKeysDistinct(fields[1..]);
      DefinedKeysAreHeld(fields[1..], fields[0].key);
    }
  }

  /** Equivalent values print alike. */
  lemma {:induction false} EquivPrints(a: Json, b: Json)
    requires WellFormed(a) && WellFormed(b) && Equiv(a, b)
    ensures Print(a) == Print(b)
    decreases a, 1
  {
    match a
    case Arr(xs) => EquivItemsPrint(xs, b.items);
    case Obj(fs) =>
      var gs := b.fields;
      var ks, ls := SortKeys(DefinedKeys(fs)), SortKeys(DefinedKeys(gs));
      forall k ensures (k in ks <==> Has(fs, k)) && (k in ls <==> Has(gs, k)) {
        SortedKeysAreHeld(fs, k);
        SortedKeysAreHeld(gs, k);
      }
      DefinedKeysDistinct(fs);
      DefinedKeysDistinct(gs);
      SortKeysSorts(DefinedKeys(fs));
      SortKeysSorts(DefinedKeys(gs));
      IncreasingUnique(ks, ls);
      EquivFieldsPrint(fs, gs, ks);
    case _ =>
  }

  lemma {:induction false} EquivItemsPrint(xs: seq<Json>, ys: seq<Json>)
    requires |xs| == |ys|
    requires forall i :: 0 <= i < |xs| ==> WellFormed(xs[i]) && WellFormed(ys[i]) && Equiv(xs[i], ys[i])
    ensures PrintItems(xs) == PrintItems(ys)
    decreases xs, 0
  {
    if xs != [] {
      EquivPrints(xs[0], ys[0]);
      EquivItemsPrint(xs[1..], ys[1..]);
    }
  }

  lemma {:induction false} EquivFieldsPrint(fs: seq<Field>, gs: seq<Field>, keys: seq<Text>)
    requires forall k :: k in keys ==> Has(fs, k) && Has(gs, k)
    requires forall i :: 0 <= i < |fs| ==> WellFormed(fs[i].value)
    requires forall i :: 0 <= i < |gs| ==> WellFormed(gs[i].value)
    requires forall i, j :: 0 <= i < |fs| && 0 <= j < |gs| && fs[i].key == gs[j].key
                            && !fs[i].value.Undefined? && !gs[j].value.Undefined? ==>
               Equiv(fs[i].value, gs[j].value)
    ensures PrintFields(fs, keys) == PrintFields(gs, keys)
    decreases fs, 0, |keys|
  {
    if keys != [] {
      EquivPrints(ValueOf(fs, keys[0]), ValueOf(gs, keys[0]));
      EquivFieldsPrint(fs, gs, keys[1..]);
    }
  }

  /** Canonical JSON is a faithful printer. */
  lemma PrintsAlikeIffEquivalent(a: Json, b: Json)
    requires WellFormed(a) && WellFormed(b)
    ensures Print(a) == Print(b) <==> Equiv(a, b)
  {
    if Equiv(a, b) {
      EquivPrints(a, b);
    }
    if Print(a) == Print(b) {
      assert Print(a) + [] == Print(b) + [];
      PrintReadable(a, b, [], []);
    }
  }
}
