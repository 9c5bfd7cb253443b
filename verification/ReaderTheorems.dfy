/** What the canonical printer writes is JSON text that means what was printed. */
module ReaderTheorems {
  import opened Results
  import opened JsonText
  import opened CanonicalJson
  import opened CanonicalTheorems
  import opened JsonReader

  // ---- strings ----

  lemma HexReads(d: int)
    requires 0 <= d < 16
    ensures HexOf(HexDigit(d)) == Some(d)
  {
  }

  lemma UnicodeReads(c: CodeUnit, x: Text)
    ensures ReadUnit(UnicodeEscape(c) + x) == Some(Reading(c, x))
  {
    HexReads(c / 4096);
    HexReads(c / 256 % 16);
    HexReads(c / 16 % 16);
    HexReads(c % 16);
    HexValue(c);
    assert (UnicodeEscape(c) + x)[6..] == x;
  }

  lemma UnitReads(c: CodeUnit, x: Text)
    ensures ReadUnit(EscapeUnit(c) + x) == Some(Reading(c, x)) && EscapeUnit(c)[0] != 34
  {
    if EscapeUnit(c) == UnicodeEscape(c) {
      UnicodeReads(c, x);
    } else {
      assert (EscapeUnit(c) + x)[|EscapeUnit(c)|..] == x;
    }
  }

  lemma RawReads(c: CodeUnit, x: Text)
    requires c >= 32 && c != 34 && c != 92
    ensures ReadUnit([c] + x) == Some(Reading(c, x))
  {
  }

  lemma OneMoreUnit(first: Text, c: CodeUnit, s: Text, rest: Text, x: Text)
    requires first != [] && first[0] != 34 && ReadUnit(first + rest) == Some(Reading(c, rest))
    requires ReadContents(rest) == Some(Reading(s, x))
    ensures ReadContents(first + rest) == Some(Reading([c] + s, x))
  {
    hide ReadUnit;
  }

  lemma PairText(s: Text, x: Text)
    requires StartsWithPair(s)
    ensures Escape(s) + [34] + x == [s[0]] + ([s[1]] + (Escape(s[2..]) + [34] + x))
  {
    PairChunk(s);
    hide Escape;
    assert Escape(s) + [34] + x == s[..2] + (Escape(s[2..]) + [34] + x);
  }

  lemma PairChunk(s: Text)
    requires StartsWithPair(s)
    ensures Escape(s) == s[..2] + Escape(s[2..])
  {
    hide EscapeUnit;
    assert ChunkText(s) == s[..2] && ChunkLength(s) == 2;
  }

  lemma UnitText(s: Text, x: Text)
    requires s != [] && !StartsWithPair(s)
    ensures Escape(s) + [34] + x == EscapeUnit(s[0]) + (Escape(s[1..]) + [34] + x)
  {
    hide EscapeUnit;
  }

  lemma EmptyContents(x: Text)
    ensures ReadContents(Escape([]) + [34] + x) == Some(Reading([], x))
  {
    assert (Escape([]) + [34] + x)[1..] == x;
  }

  /** An escaped string reads back as the string. */
  lemma {:induction false} ContentsRead(s: Text, x: Text)
    ensures ReadContents(Escape(s) + [34] + x) == Some(Reading(s, x))
    decreases |s|
  {
    hide EscapeUnit, ReadUnit, Escape, ReadContents;
    if s == [] {
      EmptyContents(x);
    } else if StartsWithPair(s) {
      var rest := Escape(s[2..]) + [34] + x;
      ContentsRead(s[2..], x);
      RawReads(s[1], rest);
      OneMoreUnit([s[1]], s[1], s[2..], rest, x);
      RawReads(s[0], [s[1]] + rest);
      OneMoreUnit([s[0]], s[0], [s[1]] + s[2..], [s[1]] + rest, x);
      PairText(s, x);
      assert s == [s[0]] + ([s[1]] + s[2..]);
    } else {
      var rest := Escape(s[1..]) + [34] + x;
      ContentsRead(s[1..], x);
      UnitReads(s[0], rest);
      OneMoreUnit(EscapeUnit(s[0]), s[0], s[1..], rest, x);
      UnitText(s, x);
      assert s == [s[0]] + s[1..];
    }
  }

  lemma StringReads(s: Text, x: Text)
    ensures PrintString(s) != [] && (PrintString(s) + x)[0] == 34
    ensures ReadContents((PrintString(s) + x)[1..]) == Some(Reading(s, x))
  {
    hide Escape, ReadContents;
    ContentsRead(s, x);
    assert (PrintString(s) + x)[1..] == Escape(s) + [34] + x;
  }

  // ---- numbers ----

  lemma {:induction false} DigitsCounted(p: Text, x: Text)
    requires (forall i :: 0 <= i < |p| ==> 48 <= p[i] <= 57) && EndsNumber(x)
    ensures DigitCount(p + x) == |p|
  {
    if p == [] {
      assert p + x == x;
    } else {
      assert (p + x)[1..] == p[1..] + x;
      DigitsCounted(p[1..], x);
    }
  }

  lemma {:induction false} PrintedDigits(n: nat)
    ensures DigitsValue(PrintNat(n)) == n && (n > 0 ==> PrintNat(n)[0] != 48)
    ensures n == 0 ==> PrintNat(n) == [48]
  {
    if n >= 10 {
      PrintedDigits(n / 10);
      assert PrintNat(n)[..|PrintNat(n)| - 1] == PrintNat(n / 10);
    } else {
      assert PrintNat(n)[..0] == [];
    }
  }

  lemma NaturalReads(n: nat, x: Text)
    requires EndsNumber(x)
    ensures ReadNatural(PrintNat(n) + x) == Some(Reading<int>.Reading(n, x))
  {
    hide PrintNat, DigitsValue, DigitCount;
    PrintNatDigits(n);
    PrintedDigits(n);
    DigitsCounted(PrintNat(n), x);
    var t := PrintNat(n) + x;
    assert t[..|PrintNat(n)|] == PrintNat(n) && t[|PrintNat(n)|..] == x;
  }

  lemma IntegerReads(n: int, x: Text)
    requires EndsNumber(x)
    ensures ReadInteger(PrintInt(n) + x) == Some(Reading<int>.Reading(n, x))
    ensures PrintInt(n) != [] && (PrintInt(n)[0] == 45 || 48 <= PrintInt(n)[0] <= 57)
  {
    hide PrintNat, ReadNatural;
    SignReadable(n, x);
    if n < 0 {
      NaturalReads(-n, x);
    } else {
      NaturalReads(n, x);
      assert (PrintInt(n) + x)[0] == PrintInt(n)[0];
    }
  }

  // ---- values ----

  /** A well-formed value of the same canonical meaning. */
  ghost predicate Means(v: Json, w: Json) {
    WellFormed(w) && Equiv(v, w)
  }

  /** A value that reads back, in meaning, with what follows it. */
  ghost predicate ReadsAs(r: Option<Reading<Json>>, v: Json, x: Text) {
    r.Some? && Means(v, r.value.value) && r.value.rest == x
  }

  lemma HeadsDiffer(v: Json, x: Text)
    requires EndsNumber(x)
    ensures Print(v) != [] && (Print(v) + x)[0] !in {32, 9, 10, 13, 44, 58, 93, 125}
  {
    hide Print;
    PrintHead(v, x);
  }

  lemma WordReads(v: Json, x: Text)
    requires v.Undefined? || v.Null? || v.Bool?
    ensures ReadsAs(ReadValue(Print(v) + x), v, x)
  {
    var t := Print(v) + x;
    assert t[..|Print(v)|] == Print(v) && t[|Print(v)|..] == x;
    assert Print(v)[0] == t[0];
  }

  lemma NumReads(v: Json, x: Text)
    requires v.Num? && EndsNumber(x)
    ensures ReadsAs(ReadValue(Print(v) + x), v, x)
  {
    hide PrintInt, ReadInteger;
    IntegerReads(v.n, x);
    assert (Print(v) + x)[0] == PrintInt(v.n)[0];
  }

  lemma StrReads(v: Json, x: Text)
    requires v.Str?
    ensures ReadsAs(ReadValue(Print(v) + x), v, x)
  {
    hide PrintString, ReadContents;
    StringReads(v.s, x);
  }

  /** What follows an element, as the reader meets it. */
  lemma ContinueExpects(more: bool, rest: Text, close: CodeUnit, x: Text)
    requires close == 93 || close == 125
    ensures var t := Continue(more, rest, close, x);
            && Expect(t, close) == (if more then None else Some(x))
            && (more ==> Expect(t, 44) == Some(rest + [close] + x))
  {
    var t := Continue(more, rest, close, x);
    assert t[1..] == (if more then rest + [close] + x else x);
  }

  /** A printed value reads back as an equivalent one, whatever follows it. */
  lemma {:induction false} ValueReads(v: Json, x: Text)
    requires WellFormed(v) && EndsNumber(x)
    ensures ReadsAs(ReadValue(Print(v) + x), v, x)
    decreases v, 1
  {
    hide Print, Means, WellFormed, ReadValue;
    match v
    case Num(_) => NumReads(v, x);
    case Str(_) => StrReads(v, x);
    case Arr(_) => ArrayReads(v, x);
    case Obj(_) => ObjectReads(v, x);
    case _ => WordReads(v, x);
  }

  ghost predicate ItemsReadAs(r: Option<Reading<seq<Json>>>, xs: seq<Json>, x: Text) {
    && r.Some? && r.value.rest == x && |r.value.value| == |xs|
    && forall i :: 0 <= i < |xs| ==> Means(xs[i], r.value.value[i])
  }

  lemma {:induction false} ItemsRead(xs: seq<Json>, x: Text)
    requires xs != [] && forall i :: 0 <= i < |xs| ==> WellFormed(xs[i])
    ensures ItemsReadAs(ReadItems(PrintItems(xs) + [93] + x), xs, x)
    decreases xs, 0
  {
    hide Print, PrintItems, Continue, WellFormed, Means, ReadValue, Expect;
    ItemsUnfold(xs, x);
    ValueReads(xs[0], AfterItem(xs, x));
    ContinueExpects(|xs| > 1, PrintItems(xs[1..]), 93, x);
    if |xs| > 1 {
      ItemsRead(xs[1..], x);
    }
  }

  lemma ArrayText(v: Json, x: Text)
    requires v.Arr?
    ensures var t := Print(v) + x; t != [] && t[0] == 91 && t[1..] == PrintItems(v.items) + [93] + x
  {
    hide PrintItems;
  }

  lemma BracketOpens(t: Text)
    requires t != [] && t[0] == 91
    ensures ReadValue(t) == match Expect(t[1..], 93)
                            case Some(rest) => Some(Reading(Arr([]), rest))
                            case None =>
                              match ReadItems(t[1..])
                              case None => None
                              case Some(items) => Some(Reading(Arr(items.value), items.rest))
  {
    hide ReadItems, Expect, ReadMembers, ReadInteger, ReadContents;
  }

  lemma {:induction false} ArrayReads(v: Json, x: Text)
    requires v.Arr? && WellFormed(v)
    ensures ReadsAs(ReadValue(Print(v) + x), v, x)
    decreases v, 0
  {
    hide Print, PrintItems, ReadItems, ReadValue, Trim;
    var t := Print(v) + x;
    ArrayText(v, x);
    BracketOpens(t);
    if v.items == [] {
      ItemsHead(v.items, x);
      assert t[1..] == [93] + x by { ItemsNone(x); }
      assert ([93] + x)[1..] == x;
    } else {
      ItemsRead(v.items, x);
      ItemsUnfold(v.items, x);
      HeadsDiffer(v.items[0], AfterItem(v.items, x));
    }
  }

  lemma ItemsNone(x: Text)
    ensures PrintItems([]) + [93] + x == [93] + x
  {
  }

  ghost predicate FieldsReadAs(r: Option<Reading<seq<Field>>>, fs: seq<Field>, ks: seq<Text>, x: Text)
    requires forall k :: k in ks ==> Has(fs, k)
  {
    && r.Some? && r.value.rest == x && |r.value.value| == |ks|
    && forall i :: 0 <= i < |ks| ==>
         && r.value.value[i].key == ks[i] && !r.value.value[i].value.Undefined?
         && Means(ValueOf(fs, ks[i]), r.value.value[i].value)
  }

  lemma {:induction false} MemberReads(fs: seq<Field>, k: Text, x: Text)
    requires Has(fs, k) && (forall i :: 0 <= i < |fs| ==> WellFormed(fs[i].value)) && EndsNumber(x)
    ensures var r := ReadMember(PrintString(k) + ([58] + Print(ValueOf(fs, k)) + x));
            && r.Some? && r.value.rest == x && r.value.value.key == k
            && Means(ValueOf(fs, k), r.value.value.value)
    decreases fs, 0, 0
  {
    hide Print, PrintString, WellFormed, Means, ReadValue, ReadContents, Has;
    var v := Print(ValueOf(fs, k));
    StringReads(k, [58] + v + x);
    assert ([58] + v + x)[1..] == v + x;
    ValueReads(ValueOf(fs, k), x);
  }

  lemma {:induction false} FieldsRead(fs: seq<Field>, ks: seq<Text>, x: Text)
    requires ks != [] && (forall k :: k in ks ==> Has(fs, k))
    requires forall i :: 0 <= i < |fs| ==> WellFormed(fs[i].value)
    ensures FieldsReadAs(ReadMembers(PrintFields(fs, ks) + [125] + x), fs, ks, x)
    decreases fs, 0, |ks|
  {
    hide Print, PrintString, PrintFields, Continue, WellFormed, Means, ReadMember, Expect, Has, IndexOf;
    FieldsUnfold(fs, ks, x);
    MemberReads(fs, ks[0], AfterField(fs, ks, x));
    ContinueExpects(|ks| > 1, PrintFields(fs, ks[1..]), 125, x);
    if |ks| > 1 {
      FieldsRead(fs, ks[1..], x);
    }
  }

  /** Fields read under an object's defined keys make up an object of the same meaning. */
  lemma FieldsMakeObject(fs: seq<Field>, ks: seq<Text>, gs: seq<Field>)
    requires forall i, j :: 0 <= i < j < |fs| ==> fs[i].key != fs[j].key
    requires Distinct(ks) && forall k :: k in ks <==> Has(fs, k)
    requires |gs| == |ks|
    requires forall i :: 0 <= i < |ks| ==>
               gs[i].key == ks[i] && !gs[i].value.Undefined? && Means(ValueOf(fs, ks[i]), gs[i].value)
    ensures Means(Obj(fs), Obj(gs))
  {
    hide IndexOf;
    forall k ensures Has(fs, k) <==> Has(gs, k) {
      if k in ks {
        var i :| 0 <= i < |ks| && ks[i] == k;
        assert gs[i].key == k;
      }
    }
    forall i, j | 0 <= i < |fs| && 0 <= j < |gs| && fs[i].key == gs[j].key
                  && !fs[i].value.Undefined? && !gs[j].value.Undefined?
      ensures Equiv(fs[i].value, gs[j].value)
    {
      IndexOfUnique(fs, i);
    }
  }

  lemma KeysSorted(fs: seq<Field>)
    requires forall i, j :: 0 <= i < j < |fs| ==> fs[i].key != fs[j].key
    ensures Distinct(SortKeys(DefinedKeys(fs)))
  {
    hide SortKeys, DefinedKeys;
    DefinedKeysDistinct(fs);
    SortKeysSorts(DefinedKeys(fs));
    IncreasingIsDistinct(SortKeys(DefinedKeys(fs)));
  }

  lemma IncreasingIsDistinct(keys: seq<Text>)
    requires Increasing(keys)
    ensures Distinct(keys)
  {
    forall i, j | 0 <= i < j < |keys| ensures keys[i] != keys[j] {
      LessTrichotomy(keys[i], keys[j]);
    }
  }

  lemma {:induction false} NoneUnnamed(fs: seq<Field>, key: Text)
    requires forall i :: 0 <= i < |fs| ==> fs[i].key != key
    ensures Unnamed(fs, key) == fs
  {
    if fs != [] {
      NoneUnnamed(fs[..|fs| - 1], key);
    }
  }

  lemma {:induction false} AllLastNamed(fs: seq<Field>)
    requires forall i, j :: 0 <= i < j < |fs| ==> fs[i].key != fs[j].key
    ensures LastNamed(fs) == fs
  {
    hide Unnamed;
    if fs != [] {
      var front, last := fs[..|fs| - 1], fs[|fs| - 1];
      NoneUnnamed(front, last.key);
      AllLastNamed(front);
      assert fs == front + [last];
    }
  }

  lemma BraceOpens(t: Text)
    requires t != [] && t[0] == 123
    ensures ReadValue(t) == match Expect(t[1..], 125)
                            case Some(rest) => Some(Reading(Obj([]), rest))
                            case None =>
                              match ReadMembers(t[1..])
                              case None => None
                              case Some(fields) => Some(Reading(Obj(LastNamed(fields.value)), fields.rest))
  {
    hide ReadItems, Expect, ReadMembers, ReadInteger, ReadContents, LastNamed;
  }

  lemma ObjectHead(v: Json, x: Text)
    requires v.Obj?
    ensures Print(v) + x != [] && (Print(v) + x)[0] == 123
  {
    hide PrintFields, SortKeys, DefinedKeys, Has;
  }

  lemma FieldsNone(fs: seq<Field>, x: Text)
    ensures PrintFields(fs, []) + [125] + x == [125] + x
  {
  }

  lemma {:induction false} ObjectReads(v: Json, x: Text)
    requires v.Obj? && WellFormed(v)
    ensures ReadsAs(ReadValue(Print(v) + x), v, x)
    decreases v, 0
  {
    hide Means, Has, SortKeys, DefinedKeys, Print, PrintString, PrintFields, ReadMembers, ReadValue, IndexOf, Trim,
      Expect, ReadContents, LastNamed;
    var fs := v.fields;
    var ks := SortKeys(DefinedKeys(fs));
    var t := Print(v) + x;
    ObjectUnfold(fs, x);
    KeysSorted(fs);
    ObjectHead(v, x);
    BraceOpens(t);
    if ks == [] {
      FieldsNone(fs, x);
      ClosesAtOnce(x);
      FieldsMakeObject(fs, ks, []);
    } else {
      FieldsRead(fs, ks, x);
      FieldsUnfold(fs, ks, x);
      OpensWithKey(ks[0], [58] + Print(ValueOf(fs, ks[0])) + AfterField(fs, ks, x));
      AllLastNamed(ReadMembers(t[1..]).value.value);
      FieldsMakeObject(fs, ks, ReadMembers(t[1..]).value.value);
    }
  }

  lemma ClosesAtOnce(x: Text)
    ensures Expect([125] + x, 125) == Some(x)
  {
  }

  lemma OpensWithKey(key: Text, rest: Text)
    ensures Expect(PrintString(key) + rest, 125).None?
  {
    StringReads(key, rest);
    hide PrintString;
  }

  /** The canonical text of a value is JSON text, and reads as a value of the same meaning, which
      prints to the same text. */
  lemma PrintParses(v: Json)
    requires WellFormed(v)
    ensures Parse(Print(v)).Some? && WellFormed(Parse(Print(v)).value) && Equiv(v, Parse(Print(v)).value)
    ensures Print(Parse(Print(v)).value) == Print(v)
  {
    hide Print, Equiv, WellFormed, ReadValue;
    ValueReads(v, []);
    assert Print(v) + [] == Print(v);
    PrintsAlikeIffEquivalent(v, Parse(Print(v)).value);
  }
}
