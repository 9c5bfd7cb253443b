/** What a text is read as does not depend on what follows it: a reading stays the same when the text
    is continued, unless it ends in a number that could go on. */
module ReaderExtension {
  import opened Results
  import opened JsonText
  import opened CanonicalJson
  import opened JsonReader
  import opened ReaderTheorems

  lemma {:induction false} TrimExtends(t: Text, x: Text)
    ensures Trim(t) != [] ==> Trim(t + x) == Trim(t) + x
    ensures Trim(t) == [] ==> Trim(t + x) == Trim(x)
  {
    if t == [] {
      assert t + x == x;
    } else {
      assert (t + x)[1..] == t[1..] + x;
      TrimExtends(t[1..], x);
    }
  }

  lemma ExpectExtends(t: Text, unit: CodeUnit, x: Text)
    ensures Expect(t, unit).Some? ==> Expect(t + x, unit) == Some(Expect(t, unit).value + x)
    ensures Trim(t) != [] && Expect(t, unit).None? ==> Expect(t + x, unit).None?
  {
    TrimExtends(t, x);
    if Trim(t) != [] {
      assert (Trim(t) + x)[1..] == Trim(t)[1..] + x;
    }
  }

  lemma UnitExtends(t: Text, x: Text)
    requires ReadUnit(t).Some?
    ensures ReadUnit(t + x) == Some(Reading(ReadUnit(t).value.value, ReadUnit(t).value.rest + x))
  {
    hide FourHex, ShortEscape;
    assert (t + x)[1..] == t[1..] + x;
    assert |t| >= 2 ==> (t + x)[2..] == t[2..] + x;
    assert |t| >= 6 ==> (t + x)[6..] == t[6..] + x;
  }

  lemma {:induction false} ContentsExtend(t: Text, x: Text)
    requires ReadContents(t).Some?
    ensures ReadContents(t + x) == Some(Reading(ReadContents(t).value.value, ReadContents(t).value.rest + x))
    decreases |t|
  {
    hide ReadUnit;
    assert (t + x)[1..] == t[1..] + x;
    if t[0] != 34 {
      UnitExtends(t, x);
      ContentsExtend(ReadUnit(t).value.rest, x);
    }
  }

  lemma {:induction false} DigitsExtend(t: Text, x: Text)
    requires DigitCount(t) < |t|
    ensures DigitCount(t + x) == DigitCount(t)
  {
    if DigitCount(t) > 0 {
      assert (t + x)[1..] == t[1..] + x;
      DigitsExtend(t[1..], x);
    }
  }

  lemma NaturalExtends(t: Text, x: Text)
    requires ReadNatural(t).Some? && ReadNatural(t).value.rest != []
    ensures ReadNatural(t + x) == Some(Reading(ReadNatural(t).value.value, ReadNatural(t).value.rest + x))
  {
    var n := DigitCount(t);
    assert (t + x)[1..] == t[1..] + x;
    if t[0] != 48 {
      DigitsExtend(t, x);
      assert (t + x)[..n] == t[..n] && (t + x)[n..] == t[n..] + x;
    } else {
      assert DigitCount(t + x) > 0;
    }
  }

  lemma IntegerExtends(t: Text, x: Text)
    requires ReadInteger(t).Some? && ReadInteger(t).value.rest != []
    ensures ReadInteger(t + x) == Some(Reading(ReadInteger(t).value.value, ReadInteger(t).value.rest + x))
  {
    hide ReadNatural;
    assert t != [] ==> (t + x)[1..] == t[1..] + x;
    if t != [] && t[0] == 45 {
      NaturalExtends(t[1..], x);
    } else {
      NaturalExtends(t, x);
    }
  }

  /** A reading whose text may be continued. */
  predicate Closed(r: Option<Reading<Json>>) {
    r.Some? && (r.value.value.Num? ==> r.value.rest != [])
  }

  function Extended<T>(r: Option<Reading<T>>, x: Text): Option<Reading<T>> {
    match r
    case None => None
    case Some(reading) => Some(Reading(reading.value, reading.rest + x))
  }

  lemma {:induction false} ValueExtends(t: Text, x: Text)
    requires Closed(ReadValue(t))
    ensures ReadValue(t + x) == Extended(ReadValue(t), x)
    decreases |t|, 0
  {
    hide ReadValue, Trim, Expect, ReadItems, ReadMembers;
    var u := Trim(t);
    BlankIsNone(t);
    TrimExtends(t, x);
    TrimmedReadsAlike(t);
    TrimmedReadsAlike(t + x);
    TrimIsTrimmed(t);
    if u[0] == 91 {
      BracketOpens(u);
      if Expect(u[1..], 93).None? {
        ItemsExtend(u[1..], x);
      }
      ArrayExtends(u, x);
    } else if u[0] == 123 {
      BraceOpens(u);
      if Expect(u[1..], 125).None? {
        MembersExtend(u[1..], x);
      }
      ObjectExtends(u, x);
    } else {
      ScalarExtends(u, x);
    }
  }

  lemma ArrayExtends(u: Text, x: Text)
    requires u != [] && u[0] == 91 && ReadValue(u).Some?
    requires Expect(u[1..], 93).None? ==> ReadItems(u[1..] + x) == Extended(ReadItems(u[1..]), x)
    ensures ReadValue(u + x) == Extended(ReadValue(u), x)
  {
    hide ReadValue, Expect, ReadItems;
    BracketOpens(u);
    BracketOpens(u + x);
    assert (u + x)[1..] == u[1..] + x;
    ListExtends(u[1..], 93, x);
  }

  lemma ObjectExtends(u: Text, x: Text)
    requires u != [] && u[0] == 123 && ReadValue(u).Some?
    requires Expect(u[1..], 125).None? ==> ReadMembers(u[1..] + x) == Extended(ReadMembers(u[1..]), x)
    ensures ReadValue(u + x) == Extended(ReadValue(u), x)
  {
    hide ReadValue, Expect, ReadMembers, LastNamed;
    BraceOpens(u);
    BraceOpens(u + x);
    assert (u + x)[1..] == u[1..] + x;
    ListExtends(u[1..], 125, x);
  }

  lemma BlankIsNone(t: Text)
    ensures ReadValue(t).Some? ==> Trim(t) != []
  {
  }

  lemma {:induction false} TrimIsTrimmed(t: Text)
    ensures Trim(Trim(t)) == Trim(t) && (Trim(t) != [] ==> Trim(t)[0] !in {32, 9, 10, 13})
  {
    if t != [] && t[0] in {32, 9, 10, 13} {
      TrimIsTrimmed(t[1..]);
    }
  }

  lemma TrimmedReadsAlike(t: Text)
    ensures ReadValue(Trim(t)) == ReadValue(t)
  {
    hide ReadItems, ReadMembers, ReadInteger, ReadContents, Expect;
    TrimIsTrimmed(t);
  }

  /** A value that is neither array nor object. */
  lemma ScalarExtends(u: Text, x: Text)
    requires Closed(ReadValue(u)) && Trim(u) == u && u[0] !in {32, 9, 10, 13, 91, 123}
    ensures ReadValue(u + x) == Extended(ReadValue(u), x)
  {
    hide ReadItems, ReadMembers, ReadInteger, ReadContents, Expect;
    assert (u + x)[0] == u[0] && (u + x)[1..] == u[1..] + x;
    if u[0] == 34 {
      ContentsExtend(u[1..], x);
    } else if u[0] == 110 || u[0] == 116 || u[0] == 102 {
      IntegerHead(u);
      WordExtends(u, if u[0] == 110 then [110, 117, 108, 108] else if u[0] == 116 then [116, 114, 117, 101]
                     else [102, 97, 108, 115, 101], x);
    } else {
      IntegerHead(u);
      IntegerExtends(u, x);
    }
  }

  lemma IntegerHead(t: Text)
    ensures ReadInteger(t).Some? ==> t != [] && (t[0] == 45 || 48 <= t[0] <= 57)
  {
  }

  lemma WordExtends(t: Text, word: Text, x: Text)
    requires StartsWith(t, word)
    ensures StartsWith(t + x, word) && (t + x)[|word|..] == t[|word|..] + x
  {
  }

  lemma ListExtends(t: Text, close: CodeUnit, x: Text)
    requires Expect(t, close).Some? || ReadItems(t).Some? || ReadMembers(t).Some?
    ensures Expect(t + x, close) == if Expect(t, close).Some? then Some(Expect(t, close).value + x) else None
  {
    ExpectExtends(t, close, x);
  }

  /** After an element comes the end of its list or a comma, and either is there already. */
  lemma {:induction false} ItemsExtend(t: Text, x: Text)
    requires ReadItems(t).Some?
    ensures ReadItems(t + x) == Extended(ReadItems(t), x)
    decreases |t|, 1
  {
    hide ReadValue, Expect;
    var rest := ReadValue(t).value.rest;
    RestGoesOn(rest, 93);
    ValueExtends(t, x);
    ExpectExtends(rest, 93, x);
    ExpectExtends(rest, 44, x);
    if Expect(rest, 93).None? {
      ItemsExtend(Expect(rest, 44).value, x);
    }
  }

  lemma RestGoesOn(rest: Text, close: CodeUnit)
    requires Expect(rest, close).Some? || Expect(rest, 44).Some?
    ensures rest != [] && Trim(rest) != []
  {
  }

  lemma {:induction false} MemberExtends(t: Text, x: Text)
    requires ReadMember(t).Some? && ReadMember(t).value.rest != []
    ensures ReadMember(t + x) == Extended(ReadMember(t), x)
    decreases |t|, 1
  {
    hide ReadValue, Expect, ReadContents;
    var start := Expect(t, 34).value;
    ExpectExtends(t, 34, x);
    ContentsExtend(start, x);
    ExpectExtends(ReadContents(start).value.rest, 58, x);
    ValueExtends(Expect(ReadContents(start).value.rest, 58).value, x);
  }

  lemma {:induction false} MembersExtend(t: Text, x: Text)
    requires ReadMembers(t).Some?
    ensures ReadMembers(t + x) == Extended(ReadMembers(t), x)
    decreases |t|, 2
  {
    hide ReadMember, Expect;
    var rest := ReadMember(t).value.rest;
    RestGoesOn(rest, 125);
    MemberExtends(t, x);
    ExpectExtends(rest, 125, x);
    ExpectExtends(rest, 44, x);
    if Expect(rest, 125).None? {
      MembersExtend(Expect(rest, 44).value, x);
    }
  }
}
