/** What a restart makes of an audit log: the file of any run of appends reads back as a valid chain
    of the same records. */
module AuditRestart {
  import opened Results
  import opened JsonText
  import opened CanonicalJson
  import opened CanonicalTheorems
  import opened JsonReader
  import opened ReaderTheorems
  import opened ReaderExtension
  import opened AuditFile
  import opened AuditLog

  // ---- canonical texts have no line feeds ----

  ghost predicate OneLine(t: Text) {
    forall i :: 0 <= i < |t| ==> t[i] >= 32
  }

  lemma {:induction false} EscapeOneLine(s: Text)
    ensures OneLine(Escape(s))
    decreases |s|
  {
    if s != [] {
      EscapeOneLine(s[ChunkLength(s)..]);
    }
  }

  lemma {:induction false} NatOneLine(n: nat)
    ensures OneLine(PrintNat(n))
  {
    if n >= 10 {
      NatOneLine(n / 10);
    }
  }

  lemma {:induction false} PrintOneLine(v: Json)
    ensures OneLine(Print(v))
    decreases v, 1
  {
    hide PrintItems, PrintFields, SortKeys, DefinedKeys, Has, Escape, PrintNat;
    match v
    case Num(n) => NatOneLine(if n < 0 then -n else n);
    case Str(s) => EscapeOneLine(s);
    case Arr(items) => ItemsOneLine(items);
    case Obj(fields) =>
      forall k | k in SortKeys(DefinedKeys(fields)) ensures Has(fields, k) {
        SortedKeysAreHeld(fields, k);
      }
      FieldsOneLine(fields, SortKeys(DefinedKeys(fields)));
    case _ =>
  }

  lemma {:induction false} ItemsOneLine(items: seq<Json>)
    ensures OneLine(PrintItems(items))
    decreases items, 0
  {
    hide Print;
    if items != [] {
      PrintOneLine(items[0]);
      ItemsOneLine(items[1..]);
    }
  }

  lemma {:induction false} FieldOneLine(fields: seq<Field>, key: Text)
    requires Has(fields, key)
    ensures OneLine(PrintField(fields, key))
    decreases fields, 0, 0
  {
    hide Print, Escape;
    EscapeOneLine(key);
    PrintOneLine(fields[IndexOf(fields, key)].value);
  }

  lemma {:induction false} FieldsOneLine(fields: seq<Field>, keys: seq<Text>)
    requires forall k :: k in keys ==> Has(fields, k)
    ensures OneLine(PrintFields(fields, keys))
    decreases fields, 0, |keys| + 1
  {
    hide PrintField, Has;
    if keys != [] {
      FieldOneLine(fields, keys[0]);
      FieldsOneLine(fields, keys[1..]);
    }
  }

  // ---- lines ----

  /** A file that the next append starts a new line of. */
  predicate AtLineStart(file: Text) {
    file == [] || file[|file| - 1] == 10
  }

  lemma LineEndOf(line: Text, rest: Text)
    requires 10 !in line
    ensures LineEnd(line + [10] + rest) == |line|
  {
    var t := line + [10] + rest;
    assert t[|line|] == 10;
    assert forall i :: 0 <= i < |line| ==> t[i] == line[i];
  }

  function NonEmpty(line: Text): seq<Text> {
    if line == [] then [] else [line]
  }

  lemma FirstLine(line: Text, rest: Text)
    requires 10 !in line
    ensures Lines(line + [10] + rest) == NonEmpty(line) + Lines(rest)
  {
    var t := line + [10] + rest;
    LineEndOf(line, rest);
    assert t[..|line|] == line && t[|line| + 1..] == rest;
  }

  lemma OnlyLine(line: Text)
    requires 10 !in line
    ensures Lines(line) == NonEmpty(line) && Lines(line + [10]) == NonEmpty(line)
  {
    assert line[..|line|] == line && line + [10] == line + [10] + [];
    FirstLine(line, []);
  }

  /** A line appended to whole lines comes after them. */
  lemma {:induction false} LinesAppend(file: Text, line: Text)
    requires AtLineStart(file) && line != [] && 10 !in line
    ensures Lines(file + line + [10]) == Lines(file) + [line]
    decreases |file|
  {
    hide Lines;
    OnlyLine(line);
    OnlyLine([]);
    if file == [] {
      assert file + line + [10] == line + [10];
    } else {
      var n := LineEnd(file);
      var first, rest := file[..n], file[n + 1..];
      assert file == first + [10] + rest;
      assert file + line + [10] == first + [10] + (rest + line + [10]);
      FirstLine(first, rest);
      FirstLine(first, rest + line + [10]);
      LinesAppend(rest, line);
    }
  }

  /** A line appended to a file that does not end its last line continues that line. */
  lemma {:induction false} LinesContinue(file: Text, line: Text)
    requires !AtLineStart(file) && 10 !in line
    ensures var lines := Lines(file);
            && lines != []
            && Lines(file + line + [10]) == lines[..|lines| - 1] + [lines[|lines| - 1] + line]
    decreases |file|
  {
    hide Lines;
    var n := LineEnd(file);
    if n == |file| {
      OnlyLine(file);
      OnlyLine(file + line);
    } else {
      var first, rest := file[..n], file[n + 1..];
      assert file == first + [10] + rest;
      assert file + line + [10] == first + [10] + (rest + line + [10]);
      FirstLine(first, rest);
      FirstLine(first, rest + line + [10]);
      assert rest != [] && rest[|rest| - 1] == file[|file| - 1];
      LinesContinue(rest, line);
    }
  }

  lemma {:induction false} FileOfEnds(entries: seq<Entry>)
    ensures AtLineStart(FileOf(entries))
  {
  }

  // ---- entries ----

  lemma KeysAsWritten()
    ensures SEQUENCE == Ascii("sequence") && PREVIOUS_HASH == Ascii("previousHash")
    ensures RECORD_HASH == Ascii("recordHash") && RECORD == Ascii("record")
  {
  }

  lemma {:induction false} LookupFinds(fields: seq<Field>, i: nat)
    requires i < |fields| && forall i, j :: 0 <= i < j < |fields| ==> fields[i].key != fields[j].key
    ensures Lookup(fields, fields[i].key) == Some(fields[i].value)
  {
    if i > 0 {
      LookupFinds(fields[1..], i - 1);
    }
  }

  /** A key's value in an object equivalent to one that holds it. */
  lemma LookupEquiv(fs: seq<Field>, gs: seq<Field>, i: nat)
    requires i < |fs| && !fs[i].value.Undefined?
    requires WellFormed(Obj(gs)) && Equiv(Obj(fs), Obj(gs))
    ensures var v := Lookup(gs, fs[i].key);
            v.Some? && Equiv(fs[i].value, v.value) && WellFormed(v.value)
  {
    assert Has(fs, fs[i].key) && Has(gs, fs[i].key);
    var j :| 0 <= j < |gs| && gs[j].key == fs[i].key && !gs[j].value.Undefined?;
    LookupFinds(gs, j);
  }

  lemma EntryJsonWellFormed(e: Entry)
    requires Recordable(e.record)
    ensures WellFormed(EntryJson(e))
  {
    assert SEQUENCE[0] != PREVIOUS_HASH[0] && RECORD[0] != PREVIOUS_HASH[0] && SEQUENCE[0] != RECORD[0];
    assert RECORD_HASH[0] != PREVIOUS_HASH[0] && SEQUENCE[0] != RECORD_HASH[0] && |RECORD| != |RECORD_HASH|;
  }

  /** An entry read back: the same but for a record of the same meaning. */
  ghost predicate ReadsBack(e: Entry, f: Entry) {
    f == e.(record := f.record) && Recordable(f.record) && Equiv(e.record, f.record)
  }

  lemma EntryReads(e: Entry, v: Json)
    requires Recordable(e.record) && WellFormed(v) && Equiv(EntryJson(e), v)
    ensures EntryOf(v).Some? && ReadsBack(e, EntryOf(v).value)
  {
    hide Lookup, SEQUENCE, PREVIOUS_HASH, RECORD_HASH, RECORD, Ascii, Has;
    KeysAsWritten();
    var fs := EntryJson(e).fields;
    LookupEquiv(fs, v.fields, 0);
    LookupEquiv(fs, v.fields, 1);
    LookupEquiv(fs, v.fields, 2);
    LookupEquiv(fs, v.fields, 3);
  }

  /** The line of an entry is one non-empty line, and reads back as that entry. */
  lemma LineReads(e: Entry)
    requires Recordable(e.record)
    ensures var line := Print(EntryJson(e));
            line != [] && 10 !in line && ReadLine(line).Some? && ReadsBack(e, ReadLine(line).value)
  {
    hide Print, EntryJson, Parse, EntryOf, ReadsBack, Recordable, Equiv, WellFormed;
    var v := EntryJson(e);
    PrintOneLine(v);
    PrintHead(v, []);
    EntryJsonWellFormed(e);
    PrintParses(v);
    EntryReads(e, Parse(Print(v)).value);
  }

  /** Appending an entry to a file that ends its last line adds that entry to what is read back. */
  lemma AppendReads(file: Text, e: Entry)
    requires AtLineStart(file) && ReadLog(file).Some? && Recordable(e.record)
    ensures var log := ReadLog(file + Line(e));
            && log.Some? && |log.value| == |ReadLog(file).value| + 1
            && log.value[..|log.value| - 1] == ReadLog(file).value
            && ReadsBack(e, log.value[|log.value| - 1])
  {
    hide Print, EntryJson, ReadLine, ReadsBack, Recordable, Lines;
    var line := Print(EntryJson(e));
    LineReads(e);
    LinesAppend(file, line);
    assert file + Line(e) == file + line + [10];
    var lines := Lines(file) + [line];
    assert lines[..|lines| - 1] == Lines(file);
  }

  /** Two entries on one line are not the text of an entry. */
  lemma TwoOnALine(line: Text, e: Entry)
    requires ReadLine(line).Some?
    ensures ReadLine(line + Print(EntryJson(e))).None?
  {
    hide ReadValue, Lookup, Trim, Print;
    var x := Print(EntryJson(e));
    ObjectHead(EntryJson(e), []);
    assert x + [] == x;
    ValueExtends(line, x);
    TrimExtends(ReadValue(line).value.rest, x);
    StaysTrimmed(x);
  }

  lemma StaysTrimmed(t: Text)
    ensures t != [] && t[0] == 123 ==> Trim(t) == t
  {
  }

  /** A file read as a log is still one after an append exactly when it ended its last line. */
  lemma AppendReadsExactlyWhen(file: Text, e: Entry)
    requires ReadLog(file).Some? && Recordable(e.record)
    ensures ReadLog(file + Line(e)).Some? <==> AtLineStart(file)
  {
    hide Print, EntryJson, ReadLine, ReadsBack, Recordable, Lines;
    if AtLineStart(file) {
      AppendReads(file, e);
    } else {
      var line := Print(EntryJson(e));
      var lines := Lines(file);
      LineReads(e);
      LinesContinue(file, line);
      assert file + Line(e) == file + line + [10];
      TwoOnALine(lines[|lines| - 1], e);
    }
  }

  /** A log opened from a file goes on: after an append the file is accepted again exactly when it
      ended its last line before, as it does unless it was cut off or edited. */
  lemma ReopensExactlyWhen(sha: Text -> Text, file: Text, record: Json)
    requires ReadLog(file).Some? && ValidChain(sha, ReadLog(file).value) && Recordable(record)
    ensures var log := ReadLog(file + Line(NextEntry(sha, ReadLog(file).value, record)));
            log.Some? && ValidChain(sha, log.value) <==> AtLineStart(file)
  {
    hide ReadLog, Line, ValidChain, Recordable, Equiv, EntryOk;
    var entries := ReadLog(file).value;
    var e := NextEntry(sha, entries, record);
    AppendReadsExactlyWhen(file, e);
    if AtLineStart(file) {
      AppendReads(file, e);
      var log := ReadLog(file + Line(e)).value;
      assert log == entries + [log[|entries|]];
      EntryAlike(sha, e, log[|entries|], |entries| + 1, Head(entries));
      ExtendChain(sha, entries, log[|entries|]);
    }
  }

  /** Such a file exists: the one line of an entry, without its line feed, opens as a valid log of one
      entry, and no longer opens after one more append. */
  lemma CutOffLogIsLost(sha: Text -> Text)
    ensures var e := NextEntry(sha, [], Obj([]));
            var cut := Print(EntryJson(e));
            && ReadLog(cut).Some? && ValidChain(sha, ReadLog(cut).value)
            && ReadLog(cut + Line(NextEntry(sha, ReadLog(cut).value, Obj([])))).None?
  {
    hide Print, EntryJson, ReadLine, ReadsBack, ValidChain, EntryOk;
    var e := NextEntry(sha, [], Obj([]));
    var cut := Print(EntryJson(e));
    LineReads(e);
    OnlyLine(cut);
    var f := ReadLine(cut).value;
    OneLineLog(cut, f);
    ReadBackIsOk(sha, e, f);
    EmptyChain(sha);
    ExtendChain(sha, [], f);
    assert [] + [f] == [f];
    AppendReadsExactlyWhen(cut, NextEntry(sha, [f], Obj([])));
  }

  lemma ReadBackIsOk(sha: Text -> Text, e: Entry, f: Entry)
    requires ReadsBack(e, f) && Recordable(e.record) && EntryOk(sha, e, 1, Head([]))
    ensures EntryOk(sha, f, 1, Head([]))
  {
    EntryAlike(sha, e, f, 1, Head([]));
  }

  lemma OneLineLog(line: Text, e: Entry)
    requires Lines(line) == [line] && ReadLine(line) == Some(e)
    ensures ReadLog(line) == Some([e])
  {
    hide Lines, ReadLine;
    assert [line][..0] == [];
    assert ReadLines([line][..0]) == Some([]);
    assert [] + [e] == [e];
  }

  /** The file of any entries reads back as those entries, around records of the same meaning. */
  lemma {:induction false} FileReads(entries: seq<Entry>)
    requires AllRecordable(entries)
    ensures ReadLog(FileOf(entries)).Some? && Reread(entries, ReadLog(FileOf(entries)).value)
  {
    hide ReadLog, Line, Recordable, Equiv;
    if entries == [] {
      assert ReadLog([]) == Some([]) by { NoLines(); }
    } else {
      var n := |entries| - 1;
      FileReads(entries[..n]);
      FileOfEnds(entries[..n]);
      AppendReads(FileOf(entries[..n]), entries[n]);
      var front, log := ReadLog(FileOf(entries[..n])).value, ReadLog(FileOf(entries)).value;
      forall i | 0 <= i < |entries|
        ensures log[i] == entries[i].(record := log[i].record) && Recordable(log[i].record)
                && Equiv(entries[i].record, log[i].record)
      {
        assert i < n ==> log[i] == front[i] && entries[..n][i] == entries[i];
      }
    }
  }

  lemma NoLines()
    ensures ReadLog([]) == Some([])
  {
  }

  /** Whatever was logged survives a restart: the file of any run of appends is accepted as a valid
      chain of as many records, of the same meaning one by one, that ends in the same hash. */
  lemma LogSurvivesRestart(sha: Text -> Text, records: seq<Json>)
    requires forall i :: 0 <= i < |records| ==> Recordable(records[i])
    ensures var entries := Appended(sha, records);
            var log := ReadLog(FileOf(entries));
            && log.Some? && ValidChain(sha, log.value) && |log.value| == |records|
            && Head(log.value) == Head(entries)
            && forall i :: 0 <= i < |records| ==> Equiv(records[i], log.value[i].record)
  {
    hide ReadLog, FileOf, Appended, Recordable, Equiv, ValidChain;
    AppendsAreValid(sha, records);
    var entries := Appended(sha, records);
    forall i | 0 <= i < |entries| ensures Recordable(entries[i].record) {
      assert entries[i].record == records[i];
    }
    FileReads(entries);
    AppendedLogReopens(sha, records, ReadLog(FileOf(entries)).value);
  }

  /** What is hashed for an entry is the JSON text of its position, its link and its record, under
      those names. */
  lemma SealReads(sequence: int, previousHash: Text, record: Json)
    requires Recordable(record)
    ensures var v := Parse(Print(Sealed(sequence, previousHash, record)));
            && v.Some?
            && Equiv(Obj([Field(Ascii("sequence"), Num(sequence)), Field(Ascii("previousHash"), Str(previousHash)),
                          Field(Ascii("record"), record)]), v.value)
  {
    hide Print, Parse, Equiv, SEQUENCE, PREVIOUS_HASH, RECORD, Ascii;
    KeysAsWritten();
    SealedWellFormed(sequence, previousHash, record);
    PrintParses(Sealed(sequence, previousHash, record));
  }

  lemma SealedWellFormed(sequence: int, previousHash: Text, record: Json)
    requires Recordable(record)
    ensures WellFormed(Sealed(sequence, previousHash, record))
  {
    assert SEQUENCE[0] != PREVIOUS_HASH[0] && RECORD[0] != PREVIOUS_HASH[0] && SEQUENCE[0] != RECORD[0];
  }

  /** The first entry links to 0x and sixty-four zeros. */
  lemma ZeroHashExactly()
    ensures Head([]) == Ascii("0x") + seq(64, _ => '0' as int)
  {
    ZerosExactly(64);
  }

  lemma {:induction false} ZerosExactly(n: nat)
    ensures Zeros(n) == seq(n, _ => '0' as int)
  {
    if n > 0 {
      ZerosExactly(n - 1);
    }
  }
}
