/** The hash-chained audit log over canonical JSON. The digest is an arbitrary function on
    texts; what is proved assumes at most that the texts of the logs at hand do not collide. */
module AuditLog {
  import opened Results
  import opened JsonText
  import opened CanonicalJson
  import opened CanonicalTheorems
  import opened AuditFile

  function Zeros(n: nat): Text {
    if n == 0 then [] else [48] + Zeros(n - 1)
  }

  /** 0x followed by 64 zeros. */
  const ZERO_HASH: Text := [48, 120] + Zeros(64)

  datatype AuditError = InvalidRecord | UnreadableLog | InvalidChain(sequence: nat)

  /** The object whose canonical text is hashed for a record. */
  function Sealed(sequence: int, previousHash: Text, record: Json): Json {
    Obj([Field(SEQUENCE, Num(sequence)), Field(PREVIOUS_HASH, Str(previousHash)), Field(RECORD, record)])
  }

  function HashOf(sha: Text -> Text, v: Json): Text {
    sha(Print(v))
  }

  /** The hash the next entry links to. */
  function Head(entries: seq<Entry>): Text {
    if entries == [] then ZERO_HASH else entries[|entries| - 1].recordHash
  }

  predicate EntryOk(sha: Text -> Text, entry: Entry, sequence: int, previousHash: Text) {
    && entry.sequence == sequence
    && entry.previousHash == previousHash
    && entry.recordHash == HashOf(sha, Sealed(sequence, previousHash, entry.record))
  }

  ghost predicate ValidChain(sha: Text -> Text, entries: seq<Entry>) {
    forall i :: 0 <= i < |entries| ==> EntryOk(sha, entries[i], i + 1, Head(entries[..i]))
  }

  /** Records are JSON objects: keys are unique by construction. */
  ghost predicate Recordable(record: Json) {
    record.Obj? && WellFormed(record)
  }

  ghost predicate AllRecordable(entries: seq<Entry>) {
    forall i :: 0 <= i < |entries| ==> Recordable(entries[i].record)
  }

  class HashChainAuditLog {
    const sha: Text -> Text
    /** The shape checks made before a record is taken. */
    const accepts: Json -> bool
    var entries: seq<Entry>
    /** The contents of the log's file, if it has one. */
    var file: Option<Text>

    ghost predicate Valid()
      reads this
    {
      ValidChain(sha, entries)
    }

    constructor (sha: Text -> Text, accepts: Json -> bool, stored: seq<Entry>, file: Option<Text>)
      ensures entries == stored && this.sha == sha && this.accepts == accepts && this.file == file
    {
      this.sha := sha;
      this.accepts := accepts;
      this.file := file;
      entries := stored;
    }

    method Append(record: Json) returns (res: Result<Entry, AuditError>)
      requires Valid()
      modifies this
      ensures Valid()
      ensures res.Ok? <==> accepts(record)
      ensures res.Err? ==> res.error.InvalidRecord? && unchanged(this)
      ensures res.Ok? ==>
                && entries == old(entries) + [res.value]
                && EntryOk(sha, res.value, |old(entries)| + 1, Head(old(entries)))
                && res.value.record == record
                && file == (if old(file).Some? then Some(old(file).value + Line(res.value)) else None)
    {
      if !accepts(record) {
        return Err(InvalidRecord);
      }
      var previousHash := if |entries| > 0 then entries[|entries| - 1].recordHash else ZERO_HASH;
      var sequence := |entries| + 1;
      var recordHash := HashOf(sha, Sealed(sequence, previousHash, record));
      var entry := Entry(sequence, previousHash, recordHash, record);
      ExtendChain(sha, entries, entry);
      entries := entries + [entry];
      if file.Some? {
        file := Some(file.value + (Print(EntryJson(entry)) + [10]));
      }
      return Ok(entry);
    }

    /** Accepts exactly the valid chains; otherwise names the first entry that does not check out. */
    method AssertValid() returns (res: Result<(), AuditError>)
      ensures res.Ok? <==> ValidChain(sha, entries)
      ensures res.Err? ==> res.error.InvalidChain? && 1 <= res.error.sequence <= |entries|
                           && ValidChain(sha, entries[..res.error.sequence - 1])
                           && !ValidChain(sha, entries[..res.error.sequence])
    {
      hide ValidChain, Sealed;
      var previousHash := ZERO_HASH;
      var index := 0;
      EmptyChain(sha);
      while index < |entries|
        invariant 0 <= index <= |entries|
        invariant previousHash == Head(entries[..index])
        invariant ValidChain(sha, entries[..index])
      {
        var entry := entries[index];
        var expectedSequence := index + 1;
        var expectedHash := HashOf(sha, Sealed(expectedSequence, previousHash, entry.record));
        ChainStep(sha, entries, index);
        ChainPrefix(sha, entries, index + 1);
        if entry.sequence != expectedSequence || entry.previousHash != previousHash
           || entry.recordHash != expectedHash {
          return Err(InvalidChain(expectedSequence));
        }
        previousHash := entry.recordHash;
        index := index + 1;
      }
      assert entries[..|entries|] == entries;
      return Ok(());
    }
  }

  /** A log is opened over its file exactly when the file reads as a log and its chain is valid; without
      one it starts out empty. */
  method Open(sha: Text -> Text, accepts: Json -> bool, file: Option<Text>)
    returns (res: Result<HashChainAuditLog, AuditError>)
    ensures var stored := if file.Some? then ReadLog(file.value) else Some([]);
            match res
            case Ok(log) =>
              && fresh(log) && log.Valid() && log.sha == sha && log.accepts == accepts && log.file == file
              && stored == Some(log.entries)
            case Err(UnreadableLog) => stored.None?
            case Err(InvalidChain(n)) =>
              && stored.Some? && 1 <= n <= |stored.value|
              && ValidChain(sha, stored.value[..n - 1]) && !ValidChain(sha, stored.value[..n])
            case Err(InvalidRecord) => false
  {
    hide ReadLog, ValidChain;
    var stored := [];
    if file.Some? {
      var read := ReadLog(file.value);
      if read.None? {
        return Err(UnreadableLog);
      }
      stored := read.value;
    }
    var log := new HashChainAuditLog(sha, accepts, stored, file);
    var valid := log.AssertValid();
    return if valid.Ok? then Ok(log) else Err(valid.error);
  }

  lemma EmptyChain(sha: Text -> Text)
    ensures ValidChain(sha, [])
  {
  }

  lemma ExtendChain(sha: Text -> Text, entries: seq<Entry>, entry: Entry)
    requires ValidChain(sha, entries) && EntryOk(sha, entry, |entries| + 1, Head(entries))
    ensures ValidChain(sha, entries + [entry])
  {
    hide EntryOk, Head;
    var longer := entries + [entry];
    forall i | 0 <= i < |longer| ensures EntryOk(sha, longer[i], i + 1, Head(longer[..i])) {
      assert longer[..i] == if i < |entries| then entries[..i] else entries;
    }
  }

  lemma ChainPrefix(sha: Text -> Text, entries: seq<Entry>, n: nat)
    requires n <= |entries|
    ensures ValidChain(sha, entries) ==> ValidChain(sha, entries[..n])
  {
    if ValidChain(sha, entries) {
      forall i | 0 <= i < n ensures EntryOk(sha, entries[..n][i], i + 1, Head(entries[..n][..i])) {
        assert entries[..n][..i] == entries[..i];
      }
    }
  }

  /** A chain is valid one entry further exactly when that entry checks out. */
  lemma ChainStep(sha: Text -> Text, entries: seq<Entry>, n: nat)
    requires n < |entries|
    ensures ValidChain(sha, entries[..n + 1]) <==>
              ValidChain(sha, entries[..n]) && EntryOk(sha, entries[n], n + 1, Head(entries[..n]))
  {
    var longer := entries[..n + 1];
    assert longer[..n] == entries[..n];
    assert longer == entries[..n] + [entries[n]];
    ChainPrefix(sha, longer, n);
    if ValidChain(sha, entries[..n]) && EntryOk(sha, entries[n], n + 1, Head(entries[..n])) {
      ExtendChain(sha, entries[..n], entries[n]);
    }
    if ValidChain(sha, longer) {
      assert EntryOk(sha, longer[n], n + 1, Head(longer[..n]));
    }
  }

  // ---- runs ----

  /** The entry that links a record to a log. */
  function NextEntry(sha: Text -> Text, entries: seq<Entry>, record: Json): (entry: Entry)
    ensures EntryOk(sha, entry, |entries| + 1, Head(entries)) && entry.record == record
  {
    var sequence := |entries| + 1;
    Entry(sequence, Head(entries), HashOf(sha, Sealed(sequence, Head(entries), record)), record)
  }

  /** The log after appending a run of records to an empty one. */
  function Appended(sha: Text -> Text, records: seq<Json>): (entries: seq<Entry>)
    ensures |entries| == |records|
  {
    if records == [] then []
    else
      var before := Appended(sha, records[..|records| - 1]);
      before + [NextEntry(sha, before, records[|records| - 1])]
  }

  /** Every run of appends leaves a valid log of exactly its records, in order. */
  lemma {:induction false} AppendsAreValid(sha: Text -> Text, records: seq<Json>)
    ensures ValidChain(sha, Appended(sha, records))
    ensures forall i :: 0 <= i < |records| ==> Appended(sha, records)[i].record == records[i]
  {
    hide ValidChain, NextEntry, EntryOk, Head;
    if records == [] {
      EmptyChain(sha);
    } else {
      var n := |records| - 1;
      var before := Appended(sha, records[..n]);
      AppendsAreValid(sha, records[..n]);
      ExtendChain(sha, before, NextEntry(sha, before, records[n]));
      forall i | 0 <= i < |records| ensures Appended(sha, records)[i].record == records[i] {
        assert i < n ==> Appended(sha, records)[i] == before[i] && records[..n][i] == records[i];
      }
    }
  }

  /** The same entries around equivalent records. */
  ghost predicate Reread(a: seq<Entry>, b: seq<Entry>) {
    && |a| == |b|
    && forall i :: 0 <= i < |a| ==>
         && b[i] == a[i].(record := b[i].record)
         && Recordable(a[i].record) && Recordable(b[i].record) && Equiv(a[i].record, b[i].record)
  }

  lemma SealsAlike(sequence: int, previousHash: Text, r: Json, s: Json)
    requires Recordable(r) && Recordable(s) && Equiv(r, s)
    ensures Print(Sealed(sequence, previousHash, r)) == Print(Sealed(sequence, previousHash, s))
  {
    var a, b := Sealed(sequence, previousHash, r), Sealed(sequence, previousHash, s);
    assert SEQUENCE[0] != PREVIOUS_HASH[0] && RECORD[0] != PREVIOUS_HASH[0] && SEQUENCE[0] != RECORD[0];
    forall k ensures Has(a.fields, k) <==> Has(b.fields, k) {
      SealedKeys(sequence, previousHash, r, k);
      SealedKeys(sequence, previousHash, s, k);
    }
    PrintsAlikeIffEquivalent(a, b);
  }

  lemma SealedKeys(sequence: int, previousHash: Text, record: Json, k: Text)
    requires record.Obj?
    ensures Has(Sealed(sequence, previousHash, record).fields, k) <==>
              k == SEQUENCE || k == PREVIOUS_HASH || k == RECORD
  {
    var fields := Sealed(sequence, previousHash, record).fields;
    assert fields[0].key == SEQUENCE && fields[1].key == PREVIOUS_HASH && fields[2].key == RECORD;
  }

  /** A valid chain stays valid when its records come back equivalent, as from their canonical
      lines: what was logged survives a restart. */
  lemma RereadStaysValid(sha: Text -> Text, a: seq<Entry>, b: seq<Entry>)
    requires ValidChain(sha, a) && Reread(a, b)
    ensures ValidChain(sha, b)
  {
    hide Head, EntryOk, Recordable, Equiv;
    forall i | 0 <= i < |b| ensures EntryOk(sha, b[i], i + 1, Head(b[..i])) {
      assert EntryOk(sha, a[i], i + 1, Head(a[..i]));
      HeadsAgree(a, b, i);
      EntryAlike(sha, a[i], b[i], i + 1, Head(a[..i]));
    }
  }

  lemma HeadsAgree(a: seq<Entry>, b: seq<Entry>, n: nat)
    requires n <= |a| && |a| == |b| && forall i :: 0 <= i < |a| ==> b[i].recordHash == a[i].recordHash
    ensures Head(b[..n]) == Head(a[..n])
  {
  }

  lemma EntryAlike(sha: Text -> Text, a: Entry, b: Entry, sequence: int, link: Text)
    requires EntryOk(sha, a, sequence, link) && b == a.(record := b.record)
    requires Recordable(a.record) && Recordable(b.record) && Equiv(a.record, b.record)
    ensures EntryOk(sha, b, sequence, link)
  {
    hide Print, Sealed, Equiv;
    SealsAlike(sequence, link, a.record, b.record);
  }

  /** So the log of any run of appends is accepted again after rereading. */
  lemma AppendedLogReopens(sha: Text -> Text, records: seq<Json>, stored: seq<Entry>)
    requires Reread(Appended(sha, records), stored)
    ensures ValidChain(sha, stored) && |stored| == |records|
    ensures forall i :: 0 <= i < |records| ==> Equiv(records[i], stored[i].record)
  {
    hide ValidChain, Recordable, Equiv, Appended;
    AppendsAreValid(sha, records);
    RereadStaysValid(sha, Appended(sha, records), stored);
    forall i | 0 <= i < |records| ensures Equiv(records[i], stored[i].record) {
      assert Appended(sha, records)[i].record == records[i];
    }
  }

  // ---- tamper evidence ----

  /** The text hashed for entry `i`. */
  function HashedText(entries: seq<Entry>, i: nat): Text
    requires i < |entries|
  {
    Print(Sealed(i + 1, Head(entries[..i]), entries[i].record))
  }

  /** No two of the texts hashed by the two logs collide. */
  ghost predicate CollisionFree(sha: Text -> Text, a: seq<Entry>, b: seq<Entry>) {
    forall i, j :: 0 <= i < |a| && 0 <= j < |b| && sha(HashedText(a, i)) == sha(HashedText(b, j)) ==>
      HashedText(a, i) == HashedText(b, j)
  }

  /** Equal sealed texts mean equal position, equal link and equivalent record. */
  lemma SealReadable(m: int, p: Text, r: Json, n: int, q: Text, s: Json)
    requires Recordable(r) && Recordable(s) && Print(Sealed(m, p, r)) == Print(Sealed(n, q, s))
    ensures m == n && p == q && Equiv(r, s)
  {
    var a, b := Sealed(m, p, r), Sealed(n, q, s);
    assert SEQUENCE[0] != PREVIOUS_HASH[0] && RECORD[0] != PREVIOUS_HASH[0] && SEQUENCE[0] != RECORD[0];
    PrintsAlikeIffEquivalent(a, b);
    assert Equiv(a.fields[0].value, b.fields[0].value);
    assert Equiv(a.fields[1].value, b.fields[1].value);
    assert Equiv(a.fields[2].value, b.fields[2].value);
  }

  /** Two valid logs that end in the same hash, with no collision among their texts, have the
      same length and canonically equal records throughout. */
  lemma {:induction false} TamperEvidence(sha: Text -> Text, a: seq<Entry>, b: seq<Entry>)
    requires ValidChain(sha, a) && ValidChain(sha, b) && AllRecordable(a) && AllRecordable(b)
    requires a != [] && b != [] && Head(a) == Head(b) && CollisionFree(sha, a, b)
    ensures |a| == |b|
    ensures forall i :: 0 <= i < |a| ==> Equiv(a[i].record, b[i].record) && a[i].recordHash == b[i].recordHash
    decreases |a|
  {
    hide ValidChain, Print, Recordable, Equiv, Sealed;
    var m, n := |a| - 1, |b| - 1;
    LastHash(sha, a);
    LastHash(sha, b);
    assert HashedText(a, m) == HashedText(b, n);
    SealReadable(m + 1, Head(a[..m]), a[m].record, n + 1, Head(b[..n]), b[n].record);
    if m > 0 {
      ChainPrefix(sha, a, m);
      ChainPrefix(sha, b, n);
      PrefixTexts(a, m);
      PrefixTexts(b, n);
      TamperEvidence(sha, a[..m], b[..n]);
      forall i | 0 <= i < |a| ensures Equiv(a[i].record, b[i].record) && a[i].recordHash == b[i].recordHash {
        assert i < m ==> a[i] == a[..m][i] && b[i] == b[..n][i];
      }
    }
  }

  lemma LastHash(sha: Text -> Text, entries: seq<Entry>)
    requires ValidChain(sha, entries) && entries != []
    ensures Head(entries) == sha(HashedText(entries, |entries| - 1))
  {
  }

  lemma PrefixTexts(entries: seq<Entry>, m: nat)
    requires m <= |entries|
    ensures forall i :: 0 <= i < m ==> HashedText(entries[..m], i) == HashedText(entries, i)
  {
  }

  /** Two runs of appends that end in the same hash, with no collision among their texts, appended
      equally many records, canonically equal one by one. */
  lemma RunsAreTamperEvident(sha: Text -> Text, a: seq<Json>, b: seq<Json>)
    requires a != [] && b != []
    requires (forall i :: 0 <= i < |a| ==> Recordable(a[i])) && (forall i :: 0 <= i < |b| ==> Recordable(b[i]))
    requires Head(Appended(sha, a)) == Head(Appended(sha, b))
    requires CollisionFree(sha, Appended(sha, a), Appended(sha, b))
    ensures |a| == |b| && forall i :: 0 <= i < |a| ==> Equiv(a[i], b[i])
  {
    hide ValidChain, Appended, Recordable, Equiv;
    AppendsAreValid(sha, a);
    AppendsAreValid(sha, b);
    TamperEvidence(sha, Appended(sha, a), Appended(sha, b));
    forall i | 0 <= i < |a| ensures Equiv(a[i], b[i]) {
      assert Appended(sha, a)[i].record == a[i] && Appended(sha, b)[i].record == b[i];
    }
  }
}
