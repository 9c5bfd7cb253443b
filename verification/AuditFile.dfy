/** The audit log's file: one canonical JSON text a line, appended entry by entry, and read back line
    by line when a log is opened. */
module AuditFile {
  import opened Results
  import opened JsonText
  import opened CanonicalJson
  import opened JsonReader

  datatype Entry = Entry(sequence: int, previousHash: Text, recordHash: Text, record: Json)

  const SEQUENCE: Text := [115, 101, 113, 117, 101, 110, 99, 101]
  const PREVIOUS_HASH: Text := [112, 114, 101, 118, 105, 111, 117, 115, 72, 97, 115, 104]
  const RECORD_HASH: Text := [114, 101, 99, 111, 114, 100, 72, 97, 115, 104]
  const RECORD: Text := [114, 101, 99, 111, 114, 100]

  // ---- writing ----

  function EntryJson(e: Entry): Json {
    Obj([Field(SEQUENCE, Num(e.sequence)), Field(PREVIOUS_HASH, Str(e.previousHash)),
         Field(RECORD_HASH, Str(e.recordHash)), Field(RECORD, e.record)])
  }

  /** What one append adds to the file. */
  function Line(e: Entry): Text {
    Print(EntryJson(e)) + [10]
  }

  /** The file after a run of appends. */
  function FileOf(entries: seq<Entry>): Text {
    if entries == [] then [] else FileOf(entries[..|entries| - 1]) + Line(entries[|entries| - 1])
  }

  // ---- reading ----

  /** Where the first line feed is, or the end. */
  function LineEnd(t: Text): (n: nat)
    ensures n <= |t| && (n < |t| ==> t[n] == 10) && forall i :: 0 <= i < n ==> t[i] != 10
  {
    if t == [] || t[0] == 10 then 0 else LineEnd(t[1..]) + 1
  }

  /** The lines of a text, without the empty ones. */
  function Lines(t: Text): seq<Text>
    decreases |t|
  {
    var n := LineEnd(t);
    (if n == 0 then [] else [t[..n]]) + if n == |t| then [] else Lines(t[n + 1..])
  }

  /** The value of an object's key. */
  function Lookup(fields: seq<Field>, key: Text): Option<Json> {
    if fields == [] then None
    else if fields[0].key == key then Some(fields[0].value)
    else Lookup(fields[1..], key)
  }

  /** The entry that an object stands for. */
  function EntryOf(v: Json): Option<Entry> {
    if !v.Obj? then None
    else match (Lookup(v.fields, Ascii("sequence")), Lookup(v.fields, Ascii("previousHash")),
                Lookup(v.fields, Ascii("recordHash")), Lookup(v.fields, Ascii("record")))
      case (Some(Num(n)), Some(Str(p)), Some(Str(h)), Some(r)) => Some(Entry(n, p, h, r))
      case _ => None
  }

  function ReadLine(line: Text): Option<Entry> {
    match Parse(line)
    case None => None
    case Some(v) => EntryOf(v)
  }

  function ReadLines(lines: seq<Text>): Option<seq<Entry>> {
    if lines == [] then Some([])
    else match (ReadLines(lines[..|lines| - 1]), ReadLine(lines[|lines| - 1]))
      case (Some(entries), Some(entry)) => Some(entries + [entry])
      case _ => None
  }

  /** The entries of a file; none if some line is not the text of an entry. */
  function ReadLog(file: Text): Option<seq<Entry>> {
    ReadLines(Lines(file))
  }
}
