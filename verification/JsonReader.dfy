/** A reader of JSON texts (RFC 8259) over UTF-16 code units, written independently of the printer:
    every code unit it looks for is a literal. Numbers are read without fraction and exponent. */
module JsonReader {
  import opened Results
  import opened JsonText
  import opened CanonicalJson

  /** What was read, and the text that follows it. */
  datatype Reading<T> = Reading(value: T, rest: Text)

  /** Insignificant white space: space, tab, line feed and carriage return. */
  function Trim(t: Text): (r: Text)
    ensures |r| <= |t|
    ensures t != [] && t[0] !in {32, 9, 10, 13} ==> r == t
  {
    if t != [] && t[0] in {32, 9, 10, 13} then Trim(t[1..]) else t
  }

  /** Expects one code unit after white space. */
  function Expect(t: Text, unit: CodeUnit): (r: Option<Text>)
    ensures r.Some? ==> |r.value| < |t|
    ensures t != [] && t[0] == unit && unit > 32 ==> r == Some(t[1..])
  {
    var u := Trim(t);
    if u != [] && u[0] == unit then Some(u[1..]) else None
  }

  predicate StartsWith(t: Text, word: Text) {
    word <= t
  }

  // ---- strings ----

  function HexOf(c: CodeUnit): Option<int> {
    if 48 <= c <= 57 then Some(c - 48)
    else if 65 <= c <= 70 then Some(c - 55)
    else if 97 <= c <= 102 then Some(c - 87)
    else None
  }

  function FourHex(a: CodeUnit, b: CodeUnit, c: CodeUnit, d: CodeUnit): (r: Option<CodeUnit>) {
    match (HexOf(a), HexOf(b), HexOf(c), HexOf(d))
    case (Some(w), Some(x), Some(y), Some(z)) =>
      var n := 4096 * w + 256 * x + 16 * y + z;
      if 0 <= n < 0x1_0000 then Some(n) else None
    case _ => None
  }

  /** The code unit that a two-unit escape stands for. */
  function ShortEscape(c: CodeUnit): Option<CodeUnit> {
    if c == 34 || c == 92 || c == 47 then Some(c)
    else if c == 98 then Some(8)
    else if c == 102 then Some(12)
    else if c == 110 then Some(10)
    else if c == 114 then Some(13)
    else if c == 116 then Some(9)
    else None
  }

  /** One code unit of a string's contents. */
  function ReadUnit(t: Text): (r: Option<Reading<CodeUnit>>)
    ensures r.Some? ==> |r.value.rest| < |t|
  {
    if t == [] || t[0] < 32 || t[0] == 34 then None
    else if t[0] != 92 then Some(Reading(t[0], t[1..]))
    else if |t| < 2 then None
    else if t[1] == 117 then
      if |t| < 6 || FourHex(t[2], t[3], t[4], t[5]).None? then None
      else Some(Reading(FourHex(t[2], t[3], t[4], t[5]).value, t[6..]))
    else match ShortEscape(t[1])
      case None => None
      case Some(c) => Some(Reading(c, t[2..]))
  }

  /** The contents of a string up to its closing quote. */
  function ReadContents(t: Text): (r: Option<Reading<Text>>)
    ensures r.Some? ==> |r.value.rest| < |t|
    decreases |t|
  {
    if t == [] then None
    else if t[0] == 34 then Some(Reading([], t[1..]))
    else match ReadUnit(t)
      case None => None
      case Some(unit) =>
        match ReadContents(unit.rest)
        case None => None
        case Some(more) => Some(Reading([unit.value] + more.value, more.rest))
  }

  // ---- numbers ----

  /** How many digits the text starts with. */
  function DigitCount(t: Text): (n: nat)
    ensures n <= |t|
  {
    if t != [] && 48 <= t[0] <= 57 then 1 + DigitCount(t[1..]) else 0
  }

  function DigitsValue(digits: Text): int {
    if digits == [] then 0 else DigitsValue(digits[..|digits| - 1]) * 10 + digits[|digits| - 1] - 48
  }

  /** Zero, or digits that do not start with one. */
  function ReadNatural(t: Text): (r: Option<Reading<int>>)
    ensures r.Some? ==> |r.value.rest| < |t|
  {
    var n := DigitCount(t);
    if n == 0 then None
    else if t[0] == 48 then Some(Reading(0, t[1..]))
    else Some(Reading(DigitsValue(t[..n]), t[n..]))
  }

  function ReadInteger(t: Text): (r: Option<Reading<int>>)
    ensures r.Some? ==> |r.value.rest| < |t|
  {
    if t != [] && t[0] == 45 then
      match ReadNatural(t[1..])
      case None => None
      case Some(n) => Some(Reading(-n.value, n.rest))
    else ReadNatural(t)
  }

  // ---- values ----

  /** Of the members that name a key, the last one counts. */
  function LastNamed(fields: seq<Field>): seq<Field>
    decreases |fields|
  {
    if fields == [] then []
    else
      var last := |fields| - 1;
      LastNamed(Unnamed(fields[..last], fields[last].key)) + [fields[last]]
  }

  /** The members that do not name a key. */
  function Unnamed(fields: seq<Field>, key: Text): (others: seq<Field>)
    ensures |others| <= |fields|
  {
    if fields == [] then []
    else Unnamed(fields[..|fields| - 1], key)
         + if fields[|fields| - 1].key == key then [] else [fields[|fields| - 1]]
  }

  function ReadValue(t: Text): (r: Option<Reading<Json>>)
    ensures r.Some? ==> |r.value.rest| < |t| && !r.value.value.Undefined?
    decreases |t|, 0
  {
    var u := Trim(t);
    if u == [] then None
    else if StartsWith(u, [110, 117, 108, 108]) then Some(Reading(Null, u[4..]))
    else if StartsWith(u, [116, 114, 117, 101]) then Some(Reading(Bool(true), u[4..]))
    else if StartsWith(u, [102, 97, 108, 115, 101]) then Some(Reading(Bool(false), u[5..]))
    else if u[0] == 34 then
      match ReadContents(u[1..])
      case None => None
      case Some(s) => Some(Reading(Str(s.value), s.rest))
    else if u[0] == 91 then
      match Expect(u[1..], 93)
      case Some(rest) => Some(Reading(Arr([]), rest))
      case None =>
        match ReadItems(u[1..])
        case None => None
        case Some(items) => Some(Reading(Arr(items.value), items.rest))
    else if u[0] == 123 then
      match Expect(u[1..], 125)
      case Some(rest) => Some(Reading(Obj([]), rest))
      case None =>
        match ReadMembers(u[1..])
        case None => None
        case Some(fields) => Some(Reading(Obj(LastNamed(fields.value)), fields.rest))
    else
      match ReadInteger(u)
      case None => None
      case Some(n) => Some(Reading(Num(n.value), n.rest))
  }

  /** Items separated by commas, up to the closing bracket. */
  function ReadItems(t: Text): (r: Option<Reading<seq<Json>>>)
    ensures r.Some? ==> |r.value.rest| < |t|
    decreases |t|, 1
  {
    match ReadValue(t)
    case None => None
    case Some(item) =>
      match Expect(item.rest, 93)
      case Some(rest) => Some(Reading([item.value], rest))
      case None =>
        match Expect(item.rest, 44)
        case None => None
        case Some(rest) =>
          match ReadItems(rest)
          case None => None
          case Some(items) => Some(Reading([item.value] + items.value, items.rest))
  }

  function ReadMember(t: Text): (r: Option<Reading<Field>>)
    ensures r.Some? ==> |r.value.rest| < |t| && !r.value.value.value.Undefined?
    decreases |t|, 1
  {
    match Expect(t, 34)
    case None => None
    case Some(start) =>
      match ReadContents(start)
      case None => None
      case Some(key) =>
        match Expect(key.rest, 58)
        case None => None
        case Some(value) =>
          match ReadValue(value)
          case None => None
          case Some(v) => Some(Reading(Field(key.value, v.value), v.rest))
  }

  /** Members separated by commas, up to the closing brace. */
  function ReadMembers(t: Text): (r: Option<Reading<seq<Field>>>)
    ensures r.Some? ==> |r.value.rest| < |t|
    decreases |t|, 2
  {
    match ReadMember(t)
    case None => None
    case Some(field) =>
      match Expect(field.rest, 125)
      case Some(rest) => Some(Reading([field.value], rest))
      case None =>
        match Expect(field.rest, 44)
        case None => None
        case Some(rest) =>
          match ReadMembers(rest)
          case None => None
          case Some(fields) => Some(Reading([field.value] + fields.value, fields.rest))
  }

  /** A whole text: one value, with nothing but white space around it. */
  function Parse(t: Text): Option<Json> {
    match ReadValue(t)
    case None => None
    case Some(v) => if Trim(v.rest) == [] then Some(v.value) else None
  }
}
