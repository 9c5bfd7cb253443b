/** UTF-16 text, the printing of JSON strings and integers, and the order object keys are
    printed in. */
module JsonText {
  type CodeUnit = n: int | 0 <= n < 0x1_0000

  type Text = seq<CodeUnit>

  const QUOTE: CodeUnit := 34
  const COMMA: CodeUnit := 44
  const MINUS: CodeUnit := 45
  const COLON: CodeUnit := 58
  const LEFT_BRACKET: CodeUnit := 91
  const BACKSLASH: CodeUnit := 92
  const RIGHT_BRACKET: CodeUnit := 93
  const LETTER_U: CodeUnit := 117
  const LEFT_BRACE: CodeUnit := 123
  const RIGHT_BRACE: CodeUnit := 125

  // ---- strings (section 7 of RFC 8259) ----

  predicate IsHighSurrogate(c: CodeUnit) { 0xD800 <= c < 0xDC00 }

  predicate IsLowSurrogate(c: CodeUnit) { 0xDC00 <= c < 0xE000 }

  function HexDigit(d: int): CodeUnit
    requires 0 <= d < 16
  {
    if d < 10 then 48 + d else 87 + d
  }

  function UnicodeEscape(c: CodeUnit): Text {
    [BACKSLASH, LETTER_U, HexDigit(c / 4096), HexDigit(c / 256 % 16), HexDigit(c / 16 % 16), HexDigit(c % 16)]
  }

  /** One code unit that is not part of a surrogate pair. */
  function EscapeUnit(c: CodeUnit): Text {
    if c == QUOTE || c == BACKSLASH then [BACKSLASH, c]
    else if c == 8 then [BACKSLASH, 98]
    else if c == 9 then [BACKSLASH, 116]
    else if c == 10 then [BACKSLASH, 110]
    else if c == 12 then [BACKSLASH, 102]
    else if c == 13 then [BACKSLASH, 114]
    else if c < 0x20 || IsHighSurrogate(c) || IsLowSurrogate(c) then UnicodeEscape(c)
    else [c]
  }

  predicate StartsWithPair(s: Text) {
    |s| >= 2 && IsHighSurrogate(s[0]) && IsLowSurrogate(s[1])
  }

  /** Code units consumed, and text produced, by the first escaping step. */
  function ChunkLength(s: Text): (n: nat)
    requires s != []
    ensures 1 <= n <= |s|
  {
    if StartsWithPair(s) then 2 else 1
  }

  function ChunkText(s: Text): (t: Text)
    requires s != []
    ensures t != []
  {
    if StartsWithPair(s) then s[..2] else EscapeUnit(s[0])
  }

  function Escape(s: Text): Text
    decreases |s|
  {
    if s == [] then [] else ChunkText(s) + Escape(s[ChunkLength(s)..])
  }

  function PrintString(s: Text): Text {
    [QUOTE] + Escape(s) + [QUOTE]
  }

  lemma HexDigitInjective(d: int, e: int)
    requires 0 <= d < 16 && 0 <= e < 16 && HexDigit(d) == HexDigit(e)
    ensures d == e
  {
  }

  lemma HexValue(c: CodeUnit)
    ensures c == 4096 * (c / 4096) + 256 * (c / 256 % 16) + 16 * (c / 16 % 16) + c % 16
  {
    assert c / 16 == 16 * (c / 256) + c / 16 % 16;
    assert c / 256 == 16 * (c / 4096) + c / 256 % 16;
  }

  lemma HexInjective(c: CodeUnit, d: CodeUnit)
    requires UnicodeEscape(c) == UnicodeEscape(d)
    ensures c == d
  {
    HexValue(c);
    HexValue(d);
    var s, t := UnicodeEscape(c), UnicodeEscape(d);
    assert s[2] == t[2] && s[3] == t[3] && s[4] == t[4] && s[5] == t[5];
    HexDigitInjective(c / 4096, d / 4096);
    HexDigitInjective(c / 256 % 16, d / 256 % 16);
    HexDigitInjective(c / 16 % 16, d / 16 % 16);
    HexDigitInjective(c % 16, d % 16);
  }

  /** The first chunk of an escaped text can be read off any continuation. */
  lemma ChunkReadable(a: Text, b: Text, x: Text, y: Text)
    requires a != [] && b != [] && ChunkText(a) + x == ChunkText(b) + y
    ensures ChunkLength(a) == ChunkLength(b) && a[..ChunkLength(a)] == b[..ChunkLength(b)] && x == y
  {
    var s, t := ChunkText(a), ChunkText(b);
    var whole := s + x;
    assert whole[0] == s[0] == t[0];
    assert |s| > 1 ==> whole[1] == s[1];
    assert |t| > 1 ==> whole[1] == t[1];
    if s[0] == BACKSLASH && s[1] == LETTER_U {
      assert whole[..6] == s && whole[..6] == t;
      HexInjective(a[0], b[0]);
    }
    assert |s| == |t|;
    assert x == whole[|s|..] && y == whole[|t|..];
  }

  lemma EscapeHead(s: Text, x: Text)
    ensures (Escape(s) + [QUOTE] + x)[0] == QUOTE <==> s == []
  {
  }

  /** A printed string ends where its closing quote is: what follows is read unchanged. */
  lemma {:induction false} EscapeReadable(a: Text, b: Text, x: Text, y: Text)
    requires Escape(a) + [QUOTE] + x == Escape(b) + [QUOTE] + y
    ensures a == b && x == y
    decreases |a|
  {
    hide ChunkText, ChunkLength;
    var whole := Escape(a) + [QUOTE] + x;
    EscapeHead(a, x);
    EscapeHead(b, y);
    if a == [] {
      assert x == whole[1..] == y;
    } else {
      ChunkStep(a, b, x, y);
      EscapeReadable(a[ChunkLength(a)..], b[ChunkLength(b)..], x, y);
      assert a == a[..ChunkLength(a)] + a[ChunkLength(a)..];
      assert b == b[..ChunkLength(b)] + b[ChunkLength(b)..];
    }
  }

  lemma ChunkStep(a: Text, b: Text, x: Text, y: Text)
    requires a != [] && b != [] && Escape(a) + [QUOTE] + x == Escape(b) + [QUOTE] + y
    ensures ChunkLength(a) == ChunkLength(b) && a[..ChunkLength(a)] == b[..ChunkLength(b)]
    ensures Escape(a[ChunkLength(a)..]) + [QUOTE] + x == Escape(b[ChunkLength(b)..]) + [QUOTE] + y
  {
    hide ChunkText, ChunkLength;
    var x' := Escape(a[ChunkLength(a)..]) + [QUOTE] + x;
    var y' := Escape(b[ChunkLength(b)..]) + [QUOTE] + y;
    assert Escape(a) + [QUOTE] + x == ChunkText(a) + x';
    assert Escape(b) + [QUOTE] + y == ChunkText(b) + y';
    ChunkReadable(a, b, x', y');
  }

  lemma StringReadable(a: Text, b: Text, x: Text, y: Text)
    requires PrintString(a) + x == PrintString(b) + y
    ensures a == b && x == y
  {
    hide Escape;
    assert (PrintString(a) + x)[1..] == Escape(a) + [QUOTE] + x;
    assert (PrintString(b) + y)[1..] == Escape(b) + [QUOTE] + y;
    EscapeReadable(a, b, x, y);
  }

  // ---- integers ----

  predicate IsDigit(c: CodeUnit) { 48 <= c <= 57 }

  /** A continuation that does not extend a number. */
  predicate EndsNumber(x: Text) {
    x == [] || !IsDigit(x[0])
  }

  function PrintNat(n: nat): Text {
    if n < 10 then [48 + n] else PrintNat(n / 10) + [48 + n % 10]
  }

  function PrintInt(n: int): Text {
    if n < 0 then [MINUS] + PrintNat(-n) else PrintNat(n)
  }

  function NatOf(digits: Text): int {
    if digits == [] then 0 else NatOf(digits[..|digits| - 1]) * 10 + digits[|digits| - 1] - 48
  }

  lemma {:induction false} PrintNatDigits(n: nat)
    ensures PrintNat(n) != [] && forall i :: 0 <= i < |PrintNat(n)| ==> IsDigit(PrintNat(n)[i])
    ensures NatOf(PrintNat(n)) == n
  {
    if n >= 10 {
      PrintNatDigits(n / 10);
      assert PrintNat(n)[..|PrintNat(n)| - 1] == PrintNat(n / 10);
    } else {
      assert PrintNat(n)[..0] == [];
    }
  }

  lemma NatReadable(m: nat, n: nat, x: Text, y: Text)
    requires PrintNat(m) + x == PrintNat(n) + y && EndsNumber(x) && EndsNumber(y)
    ensures m == n && x == y
  {
    PrintNatDigits(m);
    PrintNatDigits(n);
    DigitsReadable(PrintNat(m), PrintNat(n), x, y);
  }

  lemma DigitsReadable(p: Text, q: Text, x: Text, y: Text)
    requires p + x == q + y && EndsNumber(x) && EndsNumber(y)
    requires (forall i :: 0 <= i < |p| ==> IsDigit(p[i])) && (forall i :: 0 <= i < |q| ==> IsDigit(q[i]))
    ensures p == q && x == y
  {
    var whole := p + x;
    assert |p| < |whole| ==> whole[|p|] == x[0];
    assert |q| < |whole| ==> whole[|q|] == y[0];
    assert forall i :: 0 <= i < |p| ==> whole[i] == p[i];
    assert forall i :: 0 <= i < |q| ==> whole[i] == q[i];
    assert |p| == |q|;
    assert p == whole[..|p|] && q == whole[..|q|];
    assert x == whole[|p|..] && y == whole[|q|..];
  }

  lemma IntReadable(m: int, n: int, x: Text, y: Text)
    requires PrintInt(m) + x == PrintInt(n) + y && EndsNumber(x) && EndsNumber(y)
    ensures m == n && x == y
  {
    hide PrintInt;
    SignReadable(m, x);
    SignReadable(n, y);
    if m < 0 {
      NatReadable(-m, -n, x, y);
    } else {
      NatReadable(m, n, x, y);
    }
  }

  lemma SignReadable(m: int, x: Text)
    ensures PrintInt(m) != [] && (PrintInt(m)[0] == MINUS || IsDigit(PrintInt(m)[0]))
    ensures (PrintInt(m) + x)[0] == MINUS <==> m < 0
    ensures if m < 0 then (PrintInt(m) + x)[1..] == PrintNat(-m) + x else PrintInt(m) == PrintNat(m)
  {
    hide PrintNat;
    PrintNatHead(if m < 0 then -m else m);
    if m < 0 {
      assert ([MINUS] + PrintNat(-m) + x)[1..] == PrintNat(-m) + x;
    } else {
      assert (PrintNat(m) + x)[0] == PrintNat(m)[0];
    }
  }

  lemma PrintNatHead(n: nat)
    ensures PrintNat(n) != [] && IsDigit(PrintNat(n)[0])
  {
  }

  // ---- key order: by UTF-16 code units ----

  predicate Less(a: Text, b: Text) {
    b != [] && (a == [] || a[0] < b[0] || (a[0] == b[0] && Less(a[1..], b[1..])))
  }

  lemma {:induction false} LessTransitive(a: Text, b: Text, c: Text)
    requires Less(a, b) && Less(b, c)
    ensures Less(a, c)
  {
    if a != [] && a[0] == b[0] == c[0] {
      LessTransitive(a[1..], b[1..], c[1..]);
    }
  }

  lemma {:induction false} LessTrichotomy(a: Text, b: Text)
    ensures !Less(a, a)
    ensures a == b || Less(a, b) || Less(b, a)
    ensures !(Less(a, b) && Less(b, a))
  {
    if a != [] {
      LessTrichotomy(a[1..], if b == [] then [] else b[1..]);
      if b != [] && a[0] == b[0] && a[1..] == b[1..] {
        assert a == [a[0]] + a[1..] == b;
      }
    }
  }

  /** Strictly increasing, so free of duplicates. */
  ghost predicate Increasing(keys: seq<Text>) {
    forall i, j :: 0 <= i < j < |keys| ==> Less(keys[i], keys[j])
  }

  predicate Distinct(keys: seq<Text>) {
    forall i, j :: 0 <= i < j < |keys| ==> keys[i] != keys[j]
  }

  function InsertKey(key: Text, keys: seq<Text>): seq<Text> {
    if keys == [] then [key]
    else if Less(keys[0], key) then [keys[0]] + InsertKey(key, keys[1..])
    else [key] + keys
  }

  function SortKeys(keys: seq<Text>): seq<Text> {
    if keys == [] then [] else InsertKey(keys[0], SortKeys(keys[1..]))
  }

  lemma {:induction false} InsertKeyMembers(key: Text, keys: seq<Text>, k: Text)
    ensures k in InsertKey(key, keys) <==> k == key || k in keys
  {
    if keys != [] && Less(keys[0], key) {
      InsertKeyMembers(key, keys[1..], k);
      assert keys == [keys[0]] + keys[1..];
    }
  }

  lemma {:induction false} InsertKeyIncreasing(key: Text, keys: seq<Text>)
    requires Increasing(keys) && key !in keys
    ensures Increasing(InsertKey(key, keys))
  {
    if keys != [] {
      LessTrichotomy(keys[0], key);
      if Less(keys[0], key) {
        InsertKeyIncreasing(key, keys[1..]);
        var rest := InsertKey(key, keys[1..]);
        forall j | 0 <= j < |rest| ensures Less(keys[0], rest[j]) {
          InsertKeyMembers(key, keys[1..], rest[j]);
        }
      } else {
        forall j | 0 <= j < |keys| ensures Less(key, keys[j]) {
          if j > 0 {
            LessTransitive(key, keys[0], keys[j]);
          }
        }
      }
    }
  }

  lemma {:induction false} SortKeysMembers(keys: seq<Text>, k: Text)
    ensures k in SortKeys(keys) <==> k in keys
  {
    if keys != [] {
      SortKeysMembers(keys[1..], k);
      InsertKeyMembers(keys[0], SortKeys(keys[1..]), k);
      assert keys == [keys[0]] + keys[1..];
    }
  }

  /** Sorting distinct keys puts them in increasing order. */
  lemma {:induction false} SortKeysSorts(keys: seq<Text>)
    requires Distinct(keys)
    ensures Increasing(SortKeys(keys))
  {
    if keys != [] {
      SortKeysSorts(keys[1..]);
      assert keys == [keys[0]] + keys[1..];
      SortKeysMembers(keys[1..], keys[0]);
      InsertKeyIncreasing(keys[0], SortKeys(keys[1..]));
    }
  }

  /** Only one increasing sequence has a given set of members. */
  lemma {:induction false} IncreasingUnique(a: seq<Text>, b: seq<Text>)
    requires Increasing(a) && Increasing(b) && forall k :: k in a <==> k in b
    ensures a == b
  {
    assert b != [] ==> b[0] in b;
    if a != [] {
      assert a[0] in b;
      assert b[0] in a;
      var i :| 0 <= i < |b| && b[i] == a[0];
      var j :| 0 <= j < |a| && a[j] == b[0];
      LessTrichotomy(a[0], b[0]);
      assert a[0] == b[0];
      forall k ensures k in a[1..] <==> k in b[1..] {
        TailMembers(a, k);
        TailMembers(b, k);
      }
      IncreasingUnique(a[1..], b[1..]);
    }
  }

  lemma TailMembers(keys: seq<Text>, k: Text)
    requires Increasing(keys) && keys != []
    ensures k in keys[1..] <==> k in keys && k != keys[0]
  {
    LessTrichotomy(k, keys[0]);
    assert keys == [keys[0]] + keys[1..];
  }

  /** One text comes before another exactly when it is a proper prefix of it, or is smaller at the
      first code unit in which they differ. */
  ghost predicate BeforeAt(a: Text, b: Text, p: nat) {
    p <= |a| && p < |b| && a[..p] == b[..p] && (p == |a| || a[p] < b[p])
  }

  lemma {:induction false} LessExactlyWhen(a: Text, b: Text)
    ensures Less(a, b) <==> exists p: nat :: BeforeAt(a, b, p)
  {
    if a != [] && b != [] && a[0] == b[0] {
      LessExactlyWhen(a[1..], b[1..]);
      if p: nat :| BeforeAt(a[1..], b[1..], p) {
        assert a[..p + 1] == [a[0]] + a[1..][..p] && b[..p + 1] == [b[0]] + b[1..][..p];
        assert BeforeAt(a, b, p + 1);
      }
      if p: nat :| BeforeAt(a, b, p) {
        assert p > 0 && a[1..][..p - 1] == a[..p][1..] && b[1..][..p - 1] == b[..p][1..];
        assert BeforeAt(a[1..], b[1..], p - 1);
      }
    } else {
      if Less(a, b) {
        assert BeforeAt(a, b, 0);
      }
      if p: nat :| BeforeAt(a, b, p) {
        assert p > 0 ==> a[..p][0] == b[..p][0];
      }
    }
  }

  // ---- the escapes, to the letter ----

  /** The code units of an ASCII text. */
  function Ascii(s: string): Text {
    seq(|s|, i requires 0 <= i < |s| => if s[i] as int < 128 then s[i] as int else 63)
  }

  /** Control characters with a short escape of their own, and the two that must be escaped. */
  const SHORT_ESCAPES: map<int, char> :=
    map[8 := 'b', 9 := 't', 10 := 'n', 12 := 'f', 13 := 'r', 34 := '"', 92 := '\\']

  const LOWER_HEX: string := "0123456789abcdef"

  /** Escaping is exactly that of QuoteJSONString (section 25.5.2.3 of ECMA-262): the short escapes,
      four lower-case hexadecimal digits for other control characters and lone surrogates, and
      nothing else. */
  lemma EscapesExactly(c: CodeUnit)
    ensures c in SHORT_ESCAPES ==> EscapeUnit(c) == [92, SHORT_ESCAPES[c] as int]
    ensures c !in SHORT_ESCAPES && (c < 32 || 0xD800 <= c <= 0xDFFF) ==>
              EscapeUnit(c) == [92, 117, LOWER_HEX[c / 4096] as int, LOWER_HEX[c / 256 % 16] as int,
                                LOWER_HEX[c / 16 % 16] as int, LOWER_HEX[c % 16] as int]
    ensures c !in SHORT_ESCAPES && 32 <= c && !(0xD800 <= c <= 0xDFFF) ==> EscapeUnit(c) == [c]
  {
    hide HexDigit;
    LowerHexDigits(c / 4096);
    LowerHexDigits(c / 256 % 16);
    LowerHexDigits(c / 16 % 16);
    LowerHexDigits(c % 16);
  }

  lemma LowerHexDigits(d: int)
    requires 0 <= d < 16
    ensures HexDigit(d) == LOWER_HEX[d] as int
  {
  }

  /** A surrogate pair is copied; any other code unit is escaped by itself. */
  lemma EscapeUnfolds(c: CodeUnit, s: Text)
    ensures s != [] && 0xD800 <= c <= 0xDBFF && 0xDC00 <= s[0] <= 0xDFFF ==>
              Escape([c] + s) == [c, s[0]] + Escape(s[1..])
    ensures s == [] || !(0xD800 <= c <= 0xDBFF && 0xDC00 <= s[0] <= 0xDFFF) ==>
              Escape([c] + s) == EscapeUnit(c) + Escape(s)
  {
    hide EscapeUnit;
    var t := [c] + s;
    assert t[1..] == s;
    if s != [] {
      assert t[..2] == [c, s[0]] && t[2..] == s[1..];
    }
  }
}
