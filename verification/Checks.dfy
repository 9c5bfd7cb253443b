/** Shape checks on the strings and numbers that cross the services' boundaries. */
module Checks {
  const MAX_SAFE_INTEGER: int := 9_007_199_254_740_991

  predicate IsTimestamp(t: int) {
    0 < t <= MAX_SAFE_INTEGER
  }

  predicate IsHexDigit(c: char) {
    '0' <= c <= '9' || 'a' <= c <= 'f' || 'A' <= c <= 'F'
  }

  /** 0x followed by `digits` hexadecimal digits. */
  predicate IsHexOf(s: string, digits: nat) {
    |s| == digits + 2 && s[..2] == "0x" && forall i :: 2 <= i < |s| ==> IsHexDigit(s[i])
  }

  predicate IsAddress(s: string) { IsHexOf(s, 40) }

  predicate IsBytes32(s: string) { IsHexOf(s, 64) }

  function LowerChar(c: char): char {
    if 'A' <= c <= 'Z' then c - 'A' + 'a' else c
  }

  /** Hexadecimal strings are compared ignoring case. */
  function Lower(s: string): string {
    seq(|s|, i requires 0 <= i < |s| => LowerChar(s[i]))
  }

  /** ASCII white space only, as an identifier that trims to nothing. */
  predicate IsBlank(s: string) {
    forall i :: 0 <= i < |s| ==> s[i] == ' ' || '\t' <= s[i] <= '\r'
  }

  /** A canonical decimal string of a positive integer. */
  predicate IsPositiveDecimal(s: string) {
    |s| > 0 && '1' <= s[0] <= '9' && forall i :: 0 <= i < |s| ==> '0' <= s[i] <= '9'
  }

  /** The integer a decimal string denotes. */
  function DecimalValue(s: string): int {
    if s == "" then 0 else DecimalValue(s[..|s| - 1]) * 10 + (s[|s| - 1] as int - '0' as int)
  }

  /** 0x and a number of equal hexadecimal digits. */
  function Hex(digit: char, digits: nat): string {
    "0x" + seq(digits, _ => digit)
  }

  lemma HexIsHex(digit: char, digits: nat)
    requires IsHexDigit(digit)
    ensures IsHexOf(Hex(digit, digits), digits) && Lower(Hex(digit, digits)) == Hex(LowerChar(digit), digits)
  {
    assert Hex(digit, digits)[..2] == "0x";
  }

  /** An address is 0x and forty hexadecimal digits of either case, a 32-byte value sixty-four. */
  lemma HexShapes(s: string)
    ensures IsAddress(s) <==>
              && |s| == 42 && s[0] == '0' && s[1] == 'x'
              && forall i :: 2 <= i < 42 ==> s[i] in "0123456789abcdefABCDEF"
    ensures IsBytes32(s) <==>
              && |s| == 66 && s[0] == '0' && s[1] == 'x'
              && forall i :: 2 <= i < 66 ==> s[i] in "0123456789abcdefABCDEF"
  {
    forall c: char ensures IsHexDigit(c) <==> c in "0123456789abcdefABCDEF" {
      HexDigitsExactly(c);
    }
    assert |s| >= 2 ==> (s[..2] == "0x" <==> s[0] == '0' && s[1] == 'x');
  }

  lemma HexDigitsExactly(c: char)
    ensures IsHexDigit(c) <==> c in "0123456789abcdefABCDEF"
  {
    var all := "0123456789abcdefABCDEF";
    if IsHexDigit(c) {
      var i := if c <= '9' then c as int - 48 else if c <= 'F' then c as int - 65 + 16 else c as int - 97 + 10;
      assert all[i] == c;
    }
  }

  /** Timestamps are the positive integers that a double holds exactly. */
  lemma TimestampsExactly(t: int)
    ensures IsTimestamp(t) <==> 1 <= t < 0x20_0000_0000_0000
  {
  }

  /** Lower case tells two texts apart exactly when they differ in more than letter case. */
  lemma LowerIgnoresCase(s: string, t: string)
    ensures Lower(s) == Lower(t) <==> SameText(s, t)
  {
    if Lower(s) == Lower(t) {
      assert |Lower(s)| == |s| && |Lower(t)| == |t|;
      forall i | 0 <= i < |s| ensures SameLetter(s[i], t[i]) {
        assert Lower(s)[i] == Lower(t)[i];
      }
    }
  }

  /** Two texts are equal in any letter case: letter by letter, they are the same or the two cases of
      one ASCII letter. */
  predicate SameText(s: string, t: string) {
    |s| == |t| && forall i :: 0 <= i < |s| ==> SameLetter(s[i], t[i])
  }

  predicate SameLetter(c: char, d: char) {
    || c == d
    || ('A' <= c <= 'Z' && d as int == c as int + 32)
    || ('A' <= d <= 'Z' && c as int == d as int + 32)
  }

  /** Blank texts hold nothing but tabs, line breaks, form feeds and spaces. */
  lemma BlankExactly(s: string)
    ensures IsBlank(s) <==> forall c :: c in s ==> c as int in {9, 10, 11, 12, 13, 32}
  {
    if IsBlank(s) {
      forall c | c in s ensures c as int in {9, 10, 11, 12, 13, 32} {
        var i :| 0 <= i < |s| && s[i] == c;
      }
    }
    if forall c :: c in s ==> c as int in {9, 10, 11, 12, 13, 32} {
      forall i | 0 <= i < |s| ensures s[i] == ' ' || '\t' <= s[i] <= '\r' {
        assert s[i] in s && s[i] as int in {9, 10, 11, 12, 13, 32};
      }
    }
  }

  // ---- decimal notation ----

  /** A positive integer in decimal notation. */
  function Decimal(n: nat): string
    requires n > 0
  {
    var last := [('0' as int + n % 10) as char];
    if n < 10 then last else Decimal(n / 10) + last
  }

  /** Decimal notation denotes what was written. */
  lemma {:induction false} DecimalDenotes(n: nat)
    requires n > 0
    ensures IsPositiveDecimal(Decimal(n)) && DecimalValue(Decimal(n)) == n
  {
    var s := Decimal(n);
    if n >= 10 {
      DecimalDenotes(n / 10);
      assert s[..|s| - 1] == Decimal(n / 10);
    } else {
      assert s[..|s| - 1] == "";
    }
  }

  /** Every text that passes the check is the decimal notation of what it denotes. */
  lemma {:induction false} DecimalsAreWritten(s: string)
    requires IsPositiveDecimal(s)
    ensures DecimalValue(s) > 0 && Decimal(DecimalValue(s)) == s
    decreases |s|
  {
    var front := s[..|s| - 1];
    var digit := s[|s| - 1] as int - '0' as int;
    assert s == front + [s[|s| - 1]];
    if |s| == 1 {
      assert front == "" && DecimalValue(front) == 0;
    } else {
      DecimalsAreWritten(front);
      var m := DecimalValue(front);
      assert (m * 10 + digit) / 10 == m && (m * 10 + digit) % 10 == digit;
    }
  }

  /** The positive integer that a text is the decimal notation of. */
  ghost function WrittenNumber(s: string): (n: nat)
    requires IsPositiveDecimal(s)
    ensures n > 0 && Decimal(n) == s
  {
    DecimalsAreWritten(s);
    var n: nat :| n > 0 && Decimal(n) == s;
    n
  }

  lemma ValueIsWrittenNumber(s: string)
    requires IsPositiveDecimal(s)
    ensures DecimalValue(s) == WrittenNumber(s)
  {
    DecimalDenotes(WrittenNumber(s));
  }
}
