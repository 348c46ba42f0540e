/** The C library's text operations that the programs build their messages with: `strchr`,
    `strstr`, `strncmp` against a fixed prefix, `%d`, `atoi` and the `%ld` of `sscanf`. A byte is
    a character; a C string is the text before its terminating NUL. */
module Text {
  import opened Options

  /** `strchr`: where `c` first occurs, or the length of `s`. */
  function IndexOf(s: string, c: char): (i: nat)
    ensures i <= |s| && c !in s[..i] && (i < |s| ==> s[i] == c)
  {
    if s == "" || s[0] == c then 0
    else
      var i := IndexOf(s[1..], c);
      assert s[..i + 1] == [s[0]] + s[1..][..i];
      i + 1
  }

  lemma {:induction false} IndexOfSplit(s: string, c: char, rest: string)
    requires c !in s
    ensures IndexOf(s + [c] + rest, c) == |s|
    ensures IndexOf(s, c) == |s|
  {
    var t := s + [c] + rest;
    assert t[|s|] == c;
    assert forall k :: 0 <= k < |s| ==> t[k] == s[k];
  }

  /** The text before the first NUL. */
  function CString(buffer: string): (s: string)
    ensures '\0' !in s
  {
    buffer[..IndexOf(buffer, '\0')]
  }

  predicate StartsWith(s: string, prefix: string) {
    prefix <= s
  }

  ghost predicate Contains(s: string, pattern: string) {
    exists k :: 0 <= k <= |s| && StartsWith(s[k..], pattern)
  }

  /** `strstr`: where `pattern` first occurs, or None. */
  function Find(s: string, pattern: string): (at: Option<nat>)
    ensures at.Some? ==> at.value <= |s| && StartsWith(s[at.value..], pattern)
    ensures at.Some? ==> forall k :: 0 <= k < at.value ==> !StartsWith(s[k..], pattern)
    ensures at.None? ==> !Contains(s, pattern)
  {
    if StartsWith(s, pattern) then assert s[0..] == s; Some(0)
    else if s == "" then None
    else
      var at := Find(s[1..], pattern);
      assert s[0..] == s;
      assert forall k :: 1 <= k <= |s| ==> s[k..] == s[1..][k - 1..];
      if at.None? then None else Some(at.value + 1)
  }

  // ---------- numbers ----------

  predicate IsDigit(c: char) {
    '0' <= c <= '9'
  }

  function Digit(d: nat): (c: char)
    requires d < 10
    ensures IsDigit(c) && DigitValue(c) == d
  {
    ('0' as int + d) as char
  }

  function DigitValue(c: char): nat
    requires IsDigit(c)
  {
    c as int - '0' as int
  }

  /** `%d` of a number that is not negative. */
  function Decimal(n: nat): (s: string)
    ensures s != "" && forall k :: 0 <= k < |s| ==> IsDigit(s[k])
  {
    if n < 10 then [Digit(n)] else Decimal(n / 10) + [Digit(n % 10)]
  }

  /** `%d`. */
  function FormatInt(n: int): string {
    if n < 0 then "-" + Decimal(-n) else Decimal(n)
  }

  /** The number that the leading digits of `s` continue. */
  function Digits(value: nat, s: string): nat
    decreases |s|
  {
    if s == "" || !IsDigit(s[0]) then value else Digits(10 * value + DigitValue(s[0]), s[1..])
  }

  predicate IsSpace(c: char) {
    c == ' ' || '\t' <= c <= '\r'
  }

  function SkipSpaces(s: string): string {
    if s != "" && IsSpace(s[0]) then SkipSpaces(s[1..]) else s
  }

  /** `%ld` of `sscanf`: spaces, a sign, digits; None when there is no digit. */
  function ScanInt(s: string): Option<int> {
    var t := SkipSpaces(s);
    var negative := t != "" && t[0] == '-';
    var u := if t != "" && (t[0] == '-' || t[0] == '+') then t[1..] else t;
    if u == "" || !IsDigit(u[0]) then None
    else
      var n: int := Digits(0, u);
      Some(if negative then -n else n)
  }

  /** `atoi`. */
  function Atoi(s: string): int {
    var n := ScanInt(s);
    if n.None? then 0 else n.value
  }

  lemma {:induction false} DigitsAppend(value: nat, s: string, t: string)
    requires forall k :: 0 <= k < |s| ==> IsDigit(s[k])
    ensures Digits(value, s + t) == Digits(Digits(value, s), t)
    decreases |s|
  {
    if s == "" {
      assert s + t == t;
    } else {
      assert (s + t)[1..] == s[1..] + t;
      DigitsAppend(10 * value + DigitValue(s[0]), s[1..], t);
    }
  }

  /** Reading back a printed number, up to what follows it. */
  lemma {:induction false} DigitsOfDecimal(n: nat, rest: string)
    requires rest == "" || !IsDigit(rest[0])
    ensures Digits(0, Decimal(n) + rest) == n
    decreases n, 1
  {
    DecimalValue(n);
    DigitsAppend(0, Decimal(n), rest);
  }

  lemma {:induction false} DecimalValue(n: nat)
    ensures Digits(0, Decimal(n)) == n
    decreases n, 0
  {
    if n >= 10 {
      var last := [Digit(n % 10)];
      DecimalValue(n / 10);
      DigitsAppend(0, Decimal(n / 10), last);
      assert Digits(n / 10, last) == 10 * (n / 10) + n % 10;
    }
  }

  /** `%d` then `atoi` or `%ld` is the identity, whatever text follows the number. */
  lemma {:induction false} ScanFormatted(n: int, rest: string)
    requires rest == "" || !IsDigit(rest[0])
    ensures ScanInt(FormatInt(n) + rest) == Some(n) && Atoi(FormatInt(n) + rest) == n
  {
    var digits := Decimal(if n < 0 then -n else n);
    var t := FormatInt(n) + rest;
    DigitsOfDecimal(if n < 0 then -n else n, rest);
    assert SkipSpaces(t) == t;
    if n < 0 {
      assert t[1..] == digits + rest;
    } else {
      assert t[0] == digits[0];
    }
  }

  function Pow10(k: nat): nat {
    if k == 0 then 1 else 10 * Pow10(k - 1)
  }

  /** A number below 10^k has at most k digits. */
  lemma {:induction false} DecimalLength(n: nat, k: nat)
    requires k > 0 && n < Pow10(k)
    ensures |Decimal(n)| <= k
  {
    if n >= 10 {
      DecimalLength(n / 10, k - 1);
    }
  }

  /** An `int` takes at most eleven characters. */
  lemma {:induction false} IntLength(n: int)
    requires -0x8000_0000 <= n < 0x8000_0000
    ensures |FormatInt(n)| <= 11
  {
    assert Pow10(5) == 100_000;
    assert Pow10(10) == 10_000_000_000;
    DecimalLength(if n < 0 then -n else n, 10);
  }

  /** Reading a number skips blanks and takes a sign. */
  lemma {:induction false} ScanSkips(blanks: string, sign: string, n: nat, rest: string)
    requires forall k :: 0 <= k < |blanks| ==> blanks[k] == ' ' || 9 <= blanks[k] as int <= 13
    requires sign == "" || sign == "+" || sign == "-"
    requires rest == "" || !IsDigit(rest[0])
    ensures ScanInt(blanks + (sign + (Decimal(n) + rest))).Some?
    ensures ScanInt(blanks + (sign + (Decimal(n) + rest))).value == if sign == "-" then 0 - n else n
  {
    var number := Decimal(n) + rest;
    SkipBlanks(blanks, sign + number);
    DigitsOfDecimal(n, rest);
    if sign == "" {
      assert sign + number == number;
    } else {
      assert (sign + number)[1..] == number;
    }
  }

  /** Text that starts with neither a blank nor a sign nor a digit is no number, and `atoi` makes 0
      of it. */
  lemma {:induction false} NoNumber(s: string)
    requires s == "" || !(s[0] == ' ' || 9 <= s[0] as int <= 13 || s[0] == '+' || s[0] == '-' || '0' <= s[0] <= '9')
    ensures ScanInt(s).None? && Atoi(s) == 0
  {
  }

  lemma {:induction false} SkipBlanks(blanks: string, s: string)
    requires forall k :: 0 <= k < |blanks| ==> blanks[k] == ' ' || 9 <= blanks[k] as int <= 13
    ensures SkipSpaces(blanks + s) == SkipSpaces(s)
  {
    if blanks == "" {
      assert blanks + s == s;
    } else {
      assert (blanks + s)[1..] == blanks[1..] + s;
      SkipBlanks(blanks[1..], s);
    }
  }
}
