/** The C library text functions the reply parser relies on (strchr apart, which
    is a loop in GetLine): tolower, isspace, strncasecmp, strcasecmp, strtoul and
    the `%u` conversion of sscanf.  A C buffer is a `string`, one char per byte. */
module CString {
  import opened Shared

  const NUL: char := '\0'
  const LF: char := '\n'
  const CR: char := '\r'
  /** ULONG_MAX, which is also the "infinite" content length ~(size_t) 0. */
  const MAX_ULONG: nat := 0xffff_ffff_ffff_ffff

  /** Conversion to unsigned int, and to unsigned long or size_t. */
  function ToUint(n: int): nat {
    if 0 <= n < 0x1_0000_0000 then n else n % 0x1_0000_0000
  }

  function ToUlong(n: int): nat {
    if 0 <= n <= MAX_ULONG then n else n % 0x1_0000_0000_0000_0000
  }

  function ToLower(c: char): char {
    if 'A' <= c <= 'Z' then c - 'A' + 'a' else c
  }

  predicate IsSpace(c: char) {
    c == ' ' || '\t' <= c <= '\r'
  }

  /** What C sees of a buffer: everything before the first NUL. */
  function UpToNul(s: string): string {
    if s == "" || s[0] == NUL then "" else [s[0]] + UpToNul(s[1..])
  }

  /** strncasecmp (s, word, strlen (word)) == 0, for a lower-case word. */
  predicate StartsWithNoCase(s: string, word: string) {
    |word| <= |s| && forall i :: 0 <= i < |word| ==> ToLower(s[i]) == word[i]
  }

  /** strcasecmp (s, word) == 0, for a lower-case word. */
  predicate EqualsNoCase(s: string, word: string) {
    |UpToNul(s)| == |word| && StartsWithNoCase(UpToNul(s), word)
  }

  function SkipSpaces(s: string): string {
    if s != "" && IsSpace(s[0]) then SkipSpaces(s[1..]) else s
  }

  /** The value of a digit in any base up to 36; 36 when c is no digit. */
  function DigitValue(c: char): nat {
    if '0' <= c <= '9' then (c - '0') as nat
    else if 'a' <= c <= 'z' then (c - 'a') as nat + 10
    else if 'A' <= c <= 'Z' then (c - 'A') as nat + 10
    else 36
  }

  function LeadingDigits(s: string, base: nat): (k: nat)
    ensures k <= |s|
    ensures forall i :: 0 <= i < k ==> DigitValue(s[i]) < base
    ensures k < |s| ==> DigitValue(s[k]) >= base
  {
    if s != "" && DigitValue(s[0]) < base then 1 + LeadingDigits(s[1..], base) else 0
  }

  function ValueOf(digits: string, base: nat): nat
    requires base == 10 || base == 16
  {
    if digits == "" then 0
    else
      var high := ValueOf(digits[..|digits| - 1], base);
      (if base == 10 then 10 * high else 16 * high) + DigitValue(digits[|digits| - 1])
  }

  /** The result of a strtoul call: its value, whether `end` moved past a digit,
      whether errno became ERANGE, and the text left at `end`. */
  datatype Number = Number(value: nat, hasDigits: bool, outOfRange: bool, rest: string)

  /** The text after a 0x prefix, which strtoul skips in base 16. */
  function AfterHexPrefix(s: string): string {
    if |s| > 2 && s[0] == '0' && ToLower(s[1]) == 'x' && DigitValue(s[2]) < 16 then s[2..] else s
  }

  function Strtoul(s: string, base: nat): (n: Number)
    requires base == 10 || base == 16
    ensures n.value <= MAX_ULONG
  {
    var n := Signed(SkipSpaces(s), base);
    if n.hasDigits then n else n.(rest := s)
  }

  /** The number with its sign, white space being skipped; a negative one wraps. */
  function Signed(t: string, base: nat): (n: Number)
    requires base == 10 || base == 16
    ensures n.value <= MAX_ULONG
  {
    var signed := t != "" && (t[0] == '-' || t[0] == '+');
    var u := if signed then t[1..] else t;
    var n := Magnitude(if base == 16 then AfterHexPrefix(u) else u, base);
    if signed && t[0] == '-' && n.hasDigits && !n.outOfRange && n.value != 0
    then n.(value := MAX_ULONG + 1 - n.value) else n
  }

  function Magnitude(s: string, base: nat): (n: Number)
    requires base == 10 || base == 16
    ensures n.value <= MAX_ULONG
  {
    var k := LeadingDigits(s, base);
    var value := ValueOf(s[..k], base);
    if value > MAX_ULONG then Number(MAX_ULONG, k > 0, true, s[k..])
    else Number(value, k > 0, false, s[k..])
  }

  function Decimal(s: string): Number {
    Strtoul(s, 10)
  }

  function Hexadecimal(s: string): Number {
    Strtoul(s, 16)
  }

  /** What a reader makes of a text.  Those who ask this way depend on the reader's
      result only, so that how it reads stays out of the proofs about them. */
  function Read<T>(reader: string -> T, s: string): T {
    reader(s)
  }

  datatype StatusLine = StatusLine(major: nat, minor: nat, status: nat)

  /** sscanf (line, "HTTP/%u.%u %u ", &major, &minor, &status) == 3. */
  function ScanStatusLine(line: string): Option<StatusLine> {
    if |line| >= 5 && line[..5] == "HTTP/" then ScanMajor(line[5..]) else None
  }

  function ScanMajor(s: string): Option<StatusLine> {
    var major := Read(Decimal, s);
    if major.hasDigits && major.rest != "" && major.rest[0] == '.'
    then ScanMinor(major.value, major.rest[1..]) else None
  }

  function ScanMinor(major: nat, s: string): Option<StatusLine> {
    var minor := Read(Decimal, s);
    if minor.hasDigits then ScanNumber(major, minor.value, minor.rest) else None
  }

  function ScanNumber(major: nat, minor: nat, s: string): Option<StatusLine> {
    var status := Read(Decimal, SkipSpaces(s));
    if status.hasDigits then Some(StatusLine(ToUint(major), ToUint(minor), ToUint(status.value))) else None
  }

  lemma MajorScanned(s: string, major: nat, rest: string)
    requires Read(Decimal, s) == Number(major, true, false, "." + rest)
    ensures ScanMajor(s) == ScanMinor(major, rest)
  {
    assert ("." + rest)[1..] == rest;
  }

  lemma MinorScanned(major: nat, s: string, minor: nat, rest: string)
    requires Read(Decimal, s) == Number(minor, true, false, rest)
    ensures ScanMinor(major, s) == ScanNumber(major, minor, rest)
  {
  }

  lemma NumberScanned(major: nat, minor: nat, s: string, status: nat, rest: string)
    requires Read(Decimal, SkipSpaces(s)) == Number(status, true, false, rest)
    ensures ScanNumber(major, minor, s) == Some(StatusLine(ToUint(major), ToUint(minor), ToUint(status)))
  {
  }

  // ---- reading written numbers back ----

  /** Any way of writing a number in this base, leading zeros included. */
  predicate Numeral(s: string, base: nat) {
    s != "" && forall i :: 0 <= i < |s| ==> DigitValue(s[i]) < base
  }

  lemma {:induction false} LeadingDigitsOfConcat(s: string, rest: string, base: nat)
    requires forall i :: 0 <= i < |s| ==> DigitValue(s[i]) < base
    requires rest == "" || DigitValue(rest[0]) >= base
    ensures LeadingDigits(s + rest, base) == |s|
  {
    if s == "" {
      assert s + rest == rest;
    } else {
      assert (s + rest)[1..] == s[1..] + rest;
      LeadingDigitsOfConcat(s[1..], rest, base);
    }
  }

  /** The number a numeral stands for: the largest one, with ERANGE, if that is too large. */
  function NumberOf(value: nat, rest: string): Number {
    if value > MAX_ULONG then Number(MAX_ULONG, true, true, rest) else Number(value, true, false, rest)
  }

  lemma MagnitudeOfNumeral(s: string, base: nat, rest: string)
    requires base == 10 || base == 16
    requires Numeral(s, base) && (rest == "" || DigitValue(rest[0]) >= base)
    ensures Magnitude(s + rest, base) == NumberOf(ValueOf(s, base), rest)
  {
    LeadingDigitsOfConcat(s, rest, base);
    assert (s + rest)[..|s|] == s && (s + rest)[|s|..] == rest;
  }

  lemma PlainDigit(c: char, base: nat)
    requires base <= 16 && DigitValue(c) < base
    ensures c != '-' && c != '+' && !IsSpace(c) && ToLower(c) != 'x'
  {
  }

  lemma NumeralStart(s: string, base: nat, rest: string)
    requires base <= 16 && Numeral(s, base)
    requires rest == "" || ToLower(rest[0]) != 'x'
    ensures SkipSpaces(s + rest) == s + rest
    ensures (s + rest)[0] != '-' && (s + rest)[0] != '+'
    ensures AfterHexPrefix(s + rest) == s + rest
  {
    var text := s + rest;
    PlainDigit(s[0], base);
    assert text[0] == s[0];
    if |s| > 1 {
      PlainDigit(s[1], base);
      assert text[1] == s[1];
    }
  }

  /** strtoul reads a numeral's value and stops where its digits stop. */
  lemma StrtoulOfNumeral(s: string, base: nat, rest: string)
    requires base == 10 || base == 16
    requires Numeral(s, base) && (rest == "" || (DigitValue(rest[0]) >= base && ToLower(rest[0]) != 'x'))
    ensures Strtoul(s + rest, base) == NumberOf(ValueOf(s, base), rest)
  {
    var text := s + rest;
    var n := Magnitude(text, base);
    NumeralStart(s, base, rest);
    MagnitudeOfNumeral(s, base, rest);
    assert Strtoul(text, base) == n;
  }

  /** White space in front does not change the value read. */
  lemma SameBehindBlanks(s: string, t: string, base: nat)
    requires (base == 10 || base == 16) && SkipSpaces(s) == SkipSpaces(t)
    ensures Strtoul(s, base).value == Strtoul(t, base).value
  {
  }

  function Digit(d: nat): (c: char)
    requires d < 16
    ensures DigitValue(c) == d
  {
    if d < 10 then '0' + d as char else 'a' + (d - 10) as char
  }

  /** Every number has a numeral in either base. */
  lemma {:induction false} NumeralOf(n: nat, base: nat) returns (s: string)
    requires base == 10 || base == 16
    ensures Numeral(s, base) && ValueOf(s, base) == n
    decreases n
  {
    var high, last := if base == 10 then n / 10 else n / 16, if base == 10 then n % 10 else n % 16;
    var digit := [Digit(last)];
    if high == 0 {
      s := digit;
      assert s[..|s| - 1] == "";
    } else {
      var front := NumeralOf(high, base);
      s := front + digit;
      assert s[..|s| - 1] == front;
    }
  }
}
