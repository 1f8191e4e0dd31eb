/** The string routines of the C library that the parsers are built on. */
module Text {

  predicate IsDigit(c: char) { '0' <= c <= '9' }

  /** The position of the first `stop`, or the length of the string. */
  function Find(s: string, stop: char): (n: nat)
    ensures n <= |s| && stop !in s[..n]
    ensures n < |s| ==> s[n] == stop
  {
    if s == [] || s[0] == stop then 0
    else
      var n := Find(s[1..], stop);
      assert s[..n + 1] == [s[0]] + s[1..][..n];
      n + 1
  }

  /** How many leading characters are digits. */
  function DigitRun(s: string): (n: nat)
    ensures n <= |s| && forall k :: 0 <= k < n ==> IsDigit(s[k])
    ensures n < |s| ==> !IsDigit(s[n])
  {
    if s == [] || !IsDigit(s[0]) then 0 else 1 + DigitRun(s[1..])
  }

  /** The decimal value of a string of digits. */
  function Value(s: string): nat
    requires forall k :: 0 <= k < |s| ==> IsDigit(s[k])
  {
    if s == [] then 0 else 10 * Value(s[..|s| - 1]) + Digit(s[|s| - 1])
  }

  function Digit(c: char): (d: nat)
    requires IsDigit(c)
    ensures d < 10
  {
    (c as int) - ('0' as int)
  }

  const LONG_MAX := 0x7FFF_FFFF_FFFF_FFFF

  /** `atoi` and `strtol` on a string that starts with a digit, and how much of it they read. */
  function ParseNat(s: string): (nat, nat) {
    (Value(s[..DigitRun(s)]), DigitRun(s))
  }

  /** `%d` of a natural number. */
  function PrintNat(n: nat): (s: string)
    ensures |s| > 0 && forall k :: 0 <= k < |s| ==> IsDigit(s[k])
    ensures Value(s) == n
    ensures s[0] == '0' ==> n == 0
  {
    var d := ('0' as int + n % 10) as char;
    if n < 10 then [d]
    else
      var s := PrintNat(n / 10) + [d];
      assert s[..|s| - 1] == PrintNat(n / 10);
      s
  }

  // ---------------------------------------------------------------- strtok_r

  /** The tokens `strtok_r` yields one after the other: the maximal runs without the delimiter. */
  function Tokens(s: string, delim: char): seq<string>
    decreases |s|
  {
    if s == "" then []
    else if s[0] == delim then Tokens(s[1..], delim)
    else
      var n := Find(s, delim);
      [s[..n]] + Tokens(s[n..], delim)
  }

  lemma {:induction false} FindAfter(part: string, rest: string, stop: char)
    requires stop !in part && (rest != "" ==> rest[0] == stop)
    ensures Find(part + rest, stop) == |part|
  {
    if part != "" {
      assert (part + rest)[1..] == part[1..] + rest;
      FindAfter(part[1..], rest, stop);
    }
  }

  /** A token followed by the end of the string or by a delimiter. */
  lemma TokensCons(part: string, rest: string, delim: char)
    requires part != "" && delim !in part && (rest != "" ==> rest[0] == delim)
    ensures Tokens(part + rest, delim) == [part] + Tokens(rest, delim)
  {
    FindAfter(part, rest, delim);
    assert (part + rest)[..|part|] == part && (part + rest)[|part|..] == rest;
  }

  // ---------------------------------------------------------------- strtol

  function Signed(s: string): (int, string) {
    if s != "" && s[0] == '-' then (-1, s[1..]) else if s != "" && s[0] == '+' then (1, s[1..]) else (1, s)
  }

  /** White space, as `isspace` has it. */
  predicate IsBlank(c: char) {
    c == ' ' || 9 <= c as int <= 13
  }

  function Trimmed(s: string): string {
    if s != "" && IsBlank(s[0]) then Trimmed(s[1..]) else s
  }

  /** `strtol(s, NULL, 10)` */
  function Strtol10(s: string): int {
    var (sign, body) := Signed(Trimmed(s));
    sign * ParseNat(body).0
  }

  /** `strtol(s, NULL, 0)`: hexadecimal after 0x, octal after 0, decimal otherwise. */
  function Strtol0(s: string): int {
    var (sign, body) := Signed(Trimmed(s));
    if |body| >= 3 && body[0] == '0' && body[1] in {'x', 'X'} && HexDigit(body[2]) < 16
    then sign * Prefix(body[2..], 16)
    else if body != "" && body[0] == '0' then sign * Prefix(body, 8)
    else sign * ParseNat(body).0
  }

  function HexDigit(c: char): nat {
    if IsDigit(c) then Digit(c)
    else if 'a' <= c <= 'f' then (c as int) - ('a' as int) + 10
    else if 'A' <= c <= 'F' then (c as int) - ('A' as int) + 10
    else 16
  }

  /** Digits by their character codes; anything else is no digit in any base up to 16. */
  lemma HexDigitIs(c: char)
    ensures var code, d := c as int, HexDigit(c);
      && (48 <= code <= 57 ==> d == code - 48) && (97 <= code <= 102 ==> d == code - 87)
      && (65 <= code <= 70 ==> d == code - 55)
      && (!(48 <= code <= 57) && !(97 <= code <= 102) && !(65 <= code <= 70) ==> d >= 16)
  {}

  /** The value of the leading digits below `base`. */
  function Prefix(s: string, base: nat): nat {
    PrefixFrom(s, base, 0)
  }

  function PrefixFrom(s: string, base: nat, value: nat): nat
    decreases |s|
  {
    if s == "" || HexDigit(s[0]) >= base then value else PrefixFrom(s[1..], base, value * base + HexDigit(s[0]))
  }

  /** Reading goes on for as long as there are digits, each worth `base` times what comes after it. */
  lemma {:induction false} PrefixReads(s: string, d: char, rest: string, base: nat, value: nat)
    requires HexDigit(d) < base && (rest != "" ==> HexDigit(rest[0]) >= base)
    requires forall k :: 0 <= k < |s| ==> HexDigit(s[k]) < base
    ensures PrefixFrom(s + rest, base, value) == PrefixFrom(s, base, value)
    ensures PrefixFrom(s + [d], base, value) == PrefixFrom(s, base, value) * base + HexDigit(d)
  {
    if s == "" {
      assert s + rest == rest && s + [d] == [d] && [d][1..] == "";
    } else {
      assert (s + rest)[1..] == s[1..] + rest && (s + [d])[1..] == s[1..] + [d];
      PrefixReads(s[1..], d, rest, base, value * base + HexDigit(s[0]));
    }
  }

  /** The three notations of `strtol(s, NULL, 0)`. */
  lemma Strtol0Reads(digits: string)
    requires digits != "" && forall k :: 0 <= k < |digits| ==> HexDigit(digits[k]) < 16
    ensures Strtol0("0x" + digits) == Strtol0("0X" + digits) == Prefix(digits, 16)
    ensures Strtol0("0" + digits) == Prefix("0" + digits, 8)
  {
    assert ("0x" + digits)[2..] == digits && ("0X" + digits)[2..] == digits;
  }

  /** `%d` */
  function PrintInt(n: int): (s: string)
    ensures s != ""
    ensures forall k :: 0 <= k < |s| ==> IsDigit(s[k]) || s[k] == '-'
  {
    if n < 0 then "-" + PrintNat(-n) else PrintNat(n)
  }

  lemma DigitsOnly(s: string)
    requires forall k :: 0 <= k < |s| ==> IsDigit(s[k])
    ensures DigitRun(s) == |s| && s[..DigitRun(s)] == s
  {
    if DigitRun(s) < |s| {
      assert false;
    }
  }

  /** Printing and both ways of reading undo each other. */
  lemma PrintParse(n: int)
    ensures Strtol10(PrintInt(n)) == n && Strtol0(PrintInt(n)) == n
  {
    var body := PrintNat(if n < 0 then -n else n);
    DigitsOnly(body);
    assert n < 0 ==> PrintInt(n)[1..] == body;
    assert IsDigit(body[0]);
    assert Trimmed(PrintInt(n)) == PrintInt(n);
    assert Signed(PrintInt(n)) == (if n < 0 then (-1, body) else (1, body));
    if body[0] == '0' {
      assert n == 0 && body == "0" && body[1..] == "";
      assert PrefixFrom(body, 8, 0) == PrefixFrom(body[1..], 8, 0);
    }
  }

  lemma {:induction false} TrimmedSkips(blanks: string, rest: string)
    requires forall k :: 0 <= k < |blanks| ==> blanks[k] as int in {9, 10, 11, 12, 13, 32}
    requires rest != "" && rest[0] as int !in {9, 10, 11, 12, 13, 32}
    ensures Trimmed(blanks + rest) == rest
  {
    if blanks == "" {
      assert blanks + rest == rest;
    } else {
      assert (blanks + rest)[1..] == blanks[1..] + rest;
      TrimmedSkips(blanks[1..], rest);
    }
  }

  /** White space, a sign or none, digits, and anything that does not begin with a digit. */
  lemma StrtolReads(blanks: string, sign: string, digits: string, rest: string)
    requires forall k :: 0 <= k < |blanks| ==> blanks[k] as int in {9, 10, 11, 12, 13, 32}
    requires sign in {"", "+", "-"} && digits != "" && forall k :: 0 <= k < |digits| ==> IsDigit(digits[k])
    requires rest == "" || !IsDigit(rest[0])
    ensures var s := blanks + (sign + (digits + rest));
      var n: int := if sign == "-" then 0 - Value(digits) else Value(digits);
      Strtol10(s) == n && (digits[0] != '0' ==> Strtol0(s) == n)
  {
    var body := digits + rest;
    assert body[0] == digits[0];
    SignedReads(sign, body);
    TrimmedSkips(blanks, sign + body);
    RunOfDigits(digits, rest);
    hide Value, Trimmed, Signed, ParseNat, HexDigit, Prefix;
  }

  lemma SignedReads(sign: string, body: string)
    requires sign in {"", "+", "-"} && body != "" && IsDigit(body[0])
    ensures Signed(sign + body) == (if sign == "-" then -1 else 1, body)
    ensures sign + body != "" && (sign + body)[0] as int !in {9, 10, 11, 12, 13, 32}
  {
    if sign == "" {
      assert sign + body == body;
    } else {
      assert (sign + body)[1..] == body;
    }
  }

  lemma {:induction false} RunOfDigits(digits: string, rest: string)
    requires forall k :: 0 <= k < |digits| ==> IsDigit(digits[k])
    requires rest == "" || !IsDigit(rest[0])
    ensures ParseNat(digits + rest) == (Value(digits), |digits|)
  {
    if digits == "" {
      assert digits + rest == rest;
    } else {
      var s := digits + rest;
      assert s[1..] == digits[1..] + rest;
      RunOfDigits(digits[1..], rest);
      assert s[..|digits|] == digits;
    }
  }

  // ---------------------------------------------------------------- case and character classes

  predicate IsAlpha(c: char) { 'a' <= c <= 'z' || 'A' <= c <= 'Z' }

  predicate IsWord(c: char) { IsAlpha(c) || IsDigit(c) || c == '_' }

  function Lower(c: char): char {
    if 'A' <= c <= 'Z' then (c as int + 32) as char else c
  }

  /** `!strcasecmp(a, b)` */
  predicate SameText(a: string, b: string) {
    |a| == |b| && forall k :: 0 <= k < |a| ==> Lower(a[k]) == Lower(b[k])
  }

  /** The same character, or the two cases of one letter: codes 65 to 90 and 97 to 122. */
  predicate TwoCases(c: char, d: char) {
    || c == d
    || (65 <= c as int <= 90 && d as int == c as int + 32)
    || (65 <= d as int <= 90 && c as int == d as int + 32)
  }

  /** Two spellings of a name that differ in case only. */
  predicate Variants(a: string, b: string) {
    |a| == |b| && forall k :: 0 <= k < |a| ==> TwoCases(a[k], b[k])
  }

  lemma SameTextIs(a: string, b: string)
    ensures SameText(a, b) <==> Variants(a, b)
  {
    if |a| == |b| {
      forall k | 0 <= k < |a| ensures Lower(a[k]) == Lower(b[k]) <==> TwoCases(a[k], b[k]) {
        LowerIs(a[k], b[k]);
      }
    }
  }

  lemma LowerIs(c: char, d: char)
    ensures Lower(c) == Lower(d) <==> TwoCases(c, d)
  {}
}
