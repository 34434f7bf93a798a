/** The C++ standard conversions between integers and decimal text that the
    server relies on: `std::to_string` for replies and forwarded operands, and
    `strtoull(s, nullptr, 10)` for the operands a replica receives. */
module Decimal {
  import opened Types

  predicate IsDigit(c: char) {
    '0' <= c <= '9'
  }

  predicate AllDigits(s: string) {
    forall i :: 0 <= i < |s| ==> IsDigit(s[i])
  }

  /** The characters `isspace` accepts in the C locale. */
  predicate IsSpace(c: char) {
    c == ' ' || '\t' <= c <= '\r'
  }

  function DigitChar(d: nat): (c: char)
    requires d < 10
    ensures IsDigit(c)
  {
    (48 + d) as char
  }

  function DigitValue(c: char): (d: nat)
    requires IsDigit(c)
    ensures d < 10
  {
    c as int - 48
  }

  /** `std::to_string` of an unsigned value: shortest decimal numeral. */
  function NatToString(n: nat): (s: string)
    ensures |s| > 0 && AllDigits(s)
    ensures s[0] != '0' || n == 0
  {
    if n < 10 then [DigitChar(n)] else NatToString(n / 10) + [DigitChar(n % 10)]
  }

  /** `std::to_string` of a signed value. */
  function IntToString(i: int): (s: string)
    ensures i >= 0 ==> s == NatToString(i)
    ensures i < 0 ==> s == "-" + NatToString(-i)
  {
    if i < 0 then "-" + NatToString(-i) else NatToString(i)
  }

  /** The value of a numeral, most significant digit first. */
  function DigitsValue(s: string): nat
    requires AllDigits(s)
  {
    if s == [] then 0 else DigitsValue(s[..|s| - 1]) * 10 + DigitValue(s[|s| - 1])
  }

  /** Decimal printing and reading are inverse. */
  lemma {:induction false} NatToStringValue(n: nat)
    ensures DigitsValue(NatToString(n)) == n
  {
    if n >= 10 {
      var s := NatToString(n);
      assert s[..|s| - 1] == NatToString(n / 10);
      NatToStringValue(n / 10);
    }
  }

  /** The longest prefix of `s` made of digits. */
  function LeadingDigits(s: string): (d: string)
    ensures AllDigits(d) && d <= s
    ensures |d| < |s| ==> !IsDigit(s[|d|])
  {
    if s != [] && IsDigit(s[0]) then [s[0]] + LeadingDigits(s[1..]) else []
  }

  /** What is left of `s` after its leading white space. */
  function SkipSpaces(s: string): (t: string)
    ensures |t| <= |s| && t == s[|s| - |t|..]
    ensures t != [] ==> !IsSpace(t[0])
  {
    if s != [] && IsSpace(s[0]) then SkipSpaces(s[1..]) else s
  }

  /** `strtoull(s, nullptr, 10)`: leading white space is skipped, one sign is
      accepted, digits are read up to the first non-digit (none gives 0); a
      value too large for 64 bits saturates at ULLONG_MAX, and a minus sign
      negates modulo 2^64. */
  function Strtoull(s: string): (r: u64)
    ensures AllDigits(s) && s != [] && DigitsValue(s) < U64_MOD ==> r == DigitsValue(s)
  {
    var t := SkipSpaces(s);
    assert s != [] && IsDigit(s[0]) ==> t == s;
    assert AllDigits(s) ==> |LeadingDigits(s)| == |s| && LeadingDigits(s) == s;
    var negative := t != [] && t[0] == '-';
    var u := if t != [] && (t[0] == '-' || t[0] == '+') then t[1..] else t;
    var v := DigitsValue(LeadingDigits(u));
    if v >= U64_MOD then U64_MOD - 1
    else if negative then (U64_MOD - v) % U64_MOD
    else v
  }

  /** A replica parses exactly the identifier its upstream printed. */
  lemma {:induction false} StrtoullOfNatToString(n: u64)
    ensures Strtoull(NatToString(n)) == n
  {
    NatToStringValue(n);
  }
}
