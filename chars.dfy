/** ASCII character classes, case folding and the decimal conversions the
    C and C++ code relies on (`tolower`, `atoi`, `StringUtils::itoa`). */
module Chars {

  datatype Option<+T> = None | Some(value: T)

  predicate IsDigit(c: char) { '0' <= c <= '9' }

  predicate IsUpper(c: char) { 'A' <= c <= 'Z' }

  predicate IsLetter(c: char) { 'a' <= c <= 'z' || IsUpper(c) }

  predicate AllDigits(s: string) { forall i :: 0 <= i < |s| ==> IsDigit(s[i]) }

  /** `::tolower` in the "C" locale: only A-Z change. */
  function LowerChar(c: char): (r: char)
    ensures !IsUpper(r)
    ensures IsUpper(c) ==> r as int == c as int + 32
    ensures !IsUpper(c) ==> r == c
  {
    if IsUpper(c) then (c as int + 32) as char else c
  }

  /** `StringUtils::tolower` and the in-place lower-casing loops: maps
      `LowerChar` over every character. */
  function Lower(s: string): (r: string)
    ensures |r| == |s|
    ensures forall i :: 0 <= i < |s| ==> r[i] == LowerChar(s[i])
  {
    seq(|s|, i requires 0 <= i < |s| => LowerChar(s[i]))
  }

  predicate IsLowerCase(s: string) { forall i :: 0 <= i < |s| ==> !IsUpper(s[i]) }

  lemma LowerIdempotent(s: string)
    ensures IsLowerCase(s) <==> Lower(s) == s
  {
    if Lower(s) == s {
      forall i | 0 <= i < |s| ensures !IsUpper(s[i]) {
        assert Lower(s)[i] == s[i];
      }
    }
  }

  lemma LowerAppend(a: string, b: string)
    ensures Lower(a + b) == Lower(a) + Lower(b)
  {
  }

  /** Value of a string of decimal digits, most significant digit first. */
  function DigitsValue(s: string): (n: nat)
    requires AllDigits(s)
  {
    if s == [] then 0
    else 10 * DigitsValue(s[..|s| - 1]) + (s[|s| - 1] as int - '0' as int)
  }

  /** The longest prefix of `s` made of decimal digits. */
  function LeadingDigits(s: string): (r: string)
    ensures AllDigits(r) && r <= s
    ensures |r| == |s| || !IsDigit(s[|r|])
  {
    if s != [] && IsDigit(s[0]) then [s[0]] + LeadingDigits(s[1..]) else []
  }

  /** The characters C's `isspace` accepts in the "C" locale. */
  predicate IsCSpace(c: char) { c == ' ' || c == '\t' || c == '\n' || c == '\r' || c == 11 as char || c == 12 as char }

  function SkipCSpace(s: string): (r: string)
    ensures |r| <= |s| && r == s[|s| - |r|..]
    ensures r == [] || !IsCSpace(r[0])
  {
    if s != [] && IsCSpace(s[0]) then SkipCSpace(s[1..]) else s
  }

  /** C's `atoi`: leading white space, an optional sign, then the longest run
      of digits; no digits gives 0. Overflow (undefined behaviour in C) is
      not modelled: the value is the mathematical one. */
  function Atoi(s: string): (r: int)
    ensures var t := SkipCSpace(s);
            t == [] || (t[0] != '-' && t[0] != '+' && !IsDigit(t[0])) ==> r == 0
    ensures r < 0 ==> SkipCSpace(s) != [] && SkipCSpace(s)[0] == '-'
  {
    var t := SkipCSpace(s);
    if t != [] && t[0] == '-' then 0 - DigitsValue(LeadingDigits(t[1..])) as int
    else if t != [] && t[0] == '+' then DigitsValue(LeadingDigits(t[1..])) as int
    else DigitsValue(LeadingDigits(t)) as int
  }

  function DigitChar(d: nat): (c: char)
    requires d < 10
    ensures IsDigit(c) && c as int - '0' as int == d
  {
    ('0' as int + d) as char
  }

  /** Decimal text of a natural number, without leading zeros. */
  function NatToString(n: nat): (s: string)
    ensures s != [] && AllDigits(s)
  {
    if n < 10 then [DigitChar(n)] else NatToString(n / 10) + [DigitChar(n % 10)]
  }

  /** `StringUtils::itoa` on an `int`: a minus sign for negative values. */
  function IntToString(n: int): (s: string)
    ensures s != [] && (IsDigit(s[0]) || s[0] == '-')
  {
    if n < 0 then "-" + NatToString(-n) else NatToString(n)
  }

  lemma {:induction false} DigitsValueOfNatToString(n: nat)
    ensures DigitsValue(NatToString(n)) == n
  {
    if n >= 10 {
      var s := NatToString(n);
      assert s[..|s| - 1] == NatToString(n / 10);
      DigitsValueOfNatToString(n / 10);
    }
  }

  lemma {:induction false} LeadingDigitsOfDigitsThen(ds: string, rest: string)
    requires AllDigits(ds)
    requires rest == [] || !IsDigit(rest[0])
    ensures LeadingDigits(ds + rest) == ds
  {
    if ds != [] {
      assert (ds + rest)[1..] == ds[1..] + rest;
      LeadingDigitsOfDigitsThen(ds[1..], rest);
    } else {
      assert ds + rest == rest;
    }
  }

  lemma AtoiOfDigitsThen(ds: string, rest: string)
    requires AllDigits(ds) && ds != []
    requires rest == [] || !IsDigit(rest[0])
    ensures Atoi(ds + rest) == DigitsValue(ds)
  {
    var s := ds + rest;
    assert s[0] == ds[0] && IsDigit(ds[0]);
    assert !IsCSpace(s[0]) && s[0] != '-' && s[0] != '+';
    assert SkipCSpace(s) == s;
    LeadingDigitsOfDigitsThen(ds, rest);
  }

  lemma AtoiOfMinusDigitsThen(ds: string, rest: string)
    requires AllDigits(ds) && ds != []
    requires rest == [] || !IsDigit(rest[0])
    ensures Atoi("-" + ds + rest) == 0 - DigitsValue(ds) as int
  {
    var m := "-" + ds + rest;
    assert m[0] == '-';
    assert SkipCSpace(m) == m;
    assert m[1..] == ds + rest;
    LeadingDigitsOfDigitsThen(ds, rest);
  }

  /** `atoi` reads back what `itoa` wrote, whatever follows the number as
      long as it does not start with a digit. */
  lemma AtoiOfIntToString(n: int, rest: string)
    requires rest == [] || !IsDigit(rest[0])
    ensures Atoi(IntToString(n) + rest) == n
  {
    if n < 0 {
      var ds := NatToString(-n);
      assert IntToString(n) == "-" + ds;
      AtoiOfMinusDigitsThen(ds, rest);
      DigitsValueOfNatToString(-n);
    } else {
      var ds := NatToString(n);
      assert IntToString(n) == ds;
      AtoiOfDigitsThen(ds, rest);
      DigitsValueOfNatToString(n);
    }
  }

  /** Decimal conversion is injective. */
  lemma IntToStringInjective(a: int, b: int)
    requires IntToString(a) == IntToString(b)
    ensures a == b
  {
    AtoiOfIntToString(a, []);
    AtoiOfIntToString(b, []);
    assert IntToString(a) + [] == IntToString(a);
    assert IntToString(b) + [] == IntToString(b);
  }

  /** The server name the HTTP responses announce is one line. */
  lemma ServerNameOneLine()
    ensures '\n' !in "triagens GmbH High-Performance HTTP Server"
  {
  }
}
