/**
 * Decimal text: the digits that SQL `TO_CHAR(..., 'YYYY-MM')` prints and the part of
 * JavaScript's `parseInt(s, 10)` and `String.prototype.split('-')` that reads them back.
 */
module Decimal {
  import opened Wrappers

  predicate IsDigit(c: char) { '0' <= c <= '9' }

  predicate AllDigits(s: string) { forall i :: 0 <= i < |s| ==> IsDigit(s[i]) }

  function DigitValue(c: char): (d: nat)
    requires IsDigit(c)
    ensures d < 10
  {
    c as int - '0' as int
  }

  function DigitChar(d: nat): (c: char)
    requires d < 10
    ensures IsDigit(c) && DigitValue(c) == d
  {
    ('0' as int + d) as char
  }

  /** The number a string of decimal digits denotes, most significant digit first. */
  function DigitsValue(s: string): nat
    requires AllDigits(s)
  {
    if s == [] then 0 else DigitsValue(s[..|s| - 1]) * 10 + DigitValue(s[|s| - 1])
  }

  /** The shortest decimal text of `n` (at least one digit, "0" for zero). */
  function ToDigits(n: nat): (s: string)
    ensures |s| >= 1 && AllDigits(s)
  {
    if n < 10 then [DigitChar(n)] else ToDigits(n / 10) + [DigitChar(n % 10)]
  }

  /** `n` printed with leading zeros up to `width` characters, as the 'YYYY' and 'MM' formats do. */
  function Padded(n: nat, width: nat): (s: string)
    ensures AllDigits(s) && |s| >= width && |s| >= 1
    ensures DigitsValue(s) == n
  {
    ToDigitsRoundTrip(n);
    PadZeros(ToDigits(n), width)
  }

  function PadZeros(s: string, width: nat): (r: string)
    requires AllDigits(s)
    ensures AllDigits(r) && |r| >= width && |r| >= |s|
    ensures DigitsValue(r) == DigitsValue(s)
    decreases width - |s|
  {
    if |s| >= width then s
    else
      LeadingZero(s);
      PadZeros(['0'] + s, width)
  }

  lemma {:induction false} ToDigitsRoundTrip(n: nat)
    ensures DigitsValue(ToDigits(n)) == n
  {
    if n >= 10 {
      ToDigitsRoundTrip(n / 10);
      var s := ToDigits(n);
      assert s[..|s| - 1] == ToDigits(n / 10);
    }
  }

  lemma {:induction false} LeadingZero(s: string)
    requires AllDigits(s)
    ensures AllDigits(['0'] + s) && DigitsValue(['0'] + s) == DigitsValue(s)
    decreases |s|
  {
    var z := ['0'] + s;
    if s != [] {
      assert z[..|z| - 1] == ['0'] + s[..|s| - 1];
      LeadingZero(s[..|s| - 1]);
    } else {
      assert z[..|z| - 1] == [];
    }
  }

  /** The white space that `parseInt` skips before the number (ECMAScript WhiteSpace and LineTerminator). */
  predicate IsJsSpace(c: char)
  {
    var k := c as int;
    (0x09 <= k <= 0x0D) || k == 0x20 || k == 0xA0 || k == 0x1680 || (0x2000 <= k <= 0x200A) ||
    k == 0x2028 || k == 0x2029 || k == 0x202F || k == 0x205F || k == 0x3000 || k == 0xFEFF
  }

  function TrimStart(s: string): (r: string)
    ensures |r| <= |s|
    ensures r == [] || !IsJsSpace(r[0])
  {
    if s != [] && IsJsSpace(s[0]) then TrimStart(s[1..]) else s
  }

  /** Trimming only drops characters from the front, and those are all white space. */
  lemma {:induction false} TrimStartIsSuffix(s: string)
    ensures TrimStart(s) == s[|s| - |TrimStart(s)|..]
    ensures forall i :: 0 <= i < |s| - |TrimStart(s)| ==> IsJsSpace(s[i])
  {
    if s != [] && IsJsSpace(s[0]) {
      TrimStartIsSuffix(s[1..]);
    }
  }

  /** The longest prefix of `s` made of decimal digits. */
  function LeadingDigits(s: string): (r: string)
    ensures AllDigits(r) && |r| <= |s|
  {
    if s != [] && IsDigit(s[0]) then [s[0]] + LeadingDigits(s[1..]) else []
  }

  /** The digits read are a prefix of `s`, and the character after them (if any) is not a digit. */
  lemma {:induction false} LeadingDigitsIsPrefix(s: string)
    ensures LeadingDigits(s) == s[..|LeadingDigits(s)|]
    ensures |LeadingDigits(s)| < |s| ==> !IsDigit(s[|LeadingDigits(s)|])
  {
    if s != [] && IsDigit(s[0]) {
      LeadingDigitsIsPrefix(s[1..]);
    }
  }

  /**
   * `parseInt(s, 10)`: skip leading white space, read an optional sign, then the longest
   * run of digits; `None` stands for NaN (no digit at that point).
   */
  function ParseInt(s: string): Option<int>
  {
    var t := TrimStart(s);
    var negative := t != [] && t[0] == '-';
    var u := if t != [] && (t[0] == '-' || t[0] == '+') then t[1..] else t;
    var d := LeadingDigits(u);
    if d == [] then None
    else if negative then Some(-(DigitsValue(d) as int))
    else Some(DigitsValue(d))
  }

  /** For text that is all digits, `parseInt` returns exactly the number it denotes. */
  lemma {:induction false} ParseIntOfDigits(s: string)
    requires s != [] && AllDigits(s)
    ensures ParseInt(s) == Some(DigitsValue(s))
  {
    assert IsDigit(s[0]);
    assert TrimStart(s) == s;
    LeadingDigitsOfDigits(s);
  }

  lemma {:induction false} LeadingDigitsOfDigits(s: string)
    requires AllDigits(s)
    ensures LeadingDigits(s) == s
  {
    if s != [] {
      LeadingDigitsOfDigits(s[1..]);
    }
  }

  /** The text after the first '-' of `s`, if `s` holds one. */
  function AfterFirstDash(s: string): (r: Option<string>)
    ensures r.Some? ==> |r.value| < |s|
  {
    if s == [] then None
    else if s[0] == '-' then Some(s[1..])
    else AfterFirstDash(s[1..])
  }

  /** The text of `s` before its first '-' (all of `s` if it holds none). */
  function UpToDash(s: string): (r: string)
    ensures |r| <= |s|
    ensures forall i :: 0 <= i < |r| ==> r[i] != '-'
  {
    if s == [] || s[0] == '-' then [] else [s[0]] + UpToDash(s[1..])
  }

  /** The segment is a prefix of `s`, ended by the first '-' or by the end of `s`. */
  lemma {:induction false} UpToDashIsPrefix(s: string)
    ensures UpToDash(s) == s[..|UpToDash(s)|]
    ensures |UpToDash(s)| < |s| ==> s[|UpToDash(s)|] == '-'
  {
    if s != [] && s[0] != '-' {
      UpToDashIsPrefix(s[1..]);
    }
  }

  /** `s.split('-')[1]`: `None` stands for `undefined` (no '-' in `s`). */
  function SecondSegment(s: string): Option<string>
  {
    match AfterFirstDash(s)
    case None => None
    case Some(rest) => Some(UpToDash(rest))
  }

  /** Splitting "digits-digits" on '-' gives back the second run of digits. */
  lemma {:induction false} SecondSegmentOfDigits(a: string, b: string)
    requires AllDigits(a) && AllDigits(b)
    ensures SecondSegment(a + "-" + b) == Some(b)
  {
    AfterDashOfDigits(a, b);
    UpToDashOfDigits(b);
  }

  lemma {:induction false} AfterDashOfDigits(a: string, b: string)
    requires AllDigits(a)
    ensures AfterFirstDash(a + "-" + b) == Some(b)
  {
    if a == [] {
      assert a + "-" + b == ['-'] + b;
    } else {
      assert (a + "-" + b)[1..] == a[1..] + "-" + b;
      AfterDashOfDigits(a[1..], b);
    }
  }

  lemma {:induction false} UpToDashOfDigits(b: string)
    requires AllDigits(b)
    ensures UpToDash(b) == b
  {
    if b != [] {
      UpToDashOfDigits(b[1..]);
    }
  }
}
