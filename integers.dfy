/** Rust's `str::parse` for the three integer types the parser reads: `u32`
    (hour, minute, second, month, day), `usize` (the count of a relative clue,
    on a 64-bit target) and `i32` (the year). The text is an optional sign
    followed by one or more ASCII decimal digits; `+` is accepted for every
    type, `-` only for the signed one; leading zeros are allowed; a value
    outside the type's range is an error. */
module Integers {
  import opened Wrappers

  const U32_MAX: nat := 0xFFFF_FFFF
  const USIZE_MAX: nat := 0xFFFF_FFFF_FFFF_FFFF
  const I32_MIN: int := -0x8000_0000
  const I32_MAX: int := 0x7FFF_FFFF

  predicate IsDigit(c: char) {
    '0' <= c <= '9'
  }

  predicate IsDigits(s: string) {
    forall i :: 0 <= i < |s| ==> IsDigit(s[i])
  }

  function DigitValue(c: char): (d: nat)
    requires IsDigit(c)
    ensures d < 10
  {
    c as int - '0' as int
  }

  function DigitChar(d: nat): (c: char)
    requires d < 10
    ensures IsDigit(c) && DigitValue(c) == d
  {
    ('0' as int + d) as char
  }

  /** The number a string of decimal digits denotes (most significant first). */
  function DigitsValue(s: string): nat
    requires IsDigits(s)
  {
    if s == [] then 0 else 10 * DigitsValue(s[..|s| - 1]) + DigitValue(s[|s| - 1])
  }

  /** The canonical decimal text of `n`: no sign, no leading zero. */
  function Decimal(n: nat): (s: string)
    ensures |s| > 0 && IsDigits(s)
    ensures DigitsValue(s) == n
    ensures s[0] == '0' ==> n == 0
  {
    if n < 10 then [DigitChar(n)]
    else
      var prefix := Decimal(n / 10);
      var s := prefix + [DigitChar(n % 10)];
      assert s[..|s| - 1] == prefix;
      s
  }

  /** The digits of an unsigned literal: the text without one leading `+`. */
  function UnsignedDigits(s: string): string {
    if |s| > 0 && s[0] == '+' then s[1..] else s
  }

  /** `<uN as FromStr>::from_str` for the unsigned type whose largest value is `max`. */
  function ParseUnsigned(s: string, max: nat): (r: Option<nat>)
    ensures r.Some? ==> r.value <= max
    ensures r.Some? ==> s != [] && s != "+"
  {
    var digits := UnsignedDigits(s);
    if |digits| > 0 && IsDigits(digits) && DigitsValue(digits) <= max then
      Some(DigitsValue(digits))
    else
      None
  }

  /** `<iN as FromStr>::from_str` for the signed type with range `min..=max`. */
  function ParseSigned(s: string, min: int, max: nat): (r: Option<int>)
    requires min <= 0
    ensures r.Some? ==> min <= r.value <= max
    ensures r.Some? && r.value < 0 ==> |s| > 0 && s[0] == '-'
  {
    if |s| > 0 && s[0] == '-' then
      var digits := s[1..];
      if |digits| > 0 && IsDigits(digits) && min <= -(DigitsValue(digits) as int) then
        Some(-(DigitsValue(digits) as int))
      else
        None
    else
      match ParseUnsigned(s, max)
      case Some(v) => Some(v)
      case None => None
  }

  /** Only digits are accepted, after at most one leading `+`. */
  lemma ParseUnsignedAccepts(s: string, max: nat)
    requires ParseUnsigned(s, max).Some?
    ensures forall i :: 0 <= i < |s| ==> IsDigit(s[i]) || (i == 0 && s[i] == '+')
  {
    var digits := UnsignedDigits(s);
    assert forall i :: 0 <= i < |digits| ==> IsDigit(digits[i]);
    if s[0] == '+' {
      assert forall i :: 1 <= i < |s| ==> s[i] == digits[i - 1];
    }
  }

  function ParseU32(s: string): Option<nat> {
    ParseUnsigned(s, U32_MAX)
  }

  function ParseUsize(s: string): Option<nat> {
    ParseUnsigned(s, USIZE_MAX)
  }

  function ParseI32(s: string): Option<int> {
    ParseSigned(s, I32_MIN, I32_MAX)
  }

  /** The canonical text of a signed value: `-` before the digits of a negative one. */
  function SignedDecimal(n: int): (s: string)
    ensures |s| > 0
  {
    if n < 0 then "-" + Decimal(-n) else Decimal(n)
  }

  /** Every value of the type is read back from its canonical text, and from
      that text behind a `+`. */
  lemma ParseUnsignedDecimal(n: nat, max: nat)
    requires n <= max
    ensures ParseUnsigned(Decimal(n), max) == Some(n)
    ensures ParseUnsigned("+" + Decimal(n), max) == Some(n)
  {
    var s := Decimal(n);
    assert s[0] != '+';
    assert UnsignedDigits("+" + s) == s;
  }

  lemma ParseSignedDecimal(n: int, min: int, max: nat)
    requires min <= 0 && min <= n <= max
    ensures ParseSigned(SignedDecimal(n), min, max) == Some(n)
  {
    if n < 0 {
      assert SignedDecimal(n)[1..] == Decimal(-n);
    } else {
      ParseUnsignedDecimal(n, max);
    }
  }

  /** A leading zero does not change the value a digit string denotes. */
  lemma {:induction false} LeadingZeroValue(s: string)
    requires IsDigits(s)
    ensures IsDigits("0" + s) && DigitsValue("0" + s) == DigitsValue(s)
  {
    var t := "0" + s;
    assert IsDigits(t) by {
      forall i | 0 <= i < |t| ensures IsDigit(t[i]) {
        if i > 0 { assert t[i] == s[i - 1]; }
      }
    }
    if s != [] {
      var init := s[..|s| - 1];
      assert t[..|t| - 1] == "0" + init;
      LeadingZeroValue(init);
    }
  }

  /** Leading zeros are accepted and ignored: "007" reads as 7. */
  lemma ParseUnsignedLeadingZero(s: string, max: nat)
    requires |s| > 0 && IsDigits(s)
    ensures ParseUnsigned("0" + s, max) == ParseUnsigned(s, max)
  {
    LeadingZeroValue(s);
  }

  /** A digit string whose value does not fit the type is rejected, however
      short the overflow. */
  lemma ParseUnsignedTooLarge(s: string, max: nat)
    requires IsDigits(s) && DigitsValue(s) > max
    ensures ParseUnsigned(s, max) == None
  {
  }
}
