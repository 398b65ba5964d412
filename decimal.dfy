/** Decimal integers as text: `Integer.parseInt` and zero-padded rendering as
    done by the `%tY`, `%tm` and `%td` conversions of `String.format`. */
module Decimal {
  import opened Wrappers

  /** Range of a Java `int`. */
  const IntMin: int := -0x8000_0000
  const IntMax: int := 0x7fff_ffff

  predicate IsDigit(c: char) {
    '0' <= c <= '9'
  }

  predicate AllDigits(s: string) {
    forall i :: 0 <= i < |s| ==> IsDigit(s[i])
  }

  /** The number a string of decimal digits denotes (leading zeros allowed). */
  function DigitsValue(s: string): nat
    requires AllDigits(s)
  {
    if s == [] then 0 else DigitsValue(s[..|s| - 1]) * 10 + (s[|s| - 1] as int - '0' as int)
  }

  function DigitChar(k: nat): (c: char)
    requires k < 10
    ensures IsDigit(c) && c as int - '0' as int == k
  {
    ('0' as int + k) as char
  }

  /** The shortest decimal rendering of `n`: no leading zero except for 0 itself. */
  function NatToDigits(n: nat): (r: string)
    ensures 1 <= |r| && AllDigits(r) && DigitsValue(r) == n
    ensures r[0] == '0' ==> n == 0
    decreases n
  {
    if n < 10 then [DigitChar(n)]
    else
      var prefix := NatToDigits(n / 10);
      var r := prefix + [DigitChar(n % 10)];
      assert r[..|r| - 1] == prefix;
      r
  }

  /** Decimal rendering of `n` left-padded with '0' to at least `width` characters. */
  function ZeroPad(n: nat, width: nat): (r: string)
    ensures |r| == if |NatToDigits(n)| < width then width else |NatToDigits(n)|
    ensures AllDigits(r) && DigitsValue(r) == n
  {
    var digits := NatToDigits(n);
    var zeros := if |digits| < width then seq(width - |digits|, _ => '0') else [];
    LeadingZerosValue(zeros, digits);
    zeros + digits
  }

  lemma {:induction false} ZerosValue(z: string)
    requires forall i :: 0 <= i < |z| ==> z[i] == '0'
    ensures AllDigits(z) && DigitsValue(z) == 0
  {
    if z != [] {
      ZerosValue(z[..|z| - 1]);
    }
  }

  /** Leading zeros do not change the value of a digit string. */
  lemma {:induction false} LeadingZerosValue(z: string, s: string)
    requires forall i :: 0 <= i < |z| ==> z[i] == '0'
    requires AllDigits(s)
    ensures AllDigits(z + s) && DigitsValue(z + s) == DigitsValue(s)
  {
    ZerosValue(z);
    if s != [] {
      LeadingZerosValue(z, s[..|s| - 1]);
      assert (z + s)[..|z + s| - 1] == z + s[..|s| - 1];
    } else {
      assert z + s == z;
    }
  }

  /** `Integer.parseInt(s)` (radix 10): an optional '+' or '-', then at least one
      ASCII digit, and a value within the range of `int`; otherwise the Java
      method throws NumberFormatException, modelled here as None. */
  function ParseInt(s: string): (r: Option<int>)
    ensures r.Some? ==> IntMin <= r.value <= IntMax
    ensures r.Some? ==> |s| >= 1 && (IsDigit(s[0]) || s[0] == '+' || s[0] == '-')
    ensures r.Some? ==> forall i :: 1 <= i < |s| ==> IsDigit(s[i])
    ensures r.Some? ==> IsDigit(s[|s| - 1])
  {
    if s == [] then None
    else
      var signed := s[0] == '+' || s[0] == '-';
      var body := if signed then s[1..] else s;
      if body == [] || !AllDigits(body) then None
      else
        var v: int := if s[0] == '-' then -(DigitsValue(body) as int) else DigitsValue(body);
        if IntMin <= v <= IntMax then Some(v) else None
  }

  /** Rendering and parsing are inverse: what ZeroPad prints, ParseInt reads back. */
  lemma ParseZeroPad(n: nat, width: nat)
    requires n <= IntMax
    ensures ParseInt(ZeroPad(n, width)) == Some(n)
  {
    ParseDigits(ZeroPad(n, width));
  }

  /** A digit string that fits in an `int` parses to its value. */
  lemma ParseDigits(s: string)
    requires |s| >= 1 && AllDigits(s) && DigitsValue(s) <= IntMax
    ensures ParseInt(s) == Some(DigitsValue(s))
  {
    assert IsDigit(s[0]) && s[0] != '+' && s[0] != '-';
    assert IntMin <= DigitsValue(s) <= IntMax;
  }

  /** A digit string parses to its value when that fits in an `int`, and is
      rejected when it does not. */
  lemma ParseUnsigned(digits: string)
    requires |digits| >= 1 && AllDigits(digits)
    ensures ParseInt(digits) == if DigitsValue(digits) <= IntMax then Some(DigitsValue(digits)) else None
  {
    assert IsDigit(digits[0]) && digits[0] != '+' && digits[0] != '-';
  }

  /** A sign followed by a digit string: '+' keeps the value, '-' negates it,
      and a result outside the `int` range is rejected. */
  lemma ParseSigned(s: string)
    requires |s| >= 2 && (s[0] == '+' || s[0] == '-') && AllDigits(s[1..])
    ensures var v: int := if s[0] == '-' then -(DigitsValue(s[1..]) as int) else DigitsValue(s[1..]);
      ParseInt(s) == if IntMin <= v <= IntMax then Some(v) else None
  {
  }

  /** The empty string and a lone sign have no digits and are rejected. */
  lemma ParseNoDigits()
    ensures ParseInt("") == None && ParseInt("+") == None && ParseInt("-") == None
  {
    assert "+"[1..] == [] && "-"[1..] == [];
  }

  /** A character that is neither a digit nor a leading sign makes parseInt fail. */
  lemma ParseIntRejects(s: string, i: nat)
    requires i < |s| && !IsDigit(s[i])
    requires i > 0 || (s[i] != '+' && s[i] != '-')
    ensures ParseInt(s) == None
  {
  }
}
