/** Decimal renderings of array indices and the integer parser that
    JavaScript's `parseInt(s)` (no radix argument) applies to a string. */
module Numerals {
  import opened Wrappers

  predicate IsDecimalDigit(c: char) {
    '0' <= c <= '9'
  }

  /** The value of `c` as a digit in radix up to 36; 36 for a character
      that is a digit in no radix. */
  function DigitOf(c: char): (d: nat)
    ensures d <= 36
    ensures d < 10 <==> IsDecimalDigit(c)
  {
    if '0' <= c <= '9' then c as int - '0' as int
    else if 'a' <= c <= 'z' then c as int - 'a' as int + 10
    else if 'A' <= c <= 'Z' then c as int - 'A' as int + 10
    else 36
  }

  function DigitChar(d: nat): (c: char)
    requires d < 10
    ensures IsDecimalDigit(c) && DigitOf(c) == d
  {
    (48 + d) as char
  }

  /** Every character of `z` is a digit of the given radix. */
  predicate DigitsIn(z: string, radix: nat) {
    z == [] || (DigitOf(z[0]) < radix && DigitsIn(z[1..], radix))
  }

  lemma {:induction false} DigitsInAppend(z: string, c: char, radix: nat)
    requires DigitsIn(z, radix) && DigitOf(c) < radix
    ensures DigitsIn(z + [c], radix)
  {
    if z != [] {
      assert (z + [c])[1..] == z[1..] + [c];
      DigitsInAppend(z[1..], c, radix);
    }
  }

  /** Decimal rendering of a natural number without leading zeros: the
      property key JavaScript uses for an array index. */
  function Decimal(n: nat): (s: string)
    ensures |s| >= 1 && (|s| == 1 <==> n < 10)
    ensures IsDecimalDigit(s[0])
    ensures |s| > 1 ==> s[0] != '0'
  {
    if n < 10 then [DigitChar(n)] else Decimal(n / 10) + [DigitChar(n % 10)]
  }

  /** A decimal rendering is made of decimal digits only. */
  lemma {:induction false} DecimalDigits(n: nat)
    ensures DigitsIn(Decimal(n), 10)
  {
    if n >= 10 {
      DecimalDigits(n / 10);
      DigitsInAppend(Decimal(n / 10), DigitChar(n % 10), 10);
    }
  }

  /** Big-endian value of a run of digits in the given radix. */
  function ValueOf(z: string, radix: nat): nat {
    if z == [] then 0 else ValueOf(z[..|z| - 1], radix) * radix + DigitOf(z[|z| - 1])
  }

  /** The longest prefix of `s` made of digits of the given radix. */
  function DigitRun(s: string, radix: nat): (z: string)
    ensures z <= s
    ensures DigitsIn(z, radix)
    ensures |z| < |s| ==> DigitOf(s[|z|]) >= radix
  {
    if s == [] || DigitOf(s[0]) >= radix then []
    else
      var z := [s[0]] + DigitRun(s[1..], radix);
      assert z[1..] == DigitRun(s[1..], radix);
      z
  }

  /** The characters ECMAScript's StrWhiteSpaceChar admits: white space
      (including every Unicode space separator) and line terminators. */
  predicate IsJsWhitespace(c: char) {
    c == ' ' || c == '\t' || c == '\n' || c == '\r' || c == '\U{000B}' || c == '\U{000C}'
    || c == '\U{00A0}' || c == '\U{1680}' || ('\U{2000}' <= c <= '\U{200A}')
    || c == '\U{2028}' || c == '\U{2029}' || c == '\U{202F}' || c == '\U{205F}'
    || c == '\U{3000}' || c == '\U{FEFF}'
  }

  /** `s` without its leading white space. */
  function TrimStart(s: string): (t: string)
    ensures |t| <= |s| && t == s[|s| - |t|..]
    ensures t == [] || !IsJsWhitespace(t[0])
  {
    if s != [] && IsJsWhitespace(s[0]) then TrimStart(s[1..]) else s
  }

  /** The unsigned part of `parseInt`: a `0x`/`0X` prefix switches to
      radix 16, then the longest digit run is read; no digits is `None`. */
  function ParseMagnitude(u: string): Option<nat> {
    var hex := |u| >= 2 && u[0] == '0' && (u[1] == 'x' || u[1] == 'X');
    var radix := if hex then 16 else 10;
    var z := DigitRun(if hex then u[2..] else u, radix);
    if z == [] then None else Some(ValueOf(z, radix))
  }

  /** `parseInt` after white space is skipped: an optional sign, then the
      magnitude. */
  function ParseSigned(t: string): Option<int> {
    if |t| > 0 && (t[0] == '-' || t[0] == '+') then
      match ParseMagnitude(t[1..])
      case None => None
      case Some(m) => Some(if t[0] == '-' then -(m as int) else m)
    else
      match ParseMagnitude(t)
      case None => None
      case Some(m) => Some(m)
  }

  /** `parseInt(s)` with no radix: skip leading white space, take an
      optional sign, then read the magnitude; no digits at all gives `NaN`
      (here `None`). Characters after the digit run are ignored. */
  function ParseInt(s: string): Option<int> {
    ParseSigned(TrimStart(s))
  }

  /** Reading back a decimal rendering gives the number rendered. */
  lemma {:induction false} ValueOfDecimal(n: nat)
    ensures ValueOf(Decimal(n), 10) == n
  {
    if n >= 10 {
      var s := Decimal(n);
      assert s[..|s| - 1] == Decimal(n / 10);
      ValueOfDecimal(n / 10);
    }
  }

  /** Distinct numbers have distinct renderings, so array indices give
      distinct property keys. */
  lemma DecimalInjective(a: nat, b: nat)
    ensures Decimal(a) == Decimal(b) <==> a == b
  {
    if Decimal(a) == Decimal(b) {
      ValueOfDecimal(a);
      ValueOfDecimal(b);
    }
  }

  /** A digit run stops exactly where the digits stop. */
  lemma {:induction false} DigitRunOfDigits(z: string, rest: string, radix: nat)
    requires DigitsIn(z, radix)
    requires rest == [] || DigitOf(rest[0]) >= radix
    ensures DigitRun(z + rest, radix) == z
  {
    if z != [] {
      assert (z + rest)[0] == z[0];
      assert (z + rest)[1..] == z[1..] + rest;
      DigitRunOfDigits(z[1..], rest, radix);
    } else {
      assert z + rest == rest;
    }
  }

  /** Leading white space never changes what `parseInt` reads. */
  lemma {:induction false} TrimStartSkipsWhitespace(w: string, s: string)
    requires forall i :: 0 <= i < |w| ==> IsJsWhitespace(w[i])
    ensures TrimStart(w + s) == TrimStart(s)
  {
    if w != [] {
      assert (w + s)[0] == w[0];
      assert (w + s)[1..] == w[1..] + s;
      assert TrimStart(w + s) == TrimStart((w + s)[1..]);
      TrimStartSkipsWhitespace(w[1..], s);
    } else {
      assert w + s == s;
    }
  }

  /** Text that starts with a decimal rendering has that number as its
      magnitude. */
  lemma ParseMagnitudeDecimal(n: nat, rest: string)
    requires rest == [] || !IsDecimalDigit(rest[0])
    requires n == 0 && rest != [] ==> rest[0] != 'x' && rest[0] != 'X'
    ensures ParseMagnitude(Decimal(n) + rest) == Some(n)
  {
    var d := Decimal(n);
    var u := d + rest;
    assert u[0] == d[0];
    if |u| >= 2 && u[0] == '0' {
      assert |d| == 1 && d[0] == DigitChar(n);
      assert u[1] == rest[0];
    }
    DecimalDigits(n);
    DigitRunOfDigits(d, rest, 10);
    ValueOfDecimal(n);
  }

  /** Text that starts with a digit is not trimmed, and neither is that
      text behind a minus sign. */
  lemma TrimStartOfDigitText(u: string)
    requires u != [] && IsDecimalDigit(u[0])
    ensures TrimStart(u) == u && TrimStart("-" + u) == "-" + u
  {
    assert !IsJsWhitespace(u[0]);
    assert ("-" + u)[0] == '-';
  }

  /** Text that starts with a decimal rendering starts with a digit. */
  lemma DecimalTextStartsWithDigit(n: nat, rest: string)
    ensures Decimal(n) + rest != [] && IsDecimalDigit((Decimal(n) + rest)[0])
  {
  }

  /** Unsigned text that starts with a digit is read as its magnitude. */
  lemma ParseIntUnsigned(u: string, m: nat)
    requires u != [] && IsDecimalDigit(u[0]) && ParseMagnitude(u) == Some(m)
    ensures ParseInt(u) == Some(m)
  {
    TrimStartOfDigitText(u);
  }

  /** The same text behind a minus sign is read as the negated magnitude. */
  lemma ParseIntNegated(u: string, m: nat)
    requires u != [] && IsDecimalDigit(u[0]) && ParseMagnitude(u) == Some(m)
    ensures ParseInt("-" + u) == Some(-(m as int))
  {
    TrimStartOfDigitText(u);
    assert ("-" + u)[0] == '-' && ("-" + u)[1..] == u;
  }

  /** `parseInt` reads back the decimal rendering of `n` whatever
      non-digit text follows it (unless that text turns a lone `0` into a
      hexadecimal prefix). */
  lemma ParseIntDecimal(n: nat, rest: string)
    requires rest == [] || !IsDecimalDigit(rest[0])
    requires n == 0 && rest != [] ==> rest[0] != 'x' && rest[0] != 'X'
    ensures ParseInt(Decimal(n) + rest) == Some(n)
  {
    DecimalTextStartsWithDigit(n, rest);
    ParseMagnitudeDecimal(n, rest);
    ParseIntUnsigned(Decimal(n) + rest, n);
  }

  /** The same behind a minus sign gives the negated number. */
  lemma ParseIntNegativeDecimal(n: nat, rest: string)
    requires rest == [] || !IsDecimalDigit(rest[0])
    requires n == 0 && rest != [] ==> rest[0] != 'x' && rest[0] != 'X'
    ensures ParseInt("-" + (Decimal(n) + rest)) == Some(-(n as int))
  {
    DecimalTextStartsWithDigit(n, rest);
    ParseMagnitudeDecimal(n, rest);
    ParseIntNegated(Decimal(n) + rest, n);
  }

  /** `parseInt` ignores leading white space. */
  lemma ParseIntSkipsWhitespace(w: string, s: string)
    requires forall i :: 0 <= i < |w| ==> IsJsWhitespace(w[i])
    ensures ParseInt(w + s) == ParseInt(s)
  {
    TrimStartSkipsWhitespace(w, s);
  }

  /** Text that starts with something other than white space, a sign or a
      decimal digit is `NaN` to `parseInt`. */
  lemma ParseIntRejectsNonNumeric(s: string)
    requires s != [] && !IsJsWhitespace(s[0]) && s[0] != '-' && s[0] != '+'
    requires !IsDecimalDigit(s[0])
    ensures ParseInt(s).None?
  {
  }
}
