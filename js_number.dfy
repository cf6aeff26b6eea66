/**
 * `parseInt(s)` with no radix, as ECMAScript defines it: leading whitespace is
 * skipped, one `+` or `-` sign is read, a `0x`/`0X` prefix switches to base 16,
 * and the longest run of digits that follows is the value; no digit at all
 * gives NaN.
 */
module JsNumber {
  import opened JsString

  /** The number `parseInt` returns: NaN or an integer (negative zero is zero here). */
  datatype ParsedInt = NaN | Int(value: int)

  predicate IsDecimalDigit(c: char) {
    '0' <= c <= '9'
  }

  predicate IsRadixDigit(c: char, hex: bool) {
    IsDecimalDigit(c) || (hex && ('a' <= c <= 'f' || 'A' <= c <= 'F'))
  }

  function DigitValue(c: char): (d: nat)
    ensures IsDecimalDigit(c) ==> d < 10
    ensures d < 16
  {
    if IsDecimalDigit(c) then c as int - '0' as int
    else if 'a' <= c <= 'f' then c as int - 'a' as int + 10
    else if 'A' <= c <= 'F' then c as int - 'A' as int + 10
    else 0
  }

  /** The longest prefix of `s` made of digits of the radix. */
  function DigitPrefix(s: string, hex: bool): (d: string)
    ensures d <= s
    ensures forall i :: 0 <= i < |d| ==> IsRadixDigit(d[i], hex)
    ensures |d| < |s| ==> !IsRadixDigit(s[|d|], hex)
  {
    if s != [] && IsRadixDigit(s[0], hex) then [s[0]] + DigitPrefix(s[1..], hex) else []
  }

  /** The value of a digit string, most significant digit first. */
  function ValueOf(digits: string, hex: bool): nat {
    if digits == [] then 0
    else ValueOf(digits[..|digits| - 1], hex) * (if hex then 16 else 10) + DigitValue(digits[|digits| - 1])
  }

  /** Text that starts with `0x` or `0X`, which `parseInt` reads in base 16. */
  predicate HexPrefixed(u: string) {
    |u| >= 2 && u[0] == '0' && (u[1] == 'x' || u[1] == 'X')
  }

  /**
   * The unsigned part: an optional `0x`/`0X` prefix, then the longest run of
   * digits. A number is read only from text that starts with a decimal digit.
   */
  function ParseMagnitude(u: string): (n: ParsedInt)
    ensures n.Int? ==> n.value >= 0
    ensures n.Int? ==> |u| > 0 && IsDecimalDigit(u[0])
    ensures |u| > 0 && IsDecimalDigit(u[0]) && !HexPrefixed(u) ==> n.Int?
  {
    var hex := HexPrefixed(u);
    var digits := DigitPrefix(if hex then u[2..] else u, hex);
    if digits == [] then NaN else Int(ValueOf(digits, hex))
  }

  /** At most one sign, then the unsigned part; a `-` negates a number and leaves NaN alone. */
  function ParseSigned(t: string): (n: ParsedInt)
    ensures n.Int? ==>
      |t| > 0 && (IsDecimalDigit(t[0]) || (|t| > 1 && (t[0] == '-' || t[0] == '+') && IsDecimalDigit(t[1])))
  {
    if |t| > 0 && (t[0] == '-' || t[0] == '+') then
      var m := ParseMagnitude(t[1..]);
      if t[0] == '-' && m.Int? then Int(-m.value) else m
    else ParseMagnitude(t)
  }

  /**
   * `parseInt(s)`: a number comes back only when, after the leading
   * whitespace and at most one sign, the text starts with a decimal digit.
   */
  function ParseInt(s: string): (n: ParsedInt)
    ensures n.Int? ==>
      var t := TrimStart(s);
      |t| > 0 && (IsDecimalDigit(t[0]) || (|t| > 1 && (t[0] == '-' || t[0] == '+') && IsDecimalDigit(t[1])))
  {
    ParseSigned(TrimStart(s))
  }

  /** The canonical decimal numeral of `n`: no sign, no leading zero except for 0 itself. */
  function Decimal(n: nat): (s: string)
    ensures |s| >= 1
    ensures forall i :: 0 <= i < |s| ==> IsDecimalDigit(s[i])
    ensures n > 0 ==> s[0] != '0'
  {
    if n < 10 then ['0' + n as char] else Decimal(n / 10) + ['0' + (n % 10) as char]
  }

  lemma {:induction false} DigitPrefixOfDigits(d: string, rest: string, hex: bool)
    requires forall i :: 0 <= i < |d| ==> IsRadixDigit(d[i], hex)
    requires rest == [] || !IsRadixDigit(rest[0], hex)
    ensures DigitPrefix(d + rest, hex) == d
  {
    if d != [] {
      assert (d + rest)[1..] == d[1..] + rest;
      DigitPrefixOfDigits(d[1..], rest, hex);
    } else {
      assert d + rest == rest;
    }
  }

  lemma {:induction false} ValueOfDecimal(n: nat)
    ensures ValueOf(Decimal(n), false) == n
  {
    if n >= 10 {
      var s := Decimal(n);
      assert s[..|s| - 1] == Decimal(n / 10);
      ValueOfDecimal(n / 10);
    }
  }

  lemma MagnitudeOfDecimal(n: nat, rest: string)
    requires rest == [] || !IsDecimalDigit(rest[0])
    requires n == 0 && rest != [] ==> rest[0] != 'x' && rest[0] != 'X'
    ensures ParseMagnitude(Decimal(n) + rest) == Int(n)
  {
    var u := Decimal(n) + rest;
    assert u[0] == Decimal(n)[0];
    DigitPrefixOfDigits(Decimal(n), rest, false);
    ValueOfDecimal(n);
  }

  /**
   * `parseInt` reads back a decimal numeral, and stops at the first character
   * that is not a digit ("100px" reads as 100); "0" followed by `x` would be a
   * hexadecimal prefix instead.
   */
  lemma ParseIntDecimal(n: nat, rest: string)
    requires rest == [] || !IsDecimalDigit(rest[0])
    requires n == 0 && rest != [] ==> rest[0] != 'x' && rest[0] != 'X'
    ensures ParseInt(Decimal(n) + rest) == Int(n)
  {
    var s := Decimal(n) + rest;
    assert s[0] == Decimal(n)[0];
    assert TrimStart(s) == s;
    MagnitudeOfDecimal(n, rest);
  }

  /** Text that starts with neither whitespace nor a sign is read by the unsigned part alone. */
  lemma ParseIntUnsigned(u: string)
    requires |u| > 0 && !IsWhitespace(u[0]) && u[0] != '-' && u[0] != '+'
    ensures ParseInt(u) == ParseMagnitude(u)
  {
    assert TrimStart(u) == u;
  }

  /**
   * A `0x` or `0X` prefix reads the hexadecimal digits after it ("0X1A" is 26),
   * up to the first non-digit; with no hexadecimal digit after it ("0xg") the result is NaN.
   */
  lemma ParseIntHex(prefix: string, d: string, rest: string)
    requires prefix == "0x" || prefix == "0X"
    requires forall i :: 0 <= i < |d| ==> IsRadixDigit(d[i], true)
    requires rest == [] || !IsRadixDigit(rest[0], true)
    ensures ParseInt(prefix + (d + rest)) == if d == [] then NaN else Int(ValueOf(d, true))
  {
    var u := prefix + (d + rest);
    assert u[0] == '0' && (u[1] == 'x' || u[1] == 'X') && u[2..] == d + rest;
    ParseIntUnsigned(u);
    DigitPrefixOfDigits(d, rest, true);
  }

  /** A leading `-` negates whatever the rest reads as, and leaves NaN alone. */
  lemma ParseIntMinus(u: string)
    ensures ParseInt("-" + u) == (var m := ParseMagnitude(u); if m.Int? then Int(-m.value) else m)
  {
    var s := "-" + u;
    assert s[0] == '-';
    assert s[1..] == u;
    assert TrimStart(s) == s;
  }

  /**
   * Any run of decimal digits, leading zeros included ("08" is 8), reads as
   * its value up to the first non-digit, unless it is the `0x` prefix.
   */
  lemma ParseMagnitudeDecimal(d: string, rest: string)
    requires |d| > 0 && forall i :: 0 <= i < |d| ==> IsDecimalDigit(d[i])
    requires rest == [] || !IsDecimalDigit(rest[0])
    requires !HexPrefixed(d + rest)
    ensures ParseMagnitude(d + rest) == Int(ValueOf(d, false))
  {
    DigitPrefixOfDigits(d, rest, false);
  }

  /** Leading whitespace is skipped: it never changes what `parseInt` reads. */
  lemma ParseIntSkipsWhitespace(w: string, s: string)
    requires forall i :: 0 <= i < |w| ==> IsWhitespace(w[i])
    ensures ParseInt(w + s) == ParseInt(s)
  {
    TrimStartWhitespace(w, s);
  }

  /** A leading `+` is dropped: the rest is read as the unsigned part. */
  lemma ParseIntPlus(u: string)
    ensures ParseInt("+" + u) == ParseMagnitude(u)
  {
    var s := "+" + u;
    assert s[0] == '+';
    assert s[1..] == u;
    assert TrimStart(s) == s;
  }

  /** `parseInt("-" + numeral)` is the negated value. */
  lemma ParseIntNegative(n: nat, rest: string)
    requires rest == [] || !IsDecimalDigit(rest[0])
    requires n == 0 && rest != [] ==> rest[0] != 'x' && rest[0] != 'X'
    ensures ParseInt("-" + (Decimal(n) + rest)) == Int(-(n as int))
  {
    var u := Decimal(n) + rest;
    MagnitudeOfDecimal(n, rest);
    assert ParseMagnitude(u) == Int(n);
    ParseIntMinus(u);
  }

  /** Text without any decimal digit is NaN. */
  lemma ParseIntNoDigits(s: string)
    requires forall i :: 0 <= i < |s| ==> !IsDecimalDigit(s[i])
    ensures ParseInt(s) == NaN
  {
    var t := TrimStart(s);
    assert forall i :: 0 <= i < |t| ==> !IsDecimalDigit(t[i]);
    if |t| > 0 && (t[0] == '-' || t[0] == '+') {
      assert forall i :: 0 <= i < |t[1..]| ==> !IsDecimalDigit(t[1..][i]);
    }
  }
}
