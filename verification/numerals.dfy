/** Decimal text for integers: `Number.prototype.toString` on integral values and
    `parseInt` with its default radix of ten. JavaScript numbers are modelled as
    unbounded integers here, so precision loss above 2^53 is not represented. */
module Numerals {
  import opened Wrappers
  import opened Text

  predicate IsDigit(c: char) {
    '0' <= c <= '9'
  }

  predicate AllDigits(s: string) {
    forall i :: 0 <= i < |s| ==> IsDigit(s[i])
  }

  function DigitChar(d: nat): (c: char)
    requires d < 10
    ensures IsDigit(c) && c as int - '0' as int == d
  {
    (d + '0' as int) as char
  }

  function DigitValue(c: char): nat
    requires IsDigit(c)
  {
    c as int - '0' as int
  }

  /** `n.toString()` for a non-negative integer: its decimal digits, with no leading
      zero unless the number is zero itself. */
  function DecimalString(n: nat): (r: string)
    ensures |r| >= 1 && AllDigits(r)
    ensures r[0] == '0' ==> r == "0"
  {
    if n < 10 then [DigitChar(n)] else DecimalString(n / 10) + [DigitChar(n % 10)]
  }

  /** The number a string of decimal digits denotes. */
  function DecimalValue(s: string): nat
    requires AllDigits(s)
  {
    if |s| == 0 then 0 else DecimalValue(s[..|s| - 1]) * 10 + DigitValue(s[|s| - 1])
  }

  /** Reading back the decimal text of a number gives the number. */
  lemma {:induction false} DecimalRoundTrip(n: nat)
    ensures DecimalValue(DecimalString(n)) == n
  {
    if n >= 10 {
      var prefix := DecimalString(n / 10);
      var s := DecimalString(n);
      assert s == prefix + [DigitChar(n % 10)];
      assert s[..|s| - 1] == prefix;
      DecimalRoundTrip(n / 10);
    }
  }

  /** Distinct numbers print differently, so identifiers made from distinct clock
      readings are distinct. */
  lemma DecimalStringInjective(a: nat, b: nat)
    ensures DecimalString(a) == DecimalString(b) <==> a == b
  {
    if DecimalString(a) == DecimalString(b) {
      DecimalRoundTrip(a);
      DecimalRoundTrip(b);
    }
  }

  /** Template-literal interpolation of an integer: a minus sign for negative values. */
  function IntToString(i: int): (r: string)
    ensures |r| >= 1
    ensures r[0] == '-' <==> i < 0
  {
    if i < 0 then "-" + DecimalString(-i) else DecimalString(i)
  }

  /** The longest run of decimal digits at the start of `s`. */
  function DigitPrefix(s: string): (r: string)
    ensures AllDigits(r) && |r| <= |s| && r == s[..|r|]
    ensures |r| < |s| ==> !IsDigit(s[|r|])
  {
    if |s| > 0 && IsDigit(s[0]) then [s[0]] + DigitPrefix(s[1..]) else []
  }

  /** `parseInt(s)`: leading white space skipped, an optional sign, then as many decimal
      digits as follow; None stands for NaN (no digit at all). */
  function ParseInt(s: string): Option<int> {
    ParseSigned(TrimStart(s))
  }

  /** An optional sign followed by digits. */
  function ParseSigned(t: string): Option<int> {
    if |t| > 0 && t[0] == '-' then
      var magnitude := ParseDigits(t[1..]);
      if magnitude.None? then None else Some(-magnitude.value)
    else if |t| > 0 && t[0] == '+' then ParseDigits(t[1..])
    else ParseDigits(t)
  }

  /** The value of the leading digits, if there is at least one. */
  function ParseDigits(b: string): Option<int> {
    var d := DigitPrefix(b);
    if d == [] then None else Some(DecimalValue(d) as int)
  }

  lemma {:induction false} DigitPrefixOfDigits(d: string, tail: string)
    requires AllDigits(d)
    ensures DigitPrefix(d + tail) == d + DigitPrefix(tail)
    decreases |d|
  {
    if |d| > 0 {
      assert (d + tail)[0] == d[0] && IsDigit(d[0]);
      assert (d + tail)[1..] == d[1..] + tail;
      DigitPrefixOfDigits(d[1..], tail);
      assert d == [d[0]] + d[1..];
    } else {
      assert d + tail == tail;
    }
  }

  /** Leading white space does not change what `parseInt` reads. */
  lemma ParseIntSkipsSpace(ws: string, t: string)
    requires AllSpace(ws) && (t == [] || !IsSpace(t[0]))
    ensures ParseInt(ws + t) == ParseSigned(t)
  {
    TrimStartSkips(ws, t);
  }

  /** Digits followed by a tail that does not start with a digit. */
  lemma ParseDigitsBeforeTail(digits: string, tail: string)
    requires AllDigits(digits) && |digits| >= 1
    requires tail == [] || !IsDigit(tail[0])
    ensures ParseDigits(digits + tail) == Some(DecimalValue(digits) as int)
  {
    DigitPrefixOfDigits(digits, tail);
    assert DigitPrefix(tail) == [];
  }

  /** A minus sign negates whatever the digits after it denote. */
  lemma ParseSignedNegative(b: string)
    ensures ParseSigned(['-'] + b) == (if ParseDigits(b).None? then None else Some(-ParseDigits(b).value))
  {
    var t := ['-'] + b;
    assert t[0] == '-' && t[1..] == b;
  }

  lemma ParseSignedNegativeValue(digits: string, x: string)
    requires AllDigits(digits)
    requires ParseDigits(x) == Some(DecimalValue(digits) as int)
    ensures ParseSigned(['-'] + x) == Some(-(DecimalValue(digits) as int))
  {
    ParseSignedNegative(x);
  }

  /** `parseInt` of white space, digits, and a tail that does not start with a digit. */
  lemma ParseIntOfDigits(ws: string, digits: string, tail: string)
    requires AllSpace(ws)
    requires AllDigits(digits) && |digits| >= 1
    requires tail == [] || !IsDigit(tail[0])
    ensures ParseInt(ws + (digits + tail)) == Some(DecimalValue(digits) as int)
  {
    var t := digits + tail;
    assert t[0] == digits[0] && IsDigit(t[0]);
    ParseDigitsBeforeTail(digits, tail);
    assert ParseSigned(t) == ParseDigits(t);
    ParseIntSkipsSpace(ws, t);
  }

  /** `parseInt` of white space, a minus sign, digits, and a tail that does not start
      with a digit. */
  lemma ParseIntOfNegativeDigits(ws: string, digits: string, tail: string)
    requires AllSpace(ws)
    requires AllDigits(digits) && |digits| >= 1
    requires tail == [] || !IsDigit(tail[0])
    ensures ParseInt(ws + (['-'] + (digits + tail))) == Some(-(DecimalValue(digits) as int))
  {
    var t := ['-'] + (digits + tail);
    ParseDigitsBeforeTail(digits, tail);
    ParseSignedNegativeValue(digits, digits + tail);
    assert t[0] == '-';
    ParseIntSkipsSpace(ws, t);
  }

  lemma PrintedNegative(ws: string, digits: string, tail: string)
    ensures ws + (['-'] + digits) + tail == ws + (['-'] + (digits + tail))
  {
  }

  lemma PrintedNonNegative(ws: string, digits: string, tail: string)
    ensures ws + digits + tail == ws + (digits + tail)
  {
  }

  /** `parseInt` reads back the printed form of any integer, whatever white space
      precedes it and whatever non-digit text follows it ("25", " -3", "7.5" -> 7). */
  lemma ParseIntReadsPrinted(ws: string, i: int, tail: string)
    requires AllSpace(ws)
    requires tail == [] || !IsDigit(tail[0])
    ensures ParseInt(ws + IntToString(i) + tail) == Some(i)
  {
    var m: nat := if i < 0 then -i else i;
    var digits := DecimalString(m);
    DecimalRoundTrip(m);
    if i < 0 {
      assert IntToString(i) == ['-'] + digits;
      PrintedNegative(ws, digits, tail);
      ParseIntOfNegativeDigits(ws, digits, tail);
    } else {
      assert IntToString(i) == digits;
      PrintedNonNegative(ws, digits, tail);
      ParseIntOfDigits(ws, digits, tail);
    }
  }
}
