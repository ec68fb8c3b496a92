/**
 * JavaScript values as the frontend receives them, and decimal numerals
 * as it reads them from text: `Number(text)` and `Number.parseFloat(text)`
 * restricted to integer numerals (fractions, exponents, hexadecimal and
 * `Infinity` are not modelled), together with the digit string of a
 * natural number, so that both readers can be shown to give the number
 * back.
 */
module Numerals {
  import opened Common

  /** A loosely typed value: `undefined` and `null` are `JsNull`, numbers
      are exact, NaN and the infinities are told apart. */
  datatype JsValue = JsNull | JsNumber(x: real) | JsNaN | JsInfinity | JsText(s: string) | JsBool(b: bool) | JsObject

  /** JavaScript truthiness. */
  predicate Truthy(v: JsValue)
  {
    match v
    case JsNull => false
    case JsNumber(x) => x != 0.0
    case JsNaN => false
    case JsInfinity => true
    case JsText(s) => s != []
    case JsBool(b) => b
    case JsObject => true
  }

  predicate IsDigit(c: char)
  {
    '0' <= c <= '9'
  }

  predicate AllDigits(s: string)
  {
    forall i :: 0 <= i < |s| ==> IsDigit(s[i])
  }

  function DigitValue(c: char): (r: nat)
    requires IsDigit(c)
    ensures r < 10
  {
    (c as int - '0' as int)
  }

  function DigitChar(d: nat): (r: char)
    requires d < 10
    ensures IsDigit(r) && DigitValue(r) == d
  {
    ('0' as int + d) as char
  }

  /** The value of a digit string, most significant digit first. */
  function DigitsValue(s: string): nat
    requires AllDigits(s)
  {
    if s == [] then 0 else DigitsValue(s[..|s| - 1]) * 10 + DigitValue(s[|s| - 1])
  }

  /** The shortest digit string of `n`. */
  function Decimal(n: nat): (r: string)
    ensures r != [] && AllDigits(r)
    ensures |r| > 1 ==> r[0] != '0'
  {
    if n < 10 then [DigitChar(n)] else Decimal(n / 10) + [DigitChar(n % 10)]
  }

  /** Reading the digits of `n` gives `n` back. */
  lemma {:induction false} DecimalRoundTrip(n: nat)
    ensures DigitsValue(Decimal(n)) == n
  {
    if n >= 10 {
      DecimalRoundTrip(n / 10);
      var d := Decimal(n);
      assert d[..|d| - 1] == Decimal(n / 10);
    }
  }

  /**
   * `Number(text)` on integer numerals: surrounding white space is
   * ignored, blank text is 0, an optional sign may precede the digits,
   * and anything else is NaN (`None`).
   */
  function NumberOf(s: string): (r: Option<int>)
    ensures Trim(s) == [] ==> r == Some(0)
    ensures r.Some? && Trim(s) != [] ==> exists k :: 0 <= k < |Trim(s)| && IsDigit(Trim(s)[k])
  {
    var t := Trim(s);
    if t == [] then Some(0)
    else if (t[0] == '-' || t[0] == '+') && |t| > 1 && AllDigits(t[1..]) then
      assert IsDigit(t[1]) by { assert t[1..][0] == t[1]; }
      var value: int := DigitsValue(t[1..]);
      Some(if t[0] == '-' then -value else value)
    else if AllDigits(t) then
      assert IsDigit(t[0]);
      Some(DigitsValue(t))
    else None
  }

  /** The digit string of a number reads back as the number. */
  lemma NumberOfDecimal(n: nat)
    ensures NumberOf(Decimal(n)) == Some(n)
  {
    DecimalRoundTrip(n);
    NumberOfDigits(Decimal(n));
  }

  /** A non-empty digit string reads as its value. */
  lemma NumberOfDigits(d: string)
    requires d != [] && AllDigits(d)
    ensures NumberOf(d) == Some(DigitsValue(d))
  {
    assert IsDigit(d[0]) && IsDigit(d[|d| - 1]);
    TrimOfTrimmed(d);
    assert d[0] != '-' && d[0] != '+';
  }

  /** So does the digit string with a minus sign, as the negated number. */
  lemma NumberOfNegativeDecimal(n: nat)
    ensures NumberOf("-" + Decimal(n)) == Some(-(n as int))
  {
    DecimalRoundTrip(n);
    NumberOfNegativeDigits(Decimal(n), n);
  }

  /** A minus sign before a non-empty digit string reads as the negated
      value. */
  lemma NumberOfNegativeDigits(d: string, n: nat)
    requires d != [] && AllDigits(d) && DigitsValue(d) == n
    ensures NumberOf("-" + d) == Some(-(n as int))
  {
    var m := "-" + d;
    assert m[1..] == d;
    SignedIsTrimmed(m);
    NumberOfTrimmedNegative(m);
  }

  lemma SignedIsTrimmed(m: string)
    requires |m| > 1 && m[0] == '-' && AllDigits(m[1..])
    ensures Trim(m) == m
  {
    assert IsDigit(m[1..][|m| - 2]);
    TrimOfTrimmed(m);
  }

  lemma NumberOfTrimmedNegative(m: string)
    requires Trim(m) == m && |m| > 1 && m[0] == '-' && AllDigits(m[1..])
    ensures NumberOf(m) == Some(-(DigitsValue(m[1..]) as int))
  {
  }

  /** Text without surrounding white space that holds a non-digit other
      than a leading sign reads as NaN. */
  lemma NumberOfRejectsOtherText(s: string, k: int)
    requires |s| > 0 && !IsSpace(s[0]) && !IsSpace(s[|s| - 1])
    requires 0 <= k < |s| && !IsDigit(s[k]) && (k > 0 || (s[k] != '-' && s[k] != '+'))
    ensures NumberOf(s) == None
  {
    TrimOfTrimmed(s);
    if k > 0 {
      assert s[1..][k - 1] == s[k];
    }
  }

  /** The longest run of digits at the start of `s`. */
  function LeadingDigits(s: string): (r: string)
    ensures AllDigits(r) && |r| <= |s| && r == s[..|r|]
    ensures |r| < |s| ==> !IsDigit(s[|r|])
  {
    if s != [] && IsDigit(s[0]) then [s[0]] + LeadingDigits(s[1..]) else []
  }

  /** Digits followed by anything that does not start with a digit. */
  lemma {:induction false} LeadingDigitsOf(d: string, rest: string)
    requires AllDigits(d) && (rest == [] || !IsDigit(rest[0]))
    ensures LeadingDigits(d + rest) == d
    decreases |d|
  {
    if d != [] {
      assert (d + rest)[1..] == d[1..] + rest;
      LeadingDigitsOf(d[1..], rest);
    } else {
      assert d + rest == rest;
    }
  }

  /**
   * `Number.parseFloat(text)` on integer numerals: leading white space is
   * skipped, an optional sign is read, then the longest run of digits;
   * whatever follows is ignored. Without a digit the result is NaN.
   */
  function ParseFloat(s: string): (r: Option<int>)
    ensures r.Some? ==> TrimStart(s) != []
  {
    var t := TrimStart(s);
    var signed := t != [] && (t[0] == '-' || t[0] == '+');
    var body := if signed then t[1..] else t;
    var digits := LeadingDigits(body);
    var value: int := DigitsValue(digits);
    if digits == [] then None
    else Some(if signed && t[0] == '-' then -value else value)
  }

  /** Digits followed by text that does not continue them parse as their
      value. */
  lemma ParseFloatDigits(d: string, rest: string)
    requires d != [] && AllDigits(d) && (rest == [] || !IsDigit(rest[0]))
    ensures ParseFloat(d + rest) == Some(DigitsValue(d))
  {
    var s := d + rest;
    assert s[0] == d[0] && IsDigit(d[0]);
    assert TrimStart(s) == s by {
      assert !IsSpace(s[0]);
    }
    assert LeadingDigits(s) == d by {
      LeadingDigitsOf(d, rest);
    }
  }

  /** A number followed by text that does not continue it parses as the
      number. */
  lemma ParseFloatDecimal(n: nat, rest: string)
    requires rest == [] || !IsDigit(rest[0])
    ensures ParseFloat(Decimal(n) + rest) == Some(n)
  {
    DecimalRoundTrip(n);
    ParseFloatDigits(Decimal(n), rest);
  }
}
