/**
 * Numeral and number-entry helpers of frontend/src/posapp/format.js:
 * the Arabic-Indic ⇄ Western digit conversions, the precision clamp of the
 * formatters, and the sanitising of typed amounts. Locale formatting
 * (`toLocaleString`) and the right-to-left detection are left out; whether
 * Arabic numerals are wanted is a parameter.
 */
module Format {
  import opened Common

  /** '٠' (U+0660) … '٩' (U+0669). */
  predicate IsArabicDigit(c: char)
  {
    '\U{0660}' <= c <= '\U{0669}'
  }

  predicate IsWesternDigit(c: char)
  {
    '0' <= c <= '9'
  }

  /** The Arabic-Indic characters the parser understands: the ten digits,
      the thousands separator '٬' (U+066C) and the decimal separator '٫'
      (U+066B). */
  predicate IsArabicNumeralChar(c: char)
  {
    IsArabicDigit(c) || c == '\U{066C}' || c == '\U{066B}'
  }

  function FromArabicChar(c: char): (r: char)
    ensures !IsArabicNumeralChar(c) ==> r == c
    ensures IsArabicDigit(c) ==> IsWesternDigit(r) && r as int - '0' as int == c as int - '\U{0660}' as int
    ensures c == '\U{066C}' ==> r == ','
    ensures c == '\U{066B}' ==> r == '.'
    ensures !IsArabicNumeralChar(r)
  {
    if IsArabicDigit(c) then (c as int - 0x0660 + '0' as int) as char
    else if c == '\U{066C}' then ','
    else if c == '\U{066B}' then '.'
    else c
  }

  function ToArabicChar(c: char): (r: char)
    ensures !IsWesternDigit(c) ==> r == c
    ensures IsWesternDigit(c) ==> IsArabicDigit(r) && r as int - '\U{0660}' as int == c as int - '0' as int
  {
    if IsWesternDigit(c) then (c as int - '0' as int + 0x0660) as char else c
  }

  /** `fromArabicNumerals`: character by character; digits become ASCII
      digits, '٬' a comma and '٫' a point. */
  function FromArabic(s: string): (r: string)
    ensures |r| == |s|
    ensures forall i :: 0 <= i < |s| ==> r[i] == FromArabicChar(s[i])
    ensures forall i :: 0 <= i < |s| && IsArabicDigit(s[i]) ==> r[i] as int - '0' as int == s[i] as int - '\U{0660}' as int
    ensures forall i :: 0 <= i < |s| && s[i] == '\U{066C}' ==> r[i] == ','
    ensures forall i :: 0 <= i < |s| && s[i] == '\U{066B}' ==> r[i] == '.'
    ensures forall i :: 0 <= i < |s| && !IsArabicNumeralChar(s[i]) ==> r[i] == s[i]
  {
    seq(|s|, i requires 0 <= i < |s| => FromArabicChar(s[i]))
  }

  /** `toArabicNumerals`: the identity unless Arabic numerals are wanted,
      then each ASCII digit becomes its Arabic-Indic counterpart. */
  function ToArabic(s: string, useArabic: bool): (r: string)
    ensures |r| == |s|
    ensures !useArabic ==> r == s
    ensures useArabic ==> forall i :: 0 <= i < |s| ==> r[i] == ToArabicChar(s[i])
  {
    if !useArabic then s else seq(|s|, i requires 0 <= i < |s| => ToArabicChar(s[i]))
  }

  /** After conversion nothing Arabic-Indic is left, so converting again
      changes nothing. */
  lemma FromArabicIdempotent(s: string)
    ensures forall i :: 0 <= i < |s| ==> !IsArabicNumeralChar(FromArabic(s)[i])
    ensures FromArabic(FromArabic(s)) == FromArabic(s)
  {
  }

  /** For text without Arabic-Indic numerals, converting to Arabic digits
      and back gives the text back, whatever the display mode. */
  lemma ArabicRoundTrip(s: string, useArabic: bool)
    requires forall i :: 0 <= i < |s| ==> !IsArabicNumeralChar(s[i])
    ensures FromArabic(ToArabic(s, useArabic)) == s
  {
  }

  /** Only ASCII digits change on the way to Arabic numerals. */
  lemma ToArabicTouchesDigitsOnly(s: string, useArabic: bool, i: int)
    requires 0 <= i < |s|
    ensures ToArabic(s, useArabic)[i] != s[i] <==> useArabic && IsWesternDigit(s[i])
  {
  }

  // ---------------------------------------------------------------------
  // Precision clamp (format.js:120-124)

  /** `parseInt` of a number: its integer part, truncated toward zero. */
  function TruncateTowardZero(x: real): int
  {
    if x >= 0.0 then x.Floor else -((-x).Floor)
  }

  /** The first significant digit of a number of at least 1. */
  function DigitFromAbove(x: real): (r: int)
    requires x >= 1.0
    ensures 1 <= r <= 9
    decreases x.Floor
  {
    if x < 10.0 then x.Floor else DigitFromAbove(x / 10.0)
  }

  /** The first significant digit of a number strictly between 0 and 1. */
  function DigitFromBelow(x: real): (r: int)
    requires 0.0 < x < 1.0
    ensures 1 <= r <= 9
    decreases (1.0 / x).Floor
  {
    if 10.0 * x >= 1.0 then DigitFromAbove(10.0 * x)
    else
      assert 1.0 / (10.0 * x) == (1.0 / x) / 10.0;
      DigitFromBelow(10.0 * x)
  }

  /** The first significant digit of a positive number. */
  function LeadingDigit(x: real): (r: int)
    requires x > 0.0
    ensures 1 <= r <= 9
  {
    if x >= 1.0 then DigitFromAbove(x) else DigitFromBelow(x)
  }

  /** The leading digit is the integer part in [1, 10) and does not move
      when the number is scaled by ten. */
  lemma LeadingDigitScales(x: real)
    requires x > 0.0
    ensures 1.0 <= x < 10.0 ==> LeadingDigit(x) == x.Floor
    ensures LeadingDigit(10.0 * x) == LeadingDigit(x)
  {
    assert (10.0 * x) / 10.0 == x;
  }

  /** `x` times ten to the `n`. */
  function Shifted(x: real, n: nat): (r: real)
    ensures x > 0.0 ==> r > 0.0
  {
    if n == 0 then x else 10.0 * Shifted(x, n - 1)
  }

  /** Scaling by a power of ten keeps the leading digit. */
  lemma {:induction false} LeadingDigitShift(x: real, n: nat)
    requires x > 0.0
    ensures LeadingDigit(Shifted(x, n)) == LeadingDigit(x)
  {
    if n > 0 {
      LeadingDigitShift(x, n - 1);
      LeadingDigitScales(Shifted(x, n - 1));
    }
  }

  /** Whether `String(x)` writes a non-zero number in exponent form:
      from 1e21 up, and below 1e-6, in magnitude (section 6.1.6.1.20 of
      ECMA-262). */
  predicate ExponentForm(x: real)
  {
    var a := if x >= 0.0 then x else -x;
    a >= 1_000_000_000_000_000_000_000.0 || (0.0 < a < 0.000_001)
  }

  /** `parseInt(x)` for a non-integral or out-of-range number: the
      integer part when `String(x)` is plain decimal; in exponent form
      (`"1e+21"`, `"5e-7"`, `"-1.5e+22"`) the digits stop at the point or
      the `e`, so only the sign and the leading digit remain. */
  function ParseIntOfNumber(x: real): (r: int)
    ensures !ExponentForm(x) ==> r == TruncateTowardZero(x)
    ensures ExponentForm(x) && x > 0.0 ==> r == LeadingDigit(x)
    ensures ExponentForm(x) && x < 0.0 ==> r == -LeadingDigit(-x)
  {
    if !ExponentForm(x) then TruncateTowardZero(x)
    else if x > 0.0 then LeadingDigit(x)
    else -LeadingDigit(-x)
  }

  /**
   * The precision the formatters use: an integer in [0, 20] is kept;
   * anything else (None stands for NaN) becomes its `parseInt` clamped
   * to [0, 20], where a result of 0 (or NaN) first falls back to 2.
   */
  function ClampPrecision(prec: Option<real>): (r: int)
    ensures 0 <= r <= 20
    ensures prec.Some? && prec.value.Floor as real == prec.value && 0.0 <= prec.value <= 20.0 ==> r == prec.value.Floor
    ensures prec.None? ==> r == 2
    ensures prec.Some? && 20.0 < prec.value < 1_000_000_000_000_000_000_000.0 ==> r == 20
    ensures prec.Some? && prec.value >= 1_000_000_000_000_000_000_000.0 ==> r == LeadingDigit(prec.value)
    ensures prec.Some? && 0.0 < prec.value < 0.000_001 ==> r == LeadingDigit(prec.value)
    ensures prec.Some? && (0.000_001 <= prec.value < 1.0 || -1.0 < prec.value <= -0.000_001) ==> r == 2
    ensures prec.Some? && (prec.value <= -1.0 || -0.000_001 < prec.value < 0.0) ==> r == 0
  {
    match prec
    case None => 2
    case Some(p) =>
      if p.Floor as real == p && 0.0 <= p <= 20.0 then p.Floor
      else
        var t := ParseIntOfNumber(p);
        var fallback := if t == 0 then 2 else t;
        Min(Max(fallback, 0), 20)
  }

  /** From 1e21 up the precision reads as its leading digit, and a
      magnitude below 1e-6 as its leading digit too. */
  lemma ExponentFormPrecisions()
    ensures ClampPrecision(Some(1_000_000_000_000_000_000_000.0)) == 1
    ensures ClampPrecision(Some(0.000_000_5)) == 5
    ensures ClampPrecision(Some(999_999_999_999_999_999_999.0)) == 20
  {
    assert Shifted(1.0, 10) == 10_000_000_000.0;
    assert Shifted(10_000_000_000.0, 11) == 1_000_000_000_000_000_000_000.0;
    LeadingDigitShift(1.0, 10);
    LeadingDigitShift(10_000_000_000.0, 11);
    LeadingDigitScales(1.0);
    LeadingDigitScales(0.000_000_5);
    LeadingDigitScales(5.0);
  }

  /** A fractional precision between -1 and 1 truncates to 0, which counts
      as missing, so it becomes 2 rather than 0. */
  lemma SmallFractionBecomesTwo()
    ensures ClampPrecision(Some(0.5)) == 2 && ClampPrecision(Some(-0.5)) == 2
  {
  }

  // ---------------------------------------------------------------------
  // Typed amounts (format.js:164-222)

  /** What `setFormatedCurrency` stores for the parsed input (None stands
      for NaN): 0 for NaN, and with `noNegative` the absolute value. */
  function SanitizeAmount(parsed: Option<real>, noNegative: bool): (r: real)
    ensures parsed.None? ==> r == 0.0
    ensures noNegative ==> r >= 0.0
    ensures parsed.Some? && (parsed.value >= 0.0 || !noNegative) ==> r == parsed.value
    ensures parsed.Some? && parsed.value < 0.0 && noNegative ==> r == -parsed.value
  {
    match parsed
    case None => 0.0
    case Some(v) => if noNegative && v < 0.0 then -v else v
  }

  /** `isNegative`: a missing or unparsable value is not negative. */
  function IsNegative(value: Option<real>): (r: bool)
    ensures value.None? ==> !r
  {
    value.Some? && value.value < 0.0
  }

  /** An amount stored with `noNegative` never shows as negative, and one
      stored without it shows as negative exactly when it was typed so. */
  lemma SanitizedNotNegative(parsed: Option<real>)
    ensures !IsNegative(Some(SanitizeAmount(parsed, true)))
    ensures IsNegative(Some(SanitizeAmount(parsed, false))) <==> IsNegative(parsed)
  {
  }
}
