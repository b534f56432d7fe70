/**
 * java.math.BigDecimal values as the rate file's cells produce them, and the
 * BigDecimal(String) constructor for the plain decimal form the file uses:
 * an optional sign, then digits with at most one '.', at least one digit.
 */
module Decimals {
  import opened Wrappers
  import opened Digits

  /** unscaled * 10^(-scale). Datatype equality is BigDecimal.equals, which
      tells 1.21 and 1.2100 apart. Without exponents the scale is the number
      of digits after the point, so it is never negative. */
  datatype Decimal = Decimal(unscaled: int, scale: nat)

  /** The number a decimal stands for; equal numbers may differ in scale. */
  function Value(d: Decimal): real {
    d.unscaled as real / Pow10(d.scale) as real
  }

  /** new BigDecimal(s), or None where it throws NumberFormatException. */
  function ParseDecimal(s: string): (r: Option<Decimal>)
    ensures r.Some? ==> |s| > 0 && (r.value.unscaled < 0 ==> s[0] == '-')
  {
    var signed := |s| > 0 && (s[0] == '+' || s[0] == '-');
    match ParseUnsigned(if signed then s[1..] else s)
    case None => None
    case Some(magnitudeAndScale) =>
      var magnitude: int := magnitudeAndScale.0;
      Some(Decimal(if signed && s[0] == '-' then -magnitude else magnitude, magnitudeAndScale.1))
  }

  /** The digits of body, read as one number, and how many follow the '.'. */
  function ParseUnsigned(body: string): (r: Option<(nat, nat)>)
    ensures r.Some? ==> r.value.1 < |body|
  {
    var n := DigitRun(body);
    var rest := body[n..];
    if |rest| > 0 && !(rest[0] == '.' && AllDigits(rest[1..])) then None
    else
      var fraction := if |rest| == 0 then "" else rest[1..];
      if n + |fraction| == 0 then None
      else
        DigitRunIsLongest(body);
        Some((DigitsValue(body[..n] + fraction), |fraction|))
  }

  /** The text of an unsigned decimal: its integer digits, and the point and
      fraction digits when the number has any. */
  function UnsignedText(intDigits: string, hasPoint: bool, fraction: string): string {
    intDigits + (if hasPoint then "." + fraction else "")
  }

  /** Any digits with at most one point, and at least one digit, are read as
      all their digits with the scale counting those after the point. */
  lemma ParseUnsignedOfParts(intDigits: string, hasPoint: bool, fraction: string)
    requires AllDigits(intDigits) && AllDigits(fraction)
    requires !hasPoint ==> fraction == ""
    requires |intDigits| + |fraction| > 0
    ensures ParseUnsigned(UnsignedText(intDigits, hasPoint, fraction))
         == Some((DigitsValue(intDigits + fraction), |fraction|))
  {
    var tail := if hasPoint then "." + fraction else "";
    var body := intDigits + tail;
    assert UnsignedText(intDigits, hasPoint, fraction) == body;
    DigitRunOfPrefix(intDigits, tail);
    assert body[..|intDigits|] == intDigits;
    assert body[|intDigits|..] == tail;
    if hasPoint {
      assert tail[1..] == fraction;
    }
  }

  /** Conversely, whatever ParseUnsigned accepts is such a text, and its
      result is what that text denotes. */
  lemma ParseUnsignedSound(body: string)
    requires ParseUnsigned(body).Some?
    ensures exists intDigits: string, hasPoint: bool, fraction: string ::
      && AllDigits(intDigits) && AllDigits(fraction)
      && (!hasPoint ==> fraction == "")
      && |intDigits| + |fraction| > 0
      && body == UnsignedText(intDigits, hasPoint, fraction)
      && ParseUnsigned(body).value == (DigitsValue(intDigits + fraction), |fraction|)
  {
    var n := DigitRun(body);
    DigitRunIsLongest(body);
    var rest := body[n..];
    var hasPoint := |rest| > 0;
    var fraction := if hasPoint then rest[1..] else "";
    assert body == UnsignedText(body[..n], hasPoint, fraction) by {
      if hasPoint {
        assert rest == "." + fraction;
      }
      assert body == body[..n] + rest;
    }
  }

  /** Without a sign the digits give the unscaled value. */
  lemma ParseDecimalUnsigned(body: string)
    requires ParseUnsigned(body).Some?
    ensures ParseDecimal(body)
         == Some(Decimal(ParseUnsigned(body).value.0, ParseUnsigned(body).value.1))
  {
    var n := DigitRun(body);
    if n > 0 {
      assert IsDigit(body[0]);
    } else {
      assert body[n..] == body;
    }
  }

  /** A leading '-' negates the value read after it. */
  lemma ParseDecimalMinus(body: string)
    requires ParseUnsigned(body).Some?
    ensures ParseDecimal("-" + body)
         == Some(Decimal(-(ParseUnsigned(body).value.0 as int), ParseUnsigned(body).value.1))
  {
    assert ("-" + body)[1..] == body;
  }

  /** A leading '+' is dropped. */
  lemma ParseDecimalPlus(body: string)
    requires ParseUnsigned(body).Some?
    ensures ParseDecimal("+" + body)
         == Some(Decimal(ParseUnsigned(body).value.0, ParseUnsigned(body).value.1))
  {
    assert ("+" + body)[1..] == body;
  }

  /** The magnitude of the unscaled value. */
  function Magnitude(d: Decimal): nat {
    if d.unscaled < 0 then -d.unscaled else d.unscaled
  }

  /** The digits of the magnitude, with the point before the last scale
      digits and enough leading zeros to have one before the point. */
  function PlainMagnitude(d: Decimal): string {
    var digits := NatToDigits(Magnitude(d), d.scale + 1);
    UnsignedText(digits[..|digits| - d.scale], d.scale > 0, digits[|digits| - d.scale..])
  }

  /** BigDecimal.toPlainString for a non-negative scale. */
  function FormatDecimal(d: Decimal): string {
    if d.unscaled < 0 then "-" + PlainMagnitude(d) else PlainMagnitude(d)
  }

  /** The plain magnitude is read back as the magnitude and the scale. */
  lemma PlainMagnitudeParses(d: Decimal)
    ensures ParseUnsigned(PlainMagnitude(d)) == Some((Magnitude(d), d.scale))
  {
    var digits := NatToDigits(Magnitude(d), d.scale + 1);
    var intDigits := digits[..|digits| - d.scale];
    var fraction := digits[|digits| - d.scale..];
    assert intDigits + fraction == digits;
    NatToDigitsValue(Magnitude(d), d.scale + 1);
    ParseUnsignedOfParts(intDigits, d.scale > 0, fraction);
  }

  /** Every decimal is read back, scale included, from its plain text. */
  lemma ParseFormatRoundTrip(d: Decimal)
    ensures ParseDecimal(FormatDecimal(d)) == Some(d)
  {
    PlainMagnitudeParses(d);
    if d.unscaled < 0 {
      ParseDecimalMinus(PlainMagnitude(d));
    } else {
      ParseDecimalUnsigned(PlainMagnitude(d));
    }
  }

  /** The test's "1.2100" keeps its four fraction digits. */
  lemma TestRateKeepsScale()
    ensures ParseDecimal("1.2100") == Some(Decimal(12100, 4))
  {
    assert NatToDigits(12100, 5) == "12100" by {
      assert NatToDigits(1, 1) == "1";
      assert NatToDigits(12, 2) == "12";
      assert NatToDigits(121, 3) == "121";
      assert NatToDigits(1210, 4) == "1210";
    }
    assert FormatDecimal(Decimal(12100, 4)) == "1.2100";
    ParseFormatRoundTrip(Decimal(12100, 4));
  }

  /** 1.2100 and 1.21 stand for one number but are different BigDecimals,
      so a rate read from "1.2100" is not equal to one read from "1.21". */
  lemma ScaleDistinguishes()
    ensures Decimal(12100, 4) != Decimal(121, 2)
    ensures Value(Decimal(12100, 4)) == Value(Decimal(121, 2))
  {
    assert Pow10(4) == 10000 && Pow10(2) == 100;
  }

  /** BigDecimal refuses an empty cell, a lone point and a second point. */
  lemma NotDecimals()
    ensures ParseDecimal("") == None
    ensures ParseDecimal(".") == None
    ensures ParseDecimal("1.2.3") == None
  {
    assert DigitRun(".") == 0;
    assert DigitRun("1.2.3") == 1 by {
      assert "1.2.3"[1..] == ".2.3";
    }
    assert "1.2.3"[1..] == ".2.3";
    assert !IsDigit("1.2.3"[1..][1..][1]);
  }
}
