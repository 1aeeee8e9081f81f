/** The component's three tolerant parsers for loosely formatted form fields
    (`parseCurrency`, `parseRate`, `parseInteger`). Unparsable text degrades
    to 0 and is caught later by validation. */
module Parsers {
  import opened Optional
  import opened Numbers
  import opened Text

  /** The class `[$,\s]`. It never matches a character of a number. */
  predicate CurrencyJunk(c: char)
    ensures CurrencyJunk(c) ==> !IsDigit(c) && c !in ".+-"
  {
    c == '$' || c == ',' || IsSpace(c)
  }

  /** The class `[%\s]`. It never matches a character of a number. */
  predicate RateJunk(c: char)
    ensures RateJunk(c) ==> !IsDigit(c) && c !in ".+-"
  {
    c == '%' || IsSpace(c)
  }

  /** The class `[^\d.]`: it drops everything the other two classes drop,
      and signs as well. */
  predicate NotNumeric(c: char)
    ensures CurrencyJunk(c) || RateJunk(c) || c in "+-" ==> NotNumeric(c)
    ensures IsDigit(c) || c == '.' ==> !NotNumeric(c)
  {
    !IsDigit(c) && c != '.'
  }

  /** A currency amount: dollar signs, commas and white space are dropped,
      the leading number is read and rounded to the nearest cent. */
  function ParseCurrency(value: string): (r: real)
    ensures IsCents(r)
    ensures value == "" ==> r == 0.0
    ensures ParseFloat(Remove(value, CurrencyJunk)).None? ==> r == 0.0
    ensures ParseFloat(Remove(value, CurrencyJunk)).Some? ==>
              var v := ParseFloat(Remove(value, CurrencyJunk)).value;
              r - 0.005 <= v < r + 0.005
  {
    if value == "" then 0.0
    else
      match ParseFloat(Remove(value, CurrencyJunk))
      case None => 0.0
      case Some(v) => Round2(v)
  }

  /** An annual percentage rate: percent signs and white space are dropped;
      a number above 1 is taken as a percentage already, anything else as a
      fraction that is scaled to a percentage. */
  function ParseRate(value: string): (r: real)
    ensures value == "" ==> r == 0.0
    ensures ParseFloat(Remove(value, RateJunk)).None? ==> r == 0.0
    ensures ParseFloat(Remove(value, RateJunk)).Some? ==>
              var v := ParseFloat(Remove(value, RateJunk)).value;
              (v > 1.0 ==> r == v) && (v <= 1.0 ==> r == v * 100.0)
  {
    if value == "" then 0.0
    else
      match ParseFloat(Remove(value, RateJunk))
      case None => 0.0
      case Some(v) => if v > 1.0 then v else v * 100.0
  }

  /** A whole number: everything but digits and dots is dropped and the
      leading run of digits is read. The result is never negative. */
  function ParseInteger(value: string): (r: nat)
    ensures value == "" ==> r == 0
    ensures |Remove(value, NotNumeric)| == 0 || Remove(value, NotNumeric)[0] == '.' ==> r == 0
  {
    if value == "" then 0
    else
      match ParseLeadingInt(Remove(value, NotNumeric))
      case None => 0
      case Some(n) => n
  }

  /** "0", the fallback text for a missing extra payment, reads as 0. */
  lemma ParseCurrencyOfZero()
    ensures ParseCurrency("0") == 0.0
  {
    assert Remove("0", CurrencyJunk) == "0";
    assert LeadingDigits("0") == "0";
    assert ParseFloat("0") == Some(0.0);
    Round2OfHundredths(0);
  }

  /** No digit of `s` comes before its first dot. */
  predicate NoDigitBeforeDot(s: string) {
    |s| == 0 || s[0] == '.' || (!IsDigit(s[0]) && NoDigitBeforeDot(s[1..]))
  }

  lemma {:induction false} CleanedTailHasNoLeadingDigit(tail: string)
    requires NoDigitBeforeDot(tail)
    ensures var t := Remove(tail, NotNumeric); |t| == 0 || t[0] == '.'
  {
    if |tail| > 0 && tail[0] != '.' {
      CleanedTailHasNoLeadingDigit(tail[1..]);
    }
  }

  /** A numeral followed by words or a decimal part reads back as the
      numeral: "30 years" and "30.0" both give 30. */
  lemma ParseIntegerOfNumeral(n: nat, tail: string)
    requires NoDigitBeforeDot(tail)
    ensures ParseInteger(NatToString(n) + tail) == n
  {
    var digits := NatToString(n);
    RemoveAppend(digits, tail, NotNumeric);
    RemoveNothing(digits, NotNumeric);
    CleanedTailHasNoLeadingDigit(tail);
    LeadingDigitsOf(digits, Remove(tail, NotNumeric));
  }

  /** A whole number of hundredths written with two decimals reads back as
      itself. */
  lemma ParseCurrencyOfCentsText(k: nat)
    ensures ParseCurrency(CentsText(k)) == k as real / 100.0
  {
    var s, c := CentsText(k), k as real / 100.0;
    CentsTextClean(k);
    ParseFloatCentsText(k);
    ParseCurrencyOfParsed(s, c);
    Round2OfHundredths(k);
  }

  /** Text whose cleaned form `parseFloat` reads as `v` parses as `v`
      rounded to cents. */
  lemma ParseCurrencyOfParsed(s: string, v: real)
    requires ParseFloat(Remove(s, CurrencyJunk)) == Some(v)
    ensures ParseCurrency(s) == Round2(v)
  {
    assert s != "";
  }

  /** Two-decimal text holds no character the parsers drop. */
  lemma CentsTextClean(k: nat)
    ensures Remove(CentsText(k), CurrencyJunk) == CentsText(k)
    ensures Remove(CentsText(k), RateJunk) == CentsText(k)
  {
    var s := CentsText(k);
    forall i | 0 <= i < |s|
      ensures !CurrencyJunk(s[i]) && !RateJunk(s[i])
    {
      assert IsDigit(s[i]) || s[i] == '.';
    }
    RemoveNothing(s, CurrencyJunk);
    RemoveNothing(s, RateJunk);
  }

  /** The text `toFixed(2)` produces for a non-negative amount, which the
      engine writes back into the monthly payment field, reads back as that
      amount rounded to cents. */
  lemma ParseCurrencyOfToFixed2(x: real)
    requires x >= 0.0
    ensures ParseCurrency(ToFixed2(x)) == Round2(x)
  {
    var k: nat := (x * 100.0 + 0.5).Floor;
    assert ToFixed2(x) == CentsText(k);
    assert Round2(x) == k as real / 100.0;
    ParseCurrencyOfCentsText(k);
  }

  /** Reading a two-decimal rate back: values up to 1 are multiplied by 100,
      so "0.50" and "50.00" give the same rate. */
  lemma ParseRateOfToFixed2(x: real)
    requires x >= 0.0
    ensures var c := Round2(x);
            ParseRate(ToFixed2(x)) == if c > 1.0 then c else c * 100.0
  {
    var k: nat := (x * 100.0 + 0.5).Floor;
    var s := CentsText(k);
    assert ToFixed2(x) == s;
    CentsTextClean(k);
    ParseFloatCentsText(k);
  }
}
