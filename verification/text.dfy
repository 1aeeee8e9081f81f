/** The JavaScript string built-ins the engine relies on: character-class
    removal with `replace(/[...]/g, '')`, `parseFloat`, `parseInt`, and the
    decimal renderings of integers and of `toFixed(2)`. */
module Text {
  import opened Optional

  predicate IsDigit(c: char) {
    '0' <= c <= '9'
  }

  predicate AllDigits(s: string) {
    forall i :: 0 <= i < |s| ==> IsDigit(s[i])
  }

  /** The characters matched by `\s` in a JavaScript regular expression;
      none of them belongs to a number. */
  predicate IsSpace(c: char)
    ensures IsSpace(c) ==> !IsDigit(c) && c !in ".+-"
  {
    || c == ' ' || c == '\t' || c == '\n' || c == '\r'
    || c == '\U{000B}' || c == '\U{000C}' || c == '\U{00A0}' || c == '\U{1680}'
    || ('\U{2000}' <= c <= '\U{200A}')
    || c == '\U{2028}' || c == '\U{2029}' || c == '\U{202F}' || c == '\U{205F}'
    || c == '\U{3000}' || c == '\U{FEFF}'
  }

  /** `s.replace(/[...]/g, '')`: the characters of `s` that the class `drop`
      does not match, in their original order. */
  function Remove(s: string, drop: char -> bool): (r: string)
    ensures |r| <= |s|
    ensures forall i :: 0 <= i < |r| ==> !drop(r[i])
  {
    if |s| == 0 then ""
    else (if drop(s[0]) then "" else [s[0]]) + Remove(s[1..], drop)
  }

  /** Removal works piecewise: it commutes with concatenation. */
  lemma {:induction false} RemoveAppend(a: string, b: string, drop: char -> bool)
    ensures Remove(a + b, drop) == Remove(a, drop) + Remove(b, drop)
  {
    if |a| > 0 {
      assert (a + b)[1..] == a[1..] + b;
      RemoveAppend(a[1..], b, drop);
    } else {
      assert a + b == b;
    }
  }

  /** A string with nothing to remove comes back unchanged. */
  lemma {:induction false} RemoveNothing(s: string, drop: char -> bool)
    requires forall i :: 0 <= i < |s| ==> !drop(s[i])
    ensures Remove(s, drop) == s
  {
    if |s| > 0 {
      RemoveNothing(s[1..], drop);
      assert [s[0]] + s[1..] == s;
    }
  }

  function DigitValue(c: char): (d: nat)
    requires IsDigit(c)
    ensures d < 10
  {
    c as int - '0' as int
  }

  function DigitChar(d: nat): (c: char)
    requires d < 10
    ensures IsDigit(c) && DigitValue(c) == d
  {
    ('0' as int + d) as char
  }

  /** The longest prefix of `s` made of decimal digits. */
  function LeadingDigits(s: string): (r: string)
    ensures r <= s && AllDigits(r)
    ensures |r| == |s| || !IsDigit(s[|r|])
  {
    if |s| > 0 && IsDigit(s[0]) then [s[0]] + LeadingDigits(s[1..]) else ""
  }

  /** A run of digits followed by a non-digit (or nothing) is exactly the
      leading run. */
  lemma LeadingDigitsOf(ds: string, rest: string)
    requires AllDigits(ds)
    requires |rest| == 0 || !IsDigit(rest[0])
    ensures LeadingDigits(ds + rest) == ds
  {
    assert (ds + rest)[..|ds|] == ds;
  }

  /** The value of a string of decimal digits, most significant first. */
  function DigitsValue(ds: string): nat
    requires AllDigits(ds)
  {
    if |ds| == 0 then 0
    else 10 * DigitsValue(ds[..|ds| - 1]) + DigitValue(ds[|ds| - 1])
  }

  /** The value of the digits after a decimal point: `0.d1d2d3...`. */
  function FractionValue(ds: string): (v: real)
    requires AllDigits(ds)
    ensures 0.0 <= v < 1.0
  {
    if |ds| == 0 then 0.0
    else (DigitValue(ds[0]) as real + FractionValue(ds[1..])) / 10.0
  }

  /** `parseFloat` on a string without leading white space: an optional sign,
      then an unsigned number; the longest such prefix is read and the rest
      ignored. Without a digit the result is `NaN` (here `None`). */
  function ParseFloat(s: string): (r: Option<real>)
    ensures |s| > 0 && IsDigit(s[0]) ==> r == ParseUnsigned(s)
    ensures |s| == 0 || (!IsDigit(s[0]) && s[0] !in "+-.") ==> r.None?
  {
    var negative := |s| > 0 && s[0] == '-';
    var unsigned := if |s| > 0 && (s[0] == '-' || s[0] == '+') then s[1..] else s;
    match ParseUnsigned(unsigned)
    case None => None
    case Some(magnitude) => Some(if negative then -magnitude else magnitude)
  }

  /** Digits and an optional `.` with more digits; at least one digit in
      all. Text starting with a digit reads within 1 of its integer part. */
  function ParseUnsigned(s: string): (r: Option<real>)
    ensures |s| > 0 && IsDigit(s[0]) ==>
              r.Some? && DigitsValue(LeadingDigits(s)) as real <= r.value < DigitsValue(LeadingDigits(s)) as real + 1.0
    ensures |s| == 0 || (!IsDigit(s[0]) && s[0] != '.') ==> r.None?
  {
    var whole := LeadingDigits(s);
    var rest := s[|whole|..];
    var fraction := if |rest| > 0 && rest[0] == '.' then LeadingDigits(rest[1..]) else "";
    if |whole| == 0 && |fraction| == 0 then None
    else Some(DigitsValue(whole) as real + FractionValue(fraction))
  }

  /** `parseInt` on a string holding only digits and dots: the leading run of
      digits, or `NaN` (here `None`) when there is none. */
  function ParseLeadingInt(s: string): (r: Option<nat>)
    ensures r.None? <==> |s| == 0 || !IsDigit(s[0])
  {
    var ds := LeadingDigits(s);
    if |ds| == 0 then None else Some(DigitsValue(ds))
  }

  /** The decimal rendering of a natural number, as template literals and
      `String(n)` produce it. */
  function NatToString(n: nat): (s: string)
    ensures |s| >= 1 && AllDigits(s)
    ensures DigitsValue(s) == n
    ensures s[0] == '0' ==> n == 0
  {
    if n < 10 then [DigitChar(n)]
    else
      var s := NatToString(n / 10) + [DigitChar(n % 10)];
      assert s[..|s| - 1] == NatToString(n / 10);
      s
  }

  /** A whole number `k` of hundredths written with exactly two decimals. */
  function CentsText(k: nat): (s: string)
    ensures |s| >= 4 && AllDigits(s[..|s| - 3]) && s[|s| - 3] == '.'
    ensures forall i :: 0 <= i < |s| ==> IsDigit(s[i]) || s[i] == '.'
  {
    NatToString(k / 100) + "." + [DigitChar(k % 100 / 10), DigitChar(k % 10)]
  }

  /** `x.toFixed(2)` for amounts below 10^21: the nearest number of hundredths,
      half-way cases rounded away from zero, with a leading `-` when `x < 0`. */
  function ToFixed2(x: real): (s: string)
    ensures x >= 0.0 ==> |s| > 0 && IsDigit(s[0])
    ensures x < 0.0 ==> |s| > 0 && s[0] == '-'
  {
    if x < 0.0 then "-" + CentsText((-x * 100.0 + 0.5).Floor)
    else CentsText((x * 100.0 + 0.5).Floor)
  }

  /** `parseFloat` reads back a two-decimal rendering exactly. */
  lemma ParseFloatCentsText(k: nat)
    ensures ParseFloat(CentsText(k)) == Some(k as real / 100.0)
  {
    var t := CentsText(k);
    ParseUnsignedCentsText(k);
    assert t[..|t| - 3][0] == t[0];
  }

  /** The unsigned reading of a two-decimal rendering is its value. */
  lemma ParseUnsignedCentsText(k: nat)
    ensures ParseUnsigned(CentsText(k)) == Some(k as real / 100.0)
  {
    var q, d1, d2 := k / 100, k % 100 / 10, k % 10;
    HundredthsDigits(k);
    var digits := [DigitChar(d1), DigitChar(d2)];
    CentsTextParts(k, q, digits);
    ParseUnsignedDecimal(NatToString(q), digits);
    TwoDigitFraction(d1, d2);
    HundredthsValue(k, q, 10 * d1 + d2);
  }

  /** A count of hundredths is its whole part and two decimal digits. */
  lemma HundredthsDigits(k: nat)
    ensures k % 100 / 10 < 10 && k % 10 < 10
    ensures k == 100 * (k / 100) + (10 * (k % 100 / 10) + k % 10)
  {
    var q, r := k / 100, k % 100;
    assert k == 100 * q + r && 0 <= r < 100;
    var t, u := r / 10, r % 10;
    assert r == 10 * t + u && 0 <= u < 10;
    DivModTen(k, 10 * q + t, u);
  }

  lemma HundredthsValue(k: nat, q: nat, m: nat)
    requires k == 100 * q + m
    ensures k as real / 100.0 == q as real + m as real / 100.0
  {
  }

  /** The two-decimal rendering, split at the dot. */
  lemma CentsTextParts(k: nat, q: nat, digits: string)
    requires q == k / 100 && digits == [DigitChar(k % 100 / 10), DigitChar(k % 10)]
    ensures CentsText(k) == NatToString(q) + ("." + digits)
  {
  }

  /** Two decimals `.d1d2` are worth `d1d2` hundredths. */
  lemma TwoDigitFraction(d1: nat, d2: nat)
    requires d1 < 10 && d2 < 10
    ensures FractionValue([DigitChar(d1), DigitChar(d2)]) == (10 * d1 + d2) as real / 100.0
  {
    var digits := [DigitChar(d1), DigitChar(d2)];
    assert digits[1..] == [DigitChar(d2)];
    assert [DigitChar(d2)][1..] == "";
    assert FractionValue([DigitChar(d2)]) == d2 as real / 10.0;
    assert FractionValue(digits) == (d1 as real + d2 as real / 10.0) / 10.0;
  }

  /** Division and remainder by 10 are determined by a decomposition. */
  lemma DivModTen(a: int, q: int, r: int)
    requires a == 10 * q + r && 0 <= r < 10
    ensures a / 10 == q && a % 10 == r
  {
  }

  /** "<digits>.<digits>" reads as the whole part plus the fraction. */
  lemma ParseUnsignedDecimal(whole: string, digits: string)
    requires |whole| > 0 && AllDigits(whole) && AllDigits(digits)
    ensures ParseUnsigned(whole + ("." + digits)) == Some(DigitsValue(whole) as real + FractionValue(digits))
  {
    var s := whole + ("." + digits);
    LeadingDigitsOf(whole, "." + digits);
    var rest := s[|whole|..];
    assert rest == "." + digits && rest[1..] == digits;
    LeadingDigitsOf(digits, "");
    assert digits + "" == digits;
    ParseUnsignedOf(s, whole, rest, digits);
  }

  /** `ParseUnsigned` given its leading digits and the digits after a
      following dot. */
  lemma ParseUnsignedOf(s: string, whole: string, rest: string, fraction: string)
    requires |whole| > 0 && LeadingDigits(s) == whole && rest == s[|whole|..]
    requires |rest| > 0 && rest[0] == '.' && LeadingDigits(rest[1..]) == fraction
    ensures ParseUnsigned(s) == Some(DigitsValue(whole) as real + FractionValue(fraction))
  {
  }
}
