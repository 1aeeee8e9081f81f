/** The summary sentence of a successful calculation, "Loan paid off in
    X years and Y months.", and a reader for it that recovers the month
    count, which shows that the sentence states the count faithfully. */
module Payoff {
  import opened Optional
  import opened Text

  const Lead := "Loan paid off in "

  /** "<n> <unit>", with a plural "s" exactly when `n` is not 1. */
  function Count(n: nat, unit: string): (s: string)
    ensures n == 1 ==> s == "1 " + unit
    ensures n != 1 ==> |s| > 0 && s[|s| - 1] == 's' && s[..|s| - 1] == NatToString(n) + " " + unit
  {
    NatToString(n) + " " + unit + (if n != 1 then "s" else "")
  }

  /** The message for a schedule of `totalMonths` months: whole years and
      the remaining months from twelve months on, the "and ..." clause only
      when some months remain, and months alone below a year. */
  function PayoffMessage(totalMonths: nat): (msg: string)
    ensures Lead <= msg && msg[|msg| - 1] == '.'
  {
    if totalMonths >= 12 then
      var years := totalMonths / 12;
      var months := totalMonths % 12;
      if months == 0 then Lead + Count(years, "year") + "."
      else Lead + Count(years, "year") + " and " + Count(months, "month") + "."
    else
      Lead + Count(totalMonths, "month") + "."
  }

  /** Reads "<digits> <unit>" followed by the plural "s" when, and only
      when, the count is not 1; returns the count and the text after it. */
  function ReadCount(s: string, unit: string): Option<(nat, string)>
  {
    var ds := LeadingDigits(s);
    var rest := s[|ds|..];
    var tag := " " + unit;
    if |ds| == 0 || !(tag <= rest) then None
    else
      var n := DigitsValue(ds);
      var after := rest[|tag|..];
      if n == 1 then Some((n, after))
      else if |after| > 0 && after[0] == 's' then Some((n, after[1..]))
      else None
  }

  /** Recovers the month count from a payoff message, accepting only the
      canonical split into years (at least one) and fewer than 12 months. */
  function DecodePayoff(msg: string): Option<nat>
  {
    if !(Lead <= msg) then None
    else
      var body := msg[|Lead|..];
      match ReadCount(body, "year")
      case Some((years, rest)) => if years == 0 then None else DecodeAfterYears(years, rest)
      case None =>
        match ReadCount(body, "month")
        case Some((months, tail)) => if tail == "." && months < 12 then Some(months) else None
        case None => None
  }

  /** The end of a message after its years: "." or " and <months>.". */
  function DecodeAfterYears(years: nat, rest: string): Option<nat>
  {
    if rest == "." then Some(12 * years)
    else if " and " <= rest then
      match ReadCount(rest[5..], "month")
      case Some((months, tail)) =>
        if tail == "." && 0 < months < 12 then Some(12 * years + months) else None
      case None => None
    else None
  }

  /** A count reads back as its value and the text after it. */
  lemma ReadCountOf(n: nat, unit: string, tail: string)
    ensures ReadCount(Count(n, unit) + tail, unit) == Some((n, tail))
  {
    var plural := if n != 1 then "s" else "";
    CountSplit(n, unit, plural, tail);
    ReadCountSplit(NatToString(n), unit, plural + tail);
    if n != 1 {
      assert (plural + tail)[1..] == tail;
    }
  }

  /** A count followed by more text, regrouped around the unit. */
  lemma CountSplit(n: nat, unit: string, plural: string, tail: string)
    requires plural == if n != 1 then "s" else ""
    ensures Count(n, unit) + tail == NatToString(n) + (" " + unit + (plural + tail))
  {
  }

  /** `ReadCount` on digits, the unit, and whatever follows. */
  lemma ReadCountSplit(digits: string, unit: string, after: string)
    requires |digits| > 0 && AllDigits(digits)
    ensures var n := DigitsValue(digits);
            ReadCount(digits + (" " + unit + after), unit)
            == if n == 1 then Some((n, after))
               else if |after| > 0 && after[0] == 's' then Some((n, after[1..]))
               else None
  {
    var tag := " " + unit;
    var rest := tag + after;
    LeadingDigitsOf(digits, rest);
    assert (digits + rest)[|digits|..] == rest;
    assert rest[..|tag|] == tag && rest[|tag|..] == after;
  }

  lemma ReadCountOther(n: nat, unit: string, other: string, tail: string)
    requires |unit| > 0 && |other| > 0 && unit[0] != other[0]
    ensures ReadCount(Count(n, unit) + tail, other) == None
  {
    var digits := NatToString(n);
    var plural := if n != 1 then "s" else "";
    var s := Count(n, unit) + tail;
    assert s == digits + (" " + unit + plural + tail);
    LeadingDigitsOf(digits, " " + unit + plural + tail);
    assert s[|digits|..][1] == unit[0];
  }

  lemma DecodeWholeYears(years: nat)
    requires years >= 1
    ensures DecodePayoff(Lead + Count(years, "year") + ".") == Some(12 * years)
  {
    var body := Count(years, "year") + ".";
    var msg := Lead + Count(years, "year") + ".";
    assert msg == Lead + body;
    assert msg[|Lead|..] == body;
    ReadCountOf(years, "year", ".");
  }

  lemma DecodeMonthsClause(years: nat, months: nat)
    requires 0 < months < 12
    ensures DecodeAfterYears(years, " and " + (Count(months, "month") + ".")) == Some(12 * years + months)
  {
    var clause := Count(months, "month") + ".";
    assert (" and " + clause)[5..] == clause;
    ReadCountOf(months, "month", ".");
  }

  lemma DecodeYearsAndMonths(years: nat, months: nat)
    requires years >= 1 && 0 < months < 12
    ensures DecodePayoff(Lead + Count(years, "year") + " and " + Count(months, "month") + ".")
            == Some(12 * years + months)
  {
    var rest := " and " + (Count(months, "month") + ".");
    var body := Count(years, "year") + rest;
    var msg := Lead + Count(years, "year") + " and " + Count(months, "month") + ".";
    assert msg == Lead + body;
    assert msg[|Lead|..] == body;
    ReadCountOf(years, "year", rest);
    DecodeMonthsClause(years, months);
  }

  lemma DecodeMonths(months: nat)
    requires months < 12
    ensures DecodePayoff(Lead + Count(months, "month") + ".") == Some(months)
  {
    var body := Count(months, "month") + ".";
    var msg := Lead + Count(months, "month") + ".";
    assert msg == Lead + body;
    assert msg[|Lead|..] == body;
    ReadCountOther(months, "month", "year", ".");
    ReadCountOf(months, "month", ".");
  }

  lemma MessageOfYearsAndMonths(totalMonths: nat)
    requires totalMonths >= 12 && totalMonths % 12 != 0
    ensures PayoffMessage(totalMonths) ==
            Lead + Count(totalMonths / 12, "year") + " and " + Count(totalMonths % 12, "month") + "."
  {
  }

  lemma RoundTripYearsAndMonths(years: nat, months: nat, totalMonths: nat)
    requires years >= 1 && 0 < months < 12 && totalMonths == 12 * years + months
    requires PayoffMessage(totalMonths) == Lead + Count(years, "year") + " and " + Count(months, "month") + "."
    ensures DecodePayoff(PayoffMessage(totalMonths)) == Some(totalMonths)
  {
    DecodeYearsAndMonths(years, months);
  }

  lemma RoundTripYears(years: nat, totalMonths: nat)
    requires years >= 1 && totalMonths == 12 * years
    requires PayoffMessage(totalMonths) == Lead + Count(years, "year") + "."
    ensures DecodePayoff(PayoffMessage(totalMonths)) == Some(totalMonths)
  {
    DecodeWholeYears(years);
  }

  /** The message states the month count faithfully: reading it back gives
      the count it was built from. */
  lemma PayoffMessageRoundTrip(totalMonths: nat)
    ensures DecodePayoff(PayoffMessage(totalMonths)) == Some(totalMonths)
  {
    if totalMonths < 12 {
      assert PayoffMessage(totalMonths) == Lead + Count(totalMonths, "month") + ".";
      DecodeMonths(totalMonths);
    } else if totalMonths % 12 == 0 {
      assert PayoffMessage(totalMonths) == Lead + Count(totalMonths / 12, "year") + ".";
      RoundTripYears(totalMonths / 12, totalMonths);
    } else {
      MessageOfYearsAndMonths(totalMonths);
      RoundTripYearsAndMonths(totalMonths / 12, totalMonths % 12, totalMonths);
    }
  }

  /** Different month counts never share a message. */
  lemma PayoffMessageInjective(a: nat, b: nat)
    requires PayoffMessage(a) == PayoffMessage(b)
    ensures a == b
  {
    PayoffMessageRoundTrip(a);
    PayoffMessageRoundTrip(b);
  }
}
