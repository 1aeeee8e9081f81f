/** `saveLoan`: the record sent to the server. The service has its own
    copies of the three parsers; it sends `null` for a missing term or
    payment and 0 for a missing extra payment. The HTTP request itself is
    not modelled. */
module LoanService {
  import opened Optional
  import opened Numbers
  import opened LoanTypes
  import Parsers
  import opened Text
  import opened Validation
  import opened Payment
  import opened LoanSummary
  import SummaryProperties

  /** The service's `parseCurrency`, the same as the calculation's. */
  function ParseCurrency(value: string): (r: real)
    ensures r == Parsers.ParseCurrency(value)
  {
    if value == "" then 0.0
    else
      match ParseFloat(Remove(value, Parsers.CurrencyJunk))
      case None => 0.0
      case Some(v) => Round2(v)
  }

  /** The service's `parseRate`, the same as the calculation's. */
  function ParseRate(value: string): (r: real)
    ensures r == Parsers.ParseRate(value)
  {
    if value == "" then 0.0
    else
      match ParseFloat(Remove(value, Parsers.RateJunk))
      case None => 0.0
      case Some(v) => if v > 1.0 then v else v * 100.0
  }

  /** The service's `parseInteger`, the same as the calculation's. */
  function ParseInteger(value: string): (r: nat)
    ensures r == Parsers.ParseInteger(value)
  {
    if value == "" then 0
    else
      match ParseLeadingInt(Remove(value, Parsers.NotNumeric))
      case None => 0
      case Some(n) => n
  }

  /** The JSON body of the save request. */
  datatype LoanRecord = LoanRecord(
    name: string,
    principal: real,
    rate: real,
    termYears: Option<nat>,
    monthlyPayment: Option<real>,
    extraMonthlyPayment: real)

  /** The record `saveLoan` posts. */
  function SaveRecord(loan: Loan): (rec: LoanRecord)
    ensures rec.name == loan.name
    ensures rec.principal == Parsers.ParseCurrency(loan.principal)
    ensures rec.rate == Parsers.ParseRate(loan.rate)
    ensures rec.termYears == if Present(loan.termYears) then Some(Parsers.ParseInteger(loan.termYears)) else None
    ensures rec.monthlyPayment == if Present(loan.monthlyPayment) then Some(Parsers.ParseCurrency(loan.monthlyPayment)) else None
    ensures rec.extraMonthlyPayment == ExtraPayment(loan)
  {
    LoanRecord(
      loan.name,
      ParseCurrency(loan.principal),
      ParseRate(loan.rate),
      if Present(loan.termYears) then Some(ParseInteger(loan.termYears)) else None,
      if Present(loan.monthlyPayment) then Some(ParseCurrency(loan.monthlyPayment)) else None,
      if Present(loan.extraPrincipalPayment) then ParseCurrency(loan.extraPrincipalPayment) else 0.0)
  }

  /** Every amount in the record is a whole number of cents. */
  lemma RecordAmountsAreCents(loan: Loan)
    ensures var rec := SaveRecord(loan);
            && IsCents(rec.principal) && IsCents(rec.extraMonthlyPayment)
            && (rec.monthlyPayment.Some? ==> IsCents(rec.monthlyPayment.value))
  {
    Round2OfHundredths(0);
  }

  /** The validation rules, read off a saved record. */
  predicate RecordValid(rec: LoanRecord) {
    && rec.principal > 0.0
    && rec.rate > 0.0
    && (rec.termYears.Some? || rec.monthlyPayment.Some?)
    && (rec.termYears.Some? ==> rec.termYears.value > 0)
    && (rec.monthlyPayment.Some? ==> rec.monthlyPayment.value > 0.0)
  }

  /** The saved record carries everything validation looks at: a loan
      passes validation exactly when its record satisfies the same rules. */
  lemma ValidIffRecordValid(loan: Loan)
    ensures Valid(loan) <==> RecordValid(SaveRecord(loan))
  {
  }

  /** The record holds the numbers the calculation works from: the
      principal, the rate (as a monthly fraction after scaling), and the
      extra payment. */
  lemma RecordMatchesCalculation(loan: Loan)
    ensures SaveRecord(loan).principal == Principal(loan)
    ensures MonthlyRate(SaveRecord(loan).rate) == Rate(loan)
    ensures SaveRecord(loan).extraMonthlyPayment == ExtraPayment(loan)
  {
  }

  /** Saving a term loan after calculating it stores the derived payment
      rounded to cents, read back from its `toFixed(2)` text. */
  lemma SavedTermPayment(loan: Loan)
    requires Valid(loan) && Present(loan.termYears)
    ensures SaveRecord(Calculate(loan)).monthlyPayment == Some(Round2(MonthlyPayment(loan)))
  {
    SummaryProperties.TermLoanPayment(loan);
    assert Present(Calculate(loan).monthlyPayment) by {
      assert MonthlyPayment(loan) >= 0.0;
    }
  }
}
