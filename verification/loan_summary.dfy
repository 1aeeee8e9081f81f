/** `calculate`: validate the loan, derive or accept a monthly payment,
    refuse a payment that cannot cover the first month's interest, run the
    month-by-month loop under its cap, and summarise. The component writes
    its results into the loan it is given; here the updated loan is
    returned. */
module LoanSummary {
  import opened Optional
  import opened Numbers
  import opened Text
  import opened LoanTypes
  import opened Parsers
  import opened Validation
  import opened Payment
  import opened Amortization
  import opened Payoff

  const ErrorTag := "Error: "
  const TooLowError := ErrorTag + "Monthly payment is too low to cover interest. Loan will never be paid off."
  const LimitError := ErrorTag + "Loan term exceeds maximum calculation limit."

  /** The shape every failure leaves: the message, an empty table and no
      interest. */
  function Fail(loan: Loan, message: string): (out: Loan)
    ensures out.loanMessage == message && out.loanMonths == [] && out.totalInterestPaid == 0.0
    ensures out.(loanMessage := loan.loanMessage, loanMonths := loan.loanMonths,
                 totalInterestPaid := loan.totalInterestPaid) == loan
  {
    loan.(loanMessage := message, loanMonths := [], totalInterestPaid := 0.0)
  }

  predicate Failed(out: Loan) {
    ErrorTag <= out.loanMessage
  }

  function Principal(loan: Loan): real {
    ParseCurrency(loan.principal)
  }

  function Rate(loan: Loan): real {
    MonthlyRate(ParseRate(loan.rate))
  }

  /** `parseCurrency(loan.extraPrincipalPayment || "0")`: whole cents, and
      nothing when the field is missing. */
  function ExtraPayment(loan: Loan): (extra: real)
    ensures IsCents(extra)
    ensures !Present(loan.extraPrincipalPayment) ==> extra == 0.0
  {
    ParseCurrencyOfZero();
    ParseCurrency(if Present(loan.extraPrincipalPayment) then loan.extraPrincipalPayment else "0")
  }

  /** The payment for a valid loan: from the term when one is given (years
      times twelve months), otherwise the stated monthly payment. */
  function MonthlyPayment(loan: Loan): (pay: real)
    requires Valid(loan)
    ensures pay > 0.0
    ensures Present(loan.termYears) ==> CoversInterest(Rate(loan), pay, Principal(loan))
    ensures !Present(loan.termYears) ==> pay == ParseCurrency(loan.monthlyPayment)
  {
    if Present(loan.termYears) then
      AnnuityPayment(Principal(loan), Rate(loan), ParseInteger(loan.termYears) * 12)
    else if Present(loan.monthlyPayment) then
      ParseCurrency(loan.monthlyPayment)
    else
      0.0
  }

  /** The payment check of `calculate`: the payment must exceed the first
      month's interest on the whole principal. */
  predicate Covers(loan: Loan)
    requires Valid(loan)
    ensures Present(loan.termYears) ==> Covers(loan)
  {
    CoversInterest(Rate(loan), MonthlyPayment(loan), Principal(loan))
  }

  /** The loop of a valid loan, from month 1 with the whole principal owing. */
  function Schedule(loan: Loan): (run: Loop)
    requires Valid(loan)
    ensures run.nextMonth == 1 + |run.periods| && run.nextMonth <= MaxMonths + 1
    ensures |run.periods| > 0 && run.periods[0].balance == Principal(loan)
  {
    Amortize(Rate(loan), MonthlyPayment(loan), Principal(loan), ExtraPayment(loan), 1, 0.0)
  }

  /** The loan after the payment step: a term-derived payment is written
      back into the monthly payment field as `toFixed(2)` text. */
  function WithPayment(loan: Loan): (out: Loan)
    requires Valid(loan)
    ensures out.(monthlyPayment := loan.monthlyPayment) == loan
    ensures !Present(loan.termYears) ==> out == loan
  {
    if Present(loan.termYears) then loan.(monthlyPayment := ToFixed2(MonthlyPayment(loan))) else loan
  }

  function Calculate(loan: Loan): (out: Loan)
    ensures ValidateLoan(loan).Some? ==> out == Fail(loan, ErrorTag + ValidateLoan(loan).value)
    ensures Failed(out) ==> out.loanMonths == [] && out.totalInterestPaid == 0.0
    ensures !Failed(out) ==> 1 <= |out.loanMonths| < MaxMonths
    ensures out.(monthlyPayment := loan.monthlyPayment, loanMessage := loan.loanMessage,
                 loanMonths := loan.loanMonths, totalInterestPaid := loan.totalInterestPaid) == loan
    ensures out.monthlyPayment != loan.monthlyPayment ==> Present(loan.termYears)
  {
    match ValidateLoan(loan)
    case Some(msg) => Fail(loan, ErrorTag + msg)
    case None => CalculateValid(loan)
  }

  /** The calculation once validation has passed: the payment step, the
      interest check, then the loop and its summary. */
  function CalculateValid(loan: Loan): (out: Loan)
    requires Valid(loan)
    ensures !Covers(loan) ==> out == Fail(WithPayment(loan), TooLowError)
    ensures Covers(loan) ==> out == Summarize(WithPayment(loan), Schedule(loan))
  {
    var loan' := WithPayment(loan);
    if !Covers(loan) then Fail(loan', TooLowError)
    else Summarize(loan', Schedule(loan))
  }

  /** The end of the calculation: past the cap the schedule is discarded,
      otherwise the table, the rounded total interest and the message are
      written. */
  function Summarize(loan: Loan, run: Loop): (out: Loan)
    requires run.nextMonth == 1 + |run.periods|
    ensures run.nextMonth > MaxMonths ==> out == Fail(loan, LimitError)
    ensures run.nextMonth <= MaxMonths ==>
              && !Failed(out)
              && out.loanMonths == Rows(run.periods)
              && out.totalInterestPaid == Round2(run.interest)
              && out.loanMessage == PayoffMessage(|run.periods|)
    ensures out.(loanMessage := loan.loanMessage, loanMonths := loan.loanMonths,
                 totalInterestPaid := loan.totalInterestPaid) == loan
  {
    if run.nextMonth > MaxMonths then Fail(loan, LimitError)
    else
      var msg := PayoffMessage(run.nextMonth - 1);
      assert msg[0] == 'L';
      loan.(loanMessage := msg, loanMonths := Rows(run.periods), totalInterestPaid := Round2(run.interest))
  }
}
