/** `validateLoan`: the checks a loan must pass before any payment is
    derived, run in a fixed order; the first one that fails names the error. */
module Validation {
  import opened Optional
  import opened LoanTypes
  import opened Parsers

  const PrincipalError := "Principal amount must be greater than 0"
  const RateError := "Interest rate must be greater than 0"
  const BasisError := "Either term years or monthly payment must be provided"
  const TermError := "Term years must be greater than 0"
  const PaymentError := "Monthly payment must be greater than 0"

  /** Every check passes: a positive principal and rate, a term or a payment
      to derive the schedule from, and whichever of those is given positive. */
  predicate Valid(loan: Loan) {
    && ParseCurrency(loan.principal) > 0.0
    && ParseRate(loan.rate) > 0.0
    && (Present(loan.termYears) || Present(loan.monthlyPayment))
    && (Present(loan.termYears) ==> ParseInteger(loan.termYears) > 0)
    && (Present(loan.monthlyPayment) ==> ParseCurrency(loan.monthlyPayment) > 0.0)
  }

  /** The first failing check's message, or `None` when the loan is valid. */
  function ValidateLoan(loan: Loan): (err: Option<string>)
    ensures err.None? <==> Valid(loan)
    ensures err == Some(PrincipalError) <==> ParseCurrency(loan.principal) <= 0.0
    ensures err == Some(RateError) <==>
              ParseCurrency(loan.principal) > 0.0 && ParseRate(loan.rate) <= 0.0
    ensures err == Some(BasisError) <==>
              && ParseCurrency(loan.principal) > 0.0 && ParseRate(loan.rate) > 0.0
              && !Present(loan.termYears) && !Present(loan.monthlyPayment)
    ensures err == Some(TermError) <==>
              && ParseCurrency(loan.principal) > 0.0 && ParseRate(loan.rate) > 0.0
              && Present(loan.termYears) && ParseInteger(loan.termYears) == 0
    ensures err == Some(PaymentError) <==>
              && ParseCurrency(loan.principal) > 0.0 && ParseRate(loan.rate) > 0.0
              && (Present(loan.termYears) ==> ParseInteger(loan.termYears) > 0)
              && Present(loan.monthlyPayment) && ParseCurrency(loan.monthlyPayment) <= 0.0
  {
    var principal := ParseCurrency(loan.principal);
    var rate := ParseRate(loan.rate);
    if principal <= 0.0 then Some(PrincipalError)
    else if rate <= 0.0 then Some(RateError)
    else if !Present(loan.termYears) && !Present(loan.monthlyPayment) then Some(BasisError)
    else if Present(loan.termYears) && ParseInteger(loan.termYears) <= 0 then Some(TermError)
    else if Present(loan.monthlyPayment) && ParseCurrency(loan.monthlyPayment) <= 0.0 then Some(PaymentError)
    else None
  }
}
