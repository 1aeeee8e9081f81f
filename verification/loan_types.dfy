/** The records exchanged between the form, the engine and the server. */
module LoanTypes {

  /** One row of the amortization table. Every amount is rounded to cents
      when the row is built. The optional `monthlyPayment` field of the
      record is never set by the engine and is not modelled. */
  datatype LoanMonth = LoanMonth(
    monthNum: nat,
    principal: real,
    towardsInterest: real,
    towardsPrincipal: real,
    newPrincipal: real)

  /** A loan as the form holds it: the inputs are loosely formatted strings,
      and the engine writes its results into the last three fields. An
      optional input that is missing is the empty string (both are falsy in
      JavaScript, and both are treated alike). The numeric `id` is never read
      by the engine and is not modelled. */
  datatype Loan = Loan(
    name: string,
    principal: string,
    rate: string,
    termYears: string,
    extraPrincipalPayment: string,
    monthlyPayment: string,
    loanMonths: seq<LoanMonth>,
    loanMessage: string,
    totalInterestPaid: real)

  /** JavaScript truthiness of an optional string field. */
  predicate Present(field: string) {
    field != ""
  }
}
