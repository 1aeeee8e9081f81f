/** What `calculate` guarantees, stated over the model of it. */
module SummaryProperties {
  import opened Numbers
  import opened Text
  import opened LoanTypes
  import opened Parsers
  import opened Validation
  import opened Payment
  import opened Amortization
  import opened Payoff
  import opened LoanSummary

  /** Past validation and the interest check, `calculate` is the summary
      of the loop. */
  lemma CalculateOfValid(loan: Loan)
    requires Valid(loan) && Covers(loan)
    ensures Calculate(loan) == Summarize(WithPayment(loan), Schedule(loan))
  {
    CalculateIsValid(loan);
    CalculateValidSummarizes(loan);
  }

  lemma CalculateIsValid(loan: Loan)
    requires Valid(loan)
    ensures Calculate(loan) == CalculateValid(loan)
  {
  }

  lemma CalculateValidSummarizes(loan: Loan)
    requires Valid(loan) && Covers(loan)
    ensures CalculateValid(loan) == Summarize(WithPayment(loan), Schedule(loan))
  {
  }

  /** The summary fails exactly when the loop ran past the cap. */
  lemma SummarizeFails(loan: Loan, run: Loop)
    requires run.nextMonth == 1 + |run.periods|
    ensures Failed(Summarize(loan, run)) <==> run.nextMonth > MaxMonths
  {
  }

  /** Past validation and the interest check, the calculation fails only
      when the loop fills all 1200 months, even if the last of them cleared
      the balance. */
  lemma CapSupersedesPayoff(loan: Loan)
    requires Valid(loan) && Covers(loan)
    ensures Failed(Calculate(loan)) <==> |Schedule(loan).periods| == MaxMonths
    ensures |Schedule(loan).periods| == MaxMonths ==> Calculate(loan) == Fail(WithPayment(loan), LimitError)
  {
    var run := Schedule(loan);
    CalculateOfValid(loan);
    SummarizeFails(WithPayment(loan), run);
  }

  lemma PrincipalPositive(loan: Loan)
    requires Valid(loan)
    ensures Principal(loan) > 0.0
  {
  }

  lemma RatePositive(loan: Loan)
    requires Valid(loan)
    ensures Rate(loan) > 0.0
  {
  }

  /** With a term of T years, the payment is the one that leaves nothing
      owing after 12·T regular months at the monthly rate. */
  lemma TermPaymentRetires(loan: Loan)
    requires Valid(loan) && Present(loan.termYears)
    ensures RegularBalance(Principal(loan), Rate(loan), MonthlyPayment(loan), ParseInteger(loan.termYears) * 12) == 0.0
  {
    RatePositive(loan);
    RetiresAt(Principal(loan), Rate(loan), MonthlyPayment(loan), ParseInteger(loan.termYears) * 12);
  }

  lemma RetiresAt(principal: real, monRate: real, pay: real, termMonths: nat)
    requires monRate > 0.0 && termMonths >= 1
    requires pay == AnnuityPayment(principal, monRate, termMonths)
    ensures RegularBalance(principal, monRate, pay, termMonths) == 0.0
  {
    AnnuityRetiresLoan(principal, monRate, termMonths);
  }

  lemma TermPaymentCovers(loan: Loan)
    requires Valid(loan) && Present(loan.termYears)
    ensures Covers(loan)
  {
  }

  /** No summary carries the "too low" error. */
  lemma SummarizeNotTooLow(loan: Loan, run: Loop)
    requires run.nextMonth == 1 + |run.periods|
    ensures Summarize(loan, run).loanMessage != TooLowError
  {
    var msg := Summarize(loan, run).loanMessage;
    if run.nextMonth > MaxMonths {
      assert msg == LimitError;
      assert |LimitError| != |TooLowError|;
    } else {
      assert msg[0] == Lead[0];
    }
  }

  /** A term-derived payment always covers the first month's interest, so
      a loan with a term never gets the "too low" error; its payment is
      written back as `toFixed(2)` text, which reads back as the payment
      rounded to cents. */
  lemma TermLoanPayment(loan: Loan)
    requires Valid(loan) && Present(loan.termYears)
    ensures Calculate(loan).loanMessage != TooLowError
    ensures Calculate(loan).monthlyPayment == ToFixed2(MonthlyPayment(loan))
    ensures ParseCurrency(Calculate(loan).monthlyPayment) == Round2(MonthlyPayment(loan))
  {
    RatePositive(loan);
    CalculateOfValid(loan);
    SummarizeNotTooLow(WithPayment(loan), Schedule(loan));
    ParseCurrencyOfToFixed2(MonthlyPayment(loan));
  }

  /** An invalid loan fails with its validation message. */
  lemma InvalidFails(loan: Loan)
    requires !Valid(loan)
    ensures Failed(Calculate(loan))
  {
    var msg := ValidateLoan(loan).value;
    assert Calculate(loan) == Fail(loan, ErrorTag + msg);
    assert (ErrorTag + msg)[..|ErrorTag|] == ErrorTag;
  }

  /** A payment at or below the first month's interest fails. */
  lemma TooLowFails(loan: Loan)
    requires Valid(loan) && !Covers(loan)
    ensures Failed(Calculate(loan))
  {
    CalculateIsValid(loan);
    assert Calculate(loan).loanMessage == TooLowError;
  }

  /** A calculation that did not fail went through every check and the
      loop stopped before the cap. */
  lemma SuccessIsSummary(loan: Loan)
    requires !Failed(Calculate(loan))
    ensures Valid(loan) && Covers(loan)
    ensures Schedule(loan).nextMonth <= MaxMonths
    ensures Calculate(loan) == Summarize(WithPayment(loan), Schedule(loan))
  {
    if !Valid(loan) {
      InvalidFails(loan);
    } else if !Covers(loan) {
      TooLowFails(loan);
    } else {
      CalculateOfValid(loan);
      SummarizeFails(WithPayment(loan), Schedule(loan));
    }
  }

  /** What a table of a paid-off loan looks like: months numbered 1, 2, ...,
      each month closing at the balance the next one opens with, no
      negative balance, and nothing owing at the end. */
  predicate PaidOffTable(months: seq<LoanMonth>) {
    && |months| > 0
    && (forall i :: 0 <= i < |months| ==> months[i].monthNum == i + 1 && months[i].newPrincipal >= 0.0)
    && (forall i :: 0 <= i < |months| - 1 ==> months[i].newPrincipal == months[i + 1].principal)
    && months[|months| - 1].newPrincipal == 0.0
    && months[|months| - 1].towardsPrincipal == months[|months| - 1].principal
  }

  lemma RowsPaidOff(periods: seq<Period>)
    requires |periods| > 0 && Chained(periods, 1)
    requires periods[|periods| - 1].newBalance == 0.0
    ensures PaidOffTable(Rows(periods))
  {
    var months := Rows(periods);
    forall i | 0 <= i < |months|
      ensures months[i].newPrincipal >= 0.0
    {
      Round2NonNegative(periods[i].newBalance);
    }
    Round2OfCents(0.0);
    var last := periods[|periods| - 1];
    assert last.principalPaid == last.balance;
  }

  /** A loop from month 1 that stopped before the cap shows as a paid-off
      table opening at the rounded balance, and its interest is the sum of
      the months' interest. */
  lemma PaidOffRows(monRate: real, monPay: real, balance: real, extra: real, run: Loop)
    requires balance > 0.0 && run == Amortize(monRate, monPay, balance, extra, 1, 0.0)
    requires run.nextMonth <= MaxMonths
    ensures PaidOffTable(Rows(run.periods))
    ensures Rows(run.periods)[0].principal == Round2(balance)
    ensures run.interest == TotalInterest(run.periods)
  {
    AmortizeChained(monRate, monPay, balance, extra, 1, 0.0);
    AmortizeClears(monRate, monPay, balance, extra, 1, 0.0);
    RowsPaidOff(run.periods);
  }

  /** A successful calculation: a paid-off table of fewer than 1200 months
      opening at the parsed principal, the total interest as the rounded sum
      of the unrounded monthly interest, and the payoff message for the
      table's length. */
  lemma SuccessfulCalculation(loan: Loan)
    requires !Failed(Calculate(loan))
    ensures Valid(loan)
    ensures var out := Calculate(loan);
            var periods := Schedule(loan).periods;
            && PaidOffTable(out.loanMonths)
            && 1 <= |out.loanMonths| < MaxMonths
            && out.loanMonths[0].principal == Principal(loan)
            && out.loanMonths == Rows(periods)
            && out.totalInterestPaid == Round2(TotalInterest(periods))
            && out.loanMessage == PayoffMessage(|out.loanMonths|)
  {
    SuccessIsSummary(loan);
    PaidOffRows(Rate(loan), MonthlyPayment(loan), Principal(loan), ExtraPayment(loan), Schedule(loan));
    Round2OfCents(Principal(loan));
  }

  /** No month of the table closes above the balance it opened at. */
  predicate NeverRises(months: seq<LoanMonth>) {
    forall i :: 0 <= i < |months| ==> months[i].newPrincipal <= months[i].principal
  }

  lemma RowsNeverRise(periods: seq<Period>)
    requires PaysDown(periods)
    ensures NeverRises(Rows(periods))
  {
    var months := Rows(periods);
    forall i | 0 <= i < |months|
      ensures months[i].newPrincipal <= months[i].principal
    {
      Round2Monotonic(periods[i].newBalance, periods[i].balance);
    }
  }

  lemma SummarizeNeverRises(loan: Loan, run: Loop)
    requires run.nextMonth == 1 + |run.periods| && PaysDown(run.periods)
    ensures NeverRises(Summarize(loan, run).loanMonths)
  {
    RowsNeverRise(run.periods);
  }

  /** A successful calculation paid principal down every month, whatever
      the extra payment, and no month of any table closes above the balance
      it opened at. */
  lemma BalanceFalls(loan: Loan)
    ensures !Failed(Calculate(loan)) ==> Valid(loan) && PaysDown(Schedule(loan).periods)
    ensures NeverRises(Calculate(loan).loanMonths)
  {
    if !Failed(Calculate(loan)) {
      SuccessIsSummary(loan);
      RatePositive(loan);
      ClearedRunFalls(Rate(loan), MonthlyPayment(loan), Principal(loan), ExtraPayment(loan), 1, 0.0);
      SummarizeNeverRises(WithPayment(loan), Schedule(loan));
    }
  }

  /** Two loans with the same inputs; they may differ in the fields the
      calculation writes. */
  predicate SameInputs(a: Loan, b: Loan) {
    && a.name == b.name && a.principal == b.principal && a.rate == b.rate
    && a.termYears == b.termYears && a.extraPrincipalPayment == b.extraPrincipalPayment
    && a.monthlyPayment == b.monthlyPayment
  }

  lemma SummarizeIgnoresOutputs(a: Loan, b: Loan, run: Loop)
    requires SameInputs(a, b) && run.nextMonth == 1 + |run.periods|
    ensures Summarize(a, run) == Summarize(b, run)
  {
  }

  lemma ValidIgnoresOutputs(a: Loan, b: Loan)
    requires SameInputs(a, b)
    ensures ValidateLoan(a) == ValidateLoan(b) && (Valid(a) <==> Valid(b))
  {
  }

  lemma PaymentIgnoresOutputs(a: Loan, b: Loan)
    requires SameInputs(a, b) && Valid(a) && Valid(b)
    ensures Principal(a) == Principal(b) && Rate(a) == Rate(b)
    ensures MonthlyPayment(a) == MonthlyPayment(b)
  {
  }

  lemma ScheduleIgnoresOutputs(a: Loan, b: Loan)
    requires SameInputs(a, b) && Valid(a) && Valid(b)
    ensures Schedule(a) == Schedule(b) && SameInputs(WithPayment(a), WithPayment(b))
  {
    PaymentIgnoresOutputs(a, b);
  }

  lemma TooLowIgnoresOutputs(a: Loan, b: Loan)
    requires SameInputs(a, b) && Valid(a) && Valid(b)
    requires !Covers(a)
    ensures CalculateValid(a) == CalculateValid(b)
  {
    PaymentIgnoresOutputs(a, b);
    ScheduleIgnoresOutputs(a, b);
  }

  /** The calculation reads only the inputs: whatever results a loan
      already holds are overwritten. */
  lemma CalculateIgnoresOutputs(a: Loan, b: Loan)
    requires SameInputs(a, b)
    ensures Calculate(a) == Calculate(b)
  {
    ValidIgnoresOutputs(a, b);
    if Valid(a) {
      PaymentIgnoresOutputs(a, b);
      ScheduleIgnoresOutputs(a, b);
      CalculateIsValid(a);
      CalculateIsValid(b);
      if Covers(a) {
        CalculateValidSummarizes(a);
        CalculateValidSummarizes(b);
        SummarizeIgnoresOutputs(WithPayment(a), WithPayment(b), Schedule(a));
      } else {
        TooLowIgnoresOutputs(a, b);
      }
    }
  }

  /** Without a term, calculating leaves every input as it was. */
  lemma KeepsInputsWithoutTerm(loan: Loan)
    requires !Present(loan.termYears)
    ensures SameInputs(Calculate(loan), loan)
  {
  }

  lemma SummarizeKeepsInputs(loan: Loan, run: Loop)
    requires run.nextMonth == 1 + |run.periods|
    ensures SameInputs(Summarize(loan, run), loan)
  {
  }

  /** Two valid loans with the same principal, rate, term and extra
      payment, and a term, derive the same payment and the same schedule. */
  lemma TermDecidesSchedule(a: Loan, b: Loan)
    requires Valid(a) && Valid(b) && Present(a.termYears)
    requires a.principal == b.principal && a.rate == b.rate && a.termYears == b.termYears
    requires a.extraPrincipalPayment == b.extraPrincipalPayment
    ensures MonthlyPayment(a) == MonthlyPayment(b) && Schedule(a) == Schedule(b)
  {
  }

  /** A loan whose monthly payment field holds a positive amount and that
      otherwise passes validation is valid. */
  lemma ValidWithPayment(loan: Loan, out: Loan)
    requires Valid(loan)
    requires out.principal == loan.principal && out.rate == loan.rate && out.termYears == loan.termYears
    requires Present(out.monthlyPayment) && ParseCurrency(out.monthlyPayment) > 0.0
    ensures Valid(out)
  {
  }

  /** With a term, the second calculation reads back the written payment,
      sees a valid loan again and reruns the same schedule. */
  lemma RecalculateTermLoan(loan: Loan)
    requires Valid(loan) && Present(loan.termYears) && Round2(MonthlyPayment(loan)) > 0.0
    ensures Calculate(Calculate(loan)) == Calculate(loan)
  {
    var out := Calculate(loan);
    var run := Schedule(loan);
    TermLoanPayment(loan);
    CalculateOfValid(loan);
    SummarizeKeepsInputs(WithPayment(loan), run);
    ValidWithPayment(loan, out);
    TermDecidesSchedule(out, loan);
    assert WithPayment(out) == out;
    CalculateOfValid(out);
    SummarizeIgnoresOutputs(out, WithPayment(loan), run);
  }

  /** Calculating again from the loan a calculation left behind gives the
      same loan, unless a term-derived payment rounds to 0.00: that text
      then fails the monthly payment check on the second run. */
  lemma RecalculateIsStable(loan: Loan)
    requires Valid(loan) && Present(loan.termYears) ==> Round2(MonthlyPayment(loan)) > 0.0
    ensures Calculate(Calculate(loan)) == Calculate(loan)
  {
    if Present(loan.termYears) && Valid(loan) {
      RecalculateTermLoan(loan);
    } else if Present(loan.termYears) {
      var out := Calculate(loan);
      assert out == Fail(loan, ErrorTag + ValidateLoan(loan).value);
      assert SameInputs(out, loan);
      CalculateIgnoresOutputs(out, loan);
    } else {
      KeepsInputsWithoutTerm(loan);
      CalculateIgnoresOutputs(Calculate(loan), loan);
    }
  }
}
