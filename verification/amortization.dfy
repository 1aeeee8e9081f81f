/** The month-by-month loop of `calculate`: interest on the balance, the
    rest of the payment plus any extra towards principal, a final-payment
    clamp so the loan is never overpaid, and a 1200-month safety cap. */
module Amortization {
  import opened Numbers
  import opened LoanTypes
  import opened Payment

  /** The loop runs while the month counter is at most this (100 years). */
  const MaxMonths: nat := 1200

  /** One month of the loop before any rounding: the balance it starts
      from, the interest on it, what goes to principal (regular portion plus
      extra), and the balance it ends at. */
  datatype Period = Period(
    monthNum: nat,
    balance: real,
    interest: real,
    principalPaid: real,
    newBalance: real)

  /** What the loop leaves behind: the months it emitted, the value of the
      month counter when it stopped, and the interest it accumulated. */
  datatype Loop = Loop(periods: seq<Period>, nextMonth: nat, interest: real)

  /** The final-payment test: the balance is smaller than the regular
      principal portion plus the extra payment. */
  predicate Clamps(monRate: real, monPay: real, balance: real, extra: real) {
    balance < (monPay - balance * monRate) + extra
  }

  /** One pass of the loop body. Returns the month and the extra payment
      carried into the next pass (the clamp zeroes it). The `max(0, ...)`
      never changes anything: whatever goes to principal comes off the
      balance exactly. The arithmetic of the month is stated by
      `StepArithmetic` and `StepPaysDown`. */
  function Step(monRate: real, monPay: real, balance: real, extra: real, month: nat): (r: (Period, real))
    ensures r.0.monthNum == month && r.0.balance == balance
    ensures r.0.newBalance == balance - r.0.principalPaid && r.0.newBalance >= 0.0
    ensures r.1 == 0.0 || r.1 == extra
  {
    var interest := balance * monRate;
    var regular := monPay - interest;
    var clamp := balance < regular + extra;
    var regular' := if clamp then balance else regular;
    var extra' := if clamp then 0.0 else extra;
    var newBalance := Max0(balance - regular' - extra');
    (Period(month, balance, interest, regular' + extra', newBalance), extra')
  }

  /** A month charges interest on its opening balance. A clamped month pays
      off exactly the balance and drops the extra payment for good; any
      other month grows the balance by its interest and takes off the
      payment and the extra. */
  lemma StepArithmetic(monRate: real, monPay: real, balance: real, extra: real, month: nat)
    ensures var r := Step(monRate, monPay, balance, extra, month);
            && r.0.interest == balance * monRate
            && (Clamps(monRate, monPay, balance, extra) ==>
                  r.0.principalPaid == balance && r.0.newBalance == 0.0 && r.1 == 0.0)
            && (!Clamps(monRate, monPay, balance, extra) ==>
                  r.0.newBalance == balance * (1.0 + monRate) - monPay - extra && r.1 == extra)
  {
  }

  /** A payment that covers the interest, with no negative extra, pays
      something off a positive balance. */
  lemma StepPaysDown(monRate: real, monPay: real, balance: real, extra: real, month: nat)
    requires balance > 0.0 && extra >= 0.0 && CoversInterest(monRate, monPay, balance)
    ensures var r := Step(monRate, monPay, balance, extra, month);
            r.0.principalPaid > 0.0 && r.0.newBalance < balance
  {
  }

  /** The sum of the unrounded monthly interest amounts. */
  function TotalInterest(periods: seq<Period>): real
  {
    if |periods| == 0 then 0.0 else periods[0].interest + TotalInterest(periods[1..])
  }

  /** The loop from month `month` with `balance` owing: it runs while the
      balance is positive and the counter is at most `MaxMonths`. It emits
      one month per pass, opens at `balance`, and accumulates the interest
      of exactly the months it emits. */
  function Amortize(monRate: real, monPay: real, balance: real, extra: real, month: nat, interestSoFar: real): (r: Loop)
    decreases MaxMonths + 1 - month
    ensures r.nextMonth == month + |r.periods|
    ensures month <= MaxMonths + 1 ==> r.nextMonth <= MaxMonths + 1
    ensures |r.periods| > 0 <==> balance > 0.0 && month <= MaxMonths
    ensures |r.periods| > 0 ==> r.periods[0].balance == balance
    ensures r.interest == interestSoFar + TotalInterest(r.periods)
  {
    if balance > 0.0 && month <= MaxMonths then
      var (p, extra') := Step(monRate, monPay, balance, extra, month);
      var rest := Amortize(monRate, monPay, p.newBalance, extra', month + 1, interestSoFar + p.interest);
      var periods := [p] + rest.periods;
      assert periods[1..] == rest.periods;
      Loop(periods, rest.nextMonth, rest.interest)
    else
      Loop([], month, interestSoFar)
  }

  /** The shape of the loop's output from month `month`: consecutive month
      numbers, each month taking off exactly what it pays towards principal
      without going below zero, and each month but the last closing at a
      positive balance the next month opens with. */
  predicate Chained(periods: seq<Period>, month: nat) {
    && (forall i :: 0 <= i < |periods| ==> periods[i].monthNum == month + i)
    && (forall i :: 0 <= i < |periods| ==>
          periods[i].newBalance >= 0.0 && periods[i].newBalance == periods[i].balance - periods[i].principalPaid)
    && (forall i :: 0 <= i < |periods| - 1 ==>
          periods[i].newBalance > 0.0 && periods[i].newBalance == periods[i + 1].balance)
  }

  lemma ChainedCons(p: Period, rest: seq<Period>, month: nat)
    requires p.monthNum == month && p.newBalance >= 0.0 && p.newBalance == p.balance - p.principalPaid
    requires |rest| > 0 ==> p.newBalance > 0.0 && p.newBalance == rest[0].balance
    requires Chained(rest, month + 1)
    ensures Chained([p] + rest, month)
  {
    var ps := [p] + rest;
    forall i | 0 < i < |ps|
      ensures ps[i] == rest[i - 1]
    {
    }
  }

  /** Every run of the loop is chained. */
  lemma {:induction false} AmortizeChained(monRate: real, monPay: real, balance: real, extra: real, month: nat, interestSoFar: real)
    decreases MaxMonths + 1 - month
    ensures Chained(Amortize(monRate, monPay, balance, extra, month, interestSoFar).periods, month)
  {
    if balance > 0.0 && month <= MaxMonths {
      var (p, extra') := Step(monRate, monPay, balance, extra, month);
      var rest := Amortize(monRate, monPay, p.newBalance, extra', month + 1, interestSoFar + p.interest);
      AmortizeChained(monRate, monPay, p.newBalance, extra', month + 1, interestSoFar + p.interest);
      assert Amortize(monRate, monPay, balance, extra, month, interestSoFar).periods == [p] + rest.periods;
      ChainedCons(p, rest.periods, month);
    }
  }

  /** A run that stops before the cap has cleared the balance. */
  lemma {:induction false} AmortizeClears(monRate: real, monPay: real, balance: real, extra: real, month: nat, interestSoFar: real)
    decreases MaxMonths + 1 - month
    ensures var r := Amortize(monRate, monPay, balance, extra, month, interestSoFar);
            r.nextMonth <= MaxMonths && |r.periods| > 0 ==> r.periods[|r.periods| - 1].newBalance == 0.0
  {
    if balance > 0.0 && month <= MaxMonths {
      var (p, extra') := Step(monRate, monPay, balance, extra, month);
      var rest := Amortize(monRate, monPay, p.newBalance, extra', month + 1, interestSoFar + p.interest);
      AmortizeClears(monRate, monPay, p.newBalance, extra', month + 1, interestSoFar + p.interest);
      assert Amortize(monRate, monPay, balance, extra, month, interestSoFar)
          == Loop([p] + rest.periods, rest.nextMonth, rest.interest);
      LastOfCons(p, rest.periods);
    }
  }

  lemma LastOfCons(p: Period, rest: seq<Period>)
    ensures |[p] + rest| == |rest| + 1
    ensures |rest| > 0 ==> ([p] + rest)[|rest|] == rest[|rest| - 1]
    ensures |rest| == 0 ==> ([p] + rest)[0] == p
  {
  }

  /** Every month pays something off the principal, so the balance falls. */
  predicate PaysDown(periods: seq<Period>) {
    forall i :: 0 <= i < |periods| ==> periods[i].principalPaid > 0.0 && periods[i].newBalance < periods[i].balance
  }

  /** With a non-negative extra payment and a payment that beats the
      opening month's interest, every month pays something off the
      principal and the balance strictly falls. */
  lemma {:induction false} AmortizeBalanceFalls(monRate: real, monPay: real, balance: real, extra: real, month: nat, interestSoFar: real)
    requires monRate >= 0.0 && extra >= 0.0 && CoversInterest(monRate, monPay, balance)
    decreases MaxMonths + 1 - month
    ensures PaysDown(Amortize(monRate, monPay, balance, extra, month, interestSoFar).periods)
  {
    if balance > 0.0 && month <= MaxMonths {
      var (p, extra') := Step(monRate, monPay, balance, extra, month);
      StepPaysDown(monRate, monPay, balance, extra, month);
      CoversSmaller(monRate, monPay, balance, p.newBalance);
      AmortizeBalanceFalls(monRate, monPay, p.newBalance, extra', month + 1, interestSoFar + p.interest);
      var rest := Amortize(monRate, monPay, p.newBalance, extra', month + 1, interestSoFar + p.interest).periods;
      assert Amortize(monRate, monPay, balance, extra, month, interestSoFar).periods == [p] + rest;
      PaysDownCons(p, rest);
    }
  }

  /** A month whose payment and extra together do not beat its interest
      pays nothing off, so the balance never falls again: the loop runs
      into the cap. */
  lemma {:induction false} NeverClears(monRate: real, monPay: real, balance: real, extra: real, month: nat, interestSoFar: real)
    requires monRate >= 0.0 && balance > 0.0 && month <= MaxMonths + 1
    requires !CoversInterest(monRate, monPay + extra, balance)
    decreases MaxMonths + 1 - month
    ensures Amortize(monRate, monPay, balance, extra, month, interestSoFar).nextMonth == MaxMonths + 1
  {
    if month <= MaxMonths {
      var (p, extra') := Step(monRate, monPay, balance, extra, month);
      StepArithmetic(monRate, monPay, balance, extra, month);
      assert !Clamps(monRate, monPay, balance, extra);
      if CoversInterest(monRate, monPay + extra, p.newBalance) {
        CoversSmaller(monRate, monPay + extra, p.newBalance, balance);
      }
      NeverClears(monRate, monPay, p.newBalance, extra', month + 1, interestSoFar + p.interest);
    }
  }

  /** A run that stops before the cap paid principal down every month,
      whatever the sign of the extra payment: a month that pays nothing
      off would keep the loop running until the cap. */
  lemma {:induction false} ClearedRunFalls(monRate: real, monPay: real, balance: real, extra: real, month: nat, interestSoFar: real)
    requires monRate >= 0.0
    requires Amortize(monRate, monPay, balance, extra, month, interestSoFar).nextMonth <= MaxMonths
    decreases MaxMonths + 1 - month
    ensures PaysDown(Amortize(monRate, monPay, balance, extra, month, interestSoFar).periods)
  {
    if balance > 0.0 && month <= MaxMonths {
      if !CoversInterest(monRate, monPay + extra, balance) {
        NeverClears(monRate, monPay, balance, extra, month, interestSoFar);
        assert false;
      }
      var (p, extra') := Step(monRate, monPay, balance, extra, month);
      StepArithmetic(monRate, monPay, balance, extra, month);
      assert p.principalPaid > 0.0;
      var run := Amortize(monRate, monPay, balance, extra, month, interestSoFar);
      var rest := Amortize(monRate, monPay, p.newBalance, extra', month + 1, interestSoFar + p.interest);
      assert run.periods == [p] + rest.periods && run.nextMonth == rest.nextMonth;
      ClearedRunFalls(monRate, monPay, p.newBalance, extra', month + 1, interestSoFar + p.interest);
      PaysDownCons(p, rest.periods);
    }
  }

  lemma PaysDownCons(p: Period, rest: seq<Period>)
    requires p.principalPaid > 0.0 && p.newBalance < p.balance
    requires PaysDown(rest)
    ensures PaysDown([p] + rest)
  {
    var ps := [p] + rest;
    forall i | 0 <= i < |ps|
      ensures ps[i].principalPaid > 0.0 && ps[i].newBalance < ps[i].balance
    {
      if i > 0 {
        assert ps[i] == rest[i - 1];
      }
    }
  }

  /** A month as the table shows it: every amount a whole number of cents
      within half a cent of the unrounded amount. */
  function Row(p: Period): (m: LoanMonth)
    ensures m.monthNum == p.monthNum
    ensures IsCents(m.principal) && m.principal - 0.005 <= p.balance < m.principal + 0.005
    ensures IsCents(m.towardsInterest) && m.towardsInterest - 0.005 <= p.interest < m.towardsInterest + 0.005
    ensures IsCents(m.towardsPrincipal) && m.towardsPrincipal - 0.005 <= p.principalPaid < m.towardsPrincipal + 0.005
    ensures IsCents(m.newPrincipal) && m.newPrincipal - 0.005 <= p.newBalance < m.newPrincipal + 0.005
  {
    LoanMonth(p.monthNum, Round2(p.balance), Round2(p.interest), Round2(p.principalPaid), Round2(p.newBalance))
  }

  /** The row of a clamped final month pays exactly the balance it opened
      with and leaves nothing owing. */
  lemma ClampedRow(monRate: real, monPay: real, balance: real, extra: real, month: nat)
    requires Clamps(monRate, monPay, balance, extra)
    ensures var m := Row(Step(monRate, monPay, balance, extra, month).0);
            m.towardsPrincipal == m.principal && m.newPrincipal == 0.0
  {
    StepArithmetic(monRate, monPay, balance, extra, month);
    Round2OfCents(0.0);
  }

  function Rows(periods: seq<Period>): (months: seq<LoanMonth>)
    ensures |months| == |periods|
    ensures forall i :: 0 <= i < |periods| ==> months[i] == Row(periods[i])
  {
    seq(|periods|, i requires 0 <= i < |periods| => Row(periods[i]))
  }
}
