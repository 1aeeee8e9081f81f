/** Deriving the monthly payment from a term: the standard annuity formula
    `P * (r / (1 - (1 + r) ** -n))` with monthly rate `r` and `n` months. */
module Payment {
  import opened Numbers

  /** The annual percentage rate as a monthly fraction: `rate / (12 * 100)`. */
  function MonthlyRate(ratePercent: real): (r: real)
    ensures r * 1200.0 == ratePercent
  {
    ratePercent / (12.0 * 100.0)
  }

  /** The payment exceeds the interest `balance` accrues in one month, so
      the balance falls. */
  predicate CoversInterest(monRate: real, pay: real, balance: real) {
    pay > balance * monRate
  }

  /** A payment that covers the interest on a balance covers it on any
      smaller one. */
  lemma CoversSmaller(monRate: real, pay: real, balance: real, smaller: real)
    requires monRate >= 0.0 && smaller <= balance && CoversInterest(monRate, pay, balance)
    ensures CoversInterest(monRate, pay, smaller)
  {
    assert (balance - smaller) * monRate >= 0.0;
  }

  /** The level payment for `termMonths` months. A positive rate and a
      positive term keep the denominator `1 - (1 + r) ** -n` above zero. The
      payment always exceeds the first month's interest. */
  function AnnuityPayment(principal: real, monRate: real, termMonths: nat): (pay: real)
    requires monRate > 0.0 && termMonths >= 1
    ensures principal > 0.0 ==> CoversInterest(monRate, pay, principal) && pay > 0.0
  {
    var q := Pow(1.0 + monRate, termMonths);
    PowAboveOne(1.0 + monRate, termMonths);
    var d := 1.0 - 1.0 / q;
    assert 0.0 < d < 1.0;
    assert monRate / d > monRate;
    principal * (monRate / d)
  }

  /** The balance after `k` regular months with no extra payment: each month
      adds its interest and takes off the payment. */
  function RegularBalance(balance: real, monRate: real, pay: real, k: nat): real
    decreases k
  {
    if k == 0 then balance
    else RegularBalance(balance * (1.0 + monRate) - pay, monRate, pay, k - 1)
  }

  /** The closed form of `k` regular months, scaled by the rate to keep it
      free of division: the balance grown by `k` months of interest, less the
      payments grown the same way. */
  lemma {:induction false} RegularBalanceClosedForm(balance: real, monRate: real, pay: real, k: nat)
    decreases k
    ensures var q := Pow(1.0 + monRate, k);
            monRate * RegularBalance(balance, monRate, pay, k) == monRate * balance * q - pay * (q - 1.0)
  {
    if k > 0 {
      var next := balance * (1.0 + monRate) - pay;
      RegularBalanceClosedForm(next, monRate, pay, k - 1);
      var q := Pow(1.0 + monRate, k - 1);
      var q' := Pow(1.0 + monRate, k);
      assert q' == (1.0 + monRate) * q;
      calc {
        monRate * RegularBalance(balance, monRate, pay, k);
        monRate * RegularBalance(next, monRate, pay, k - 1);
        monRate * next * q - pay * (q - 1.0);
        monRate * balance * ((1.0 + monRate) * q) - pay * (monRate * q) - pay * (q - 1.0);
        monRate * balance * q' - pay * (q' - 1.0);
      }
    }
  }

  /** The derived payment is the one that retires the loan: `termMonths`
      regular months at that payment leave exactly nothing owing. */
  lemma AnnuityRetiresLoan(principal: real, monRate: real, termMonths: nat)
    requires monRate > 0.0 && termMonths >= 1
    ensures RegularBalance(principal, monRate, AnnuityPayment(principal, monRate, termMonths), termMonths) == 0.0
  {
    var pay := AnnuityPayment(principal, monRate, termMonths);
    var q := Pow(1.0 + monRate, termMonths);
    PowAboveOne(1.0 + monRate, termMonths);
    RegularBalanceClosedForm(principal, monRate, pay, termMonths);
    AnnuityIdentity(principal, monRate, q, pay);
    ZeroFactor(monRate, RegularBalance(principal, monRate, pay, termMonths));
  }

  /** The annuity payment grown over the term matches the principal's
      growth: `pay * (q - 1) == P * r * q` with `q = (1 + r) ** n`. */
  lemma AnnuityIdentity(principal: real, monRate: real, q: real, pay: real)
    requires q > 1.0 && pay == principal * (monRate / (1.0 - 1.0 / q))
    ensures pay * (q - 1.0) == principal * monRate * q
  {
    var d := 1.0 - 1.0 / q;
    assert d * q == q - 1.0;
    assert pay * d == principal * monRate;
    assert pay * (q - 1.0) == pay * d * q;
  }

  lemma ZeroFactor(a: real, b: real)
    requires a > 0.0 && a * b == 0.0
    ensures b == 0.0
  {
  }
}
