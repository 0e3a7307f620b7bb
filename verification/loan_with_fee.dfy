/**
 * A declining-balance loan with an upfront fee, and the "equivalent"
 * annual rate found by bisection (src/lib/calculations.ts).
 *
 * The fee is added to the principal and the schedule is that of the larger
 * loan. The equivalent rate is the annual rate in [0, 50] at which the
 * level payment on the fee-free principal, over as many months as the
 * schedule has rows, crosses the payment of the larger loan.
 */
module LoanWithFee {
  import opened Wrappers
  import opened Numeric
  import opened LoanSchedule

  /** The bisection bracket starts as [0, 50] and stops at this width. */
  const LowestRate: real := 0.0
  const HighestRate: real := 50.0
  const Tolerance: real := 0.0001

  /**
   * `calculatedPayment < monthlyPayment` in the bisection, for the level
   * payment at `annualRate` on `principal` over `months` months. With zero
   * months the formula divides by zero: JavaScript then gets −Infinity for
   * a negative numerator (which is below every payment), and +Infinity or
   * NaN otherwise (below none).
   */
  predicate PaymentBelow(principal: real, annualRate: real, months: nat, monthlyPayment: real)
  {
    var rate := MonthlyRate(annualRate);
    var growth := Pow(1.0 + rate, months);
    if growth == 1.0 then principal * rate * growth < 0.0
    else principal * rate * growth / (growth - 1.0) < monthlyPayment
  }

  /**
   * The bracket the bisection keeps: `low` is 0 or a rate whose payment is
   * below the target, `high` is 50 or a rate whose payment is not.
   */
  ghost predicate Bracket(principal: real, monthlyPayment: real, months: nat, low: real, high: real)
  {
    && LowestRate <= low <= high <= HighestRate
    && (low == LowestRate || PaymentBelow(principal, low, months, monthlyPayment))
    && (high == HighestRate || !PaymentBelow(principal, high, months, monthlyPayment))
  }

  /**
   * calculateEquivalentInterestRate: halve [low, high] until it is at most
   * 0.0001 wide and return its midpoint. `steps` counts the halvings.
   */
  method EquivalentInterestRate(principal: real, monthlyPayment: real, months: nat)
    returns (rate: real, ghost low: real, ghost high: real, ghost steps: nat)
    ensures Bracket(principal, monthlyPayment, months, low, high)
    ensures high - low <= Tolerance
    ensures Pow(2.0, steps) > 0.0 && high - low == HighestRate / Pow(2.0, steps)
    ensures rate == (low + high) / 2.0
    ensures LowestRate <= rate <= HighestRate
  {
    var lo := LowestRate;
    var hi := HighestRate;
    steps := 0;
    while hi - lo > Tolerance
      invariant Bracket(principal, monthlyPayment, months, lo, hi)
      invariant Pow(2.0, steps) > 0.0 && hi - lo == HighestRate / Pow(2.0, steps)
      decreases ((hi - lo) * 10000.0).Floor
    {
      var midRate := (lo + hi) / 2.0;
      HalfFloorDecreases((hi - lo) * 10000.0);
      assert ((midRate - lo) * 10000.0) == (hi - lo) * 10000.0 / 2.0 == (hi - midRate) * 10000.0;
      if PaymentBelow(principal, midRate, months, monthlyPayment) {
        lo := midRate;
      } else {
        hi := midRate;
      }
      HalveWidth(hi - lo, steps);
      steps := steps + 1;
    }
    low, high := lo, hi;
    rate := (lo + hi) / 2.0;
  }

  lemma HalveWidth(width: real, steps: nat)
    requires Pow(2.0, steps) > 0.0
    ensures Pow(2.0, steps + 1) > 0.0
    ensures width == HighestRate / Pow(2.0, steps) / 2.0 ==> width == HighestRate / Pow(2.0, steps + 1)
  {
    PowNext(2.0, steps);
  }

  datatype FeeLoanResult = FeeLoanResult(loan: LoanResult, equivalentInterestRate: real, initialFee: real)

  /**
   * The payment the equivalent rate is matched against:
   * `loanResult.monthlyPayment || (by payment ? monthlyPayment : 0)`,
   * where an absent or zero level payment falls through.
   */
  function EquivalenceTarget(loan: LoanResult, terms: LoanTerms): (target: real)
    ensures loan.monthlyPayment.Some? && loan.monthlyPayment.value != 0.0 ==> target == loan.monthlyPayment.value
    ensures (loan.monthlyPayment.None? || loan.monthlyPayment.value == 0.0) ==>
      target == (if terms.ByPayment? then terms.monthlyPayment else 0.0)
  {
    if loan.monthlyPayment.Some? && loan.monthlyPayment.value != 0.0 then loan.monthlyPayment.value
    else if terms.ByPayment? then terms.monthlyPayment
    else 0.0
  }

  /**
   * calculateLoanWithFee: fee = principal × fee% / 100, the declining
   * schedule of principal + fee (its error propagates), and the equivalent
   * rate over as many months as that schedule has rows.
   */
  method CalculateLoanWithFee(principal: real, feePercentage: real, annualInterestRate: real, terms: LoanTerms)
    returns (res: Result<FeeLoanResult, LoanError>)
    ensures var total := principal + principal * (feePercentage / 100.0);
      && (terms.ByTerm? ==>
            (res.Failure? <==> Pow(1.0 + MonthlyRate(annualInterestRate), terms.months) == 1.0))
      && (terms.ByTerm? && res.Success? ==>
            DecliningByTermOutcome(total, annualInterestRate, terms.months, res.value.loan))
      && (terms.ByPayment? && res.Success? ==>
            DecliningByPaymentOutcome(total, annualInterestRate, terms.monthlyPayment, res.value.loan))
      && (terms.ByPayment? && res.Failure? ==> PaymentTooLowAt(total, annualInterestRate, terms.monthlyPayment))
    ensures res.Success? ==>
      && res.value.initialFee == principal * (feePercentage / 100.0)
      && LowestRate <= res.value.equivalentInterestRate <= HighestRate
      && (exists low, high ::
            && Bracket(principal, EquivalenceTarget(res.value.loan, terms), |res.value.loan.payments|, low, high)
            && high - low <= Tolerance
            && res.value.equivalentInterestRate == (low + high) / 2.0)
  {
    var initialFee := principal * (feePercentage / 100.0);
    var totalLoanAmount := principal + initialFee;
    var loanResult := DecliningBalanceLoan(totalLoanAmount, annualInterestRate, terms);
    if loanResult.Failure? {
      return Failure(loanResult.error);
    }
    var loan := loanResult.value;
    var equivalentInterestRate, low, high, steps :=
      EquivalentInterestRate(principal, EquivalenceTarget(loan, terms), |loan.payments|);
    res := Success(FeeLoanResult(loan, equivalentInterestRate, initialFee));
  }
}
