/**
 * The equal-payment (annuity) loan of src/lib/calculations.ts.
 *
 * By term, every row pays the level payment and the principal part is the
 * payment minus the interest, with no cap; the balance carried from row to
 * row is never clamped (only the reported one is). By payment, the number
 * of rows is computed up front (a division at rate 0, a logarithm
 * otherwise) and each row is the capped declining-balance step.
 */
module Annuity {
  import opened Wrappers
  import opened Numeric
  import opened LoanSchedule

  // ---------------------------------------------------------------------
  // By term
  // ---------------------------------------------------------------------

  /** The balance carried after k level payments (unclamped). */
  function AnnuityBalance(principal: real, rate: real, payment: real, k: nat): real
  {
    if k == 0 then principal
    else
      var before := AnnuityBalance(principal, rate, payment, k - 1);
      before - (payment - before * rate)
  }

  lemma AnnuityBalanceNext(principal: real, rate: real, payment: real, k: nat)
    ensures var b := AnnuityBalance(principal, rate, payment, k);
      AnnuityBalance(principal, rate, payment, k + 1) == b - (payment - b * rate)
  {
  }

  /** The interest paid in the first k rows. */
  function AnnuityInterest(principal: real, rate: real, payment: real, k: nat): real
  {
    if k == 0 then 0.0
    else AnnuityInterest(principal, rate, payment, k - 1) + AnnuityBalance(principal, rate, payment, k - 1) * rate
  }

  /** One by-term row: the full level payment, its principal part uncapped. */
  function AnnuityRow(month: nat, balance: real, rate: real, payment: real, interestSoFar: real): (row: LoanPayment)
    ensures row.payment == payment == row.principal + row.interest
    ensures row.remainingBalance >= 0.0
    ensures balance - row.principal >= 0.0 ==> row.remainingBalance == balance - row.principal
  {
    var interest := balance * rate;
    var principalPart := payment - interest;
    LoanPayment(month, payment, principalPart, interest, Max(0.0, balance - principalPart), interestSoFar + interest)
  }

  /** Row k (0-based) is the step from the balance after k payments. */
  ghost predicate AnnuityRows(rows: seq<LoanPayment>, principal: real, rate: real, payment: real)
  {
    forall k {:trigger rows[k]} :: 0 <= k < |rows| ==>
      rows[k] == AnnuityRow(k + 1, AnnuityBalance(principal, rate, payment, k), rate, payment,
                            AnnuityInterest(principal, rate, payment, k))
  }

  /** The level-payment equation payment·(q^n − 1) = P·r·q^n, q = 1 + r, which LevelPayment solves. */
  ghost predicate SolvesLevelEquation(principal: real, rate: real, months: nat, payment: real)
  {
    payment * (Pow(1.0 + rate, months) - 1.0) == principal * rate * Pow(1.0 + rate, months)
  }

  ghost predicate AnnuityByTermOutcome(principal: real, annualRate: real, months: nat, res: LoanResult)
  {
    var rate := MonthlyRate(annualRate);
    && months >= 1
    && res.monthlyPayment.Some?
    && SolvesLevelEquation(principal, rate, months, res.monthlyPayment.value)
    && res.totalMonths == None
    && |res.payments| == months
    && AnnuityRows(res.payments, principal, rate, res.monthlyPayment.value)
    && res.totalInterest == AnnuityInterest(principal, rate, res.monthlyPayment.value, months)
    && res.totalAmount == principal + res.totalInterest
  }

  /** The algebra of one step of the closed form: from B_{k-1}·r to B_k·r. */
  lemma ClosedFormStep(principal: real, rate: real, payment: real, b: real, q: real, bk: real, qk: real)
    requires b * rate == principal * rate * q - payment * (q - 1.0)
    requires bk == b - (payment - b * rate) && qk == (1.0 + rate) * q
    ensures bk * rate == principal * rate * qk - payment * (qk - 1.0)
  {
    assert bk * rate == (b * rate) * (1.0 + rate) - payment * rate;
    assert (b * rate) * (1.0 + rate) == (principal * rate * q - payment * (q - 1.0)) * (1.0 + rate);
  }

  /** Closed form of the carried balance, multiplied through by the rate: B_k·r = P·r·q^k − payment·(q^k − 1). */
  lemma {:induction false} AnnuityBalanceClosedForm(principal: real, rate: real, payment: real, k: nat)
    ensures AnnuityBalance(principal, rate, payment, k) * rate
         == principal * rate * Pow(1.0 + rate, k) - payment * (Pow(1.0 + rate, k) - 1.0)
    decreases k
  {
    if k > 0 {
      AnnuityBalanceClosedForm(principal, rate, payment, k - 1);
      ClosedFormNext(principal, rate, payment, k);
    }
  }

  lemma ClosedFormNext(principal: real, rate: real, payment: real, k: nat)
    requires k > 0
    requires AnnuityBalance(principal, rate, payment, k - 1) * rate
          == principal * rate * Pow(1.0 + rate, k - 1) - payment * (Pow(1.0 + rate, k - 1) - 1.0)
    ensures AnnuityBalance(principal, rate, payment, k) * rate
         == principal * rate * Pow(1.0 + rate, k) - payment * (Pow(1.0 + rate, k) - 1.0)
  {
    AnnuityBalanceNext(principal, rate, payment, k - 1);
    PowNext(1.0 + rate, k - 1);
    ClosedFormStep(principal, rate, payment, AnnuityBalance(principal, rate, payment, k - 1), Pow(1.0 + rate, k - 1),
                   AnnuityBalance(principal, rate, payment, k), Pow(1.0 + rate, k));
  }

  /** The level payment P·r·q^n / (q^n − 1) solves payment·(q^n − 1) = P·r·q^n. */
  lemma LevelPaymentEquation(principal: real, rate: real, months: nat)
    requires Pow(1.0 + rate, months) != 1.0
    ensures SolvesLevelEquation(principal, rate, months, LevelPayment(principal, rate, months))
  {
    DivisionCancels(principal * rate * Pow(1.0 + rate, months), Pow(1.0 + rate, months) - 1.0);
  }

  /** The level-payment equation has exactly one solution, the formula. */
  lemma LevelEquationUnique(principal: real, rate: real, months: nat, payment: real)
    requires Pow(1.0 + rate, months) != 1.0
    ensures SolvesLevelEquation(principal, rate, months, payment) <==> payment == LevelPayment(principal, rate, months)
  {
    LevelPaymentEquation(principal, rate, months);
    if SolvesLevelEquation(principal, rate, months, payment) {
      var d := Pow(1.0 + rate, months) - 1.0;
      CancelNonZero(payment, LevelPayment(principal, rate, months), d);
    }
  }

  lemma CancelNonZero(x: real, y: real, d: real)
    requires d != 0.0 && x * d == y * d
    ensures x == y
  {
    assert (x - y) * d == 0.0;
  }

  lemma DivisionCancels(x: real, y: real)
    requires y != 0.0
    ensures x / y * y == x
  {
  }

  /** A payment solving payment·(q^n − 1) = P·r·q^n leaves a zero carried balance after n rows. */
  lemma AnnuityPaysOff(principal: real, rate: real, payment: real, months: nat)
    requires rate > 0.0 && SolvesLevelEquation(principal, rate, months, payment)
    ensures AnnuityBalance(principal, rate, payment, months) == 0.0
  {
    AnnuityBalanceClosedForm(principal, rate, payment, months);
    ZeroProductRate(AnnuityBalance(principal, rate, payment, months), rate);
  }

  lemma ZeroProductRate(b: real, rate: real)
    requires rate > 0.0 && b * rate == 0.0
    ensures b == 0.0
  {
  }

  /** Interest paid plus the principal equals the payments made plus what is still owed. */
  lemma {:induction false} AnnuityInterestIdentity(principal: real, rate: real, payment: real, k: nat)
    ensures AnnuityInterest(principal, rate, payment, k) + principal
         == k as real * payment + AnnuityBalance(principal, rate, payment, k)
    decreases k
  {
    if k > 0 {
      AnnuityInterestIdentity(principal, rate, payment, k - 1);
      var b := AnnuityBalance(principal, rate, payment, k - 1);
      assert AnnuityBalance(principal, rate, payment, k) == b - (payment - b * rate);
      assert AnnuityInterest(principal, rate, payment, k) == AnnuityInterest(principal, rate, payment, k - 1) + b * rate;
      MultiplyStep(k, payment);
    }
  }

  /** The balance a by-term row reports is the carried balance after it, floored at zero. */
  lemma AnnuityReportedBalance(rows: seq<LoanPayment>, principal: real, rate: real, payment: real, k: nat)
    requires AnnuityRows(rows, principal, rate, payment) && k < |rows|
    ensures rows[k].remainingBalance == Max(0.0, AnnuityBalance(principal, rate, payment, k + 1))
  {
    var b := AnnuityBalance(principal, rate, payment, k);
    assert rows[k] == AnnuityRow(k + 1, b, rate, payment, AnnuityInterest(principal, rate, payment, k));
    AnnuityBalanceNext(principal, rate, payment, k);
  }

  /** Rows of a payment that solves the level-payment equation: they cost n × payment and end at zero. */
  lemma LevelRowsTotals(rows: seq<LoanPayment>, principal: real, rate: real, payment: real, months: nat)
    requires rate > 0.0 && months >= 1 && |rows| == months
    requires SolvesLevelEquation(principal, rate, months, payment)
    requires AnnuityRows(rows, principal, rate, payment)
    ensures principal + AnnuityInterest(principal, rate, payment, months) == months as real * payment
    ensures rows[months - 1].remainingBalance == 0.0
  {
    AnnuityPaysOff(principal, rate, payment, months);
    AnnuityInterestIdentity(principal, rate, payment, months);
    AnnuityReportedBalance(rows, principal, rate, payment, months - 1);
  }

  /**
   * By term the loan costs exactly months × payment, and the last row
   * reports a zero balance.
   */
  lemma AnnuityByTermTotals(principal: real, annualRate: real, months: nat, res: LoanResult)
    requires annualRate > 0.0 && AnnuityByTermOutcome(principal, annualRate, months, res)
    ensures res.monthlyPayment.Some?
    ensures res.totalAmount == months as real * res.monthlyPayment.value
    ensures res.payments[months - 1].remainingBalance == 0.0
  {
    assert MonthlyRate(annualRate) > 0.0;
    LevelResultTotals(principal, MonthlyRate(annualRate), months, res);
  }

  lemma LevelResultTotals(principal: real, rate: real, months: nat, res: LoanResult)
    requires rate > 0.0 && months >= 1 && res.monthlyPayment.Some? && |res.payments| == months
    requires SolvesLevelEquation(principal, rate, months, res.monthlyPayment.value)
    requires AnnuityRows(res.payments, principal, rate, res.monthlyPayment.value)
    requires res.totalAmount == principal + AnnuityInterest(principal, rate, res.monthlyPayment.value, months)
    ensures res.totalAmount == months as real * res.monthlyPayment.value
    ensures res.payments[months - 1].remainingBalance == 0.0
  {
    LevelRowsTotals(res.payments, principal, rate, res.monthlyPayment.value, months);
  }

  // ---------------------------------------------------------------------
  // By payment
  // ---------------------------------------------------------------------

  /**
   * The number of rows computed up front: ceil(principal / payment) at
   * rate 0, otherwise ceil(−ln(1 − principal·r / payment) / ln(1 + r)).
   * The loop runs for months 1 to this count, so a count below one gives
   * no rows.
   */
  function AnnuityTermCount(principal: real, rate: real, payment: real, ln: real -> real): int
    requires payment > 0.0 && rate >= 0.0 && payment > principal * rate && LogSigns(ln)
  {
    if rate == 0.0 then Ceil(principal / payment)
    else Ceil(-ln(1.0 - principal * rate / payment) / ln(1.0 + rate))
  }

  ghost predicate AnnuityByPaymentOutcome(principal: real, annualRate: real, payment: real, ln: real -> real, res: LoanResult)
    requires payment > 0.0 && annualRate >= 0.0 && payment > principal * MonthlyRate(annualRate) && LogSigns(ln)
  {
    var rate := MonthlyRate(annualRate);
    var count := AnnuityTermCount(principal, rate, payment, ln);
    && res.monthlyPayment == None
    && res.totalMonths == Some(|res.payments|)
    && |res.payments| == (if count < 0 then 0 else count)
    && DecliningRows(res.payments, principal, rate, payment)
    && Totals(res, principal)
  }

  lemma MultiplyStep(k: nat, x: real)
    requires k > 0
    ensures k as real * x == (k - 1) as real * x + x
  {
  }

  /** At rate 0 a row takes the payment, or the whole balance if less is owed. */
  lemma ZeroRateStep(balance: real, owed: real, payment: real)
    requires payment > 0.0 && balance == Max(0.0, owed)
    ensures balance - Min(payment - balance * 0.0, balance) == Max(0.0, owed - payment)
  {
  }

  lemma OwedStep(principal: real, payment: real, k: nat, owed: real)
    requires k > 0 && owed == principal - (k - 1) as real * payment
    ensures owed - payment == principal - k as real * payment
  {
    MultiplyStep(k, payment);
  }

  lemma ZeroRateRow(rows: seq<LoanPayment>, principal: real, payment: real, k: nat)
    requires DecliningRows(rows, principal, 0.0, payment) && 0 < k <= |rows| && payment > 0.0
    requires BalanceBefore(rows, principal, k - 1) == Max(0.0, principal - (k - 1) as real * payment)
    ensures BalanceBefore(rows, principal, k) == Max(0.0, principal - k as real * payment)
  {
    DecliningRowIsStep(rows, principal, 0.0, payment, k - 1);
    ZeroRateStep(BalanceBefore(rows, principal, k - 1), principal - (k - 1) as real * payment, payment);
    OwedStep(principal, payment, k, principal - (k - 1) as real * payment);
  }

  /**
   * At rate 0 the balance before row k is max(0, principal − k·payment):
   * each row takes the whole payment or what is left.
   */
  lemma {:induction false} ZeroRateBalance(rows: seq<LoanPayment>, principal: real, payment: real, k: nat)
    requires DecliningRows(rows, principal, 0.0, payment) && k <= |rows|
    requires principal >= 0.0 && payment > 0.0
    ensures BalanceBefore(rows, principal, k) == Max(0.0, principal - k as real * payment)
    decreases k
  {
    if k > 0 {
      ZeroRateBalance(rows, principal, payment, k - 1);
      ZeroRateRow(rows, principal, payment, k);
    }
  }

  /**
   * By payment at rate 0: every row is interest-free and the principal
   * column adds up to the loan, ceil(principal / payment) rows.
   */
  lemma ZeroRatePaysPrincipal(principal: real, payment: real, ln: real -> real, res: LoanResult)
    requires principal >= 0.0 && payment > 0.0 && LogSigns(ln)
    requires AnnuityByPaymentOutcome(principal, 0.0, payment, ln, res)
    ensures |res.payments| == Ceil(principal / payment)
    ensures forall k :: 0 <= k < |res.payments| ==> res.payments[k].interest == 0.0
    ensures SumPrincipal(res.payments) == principal
    ensures res.totalInterest == 0.0 && res.totalAmount == principal
  {
    var rows := res.payments;
    var n := |rows|;
    assert MonthlyRate(0.0) == 0.0;
    assert n == Ceil(principal / payment);
    assert n as real * payment >= principal by {
      assert n as real >= principal / payment;
    }
    ZeroRateBalance(rows, principal, payment, n);
    PrincipalRepaid(rows, principal, 0.0, payment);
    forall k | 0 <= k < n
      ensures rows[k].interest == 0.0
    {
      DecliningRowIsStep(rows, principal, 0.0, payment, k);
    }
    RunningInterest(rows, principal, 0.0, payment);
    ZeroInterestSum(rows);
  }

  lemma {:induction false} ZeroInterestSum(rows: seq<LoanPayment>)
    requires forall k :: 0 <= k < |rows| ==> rows[k].interest == 0.0
    ensures SumInterest(rows) == 0.0
    decreases |rows|
  {
    if |rows| > 0 {
      ZeroInterestSum(rows[..|rows| - 1]);
    }
  }

  // ---------------------------------------------------------------------
  // The generator
  // ---------------------------------------------------------------------

  lemma AnnuityInterestNext(principal: real, rate: real, payment: real, k: nat)
    ensures AnnuityInterest(principal, rate, payment, k + 1)
         == AnnuityInterest(principal, rate, payment, k) + AnnuityBalance(principal, rate, payment, k) * rate
  {
  }

  /** One pass of the by-term loop keeps every row the step from the carried balance. */
  lemma AppendAnnuityRow(rows: seq<LoanPayment>, principal: real, rate: real, payment: real, row: LoanPayment)
    requires AnnuityRows(rows, principal, rate, payment)
    requires row == AnnuityRow(|rows| + 1, AnnuityBalance(principal, rate, payment, |rows|), rate, payment,
                               AnnuityInterest(principal, rate, payment, |rows|))
    ensures AnnuityRows(rows + [row], principal, rate, payment)
  {
    forall k | 0 <= k < |rows| + 1
      ensures (rows + [row])[k] == AnnuityRow(k + 1, AnnuityBalance(principal, rate, payment, k), rate, payment,
                                              AnnuityInterest(principal, rate, payment, k))
    {
      if k < |rows| {
        assert (rows + [row])[k] == rows[k];
      }
    }
  }

  /**
   * calculateAnnuityLoan: dispatches on the solve mode. By term needs a
   * positive rate and at least one month (the level-payment formula
   * divides by zero otherwise); by payment needs a payment above the first
   * month's interest, so that the logarithm's argument lies in (0, 1].
   */
  method AnnuityLoan(principal: real, annualInterestRate: real, terms: LoanTerms, ln: real -> real)
    returns (res: LoanResult)
    requires terms.ByTerm? ==> annualInterestRate > 0.0 && terms.months >= 1
    requires terms.ByPayment? ==>
      && annualInterestRate >= 0.0 && terms.monthlyPayment > 0.0
      && terms.monthlyPayment > principal * MonthlyRate(annualInterestRate)
    requires LogSigns(ln)
    ensures terms.ByTerm? ==> AnnuityByTermOutcome(principal, annualInterestRate, terms.months, res)
    ensures terms.ByPayment? ==> AnnuityByPaymentOutcome(principal, annualInterestRate, terms.monthlyPayment, ln, res)
  {
    match terms
    case ByTerm(months) =>
      res := AnnuityByTerm(principal, annualInterestRate, months);
    case ByPayment(monthlyPayment) =>
      res := AnnuityByPayment(principal, annualInterestRate, monthlyPayment, ln);
  }

  /** The by-term branch: exactly `months` rows of the level payment. */
  method AnnuityByTerm(principal: real, annualInterestRate: real, months: nat) returns (res: LoanResult)
    requires annualInterestRate > 0.0 && months >= 1
    ensures AnnuityByTermOutcome(principal, annualInterestRate, months, res)
  {
    var monthlyRate := MonthlyRate(annualInterestRate);
    PowGrowthZero(monthlyRate, months);
    var monthlyPayment := LevelPayment(principal, monthlyRate, months);
    LevelPaymentEquation(principal, monthlyRate, months);
    var payments, totalInterest := LevelPaymentRows(principal, monthlyRate, monthlyPayment, months);
    res := LoanResult(Some(monthlyPayment), None, payments, totalInterest, principal + totalInterest);
  }

  /** The by-term loop: `months` rows, each paying `monthlyPayment`. */
  method LevelPaymentRows(principal: real, monthlyRate: real, monthlyPayment: real, months: nat)
    returns (payments: seq<LoanPayment>, totalInterest: real)
    ensures |payments| == months
    ensures AnnuityRows(payments, principal, monthlyRate, monthlyPayment)
    ensures totalInterest == AnnuityInterest(principal, monthlyRate, monthlyPayment, months)
  {
    payments := [];
    var remainingBalance := principal;
    totalInterest := 0.0;
    var month: nat := 1;
    while month <= months
      invariant 1 <= month <= months + 1 && |payments| == month - 1
      invariant AnnuityRows(payments, principal, monthlyRate, monthlyPayment)
      invariant remainingBalance == AnnuityBalance(principal, monthlyRate, monthlyPayment, |payments|)
      invariant totalInterest == AnnuityInterest(principal, monthlyRate, monthlyPayment, |payments|)
    {
      // row.interest is remainingBalance * monthlyRate and row.principal the payment less it
      var row := AnnuityRow(month, remainingBalance, monthlyRate, monthlyPayment, totalInterest);
      AppendAnnuityRow(payments, principal, monthlyRate, monthlyPayment, row);
      AnnuityBalanceNext(principal, monthlyRate, monthlyPayment, |payments|);
      AnnuityInterestNext(principal, monthlyRate, monthlyPayment, |payments|);
      remainingBalance := remainingBalance - row.principal;
      totalInterest := row.totalInterest;
      payments := payments + [row];
      month := month + 1;
    }
  }

  /**
   * The by-payment branch: the row count is computed first, then that many
   * declining-balance rows (interest-free at rate 0).
   */
  method AnnuityByPayment(principal: real, annualInterestRate: real, monthlyPayment: real, ln: real -> real)
    returns (res: LoanResult)
    requires annualInterestRate >= 0.0 && monthlyPayment > 0.0
    requires monthlyPayment > principal * MonthlyRate(annualInterestRate) && LogSigns(ln)
    ensures AnnuityByPaymentOutcome(principal, annualInterestRate, monthlyPayment, ln, res)
  {
    var monthlyRate := MonthlyRate(annualInterestRate);
    var payments: seq<LoanPayment> := [];
    var remainingBalance := principal;
    var totalInterest := 0.0;
    var months := AnnuityTermCount(principal, monthlyRate, monthlyPayment, ln);
    var month := 1;
    if monthlyRate == 0.0 {
      while month <= months
        invariant month >= 1 && |payments| == month - 1
        invariant months >= 0 ==> month <= months + 1
        invariant months < 0 ==> month == 1
        invariant DecliningRows(payments, principal, 0.0, monthlyPayment)
        invariant remainingBalance == BalanceBefore(payments, principal, |payments|)
        invariant InterestBefore(payments, |payments|) == 0.0
      {
        var principalPayment := Min(monthlyPayment, remainingBalance);
        var row := LoanPayment(month, principalPayment, principalPayment, 0.0,
                               Max(0.0, remainingBalance - principalPayment), 0.0);
        assert row == DecliningRow(month, remainingBalance, 0.0, monthlyPayment, 0.0);
        AppendDecliningRow(payments, principal, 0.0, monthlyPayment);
        remainingBalance := remainingBalance - principalPayment;
        payments := payments + [row];
        month := month + 1;
      }
    } else {
      while month <= months
        invariant month >= 1 && |payments| == month - 1
        invariant months >= 0 ==> month <= months + 1
        invariant months < 0 ==> month == 1
        invariant DecliningRows(payments, principal, monthlyRate, monthlyPayment)
        invariant remainingBalance == BalanceBefore(payments, principal, |payments|)
        invariant totalInterest == InterestBefore(payments, |payments|)
      {
        var row := DecliningRow(month, remainingBalance, monthlyRate, monthlyPayment, totalInterest);
        AppendDecliningRow(payments, principal, monthlyRate, monthlyPayment);
        remainingBalance := remainingBalance - row.principal;
        totalInterest := row.totalInterest;
        payments := payments + [row];
        month := month + 1;
      }
    }
    res := LoanResult(None, Some(|payments|), payments, totalInterest, principal + totalInterest);
  }
}
