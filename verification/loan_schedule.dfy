/**
 * Loan amortisation schedules: the declining-balance loan and the
 * equal-payment (annuity) loan, each solved either for a given term or
 * for a given monthly payment (src/lib/calculations.ts).
 *
 * A schedule is specified row by row: each row is one step of a
 * recurrence from the balance left by the previous row, and the loop
 * stops at a stated row. The generator methods are proved to produce
 * exactly such schedules; the lemmas show that these predicates
 * determine the schedule uniquely and derive the loan-level facts
 * (running totals, pay-off, total amount).
 */
module LoanSchedule {
  import opened Wrappers
  import opened Numeric

  /** One row of a schedule; `month` counts from 1. */
  datatype LoanPayment = LoanPayment(
    month: nat,
    payment: real,
    principal: real,
    interest: real,
    remainingBalance: real,
    totalInterest: real)

  /** `monthlyPayment` is present when solving by term, `totalMonths` when solving by payment. */
  datatype LoanResult = LoanResult(
    monthlyPayment: Option<real>,
    totalMonths: Option<nat>,
    payments: seq<LoanPayment>,
    totalInterest: real,
    totalAmount: real)

  /** The `{ months } | { monthlyPayment }` argument. */
  datatype LoanTerms = ByTerm(months: nat) | ByPayment(monthlyPayment: real)

  /**
   * PaymentTooLow is the thrown "Monthly payment is too low to cover
   * interest"; NonFinitePayment stands for the level-payment formula
   * dividing by zero, where JavaScript produces NaN or Infinity.
   */
  datatype LoanError = PaymentTooLow | NonFinitePayment

  /** Balances at or below this are treated as paid off. */
  const PayoffThreshold: real := 0.01

  /** The by-payment loop never runs past 50 years. */
  const MaxMonths: nat := 600

  function MonthlyRate(annualRate: real): real
  {
    annualRate / 100.0 / 12.0
  }

  /** The level payment P·r·(1+r)^n / ((1+r)^n − 1). */
  function LevelPayment(principal: real, rate: real, months: nat): real
    requires Pow(1.0 + rate, months) != 1.0
  {
    principal * rate * Pow(1.0 + rate, months) / (Pow(1.0 + rate, months) - 1.0)
  }

  // ---------------------------------------------------------------------
  // Declining-balance rows
  // ---------------------------------------------------------------------

  /**
   * One declining-balance row: interest on the balance, then the principal
   * part is what the payment leaves after interest, capped at the balance.
   */
  function DecliningRow(month: nat, balance: real, rate: real, payment: real, interestSoFar: real): (row: LoanPayment)
    ensures row.payment == row.principal + row.interest && row.payment <= payment
    ensures row.principal <= balance
    ensures row.remainingBalance == balance - row.principal >= 0.0
    ensures payment > row.interest && balance > 0.0 ==> row.remainingBalance < balance
  {
    var interest := balance * rate;
    var principalPart := Min(payment - interest, balance);
    LoanPayment(month, principalPart + interest, principalPart, interest,
                Max(0.0, balance - principalPart), interestSoFar + interest)
  }

  /** The balance owed before row k (0-based). */
  function BalanceBefore(rows: seq<LoanPayment>, principal: real, k: nat): real
    requires k <= |rows|
  {
    if k == 0 then principal else rows[k - 1].remainingBalance
  }

  /** The interest accumulated before row k (0-based). */
  function InterestBefore(rows: seq<LoanPayment>, k: nat): real
    requires k <= |rows|
  {
    if k == 0 then 0.0 else rows[k - 1].totalInterest
  }

  /**
   * Every row is the declining-balance step from the balance the previous
   * row left (stated on the last row, recursively on the prefix).
   */
  ghost predicate DecliningRows(rows: seq<LoanPayment>, principal: real, rate: real, payment: real)
    decreases |rows|
  {
    |rows| == 0 ||
    (&& DecliningRows(rows[..|rows| - 1], principal, rate, payment)
     && rows[|rows| - 1] == DecliningRow(|rows|, BalanceBefore(rows, principal, |rows| - 1), rate, payment,
                                         InterestBefore(rows, |rows| - 1)))
  }

  /**
   * The loop `while (balance > 0.01 && month <= limit)`: every row started
   * with more than the threshold owed, and fewer than `limit` rows means
   * the balance dropped to the threshold.
   */
  ghost predicate RunsWhileOwed(rows: seq<LoanPayment>, principal: real, limit: nat)
  {
    && |rows| <= limit
    && StartedOwing(rows, principal)
    && (|rows| < limit ==> BalanceBefore(rows, principal, |rows|) <= PayoffThreshold)
  }

  /** totalInterest is the last running total and totalAmount = principal + totalInterest. */
  ghost predicate Totals(res: LoanResult, principal: real)
  {
    && res.totalInterest == InterestBefore(res.payments, |res.payments|)
    && res.totalAmount == principal + res.totalInterest
  }

  ghost predicate DecliningByTermOutcome(principal: real, annualRate: real, months: nat, res: LoanResult)
  {
    var rate := MonthlyRate(annualRate);
    && Pow(1.0 + rate, months) != 1.0
    && res.monthlyPayment == Some(LevelPayment(principal, rate, months))
    && res.totalMonths == None
    && DecliningRows(res.payments, principal, rate, LevelPayment(principal, rate, months))
    && RunsWhileOwed(res.payments, principal, months)
    && Totals(res, principal)
  }

  /** The payment exceeded the interest of every row. */
  ghost predicate InterestCovered(rows: seq<LoanPayment>, payment: real)
  {
    forall k :: 0 <= k < |rows| ==> payment > rows[k].interest
  }

  ghost predicate DecliningByPaymentOutcome(principal: real, annualRate: real, payment: real, res: LoanResult)
  {
    var rate := MonthlyRate(annualRate);
    && res.monthlyPayment == None
    && res.totalMonths == Some(|res.payments|)
    && DecliningRows(res.payments, principal, rate, payment)
    && RunsWhileOwed(res.payments, principal, MaxMonths)
    && InterestCovered(res.payments, payment)
    && Totals(res, principal)
  }

  /**
   * `rows` were produced, the loop goes on to another row, and the payment
   * does not exceed that row's interest: the by-payment loop throws here.
   */
  ghost predicate PaymentTooLowAfter(rows: seq<LoanPayment>, principal: real, annualRate: real, payment: real)
  {
    var rate := MonthlyRate(annualRate);
    && DecliningRows(rows, principal, rate, payment)
    && |rows| < MaxMonths
    && (forall k :: 0 <= k <= |rows| ==> BalanceBefore(rows, principal, k) > PayoffThreshold)
    && InterestCovered(rows, payment)
    && payment <= BalanceBefore(rows, principal, |rows|) * rate
  }

  ghost predicate PaymentTooLowAt(principal: real, annualRate: real, payment: real)
  {
    exists rows :: PaymentTooLowAfter(rows, principal, annualRate, payment)
  }

  lemma AppendKeepsBefore(rows: seq<LoanPayment>, row: LoanPayment, principal: real)
    ensures forall k :: 0 <= k <= |rows| ==>
      BalanceBefore(rows + [row], principal, k) == BalanceBefore(rows, principal, k)
      && InterestBefore(rows + [row], k) == InterestBefore(rows, k)
  {
    forall k | 0 <= k <= |rows|
      ensures BalanceBefore(rows + [row], principal, k) == BalanceBefore(rows, principal, k)
      ensures InterestBefore(rows + [row], k) == InterestBefore(rows, k)
    {
      if k > 0 {
        assert (rows + [row])[k - 1] == rows[k - 1];
      }
    }
  }

  lemma AppendDecliningRow(rows: seq<LoanPayment>, principal: real, rate: real, payment: real)
    requires DecliningRows(rows, principal, rate, payment)
    ensures var row := DecliningRow(|rows| + 1, BalanceBefore(rows, principal, |rows|), rate, payment, InterestBefore(rows, |rows|));
      && DecliningRows(rows + [row], principal, rate, payment)
      && BalanceBefore(rows + [row], principal, |rows| + 1) == row.remainingBalance
      && InterestBefore(rows + [row], |rows| + 1) == row.totalInterest
  {
    var row := DecliningRow(|rows| + 1, BalanceBefore(rows, principal, |rows|), rate, payment, InterestBefore(rows, |rows|));
    AppendKeepsBefore(rows, row, principal);
    assert (rows + [row])[..|rows|] == rows;
  }

  /** Every row so far was started with more than the threshold owed. */
  ghost predicate StartedOwing(rows: seq<LoanPayment>, principal: real)
  {
    forall k :: 0 <= k < |rows| ==> BalanceBefore(rows, principal, k) > PayoffThreshold
  }

  /** One pass of the generator loop keeps the schedule a declining one. */
  lemma DecliningStep(rows: seq<LoanPayment>, principal: real, rate: real, payment: real, row: LoanPayment)
    requires DecliningRows(rows, principal, rate, payment) && StartedOwing(rows, principal)
    requires BalanceBefore(rows, principal, |rows|) > PayoffThreshold
    requires row == DecliningRow(|rows| + 1, BalanceBefore(rows, principal, |rows|), rate, payment, InterestBefore(rows, |rows|))
    ensures DecliningRows(rows + [row], principal, rate, payment) && StartedOwing(rows + [row], principal)
    ensures BalanceBefore(rows + [row], principal, |rows| + 1) == row.remainingBalance
    ensures InterestBefore(rows + [row], |rows| + 1) == row.totalInterest
  {
    AppendDecliningRow(rows, principal, rate, payment);
    AppendKeepsBefore(rows, row, principal);
  }

  lemma CoveredStep(rows: seq<LoanPayment>, payment: real, row: LoanPayment)
    requires InterestCovered(rows, payment) && payment > row.interest
    ensures InterestCovered(rows + [row], payment)
  {
    forall k | 0 <= k < |rows| + 1
      ensures payment > (rows + [row])[k].interest
    {
      if k < |rows| {
        assert (rows + [row])[k] == rows[k];
      }
    }
  }

  /** The loop state at the throw satisfies PaymentTooLowAt. */
  lemma TooLowWitness(rows: seq<LoanPayment>, principal: real, annualRate: real, payment: real)
    requires DecliningRows(rows, principal, MonthlyRate(annualRate), payment)
    requires StartedOwing(rows, principal) && InterestCovered(rows, payment)
    requires |rows| < MaxMonths && BalanceBefore(rows, principal, |rows|) > PayoffThreshold
    requires payment <= BalanceBefore(rows, principal, |rows|) * MonthlyRate(annualRate)
    ensures PaymentTooLowAt(principal, annualRate, payment)
  {
    assert PaymentTooLowAfter(rows, principal, annualRate, payment);
  }

  /**
   * calculateDecliningBalanceLoan: dispatches on the solve mode.
   */
  method DecliningBalanceLoan(principal: real, annualInterestRate: real, terms: LoanTerms)
    returns (res: Result<LoanResult, LoanError>)
    ensures terms.ByTerm? ==>
      (res.Failure? <==> Pow(1.0 + MonthlyRate(annualInterestRate), terms.months) == 1.0)
    ensures terms.ByTerm? && res.Success? ==>
      DecliningByTermOutcome(principal, annualInterestRate, terms.months, res.value)
    ensures terms.ByPayment? && res.Success? ==>
      DecliningByPaymentOutcome(principal, annualInterestRate, terms.monthlyPayment, res.value)
    ensures terms.ByPayment? && res.Failure? ==>
      PaymentTooLowAt(principal, annualInterestRate, terms.monthlyPayment)
    ensures res.Failure? ==> res.error == (if terms.ByTerm? then NonFinitePayment else PaymentTooLow)
  {
    match terms
    case ByTerm(months) =>
      res := DecliningByTerm(principal, annualInterestRate, months);
    case ByPayment(monthlyPayment) =>
      res := DecliningByPayment(principal, annualInterestRate, monthlyPayment);
  }

  /**
   * The by-term branch: the level payment, then rows while more than 0.01
   * is owed, for at most `months` rows.
   */
  method DecliningByTerm(principal: real, annualInterestRate: real, months: nat)
    returns (res: Result<LoanResult, LoanError>)
    ensures res.Failure? <==> Pow(1.0 + MonthlyRate(annualInterestRate), months) == 1.0
    ensures res.Failure? ==> res.error == NonFinitePayment
    ensures res.Success? ==> DecliningByTermOutcome(principal, annualInterestRate, months, res.value)
  {
    var monthlyRate := MonthlyRate(annualInterestRate);
    if Pow(1.0 + monthlyRate, months) == 1.0 {
      return Failure(NonFinitePayment);
    }
    var monthlyPayment := LevelPayment(principal, monthlyRate, months);
    var payments: seq<LoanPayment> := [];
    var remainingBalance := principal;
    var totalInterest := 0.0;
    var month: nat := 1;
    while remainingBalance > PayoffThreshold && month <= months
      invariant month == |payments| + 1 <= months + 1
      invariant DecliningRows(payments, principal, monthlyRate, monthlyPayment)
      invariant remainingBalance == BalanceBefore(payments, principal, |payments|)
      invariant totalInterest == InterestBefore(payments, |payments|)
      invariant StartedOwing(payments, principal)
      decreases months + 1 - month
    {
      var row := DecliningRow(month, remainingBalance, monthlyRate, monthlyPayment, totalInterest);
      DecliningStep(payments, principal, monthlyRate, monthlyPayment, row);
      remainingBalance := remainingBalance - row.principal;
      totalInterest := row.totalInterest;
      payments := payments + [row];
      month := month + 1;
    }
    res := Success(LoanResult(Some(monthlyPayment), None, payments, totalInterest, principal + totalInterest));
  }

  /**
   * The by-payment branch: rows while more than 0.01 is owed, for at most
   * 600 rows, throwing as soon as a row's interest is at least the payment.
   */
  method DecliningByPayment(principal: real, annualInterestRate: real, monthlyPayment: real)
    returns (res: Result<LoanResult, LoanError>)
    ensures res.Success? ==> DecliningByPaymentOutcome(principal, annualInterestRate, monthlyPayment, res.value)
    ensures res.Failure? ==>
      res.error == PaymentTooLow && PaymentTooLowAt(principal, annualInterestRate, monthlyPayment)
  {
    var monthlyRate := MonthlyRate(annualInterestRate);
    var payments: seq<LoanPayment> := [];
    var remainingBalance := principal;
    var totalInterest := 0.0;
    var month: nat := 1;
    while remainingBalance > PayoffThreshold && month <= MaxMonths
      invariant month == |payments| + 1 <= MaxMonths + 1
      invariant DecliningRows(payments, principal, monthlyRate, monthlyPayment)
      invariant remainingBalance == BalanceBefore(payments, principal, |payments|)
      invariant totalInterest == InterestBefore(payments, |payments|)
      invariant StartedOwing(payments, principal)
      invariant InterestCovered(payments, monthlyPayment)
      decreases MaxMonths + 1 - month
    {
      // row.interest is this month's interest, remainingBalance * monthlyRate
      var row := DecliningRow(month, remainingBalance, monthlyRate, monthlyPayment, totalInterest);
      if monthlyPayment <= row.interest {
        TooLowWitness(payments, principal, annualInterestRate, monthlyPayment);
        return Failure(PaymentTooLow);
      }
      DecliningStep(payments, principal, monthlyRate, monthlyPayment, row);
      remainingBalance := remainingBalance - row.principal;
      totalInterest := row.totalInterest;
      CoveredStep(payments, monthlyPayment, row);
      payments := payments + [row];
      month := month + 1;
    }
    res := Success(LoanResult(None, Some(|payments|), payments, totalInterest, principal + totalInterest));
  }

  // ---------------------------------------------------------------------
  // What the row predicate implies
  // ---------------------------------------------------------------------

  /** The sum of the interest column. */
  function SumInterest(rows: seq<LoanPayment>): real
    decreases |rows|
  {
    if |rows| == 0 then 0.0 else SumInterest(rows[..|rows| - 1]) + rows[|rows| - 1].interest
  }

  /** The sum of the principal column. */
  function SumPrincipal(rows: seq<LoanPayment>): real
    decreases |rows|
  {
    if |rows| == 0 then 0.0 else SumPrincipal(rows[..|rows| - 1]) + rows[|rows| - 1].principal
  }

  lemma {:induction false} DecliningPrefix(rows: seq<LoanPayment>, principal: real, rate: real, payment: real, n: nat)
    requires DecliningRows(rows, principal, rate, payment) && n <= |rows|
    ensures DecliningRows(rows[..n], principal, rate, payment)
    decreases |rows| - n
  {
    if n < |rows| {
      var shorter := rows[..|rows| - 1];
      assert shorter[..n] == rows[..n];
      DecliningPrefix(shorter, principal, rate, payment, n);
    } else {
      assert rows[..n] == rows;
    }
  }

  /** Row k of a declining schedule is the step from the balance and interest total before it. */
  lemma DecliningRowIsStep(rows: seq<LoanPayment>, principal: real, rate: real, payment: real, k: nat)
    requires DecliningRows(rows, principal, rate, payment) && k < |rows|
    ensures rows[k] == DecliningRow(k + 1, BalanceBefore(rows, principal, k), rate, payment, InterestBefore(rows, k))
  {
    DecliningPrefix(rows, principal, rate, payment, k + 1);
    var prefix := rows[..k + 1];
    assert prefix[k] == rows[k];
    assert BalanceBefore(prefix, principal, k) == BalanceBefore(rows, principal, k);
    assert InterestBefore(prefix, k) == InterestBefore(rows, k);
  }

  /**
   * Row k of a declining schedule: month k + 1, interest on the balance
   * the previous row left, principal min(payment - interest, balance),
   * a non-negative balance left, and the running interest total.
   */
  lemma DecliningRowAt(rows: seq<LoanPayment>, principal: real, rate: real, payment: real, k: nat)
    requires DecliningRows(rows, principal, rate, payment) && k < |rows|
    ensures var balance := BalanceBefore(rows, principal, k);
      && rows[k].month == k + 1
      && rows[k].interest == balance * rate
      && rows[k].principal == Min(payment - rows[k].interest, balance)
      && rows[k].payment == rows[k].principal + rows[k].interest
      && rows[k].remainingBalance == balance - rows[k].principal >= 0.0
      && rows[k].totalInterest == InterestBefore(rows, k) + rows[k].interest
  {
    DecliningRowIsStep(rows, principal, rate, payment, k);
  }

  /** Two declining schedules for the same loan agree on their common length. */
  lemma {:induction false} DecliningRowsAgree(a: seq<LoanPayment>, b: seq<LoanPayment>, principal: real, rate: real, payment: real, n: nat)
    requires DecliningRows(a, principal, rate, payment) && DecliningRows(b, principal, rate, payment)
    requires n <= |a| && n <= |b|
    ensures a[..n] == b[..n]
    decreases n
  {
    if n > 0 {
      DecliningRowsAgree(a, b, principal, rate, payment, n - 1);
      DecliningPrefix(a, principal, rate, payment, n);
      DecliningPrefix(b, principal, rate, payment, n);
      var pa, pb := a[..n], b[..n];
      assert pa[..n - 1] == a[..n - 1] && pb[..n - 1] == b[..n - 1];
      if n > 1 {
        assert pa[n - 2] == a[n - 2] == b[n - 2] == pb[n - 2];
      }
      assert pa[n - 1] == pb[n - 1];
      assert pa == pa[..n - 1] + [pa[n - 1]] && pb == pb[..n - 1] + [pb[n - 1]];
    }
  }

  lemma BalanceAgree(a: seq<LoanPayment>, b: seq<LoanPayment>, principal: real, n: nat)
    requires n <= |a| && n <= |b| && a[..n] == b[..n]
    ensures BalanceBefore(a, principal, n) == BalanceBefore(b, principal, n)
    ensures InterestBefore(a, n) == InterestBefore(b, n)
  {
    if n > 0 {
      assert a[n - 1] == a[..n][n - 1] == b[..n][n - 1] == b[n - 1];
    }
  }

  /**
   * The rows and the stop rule determine the schedule: two schedules for
   * the same loan that both stop by the rule of the loop are equal.
   */
  lemma SameStopSameRows(a: seq<LoanPayment>, b: seq<LoanPayment>, principal: real, rate: real, payment: real, limit: nat)
    requires DecliningRows(a, principal, rate, payment) && RunsWhileOwed(a, principal, limit)
    requires DecliningRows(b, principal, rate, payment) && RunsWhileOwed(b, principal, limit)
    ensures a == b
  {
    if |a| < |b| {
      DecliningRowsAgree(a, b, principal, rate, payment, |a|);
      BalanceAgree(a, b, principal, |a|);
      assert false;
    } else if |b| < |a| {
      DecliningRowsAgree(a, b, principal, rate, payment, |b|);
      BalanceAgree(a, b, principal, |b|);
      assert false;
    }
    DecliningRowsAgree(a, b, principal, rate, payment, |a|);
    assert a == a[..|a|] && b == b[..|b|];
  }

  /** The by-term outcome is unique: the generator's result is the only one the outcome predicate allows. */
  lemma DecliningByTermUnique(principal: real, annualRate: real, months: nat, r1: LoanResult, r2: LoanResult)
    requires DecliningByTermOutcome(principal, annualRate, months, r1)
    requires DecliningByTermOutcome(principal, annualRate, months, r2)
    ensures r1 == r2
  {
    var rate := MonthlyRate(annualRate);
    SameStopSameRows(r1.payments, r2.payments, principal, rate, LevelPayment(principal, rate, months), months);
  }

  /** The by-payment outcome is unique. */
  lemma DecliningByPaymentUnique(principal: real, annualRate: real, payment: real, r1: LoanResult, r2: LoanResult)
    requires DecliningByPaymentOutcome(principal, annualRate, payment, r1)
    requires DecliningByPaymentOutcome(principal, annualRate, payment, r2)
    ensures r1 == r2
  {
    SameStopSameRows(r1.payments, r2.payments, principal, MonthlyRate(annualRate), payment, MaxMonths);
  }

  /**
   * The throw and a result exclude each other: when the loop reaches a row
   * whose interest is at least the payment, no by-payment schedule exists.
   */
  lemma TooLowExcludesSchedule(principal: real, annualRate: real, payment: real, res: LoanResult)
    requires PaymentTooLowAt(principal, annualRate, payment)
    ensures !DecliningByPaymentOutcome(principal, annualRate, payment, res)
  {
    var w :| PaymentTooLowAfter(w, principal, annualRate, payment);
    if DecliningByPaymentOutcome(principal, annualRate, payment, res) {
      TooLowOutlasts(w, res.payments, principal, annualRate, payment);
      TooLowUncovered(w, res.payments, principal, annualRate, payment);
    }
  }

  /** A schedule that stops by the loop condition runs past the row where the payment became too low. */
  lemma TooLowOutlasts(w: seq<LoanPayment>, rows: seq<LoanPayment>, principal: real, annualRate: real, payment: real)
    requires PaymentTooLowAfter(w, principal, annualRate, payment)
    requires DecliningRows(rows, principal, MonthlyRate(annualRate), payment) && RunsWhileOwed(rows, principal, MaxMonths)
    ensures |rows| > |w|
  {
    if |rows| <= |w| {
      DecliningRowsAgree(w, rows, principal, MonthlyRate(annualRate), payment, |rows|);
      BalanceAgree(w, rows, principal, |rows|);
      assert false;
    }
  }

  /** Past that point, the next row's interest is at least the payment. */
  lemma TooLowUncovered(w: seq<LoanPayment>, rows: seq<LoanPayment>, principal: real, annualRate: real, payment: real)
    requires PaymentTooLowAfter(w, principal, annualRate, payment)
    requires DecliningRows(rows, principal, MonthlyRate(annualRate), payment) && |rows| > |w|
    ensures payment <= rows[|w|].interest
  {
    var rate := MonthlyRate(annualRate);
    DecliningRowsAgree(w, rows, principal, rate, payment, |w|);
    BalanceAgree(w, rows, principal, |w|);
    DecliningRowIsStep(rows, principal, rate, payment, |w|);
  }

  /** Each row's totalInterest is the sum of the interest column up to and including it. */
  lemma {:induction false} RunningInterest(rows: seq<LoanPayment>, principal: real, rate: real, payment: real)
    requires DecliningRows(rows, principal, rate, payment)
    ensures InterestBefore(rows, |rows|) == SumInterest(rows)
    decreases |rows|
  {
    if |rows| > 0 {
      var shorter := rows[..|rows| - 1];
      RunningInterest(shorter, principal, rate, payment);
      BalanceAgree(rows, shorter, principal, |rows| - 1);
    }
  }

  /** The principal column adds up to what was repaid: principal minus the balance left. */
  lemma {:induction false} PrincipalRepaid(rows: seq<LoanPayment>, principal: real, rate: real, payment: real)
    requires DecliningRows(rows, principal, rate, payment)
    ensures SumPrincipal(rows) == principal - BalanceBefore(rows, principal, |rows|)
    decreases |rows|
  {
    if |rows| > 0 {
      var shorter := rows[..|rows| - 1];
      PrincipalRepaid(shorter, principal, rate, payment);
      BalanceAgree(rows, shorter, principal, |rows| - 1);
    }
  }
}
