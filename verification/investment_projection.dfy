/**
 * The recurring-investment projector of src/lib/calculations.ts
 * (calculateRecurringInvestmentByPeriod and its monthly twin
 * calculateRecurringInvestment).
 *
 * Each period first earns interest on the running value at the periodic
 * rate (annual % / 100 / periods per year), then receives that period's
 * contribution. The projection is specified by the recursive functions
 * ValueAfter, InterestAfter and ContributionsAfter; the method is proved to
 * produce exactly `Projection`. For a flat plan (the same amount every
 * period) the value is FlatValue, which has a closed form and grows with
 * the number of periods and with the rate.
 */
module InvestmentProjection {
  import opened Wrappers
  import opened Numeric

  /** One entry of an explicit contribution schedule. */
  datatype Contribution = Contribution(period: int, amount: real)

  /** An explicit schedule, or `{ periodicAmount, periods }`. */
  datatype Contributions =
    | Schedule(entries: seq<Contribution>)
    | Flat(periodicAmount: real, periods: nat)

  datatype InvestmentRow = InvestmentRow(
    month: nat,
    contribution: real,
    interest: real,
    totalContributions: real,
    totalInterest: real,
    totalValue: real)

  /**
   * The projection, plus the two fields the solve dispatcher fills in:
   * the label of the solved field and the solved value.
   */
  datatype InvestmentResult = InvestmentResult(
    monthlyResults: seq<InvestmentRow>,
    finalValue: real,
    totalContributions: real,
    totalInterest: real,
    solvedFor: Option<string>,
    solvedValue: Option<Extended>)

  /** annual % / 100 / periods per year. */
  function PeriodicRate(annualRate: real, periodsPerYear: real): real
    requires periodsPerYear > 0.0
  {
    annualRate / 100.0 / periodsPerYear
  }

  lemma PeriodicRateMonotone(low: real, high: real, periodsPerYear: real)
    requires periodsPerYear > 0.0 && low <= high
    ensures PeriodicRate(low, periodsPerYear) <= PeriodicRate(high, periodsPerYear)
  {
    assert (high - low) / 100.0 / periodsPerYear >= 0.0;
  }

  /** A flat plan as the schedule the source builds: amount a in periods 1..n. */
  function Expand(contributions: Contributions): seq<Contribution>
  {
    match contributions
    case Schedule(entries) => entries
    case Flat(amount, n) => seq(n, i => Contribution(i + 1, amount))
  }

  /**
   * `find(c => c.period === period)?.amount || 0`: the amount of the first
   * entry for the period, 0 when there is none.
   */
  function ContributionAt(schedule: seq<Contribution>, period: int): real
  {
    if |schedule| == 0 then 0.0
    else if schedule[0].period == period then schedule[0].amount
    else ContributionAt(schedule[1..], period)
  }

  /** Unlisted periods contribute 0; of several entries for a period, the first counts. */
  lemma {:induction false} FirstEntryCounts(schedule: seq<Contribution>, period: int)
    ensures (forall i :: 0 <= i < |schedule| ==> schedule[i].period != period) ==>
      ContributionAt(schedule, period) == 0.0
    ensures forall i :: (0 <= i < |schedule| && schedule[i].period == period &&
      (forall j :: 0 <= j < i ==> schedule[j].period != period)) ==>
        ContributionAt(schedule, period) == schedule[i].amount
    decreases |schedule|
  {
    if |schedule| > 0 && schedule[0].period != period {
      FirstEntryCounts(schedule[1..], period);
      assert forall i :: 1 <= i < |schedule| ==> schedule[1..][i - 1] == schedule[i];
    }
  }

  /** Math.max over the periods of a non-empty schedule. */
  function LastPeriod(schedule: seq<Contribution>): (last: int)
    requires |schedule| > 0
    ensures forall i :: 0 <= i < |schedule| ==> schedule[i].period <= last
    ensures exists i :: 0 <= i < |schedule| && schedule[i].period == last
  {
    if |schedule| == 1 then schedule[0].period
    else
      var rest := LastPeriod(schedule[1..]);
      assert forall i :: 1 <= i < |schedule| ==> schedule[1..][i - 1] == schedule[i];
      if schedule[0].period >= rest then schedule[0].period else rest
  }

  /**
   * How many periods the loop `for period = 1 .. maxPeriod` runs: the
   * largest period, or 0 when it is below 1 or the schedule is empty
   * (Math.max of nothing is −Infinity).
   */
  function RowCount(schedule: seq<Contribution>): (n: nat)
    ensures forall i :: 0 <= i < |schedule| ==> schedule[i].period <= n
    ensures n == 0 || exists i :: 0 <= i < |schedule| && schedule[i].period == n
  {
    if |schedule| == 0 then 0
    else
      var last := LastPeriod(schedule);
      if last < 1 then 0 else last
  }

  /** totalValue after k periods. */
  function ValueAfter(schedule: seq<Contribution>, rate: real, initial: real, k: nat): real
  {
    if k == 0 then initial
    else
      var before := ValueAfter(schedule, rate, initial, k - 1);
      before + before * rate + ContributionAt(schedule, k)
  }

  /** totalInterest after k periods. */
  function InterestAfter(schedule: seq<Contribution>, rate: real, initial: real, k: nat): real
  {
    if k == 0 then 0.0
    else InterestAfter(schedule, rate, initial, k - 1) + ValueAfter(schedule, rate, initial, k - 1) * rate
  }

  /** totalContributions after k periods; it starts at the initial amount. */
  function ContributionsAfter(schedule: seq<Contribution>, initial: real, k: nat): real
  {
    if k == 0 then initial
    else ContributionsAfter(schedule, initial, k - 1) + ContributionAt(schedule, k)
  }

  /** The row of period k (k >= 1). */
  function PeriodRow(schedule: seq<Contribution>, rate: real, initial: real, k: nat): InvestmentRow
    requires k >= 1
  {
    InvestmentRow(k, ContributionAt(schedule, k), ValueAfter(schedule, rate, initial, k - 1) * rate,
                  ContributionsAfter(schedule, initial, k), InterestAfter(schedule, rate, initial, k),
                  ValueAfter(schedule, rate, initial, k))
  }

  /** What calculateRecurringInvestmentByPeriod returns. */
  function Projection(contributions: Contributions, annualRate: real, initial: real, periodsPerYear: real): InvestmentResult
    requires periodsPerYear > 0.0
  {
    var schedule := Expand(contributions);
    var rate := PeriodicRate(annualRate, periodsPerYear);
    var n := RowCount(schedule);
    InvestmentResult(seq(n, i requires 0 <= i => PeriodRow(schedule, rate, initial, i + 1)),
                     ValueAfter(schedule, rate, initial, n),
                     ContributionsAfter(schedule, initial, n),
                     InterestAfter(schedule, rate, initial, n),
                     None, None)
  }

  /** calculateRecurringInvestmentByPeriod. */
  method ProjectInvestmentByPeriod(contributions: Contributions, annualInterestRate: real, initialAmount: real, periodsPerYear: real)
    returns (res: InvestmentResult)
    requires periodsPerYear > 0.0
    ensures res == Projection(contributions, annualInterestRate, initialAmount, periodsPerYear)
  {
    var periodicRate := annualInterestRate / 100.0 / periodsPerYear;
    var periodicResults: seq<InvestmentRow> := [];
    var totalValue := initialAmount;
    var totalContributions := initialAmount;
    var totalInterest := 0.0;
    var schedule := Expand(contributions);
    var maxPeriod := RowCount(schedule);
    var period := 1;
    while period <= maxPeriod
      invariant 1 <= period <= maxPeriod + 1
      invariant |periodicResults| == period - 1
      invariant forall k :: 0 <= k < |periodicResults| ==>
        periodicResults[k] == PeriodRow(schedule, periodicRate, initialAmount, k + 1)
      invariant totalValue == ValueAfter(schedule, periodicRate, initialAmount, period - 1)
      invariant totalContributions == ContributionsAfter(schedule, initialAmount, period - 1)
      invariant totalInterest == InterestAfter(schedule, periodicRate, initialAmount, period - 1)
    {
      PeriodStep(schedule, periodicRate, initialAmount, period - 1);
      var interest := totalValue * periodicRate;
      totalValue := totalValue + interest;
      totalInterest := totalInterest + interest;
      var contribution := ContributionAt(schedule, period);
      totalValue := totalValue + contribution;
      totalContributions := totalContributions + contribution;
      var row := InvestmentRow(period, contribution, interest, totalContributions, totalInterest, totalValue);
      assert row == PeriodRow(schedule, periodicRate, initialAmount, period);
      periodicResults := periodicResults + [row];
      period := period + 1;
    }
    res := InvestmentResult(periodicResults, totalValue, totalContributions, totalInterest, None, None);
    assert periodicResults == seq(maxPeriod, i requires 0 <= i => PeriodRow(schedule, periodicRate, initialAmount, i + 1));
  }

  /** calculateRecurringInvestment: the same projection, compounding monthly. */
  method ProjectInvestment(contributions: Contributions, annualInterestRate: real, initialAmount: real)
    returns (res: InvestmentResult)
    ensures res == Projection(contributions, annualInterestRate, initialAmount, 12.0)
  {
    res := ProjectInvestmentByPeriod(contributions, annualInterestRate, initialAmount, 12.0);
  }

  // ---------------------------------------------------------------------
  // Properties of the projection
  // ---------------------------------------------------------------------

  /** With no periods there are no rows and the initial amount is the final value. */
  lemma NoPeriods(contributions: Contributions, annualRate: real, initial: real, periodsPerYear: real)
    requires periodsPerYear > 0.0
    requires RowCount(Expand(contributions)) == 0
    ensures var res := Projection(contributions, annualRate, initial, periodsPerYear);
      && |res.monthlyResults| == 0
      && res.finalValue == initial
      && res.totalContributions == initial
      && res.totalInterest == 0.0
  {
  }

  /**
   * Row by row: row k is period k + 1, its interest is the previous value
   * (the initial amount for the first row) times the rate, and its value is
   * the previous value plus that interest plus the contribution.
   */
  lemma ProjectionRows(contributions: Contributions, annualRate: real, initial: real, periodsPerYear: real, k: nat)
    requires periodsPerYear > 0.0
    requires k < |Projection(contributions, annualRate, initial, periodsPerYear).monthlyResults|
    ensures var res := Projection(contributions, annualRate, initial, periodsPerYear);
      var rate := PeriodicRate(annualRate, periodsPerYear);
      var row := res.monthlyResults[k];
      var before := if k == 0 then initial else res.monthlyResults[k - 1].totalValue;
      var contributedBefore := if k == 0 then initial else res.monthlyResults[k - 1].totalContributions;
      && row.month == k + 1
      && row.contribution == ContributionAt(Expand(contributions), k + 1)
      && row.interest == before * rate
      && row.totalValue == before + row.interest + row.contribution
      && row.totalContributions == contributedBefore + row.contribution
  {
    var schedule := Expand(contributions);
    var rate := PeriodicRate(annualRate, periodsPerYear);
    var rows := Projection(contributions, annualRate, initial, periodsPerYear).monthlyResults;
    assert rows[k] == PeriodRow(schedule, rate, initial, k + 1);
    if k > 0 {
      assert rows[k - 1] == PeriodRow(schedule, rate, initial, k);
    }
    PeriodStep(schedule, rate, initial, k);
  }

  lemma PeriodStep(schedule: seq<Contribution>, rate: real, initial: real, k: nat)
    ensures var before := ValueAfter(schedule, rate, initial, k);
      && ValueAfter(schedule, rate, initial, k + 1) == before + before * rate + ContributionAt(schedule, k + 1)
      && ContributionsAfter(schedule, initial, k + 1) == ContributionsAfter(schedule, initial, k) + ContributionAt(schedule, k + 1)
      && InterestAfter(schedule, rate, initial, k + 1) == InterestAfter(schedule, rate, initial, k) + before * rate
  {
  }

  /** Every unit of value is either contributed or earned as interest. */
  lemma {:induction false} ValueConserved(schedule: seq<Contribution>, rate: real, initial: real, k: nat)
    ensures ValueAfter(schedule, rate, initial, k) ==
      ContributionsAfter(schedule, initial, k) + InterestAfter(schedule, rate, initial, k)
    decreases k
  {
    if k > 0 {
      ValueConserved(schedule, rate, initial, k - 1);
    }
  }

  lemma ProjectionConserved(contributions: Contributions, annualRate: real, initial: real, periodsPerYear: real)
    requires periodsPerYear > 0.0
    ensures var res := Projection(contributions, annualRate, initial, periodsPerYear);
      res.finalValue == res.totalContributions + res.totalInterest
  {
    var schedule := Expand(contributions);
    ValueConserved(schedule, PeriodicRate(annualRate, periodsPerYear), initial, RowCount(schedule));
  }

  // ---------------------------------------------------------------------
  // Flat plans
  // ---------------------------------------------------------------------

  /** A flat plan contributes its amount in periods 1..n and nothing else. */
  lemma FlatContribution(amount: real, n: nat, k: int)
    ensures ContributionAt(Expand(Flat(amount, n)), k) == (if 1 <= k <= n then amount else 0.0)
  {
    var schedule := Expand(Flat(amount, n));
    FirstEntryCounts(schedule, k);
    if 1 <= k <= n {
      assert schedule[k - 1].period == k;
      assert forall j :: 0 <= j < k - 1 ==> schedule[j].period != k;
    }
  }

  /** A flat plan over n periods runs exactly n periods. */
  lemma FlatRowCount(amount: real, n: nat)
    ensures RowCount(Expand(Flat(amount, n))) == n
  {
    var schedule := Expand(Flat(amount, n));
    var m := RowCount(schedule);
    if n > 0 {
      assert schedule[n - 1].period == n;
    }
    if m > 0 {
      var i :| 0 <= i < |schedule| && schedule[i].period == m;
    }
  }

  /** The value of a flat plan after k periods. */
  function FlatValue(initial: real, amount: real, rate: real, k: nat): real
  {
    if k == 0 then initial
    else
      var before := FlatValue(initial, amount, rate, k - 1);
      before + before * rate + amount
  }

  lemma {:induction false} FlatValueAgrees(initial: real, amount: real, rate: real, n: nat, k: nat)
    requires k <= n
    ensures ValueAfter(Expand(Flat(amount, n)), rate, initial, k) == FlatValue(initial, amount, rate, k)
    decreases k
  {
    if k > 0 {
      FlatValueAgrees(initial, amount, rate, n, k - 1);
      FlatContribution(amount, n, k);
    }
  }

  /** The projector's final value on a flat plan is FlatValue over its periods. */
  lemma FlatFinalValue(amount: real, n: nat, annualRate: real, initial: real, periodsPerYear: real)
    requires periodsPerYear > 0.0
    ensures var res := Projection(Flat(amount, n), annualRate, initial, periodsPerYear);
      && |res.monthlyResults| == n
      && res.finalValue == FlatValue(initial, amount, PeriodicRate(annualRate, periodsPerYear), n)
  {
    FlatRowCount(amount, n);
    FlatValueAgrees(initial, amount, PeriodicRate(annualRate, periodsPerYear), n, n);
  }

  /** At rate 0 a flat plan is the initial amount plus k contributions. */
  lemma {:induction false} FlatValueAtZeroRate(initial: real, amount: real, k: nat)
    ensures FlatValue(initial, amount, 0.0, k) == initial + (k as real) * amount
    decreases k
  {
    if k > 0 {
      FlatValueAtZeroRate(initial, amount, k - 1);
      assert (k as real) * amount == ((k - 1) as real) * amount + amount;
    }
  }

  /** The algebra of one period of the closed form. */
  lemma FlatStep(initial: real, amount: real, rate: real, v: real, g: real)
    requires v * rate == initial * g * rate + amount * (g - 1.0)
    ensures (v + v * rate + amount) * rate ==
      initial * ((1.0 + rate) * g) * rate + amount * ((1.0 + rate) * g - 1.0)
  {
    assert (v + v * rate + amount) * rate == (v * rate) * (1.0 + rate) + amount * rate;
  }

  /**
   * The closed form of a flat plan, multiplied through by the rate so that
   * it also holds at rate 0: V_k · r = P · q^k · r + a · (q^k − 1), q = 1 + r.
   */
  lemma {:induction false} FlatClosedForm(initial: real, amount: real, rate: real, k: nat)
    ensures FlatValue(initial, amount, rate, k) * rate ==
      initial * Pow(1.0 + rate, k) * rate + amount * (Pow(1.0 + rate, k) - 1.0)
    decreases k
  {
    if k > 0 {
      FlatClosedForm(initial, amount, rate, k - 1);
      FlatStep(initial, amount, rate, FlatValue(initial, amount, rate, k - 1), Pow(1.0 + rate, k - 1));
    }
  }

  lemma {:induction false} FlatValueNonNegative(initial: real, amount: real, rate: real, k: nat)
    requires initial >= 0.0 && amount >= 0.0 && rate >= 0.0
    ensures FlatValue(initial, amount, rate, k) >= 0.0
    decreases k
  {
    if k > 0 {
      FlatValueNonNegative(initial, amount, rate, k - 1);
    }
  }

  /** With nothing negative, more periods never give less. */
  lemma {:induction false} FlatValueGrowsWithPeriods(initial: real, amount: real, rate: real, k: nat, m: nat)
    requires initial >= 0.0 && amount >= 0.0 && rate >= 0.0
    requires k <= m
    ensures FlatValue(initial, amount, rate, k) <= FlatValue(initial, amount, rate, m)
    decreases m - k
  {
    if k < m {
      FlatValueGrowsWithPeriods(initial, amount, rate, k, m - 1);
      FlatValueNonNegative(initial, amount, rate, m - 1);
    }
  }

  /** One period at two rates: the larger value at the larger rate stays larger. */
  lemma RateStep(v: real, w: real, low: real, high: real, amount: real)
    requires 0.0 <= v <= w && 0.0 <= low <= high
    ensures v + v * low + amount <= w + w * high + amount
  {
    assert v * low <= v * high;
    assert v * high <= w * high;
  }

  /** With nothing negative, a higher rate never gives less. */
  lemma {:induction false} FlatValueGrowsWithRate(initial: real, amount: real, low: real, high: real, k: nat)
    requires initial >= 0.0 && amount >= 0.0 && 0.0 <= low <= high
    ensures FlatValue(initial, amount, low, k) <= FlatValue(initial, amount, high, k)
    decreases k
  {
    if k > 0 {
      FlatValueGrowsWithRate(initial, amount, low, high, k - 1);
      FlatValueNonNegative(initial, amount, low, k - 1);
      RateStep(FlatValue(initial, amount, low, k - 1), FlatValue(initial, amount, high, k - 1), low, high, amount);
    }
  }
}
