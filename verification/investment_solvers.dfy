/**
 * The investment solvers of src/lib/calculations.ts: given four of
 * initial amount, periodic amount, number of periods, annual rate and
 * final value, find the fifth. Initial and periodic amounts have closed
 * forms, the number of periods and the rate are found by bisection over
 * the projector, and the final value is the projector's own.
 *
 * The round-trip lemmas show that a closed-form answer, fed back into a
 * flat plan, reaches the target exactly; the bisection results are tied to
 * the projector by bracket invariants, and monotonicity turns the period
 * bracket into "the least number of periods that reaches the target".
 */
module InvestmentSolvers {
  import opened Numeric
  import opened InvestmentProjection

  /** solveForPeriods bisects over [0, 600] periods. */
  const MaxPeriods: nat := 600
  const PeriodTolerance: real := 0.01

  /** solveForInterestRate bisects over annual rates in [0, 50] %. */
  const MaxAnnualRate: real := 50.0
  const RateTolerance: real := 0.0001

  // ---------------------------------------------------------------------
  // Algebra over plain variables
  // ---------------------------------------------------------------------

  lemma CancelRate(x: real, y: real, rate: real)
    requires rate != 0.0 && x * rate == y * rate
    ensures x == y
  {
    assert (x - y) * rate == 0.0;
  }

  /** A flat plan's value from its closed form, when the rate is not 0. */
  lemma ClosedFormValue(v: real, initial: real, amount: real, rate: real, growth: real)
    requires rate != 0.0
    requires v * rate == initial * growth * rate + amount * (growth - 1.0)
    ensures v == initial * growth + amount * ((growth - 1.0) / rate)
  {
    assert amount * ((growth - 1.0) / rate) * rate == amount * (growth - 1.0);
    CancelRate(v, initial * growth + amount * ((growth - 1.0) / rate), rate);
  }

  /** A flat plan's value in closed form, when the rate is not 0. */
  lemma FlatValueClosed(initial: real, amount: real, rate: real, k: nat)
    requires rate != 0.0
    ensures FlatValue(initial, amount, rate, k) ==
      initial * Pow(1.0 + rate, k) + amount * ((Pow(1.0 + rate, k) - 1.0) / rate)
  {
    FlatClosedForm(initial, amount, rate, k);
    ClosedFormValue(FlatValue(initial, amount, rate, k), initial, amount, rate, Pow(1.0 + rate, k));
  }

  /** A flat plan's value `v` against its closed form, with `growth` standing for (1 + rate)^k. */
  predicate ClosedForm(v: real, initial: real, amount: real, rate: real, growth: real)
    requires rate != 0.0
  {
    v == initial * growth + amount * ((growth - 1.0) / rate)
  }

  lemma FlatValueClosedForm(initial: real, amount: real, rate: real, k: nat)
    requires rate != 0.0
    ensures ClosedForm(FlatValue(initial, amount, rate, k), initial, amount, rate, Pow(1.0 + rate, k))
  {
    FlatValueClosed(initial, amount, rate, k);
  }

  lemma Recover(v: real, x: real, fv: real, g: real, target: real)
    requires g > 0.0 && x == (target - fv) / g && v == x * g + fv
    ensures v == target
  {
  }

  lemma QuotientSign(x: real, g: real)
    requires g > 0.0
    ensures x / g <= 0.0 <==> x <= 0.0
  {
    if x > 0.0 {
      assert x / g > 0.0;
    }
  }

  lemma Unscale(v: real, x: real, fv: real, g: real)
    requires g > 0.0 && v == x * g + fv
    ensures (v - fv) / g == x
  {
  }

  /** The level contribution x = required / ((g − 1) / r) makes up `required` exactly. */
  lemma LevelRecover(v: real, initial: real, g: real, x: real, required: real, rate: real, target: real)
    requires rate > 0.0 && g > 1.0
    requires required == target - initial * g
    requires x == required / ((g - 1.0) / rate)
    requires v == initial * g + x * ((g - 1.0) / rate)
    ensures v == target
  {
    var level := (g - 1.0) / rate;
    assert level > 0.0;
    assert x * level == required;
  }

  /** k = Ceil((target − initial) / amount) periods of `amount` reach the target, k − 1 do not. */
  lemma CeilReaches(initial: real, amount: real, target: real, k: int)
    requires amount > 0.0
    requires k as real >= (target - initial) / amount && (k - 1) as real < (target - initial) / amount
    ensures initial + (k as real) * amount >= target
    ensures initial + ((k - 1) as real) * amount < target
  {
    var x := (target - initial) / amount;
    assert x * amount == target - initial;
    assert (k as real) * amount >= x * amount;
    assert ((k - 1) as real) * amount < x * amount;
  }

  // ---------------------------------------------------------------------
  // Closed forms
  // ---------------------------------------------------------------------

  /** solveForInitialAmountByPeriod. */
  function SolveForInitialAmountByPeriod(periodicAmount: real, periods: nat, annualInterestRate: real,
                                         targetFinalValue: real, periodsPerYear: real): (initial: real)
    requires periodsPerYear > 0.0 && annualInterestRate >= 0.0
    ensures annualInterestRate > 0.0 ==> initial >= 0.0
  {
    var rate := PeriodicRate(annualInterestRate, periodsPerYear);
    if rate == 0.0 then targetFinalValue - periodicAmount * (periods as real)
    else
      PowAtLeastOne(1.0 + rate, periods);
      ClampedInitialAmount(periodicAmount, rate, Pow(1.0 + rate, periods), targetFinalValue)
  }

  /**
   * The initial amount that, grown by `growth` and added to the
   * contributions' future value, gives the target; 0 when the
   * contributions alone reach it.
   */
  function ClampedInitialAmount(amount: real, rate: real, growth: real, target: real): (initial: real)
    requires rate != 0.0 && growth >= 1.0
    ensures initial >= 0.0
  {
    var fvAnnuity := amount * ((growth - 1.0) / rate);
    Max(0.0, (target - fvAnnuity) / growth)
  }

  /** solveForInitialAmount: the same closed form at 12 periods a year. */
  function SolveForInitialAmount(monthlyAmount: real, months: nat, annualInterestRate: real, targetFinalValue: real): (initial: real)
    requires annualInterestRate >= 0.0
    ensures initial == SolveForInitialAmountByPeriod(monthlyAmount, months, annualInterestRate, targetFinalValue, 12.0)
  {
    var monthlyRate := annualInterestRate / 100.0 / 12.0;
    if monthlyRate == 0.0 then targetFinalValue - monthlyAmount * (months as real)
    else
      PowAtLeastOne(1.0 + monthlyRate, months);
      ClampedInitialAmount(monthlyAmount, monthlyRate, Pow(1.0 + monthlyRate, months), targetFinalValue)
  }

  /**
   * The initial amount reaches the target: exactly, unless it was clamped
   * to 0, in which case the contributions alone already reach it. At rate 0
   * the answer is never clamped (it can be negative) and is always exact.
   */
  lemma InitialAmountReachesTarget(periodicAmount: real, periods: nat, annualInterestRate: real,
                                   targetFinalValue: real, periodsPerYear: real)
    requires periodsPerYear > 0.0 && annualInterestRate >= 0.0
    ensures var initial := SolveForInitialAmountByPeriod(periodicAmount, periods, annualInterestRate, targetFinalValue, periodsPerYear);
      var rate := PeriodicRate(annualInterestRate, periodsPerYear);
      && (rate == 0.0 || initial > 0.0 ==> FlatValue(initial, periodicAmount, rate, periods) == targetFinalValue)
      && (initial == 0.0 ==> FlatValue(0.0, periodicAmount, rate, periods) >= targetFinalValue)
  {
    var rate := PeriodicRate(annualInterestRate, periodsPerYear);
    if rate == 0.0 {
      ZeroRateInitialReaches(periodicAmount, periods, targetFinalValue);
    } else {
      PeriodicRateMonotone(0.0, annualInterestRate, periodsPerYear);
      assert PeriodicRate(0.0, periodsPerYear) == 0.0;
      GrowthInitialReaches(periodicAmount, periods, rate, targetFinalValue);
    }
  }

  /** At rate 0 the unclamped answer target − amount × periods is exact. */
  lemma ZeroRateInitialReaches(amount: real, periods: nat, target: real)
    ensures var initial := target - amount * (periods as real);
      && FlatValue(initial, amount, 0.0, periods) == target
      && (initial == 0.0 ==> FlatValue(0.0, amount, 0.0, periods) >= target)
  {
    var initial := target - amount * (periods as real);
    FlatValueAtZeroRate(initial, amount, periods);
    FlatValueAtZeroRate(0.0, amount, periods);
  }

  /** At a positive rate the clamped answer is exact, or 0 with the contributions alone reaching the target. */
  lemma GrowthInitialReaches(amount: real, periods: nat, rate: real, target: real)
    requires rate > 0.0
    ensures Pow(1.0 + rate, periods) >= 1.0
    ensures var initial := ClampedInitialAmount(amount, rate, Pow(1.0 + rate, periods), target);
      && (initial > 0.0 ==> FlatValue(initial, amount, rate, periods) == target)
      && (initial == 0.0 ==> FlatValue(0.0, amount, rate, periods) >= target)
  {
    PowAtLeastOne(1.0 + rate, periods);
    var growth := Pow(1.0 + rate, periods);
    var initial := ClampedInitialAmount(amount, rate, growth, target);
    FlatValueClosedForm(initial, amount, rate, periods);
    FlatValueClosedForm(0.0, amount, rate, periods);
    ClampedInitial(FlatValue(0.0, amount, rate, periods), FlatValue(initial, amount, rate, periods),
                   amount, rate, growth, target);
  }

  /** The algebra of the clamp: a positive answer is exact, a zero one means the rest already reaches the target. */
  lemma ClampedInitial(v0: real, v: real, amount: real, rate: real, growth: real, target: real)
    requires rate != 0.0 && growth >= 1.0
    requires ClosedForm(v, ClampedInitialAmount(amount, rate, growth, target), amount, rate, growth)
    requires ClosedForm(v0, 0.0, amount, rate, growth)
    ensures ClampedInitialAmount(amount, rate, growth, target) > 0.0 ==> v == target
    ensures ClampedInitialAmount(amount, rate, growth, target) == 0.0 ==> v0 >= target
  {
    var fv := amount * ((growth - 1.0) / rate);
    var initial := ClampedInitialAmount(amount, rate, growth, target);
    QuotientSign(target - fv, growth);
    if initial > 0.0 {
      Recover(v, initial, fv, growth, target);
    }
  }

  /** Solving for the initial amount undoes the projection of a non-negative one. */
  lemma InitialAmountInverse(initial: real, periodicAmount: real, periods: nat, annualInterestRate: real, periodsPerYear: real)
    requires periodsPerYear > 0.0 && annualInterestRate >= 0.0 && initial >= 0.0
    ensures var target := FlatValue(initial, periodicAmount, PeriodicRate(annualInterestRate, periodsPerYear), periods);
      SolveForInitialAmountByPeriod(periodicAmount, periods, annualInterestRate, target, periodsPerYear) == initial
  {
    var rate := PeriodicRate(annualInterestRate, periodsPerYear);
    if rate == 0.0 {
      FlatValueAtZeroRate(initial, periodicAmount, periods);
    } else {
      PeriodicRateMonotone(0.0, annualInterestRate, periodsPerYear);
      assert PeriodicRate(0.0, periodsPerYear) == 0.0;
      PowAtLeastOne(1.0 + rate, periods);
      FlatValueClosedForm(initial, periodicAmount, rate, periods);
      ClampUndoes(FlatValue(initial, periodicAmount, rate, periods), initial, periodicAmount, rate,
                  Pow(1.0 + rate, periods));
    }
  }

  /** The clamp gives back a non-negative initial amount from the value it grows to. */
  lemma ClampUndoes(v: real, initial: real, amount: real, rate: real, growth: real)
    requires rate != 0.0 && growth >= 1.0 && initial >= 0.0
    requires ClosedForm(v, initial, amount, rate, growth)
    ensures ClampedInitialAmount(amount, rate, growth, v) == initial
  {
    Unscale(v, initial, amount * ((growth - 1.0) / rate), growth);
  }

  /** solveForPeriodicAmount; with zero periods JavaScript divides by zero. */
  function SolveForPeriodicAmount(initialAmount: real, periods: nat, annualInterestRate: real,
                                  targetFinalValue: real, periodsPerYear: real): (amount: Extended)
    requires periodsPerYear > 0.0 && annualInterestRate >= 0.0
    ensures amount.Finite? ==> amount.value >= 0.0
    ensures periods >= 1 ==> amount.Finite?
    ensures ((periods >= 1 || annualInterestRate > 0.0) &&
             initialAmount * Pow(1.0 + PeriodicRate(annualInterestRate, periodsPerYear), periods) >= targetFinalValue)
            ==> amount == Finite(0.0)
    ensures periods == 0 ==>
      amount == (if targetFinalValue < initialAmount then Finite(0.0)
                 else if targetFinalValue > initialAmount then Infinite
                 else if annualInterestRate == 0.0 then NotANumber
                 else Finite(0.0))
  {
    var rate := PeriodicRate(annualInterestRate, periodsPerYear);
    if rate == 0.0 then
      PowOfOne(periods);
      if periods == 0 then
        // Math.max(0, (target − initial) / 0)
        if targetFinalValue > initialAmount then Infinite
        else if targetFinalValue < initialAmount then Finite(0.0)
        else NotANumber
      else Finite(Max(0.0, (targetFinalValue - initialAmount) / (periods as real)))
    else
      PowGrowthZero(rate, periods);
      PowAtLeastOne(1.0 + rate, periods);
      LevelAmount(initialAmount, rate, Pow(1.0 + rate, periods), targetFinalValue)
  }

  /**
   * The contribution whose future value, added to the initial amount
   * grown by `growth`, gives the target; 0 when the initial amount alone
   * reaches it.
   */
  function LevelAmount(initialAmount: real, rate: real, growth: real, targetFinalValue: real): (amount: Extended)
    requires rate != 0.0 && growth >= 1.0
    ensures amount.Finite? ==> amount.value >= 0.0
    ensures growth > 1.0 ==> amount.Finite?
  {
    var requiredFvAnnuity := targetFinalValue - initialAmount * growth;
    if requiredFvAnnuity <= 0.0 then Finite(0.0)
    // a positive amount divided by (1 − 1) / rate = 0
    else if growth == 1.0 then Infinite
    else Finite(Max(0.0, requiredFvAnnuity / ((growth - 1.0) / rate)))
  }

  /** solveForMonthlyAmount: the same solver at 12 periods a year. */
  function SolveForMonthlyAmount(initialAmount: real, months: nat, annualInterestRate: real, targetFinalValue: real): (amount: Extended)
    requires annualInterestRate >= 0.0
    ensures amount == SolveForPeriodicAmount(initialAmount, months, annualInterestRate, targetFinalValue, 12.0)
  {
    var monthlyRate := annualInterestRate / 100.0 / 12.0;
    if monthlyRate == 0.0 then
      if months == 0 then
        if targetFinalValue > initialAmount then Infinite
        else if targetFinalValue < initialAmount then Finite(0.0)
        else NotANumber
      else Finite(Max(0.0, (targetFinalValue - initialAmount) / (months as real)))
    else
      PowAtLeastOne(1.0 + monthlyRate, months);
      LevelAmount(initialAmount, monthlyRate, Pow(1.0 + monthlyRate, months), targetFinalValue)
  }

  /**
   * Over at least one period the periodic amount reaches the target:
   * exactly, unless it is 0, in which case the initial amount alone does.
   */
  lemma PeriodicAmountReachesTarget(initialAmount: real, periods: nat, annualInterestRate: real,
                                    targetFinalValue: real, periodsPerYear: real)
    requires periodsPerYear > 0.0 && annualInterestRate >= 0.0 && periods >= 1
    ensures var amount := SolveForPeriodicAmount(initialAmount, periods, annualInterestRate, targetFinalValue, periodsPerYear);
      var rate := PeriodicRate(annualInterestRate, periodsPerYear);
      && amount.Finite?
      && (amount.value > 0.0 ==> FlatValue(initialAmount, amount.value, rate, periods) == targetFinalValue)
      && (amount.value == 0.0 ==> FlatValue(initialAmount, 0.0, rate, periods) >= targetFinalValue)
  {
    var rate := PeriodicRate(annualInterestRate, periodsPerYear);
    if rate == 0.0 {
      ZeroRateAmountReaches(initialAmount, periods, targetFinalValue);
    } else {
      PeriodicRateMonotone(0.0, annualInterestRate, periodsPerYear);
      assert PeriodicRate(0.0, periodsPerYear) == 0.0;
      GrowthAmountReaches(initialAmount, periods, rate, targetFinalValue);
    }
  }

  /** At rate 0 the amount max(0, (target − initial) / periods) is exact, or 0 with the initial amount reaching the target. */
  lemma ZeroRateAmountReaches(initialAmount: real, periods: nat, targetFinalValue: real)
    requires periods >= 1
    ensures var x := Max(0.0, (targetFinalValue - initialAmount) / (periods as real));
      && (x > 0.0 ==> FlatValue(initialAmount, x, 0.0, periods) == targetFinalValue)
      && (x == 0.0 ==> FlatValue(initialAmount, 0.0, 0.0, periods) >= targetFinalValue)
  {
    var x := Max(0.0, (targetFinalValue - initialAmount) / (periods as real));
    FlatValueAtZeroRate(initialAmount, x, periods);
    FlatValueAtZeroRate(initialAmount, 0.0, periods);
    if x > 0.0 {
      assert x == (targetFinalValue - initialAmount) / (periods as real);
      assert (periods as real) * x == targetFinalValue - initialAmount;
    }
  }

  /** At a positive rate the level amount is exact, or 0 with the initial amount reaching the target. */
  lemma GrowthAmountReaches(initialAmount: real, periods: nat, rate: real, targetFinalValue: real)
    requires rate > 0.0 && periods >= 1
    ensures Pow(1.0 + rate, periods) > 1.0
    ensures var amount := LevelAmount(initialAmount, rate, Pow(1.0 + rate, periods), targetFinalValue);
      && amount.Finite?
      && (amount.value > 0.0 ==> FlatValue(initialAmount, amount.value, rate, periods) == targetFinalValue)
      && (amount.value == 0.0 ==> FlatValue(initialAmount, 0.0, rate, periods) >= targetFinalValue)
  {
    PowAboveOne(1.0 + rate, periods);
    var growth := Pow(1.0 + rate, periods);
    var amount := LevelAmount(initialAmount, rate, growth, targetFinalValue);
    FlatValueClosedForm(initialAmount, amount.value, rate, periods);
    FlatValueClosedForm(initialAmount, 0.0, rate, periods);
    LevelAmountReaches(FlatValue(initialAmount, 0.0, rate, periods), FlatValue(initialAmount, amount.value, rate, periods),
                       initialAmount, rate, growth, targetFinalValue);
  }

  /** The algebra of the level amount. */
  lemma LevelAmountReaches(v0: real, v: real, initialAmount: real, rate: real, growth: real, targetFinalValue: real)
    requires rate > 0.0 && growth > 1.0
    requires ClosedForm(v, initialAmount, LevelAmount(initialAmount, rate, growth, targetFinalValue).value, rate, growth)
    requires ClosedForm(v0, initialAmount, 0.0, rate, growth)
    ensures LevelAmount(initialAmount, rate, growth, targetFinalValue).value > 0.0 ==> v == targetFinalValue
    ensures LevelAmount(initialAmount, rate, growth, targetFinalValue).value == 0.0 ==> v0 >= targetFinalValue
  {
    var x := LevelAmount(initialAmount, rate, growth, targetFinalValue).value;
    var required := targetFinalValue - initialAmount * growth;
    if x > 0.0 {
      LevelRecover(v, initialAmount, growth, x, required, rate, targetFinalValue);
    }
  }

  // ---------------------------------------------------------------------
  // The final value
  // ---------------------------------------------------------------------

  /** solveForFinalValueByPeriod: the projector's final value on the flat plan. */
  method SolveForFinalValueByPeriod(initialAmount: real, periodicAmount: real, periods: nat,
                                    annualInterestRate: real, periodsPerYear: real)
    returns (finalValue: real)
    requires periodsPerYear > 0.0
    ensures finalValue == FlatValue(initialAmount, periodicAmount, PeriodicRate(annualInterestRate, periodsPerYear), periods)
  {
    var result := ProjectInvestmentByPeriod(Flat(periodicAmount, periods), annualInterestRate, initialAmount, periodsPerYear);
    FlatFinalValue(periodicAmount, periods, annualInterestRate, initialAmount, periodsPerYear);
    finalValue := result.finalValue;
  }

  /** solveForFinalValue: the monthly projector's final value. */
  method SolveForFinalValue(initialAmount: real, monthlyAmount: real, months: nat, annualInterestRate: real)
    returns (finalValue: real)
    ensures finalValue == FlatValue(initialAmount, monthlyAmount, PeriodicRate(annualInterestRate, 12.0), months)
  {
    var result := ProjectInvestment(Flat(monthlyAmount, months), annualInterestRate, initialAmount);
    FlatFinalValue(monthlyAmount, months, annualInterestRate, initialAmount, 12.0);
    finalValue := result.finalValue;
  }

  // ---------------------------------------------------------------------
  // The number of periods
  // ---------------------------------------------------------------------

  /**
   * Where the period bisection stops: n in [0, 600], n − 1 periods fall
   * short of the target (unless n = 0) and n periods reach it (unless n = 600).
   */
  ghost predicate PeriodsBracket(initial: real, amount: real, rate: real, target: real, n: int)
  {
    && 0 <= n <= MaxPeriods
    && (n == 0 || FlatValue(initial, amount, rate, n - 1) < target)
    && (n == MaxPeriods || FlatValue(initial, amount, rate, n) >= target)
  }

  /** What solveForPeriods returns, case by case. */
  ghost predicate PeriodsOutcome(initial: real, amount: real, annualRate: real, target: real, periodsPerYear: real,
                                 ln: real -> real, periods: Extended)
    requires periodsPerYear > 0.0
  {
    var rate := PeriodicRate(annualRate, periodsPerYear);
    if rate == 0.0 then
      if amount == 0.0 then periods == (if initial >= target then Finite(0.0) else Infinite)
      else periods == Finite(Max(0.0, Ceil((target - initial) / amount) as real))
    else if amount == 0.0 then
      if initial >= target then periods == Finite(0.0)
      else if initial == 0.0 then periods == Infinite
      else ln(1.0 + rate) != 0.0 && periods == Finite(Ceil(ln(target / initial) / ln(1.0 + rate)) as real) && periods.value >= 1.0
    else
      && periods.Finite?
      && periods.value == periods.value.Floor as real
      && PeriodsBracket(initial, amount, rate, target, periods.value.Floor)
  }

  /** With a growing balance, log(target / initial) / log(1 + rate) is positive, so its ceiling is at least 1. */
  lemma LogRatioPositive(ln: real -> real, target: real, initial: real, rate: real)
    requires LogSigns(ln) && 0.0 < initial < target && rate > 0.0
    ensures ln(1.0 + rate) > 0.0
    ensures Ceil(ln(target / initial) / ln(1.0 + rate)) >= 1
  {
    assert target / initial > 1.0 by {
      assert (target / initial) * initial == target;
    }
    assert ln(target / initial) > 0.0;
    assert ln(1.0 + rate) > 0.0;
    assert ln(target / initial) / ln(1.0 + rate) > 0.0;
  }

  /** solveForPeriods. */
  method SolveForPeriods(initialAmount: real, periodicAmount: real, annualInterestRate: real, targetFinalValue: real,
                         periodsPerYear: real, ln: real -> real)
    returns (periods: Extended)
    requires periodsPerYear > 0.0 && annualInterestRate >= 0.0 && initialAmount >= 0.0
    requires LogSigns(ln)
    ensures PeriodsOutcome(initialAmount, periodicAmount, annualInterestRate, targetFinalValue, periodsPerYear, ln, periods)
  {
    var periodicRate := annualInterestRate / 100.0 / periodsPerYear;
    if periodicRate == 0.0 {
      if periodicAmount == 0.0 {
        return if initialAmount >= targetFinalValue then Finite(0.0) else Infinite;
      }
      return Finite(Max(0.0, Ceil((targetFinalValue - initialAmount) / periodicAmount) as real));
    }
    if periodicAmount == 0.0 {
      if initialAmount == 0.0 || initialAmount >= targetFinalValue {
        return if initialAmount >= targetFinalValue then Finite(0.0) else Infinite;
      }
      LogRatioPositive(ln, targetFinalValue, initialAmount, periodicRate);
      return Finite(Ceil(ln(targetFinalValue / initialAmount) / ln(1.0 + periodicRate)) as real);
    }
    periods := BisectPeriods(initialAmount, periodicAmount, annualInterestRate, targetFinalValue, periodsPerYear);
  }

  /**
   * The bisection of solveForPeriods: narrow [0, 600] by projecting the
   * plan for the middle count until the bracket is one count wide.
   */
  method BisectPeriods(initialAmount: real, periodicAmount: real, annualInterestRate: real, targetFinalValue: real,
                       periodsPerYear: real)
    returns (periods: Extended)
    requires periodsPerYear > 0.0
    ensures periods.Finite? && periods.value == periods.value.Floor as real
    ensures PeriodsBracket(initialAmount, periodicAmount, PeriodicRate(annualInterestRate, periodsPerYear),
                           targetFinalValue, periods.value.Floor)
  {
    var low: int := 0;
    var high: int := MaxPeriods;
    while (high - low) as real > PeriodTolerance
      invariant 0 <= low <= high <= MaxPeriods
      invariant low == 0 ||
        FlatValue(initialAmount, periodicAmount, PeriodicRate(annualInterestRate, periodsPerYear), low - 1) < targetFinalValue
      invariant high == MaxPeriods ||
        FlatValue(initialAmount, periodicAmount, PeriodicRate(annualInterestRate, periodsPerYear), high) >= targetFinalValue
      decreases high - low
    {
      var midPeriods := (low + high) / 2;
      // calculateRecurringInvestmentByPeriod on the flat plan, exactly what solveForFinalValueByPeriod returns
      var finalValue := SolveForFinalValueByPeriod(initialAmount, periodicAmount, midPeriods, annualInterestRate, periodsPerYear);
      if finalValue < targetFinalValue {
        low := midPeriods + 1;
        assert low - 1 == midPeriods;
      } else {
        high := midPeriods;
      }
    }
    periods := Finite(low as real);
  }

  /** solveForMonths: the same search at 12 periods a year. */
  method SolveForMonths(initialAmount: real, monthlyAmount: real, annualInterestRate: real, targetFinalValue: real,
                        ln: real -> real)
    returns (months: Extended)
    requires annualInterestRate >= 0.0 && initialAmount >= 0.0
    requires LogSigns(ln)
    ensures PeriodsOutcome(initialAmount, monthlyAmount, annualInterestRate, targetFinalValue, 12.0, ln, months)
  {
    months := SolveForPeriods(initialAmount, monthlyAmount, annualInterestRate, targetFinalValue, 12.0, ln);
  }

  /**
   * With nothing negative, the bisected count is the least number of
   * periods that reaches the target (when it is below 600), and no count
   * below 600 reaches it otherwise.
   */
  lemma BisectedPeriodsLeast(initial: real, amount: real, rate: real, target: real, n: int, m: nat)
    requires initial >= 0.0 && amount >= 0.0 && rate >= 0.0
    requires PeriodsBracket(initial, amount, rate, target, n)
    ensures n < MaxPeriods ==> FlatValue(initial, amount, rate, n) >= target
    ensures m < n ==> FlatValue(initial, amount, rate, m) < target
  {
    if m < n {
      FlatValueGrowsWithPeriods(initial, amount, rate, m, n - 1);
    }
  }

  /** At rate 0 with a positive amount, the count is the least that reaches the target. */
  lemma ZeroRatePeriodsLeast(initial: real, amount: real, target: real, n: nat)
    requires amount > 0.0
    requires n as real == Max(0.0, Ceil((target - initial) / amount) as real)
    ensures FlatValue(initial, amount, 0.0, n) >= target
    ensures n > 0 ==> FlatValue(initial, amount, 0.0, n - 1) < target
  {
    FlatValueAtZeroRate(initial, amount, n);
    if n > 0 {
      FlatValueAtZeroRate(initial, amount, n - 1);
      CeilReaches(initial, amount, target, n);
    } else {
      QuotientSign(target - initial, amount);
    }
  }

  // ---------------------------------------------------------------------
  // The rate
  // ---------------------------------------------------------------------

  /** The value of the flat plan at an annual rate, the bisection's test. */
  function ValueAtRate(initial: real, amount: real, periods: nat, annualRate: real, periodsPerYear: real): real
    requires periodsPerYear > 0.0
  {
    FlatValue(initial, amount, PeriodicRate(annualRate, periodsPerYear), periods)
  }

  /**
   * The bracket the rate bisection keeps: `low` is 0 or falls short of the
   * target, `high` is 50 or reaches it.
   */
  ghost predicate RateBracket(initial: real, amount: real, periods: nat, target: real, periodsPerYear: real, low: real, high: real)
    requires periodsPerYear > 0.0
  {
    && 0.0 <= low <= high <= MaxAnnualRate
    && (low == 0.0 || ValueAtRate(initial, amount, periods, low, periodsPerYear) < target)
    && (high == MaxAnnualRate || ValueAtRate(initial, amount, periods, high, periodsPerYear) >= target)
  }

  /** What solveForInterestRateByPeriod returns, case by case. */
  ghost predicate RateOutcome(initial: real, amount: real, periods: nat, target: real, periodsPerYear: real,
                              rate: Extended, low: real, high: real)
    requires periodsPerYear > 0.0
  {
    if periods == 0 then rate == (if initial >= target then Finite(0.0) else Infinite)
    else if target <= initial + amount * (periods as real) then rate == Finite(0.0)
    else
      && RateBracket(initial, amount, periods, target, periodsPerYear, low, high)
      && high - low <= RateTolerance
      && rate == Finite((low + high) / 2.0)
      && 0.0 <= rate.value <= MaxAnnualRate
  }

  /** solveForInterestRateByPeriod. */
  method SolveForInterestRateByPeriod(initialAmount: real, periodicAmount: real, periods: nat, targetFinalValue: real,
                                      periodsPerYear: real)
    returns (rate: Extended, ghost low: real, ghost high: real)
    requires periodsPerYear > 0.0
    ensures RateOutcome(initialAmount, periodicAmount, periods, targetFinalValue, periodsPerYear, rate, low, high)
    ensures periods == 0 ==> rate == (if initialAmount >= targetFinalValue then Finite(0.0) else Infinite)
    ensures periods > 0 ==> rate.Finite? && 0.0 <= rate.value <= MaxAnnualRate
  {
    low, high := 0.0, MaxAnnualRate;
    if periods == 0 {
      return if initialAmount >= targetFinalValue then Finite(0.0) else Infinite, low, high;
    }
    var totalContributions := initialAmount + periodicAmount * (periods as real);
    if targetFinalValue <= totalContributions {
      return Finite(0.0), low, high;
    }
    var lo := 0.0;
    var hi := MaxAnnualRate;
    while hi - lo > RateTolerance
      invariant RateBracket(initialAmount, periodicAmount, periods, targetFinalValue, periodsPerYear, lo, hi)
      decreases ((hi - lo) * 10000.0).Floor
    {
      var midRate := (lo + hi) / 2.0;
      HalfFloorDecreases((hi - lo) * 10000.0);
      assert (midRate - lo) * 10000.0 == (hi - lo) * 10000.0 / 2.0 == (hi - midRate) * 10000.0;
      // calculateRecurringInvestmentByPeriod on the flat plan, exactly what solveForFinalValueByPeriod returns
      var finalValue := SolveForFinalValueByPeriod(initialAmount, periodicAmount, periods, midRate, periodsPerYear);
      if finalValue < targetFinalValue {
        lo := midRate;
      } else {
        hi := midRate;
      }
    }
    low, high := lo, hi;
    rate := Finite((lo + hi) / 2.0);
  }

  /** solveForInterestRate: the same search at 12 periods a year. */
  method SolveForInterestRate(initialAmount: real, monthlyAmount: real, months: nat, targetFinalValue: real)
    returns (rate: Extended, ghost low: real, ghost high: real)
    ensures RateOutcome(initialAmount, monthlyAmount, months, targetFinalValue, 12.0, rate, low, high)
    ensures months == 0 ==> rate == (if initialAmount >= targetFinalValue then Finite(0.0) else Infinite)
    ensures months > 0 ==> rate.Finite? && 0.0 <= rate.value <= MaxAnnualRate
  {
    rate, low, high := SolveForInterestRateByPeriod(initialAmount, monthlyAmount, months, targetFinalValue, 12.0);
  }

  /** When the target is within the plain contributions, rate 0 already reaches it. */
  lemma ZeroRateSuffices(initial: real, amount: real, periods: nat, target: real, periodsPerYear: real)
    requires periodsPerYear > 0.0
    requires target <= initial + amount * (periods as real)
    ensures ValueAtRate(initial, amount, periods, 0.0, periodsPerYear) >= target
  {
    FlatValueAtZeroRate(initial, amount, periods);
  }

  /**
   * With nothing negative the bracket separates the rates: every rate up to
   * a positive `low` falls short of the target, every rate from a `high`
   * below 50 reaches it.
   */
  lemma RateBracketSeparates(initial: real, amount: real, periods: nat, target: real, periodsPerYear: real,
                             low: real, high: real, annualRate: real)
    requires periodsPerYear > 0.0 && initial >= 0.0 && amount >= 0.0 && annualRate >= 0.0
    requires RateBracket(initial, amount, periods, target, periodsPerYear, low, high)
    ensures 0.0 < low && annualRate <= low ==> ValueAtRate(initial, amount, periods, annualRate, periodsPerYear) < target
    ensures high < MaxAnnualRate && high <= annualRate ==> ValueAtRate(initial, amount, periods, annualRate, periodsPerYear) >= target
  {
    assert PeriodicRate(annualRate, periodsPerYear) >= 0.0;
    if 0.0 < low && annualRate <= low {
      PeriodicRateMonotone(annualRate, low, periodsPerYear);
      FlatValueGrowsWithRate(initial, amount, PeriodicRate(annualRate, periodsPerYear), PeriodicRate(low, periodsPerYear), periods);
    }
    if high < MaxAnnualRate && high <= annualRate {
      PeriodicRateMonotone(0.0, high, periodsPerYear);
      PeriodicRateMonotone(high, annualRate, periodsPerYear);
      FlatValueGrowsWithRate(initial, amount, PeriodicRate(high, periodsPerYear), PeriodicRate(annualRate, periodsPerYear), periods);
    }
  }
}
