# Finance calculator core in Dafny

This project models the computational core of a finance-calculator web
application. It proves properties of that model. The core has five parts:

- **The loan engines of `src/lib/calculations.ts`.** These are the
  declining-balance loan, the equal-payment (annuity) loan and the loan with
  an upfront fee. Each loan is solved either for a term or for a monthly
  payment. The fee loan also finds an "equivalent" rate by bisection.
- **The investment engine of the same file.** This is the recurring-investment
  projector and the five solvers that find a missing variable: two by closed
  form, two by bisection and one by running the projector.
- **The URL codecs.** `src/lib/url-state.ts` is the generic encoder and
  decoder. `loan-declining.url.ts` holds the whitelist, the mode default and
  the share builder.
- **The state machines of the calculators.** These are the reducers, and the
  hooks that validate a form, dispatch to the engines and keep the
  `isCalculating` flag.
- **The saved-values list operations.**

How the modules are laid out:

| module (file) | what it holds |
|---|---|
| `Numeric` (numeric.dfy) | `Pow` with a natural exponent, `Min`/`Max`, `Ceil`, `Extended` (a finite number, Infinity or NaN) |
| `LoanSchedule` (loan_schedule.dfy) | the declining-balance generator, specified row by row |
| `Annuity` (annuity.dfy) | the equal-payment generator |
| `LoanWithFee` (loan_with_fee.dfy) | the fee loan and the equivalent-rate bisection |
| `InvestmentProjection`, `InvestmentSolvers` | the projector and the solvers |
| `SearchParams`, `UrlState` (url_state.dfy) | URLSearchParams as a list of pairs, and the two codecs |
| `Forms`, `Reducers` | shared form types, and a store class that holds a state and applies a reducer |
| `LoanCalculatorState`, `InvestmentState` | the reducers |
| `LoanDecliningUrl`, `LoanFeeInput`, `InvestmentValidation`, `InvestmentCalculation`, `LoanDecliningCalculation`, `LoanFeeCalculation` | the hooks and URL helpers |
| `SavedValues` | the saved-values list transforms |
| `Wrappers` | `Option` and `Result` |

**Numbers.** Numbers are `real`, so the model checks the algebra, not IEEE
rounding. A few platform functions are parameters of the operations that
use them:

- `Math.log` is a function parameter `ln`. The predicate `LogSigns(ln)`
  gives it only its sign facts.
- `parseFloat` is a parameter `parse: string -> Option<real>`, with `None`
  for NaN.
- `Number.prototype.toString` is a parameter `show`.

Infinity and NaN results of the investment solvers are the `Extended`
datatype.

**Schedules.** A schedule is specified by a row recurrence and the loop's
stopping condition. The generator methods are proved to produce such a
schedule. Uniqueness lemmas show that the recurrence and stopping condition fix the schedule
completely.

**Hooks and reducers.** A React dispatch is modelled as a call to
`Reducers.Store.Dispatch`. The store keeps a ghost log of the actions
dispatched. `Store.Valid()` says that the state is the reducer replayed over
that log. Each hook method states the exact list of actions it dispatches,
so "isCalculating is false again at exit" and "no result is stored" become
facts about that list.

The three loan reducers have the same shape:

- `loanDecliningReducer` (`src/app/calculators/loan-declining/loan-declining.state.tsx` lines 30-81);
- `loanAnnuityReducer` (`loan-annuity.state.tsx` lines 27-78);
- `loanFeeReducer` (`loan-fee.state.tsx` lines 23-74).

So one generic `LoanCalculatorState.Reduce`, over the result type, models all
three. Its `Initial` is the `initialState` the three files share.

**Level payment at rate 0.** The code computes the level payment as
P·r·(1+r)^n / ((1+r)^n − 1) (`src/lib/calculations.ts` lines 58-60 and
219-221). At rate 0 this is 0/0, so it yields NaN and no zero-rate by-term
schedule repays principal/n per month. The model follows the code:

- the declining-balance engine reports `NonFinitePayment` exactly when
  (1+r)^n = 1, which covers rate 0 and a zero term;
- the annuity engine requires a positive rate and at least one month by term.

The lines under "## Left out" say what the code produces in those cases.

## Model

| member | source | states |
|---|---|---|
| Numeric.Min | src/lib/calculations.ts:64-67 | `Math.min`: the result is one of the two arguments and is below both |
| Numeric.Max | src/lib/calculations.ts:78 | `Math.max`: the result is one of the two arguments and is above both |
| Numeric.Ceil | src/lib/calculations.ts:251 | `Math.ceil`: the least integer not below x |
| Numeric.PowGrowthZero | src/lib/calculations.ts:58-60 | for r ≥ 0, the denominator (1+r)^n − 1 is zero exactly when r = 0 or n = 0 |
| LoanSchedule.DecliningRow | src/lib/calculations.ts:63-80 | one declining row: payment = principal part + interest and never exceeds the payment; the principal part never exceeds the balance; the reported balance is the balance left, which is never negative and shrinks whenever the payment exceeds the interest |
| LoanSchedule.DecliningBalanceLoan | src/lib/calculations.ts:44-131 | by term: fails (non-finite payment) exactly when (1+r)^n = 1; otherwise the level payment, rows 1..k each the declining step from the previous balance, the loop running while balance > 0.01 and month ≤ months, and the totals. By payment: success gives at most 600 rows, each covering its interest, with the same recurrence and stop, and totalMonths = row count; failure happens exactly when the loop reaches a row whose interest is at least the payment |
| LoanSchedule.DecliningByTerm | src/lib/calculations.ts:55-90 | the by-term branch: failure exactly when the payment formula divides by zero, else the by-term outcome |
| LoanSchedule.DecliningByPayment | src/lib/calculations.ts:92-129 | the by-payment branch: the by-payment outcome, or the "too low to cover interest" error with a witness row |
| LoanSchedule.DecliningRowAt | src/lib/calculations.ts:62-80 | row k of a declining schedule: month k+1, interest = balance × rate, principal = min(payment − interest, balance), payment = principal + interest, remaining = balance − principal ≥ 0, running interest total |
| LoanSchedule.DecliningByTermUnique | src/lib/calculations.ts:55-90 | the by-term outcome predicate fixes the result: two results that meet it are equal |
| LoanSchedule.DecliningByPaymentUnique | src/lib/calculations.ts:92-129 | the by-payment outcome predicate fixes the result |
| LoanSchedule.TooLowExcludesSchedule | src/lib/calculations.ts:95-101 | when the loop reaches a row whose interest is at least the payment, no completed by-payment schedule exists (the throw and a result exclude each other) |
| LoanSchedule.RunningInterest | src/lib/calculations.ts:71-79 | the last running totalInterest is the sum of the rows' interest |
| LoanSchedule.PrincipalRepaid | src/lib/calculations.ts:64-70 | the rows' principal parts add up to the principal minus the balance left |
| LoanSchedule.SameStopSameRows | src/lib/calculations.ts:62-83 | two schedules that follow the recurrence and stop by the same loop condition are equal |
| Annuity.AnnuityRow | src/lib/calculations.ts:224-237 | one by-term row pays the full level payment; its principal part is payment − interest with no cap; the reported balance is never negative and equals the carried balance when that is non-negative |
| Annuity.AnnuityLoan | src/lib/calculations.ts:206-302 | by term: exactly `months` rows, the payment solves the level-payment equation, each row is the uncapped step from the carried balance, and the totals. By payment: the row count is the ceiling computed up front (0 rows if it is below 1), each row is the capped declining step, and totalMonths = row count |
| Annuity.AnnuityByTerm | src/lib/calculations.ts:216-245 | the by-term branch meets the by-term outcome |
| Annuity.LevelPaymentRows | src/lib/calculations.ts:223-238 | the `for` loop produces exactly `months` rows following the uncapped recurrence, and its total interest is the interest accumulated over them |
| Annuity.AnnuityByPayment | src/lib/calculations.ts:246-300 | the by-payment branch meets the by-payment outcome, in both the rate-0 and the logarithm sub-branches |
| Annuity.AnnuityBalanceClosedForm | src/lib/calculations.ts:223-228 | closed form of the carried balance: B_k·r = P·r·(1+r)^k − payment·((1+r)^k − 1) |
| Annuity.LevelPaymentEquation | src/lib/calculations.ts:219-221 | the level payment solves payment·((1+r)^n − 1) = P·r·(1+r)^n |
| Annuity.LevelEquationUnique | src/lib/calculations.ts:219-221 | the level payment is the only solution of that equation |
| Annuity.AnnuityPaysOff | src/lib/calculations.ts:219-238 | at a positive rate, n level payments leave a balance of exactly 0 |
| Annuity.AnnuityInterestIdentity | src/lib/calculations.ts:224-228 | interest paid over k rows + principal = k × payment + balance carried |
| Annuity.AnnuityReportedBalance | src/lib/calculations.ts:235 | the reported balance of row k is max(0, carried balance) |
| Annuity.LevelRowsTotals | src/lib/calculations.ts:223-244 | for a by-term schedule at a positive rate: principal + total interest = months × payment, and the last row reports 0 |
| Annuity.AnnuityByTermTotals | src/lib/calculations.ts:240-245 | totalAmount of a by-term annuity = months × monthlyPayment, and the last reported balance is 0 |
| Annuity.ZeroRateBalance | src/lib/calculations.ts:253-256 | at rate 0 the balance after k rows is max(0, principal − k × payment) |
| Annuity.ZeroRatePaysPrincipal | src/lib/calculations.ts:250-266 | at rate 0 by payment: ceil(principal / payment) rows, all with zero interest; the principal parts sum to the principal; totalInterest is 0 and totalAmount = principal |
| LoanWithFee.EquivalentInterestRate | src/lib/calculations.ts:175-201 | the bisection keeps 0 ≤ low ≤ high ≤ 50, with low falling short of the payment and high reaching it; after `steps` halvings the width is 50 / 2^steps and at most 0.0001; the result is the midpoint, inside [0, 50] |
| LoanWithFee.EquivalenceTarget | src/lib/calculations.ts:158-161 | `loanResult.monthlyPayment \|\| …`: the level payment when present and non-zero, else the given payment by payment, else 0 |
| LoanWithFee.CalculateLoanWithFee | src/lib/calculations.ts:136-170 | fee = principal × fee% / 100; the schedule, its errors and its totals are those of the declining loan on principal + fee; the equivalent rate is a bisection midpoint over as many months as the schedule has rows |
| InvestmentProjection.FirstEntryCounts | src/lib/calculations.ts:344-345 | a period's contribution is the amount of the first entry for it, or 0 when there is none |
| InvestmentProjection.LastPeriod | src/lib/calculations.ts:335 | `Math.max` of the periods: not below any of them, and one of them |
| InvestmentProjection.RowCount | src/lib/calculations.ts:335-337 | the loop bound: at least every listed period, and one of them or 0 |
| InvestmentProjection.ProjectInvestmentByPeriod | src/lib/calculations.ts:307-365 | the loop produces exactly the projection: rows for periods 1..max, interest on the previous value, then the contribution |
| InvestmentProjection.ProjectInvestment | src/lib/calculations.ts:370-427 | the monthly twin is the same projection with 12 periods per year |
| InvestmentProjection.NoPeriods | src/lib/calculations.ts:335-364 | with no periods there are no rows, finalValue = totalContributions = initial, and totalInterest = 0 |
| InvestmentProjection.ProjectionRows | src/lib/calculations.ts:337-357 | row k: period k+1, its contribution, interest = previous value × periodic rate, value = previous + interest + contribution, running contributions |
| InvestmentProjection.ProjectionConserved | src/lib/calculations.ts:359-364 | finalValue = totalContributions + totalInterest |
| InvestmentProjection.ValueConserved | src/lib/calculations.ts:339-347 | after every period the value is contributions (initial included) plus interest |
| InvestmentProjection.FlatContribution | src/lib/calculations.ts:326-332 | a `{periodicAmount, periods}` plan contributes the amount in periods 1..n and nothing else |
| InvestmentProjection.FlatRowCount | src/lib/calculations.ts:326-337 | a flat plan over n periods gives n rows |
| InvestmentProjection.FlatFinalValue | src/lib/calculations.ts:307-365 | projecting a flat plan gives n rows and the flat value as finalValue |
| InvestmentProjection.FlatValueAtZeroRate | src/lib/calculations.ts:337-347 | at rate 0 the value is initial + k × amount |
| InvestmentProjection.FlatClosedForm | src/lib/calculations.ts:619-624 | the flat value matches the closed form the solvers invert: V·r = initial·(1+r)^k·r + amount·((1+r)^k − 1) |
| InvestmentProjection.FlatValueNonNegative | src/lib/calculations.ts:337-347 | non-negative inputs give a non-negative value |
| InvestmentProjection.FlatValueGrowsWithPeriods | src/lib/calculations.ts:701-715 | with non-negative inputs the value never decreases with more periods (what the period bisection relies on) |
| InvestmentProjection.FlatValueGrowsWithRate | src/lib/calculations.ts:746-760 | with non-negative inputs the value never decreases with the rate (what the rate bisection relies on) |
| InvestmentSolvers.FlatValueClosed | src/lib/calculations.ts:619-624 | at a non-zero rate the flat value is initial·(1+r)^n + amount·((1+r)^n − 1)/r |
| InvestmentSolvers.SolveForInitialAmountByPeriod | src/lib/calculations.ts:605-627 | at a positive rate the initial amount is never negative (the rate-0 branch is not clamped) |
| InvestmentSolvers.SolveForInitialAmount | src/lib/calculations.ts:432-453 | the monthly twin is the by-period solver at 12 periods per year |
| InvestmentSolvers.InitialAmountReachesTarget | src/lib/calculations.ts:605-627 | projecting with the solved initial amount reaches the target exactly, except when it is clamped to 0, where the contributions alone already reach the target |
| InvestmentSolvers.InitialAmountInverse | src/lib/calculations.ts:605-627 | solving for the initial amount on the value a non-negative initial amount projects to gives that amount back |
| InvestmentSolvers.SolveForPeriodicAmount | src/lib/calculations.ts:632-661 | never negative; 0 when the initial amount alone reaches the target; with zero periods, 0, Infinity or NaN as the division by zero gives |
| InvestmentSolvers.SolveForMonthlyAmount | src/lib/calculations.ts:458-485 | the monthly twin is the by-period solver at 12 periods per year |
| InvestmentSolvers.PeriodicAmountReachesTarget | src/lib/calculations.ts:632-661 | with at least one period the amount is finite; projecting with it reaches the target exactly, or it is 0 and the initial amount alone reaches the target |
| InvestmentSolvers.SolveForFinalValueByPeriod | src/lib/calculations.ts:768-782 | the final value is the flat plan's projected value |
| InvestmentSolvers.SolveForFinalValue | src/lib/calculations.ts:588-600 | the same at 12 periods per year |
| InvestmentSolvers.SolveForPeriods | src/lib/calculations.ts:666-718 | each case of solveForPeriods. At rate 0: 0 or Infinity without contributions, else max(0, ceil((target − initial)/amount)). Without contributions: 0, Infinity, or ceil(log(target/initial)/log(1+r)) ≥ 1. Otherwise a whole number n in [0, 600] where n − 1 periods fall short and n reach the target |
| InvestmentSolvers.BisectPeriods | src/lib/calculations.ts:696-717 | the bisection over [0, 600] returns a whole number n such that n − 1 periods fall short of the target (or n = 0) and n periods reach it (or n = 600) |
| InvestmentSolvers.SolveForMonths | src/lib/calculations.ts:490-540 | the same at 12 periods per year |
| InvestmentSolvers.BisectedPeriodsLeast | src/lib/calculations.ts:697-717 | the bisected count is the least number of periods that reaches the target (below 600) |
| InvestmentSolvers.ZeroRatePeriodsLeast | src/lib/calculations.ts:676-683 | at rate 0 the ceiling formula gives the least number of periods that reaches the target |
| InvestmentSolvers.LogRatioPositive | src/lib/calculations.ts:687-693 | without contributions and with 0 < initial < target, the logarithm formula gives at least one period |
| InvestmentSolvers.SolveForInterestRateByPeriod | src/lib/calculations.ts:723-763 | zero periods: 0 or Infinity; target within the plain contributions: 0; otherwise the midpoint of a bracket of width ≤ 0.0001 inside [0, 50], with low falling short and high reaching the target |
| InvestmentSolvers.SolveForInterestRate | src/lib/calculations.ts:545-583 | the same at 12 periods per year |
| InvestmentSolvers.ZeroRateSuffices | src/lib/calculations.ts:736-739 | when the target is within the plain contributions, rate 0 already reaches it |
| InvestmentSolvers.RateBracketSeparates | src/lib/calculations.ts:742-762 | every rate at or below a positive `low` falls short of the target, and every rate at or above `high` (below 50) reaches it |
| SearchParams.Get | src/lib/url-state.ts:41-45 | `get`: None exactly when no pair has the name, else the value of such a pair |
| SearchParams.Set | src/lib/url-state.ts:19 | `set`: the name then reads the value, other names read as before, and names stay distinct |
| UrlState.EncodeStateToUrl | src/lib/url-state.ts:13-29 | each non-NaN value is one parameter, NaN values and absent keys give none, and `mode` is set last when the state has a non-empty mode |
| UrlState.DecodeStateFromUrl | src/lib/url-state.ts:34-54 | the loop yields the decoded state: `mode` goes to the mode, never to values; unparseable values are dropped; later parameters overwrite earlier ones |
| UrlState.HasUrlParameters | src/lib/url-state.ts:75-85 | true exactly when there is any parameter, `mode` included |
| UrlState.DecodedMode | src/lib/url-state.ts:42-45 | on distinct names the decoded mode is `get("mode")` |
| UrlState.DecodedValue | src/lib/url-state.ts:47-50 | on distinct names a decoded value is present exactly when the parameter exists and parses, and equals the parsed value |
| UrlState.DecodedLastValue | src/lib/url-state.ts:41-51 | for any parameter list, duplicates included, a name other than `mode` has a decoded value exactly when some entry with that name parses, and the value is the parse of the last such entry |
| UrlState.DecodedLastMode | src/lib/url-state.ts:41-45 | for any parameter list, the mode is absent exactly when no entry is named `mode`, and otherwise is the value of the last such entry |
| UrlState.RoundTrip | src/lib/url-state.ts:13-54 | decoding an encoding gives back every non-NaN value not named `mode`, and the mode when non-empty, provided parseFloat(toString(x)) = x |
| Forms.ModeName | src/app/calculators/loan-declining/loan-declining.url.ts:46 | the mode strings "by-term" and "by-payment" name the two modes one to one |
| LoanDecliningUrl.ConvertSearchParamsToFormState | src/app/calculators/loan-declining/loan-declining.url.ts:8-35 | the loop builds the converted values, with empty errors; only the four form fields survive, and never with the value "CALC" |
| LoanDecliningUrl.ConvertedField | src/app/calculators/loan-declining/loan-declining.url.ts:13-29 | on distinct names a field is converted exactly when it is one of the four, present, and not "CALC"; its value is the parameter's |
| LoanDecliningUrl.GetCalculationModeFromUrl | src/app/calculators/loan-declining/loan-declining.url.ts:42-50 | by-payment exactly when `mode` is "by-payment"; otherwise `mode` names the result, or the result is the by-term default |
| LoanDecliningUrl.GenerateShareableUrlState | src/app/calculators/loan-declining/loan-declining.url.ts:58-84 | undefined exactly when none of the four fields is non-empty; otherwise each non-empty field is a parameter, empty ones are absent, and `mode` names the mode |
| LoanDecliningUrl.OtherKeyIffFilled | src/app/calculators/loan-declining/loan-declining.url.ts:82 | `hasValues`: a key other than `mode` is present exactly when some field is non-empty |
| LoanDecliningUrl.ShareRoundTrip | src/app/calculators/loan-declining/loan-declining.url.ts:8-84 | reading a shared parameter list back gives the mode and exactly the non-empty fields other than "CALC", with their values |
| Reducers.Store.constructor | src/app/calculators/loan-declining/loan-declining.state.tsx:86-87 | a store starts at the initial state with an empty log |
| Reducers.Store.Dispatch | src/app/calculators/loan-declining/loan-declining.state.tsx:30-81 | `dispatch`: the new state is the reducer applied to the old one, and the action is appended to the log |
| LoanCalculatorState.Reduce | src/app/calculators/loan-declining/loan-declining.state.tsx:30-81 | SetFormValue sets the value and clears that field's error; SetFormErrors replaces the errors wholesale; every other action leaves the form alone; each of mode, result and calculating changes only under its own action; Unknown is the identity |
| LoanCalculatorState.ReplayCalculating | src/app/calculators/loan-declining/loan-declining.state.tsx:66-79 | after any log the flag is the payload of the last SetCalculating, or the starting flag |
| LoanCalculatorState.ReplayKeepsResult | src/app/calculators/loan-declining/loan-declining.state.tsx:66-70 | a log without SetResult leaves the result unchanged |
| LoanCalculatorState.ReplayKeepsMode | src/app/calculators/loan-declining/loan-declining.state.tsx:51-55 | a log without SetCalculationMode leaves the mode unchanged |
| InvestmentState.GetContributionPeriodDetails | src/app/calculators/investment/investment-calculator.state.tsx:122-139 | weekly, quarterly, semi-annually and annually map to 52, 4, 2 and 1 with their labels; anything else to Monthly and 12; the count is always positive |
| InvestmentState.Reduce | src/app/calculators/investment/investment-calculator.state.tsx:33-90 | SetFormValue sets the value and clears its error; SetContributionPeriod sets only contributionPeriod and keeps the errors; SetFormErrors replaces the errors; result and calculating change only under their own action; Unknown is the identity |
| InvestmentState.GetShareableState | src/app/calculators/investment/investment-calculator.state.tsx:152-166 | undefined exactly when every value is "" or "monthly"; otherwise the form values |
| InvestmentState.InitialNotShareable | src/app/calculators/investment/investment-calculator.state.tsx:19-28 | the initial state (period "monthly", no result, not calculating) has nothing to share |
| InvestmentState.ShareableAfterInput | src/app/calculators/investment/investment-calculator.state.tsx:38-52 | after entering any value other than "" or "monthly", the state is shareable with that value |
| SavedValues.SaveValue | src/contexts/saved-values-context.tsx:91-99 | the new item is at index 0, the old list follows in order, and the length grows by one |
| SavedValues.SaveKeepsIdsUnique | src/contexts/saved-values-context.tsx:92-98 | ids stay unique when the new id is fresh |
| SavedValues.UpdateValue | src/contexts/saved-values-context.tsx:104-111 | same length; only the name of entries with that id changes, and only when a new name is given |
| SavedValues.DeleteValue | src/contexts/saved-values-context.tsx:116-118 | no survivor has the id, every entry with another id survives, and nothing new appears |
| SavedValues.DeleteKeepsOrder | src/contexts/saved-values-context.tsx:116-118 | deleting from a concatenation is the concatenation of the deletions, so the order is kept |
| SavedValues.DeleteKeepsIdsUnique | src/contexts/saved-values-context.tsx:116-118 | deleting keeps ids unique |
| SavedValues.GetValue | src/contexts/saved-values-context.tsx:123-125 | none exactly when no entry has the id; otherwise an entry with that id |
| SavedValues.GetValueFirst | src/contexts/saved-values-context.tsx:123-125 | `find` returns the first entry with the id |
| SavedValues.SavedIsFound | src/contexts/saved-values-context.tsx:91-125 | a saved item is found by its id |
| SavedValues.DeletedIsGone | src/contexts/saved-values-context.tsx:116-125 | after deleting an id it is not found |
| SavedValues.ClearAll | src/contexts/saved-values-context.tsx:130-132 | nothing is found after clearing |
| LoanFeeInput.ToLower | src/app/calculators/loan-fee/hooks/loan-fee.input.tsx:54 | `toLowerCase` on ASCII: same length, capitals lowered, everything else kept |
| LoanFeeInput.MatchField | src/app/calculators/loan-fee/hooks/loan-fee.input.tsx:53-58 | the first mapping entry whose key occurs in the lower-cased name, or none when no key occurs |
| LoanFeeInput.SavedValueField | src/app/calculators/loan-fee/hooks/loan-fee.input.tsx:42-77 | a name match wins; otherwise currency above 10000 goes to principal, above 1000 to monthlyPayment, else nowhere; a percentage above 10 goes to interestRate, else to feePercentage; a number above 12 goes to months, else nowhere |
| LoanFeeInput.SavedValueFieldKnown | src/app/calculators/loan-fee/hooks/loan-fee.input.tsx:44-50 | the routed field is always one of the five form fields |
| LoanFeeInput.PrincipalNameWins | src/app/calculators/loan-fee/hooks/loan-fee.input.tsx:53-57 | a name containing "principal" in any letter case routes to principal, whatever its type and value |
| LoanFeeInput.HandleInputChange | src/app/calculators/loan-fee/hooks/loan-fee.input.tsx:20-25 | exactly one SetFormValue with the arguments |
| LoanFeeInput.HandleModeChange | src/app/calculators/loan-fee/hooks/loan-fee.input.tsx:31-36 | exactly one SetCalculationMode with the argument |
| LoanFeeInput.HandleSavedValueSelect | src/app/calculators/loan-fee/hooks/loan-fee.input.tsx:42-77 | at most one SetFormValue: to the routed field, with the value's text |
| InvestmentValidation.FieldError | src/app/calculators/investment/hooks/investment-calculator.validation.tsx:27-34 | no error for blank input or a number ≥ 0; "Must be a valid number" when it does not parse; "Must be a positive number" when it is negative |
| InvestmentValidation.ValidationErrors | src/app/calculators/investment/hooks/investment-calculator.validation.tsx:21-35 | contributionPeriod and blank fields never get an error; every error is one of the two messages; the map is empty exactly when the form is acceptable |
| InvestmentValidation.ValidateForm | src/app/calculators/investment/hooks/investment-calculator.validation.tsx:20-42 | one SetFormErrors with the full new error map, which replaces the stored one; the result is true exactly when the form is acceptable |
| InvestmentCalculation.Missing | src/app/calculators/investment/hooks/investment-calculator.calculation.tsx:68-70 | the fields whose value is undefined, and only those |
| InvestmentCalculation.ExactlyOneEmpty | src/app/calculators/investment/hooks/investment-calculator.calculation.tsx:75 | one empty field exactly when one field is absent and the other four are present |
| InvestmentCalculation.SoleMissing | src/app/calculators/investment/hooks/investment-calculator.calculation.tsx:82 | the single empty field is absent and all others are present |
| InvestmentCalculation.Periods | src/app/calculators/investment/hooks/investment-calculator.calculation.tsx:102 | the length Array.from uses: the whole part of a non-negative count, 0 for a negative one |
| InvestmentCalculation.Solve | src/app/calculators/investment/hooks/investment-calculator.calculation.tsx:92-177 | the solver for the empty field, the projector with the solved value in its slot, tagged with the label and the solved value; no result only when the periods solver answers Infinity. The solvers get the whole part of the month count |
| InvestmentCalculation.HandleCalculate | src/app/calculators/investment/hooks/investment-calculator.calculation.tsx:34-191 | SetCalculating(true), then SetResult only with exactly one empty field and a solution for it, then SetCalculating(false) on every path; the form is untouched. With exactly one empty field, no result is stored only when it is the month count and the periods solver answers Infinity. The solvers get the whole part of the month count |
| InvestmentCalculation.NumericValues | src/app/calculators/investment/hooks/investment-calculator.calculation.tsx:202-210 | the non-blank fields other than contributionPeriod, parsed and non-negative |
| InvestmentCalculation.HandleFormSubmit | src/app/calculators/investment/hooks/investment-calculator.calculation.tsx:197-213 | after validation, nothing more when it fails; otherwise calculate from the non-blank numeric fields. Any result solves their one empty field; with exactly one empty field, no result is stored only when it is the month count and the periods solver answers Infinity. The solvers get the whole part of the month count |
| LoanDecliningCalculation.DecliningRequest | src/app/calculators/loan-declining/hooks/loan-declining.calculation.tsx:27-144 | the request is rejected, with an error map over the four fields in which exactly one of the principal and rate errors is set when both are filled, exactly when principal is not a positive number or the rate is not a non-negative number, and is otherwise the `TermsRequest` decision on the parsed principal and rate |
| LoanDecliningCalculation.TermsRequest | src/app/calculators/loan-declining/hooks/loan-declining.calculation.tsx:80-143 | the engine runs exactly when the mode's field (months or payment) is a positive number, in the mode that matches calculationMode |
| LoanDecliningCalculation.CalculateLoan | src/app/calculators/loan-declining/hooks/loan-declining.calculation.tsx:27-156 | a rejected form only gets its errors and never sets the flag. A rejected term gets SetCalculating(true), its errors and SetCalculating(false). A run gets SetCalculating(true), SetResult (null when the engine fails: it throws, or the model's engine reports `NonFinitePayment`) and SetCalculating(false), with the engine's outcome |
| LoanFeeCalculation.FeeRequest | src/app/calculators/loan-fee/hooks/loan-fee.calculation.tsx:19-66 | ignored while calculating, and ignored exactly when principal, fee or rate is "" or does not parse (absent reads as "0"); otherwise the engine runs exactly when the mode's field is a positive number |
| LoanFeeCalculation.Calculate | src/app/calculators/loan-fee/hooks/loan-fee.calculation.tsx:19-80 | an ignored call dispatches nothing. A missing term gets only SetCalculating(true) and SetCalculating(false). A run stores a result only on success (an exception, or a `NonFinitePayment` from the model's engine, leaves the old result) and always ends not calculating |

## Left out

- IEEE floating point: numbers are exact reals. The 0.01 pay-off threshold and the 0.0001 tolerances matter only as loop bounds.
- `Math.log` is a parameter with its sign facts only. Term counts computed with it are correct relative to that function, not to the real logarithm.
- `parseFloat` and `Number.prototype.toString` are parameters. `UrlState.RoundTrip` requires `parse(show(x)) == x`.
- LoanSchedule.DecliningBalanceLoan: returns `NonFinitePayment` wherever (1+r)^n = 1, because a NaN or an Infinity has no real counterpart. The source instead returns a result: at rate 0 with n ≥ 1 the payment is NaN (0/0) and the loop writes one row of NaN principal, payment and balance, then stops; at n = 0 the payment is Infinity (rate above 0) or NaN (rate 0) and the schedule is empty.
- LoanSchedule.DecliningByTerm: returns `NonFinitePayment` in the same cases as `DecliningBalanceLoan`, where the source returns the one-NaN-row or empty schedule described there.
- LoanSchedule.DecliningBalanceLoan: a term in (0,1) months reaches the model floored to 0 and fails with `NonFinitePayment`; the source computes a finite payment from the fractional term and returns an empty schedule.
- LoanWithFee.CalculateLoanWithFee: passes the engine's `NonFinitePayment` on. The source still returns a result there, whose equivalent rate is bisected against a target payment of 0 over its rows, because a NaN monthly payment is falsy.
- LoanDecliningCalculation.CalculateLoan: dispatches SetResult(null) when the model's engine reports `NonFinitePayment`. The source engine does not throw there (a 0% by-term loan passes the hook's checks), so the source stores the NaN or empty-schedule result.
- LoanFeeCalculation.Calculate: keeps the old result when the model's engine reports `NonFinitePayment`; the source stores the NaN or empty-schedule result there.
- LoanDecliningCalculation.TermsRequest: passes the whole part of the months field on, so a term in (0,1) becomes 0; the source passes the fractional value to the engine.
- LoanFeeCalculation.FeeRequest: passes the whole part of the months field on, so a term in (0,1) becomes 0; the source passes the fractional value to the engine.
- Annuity.AnnuityLoan: requires a positive rate and at least one month by term. At rate 0 the source's payment is NaN (0/0) and every row is NaN; at 0 months with a positive rate the payment is P·r/0 = Infinity and the schedule is empty.
- Annuity.AnnuityByTerm: requires a positive rate and at least one month, for the reasons given for `AnnuityLoan`.
- Annuity.AnnuityByPayment: requires a non-negative rate and a payment above the first month's interest. The source does not finish on the excluded inputs with payment = principal·r at a positive rate (Math.log(0) is −Infinity, so the term is Infinity and the row loop never ends), nor with payment 0 at rate 0 (the term ceil(P/0) is Infinity). With a payment below principal·r the logarithm is NaN, the loop runs zero times, and the source returns an empty schedule with 0 months.
- InvestmentSolvers.SolveForInitialAmountByPeriod: requires a non-negative rate and a positive periods-per-year count. Validation rejects negative input, and the count is always one of 52, 12, 4, 2 or 1.
- InvestmentSolvers.SolveForPeriodicAmount: requires a non-negative rate and a positive periods-per-year count, for the reasons given for `SolveForInitialAmountByPeriod`.
- InvestmentSolvers.SolveForPeriods: requires a non-negative rate, a non-negative initial amount and a positive periods-per-year count, for the reasons given for `SolveForInitialAmountByPeriod`.
- InvestmentSolvers.SolveForInterestRateByPeriod: requires a positive periods-per-year count, which is always one of 52, 12, 4, 2 or 1.
- InvestmentCalculation.HandleCalculate: requires non-negative values, which `handleFormSubmit` establishes by validating first.
- InvestmentCalculation.Solve: passes the whole part of the month count to the solvers, because `Numeric.Pow` takes a natural exponent. The source passes the unrounded `months ?? 0`, and only the projector's `Array.from` cuts it. With a fractional count the source's rate solver tests contributions against amount × count rather than amount × whole part, the initial-amount solver raises 1+r to the fractional power, and a count in (0,1) takes the model's zero-period branch where the source computes a finite value. The period input is a number field with min 1 and step 1, so a form typed by hand holds whole counts.
- InvestmentCalculation.HandleCalculate: the solvers get the whole part of the month count, as described for `Solve`.
- InvestmentCalculation.HandleFormSubmit: the solvers get the whole part of the month count, as described for `Solve`.
- LoanDecliningCalculation.DecliningRequest: the term in months it hands on is a whole number (the floor of the parsed value), where the source passes the fractional term into `Math.pow`. The row loop runs the same number of times either way, except that a term in (0,1) gives the source an empty schedule and the model `NonFinitePayment`.
- The loan terms are whole months throughout `LoanSchedule`, `Annuity` and `LoanWithFee`.
- A solved Infinity or NaN amount or rate is read as 0 by the projector. It only arises with zero periods, where it is never read.
- The URL helpers: `params.toString()`, percent-encoding, `generateShareableUrl` and `copyUrlToClipboard` are not modelled. The share builder returns the parameter list.
- Object and map iteration order (`Object.entries`, `forEach`): the encode, validate and submit loops visit keys in an arbitrary order, and their contracts hold for every order.
- Browser I/O: localStorage, `crypto.randomUUID` and `new Date()` in the saved-values provider become parameters (`id`, `createdAt`). Toasts and console output are left out.
- The React providers, `createReducerContext` wiring, components, pages and summary hooks are left out.
- `LoanCalculatorState.Initial` and `InvestmentState.Initial` carry no contract of their own. The initial investment state is covered by `InvestmentState.InitialNotShareable`.
- LoanFeeInput.ToLower: lower-cases ASCII letters only; `toLowerCase` also folds other alphabets.
- Forms.Blank: treats only ASCII whitespace as blank; `trim` also removes other Unicode spaces and line terminators.
