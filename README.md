# Smart Money Helper: finance calculators in Dafny

This project models the calculation core of the Smart Money Helper web app, a
suite of personal-finance calculators written in TypeScript and React. Numbers
are exact reals, and powers are defined by recursion on a whole exponent.
Covered here:

- **Finance formulas** (`src/utils/calculatorUtils.ts`):
  - the EMI (equated monthly instalment) of a loan, and the loan amount an EMI
    pays for;
  - the two capped bisection solvers for the interest rate and the tenure;
  - the SIP (monthly investment plan) future value, as an annuity due;
  - GST (goods and services tax) added on top of an amount;
  - the month-by-month amortization schedule and its sampled chart;
  - the year-by-year SIP chart.
- **EMI calculator screen:** four tabs, each solving for one of loan, rate,
  tenure and EMI from the other three. Also the reset, the tenure display and
  the 12-row schedule preview.
- **Loan comparison screen:** two to four loans with per-loan metrics, adding,
  removing and editing loans, the outstanding-principal chart sampled every six
  months, and the three-row comparison chart.
- **Credit score screen:** five weighted sub-scores, the clamped score, its
  band, the factor breakdown, the recommendations and the used-credit cap.
- **Credit score impact screen:** toggled factors added to the current score,
  clamped to 300–850, with reset and the impact chart.
- **GST screen:** exclusive and inclusive modes, the CGST/SGST halves and reset.
- **Shared numeric input widget:** clamping typed and blurred values to
  [min, max], and rewriting the unit suffix between years and months.

Modules follow the source files:

| module | file | models |
|---|---|---|
| `Basics` | basics.dfy | `Math.min`/`max`/`abs`, `Math.round`, `toFixed(2)`, number-to-text |
| `Power` | power.dfy | `Math.pow` on whole exponents, and a monotone extension between them |
| `FinanceMath` | finance_math.dfy | the formulas and solvers of calculatorUtils.ts |
| `Amortization` | amortization.dfy | the schedule loop and the two chart builders |
| `EmiCalculator` | emi_calculator.dfy | EMICalculator.tsx |
| `LoanComparison` | loan_comparison.dfy | LoanComparisonCalculator.tsx |
| `CreditScore` | credit_score.dfy | CreditScoreCalculator.tsx |
| `CreditImpact` | credit_impact.dfy | CreditScoreImpactCalculator.tsx |
| `GstCalculator` | gst_calculator.dfy | GSTCalculator.tsx |
| `CalculatorInput` | calculator_input.dfy | CalculatorInput.tsx |

Code that works in steps is modelled as imperative Dafny, each method proved
against a specification function:

- **Loops:** the bisection loops, the schedule loop with its early `break`, the
  chart loops and the recommendation pushes.
- **Screens:** the EMI, loan comparison, credit score, credit impact and input
  widget screens are classes whose fields are their React state. Their handlers
  are methods with `modifies this`, and each states the whole new state.
- **GST screen:** its handlers are one-line setters, so it is modelled as
  functions over a `State` value, each returning the new state.

Expressions, `map`, `filter` and `reduce` are modelled as functions and lemmas.

## Model

| member | source | states |
|---|---|---|
| Basics.Clamp | src/components/ui-elements/CalculatorInput.tsx:61 | `Math.min(Math.max(x, lo), hi)` lies in [lo, hi] when lo <= hi, leaves a value already inside unchanged, and never exceeds hi |
| Basics.ClampIdempotent | src/components/ui-elements/CalculatorInput.tsx:61 | clamping an already clamped value changes nothing |
| Basics.ClampMonotone | src/components/calculators/CreditScoreImpactCalculator.tsx:40 | clamping preserves order |
| Basics.Round | src/components/calculators/CreditScoreCalculator.tsx:55 | `Math.round(x)` is the integer within half a unit of x, with halves rounded up |
| Basics.RoundMonotone | src/components/calculators/CreditScoreCalculator.tsx:55 | rounding preserves order |
| Basics.RoundBetween | src/components/calculators/CreditScoreCalculator.tsx:55 | a value between two integers rounds to a value between them |
| Basics.Round2 | src/utils/calculatorUtils.ts:57 | `Number(x.toFixed(2))`: a whole number of hundredths, within half a hundredth of x, and not negative |
| Basics.Round2Bounded | src/utils/calculatorUtils.ts:57 | rounding to cents never passes a whole upper bound |
| Basics.NatToString | src/utils/calculatorUtils.ts:250 | a year number prints as a non-empty run of decimal digits |
| Basics.NatToStringReadsBack | src/utils/calculatorUtils.ts:250 | reading the printed digits back as a decimal number gives the number printed |
| Basics.NatToStringInjective | src/utils/calculatorUtils.ts:250 | two different numbers never print the same |
| Power.PowStrictlyIncreasing | src/utils/calculatorUtils.ts:14-15 | (1+R)^m < (1+R)^n for m < n and R > 0 |
| Power.PowR | src/utils/calculatorUtils.ts:14 | the power at a fractional exponent is at least 1 for a base of at least 1, and above 1 for a base above 1 and a positive exponent |
| Power.PowRWhole | src/utils/calculatorUtils.ts:14 | at a whole exponent it is exactly the repeated product |
| Power.PowRMonotone | src/utils/calculatorUtils.ts:14 | for a base above 1 it grows with the exponent, as `Math.pow` does |
| FinanceMath.CalculateEMI | src/utils/calculatorUtils.ts:4-18 | 0 whenever principal, rate or time is <= 0; otherwise more than the first month's interest P·R |
| FinanceMath.EMIPositiveInputs | src/utils/calculatorUtils.ts:13-17 | for positive inputs the EMI is P·R·(1+R)^N / ((1+R)^N − 1), with R = rate/1200 and N = 12·time |
| FinanceMath.CalculateLoanAmount | src/utils/calculatorUtils.ts:21-35 | 0 whenever EMI, rate or time is <= 0; otherwise strictly between 0 and the perpetuity EMI/R |
| FinanceMath.LoanAmountPositiveInputs | src/utils/calculatorUtils.ts:30-34 | for positive inputs the loan is EMI·((1+R)^N − 1) / (R·(1+R)^N) |
| FinanceMath.LoanAmountInvertsEMI | src/utils/calculatorUtils.ts:14-17 | for P, rate, time > 0, the loan amount of EMI(P, rate, time) is exactly P |
| FinanceMath.EMIInvertsLoanAmount | src/utils/calculatorUtils.ts:31-34 | for EMI, rate, time > 0, the EMI of the loan amount for that EMI is exactly that EMI |
| FinanceMath.AnnuityRoundTrip | src/utils/calculatorUtils.ts:14-17 | the present value of the instalment for P is P, whatever the rate and the growth factor |
| FinanceMath.DiscountRoundTrip | src/utils/calculatorUtils.ts:31-34 | the instalment for the present value of e is e |
| FinanceMath.TotalPaymentCoversPrincipal | src/components/calculators/EMICalculator.tsx:52-53 | over a whole number of months, EMI × months is at least the loan, so the total interest shown is never negative |
| FinanceMath.BisectFacts | src/utils/calculatorUtils.ts:42-65 | every probe keeps 0 <= low <= mid <= high <= the upper end, with mid the midpoint; it takes 1 to 100 steps; it converges only with \|EMI(mid) − target\| < 0.01, and without converging it uses every step |
| FinanceMath.BisectHalves | src/utils/calculatorUtils.ts:52-62 | each pass halves the bracket: after k steps its width is the start width halved k − 1 times |
| FinanceMath.BisectStops | src/utils/calculatorUtils.ts:56-57 | the search returns the current midpoint once it is close enough, or at the last pass |
| FinanceMath.BisectContinues | src/utils/calculatorUtils.ts:58-62 | otherwise it moves low up to mid when the update direction says so, or high down to mid |
| FinanceMath.InterestRateOf | src/utils/calculatorUtils.ts:38-66 | the solved rate is 0 when EMI, principal or time is <= 0, and always lies in [0, 100] |
| FinanceMath.TimePeriodOf | src/utils/calculatorUtils.ts:69-97 | the solved tenure is 0 when EMI, principal or rate is <= 0, and always lies in [0, 30] |
| FinanceMath.BisectSearch | src/utils/calculatorUtils.ts:43-65 | the loop returns the midpoint of the recursive bisection with the same bracket, direction and cap, and it lies within [0, upper] |
| FinanceMath.CalculateInterestRate | src/utils/calculatorUtils.ts:38-66 | the method returns exactly the solved rate, with low raised while the computed EMI is below the target |
| FinanceMath.CalculateTimePeriod | src/utils/calculatorUtils.ts:69-97 | the method returns exactly the solved tenure, with low raised while the computed EMI is above the target |
| FinanceMath.SolverStopsWithinCap | src/utils/calculatorUtils.ts:49-65 | with the 100-pass cap it takes 1 to 100 passes, stops early only on convergence, returns a midpoint in range, and rounding to cents moves it by at most 0.005 |
| FinanceMath.CalculateSIP | src/utils/calculatorUtils.ts:100-117 | 0 whenever an input is <= 0; positive otherwise |
| FinanceMath.SIPClosedForm | src/utils/calculatorUtils.ts:111-114 | P·((1+r)^n − 1)/r·(1+r) equals investing P at the start of each of n months and compounding monthly |
| FinanceMath.SIPFutureValueStep | src/utils/calculatorUtils.ts:112-114 | one more month of deposit and growth takes the n − 1 month closed form to the n month one |
| FinanceMath.SIPAtLeastInvested | src/utils/calculatorUtils.ts:100-117 | with a non-negative rate the accumulated value is never below the total deposited |
| FinanceMath.SIPWholeMonths | src/utils/calculatorUtils.ts:100-117 | over whole months the SIP is that month-by-month balance, and it is at least the amount invested |
| FinanceMath.CalculateSIPWhole | src/utils/calculatorUtils.ts:111-114 | over whole months it is the annuity-due formula at R = rate/1200 |
| FinanceMath.CalculateGST | src/utils/calculatorUtils.ts:120-143 | all zeros when amount <= 0 or rate < 0 (a rate of 0 is accepted); otherwise net = amount, gst·100 = amount·rate and total = net + gst >= amount |
| Amortization.CalculateAmortizationSchedule | src/utils/calculatorUtils.ts:155-190 | the loop's running balance and `break` produce exactly the recursive schedule |
| Amortization.AppendRow | src/utils/calculatorUtils.ts:174-186 | one pass of the loop appends the next row, and either the schedule is complete (balance <= 0, `break`) or the rest follows from the new balance |
| Amortization.ScheduleFromLength | src/utils/calculatorUtils.ts:173-187 | a run has at least one row exactly when a month is left, and never more rows than months left |
| Amortization.ScheduleFromRows | src/utils/calculatorUtils.ts:178-184 | rows are numbered consecutively, carry the EMI, split it exactly into principal + interest, and never show a negative balance |
| Amortization.ScheduleFromPaidOffOnlyAtEnd | src/utils/calculatorUtils.ts:183-186 | every balance but the last is positive, because the loop stops right after the first non-positive balance |
| Amortization.ScheduleWellFormed | src/utils/calculatorUtils.ts:155-190 | the schedule is non-empty exactly when time·12 >= 1, has at most time·12 rows, numbers months from 1, splits each EMI exactly and is paid off only at the end |
| Amortization.ScheduleFromPaysDown | src/utils/calculatorUtils.ts:174-176 | when the EMI exceeds the first month's interest, every row repays some principal and leaves less than the starting balance |
| Amortization.ScheduleFromDeclines | src/utils/calculatorUtils.ts:174-176 | under the same condition the recorded balances never increase |
| Amortization.ScheduleBalancesDecline | src/utils/calculatorUtils.ts:166-187 | for positive inputs, every row of the schedule repays principal, and balances are below the loan and non-increasing |
| Amortization.ScheduleFollows | src/utils/calculatorUtils.ts:173-187 | if each month takes owed[j] to owed[j+1], the run from owed[k] records owed[k+1..n] as balances and repays owed[k] in principal |
| Amortization.ScheduleIsExpected | src/utils/calculatorUtils.ts:173-187 | that run is row for row the rows read off the balances |
| Amortization.ExpectedFacts | src/utils/calculatorUtils.ts:178-184 | those rows number n − k, record owed[k+1..n], and their principal parts telescope to owed[k] − owed[n] |
| Amortization.RemainingStep | src/utils/calculatorUtils.ts:174-176 | one month of the loop at the closed-form EMI takes the closed-form balance at g to the balance at (1+r)·g |
| Amortization.RemainingEnds | src/utils/calculatorUtils.ts:170-187 | the closed-form balance is the loan before any payment and 0 after the last |
| Amortization.ClosedFormSteps | src/utils/calculatorUtils.ts:174-176 | every month moves the closed-form balance P·(X − (1+r)^j)/(X − 1) to the next one |
| Amortization.ClosedFormBounds | src/utils/calculatorUtils.ts:170 | the closed-form balances start at P, end at 0 and are positive in between |
| Amortization.ClosedFormRun | src/utils/calculatorUtils.ts:173-187 | at the n-month EMI the run has n rows, row i leaves the closed-form balance, and the principal parts add up to the loan |
| Amortization.ScheduleWholeMonths | src/utils/calculatorUtils.ts:166-168 | over n whole months the schedule runs at the n-month closed-form EMI up to month n |
| Amortization.ScheduleRepaysLoan | src/utils/calculatorUtils.ts:155-190 | over exact reals and n whole months the schedule has exactly n rows, its last balance is 0, its principal parts sum to the loan, and row i leaves the closed-form balance |
| Amortization.KeptIndicesFacts | src/utils/calculatorUtils.ts:206 | the kept indices are exactly those the filter accepts, strictly increasing and in range |
| Amortization.KeptEnds | src/utils/calculatorUtils.ts:206 | the first and the last row are always kept |
| Amortization.FindMonth | src/utils/calculatorUtils.ts:213 | `findIndex` returns the first row with that month, or −1 when there is none |
| Amortization.GenerateEMIChartData | src/utils/calculatorUtils.ts:193-217 | the chart is built from the schedule of the same inputs |
| Amortization.SampledMonths | src/utils/calculatorUtils.ts:206-213 | sampled row k is schedule row ks[k], of month ks[k]+1, and looking its month up finds k again |
| Amortization.KeptIndexFacts | src/utils/calculatorUtils.ts:204-206 | the interval is max(1, ⌊len/12⌋); indices 0 and len − 1 are kept, in increasing order; an index is kept iff it is a multiple of the interval or the last |
| Amortization.ChartSeries | src/utils/calculatorUtils.ts:208-215 | the three series have one value per kept row: label "Month m", principal minus that row's balance, and interest summed over the sampled rows up to it |
| Amortization.ChartOfRows | src/utils/calculatorUtils.ts:204-215 | the sampling and series facts together, for any rows numbered from month 1 |
| Amortization.EMIChartFacts | src/utils/calculatorUtils.ts:193-217 | the sampling and series facts hold for the chart of any loan's schedule |
| Amortization.GenerateSIPChartData | src/utils/calculatorUtils.ts:220-254 | the loop emits one point per whole year 1..⌊years⌋, labelled "Year k", with the year's invested amount and wealth gained |
| Amortization.SIPChartMatchesCalculateSIP | src/utils/calculatorUtils.ts:234-246 | year N's point has invested 12·N·monthly, future value equal to calculateSIP over N years, and non-negative wealth gained |
| EmiCalculator.Result | src/components/calculators/EMICalculator.tsx:48-90 | the value a tab solves for; the rate tab's lies in [0, 100] and the tenure tab's in [0, 30] |
| EmiCalculator.SolveFor | src/components/calculators/EMICalculator.tsx:48-90 | the tab's solver returns that value |
| EmiCalculator.Solve | src/components/calculators/EMICalculator.tsx:48-90 | each tab writes only its own input and leaves the other three unchanged |
| EmiCalculator.TotalsUseSolvedInputs | src/components/calculators/EMICalculator.tsx:52-88 | in every tab, total payment = EMI × tenure × 12 over the inputs after solving (the fresh tenure in the tenure tab), and payment − interest is the loan in use |
| EmiCalculator.EmiTabInterestNonNegative | src/components/calculators/EMICalculator.tsx:52 | over whole months the EMI tab never shows negative interest |
| EmiCalculator.ChartPoints | src/components/calculators/EMICalculator.tsx:57-63 | one chart point per label, carrying that index's principal and interest |
| EmiCalculator.DisplaySchedule | src/components/calculators/EMICalculator.tsx:368-370 | the table shows a prefix of the schedule: all of it in the full view, else min(12, length) rows |
| EmiCalculator.ToggleIffRowsHidden | src/components/calculators/EMICalculator.tsx:402 | the toggle appears exactly when the preview hides rows |
| EmiCalculator.EmiScreen.constructor | src/components/calculators/EMICalculator.tsx:23-36 | the screen starts at 10 lakh, 8.5 %, 5 years, EMI 0, in the EMI tab |
| EmiCalculator.EmiScreen.CalculateResults | src/components/calculators/EMICalculator.tsx:43-94 | the tab's one input is solved and written, the totals follow, and the chart and schedule are rebuilt only in the EMI tab |
| EmiCalculator.EmiScreen.Apply | src/components/calculators/EMICalculator.tsx:48-93 | writing a solved value changes only the tab's input and the totals |
| EmiCalculator.EmiScreen.HandleReset | src/components/calculators/EMICalculator.tsx:96-101 | reset sets 1000000, 8.5, 5 and 20000 and leaves the tab and everything else alone |
| EmiCalculator.EmiScreen.SelectTab | src/components/calculators/EMICalculator.tsx:426 | choosing a tab changes only the tab |
| EmiCalculator.EmiScreen.ToggleFullSchedule | src/components/calculators/EMICalculator.tsx:407 | the toggle flips only the full-view flag |
| EmiCalculator.LongLoanOffersFullView | src/components/calculators/EMICalculator.tsx:368-370 | a loan of n > 12 whole months has n rows, so the toggle shows and the preview has 12 rows |
| EmiCalculator.TenureParts | src/components/calculators/EMICalculator.tsx:344-347 | as written: the years are ⌊t⌋, and years·12 + months is the tenure rounded to months, so 0 <= months <= 12 |
| EmiCalculator.TenurePartsShowsTwelveMonths | src/components/calculators/EMICalculator.tsx:345-347 | as written, 4.96 years displays as "4 Years 12 Months" |
| EmiCalculator.TenurePartsCarried | src/components/calculators/EMICalculator.tsx:344-347 | corrected: the same rounded month count, with 0 <= months < 12 |
| EmiCalculator.TenurePartsCarriedAgrees | src/components/calculators/EMICalculator.tsx:344-347 | the corrected split agrees with the original whenever months < 12, and carries 12 months into a year otherwise |
| EmiCalculator.TenureDisplay | src/components/calculators/EMICalculator.tsx:344-347 | as written: the label for ⌊t⌋ years and the months that bring them to the tenure rounded to months, which can be 12 |
| EmiCalculator.TenureLabel | src/components/calculators/EMICalculator.tsx:347 | the label opens with the years and " Years", and a months part follows iff months > 0; with TenureLabelDeterminesParts, it determines the years and months |
| EmiCalculator.TenureDisplayCarried | src/components/calculators/EMICalculator.tsx:344-347 | corrected: the same label form and month count, with 0 <= months < 12 |
| EmiCalculator.TenureDisplayAtFourPointNineSix | src/components/calculators/EMICalculator.tsx:345-347 | 4.96 years shows "4 Years 12 Months" as written and "5 Years" corrected |
| EmiCalculator.TenureLabelDeterminesParts | src/components/calculators/EMICalculator.tsx:347 | the label template is unambiguous: two labels are equal only for the same years and months |
| LoanComparison.DefaultLoans | src/components/calculators/LoanComparisonCalculator.tsx:40-63 | the screen starts with two loans |
| LoanComparison.LocalEMI | src/components/calculators/LoanComparisonCalculator.tsx:33-37 | the screen's own EMI is 0 on no principal, and above the monthly interest on a positive principal |
| LoanComparison.LocalEMIMatchesUtility | src/components/calculators/LoanComparisonCalculator.tsx:33-37 | the screen's own EMI formula agrees with calculateEMI for positive inputs |
| LoanComparison.WithMetrics | src/components/calculators/LoanComparisonCalculator.tsx:70-81 | the EMI is the screen's own formula on the loan's principal, rate and tenure; totalAmount = EMI × tenure × 12, totalInterest = totalAmount − principal, and every other field is copied |
| LoanComparison.WithMetricsInterestNonNegative | src/components/calculators/LoanComparisonCalculator.tsx:72-73 | over whole months a loan's total interest is never negative |
| LoanComparison.WithMetricsIdempotent | src/components/calculators/LoanComparisonCalculator.tsx:70-81 | recomputing the metrics of updated loans changes nothing |
| LoanComparison.AllWithMetrics | src/components/calculators/LoanComparisonCalculator.tsx:70-81 | the update maps over the loans, one for one |
| LoanComparison.Keyed | src/components/calculators/LoanComparisonCalculator.tsx:101-114 | a data point has a key for every loan name and no other |
| LoanComparison.AsObject | src/components/calculators/LoanComparisonCalculator.tsx:99-113 | the data point as one JavaScript object: "name" and every loan name are its keys, each loan name holds its figure, and "name" keeps the label only if no loan is called "name" |
| LoanComparison.KeyedObject | src/components/calculators/LoanComparisonCalculator.tsx:99-113 | the row label survives iff no loan is named "name"; a loan so named overwrites it with its figure |
| LoanComparison.KeyedLastWriter | src/components/calculators/LoanComparisonCalculator.tsx:110 | a name's value is the one written by the last loan with that name |
| LoanComparison.FillPoint | src/components/calculators/LoanComparisonCalculator.tsx:101-114 | the `forEach` that fills a data point builds exactly that keyed map |
| LoanComparison.KeyedValuesWritten | src/components/calculators/LoanComparisonCalculator.tsx:101-114 | every value in a data point was written for one of the loans |
| LoanComparison.MaxMonths | src/components/calculators/LoanComparisonCalculator.tsx:95 | `Math.max` over tenure·12 bounds every loan's months and is one of them |
| LoanComparison.Outstanding | src/components/calculators/LoanComparisonCalculator.tsx:102-112 | each plotted value is a non-negative whole number, and 0 past the loan's tenure |
| LoanComparison.OutstandingAll | src/components/calculators/LoanComparisonCalculator.tsx:101-114 | one outstanding value per loan, in order |
| LoanComparison.ChartData | src/components/calculators/LoanComparisonCalculator.tsx:92-93 | no chart for an empty list, a chart otherwise |
| LoanComparison.ChartRows | src/components/calculators/LoanComparisonCalculator.tsx:98-117 | row j is the data point at month 6·j |
| LoanComparison.ChartPoint | src/components/calculators/LoanComparisonCalculator.tsx:98-116 | one pass of the chart loop builds exactly the data point for that month |
| LoanComparison.GenerateChartData | src/components/calculators/LoanComparisonCalculator.tsx:92-120 | the loop produces exactly that chart |
| LoanComparison.ChartSamplesEverySixMonths | src/components/calculators/LoanComparisonCalculator.tsx:98-99 | rows are at months 0, 6, 12, … up to the longest loan; the first is "Start", the rest are "m mo" |
| LoanComparison.ChartStartsAtPrincipal | src/components/calculators/LoanComparisonCalculator.tsx:106-110 | month 0 shows each loan's rounded principal |
| LoanComparison.ChartZeroAfterTenure | src/components/calculators/LoanComparisonCalculator.tsx:111-112 | a loan past its tenure shows 0 |
| LoanComparison.ChartValuesWholeAndNonNegative | src/components/calculators/LoanComparisonCalculator.tsx:110-112 | every plotted value is a non-negative whole number |
| LoanComparison.OutstandingDeclines | src/components/calculators/LoanComparisonCalculator.tsx:105-110 | after month 0 a loan's plotted outstanding never rises |
| LoanComparison.OwedDeclines | src/components/calculators/LoanComparisonCalculator.tsx:105-109 | within the tenure the unrounded remaining balance never rises from month to month |
| LoanComparison.MetricAll | src/components/calculators/LoanComparisonCalculator.tsx:134-136 | one metric value per loan, in order |
| LoanComparison.ComparisonData | src/components/calculators/LoanComparisonCalculator.tsx:122-123 | no comparison for an empty list, three rows otherwise |
| LoanComparison.GenerateComparisonData | src/components/calculators/LoanComparisonCalculator.tsx:122-142 | the loop produces exactly that comparison |
| LoanComparison.ComparisonRowsPerLoan | src/components/calculators/LoanComparisonCalculator.tsx:125-139 | exactly three rows, EMI, Total Interest and Total Payment, each holding every loan's value under its name |
| LoanComparison.MaxId | src/components/calculators/LoanComparisonCalculator.tsx:147 | the largest id bounds all ids and belongs to a loan |
| LoanComparison.NewLoan | src/components/calculators/LoanComparisonCalculator.tsx:147-158 | the new loan's id exceeds every id, its name is "Loan " and that id, it starts at 500000, 9 % and 10 years, and takes the colour at the list length mod 4 |
| LoanComparison.AddLoan | src/components/calculators/LoanComparisonCalculator.tsx:144-161 | at 4 loans nothing changes; below that the list gains the new loan at its end and keeps the rest |
| LoanComparison.AddLoanKeepsValid | src/components/calculators/LoanComparisonCalculator.tsx:144-161 | below 4 loans, adding appends one loan with a fresh larger id and keeps the rest; the list stays 2–4 loans with distinct ids |
| LoanComparison.WithoutId | src/components/calculators/LoanComparisonCalculator.tsx:165 | the filter never lengthens the list |
| LoanComparison.WithoutIdCutsOne | src/components/calculators/LoanComparisonCalculator.tsx:165 | with distinct ids, the filter removes exactly the matching loan and keeps the rest in order, or changes nothing |
| LoanComparison.WithoutIdKeepsOthers | src/components/calculators/LoanComparisonCalculator.tsx:165 | every loan the filter keeps was in the list and has another id |
| LoanComparison.RemoveLoan | src/components/calculators/LoanComparisonCalculator.tsx:163-166 | at 2 loans or fewer nothing changes; above that no kept loan has the id and every kept loan was in the list |
| LoanComparison.RemoveLoanKeepsValid | src/components/calculators/LoanComparisonCalculator.tsx:163-166 | removing keeps the list at 2–4 loans with distinct ids |
| LoanComparison.UpdateField | src/components/calculators/LoanComparisonCalculator.tsx:197-204 | only the named field changes: 'name' only with text, the others only with a number; otherwise the loan is unchanged |
| LoanComparison.ChangeLoan | src/components/calculators/LoanComparisonCalculator.tsx:195-206 | only the loan with the matching id is updated |
| LoanComparison.ChangeLoanKeepsValid | src/components/calculators/LoanComparisonCalculator.tsx:195-206 | editing keeps the list valid |
| LoanComparison.ApplyKeepsValid | src/components/calculators/LoanComparisonCalculator.tsx:144-206 | any one add, remove or edit keeps the list at 2–4 loans with distinct ids |
| LoanComparison.RunKeepsValid | src/components/calculators/LoanComparisonCalculator.tsx:144-206 | so does any sequence of them |
| LoanComparison.LoanComparisonScreen.constructor | src/components/calculators/LoanComparisonCalculator.tsx:40-66 | the screen starts with the two default loans and empty charts |
| LoanComparison.LoanComparisonScreen.Recalculate | src/components/calculators/LoanComparisonCalculator.tsx:68-90 | the effect updates every loan's metrics and rebuilds both charts from the updated loans |
| LoanComparison.LoanComparisonScreen.HandleAddLoan | src/components/calculators/LoanComparisonCalculator.tsx:144-161 | the list becomes the added list and stays valid |
| LoanComparison.LoanComparisonScreen.HandleRemoveLoan | src/components/calculators/LoanComparisonCalculator.tsx:163-166 | the list becomes the filtered list and stays valid |
| LoanComparison.LoanComparisonScreen.HandleLoanChange | src/components/calculators/LoanComparisonCalculator.tsx:195-206 | the list becomes the edited list and stays valid |
| LoanComparison.LoanComparisonScreen.HandleReset | src/components/calculators/LoanComparisonCalculator.tsx:168-193 | reset restores the two default loans |
| CreditScore.PaymentScore | src/components/calculators/CreditScoreCalculator.tsx:35 | at most 350, and non-negative for a non-negative history |
| CreditScore.UtilizationScore | src/components/calculators/CreditScoreCalculator.tsx:38-40 | between 0 and 300, 300 at zero usage and 0 from a third of the limit |
| CreditScore.AgeScore | src/components/calculators/CreditScoreCalculator.tsx:44 | at most 150, reached from 84 months on, and non-negative for a non-negative age |
| CreditScore.MixScore | src/components/calculators/CreditScoreCalculator.tsx:47 | a mix of 0–10 earns 0–100 points, and at least 10 from the input minimum of 1 |
| CreditScore.InquiryScore | src/components/calculators/CreditScoreCalculator.tsx:51 | between 0 and 100, and 0 from 5 inquiries on |
| CreditScore.RawScoreAsWritten | src/components/calculators/CreditScoreCalculator.tsx:54 | as written, the raw score's distance above 300 is ten times the corrected one, and a sub-score total of 100 or more reaches 850 |
| CreditScore.FinalScoreAsWritten | src/components/calculators/CreditScoreCalculator.tsx:54-55 | as written, the score is still clamped to 300–850 |
| CreditScore.AsWrittenSaturates | src/components/calculators/CreditScoreCalculator.tsx:54 | as written, any sub-score total of 100 or more scores 850, including the defaults |
| CreditScore.FinalScore | src/components/calculators/CreditScoreCalculator.tsx:54-55 | corrected: the rounded, clamped score lies in [300, 850] |
| CreditScore.RawScoreWithinScale | src/components/calculators/CreditScoreCalculator.tsx:54 | corrected: for inputs in the screen's ranges the raw score already lies within 300–850 |
| CreditScore.FinalScoreAtBest | src/components/calculators/CreditScoreCalculator.tsx:35-55 | corrected: perfect inputs score 850 |
| CreditScore.FinalScoreAsWrittenAtBest | src/components/calculators/CreditScoreCalculator.tsx:35-55 | as written: perfect inputs score 850 |
| CreditScore.FinalScoreAtWorst | src/components/calculators/CreditScoreCalculator.tsx:35-55 | corrected: inputs that earn nothing score 300; this needs a mix of 0, below the input's minimum of 1 |
| CreditScore.WorstAllowedInputs | src/components/calculators/CreditScoreCalculator.tsx:35-55 | the worst inputs the screen allows (mix 1) score 306 corrected and 355 as written |
| CreditScore.InRangeScoreFloor | src/components/calculators/CreditScoreCalculator.tsx:35-55 | for inputs within the screen's ranges the score is at least 306 corrected and at least 355 as written |
| CreditScore.FullUsageScoresNothing | src/components/calculators/CreditScoreCalculator.tsx:38-40 | using the whole limit earns no utilization points |
| CreditScore.SubScoreSumMonotone | src/components/calculators/CreditScoreCalculator.tsx:35-54 | the sub-score total never falls as history, age or mix rise, or as utilization or inquiries fall |
| CreditScore.FinalScoreMonotone | src/components/calculators/CreditScoreCalculator.tsx:35-55 | corrected: the score never falls as history, age or mix rise, or as utilization or inquiries fall |
| CreditScore.FinalScoreAsWrittenMonotone | src/components/calculators/CreditScoreCalculator.tsx:35-55 | as written: the same monotonicity |
| CreditScore.DefaultsScore | src/components/calculators/CreditScoreCalculator.tsx:54-74 | corrected: the default inputs score 632, which is Fair |
| CreditScore.DefaultsScoreAsWritten | src/components/calculators/CreditScoreCalculator.tsx:54-74 | as written: the default inputs score 850, which is Excellent |
| CreditScore.CappedRatio | src/components/calculators/CreditScoreCalculator.tsx:38 | usage within the limit gives a ratio in 0–100 % |
| CreditScore.CategoryOf | src/components/calculators/CreditScoreCalculator.tsx:59-74 | the band is Excellent iff the score is >= 800, Very Good iff 740–799, Good iff 670–739, Fair iff 580–669, Poor iff below 580 |
| CreditScore.CategoryBands | src/components/calculators/CreditScoreCalculator.tsx:59-74 | each band is exactly its range: >= 800 Excellent, 740–799 Very Good, 670–739 Good, 580–669 Fair, below 580 Poor |
| CreditScore.CategoryMonotone | src/components/calculators/CreditScoreCalculator.tsx:59-74 | a higher score never falls into a lower band |
| CreditScore.GaugeWithinBar | src/components/calculators/CreditScoreCalculator.tsx:243 | the gauge width is always between 0 % and 100 %, for the score as written and corrected |
| CreditScore.Breakdown | src/components/calculators/CreditScoreCalculator.tsx:77-110 | the breakdown has five rows |
| CreditScore.BreakdownWithinWeights | src/components/calculators/CreditScoreCalculator.tsx:77-110 | for in-range inputs each row's score lies in [0, its maximum impact], and the maxima add up to 100 |
| CreditScore.Checks | src/components/calculators/CreditScoreCalculator.tsx:120-138 | the five conditions, in the source's order |
| CreditScore.Fired | src/components/calculators/CreditScoreCalculator.tsx:120-138 | at most one message per condition |
| CreditScore.FiredExactly | src/components/calculators/CreditScoreCalculator.tsx:120-138 | with distinct messages, a message is pushed iff its condition holds |
| CreditScore.FiredUnrolled | src/components/calculators/CreditScoreCalculator.tsx:120-138 | the pushed messages are the triggered ones, in the fixed order |
| CreditScore.GetRecommendations | src/components/calculators/CreditScoreCalculator.tsx:116-142 | the pushes produce exactly the recommendations function |
| CreditScore.RecommendationsExact | src/components/calculators/CreditScoreCalculator.tsx:116-142 | 1 to 5 messages; each advice appears iff its condition holds; the standing message appears alone iff none does |
| CreditScore.CreditScoreScreen.constructor | src/components/calculators/CreditScoreCalculator.tsx:12-30 | the screen starts at the default inputs |
| CreditScore.CreditScoreScreen.UpdateScore | src/components/calculators/CreditScoreCalculator.tsx:33-75 | the effect writes the score as written (sub-score total divided by 100) and its band's label and colour, and changes no input |
| CreditScore.CreditScoreScreen.SetUsedCredit | src/components/calculators/CreditScoreCalculator.tsx:180 | the entered usage is capped at the total credit, and nothing else changes |
| CreditScore.CappedUsageWithinTotal | src/components/calculators/CreditScoreCalculator.tsx:180 | a capped usage always gives a ratio in 0–100 % |
| CreditImpact.DefaultFactors | src/components/calculators/CreditScoreImpactCalculator.tsx:14-25 | ten factors, none selected |
| CreditImpact.Projected | src/components/calculators/CreditScoreImpactCalculator.tsx:40 | the projection always lies in 300–850, and is current + impact whenever that is in range |
| CreditImpact.SelectedImpact | src/components/calculators/CreditScoreImpactCalculator.tsx:32-37 | nothing selected adds 0; non-negative impacts add up to a non-negative total, non-positive ones to a non-positive total |
| CreditImpact.SelectedImpactAppend | src/components/calculators/CreditScoreImpactCalculator.tsx:32-37 | the impact of two lists joined is the sum of their impacts |
| CreditImpact.SelectedImpactRemove | src/components/calculators/CreditScoreImpactCalculator.tsx:32-37 | the impact of a list is the impact without one factor plus that factor's contribution |
| CreditImpact.SelectedImpactPermutation | src/components/calculators/CreditScoreImpactCalculator.tsx:32-37 | reordering the factors leaves the impact unchanged |
| CreditImpact.ProjectedOrderIndependent | src/components/calculators/CreditScoreImpactCalculator.tsx:31-41 | the projected score does not depend on the factors' order |
| CreditImpact.Toggled | src/components/calculators/CreditScoreImpactCalculator.tsx:45-49 | only the factor with the matching id flips `selected`; everything else is kept |
| CreditImpact.ToggleTwice | src/components/calculators/CreditScoreImpactCalculator.tsx:45-49 | toggling twice restores the list |
| CreditImpact.ToggleShiftsImpact | src/components/calculators/CreditScoreImpactCalculator.tsx:32-49 | a toggle moves the impact by exactly the toggled factors' impacts, added or taken away |
| CreditImpact.Unselected | src/components/calculators/CreditScoreImpactCalculator.tsx:52-54 | reset unselects every factor and changes nothing else |
| CreditImpact.UnselectedImpact | src/components/calculators/CreditScoreImpactCalculator.tsx:52-54 | after reset the impact is 0 |
| CreditImpact.ResetRestoresCurrent | src/components/calculators/CreditScoreImpactCalculator.tsx:40 | after reset the projection equals any current score in 300–850 |
| CreditImpact.Selected | src/components/calculators/CreditScoreImpactCalculator.tsx:58 | the filter never lengthens the list |
| CreditImpact.SelectedExactly | src/components/calculators/CreditScoreImpactCalculator.tsx:58 | a factor is in the chart list iff it is in the list and selected |
| CreditImpact.ChartData | src/components/calculators/CreditScoreImpactCalculator.tsx:57-64 | one chart entry per selected factor |
| CreditImpact.ChartEntriesDescribeImpact | src/components/calculators/CreditScoreImpactCalculator.tsx:59-64 | each entry shows \|impact\| as both value and score impact, is positive iff the impact is, and its signed value is the impact |
| CreditImpact.ChartAgreesWithProjection | src/components/calculators/CreditScoreImpactCalculator.tsx:31-64 | the chart's signed values add up to the impact used by the projection |
| CreditImpact.ImpactScreen.constructor | src/components/calculators/CreditScoreImpactCalculator.tsx:13-28 | the screen starts at 650 with the ten factors, projecting 650 |
| CreditImpact.ImpactScreen.UpdateProjection | src/components/calculators/CreditScoreImpactCalculator.tsx:31-42 | the `forEach` sum and clamp produce the projected score and change nothing else |
| CreditImpact.ImpactScreen.ToggleFactor | src/components/calculators/CreditScoreImpactCalculator.tsx:45-49 | the factors become the toggled list |
| CreditImpact.ImpactScreen.ResetSelections | src/components/calculators/CreditScoreImpactCalculator.tsx:52-54 | the factors become the unselected list |
| GstCalculator.GstIncluded | src/components/calculators/GSTCalculator.tsx:31-40 | inclusive mode: total = amount, net + gst = amount and net·(1 + rate/100) = amount; undefined only at rate −100 |
| GstCalculator.Compute | src/components/calculators/GSTCalculator.tsx:22-41 | the effect always gives figures, except in inclusive mode at rate −100 |
| GstCalculator.BreakdownConsistent | src/components/calculators/GSTCalculator.tsx:25-40 | in both modes net + gst = total, and gst·100 = net·rate |
| GstCalculator.GstOnTop | src/components/calculators/GSTCalculator.tsx:25-30 | for a positive amount and rate >= 0: net = amount, total = net + gst and gst·100 = amount·rate; all zero otherwise |
| GstCalculator.ExclusiveFigures | src/components/calculators/GSTCalculator.tsx:25-30 | exclusive mode: net = amount, gst = amount·rate/100, total = amount + gst |
| GstCalculator.InclusiveUndoesExclusive | src/components/calculators/GSTCalculator.tsx:27-35 | inclusive mode on the exclusive total gives back the same net, gst and total |
| GstCalculator.ExclusiveUndoesInclusive | src/components/calculators/GSTCalculator.tsx:27-35 | exclusive mode on the inclusive net gives back the inclusive figures |
| GstCalculator.EighteenPercentOfAThousand | src/components/calculators/GSTCalculator.tsx:13-40 | 1000 at 18 % exclusive gives 180 and 1180, and 1180 inclusive gives 1000 and 180 |
| GstCalculator.SplitGST | src/components/calculators/GSTCalculator.tsx:140-146 | CGST = SGST, adding up to the GST, at equal rates adding up to the rate |
| GstCalculator.SplitChargesHalfRate | src/components/calculators/GSTCalculator.tsx:140-146 | each half is the net charged at half the rate |
| GstCalculator.Reset | src/components/calculators/GSTCalculator.tsx:43-47 | reset restores 1000, 18 % and exclusive mode |
| GstCalculator.ResetIdempotent | src/components/calculators/GSTCalculator.tsx:43-47 | resetting twice is resetting once, and the reset screen shows 180 and 1180 |
| CalculatorInput.Widget.constructor | src/components/ui-elements/CalculatorInput.tsx:34-47 | min, max and step default to 0, 100 and 1; the text shows the value and the box is not focused |
| CalculatorInput.Widget.SyncValue | src/components/ui-elements/CalculatorInput.tsx:50-52 | a new value from the parent replaces the text |
| CalculatorInput.Widget.HandleInputChange | src/components/ui-elements/CalculatorInput.tsx:54-64 | the typed text is kept; a number reaches the parent clamped into [min, max], anything else never reaches it |
| CalculatorInput.Widget.HandleSliderChange | src/components/ui-elements/CalculatorInput.tsx:66-68 | the slider hands its first thumb's value to the parent |
| CalculatorInput.Widget.HandleInputFocus | src/components/ui-elements/CalculatorInput.tsx:70-72 | focusing only sets the focus flag |
| CalculatorInput.Widget.HandleInputBlur | src/components/ui-elements/CalculatorInput.tsx:74-85 | leaving the box hands a number to the parent clamped, and shows it; text that is not a number reverts to the current value and reaches nobody |
| CalculatorInput.BlurSettles | src/components/ui-elements/CalculatorInput.tsx:77-84 | after a blur the text reads as a number in [min, max] that clamping leaves unchanged, so a second blur hands over the same value |
| CalculatorInput.ReplaceFirst | src/components/ui-elements/CalculatorInput.tsx:90-91 | a text shorter than the pattern is unchanged; otherwise the length is kept or changes by the replacement's length minus the pattern's |
| CalculatorInput.DisplayedSuffix | src/components/ui-elements/CalculatorInput.tsx:88-92 | a suffix is shown iff one is given; an empty one, or one without an enabled toggle, is shown as given |
| CalculatorInput.ReplaceFirstSpec | src/components/ui-elements/CalculatorInput.tsx:90-91 | `replace` with a text pattern replaces exactly its first occurrence |
| CalculatorInput.ReplaceFirstAbsent | src/components/ui-elements/CalculatorInput.tsx:90-91 | without an occurrence the text is unchanged |
| CalculatorInput.SuffixUnchangedWithoutToggle | src/components/ui-elements/CalculatorInput.tsx:88-92 | with the unit toggle absent or disabled, the suffix shows as given |
| CalculatorInput.SuffixToYears | src/components/ui-elements/CalculatorInput.tsx:89-90 | in years mode "Months" shows as "Years" |
| CalculatorInput.SuffixToMonths | src/components/ui-elements/CalculatorInput.tsx:91 | in months mode "Years" shows as "Months" |

## Left out

- IEEE-754 doubles are not modelled: there is no NaN, Infinity or rounding error. Identities such as the EMI/loan round trip hold exactly over the reals.
- Power.PowR: `Math.pow` at a fractional exponent, which the bisection solvers reach at month counts that are not whole, is not modelled as x^e. Instead it is the whole-exponent power times a linear interpolation across the fractional part. That agrees with x^n on whole n, is at least 1 and grows with the exponent, which is all the proofs use.
- FinanceMath.BisectFacts: the solvers are not proved to converge within 0.01 of the target, only to keep their bracket, halve it and stop within 100 passes. Whether the EMI at the bracket ends straddles the target depends on the floating-point EMI curve.
- Amortization.ScheduleRepaysLoan: the schedule is shown to pay the loan off exactly only for whole numbers of months. For a fractional month count the last row's balance is whatever the loop leaves.
- Amortization.GenerateSIPChartData requires a non-zero return rate. The source divides by the monthly rate, which gives NaN at 0; the SIP screen's rate input has a minimum of 1 %.
- LoanComparison.WithMetrics and the loan chart require a positive rate and tenure (`Computable`). The screen's own EMI formula has no zero guard, and the rate and tenure inputs have minimums of 4 % and 1 year.
- LoanComparison.AddLoanKeepsValid: the add handler is modelled on a non-empty list. `Math.max()` of an empty list is −Infinity, and the list never has fewer than 2 loans.
- LoanComparison.UpdateField models `handleLoanChange` for the four fields the screen edits: name, principal, rate and tenure. The computed fields are overwritten by the next effect anyway.
- LoanComparison.Keyed: chart points are maps keyed by loan name, so two loans with the same name overwrite each other, as in a JavaScript object. The per-loan lemmas assume the name is not repeated later in the list. The row label is kept beside that map in `ChartRow`; `AsObject` merges the two into the single object the source builds, where a loan named "name" overwrites the label.
- CreditScore.UtilizationRatio and the members built on it require totalCredit > 0. The source divides by it, and the input's minimum is 1000.
- CreditScore.CreditScoreScreen.SetUsedCredit caps usage only when it is entered. Lowering the total credit afterwards does not re-cap it, as in the source.
- CalculatorInput.Widget.HandleSliderChange requires a non-empty value array, which the slider always passes.
- GstCalculator.GstIncluded returns no figures at rate −100, where the source divides by zero. The rate input never goes below 0.
- formatCurrency (Intl.NumberFormat) and every other display formatting are not modelled. This includes `toFixed` in the result cards, the `value.toString()` text of the input widget (modelled as a rendered number), and the JavaScript `Number()` parser, whose result is a parameter.
- React scheduling is not modelled: effects, dependency arrays and re-renders. Each handler or effect is one synchronous state change, and each `set…` call is a field assignment.
- The FD, RD, PPF and SIP screens, the chart components, the layout, the blog content and the tab shell are not part of this model. They are rendering or call functions not shown.
- The EMI calculator's `getResultValue` is modelled only for the tenure tab (the year/month split). The other tabs only format a number.

## Findings

| source | as written | input that shows it | evidently intended | confidence | as-written member | corrected member |
|---|---|---|---|---|---|---|
| src/components/calculators/EMICalculator.tsx:345-347 | months = round((t − ⌊t⌋)·12) can be 12 | a solved tenure of 4.96 years displays "4 Years 12 Months" | carry 12 months into the years: "5 Years" | not executed | EmiCalculator.TenureDisplayAtFourPointNineSix | EmiCalculator.TenureDisplayCarried |
| src/components/calculators/CreditScoreCalculator.tsx:54 | the sub-score total (0–1000 points) is divided by 100 | the default inputs total about 604 points, so the raw score is about 3623 and the screen shows 850 (Excellent) | divide by 1000, giving 632 (Fair) | not executed | CreditScore.AsWrittenSaturates | CreditScore.RawScoreWithinScale |

The screens follow the code as written; the corrected forms stand beside them:

- EmiCalculator.TenureDisplay renders `TenureParts` as written. `TenureDisplayCarried` renders the corrected `TenurePartsCarried`.
- The screen's `UpdateScore` writes `FinalScoreAsWritten`. `RawScore`, `FinalScore`, `DefaultsScore` and the lemmas marked "corrected" use the `/1000` formula.
