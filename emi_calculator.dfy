/** The EMI calculator screen. Four tabs share one set of inputs (loan amount,
    annual rate, tenure in years, monthly EMI); the active tab decides which of
    the four is solved for from the other three. After every change the screen
    recomputes that one value and the total payment and interest, and in the EMI
    tab it also rebuilds the repayment chart and the payment schedule. */
module EmiCalculator {
  import opened Basics
  import opened FinanceMath
  import opened Amortization

  datatype Tab = EmiTab | LoanTab | InterestTab | TenureTab

  /** The four inputs the tabs share. */
  datatype Inputs = Inputs(loanAmount: real, interestRate: real, loanTenure: real, emiAmount: real)

  datatype Totals = Totals(totalInterest: real, totalPayment: real)

  /** One point of the repayment chart: a month label with the principal and
      the interest paid by then. */
  datatype ChartPoint = ChartPoint(name: string, principalPaid: real, interestPaid: real)

  /** `result` in calculateResults: the value the active tab solves for, the
      EMI from the loan, the loan from the EMI, or the rate or the tenure by
      bisection. */
  function Result(tab: Tab, i: Inputs): (result: real)
    ensures tab == InterestTab ==> 0.0 <= result <= 100.0
    ensures tab == TenureTab ==> 0.0 <= result <= 30.0
  {
    match tab
    case EmiTab => CalculateEMI(i.loanAmount, i.interestRate, i.loanTenure)
    case LoanTab => CalculateLoanAmount(i.emiAmount, i.interestRate, i.loanTenure)
    case InterestTab => InterestRateOf(i.emiAmount, i.loanAmount, i.loanTenure)
    case TenureTab => TimePeriodOf(i.emiAmount, i.loanAmount, i.interestRate)
  }

  /** The solver the active tab runs: the closed forms for the EMI and the
      loan, the bisection loops for the rate and the tenure. */
  method SolveFor(tab: Tab, loan: real, rate: real, tenure: real, emi: real) returns (result: real)
    ensures result == Result(tab, Inputs(loan, rate, tenure, emi))
  {
    match tab {
      case EmiTab => result := CalculateEMI(loan, rate, tenure);
      case LoanTab => result := CalculateLoanAmount(emi, rate, tenure);
      case InterestTab => result := CalculateInterestRate(emi, loan, tenure);
      case TenureTab => result := CalculateTimePeriod(emi, loan, rate);
    }
  }

  /** The inputs after the active tab writes its result back; the other three
      are left as they were. */
  function Solve(tab: Tab, i: Inputs, result: real): (o: Inputs)
    ensures tab != EmiTab ==> o.emiAmount == i.emiAmount
    ensures tab != LoanTab ==> o.loanAmount == i.loanAmount
    ensures tab != InterestTab ==> o.interestRate == i.interestRate
    ensures tab != TenureTab ==> o.loanTenure == i.loanTenure
  {
    match tab
    case EmiTab => i.(emiAmount := result)
    case LoanTab => i.(loanAmount := result)
    case InterestTab => i.(interestRate := result)
    case TenureTab => i.(loanTenure := result)
  }

  /** The totals each tab computes alongside its result. */
  function TotalsOf(tab: Tab, i: Inputs, result: real): Totals
  {
    match tab
    case EmiTab => Totals(result * i.loanTenure * 12.0 - i.loanAmount, result * i.loanTenure * 12.0)
    case LoanTab => Totals(i.emiAmount * i.loanTenure * 12.0 - result, i.emiAmount * i.loanTenure * 12.0)
    case InterestTab => Totals(i.emiAmount * i.loanTenure * 12.0 - i.loanAmount, i.emiAmount * i.loanTenure * 12.0)
    case TenureTab => Totals(i.emiAmount * result * 12.0 - i.loanAmount, i.emiAmount * result * 12.0)
  }

  /** In every tab the totals are those of the inputs after solving: the total
      payment is the EMI in use for every month of the tenure in use (in the
      tenure tab the freshly solved one), and payment minus interest is the
      loan in use (in the loan tab the freshly solved one). */
  lemma TotalsUseSolvedInputs(tab: Tab, i: Inputs, result: real)
    ensures var o := Solve(tab, i, result);
      var t := TotalsOf(tab, i, result);
      && t.totalPayment == o.emiAmount * o.loanTenure * 12.0
      && t.totalPayment - t.totalInterest == o.loanAmount
  {
  }

  /** With a positive loan and rate over a whole number of months, the EMI tab
      never reports negative interest: the installments cover the principal. */
  lemma EmiTabInterestNonNegative(loanAmount: real, interestRate: real, months: nat, emiAmount: real)
    requires loanAmount > 0.0 && interestRate > 0.0 && months > 0
    ensures var i := Inputs(loanAmount, interestRate, months as real / 12.0, emiAmount);
      TotalsOf(EmiTab, i, Result(EmiTab, i)).totalInterest >= 0.0
  {
    var t := months as real / 12.0;
    var e := CalculateEMI(loanAmount, interestRate, t);
    TotalPaymentCoversPrincipal(loanAmount, interestRate, months);
    assert e * t * 12.0 == e * months as real;
  }

  /** The chart rows: each label with the principal and interest at the same position. */
  function ChartPoints(c: EMIChart): (points: seq<ChartPoint>)
    requires |c.principal| == |c.labels| && |c.interest| == |c.labels|
    ensures |points| == |c.labels|
    ensures forall k :: 0 <= k < |points| ==>
      points[k].name == c.labels[k] && points[k].principalPaid == c.principal[k] && points[k].interestPaid == c.interest[k]
  {
    seq(|c.labels|, k requires 0 <= k < |c.labels| => ChartPoint(c.labels[k], c.principal[k], c.interest[k]))
  }

  /** The chart rows for a loan, from generateEMIChartData. */
  function ChartFor(loanAmount: real, interestRate: real, loanTenure: real): seq<ChartPoint>
  {
    ChartPoints(ChartFromSchedule(loanAmount, Schedule(loanAmount, interestRate, loanTenure)))
  }

  /** The schedule table: the first twelve rows unless the full view is on. */
  function DisplaySchedule(schedule: seq<Entry>, showFull: bool): (rows: seq<Entry>)
    ensures rows <= schedule
    ensures |rows| == if showFull then |schedule| else Min(12.0, |schedule| as real).Floor
  {
    if showFull || |schedule| <= 12 then schedule else schedule[..12]
  }

  /** The "Show Full Schedule" button appears when there are more than twelve rows. */
  predicate ShowToggle(schedule: seq<Entry>)
  {
    |schedule| > 12
  }

  /** The button is offered exactly when the short view hides some rows. */
  lemma ToggleIffRowsHidden(schedule: seq<Entry>)
    ensures ShowToggle(schedule) <==> DisplaySchedule(schedule, false) != schedule
  {
    if ShowToggle(schedule) {
      assert |DisplaySchedule(schedule, false)| == 12;
    }
  }

  /** The screen's state: the shared inputs, the active tab, the totals, the
      chart, the schedule and whether the whole schedule is shown. */
  class EmiScreen {
    var loanAmount: real
    var interestRate: real
    var loanTenure: real
    var emiAmount: real
    var activeTab: Tab
    var totalInterest: real
    var totalPayment: real
    var chartData: seq<ChartPoint>
    var paymentSchedule: seq<Entry>
    var showFullSchedule: bool

    function Current(): Inputs
      reads this
    {
      Inputs(loanAmount, interestRate, loanTenure, emiAmount)
    }

    /** The screen as first shown: 10 lakh at 8.5 % over 5 years, the EMI tab,
        nothing computed yet. */
    constructor ()
      ensures Current() == Inputs(1000000.0, 8.5, 5.0, 0.0)
      ensures activeTab == EmiTab && !showFullSchedule
      ensures totalInterest == 0.0 && totalPayment == 0.0
      ensures chartData == [] && paymentSchedule == []
    {
      loanAmount := 1000000.0;
      interestRate := 8.5;
      loanTenure := 5.0;
      emiAmount := 0.0;
      activeTab := EmiTab;
      totalInterest := 0.0;
      totalPayment := 0.0;
      chartData := [];
      paymentSchedule := [];
      showFullSchedule := false;
    }

    /** calculateResults: solve the active tab's value, write it back, set the
        totals, and in the EMI tab rebuild the chart and the schedule. */
    method CalculateResults()
      modifies this
      ensures var result := Result(old(activeTab), old(Current()));
        && Current() == Solve(old(activeTab), old(Current()), result)
        && Totals(totalInterest, totalPayment) == TotalsOf(old(activeTab), old(Current()), result)
      ensures activeTab == old(activeTab) && showFullSchedule == old(showFullSchedule)
      ensures activeTab == EmiTab ==>
        && paymentSchedule == Schedule(loanAmount, interestRate, loanTenure)
        && chartData == ChartFor(loanAmount, interestRate, loanTenure)
      ensures activeTab != EmiTab ==> paymentSchedule == old(paymentSchedule) && chartData == old(chartData)
    {
      // The state setters only take effect after the handler returns, so every
      // figure is computed from the inputs as they were on entry.
      var loan, rate, tenure := loanAmount, interestRate, loanTenure;
      var result := SolveFor(activeTab, loan, rate, tenure, emiAmount);
      Apply(result);
      if activeTab == EmiTab {
        var chart := GenerateEMIChartData(loan, rate, tenure);
        chartData := ChartPoints(chart);
        var schedule := CalculateAmortizationSchedule(loan, rate, tenure);
        paymentSchedule := schedule;
      }
    }

    /** The switch's writes: the active tab's result goes into its own input
        and the totals are set from it and the other inputs. */
    method Apply(result: real)
      modifies this
      ensures Current() == Solve(activeTab, old(Current()), result)
      ensures Totals(totalInterest, totalPayment) == TotalsOf(activeTab, old(Current()), result)
      ensures activeTab == old(activeTab) && showFullSchedule == old(showFullSchedule)
      ensures paymentSchedule == old(paymentSchedule) && chartData == old(chartData)
    {
      var loan, tenure, emi := loanAmount, loanTenure, emiAmount;
      match activeTab {
        case EmiTab =>
          emiAmount := result;
          totalInterest := result * tenure * 12.0 - loan;
          totalPayment := result * tenure * 12.0;
        case LoanTab =>
          loanAmount := result;
          totalInterest := emi * tenure * 12.0 - result;
          totalPayment := emi * tenure * 12.0;
        case InterestTab =>
          interestRate := result;
          totalInterest := emi * tenure * 12.0 - loan;
          totalPayment := emi * tenure * 12.0;
        case TenureTab =>
          loanTenure := result;
          totalInterest := emi * result * 12.0 - loan;
          totalPayment := emi * result * 12.0;
      }
    }

    /** handleReset: the default loan, rate and tenure and an EMI of 20000; the
        tab and everything computed stay as they are until the next recompute. */
    method HandleReset()
      modifies this
      ensures Current() == Inputs(1000000.0, 8.5, 5.0, 20000.0)
      ensures activeTab == old(activeTab) && showFullSchedule == old(showFullSchedule)
      ensures totalInterest == old(totalInterest) && totalPayment == old(totalPayment)
      ensures chartData == old(chartData) && paymentSchedule == old(paymentSchedule)
    {
      loanAmount := 1000000.0;
      interestRate := 8.5;
      loanTenure := 5.0;
      emiAmount := 20000.0;
    }

    /** Switching tabs changes only the tab. */
    method SelectTab(tab: Tab)
      modifies this
      ensures activeTab == tab
      ensures Current() == old(Current()) && showFullSchedule == old(showFullSchedule)
      ensures totalInterest == old(totalInterest) && totalPayment == old(totalPayment)
      ensures chartData == old(chartData) && paymentSchedule == old(paymentSchedule)
    {
      activeTab := tab;
    }

    /** The "Show Full Schedule" / "Show Less" button. */
    method ToggleFullSchedule()
      modifies this
      ensures showFullSchedule == !old(showFullSchedule)
      ensures Current() == old(Current()) && activeTab == old(activeTab)
      ensures totalInterest == old(totalInterest) && totalPayment == old(totalPayment)
      ensures chartData == old(chartData) && paymentSchedule == old(paymentSchedule)
    {
      showFullSchedule := !showFullSchedule;
    }
  }

  /** A loan over a whole number of months beyond a year (the default, 10 lakh
      at 8.5 % over 5 years, has 60) has a row per month, so the table starts
      with its first year and offers the full view. */
  lemma LongLoanOffersFullView(principal: real, rate: real, n: nat)
    requires principal > 0.0 && rate > 0.0 && n > 12
    ensures |Schedule(principal, rate, n as real / 12.0)| == n
    ensures ShowToggle(Schedule(principal, rate, n as real / 12.0))
    ensures |DisplaySchedule(Schedule(principal, rate, n as real / 12.0), false)| == 12
  {
    ScheduleRepaysLoan(principal, rate, n);
  }

  // ---------------------------------------------------------------------------
  // Tenure display (getResultValue, 'tenure' tab)

  /** The tenure split as written: whole years, then the rest rounded to months. */
  function TenureParts(t: real): (parts: (int, int))
    ensures parts.0 == t.Floor
    ensures parts.0 * 12 + parts.1 == Round(t * 12.0)
    ensures 0 <= parts.1 <= 12
  {
    var years := t.Floor;
    var months := Round((t - years as real) * 12.0);
    assert (t - years as real) * 12.0 + (years * 12) as real == t * 12.0;
    RoundShift((t - years as real) * 12.0, years * 12);
    RoundBetween((t - years as real) * 12.0, 0, 12);
    (years, months)
  }

  /** Rounding commutes with adding a whole number. */
  lemma RoundShift(x: real, k: int)
    ensures Round(x + k as real) == Round(x) + k
  {
  }

  /** The label: "<years> Years", followed by " <months> Months" unless that is 0. */
  function TenureLabel(years: int, months: int): (shown: string)
    ensures |IntToString(years)| + 6 <= |shown|
    ensures shown[..|IntToString(years)| + 6] == IntToString(years) + " Years"
    ensures months > 0 <==> |shown| > |IntToString(years)| + 6
  {
    IntToString(years) + " Years" + (if months > 0 then " " + IntToString(months) + " Months" else "")
  }

  /** A solved tenure just under a whole year shows twelve months instead of
      one more year: 4.96 years reads "4 Years 12 Months". */
  lemma TenurePartsShowsTwelveMonths()
    ensures TenureParts(4.96) == (4, 12)
    ensures TenureLabel(4, 12) == "4 Years 12 Months"
  {
    assert (4.96).Floor == 4;
    assert Round((4.96 - 4.0) * 12.0) == 12;
  }

  /** The tenure split with the carry: the tenure rounded to whole months, as
      years and a remainder of 0 to 11 months. */
  function TenurePartsCarried(t: real): (parts: (int, int))
    ensures parts.0 * 12 + parts.1 == Round(t * 12.0)
    ensures 0 <= parts.1 < 12
  {
    var total := Round(t * 12.0);
    (total / 12, total % 12)
  }

  /** The carried split agrees with the written one whenever the latter shows
      fewer than twelve months, and otherwise moves the twelve months into one
      more year. */
  lemma TenurePartsCarriedAgrees(t: real)
    ensures TenureParts(t).1 < 12 ==> TenurePartsCarried(t) == TenureParts(t)
    ensures TenureParts(t).1 == 12 ==> TenurePartsCarried(t) == (TenureParts(t).0 + 1, 0)
  {
    var (y, m) := TenureParts(t);
    var total := Round(t * 12.0);
    assert total == y * 12 + m;
    if m < 12 {
      assert total / 12 == y && total % 12 == m;
    } else {
      assert total == (y + 1) * 12;
      assert total / 12 == y + 1 && total % 12 == 0;
    }
  }

  /** The tenure result as getResultValue displays it: the written split, so
      a tenure just under a whole year can read "12 Months". The label spells
      the whole years of the tenure and the months that bring it to the tenure
      rounded to whole months. */
  function TenureDisplay(t: real): (shown: string)
    ensures shown == TenureLabel(t.Floor, Round(t * 12.0) - 12 * t.Floor)
    ensures exists y, m :: shown == TenureLabel(y, m) && y * 12 + m == Round(t * 12.0) && 0 <= m <= 12
  {
    var parts := TenureParts(t);
    TenureLabel(parts.0, parts.1)
  }

  /** The corrected display: the carried split, so the months shown are 0 to 11. */
  function TenureDisplayCarried(t: real): (shown: string)
    ensures exists y, m :: shown == TenureLabel(y, m) && y * 12 + m == Round(t * 12.0) && 0 <= m < 12
  {
    var parts := TenurePartsCarried(t);
    TenureLabel(parts.0, parts.1)
  }

  /** 4.96 years is displayed as "4 Years 12 Months"; corrected, it reads "5 Years". */
  lemma TenureDisplayAtFourPointNineSix()
    ensures TenureDisplay(4.96) == "4 Years 12 Months"
    ensures TenureDisplayCarried(4.96) == "5 Years"
  {
    TenurePartsShowsTwelveMonths();
    TenurePartsCarriedAgrees(4.96);
    assert TenureLabel(5, 0) == "5 Years";
  }

  /** A label names one split only: for whole years and months that are not
      negative, equal labels mean equal years and equal months. */
  lemma TenureLabelDeterminesParts(y1: int, m1: int, y2: int, m2: int)
    requires y1 >= 0 && m1 >= 0 && y2 >= 0 && m2 >= 0
    ensures TenureLabel(y1, m1) == TenureLabel(y2, m2) ==> y1 == y2 && m1 == m2
  {
    if TenureLabel(y1, m1) == TenureLabel(y2, m2) {
      LabelSplits(y1, m1);
      LabelSplits(y2, m2);
      DigitsBeforeSpace(NatToString(y1), " Years" + MonthsPart(m1), NatToString(y2), " Years" + MonthsPart(m2));
      NatToStringInjective(y1, y2);
      SamePrefixCancels(" Years", MonthsPart(m1), MonthsPart(m2));
      MonthsPartInjective(m1, m2);
    }
  }

  /** The text after "<years> Years": " <months> Months", or nothing for 0 months. */
  function MonthsPart(m: int): string
  {
    if m > 0 then " " + IntToString(m) + " Months" else ""
  }

  lemma LabelSplits(y: int, m: int)
    requires y >= 0
    ensures TenureLabel(y, m) == NatToString(y) + (" Years" + MonthsPart(m))
  {
  }

  lemma SamePrefixCancels(p: string, x: string, y: string)
    requires p + x == p + y
    ensures x == y
  {
    assert x == (p + x)[|p|..] && y == (p + y)[|p|..];
  }

  lemma MonthsPartInjective(m1: int, m2: int)
    requires m1 >= 0 && m2 >= 0 && MonthsPart(m1) == MonthsPart(m2)
    ensures m1 == m2
  {
    if m1 > 0 && m2 > 0 {
      var r1 := MonthsPart(m1);
      assert NatToString(m1) == r1[1..|r1| - 7];
      assert NatToString(m2) == r1[1..|r1| - 7];
      NatToStringInjective(m1, m2);
    }
  }

  /** Two strings that each start with a run of digits followed by a space
      split at the same place. */
  lemma DigitsBeforeSpace(a: string, x: string, b: string, y: string)
    requires forall i :: 0 <= i < |a| ==> '0' <= a[i] <= '9'
    requires forall i :: 0 <= i < |b| ==> '0' <= b[i] <= '9'
    requires |x| > 0 && x[0] == ' ' && |y| > 0 && y[0] == ' '
    requires a + x == b + y
    ensures a == b && x == y
  {
    FirstSpaceAfterDigits(a, x);
    FirstSpaceAfterDigits(b, y);
    assert a == (a + x)[..|a|] && b == (b + y)[..|b|];
    assert x == (a + x)[|a|..] && y == (b + y)[|b|..];
  }

  /** The position of the first space (the length when there is none). */
  function FirstSpace(s: string): nat
    decreases |s|
  {
    if |s| == 0 || s[0] == ' ' then 0 else 1 + FirstSpace(s[1..])
  }

  lemma {:induction false} FirstSpaceAfterDigits(a: string, x: string)
    requires forall i :: 0 <= i < |a| ==> '0' <= a[i] <= '9'
    requires |x| > 0 && x[0] == ' '
    ensures FirstSpace(a + x) == |a|
    decreases |a|
  {
    if |a| > 0 {
      assert (a + x)[0] == a[0];
      assert (a + x)[1..] == a[1..] + x;
      FirstSpaceAfterDigits(a[1..], x);
    } else {
      assert a + x == x;
    }
  }
}
